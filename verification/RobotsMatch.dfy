/**
 * Path patterns of robots.txt: how a pattern becomes a regular expression, what that expression
 * matches, which rule of a group is the longest match, and what a group therefore allows.
 */
module RobotsMatch {
  import opened Options

  /** The regular expression of a pattern: a literal character, `.*`, or the end-of-input anchor. */
  datatype Token = Lit(c: char) | Any | End

  function TokenOf(c: char): Token { if c == '*' then Any else if c == '$' then End else Lit(c) }

  function Tokens(pattern: string): seq<Token> { seq(|pattern|, i requires 0 <= i < |pattern| => TokenOf(pattern[i])) }

  // --- From pattern to expression source ---------------------------------------------------------

  /** The characters the program escapes; an unescaped one would not stand for itself. */
  const META: set<char> := {'.', '+', '?', '^', '$', '{', '}', '(', ')', '|', '[', ']', '\\'}

  function Source(pattern: string): string {
    if pattern == "" then "" else SourceOf(pattern[0]) + Source(pattern[1..])
  }

  function SourceOf(c: char): string {
    if c == '*' then ".*" else if c == '$' then "$" else if c in META then ['\\', c] else [c]
  }

  lemma SourceStep(pattern: string, i: nat)
    requires i < |pattern|
    ensures Source(pattern[i..]) == SourceOf(pattern[i]) + Source(pattern[i + 1..])
  {
    assert pattern[i..][1..] == pattern[i + 1..];
  }

  lemma Associate(a: string, b: string, c: string)
    ensures (a + b) + c == a + (b + c)
  {
  }

  method PatternToSource(pattern: string) returns (src: string)
    ensures src == "^" + Source(pattern)
  {
    hide Source, SourceOf;
    src := "^";
    for i := 0 to |pattern|
      invariant src + Source(pattern[i..]) == "^" + Source(pattern)
    {
      SourceStep(pattern, i);
      Associate(src, SourceOf(pattern[i]), Source(pattern[i + 1..]));
      src := AppendSource(src, pattern[i]);
    }
    assert Source(pattern[|pattern|..]) == "" by { SourceOfNothing(pattern[|pattern|..]); }
  }

  lemma SourceOfNothing(pattern: string)
    requires pattern == ""
    ensures Source(pattern) == ""
  {
  }

  method AppendSource(src: string, c: char) returns (longer: string)
    ensures longer == src + SourceOf(c)
  {
    if c == '*' { return src + ".*"; }
    if c == '$' { return src + "$"; }
    return src + (if c in META then ['\\', c] else [c]);
  }

  /** How a regular expression engine reads a source: `None` for anything but the three tokens. */
  function Read(src: string): Option<seq<Token>> {
    if src == "" then Some([])
    else if src[0] == '\\' then
      if |src| >= 2 && src[1] in META then Cons(Lit(src[1]), Read(src[2..])) else None
    else if src[0] == '.' then
      if |src| >= 2 && src[1] == '*' then Cons(Any, Read(src[2..])) else None
    else if src[0] == '$' then Cons(End, Read(src[1..]))
    else if src[0] in META || src[0] == '*' then None
    else Cons(Lit(src[0]), Read(src[1..]))
  }

  function Cons(t: Token, rest: Option<seq<Token>>): Option<seq<Token>> {
    if rest.None? then None else Some([t] + rest.value)
  }

  /** The engine reads one character's source as that character's token and goes on with the rest. */
  lemma ReadOne(c: char, rest: string)
    ensures Read(SourceOf(c) + rest) == Cons(TokenOf(c), Read(rest))
  {
    var src := SourceOf(c) + rest;
    assert src[|SourceOf(c)|..] == rest;
  }

  /** Escaping is complete: the engine reads back exactly the pattern's own tokens, for every pattern. */
  lemma {:induction false} SourceReadsBack(pattern: string)
    ensures Read(Source(pattern)) == Some(Tokens(pattern))
    decreases |pattern|
  {
    hide SourceOf, TokenOf, Read;
    if pattern != "" {
      SourceReadsBack(pattern[1..]);
      ReadOne(pattern[0], Source(pattern[1..]));
      assert Tokens(pattern) == [TokenOf(pattern[0])] + Tokens(pattern[1..]);
    } else {
      assert Tokens(pattern) == [] && Read("") == Some([]) by { ReadNothing(); }
    }
  }

  lemma ReadNothing()
    ensures Read("") == Some([])
  {
  }

  // --- What an expression matches ------------------------------------------------------------------

  /** `.` does not match these. */
  predicate LineTerminator(c: char) { c == '\n' || c == '\r' || c == '\U{2028}' || c == '\U{2029}' }

  /** Match from the start of `path`, by backtracking; whatever follows the last token is free. */
  predicate Matches(tokens: seq<Token>, path: string)
    decreases |tokens| + |path|
  {
    if tokens == [] then true
    else
      match tokens[0]
      case Lit(c) => path != "" && path[0] == c && Matches(tokens[1..], path[1..])
      case End => path == "" && Matches(tokens[1..], path)
      case Any => Matches(tokens[1..], path) || (path != "" && !LineTerminator(path[0]) && Matches(tokens, path[1..]))
  }

  /** One way to lay a pattern over a path: the stretch of the path each token takes. */
  ghost predicate Fits(token: Token, stretch: string, rest: string) {
    match token
    case Lit(c) => stretch == [c]
    case Any => forall i :: 0 <= i < |stretch| ==> !LineTerminator(stretch[i])
    case End => stretch == "" && rest == ""
  }

  /** The stretches, in order, make up the start of the path, and each one fits its token. */
  ghost predicate Layout(tokens: seq<Token>, stretches: seq<string>, path: string) {
    |stretches| == |tokens| &&
    (tokens != [] ==>
       stretches[0] <= path && Fits(tokens[0], stretches[0], path[|stretches[0]|..])
       && Layout(tokens[1..], stretches[1..], path[|stretches[0]|..]))
  }

  lemma {:induction false} MatchHasLayout(tokens: seq<Token>, path: string) returns (stretches: seq<string>)
    requires Matches(tokens, path)
    ensures Layout(tokens, stretches, path)
    decreases |tokens| + |path|
  {
    if tokens == [] { return []; }
    match tokens[0]
    case Lit(c) =>
      var rest := MatchHasLayout(tokens[1..], path[1..]);
      stretches := [[c]] + rest;
      assert stretches[1..] == rest;
    case End =>
      var rest := MatchHasLayout(tokens[1..], path);
      stretches := [""] + rest;
      assert stretches[1..] == rest;
    case Any =>
      if Matches(tokens[1..], path) {
        var rest := MatchHasLayout(tokens[1..], path);
        stretches := [""] + rest;
        assert stretches[1..] == rest && path[0..] == path;
      } else {
        var rest := MatchHasLayout(tokens, path[1..]);
        stretches := [[path[0]] + rest[0]] + rest[1..];
        assert stretches[1..] == rest[1..];
        assert path[|stretches[0]|..] == path[1..][|rest[0]|..];
      }
  }

  lemma {:induction false} LayoutMatches(tokens: seq<Token>, stretches: seq<string>, path: string)
    requires Layout(tokens, stretches, path)
    ensures Matches(tokens, path)
    decreases |tokens| + |path|
  {
    if tokens != [] {
      var first := stretches[0];
      if tokens[0].Any? && first != "" {
        var shorter := [first[1..]] + stretches[1..];
        assert shorter[1..] == stretches[1..];
        assert path[1..][|first| - 1..] == path[|first|..];
        assert !LineTerminator(first[0]);
        LayoutMatches(tokens, shorter, path[1..]);
      } else {
        assert tokens[0].Lit? || path[|first|..] == path;
        LayoutMatches(tokens[1..], stretches[1..], path[|first|..]);
      }
    }
  }

  ghost predicate CanBeLaid(tokens: seq<Token>, path: string) {
    exists stretches :: Layout(tokens, stretches, path)
  }

  /** The matcher finds a match exactly when the pattern can be laid over the start of the path. */
  lemma MatchMeansLayout(tokens: seq<Token>, path: string)
    ensures Matches(tokens, path) <==> CanBeLaid(tokens, path)
  {
    hide Matches, Layout;
    if Matches(tokens, path) {
      var stretches := MatchHasLayout(tokens, path);
      assert Layout(tokens, stretches, path);
    }
    if CanBeLaid(tokens, path) {
      var stretches :| Layout(tokens, stretches, path);
      LayoutMatches(tokens, stretches, path);
    }
  }

  predicate PatternMatches(pattern: string, path: string) { Matches(Tokens(pattern), path) }

  /** A pattern without wildcards matches exactly the paths that begin with it. */
  lemma {:induction false} PlainPatternIsPrefix(pattern: string, path: string)
    requires forall i :: 0 <= i < |pattern| ==> pattern[i] != '*' && pattern[i] != '$'
    ensures PatternMatches(pattern, path) <==> pattern <= path
    decreases |pattern|
  {
    if pattern != "" {
      assert Tokens(pattern)[1..] == Tokens(pattern[1..]);
      if path != "" && path[0] == pattern[0] {
        PlainPatternIsPrefix(pattern[1..], path[1..]);
        assert pattern <= path <==> pattern[1..] <= path[1..] by {
          assert pattern == [pattern[0]] + pattern[1..] && path == [path[0]] + path[1..];
        }
      }
    }
  }

  /** With `$` at its end it matches exactly that path. */
  lemma {:induction false} AnchoredPatternIsExact(pattern: string, path: string)
    requires forall i :: 0 <= i < |pattern| ==> pattern[i] != '*' && pattern[i] != '$'
    ensures PatternMatches(pattern + "$", path) <==> pattern == path
    decreases |pattern|
  {
    var tokens := Tokens(pattern + "$");
    if pattern == "" {
      assert pattern + "$" == "$" && tokens == [End] && tokens[1..] == [];
      assert Matches(tokens[1..], path);
    } else {
      assert (pattern + "$")[1..] == pattern[1..] + "$";
      assert tokens[1..] == Tokens(pattern[1..] + "$");
      if path != "" && path[0] == pattern[0] {
        AnchoredPatternIsExact(pattern[1..], path[1..]);
        assert pattern == [pattern[0]] + pattern[1..] && path == [path[0]] + path[1..];
      }
    }
  }

  /** `$` anchors wherever it stands: a pattern that asks for a character after one never matches. */
  lemma {:induction false} NothingAfterAnchor(pattern: string, path: string, i: nat, j: nat)
    requires i < j < |pattern| && pattern[i] == '$' && pattern[j] != '*' && pattern[j] != '$'
    ensures !PatternMatches(pattern, path)
  {
    hide Matches, Layout, Tokens;
    if PatternMatches(pattern, path) {
      var tokens := Tokens(pattern);
      TokensAt(pattern);
      var stretches := MatchHasLayout(tokens, path);
      LayoutLength(tokens, stretches, path);
      var rest := LayoutFrom(tokens, stretches, path, i);
      AnchorAtEnd(tokens[i..], stretches[i..], rest);
      EmptyHasNoLiteral(tokens[i..], stretches[i..], j - i);
    }
  }

  lemma TokensAt(pattern: string)
    ensures |Tokens(pattern)| == |pattern| && forall i :: 0 <= i < |pattern| ==> Tokens(pattern)[i] == TokenOf(pattern[i])
  {
  }

  lemma LayoutLength(tokens: seq<Token>, stretches: seq<string>, path: string)
    requires Layout(tokens, stretches, path)
    ensures |stretches| == |tokens|
  {
  }

  lemma AnchorAtEnd(tokens: seq<Token>, stretches: seq<string>, path: string)
    requires Layout(tokens, stretches, path) && tokens != [] && tokens[0].End?
    ensures path == ""
  {
  }

  lemma {:induction false} EmptyHasNoLiteral(tokens: seq<Token>, stretches: seq<string>, k: nat)
    requires Layout(tokens, stretches, "") && k < |tokens|
    ensures !tokens[k].Lit?
    decreases k
  {
    if k > 0 {
      assert ""[|stretches[0]|..] == "";
      EmptyHasNoLiteral(tokens[1..], stretches[1..], k - 1);
    }
  }

  /** A layout's tail is a layout of what is left of the path. */
  lemma {:induction false} LayoutFrom(tokens: seq<Token>, stretches: seq<string>, path: string, i: nat) returns (rest: string)
    requires Layout(tokens, stretches, path) && i <= |tokens|
    ensures |rest| <= |path| && Layout(tokens[i..], stretches[i..], rest)
    decreases i
  {
    if i == 0 {
      assert tokens[0..] == tokens && stretches[0..] == stretches;
      return path;
    }
    rest := LayoutFrom(tokens[1..], stretches[1..], path[|stretches[0]|..], i - 1);
    assert tokens[1..][i - 1..] == tokens[i..] && stretches[1..][i - 1..] == stretches[i..];
  }

  // --- The anchor of the standard ---------------------------------------------------------------------

  /** Only the last character of a pattern can mark its end; any other `$` stands for itself. */
  function StandardTokens(pattern: string): seq<Token> {
    seq(|pattern|, i requires 0 <= i < |pattern| => if pattern[i] == '$' && i + 1 < |pattern| then Lit('$') else TokenOf(pattern[i]))
  }

  /** A pattern matches as section 2.2.3 of RFC 9309 reads it. */
  ghost predicate Conforms(pattern: string, path: string) { CanBeLaid(StandardTokens(pattern), path) }

  predicate EarlyAnchor(pattern: string, i: nat) { i + 1 < |pattern| && pattern[i] == '$' }

  /** What a pattern says literally. */
  function Text(tokens: seq<Token>): string {
    if tokens == [] then "" else (if tokens[0].Lit? then [tokens[0].c] else "") + Text(tokens[1..])
  }

  predicate NoTextAfterEnd(tokens: seq<Token>) {
    forall i, j :: 0 <= i < j < |tokens| && tokens[i].End? ==> !tokens[j].Lit?
  }

  lemma {:induction false} NoText(tokens: seq<Token>)
    requires forall i :: 0 <= i < |tokens| ==> !tokens[i].Lit?
    ensures Text(tokens) == ""
  {
    if tokens != [] { NoText(tokens[1..]); }
  }

  /** A pattern that asks for nothing behind its anchors matches its own text. */
  lemma {:induction false} OwnText(tokens: seq<Token>)
    requires NoTextAfterEnd(tokens)
    ensures Matches(tokens, Text(tokens))
  {
    if tokens != [] {
      OwnText(tokens[1..]);
      if tokens[0].Lit? {
        assert Text(tokens)[1..] == Text(tokens[1..]);
      } else {
        assert Text(tokens) == Text(tokens[1..]);
        if tokens[0].End? { NoText(tokens[1..]); }
      }
    }
  }

  lemma {:induction false} TextOnly(tokens: seq<Token>, c: char)
    requires Lit(c) !in tokens
    ensures c !in Text(tokens)
  {
    if tokens != [] { TextOnly(tokens[1..], c); }
  }

  lemma {:induction false} LiteralNeeded(tokens: seq<Token>, path: string, k: nat)
    requires Matches(tokens, path) && k < |tokens| && tokens[k].Lit?
    ensures tokens[k].c in path
    decreases |tokens| + |path|
  {
    if k > 0 || !tokens[0].Lit? {
      if tokens[0].Lit? {
        LiteralNeeded(tokens[1..], path[1..], k - 1);
      } else if tokens[0].End? || Matches(tokens[1..], path) {
        LiteralNeeded(tokens[1..], path, k - 1);
      } else {
        LiteralNeeded(tokens, path[1..], k);
      }
    }
  }

  /** A `$` before the end: some path tells the program's matcher from the standard's. */
  lemma EarlyAnchorDiffers(pattern: string, i: nat) returns (path: string)
    requires EarlyAnchor(pattern, i)
    ensures PatternMatches(pattern, path) != Conforms(pattern, path)
  {
    hide Matches, CanBeLaid, Text;
    var read, standard := Tokens(pattern), StandardTokens(pattern);
    TokensAt(pattern);
    if a, j :| 0 <= a < j < |pattern| && pattern[a] == '$' && pattern[j] != '*' && pattern[j] != '$' {
      path := Text(standard);
      NothingAfterAnchor(pattern, path, a, j);
      OwnText(standard);
    } else {
      path := Text(read);
      OwnText(read);
      TextOnly(read, '$');
      if Matches(standard, path) { LiteralNeeded(standard, path, i); }
    }
    MatchMeansLayout(standard, path);
  }

  /** The program reads a pattern as the standard does if and only if no `$` stands before its last character. */
  lemma StandardExactly(pattern: string)
    ensures (forall path :: PatternMatches(pattern, path) <==> Conforms(pattern, path)) <==>
              !exists i: nat :: EarlyAnchor(pattern, i)
  {
    hide Matches, CanBeLaid;
    if i: nat :| EarlyAnchor(pattern, i) {
      var path := EarlyAnchorDiffers(pattern, i);
      assert PatternMatches(pattern, path) != Conforms(pattern, path);
    } else {
      forall i: nat | i < |pattern| ensures StandardTokens(pattern)[i] == Tokens(pattern)[i] {
        assert !EarlyAnchor(pattern, i);
      }
      assert StandardTokens(pattern) == Tokens(pattern);
      forall path ensures PatternMatches(pattern, path) <==> Conforms(pattern, path) {
        MatchMeansLayout(Tokens(pattern), path);
      }
    }
  }

  /** The rule that spells a path with a `$` does not match it, and a doubled anchor matches too much. */
  lemma EarlyAnchorCounterexamples()
    ensures !PatternMatches("/$a", "/$a") && Conforms("/$a", "/$a")
    ensures PatternMatches("/$$", "/") && !Conforms("/$$", "/")
  {
    hide CanBeLaid;
    NothingAfterAnchor("/$a", "/$a", 1, 2);
    var spelled := [Lit('/'), Lit('$'), Lit('a')];
    assert StandardTokens("/$a") == spelled;
    assert spelled[1..] == [Lit('$'), Lit('a')] && spelled[1..][1..] == [Lit('a')] && [Lit('a')][1..] == [];
    assert "/$a"[1..] == "$a" && "$a"[1..] == "a";
    assert Matches([Lit('a')], "a") && Matches(spelled, "/$a");
    MatchMeansLayout(spelled, "/$a");
    var doubled := [Lit('/'), Lit('$'), End];
    assert Tokens("/$$") == [Lit('/'), End, End] && StandardTokens("/$$") == doubled;
    assert "/"[1..] == "" && [Lit('/'), End, End][1..] == [End, End] && [End, End][1..] == [End];
    assert Matches([End], "") && Matches([End, End], "");
    if Matches(doubled, "/") { LiteralNeeded(doubled, "/", 1); }
    MatchMeansLayout(doubled, "/");
  }

  // --- The rules of a group ------------------------------------------------------------------------

  ghost predicate Hit(pattern: string, patterns: seq<string>, path: string) {
    pattern in patterns && PatternMatches(pattern, path)
  }

  /** -1 when nothing matches, else the length of the longest pattern that does. */
  ghost predicate IsLongest(best: int, patterns: seq<string>, path: string) {
    && (best == -1 ==> forall p :: !Hit(p, patterns, path))
    && (best != -1 ==> exists p :: Hit(p, patterns, path) && |p| == best)
    && (forall p :: Hit(p, patterns, path) ==> |p| <= best)
  }

  method LongestMatch(patterns: seq<string>, path: string) returns (best: int)
    ensures IsLongest(best, patterns, path) && best == Longest(patterns, path)
  {
    best := -1;
    LongestMeaning(patterns[..0], path);
    for i := 0 to |patterns|
      invariant best == Longest(patterns[..i], path)
    {
      assert patterns[..i + 1][..i] == patterns[..i];
      LongestMeaning(patterns[..i], path);
      if |patterns[i]| <= best { continue; }
      if PatternMatches(patterns[i], path) { best := |patterns[i]|; }
    }
    assert patterns[..|patterns|] == patterns;
    LongestMeaning(patterns, path);
  }

  /** The true maximum, with no pattern skipped. */
  function Longest(patterns: seq<string>, path: string): int {
    if patterns == [] then -1
    else
      var rest, p := Longest(patterns[..|patterns| - 1], path), patterns[|patterns| - 1];
      if PatternMatches(p, path) && |p| > rest then |p| else rest
  }

  lemma {:induction false} LongestMeaning(patterns: seq<string>, path: string)
    ensures IsLongest(Longest(patterns, path), patterns, path)
    decreases |patterns|
  {
    hide PatternMatches;
    if patterns != [] {
      var front, last := patterns[..|patterns| - 1], patterns[|patterns| - 1];
      LongestMeaning(front, path);
      assert forall p :: Hit(p, patterns, path) <==> Hit(p, front, path) || (p == last && PatternMatches(p, path));
    }
  }

  /** The maximum depends on which patterns there are, not on their order or repetition. */
  lemma OrderIrrelevant(patterns: seq<string>, others: seq<string>, path: string)
    requires forall p :: p in patterns ==> p in others
    ensures Longest(patterns, path) <= Longest(others, path)
  {
    LongestMeaning(patterns, path);
    LongestMeaning(others, path);
    if Longest(patterns, path) != -1 {
      var p :| Hit(p, patterns, path) && |p| == Longest(patterns, path);
      assert Hit(p, others, path);
    }
  }

  datatype Group = Group(allow: seq<string>, disallow: seq<string>, crawlDelayMs: int)

  predicate Allows(selected: Option<Group>, path: string) {
    selected.None? ||
    var disallow := Longest(selected.value.disallow, path);
    disallow == -1 || Longest(selected.value.allow, path) >= disallow
  }

  /** The program's test, with its two scans. */
  method IsAllowed(selected: Option<Group>, path: string) returns (allowed: bool)
    ensures allowed <==> Allows(selected, path)
  {
    if selected.None? { return true; }
    var disallow := LongestMatch(selected.value.disallow, path);
    if disallow == -1 { return true; }
    var allow := LongestMatch(selected.value.allow, path);
    return allow >= disallow;
  }

  /**
   * The most specific rule wins and a tie goes to Allow, as in section 2.2.2 of RFC 9309: a path is
   * refused exactly when some Disallow rule matches it and is longer than every Allow rule that does.
   */
  lemma MostSpecificRuleWins(group: Group, path: string)
    ensures Allows(Some(group), path) <==>
              !exists d :: Hit(d, group.disallow, path) && forall a :: Hit(a, group.allow, path) ==> |a| < |d|
  {
    hide Hit;
    var allow, disallow := Longest(group.allow, path), Longest(group.disallow, path);
    LongestMeaning(group.allow, path);
    LongestMeaning(group.disallow, path);
    if !Allows(Some(group), path) {
      var d :| Hit(d, group.disallow, path) && |d| == disallow;
      assert forall a :: Hit(a, group.allow, path) ==> |a| < |d|;
    } else {
      forall d | Hit(d, group.disallow, path) ensures exists a :: Hit(a, group.allow, path) && |a| >= |d| {
        var a :| Hit(a, group.allow, path) && |a| == allow;
      }
    }
  }

  /** More Allow rules never forbid a path and more Disallow rules never permit one. */
  lemma RulesAreMonotone(group: Group, more: Group, path: string)
    requires forall p :: p in group.allow ==> p in more.allow
    requires forall p :: p in more.disallow ==> p in group.disallow
    requires Allows(Some(group), path)
    ensures Allows(Some(more), path)
  {
    OrderIrrelevant(group.allow, more.allow, path);
    OrderIrrelevant(more.disallow, group.disallow, path);
    LongestMeaning(more.disallow, path);
    LongestMeaning(group.disallow, path);
  }
}
