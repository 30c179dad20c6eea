/**
 * Lines of robots.txt that are no directives: when they change the rules the crawler obeys, whatever
 * follows in the file, and when they do not.
 */
module RobotsLines {
  import opened Options
  import opened RobotsMatch
  import opened RobotsParse
  import opened Strings

  // --- Lines that change nothing at all ------------------------------------------------------------

  /** In every reachable state the agents of a block that has had a directive have their groups. */
  ghost predicate Inv(p: Parser) { p.expecting ==> p.active != [] && forall a :: a in p.active ==> a in p.groups }

  lemma {:induction false} ObeyAllKeys(groups: map<string, Group>, agents: seq<string>, entry: Entry, number: Numerals)
    ensures forall a :: a in ObeyAll(groups, agents, entry, number) <==> a in groups || a in agents
    decreases |agents|
  {
    if agents != [] {
      ObeyAllKeys(groups, agents[..|agents| - 1], entry, number);
      assert forall a :: a in agents <==> a in agents[..|agents| - 1] || a == agents[|agents| - 1];
    }
  }

  lemma {:induction false} ParseInv(lines: seq<string>, number: Numerals)
    ensures Inv(Parse(Fresh(), lines, number))
    decreases |lines|
  {
    hide Interpret, ObeyAll;
    if lines != [] {
      ParseInv(lines[..|lines| - 1], number);
      var p, entry := Parse(Fresh(), lines[..|lines| - 1], number), Interpret(lines[|lines| - 1]);
      if entry.Some? { ObeyAllKeys(p.groups, p.active, entry.value, number); }
    }
  }

  predicate Ignored(field: string) { field !in {"user-agent", "allow", "disallow", "crawl-delay"} }

  lemma {:induction false} ObeyAllIgnored(groups: map<string, Group>, agents: seq<string>, entry: Entry, number: Numerals)
    requires Ignored(entry.field) && forall a :: a in agents ==> a in groups
    ensures ObeyAll(groups, agents, entry, number) == groups
    decreases |agents|
  {
    if agents != [] {
      ObeyAllIgnored(groups, agents[..|agents| - 1], entry, number);
    }
  }

  /** The parser is where it was after a line without a colon, before any agent, or behind a directive. */
  lemma NoChange(lines: seq<string>, line: string, number: Numerals)
    requires Interpret(line).Some? ==> Ignored(Interpret(line).value.field)
    requires var p := Parse(Fresh(), lines, number); Interpret(line).None? || p.active == [] || p.expecting
    ensures Parse(Fresh(), lines + [line], number) == Parse(Fresh(), lines, number)
  {
    hide Interpret;
    ParseInv(lines, number);
    ParseAppend(Fresh(), lines, line, number);
    var p := Parse(Fresh(), lines, number);
    if Interpret(line).Some? && p.expecting {
      ObeyAllIgnored(p.groups, p.active, Interpret(line).value, number);
    }
  }

  // --- One agent's view of the parser ------------------------------------------------------------------

  function ObeyTimes(group: Group, entry: Entry, n: nat, number: Numerals): Group {
    if n == 0 then group else Obey(ObeyTimes(group, entry, n - 1, number), entry, number)
  }

  /** A directive reaches an agent's group as often as the agent is active, and nobody else's. */
  lemma {:induction false} ObeyAllGroup(groups: map<string, Group>, agents: seq<string>, entry: Entry, number: Numerals, x: string)
    ensures var groups' := ObeyAll(groups, agents, entry, number);
            && (x in groups' <==> x in groups || x in agents)
            && GroupFor(groups', x) == ObeyTimes(GroupFor(groups, x), entry, multiset(agents)[x], number)
    decreases |agents|
  {
    hide Obey;
    if agents != [] {
      var front, last := agents[..|agents| - 1], agents[|agents| - 1];
      assert agents == front + [last];
      ObeyAllGroup(groups, front, entry, number, x);
    }
  }

  /** The agents that the next user-agent line joins. */
  function Kept(p: Parser): seq<string> { if p.expecting then [] else p.active }

  /** Two parsers that nothing can tell apart for the agent `x`. */
  ghost predicate Same(p: Parser, q: Parser, x: string) {
    && (x in p.groups <==> x in q.groups) && GroupFor(p.groups, x) == GroupFor(q.groups, x)
    && multiset(p.active)[x] == multiset(q.active)[x] && multiset(Kept(p))[x] == multiset(Kept(q))[x]
  }

  lemma ObeyTimesNone(group: Group, entry: Entry, number: Numerals)
    ensures ObeyTimes(group, entry, 0, number) == group
  {
  }

  /** What a directive does to one agent depends on that agent's part of the state alone. */
  lemma DirectiveStep(p: Parser, line: string, number: Numerals, x: string)
    requires Interpret(line).Some? && Interpret(line).value.field != "user-agent"
    ensures var q := ParseLine(p, line, number);
            && (x in q.groups <==> x in p.groups || multiset(p.active)[x] > 0)
            && GroupFor(q.groups, x) == ObeyTimes(GroupFor(p.groups, x), Interpret(line).value, multiset(p.active)[x], number)
            && q.active == p.active && multiset(Kept(q))[x] == 0
  {
    hide Interpret, Obey, ObeyAll, GroupFor, ObeyTimes;
    ObeyAllGroup(p.groups, p.active, Interpret(line).value, number, x);
    if p.active == [] { ObeyTimesNone(GroupFor(p.groups, x), Interpret(line).value, number); }
  }

  /** A user-agent line names an agent once more, in the current run or in a new one. */
  lemma AgentStep(p: Parser, line: string, number: Numerals, x: string)
    requires Interpret(line).Some? && Interpret(line).value.field == "user-agent"
    ensures var q, value := ParseLine(p, line, number), Interpret(line).value.value;
            && q.groups == p.groups && Kept(q) == q.active
            && multiset(q.active)[x] == multiset(Kept(p))[x] + if value != "" && Lower(value) == x then 1 else 0
  {
    hide Interpret, Lower;
  }

  lemma StepSame(p: Parser, q: Parser, line: string, number: Numerals, x: string)
    requires Same(p, q, x)
    ensures Same(ParseLine(p, line, number), ParseLine(q, line, number), x)
  {
    hide Interpret, GroupFor, Lower, ObeyTimes, ParseLine, Kept;
    if Interpret(line).None? {
      NoEntry(p, line, number);
      NoEntry(q, line, number);
    } else if Interpret(line).value.field == "user-agent" {
      AgentStep(p, line, number, x);
      AgentStep(q, line, number, x);
    } else {
      DirectiveStep(p, line, number, x);
      DirectiveStep(q, line, number, x);
    }
  }

  lemma NoEntry(p: Parser, line: string, number: Numerals)
    requires Interpret(line).None?
    ensures ParseLine(p, line, number) == p
  {
  }

  lemma {:induction false} ParseSame(p: Parser, q: Parser, rest: seq<string>, number: Numerals, x: string)
    requires Same(p, q, x)
    ensures Same(Parse(p, rest, number), Parse(q, rest, number), x)
    decreases |rest|
  {
    hide Same, ParseLine;
    if rest != [] {
      ParseSame(p, q, rest[..|rest| - 1], number, x);
      StepSame(Parse(p, rest[..|rest| - 1], number), Parse(q, rest[..|rest| - 1], number), rest[|rest| - 1], number, x);
    }
  }

  lemma {:induction false} GroupsStay(p: Parser, rest: seq<string>, number: Numerals, x: string)
    requires x in p.groups
    ensures x in Parse(p, rest, number).groups
    decreases |rest|
  {
    hide Interpret, ObeyAll;
    if rest != [] {
      var before := Parse(p, rest[..|rest| - 1], number);
      GroupsStay(p, rest[..|rest| - 1], number, x);
      var entry := Interpret(rest[|rest| - 1]);
      if entry.Some? { ObeyAllKeys(before.groups, before.active, entry.value, number); }
    }
  }

  // --- Lines the crawler does not notice ------------------------------------------------------------------

  /**
   * An unknown line goes unnoticed before any agent is named, behind a directive, and behind a run of
   * user-agent lines that names no agent whose group the crawler may still select: neither the crawler's
   * own, nor, while that one has no group, the one for everybody.
   */
  predicate Unnoticed(p: Parser) {
    p.active == [] || p.expecting || (BOT_TOKEN !in p.active && ("*" !in p.active || BOT_TOKEN in p.groups))
  }

  lemma {:induction false} IgnoredGroup(group: Group, entry: Entry, n: nat, number: Numerals)
    requires Ignored(entry.field)
    ensures ObeyTimes(group, entry, n, number) == group
  {
    if n > 0 { IgnoredGroup(group, entry, n - 1, number); }
  }

  lemma IgnoredStep(p: Parser, line: string, number: Numerals)
    requires Interpret(line).Some? && Ignored(Interpret(line).value.field) && p.active != []
    ensures ParseLine(p, line, number) == Parser(ObeyAll(p.groups, p.active, Interpret(line).value, number), p.active, true)
  {
    hide Interpret, ObeyAll;
  }

  lemma UnnoticedLine(p: Parser, line: string, rest: seq<string>, number: Numerals)
    requires Interpret(line).Some? && Ignored(Interpret(line).value.field) && p.active != [] && !p.expecting && Unnoticed(p)
    ensures Selected(Parse(ParseLine(p, line, number), rest, number).groups) == Selected(Parse(p, rest, number).groups)
  {
    hide Interpret, ObeyAll, Obey, Parse, Ignored, ParseLine;
    var entry, q := Interpret(line).value, ParseLine(p, line, number);
    IgnoredStep(p, line, number);
    forall x | x in {BOT_TOKEN, "*"} && x !in p.active
      ensures Same(Parse(p, rest, number), Parse(q, rest, number), x)
    {
      ObeyAllGroup(p.groups, p.active, entry, number, x);
      IgnoredGroup(GroupFor(p.groups, x), entry, multiset(p.active)[x], number);
      assert multiset(p.active)[x] == 0;
      ParseSame(p, q, rest, number, x);
    }
    if "*" in p.active {
      GroupsStay(p, rest, number, BOT_TOKEN);
    }
  }

  // --- Lines the crawler does notice ------------------------------------------------------------------------

  function Pattern(n: nat): (s: string)
    ensures |s| == n && forall i :: 0 <= i < n ==> s[i] == 'q'
  {
    seq(n, _ => 'q')
  }

  function TotalLength(patterns: seq<string>): nat {
    if patterns == [] then 0 else TotalLength(patterns[..|patterns| - 1]) + |patterns[|patterns| - 1]|
  }

  lemma {:induction false} LengthBounds(patterns: seq<string>, p: string)
    requires p in patterns
    ensures |p| <= TotalLength(patterns)
    decreases |patterns|
  {
    var n := |patterns| - 1;
    if p != patterns[n] {
      assert p in patterns[..n];
      LengthBounds(patterns[..n], p);
    }
  }

  lemma LongestBounded(patterns: seq<string>, path: string)
    ensures Longest(patterns, path) <= TotalLength(patterns)
  {
    hide Longest, PatternMatches;
    LongestMeaning(patterns, path);
    if Longest(patterns, path) != -1 {
      var p :| Hit(p, patterns, path) && |p| == Longest(patterns, path);
      LengthBounds(patterns, p);
    }
  }

  /** A new rule that spells the whole path is the longest match. */
  lemma WholePathWins(patterns: seq<string>, n: nat)
    requires Pattern(n) in patterns
    ensures Longest(patterns, Pattern(n)) >= n
  {
    hide Longest;
    PlainPatternIsPrefix(Pattern(n), Pattern(n));
    LongestMeaning(patterns, Pattern(n));
    assert Hit(Pattern(n), patterns, Pattern(n));
  }

  lemma {:induction false} NewRule(group: Group, allow: bool, value: string, n: nat, number: Numerals)
    requires value != "" && n >= 1
    ensures var g := ObeyTimes(group, Entry(if allow then "allow" else "disallow", value), n, number);
            if allow then g.disallow == group.disallow && value in g.allow
            else g.allow == group.allow && value in g.disallow
    decreases n
  {
    var entry := Entry(if allow then "allow" else "disallow", value);
    if n == 1 {
      ObeyTimesNone(group, entry, number);
    } else {
      NewRule(group, allow, value, n - 1, number);
    }
  }

  /** A path longer than all rules together, and the rule that turns the verdict on it around. */
  lemma VerdictTurned(group: Group, n: nat, k: nat, number: Numerals)
    requires n > TotalLength(group.allow) + TotalLength(group.disallow) && k >= 1
    ensures var was := Allows(Some(group), Pattern(n));
            var turned := ObeyTimes(group, Entry(if was then "disallow" else "allow", Pattern(n)), k, number);
            Allows(Some(turned), Pattern(n)) == !was
  {
    hide Longest, ObeyTimes;
    var was := Allows(Some(group), Pattern(n));
    NewRule(group, !was, Pattern(n), k, number);
    var turned := ObeyTimes(group, Entry(if was then "disallow" else "allow", Pattern(n)), k, number);
    LongestBounded(group.allow, Pattern(n));
    LongestBounded(group.disallow, Pattern(n));
    WholePathWins(if was then turned.disallow else turned.allow, n);
  }

  /** Another agent's line, and a rule behind it. */
  function Continuation(d: Directive): seq<string> { ["User-agent: " + "z", Field(d) + ": " + d.value] }

  lemma ContinuationRead(p: Parser, d: Directive, number: Numerals)
    requires Printable(d.value)
    ensures Parse(p, Continuation(d), number).groups == ObeyAll(p.groups, Kept(p) + ["z"], Entry(LowerField(d), d.value), number)
  {
    hide ParseLine, ObeyAll, Field;
    var lines := Continuation(d);
    assert Printable("z") && Lower("z") == "z";
    assert lines[..1] == [lines[0]] && [] + [lines[0]] == [lines[0]] && lines == [lines[0]] + [lines[1]];
    ParseNothing(p, number);
    ParseAppend(p, [], lines[0], number);
    ParseAppend(p, [lines[0]], lines[1], number);
    ParseAgentLine(p, "z", number);
    ParseDirectiveLine(ParseLine(p, lines[0], number), d, number);
  }

  lemma NoticedLine(p: Parser, line: string, number: Numerals) returns (rest: seq<string>, path: string)
    requires Interpret(line).Some? && Ignored(Interpret(line).value.field) && !Unnoticed(p)
    ensures Allows(Selected(Parse(ParseLine(p, line, number), rest, number).groups), path)
         != Allows(Selected(Parse(p, rest, number).groups), path)
  {
    hide Interpret, ObeyAll, Obey, Parse, ParseLine, Ignored, Allows, Printable, ObeyTimes, TotalLength;
    var entry, q := Interpret(line).value, ParseLine(p, line, number);
    IgnoredStep(p, line, number);
    var x := if BOT_TOKEN in p.active then BOT_TOKEN else "*";
    var group := GroupFor(p.groups, x);
    var n := TotalLength(group.allow) + TotalLength(group.disallow) + 1;
    path := Pattern(n);
    var was := Allows(Some(group), path);
    var d := if was then Disallow(path) else Allow(path);
    rest := Continuation(d);
    assert Printable(path) by { PatternPrintable(n); }
    ContinuationRead(p, d, number);
    ContinuationRead(q, d, number);
    var e := Entry(LowerField(d), d.value);
    assert |BOT_TOKEN| != |"z"| && "*"[0] != "z"[0];
    // behind the line, the rule reaches the other agent only
    assert Kept(q) + ["z"] == ["z"] && Kept(p) == p.active;
    AgentAfter(p, q, entry, e, number, x);
    AgentAfter(p, q, entry, e, number, BOT_TOKEN);
    VerdictTurned(group, n, multiset(p.active)[x], number);
    assert Selected(Parse(q, rest, number).groups) == Some(group);
    assert Selected(Parse(p, rest, number).groups) == Some(ObeyTimes(group, e, multiset(p.active)[x], number));
  }

  lemma PatternPrintable(n: nat)
    requires n > 0
    ensures Printable(Pattern(n))
  {
  }

  /** What becomes of an active agent's group with and without the unknown line. */
  lemma AgentAfter(p: Parser, q: Parser, unknown: Entry, e: Entry, number: Numerals, x: string)
    requires Ignored(unknown.field) && q == Parser(ObeyAll(p.groups, p.active, unknown, number), p.active, true) && x != "z"
    ensures var with, without := ObeyAll(q.groups, ["z"], e, number), ObeyAll(p.groups, p.active + ["z"], e, number);
            && (x in with <==> x in p.groups || x in p.active) && (x in without <==> x in p.groups || x in p.active)
            && GroupFor(with, x) == GroupFor(p.groups, x)
            && GroupFor(without, x) == ObeyTimes(GroupFor(p.groups, x), e, multiset(p.active)[x], number)
  {
    hide ObeyAll, Obey, Ignored;
    ObeyAllGroup(p.groups, p.active, unknown, number, x);
    IgnoredGroup(GroupFor(p.groups, x), unknown, multiset(p.active)[x], number);
    ObeyAllGroup(q.groups, ["z"], e, number, x);
    ObeyAllGroup(p.groups, p.active + ["z"], e, number, x);
    ObeyTimesNone(GroupFor(p.groups, x), e, number);
    assert x !in ["z"] && multiset(["z"])[x] == 0 && multiset(p.active + ["z"])[x] == multiset(p.active)[x];
  }

  // --- Exactly when ---------------------------------------------------------------------------------------------

  /** The rules the crawler obeys are those it would obey if `line` were not there. */
  ghost predicate SameRules(lines: seq<string>, line: string, rest: seq<string>, number: Numerals) {
    Selected(Parse(Fresh(), lines + [line] + rest, number).groups) == Selected(Parse(Fresh(), lines + rest, number).groups)
  }

  ghost predicate VerdictDiffers(lines: seq<string>, line: string, rest: seq<string>, path: string, number: Numerals) {
    Allows(Selected(Parse(Fresh(), lines + [line] + rest, number).groups), path)
    != Allows(Selected(Parse(Fresh(), lines + rest, number).groups), path)
  }

  /**
   * "Unknown directives are ignored" holds of a line, whatever follows it in the file, if and only if
   * the line has no colon or goes unnoticed. Where it is noticed there is a continuation of the file and
   * a path on which the crawler's verdict is turned around.
   */
  lemma UnknownLineIgnored(lines: seq<string>, line: string, number: Numerals)
    requires Interpret(line).Some? ==> Ignored(Interpret(line).value.field)
    ensures var unnoticed := Interpret(line).None? || Unnoticed(Parse(Fresh(), lines, number));
            && (unnoticed <==> forall rest :: SameRules(lines, line, rest, number))
            && (!unnoticed ==> exists rest, path :: VerdictDiffers(lines, line, rest, path, number))
  {
    hide Interpret, Parse, Allows, Ignored;
    var p := Parse(Fresh(), lines, number);
    ParseAppend(Fresh(), lines, line, number);
    forall rest ensures Parse(Fresh(), lines + rest, number) == Parse(p, rest, number)
                     && Parse(Fresh(), lines + [line] + rest, number) == Parse(ParseLine(p, line, number), rest, number)
    {
      ParseConcat(Fresh(), lines, rest, number);
      ParseConcat(Fresh(), lines + [line], rest, number);
    }
    if Interpret(line).None? || p.active == [] || p.expecting {
      NoChange(lines, line, number);
    } else if Unnoticed(p) {
      forall rest ensures SameRules(lines, line, rest, number) { UnnoticedLine(p, line, rest, number); }
    } else {
      var rest, path := NoticedLine(p, line, number);
      assert VerdictDiffers(lines, line, rest, path, number);
      assert !SameRules(lines, line, rest, number);
    }
  }

  // --- A comment that is noticed ----------------------------------------------------------------------------------

  /** Four lines read one after another. */
  lemma ParseFour(lines: seq<string>, number: Numerals)
    requires |lines| == 4
    ensures var p := ParseLine(ParseLine(Fresh(), lines[0], number), lines[1], number);
            Parse(Fresh(), lines, number) == ParseLine(ParseLine(p, lines[2], number), lines[3], number)
  {
    hide ParseLine, Parse;
    ParseNothing(Fresh(), number);
    ParseAppend(Fresh(), [], lines[0], number);
    ParseAppend(Fresh(), [lines[0]], lines[1], number);
    ParseAppend(Fresh(), [lines[0], lines[1]], lines[2], number);
    ParseAppend(Fresh(), [lines[0], lines[1], lines[2]], lines[3], number);
    assert [] + [lines[0]] == [lines[0]] && [lines[0]] + [lines[1]] == [lines[0], lines[1]];
    assert [lines[0], lines[1]] + [lines[2]] == [lines[0], lines[1], lines[2]];
    assert [lines[0], lines[1], lines[2]] + [lines[3]] == lines;
  }

  /** A file that shuts every crawler out, with a line in the middle of its user-agent run. */
  function ShutOut(middle: string): seq<string> {
    ["User-agent: " + BOT_TOKEN, middle, "User-agent: " + "*", Field(Disallow("/")) + ": " + "/"]
  }

  /**
   * A comment with a colon is taken for an unknown directive. Between two user-agent lines it gives
   * the first agent a group without rules, so the crawler may fetch what the file shuts it out of.
   */
  lemma CommentFreesTheCrawler(plain: string, number: Numerals)
    requires ':' !in plain
    ensures Selected(Parse(Fresh(), ShutOut(plain), number).groups) == Some(Group([], ["/"], 0))
    ensures Selected(Parse(Fresh(), ShutOut("# see" + ": " + "x"), number).groups) == Some(NO_RULES)
  {
    hide Interpret, Lower, Space, Parse, ParseLine, Field;
    assert Printable(BOT_TOKEN) && Printable("*") && Printable("/") && Printable("x") by { Readable(); }
    LowerNames();
    ParseFour(ShutOut(plain), number);
    ParseFour(ShutOut("# see" + ": " + "x"), number);
    ParseAgentLine(Fresh(), BOT_TOKEN, number);
    var named := Parser(map[], [BOT_TOKEN], false);
    assert [] + [BOT_TOKEN] == [BOT_TOKEN];

    NoColon(named, plain, number);
    ParseAgentLine(named, "*", number);
    assert [BOT_TOKEN] + ["*"] == [BOT_TOKEN, "*"];
    ParseDirectiveLine(Parser(map[], [BOT_TOKEN, "*"], false), Disallow("/"), number);
    TwoObey(number);

    var split := Parser(map[BOT_TOKEN := NO_RULES], [BOT_TOKEN], true);
    assert ParseLine(named, "# see" + ": " + "x", number) == split by { CommentLine(named, number); }
    ParseAgentLine(split, "*", number);
    assert [] + ["*"] == ["*"];
    ParseDirectiveLine(Parser(map[BOT_TOKEN := NO_RULES], ["*"], false), Disallow("/"), number);
    OneObeys(map[BOT_TOKEN := NO_RULES], "*", Entry("disallow", "/"), number);
  }

  lemma Readable()
    ensures Printable(BOT_TOKEN) && Printable("*") && Printable("/") && Printable("x") && Tidy("# see") && ':' !in "# see"
  {
  }

  lemma LowerNames()
    ensures Lower(BOT_TOKEN) == BOT_TOKEN && Lower("*") == "*" && Lower("# see") == "# see"
  {
  }

  lemma NoColon(p: Parser, line: string, number: Numerals)
    requires ':' !in line
    ensures ParseLine(p, line, number) == p
  {
  }

  lemma OneObeys(groups: map<string, Group>, agent: string, entry: Entry, number: Numerals)
    ensures ObeyAll(groups, [agent], entry, number) == groups[agent := Obey(GroupFor(groups, agent), entry, number)]
  {
    assert [agent][..0] == [];
  }

  lemma TwoObey(number: Numerals)
    ensures ObeyAll(map[], [BOT_TOKEN, "*"], Entry("disallow", "/"), number)
              == map[BOT_TOKEN := Group([], ["/"], 0), "*" := Group([], ["/"], 0)]
  {
    assert [BOT_TOKEN, "*"][..1] == [BOT_TOKEN];
    OneObeys(map[], BOT_TOKEN, Entry("disallow", "/"), number);
    assert [] + ["/"] == ["/"] && [BOT_TOKEN, "*"] != [];
    var shut := Group([], ["/"], 0);
    assert Obey(NO_RULES, Entry("disallow", "/"), number) == shut;
    assert BOT_TOKEN[0] != "*"[0];
    var all := ObeyAll(map[], [BOT_TOKEN, "*"], Entry("disallow", "/"), number);
    assert all == map[BOT_TOKEN := shut]["*" := shut];
  }

  lemma CommentLine(p: Parser, number: Numerals)
    requires p == Parser(map[], [BOT_TOKEN], false)
    ensures ParseLine(p, "# see" + ": " + "x", number) == Parser(map[BOT_TOKEN := NO_RULES], [BOT_TOKEN], true)
  {
    hide Interpret, Lower, Space;
    Readable();
    LowerNames();
    LineReadsBack("# see", "x");
    OneObeys(map[], BOT_TOKEN, Entry("# see", "x"), number);
  }
}
