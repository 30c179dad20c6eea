/**
 * Selecting externally supplied seed URLs through the crawl's own gates, once and a second time.
 * A URL is what the URL parser makes of it: an origin, a path and a query, without its fragment.
 */
module ExtraSeeds {
  import opened Options
  import opened Strings

  datatype Web = Web(origin: nat, path: string, query: string)

  /** The crawl's scope: the origins that count as its site, and the normalized path prefixes. */
  datatype Scope = Scope(sameSite: nat -> bool, prefixes: seq<string>)

  /** Drop one trailing slash, except of the root path. */
  function StripSlash(path: string): string {
    if |path| > 1 && path[|path| - 1] == '/' then path[..|path| - 1] else path
  }

  function Normalize(u: Web): Web { u.(path := StripSlash(u.path)) }

  predicate MatchesIncludePaths(path: string, prefixes: seq<string>) {
    prefixes == [] || exists i :: 0 <= i < |prefixes| && prefixes[i] <= path
  }

  const INFRASTRUCTURE: seq<string> := ["/cdn-cgi/", "/.well-known/"]

  /** Under a reserved prefix, or that prefix without its slash; in any case of letters. */
  predicate IsInfrastructure(path: string) {
    exists i :: 0 <= i < |INFRASTRUCTURE| &&
      (INFRASTRUCTURE[i] <= Lower(path) || Lower(path) == INFRASTRUCTURE[i][..|INFRASTRUCTURE[i]| - 1])
  }

  lemma FirstPart(s: string, part: string)
    requires '/' !in part
    ensures Split(s, '/')[0] == part <==> s == part || part + "/" <= s
  {
    if part + "/" <= s {
      assert s == part + ['/'] + s[|part| + 1..];
      IndexOfFirst(part, '/', s[|part| + 1..]);
    }
    var i := IndexOf(s, '/');
    if i.Some? && s[..i.value] == part {
      assert s == part + "/" + s[i.value + 1..];
    }
  }

  /** A path is infrastructure exactly when its first segment, in any case of letters, is a reserved name. */
  lemma ReservedSegment(path: string)
    requires path != "" && path[0] == '/'
    ensures IsInfrastructure(path) <==> Split(Lower(path[1..]), '/')[0] in {"cdn-cgi", ".well-known"}
  {
    hide Split;
    var rest := Lower(path[1..]);
    assert Lower(path) == "/" + rest;
    FirstPart(rest, "cdn-cgi");
    FirstPart(rest, ".well-known");
    SlashBefore("cdn-cgi", rest);
    SlashBefore(".well-known", rest);
    assert INFRASTRUCTURE[0] == "/" + ("cdn-cgi" + "/") && INFRASTRUCTURE[1] == "/" + (".well-known" + "/");
    assert INFRASTRUCTURE[0][..8] == "/" + "cdn-cgi" && INFRASTRUCTURE[1][..12] == "/" + ".well-known";
    assert |INFRASTRUCTURE| == 2;
  }

  lemma SlashBefore(name: string, rest: string)
    ensures "/" + (name + "/") <= "/" + rest <==> name + "/" <= rest
    ensures "/" + rest == "/" + name <==> rest == name
  {
    assert ("/" + rest)[1..] == rest && ("/" + name)[1..] == name && ("/" + (name + "/"))[1..] == name + "/";
    if name + "/" <= rest { assert "/" + rest == "/" + (name + "/") + rest[|name| + 1..]; }
    if "/" + (name + "/") <= "/" + rest { assert rest == (name + "/") + ("/" + rest)[|name| + 2..]; }
  }

  predicate Passes(scope: Scope, u: Web) {
    scope.sameSite(u.origin) && MatchesIncludePaths(u.path, scope.prefixes) && !IsInfrastructure(u.path)
  }

  /** The seeds of a list whose unusable entries are `None`, less those already `seen`. */
  function Select(scope: Scope, raws: seq<Option<Web>>, seen: set<Web>): seq<Web> {
    if raws == [] then []
    else if raws[0].None? || !Passes(scope, raws[0].value) || Normalize(raws[0].value) in seen then Select(scope, raws[1..], seen)
    else [Normalize(raws[0].value)] + Select(scope, raws[1..], seen + {Normalize(raws[0].value)})
  }

  datatype Selection = Selection(seeds: seq<Web>, outOfScope: nat, unusable: nat, duplicates: nat)

  /** The program's loop: every entry is a seed or is counted once under why it is not. */
  method SelectExtraSeeds(scope: Scope, raws: seq<Option<Web>>) returns (s: Selection)
    ensures s.seeds == Select(scope, raws, {})
    ensures |s.seeds| + s.outOfScope + s.unusable + s.duplicates == |raws|
    ensures s.unusable == Unusable(raws) && s.outOfScope == OutOfScope(scope, raws)
    ensures forall u :: u in s.seeds <==> Offered(scope, raws, u)
  {
    hide Passes, Normalize, Select, Offered;
    assert raws[0..] == raws;
    var seeds: seq<Web>, seen: set<Web> := [], {};
    var outOfScope, unusable, duplicates := 0, 0, 0;
    for i := 0 to |raws|
      invariant Select(scope, raws, {}) == seeds + Select(scope, raws[i..], seen)
      invariant |seeds| + outOfScope + unusable + duplicates == i
      invariant unusable == Unusable(raws[..i]) && outOfScope == OutOfScope(scope, raws[..i])
    {
      assert raws[..i + 1][..i] == raws[..i];
      SelectStep(scope, raws, i, seen);
      if raws[i].None? {
        unusable := unusable + 1;
        continue;
      }
      var url := raws[i].value;
      if !Passes(scope, url) {
        outOfScope := outOfScope + 1;
        continue;
      }
      var norm := Normalize(url);
      if norm in seen {
        duplicates := duplicates + 1;
        continue;
      }
      Regroup(seeds, norm, Select(scope, raws[i + 1..], seen + {norm}));
      seen := seen + {norm};
      seeds := seeds + [norm];
    }
    SelectNothing(scope, raws[|raws|..], seen);
    assert seeds + [] == seeds && raws[..|raws|] == raws;
    s := Selection(seeds, outOfScope, unusable, duplicates);
    forall u ensures u in s.seeds <==> Offered(scope, raws, u) { SelectMeaning(scope, raws, {}, u); }
  }

  lemma SelectStep(scope: Scope, raws: seq<Option<Web>>, i: nat, seen: set<Web>)
    requires i < |raws|
    ensures Select(scope, raws[i..], seen) ==
              if raws[i].None? || !Passes(scope, raws[i].value) || Normalize(raws[i].value) in seen then Select(scope, raws[i + 1..], seen)
              else [Normalize(raws[i].value)] + Select(scope, raws[i + 1..], seen + {Normalize(raws[i].value)})
  {
    hide Passes, Normalize;
    assert raws[i..][1..] == raws[i + 1..];
  }

  lemma Regroup(front: seq<Web>, u: Web, rest: seq<Web>)
    ensures front + ([u] + rest) == (front + [u]) + rest
  {
  }

  lemma SelectNothing(scope: Scope, raws: seq<Option<Web>>, seen: set<Web>)
    requires raws == []
    ensures Select(scope, raws, seen) == []
  {
  }

  function Unusable(raws: seq<Option<Web>>): nat {
    if raws == [] then 0 else Unusable(raws[..|raws| - 1]) + (if raws[|raws| - 1].None? then 1 else 0)
  }

  function OutOfScope(scope: Scope, raws: seq<Option<Web>>): nat {
    if raws == [] then 0
    else
      var last := raws[|raws| - 1];
      OutOfScope(scope, raws[..|raws| - 1]) + (if last.Some? && !Passes(scope, last.value) then 1 else 0)
  }

  /** Some entry passes the gates and normalizes to `u`. */
  ghost predicate Offered(scope: Scope, raws: seq<Option<Web>>, u: Web) {
    exists i :: 0 <= i < |raws| && raws[i].Some? && Passes(scope, raws[i].value) && Normalize(raws[i].value) == u
  }

  ghost predicate DistinctWebs(us: seq<Web>) {
    forall i, j :: 0 <= i < j < |us| ==> us[i] != us[j]
  }

  /** The seeds are distinct, new, and exactly the normal forms of the entries that pass. */
  lemma {:induction false} SelectMeaning(scope: Scope, raws: seq<Option<Web>>, seen: set<Web>, u: Web)
    ensures u in Select(scope, raws, seen) <==> Offered(scope, raws, u) && u !in seen
    ensures DistinctWebs(Select(scope, raws, seen))
    decreases |raws|
  {
    hide Passes, Normalize;
    if raws != [] {
      var tail := raws[1..];
      assert Offered(scope, raws, u) <==>
        (raws[0].Some? && Passes(scope, raws[0].value) && Normalize(raws[0].value) == u) || Offered(scope, tail, u) by {
        if i :| 0 <= i < |tail| && tail[i].Some? && Passes(scope, tail[i].value) && Normalize(tail[i].value) == u {
          assert raws[i + 1] == tail[i];
        }
        if i :| 0 < i < |raws| && raws[i].Some? && Passes(scope, raws[i].value) && Normalize(raws[i].value) == u {
          assert tail[i - 1] == raws[i];
        }
      }
      if raws[0].None? || !Passes(scope, raws[0].value) || Normalize(raws[0].value) in seen {
        SelectMeaning(scope, tail, seen, u);
      } else {
        var norm := Normalize(raws[0].value);
        SelectMeaning(scope, tail, seen + {norm}, u);
        SelectMeaning(scope, tail, seen + {norm}, norm);
        var rest := Select(scope, tail, seen + {norm});
        forall j | 0 <= j < |rest| ensures rest[j] != norm { assert rest[j] in rest; }
      }
    }
  }

  /** Seeds are in the order they were supplied in: more entries behind them change nothing of them. */
  lemma {:induction false} SelectInOrder(scope: Scope, raws: seq<Option<Web>>, more: seq<Option<Web>>, seen: set<Web>)
    ensures Select(scope, raws, seen) <= Select(scope, raws + more, seen)
    decreases |raws|
  {
    hide Passes, Normalize;
    if raws != [] {
      assert (raws + more)[1..] == raws[1..] + more;
      SelectInOrder(scope, raws[1..], more, seen);
      if raws[0].Some? { SelectInOrder(scope, raws[1..], more, seen + {Normalize(raws[0].value)}); }
    }
  }

  // --- A second selection ------------------------------------------------------------------------

  function Entries(us: seq<Web>): (raws: seq<Option<Web>>)
    ensures |raws| == |us| && forall i :: 0 <= i < |us| ==> raws[i] == Some(us[i])
  {
    seq(|us|, i requires 0 <= i < |us| => Some(us[i]))
  }

  predicate Kept(scope: Scope, u: Web) { Passes(scope, u) && Normalize(u) == u }

  lemma {:induction false} SelectLength(scope: Scope, raws: seq<Option<Web>>, seen: set<Web>)
    ensures |Select(scope, raws, seen)| <= |raws|
  {
    if raws != [] {
      SelectLength(scope, raws[1..], seen);
      if raws[0].Some? { SelectLength(scope, raws[1..], seen + {Normalize(raws[0].value)}); }
    }
  }

  lemma NotKeptChanges(scope: Scope, us: seq<Web>, seen: set<Web>)
    requires us != [] && !Kept(scope, us[0])
    ensures Select(scope, Entries(us), seen) != us
  {
    hide Passes, Normalize;
    var tail := us[1..];
    assert Entries(us)[1..] == Entries(tail);
    SelectLength(scope, Entries(tail), seen);
  }

  lemma {:induction false} ReselectExactly(scope: Scope, us: seq<Web>, seen: set<Web>)
    requires DistinctWebs(us) && forall i :: 0 <= i < |us| ==> us[i] !in seen
    ensures Select(scope, Entries(us), seen) == us <==> forall i :: 0 <= i < |us| ==> Kept(scope, us[i])
    decreases |us|
  {
    hide Passes, Normalize;
    if us != [] {
      var u, tail := us[0], us[1..];
      assert Entries(us)[1..] == Entries(tail) && us == [u] + tail;
      forall i | 0 <= i < |tail| ensures tail[i] == us[i + 1] {}
      if Kept(scope, u) {
        ReselectExactly(scope, tail, seen + {u});
      } else {
        NotKeptChanges(scope, us, seen);
      }
    }
  }

  predicate EndsInTwoSlashes(path: string) { |path| > 2 && path[|path| - 1] == '/' && path[|path| - 2] == '/' }

  lemma StripTwiceExactly(path: string)
    ensures StripSlash(StripSlash(path)) == StripSlash(path) <==> !EndsInTwoSlashes(path)
  {
    if EndsInTwoSlashes(path) { assert |StripSlash(StripSlash(path))| == |path| - 2; }
  }

  /** Dropping a slash never moves a path under a reserved prefix. */
  lemma StripNeverReserved(path: string)
    requires IsInfrastructure(StripSlash(path))
    ensures IsInfrastructure(path)
  {
    if StripSlash(path) != path {
      var n := |path| - 1;
      var i :| 0 <= i < |INFRASTRUCTURE| &&
        (INFRASTRUCTURE[i] <= Lower(path[..n]) || Lower(path[..n]) == INFRASTRUCTURE[i][..|INFRASTRUCTURE[i]| - 1]);
      assert Lower(path) == Lower(path[..n]) + ['/'];
      assert INFRASTRUCTURE[i] == INFRASTRUCTURE[i][..|INFRASTRUCTURE[i]| - 1] + ['/'];
    }
  }

  lemma NormalFormKept(scope: Scope, u: Web)
    requires Passes(scope, u)
    ensures Kept(scope, Normalize(u)) <==>
              !EndsInTwoSlashes(u.path) && MatchesIncludePaths(StripSlash(u.path), scope.prefixes)
  {
    hide IsInfrastructure, MatchesIncludePaths, StripSlash;
    StripTwiceExactly(u.path);
    if IsInfrastructure(StripSlash(u.path)) { StripNeverReserved(u.path); }
  }

  /** What the supplied list must be like: no entry that passes loses two slashes or its prefix. */
  predicate SafeToReselect(scope: Scope, raws: seq<Option<Web>>) {
    forall i :: 0 <= i < |raws| && raws[i].Some? && Passes(scope, raws[i].value) ==>
      !EndsInTwoSlashes(raws[i].value.path) && MatchesIncludePaths(StripSlash(raws[i].value.path), scope.prefixes)
  }

  /**
   * Selecting a second time changes nothing if and only if no supplied URL that passes the gates has a
   * path ending in two slashes, and each of their paths is still under an include prefix once its
   * trailing slash is gone.
   */
  lemma SelectTwiceExactly(scope: Scope, raws: seq<Option<Web>>)
    ensures var once := Select(scope, raws, {});
            Select(scope, Entries(once), {}) == once <==> SafeToReselect(scope, raws)
  {
    hide Passes, Normalize, Kept, EndsInTwoSlashes, MatchesIncludePaths, StripSlash, Select;
    var once := Select(scope, raws, {});
    SelectMeaning(scope, raws, {}, Web(0, "", ""));
    ReselectExactly(scope, once, {});
    if forall i :: 0 <= i < |once| ==> Kept(scope, once[i]) {
      forall i | 0 <= i < |raws| && raws[i].Some? && Passes(scope, raws[i].value)
        ensures !EndsInTwoSlashes(raws[i].value.path) && MatchesIncludePaths(StripSlash(raws[i].value.path), scope.prefixes)
      {
        SelectMeaning(scope, raws, {}, Normalize(raws[i].value));
        NormalFormKept(scope, raws[i].value);
      }
    }
    if SafeToReselect(scope, raws) {
      forall k | 0 <= k < |once| ensures Kept(scope, once[k]) {
        SelectMeaning(scope, raws, {}, once[k]);
        var i :| 0 <= i < |raws| && raws[i].Some? && Passes(scope, raws[i].value) && Normalize(raws[i].value) == once[k];
        NormalFormKept(scope, raws[i].value);
      }
    }
  }

  /** A path leaves the scope with its slash exactly when every prefix it is under is the whole path. */
  lemma ScopeLostExactly(path: string, prefixes: seq<string>)
    requires MatchesIncludePaths(path, prefixes) && StripSlash(path) != path
    ensures MatchesIncludePaths(StripSlash(path), prefixes) <==>
              prefixes == [] || exists i :: 0 <= i < |prefixes| && prefixes[i] <= path && prefixes[i] != path
  {
    var short := StripSlash(path);
    assert short == path[..|path| - 1];
    forall i | 0 <= i < |prefixes| ensures prefixes[i] <= short <==> prefixes[i] <= path && prefixes[i] != path {
      if prefixes[i] <= path && prefixes[i] != path {
        assert |prefixes[i]| < |path| && prefixes[i] == path[..|prefixes[i]|] == short[..|prefixes[i]|];
      }
      if prefixes[i] <= short { assert prefixes[i] == short[..|prefixes[i]|] == path[..|prefixes[i]|]; }
    }
    if prefixes != [] && exists i :: 0 <= i < |prefixes| && prefixes[i] <= path && prefixes[i] != path {
      var i :| 0 <= i < |prefixes| && prefixes[i] <= path && prefixes[i] != path;
      assert prefixes[i] <= short;
    }
  }

  // --- Two lists that are not safe -----------------------------------------------------------------

  predicate Everywhere(origin: nat) { true }

  lemma SelectOne(scope: Scope, u: Web)
    ensures Select(scope, [Some(u)], {}) == if Passes(scope, u) then [Normalize(u)] else []
  {
    assert [Some(u)][1..] == [];
    assert Select(scope, [Some(u)][1..], {}) == [] && Select(scope, [Some(u)][1..], {} + {Normalize(u)}) == [];
  }

  /** Of two slashes the first selection drops one and the second selection the other. */
  lemma TwoSlashesCounterexample()
    ensures var scope := Scope(Everywhere, []);
            var once := Select(scope, [Some(Web(0, "/a//", ""))], {});
            once == [Web(0, "/a/", "")] && Select(scope, Entries(once), {}) == [Web(0, "/a", "")]
  {
    var scope := Scope(Everywhere, []);
    NotReserved("/a//");
    NotReserved("/a/");
    assert StripSlash("/a//") == "/a/" && StripSlash("/a/") == "/a";
    SelectOne(scope, Web(0, "/a//", ""));
    SelectOne(scope, Web(0, "/a/", ""));
    assert Entries([Web(0, "/a/", "")]) == [Some(Web(0, "/a/", ""))];
  }

  /** A section named with its slash: the first selection drops the slash and the second one the seed. */
  lemma LostPrefixCounterexample()
    ensures var scope := Scope(Everywhere, ["/blog/"]);
            var once := Select(scope, [Some(Web(0, "/blog/", ""))], {});
            once == [Web(0, "/blog", "")] && Select(scope, Entries(once), {}) == []
  {
    var scope := Scope(Everywhere, ["/blog/"]);
    NotReserved("/blog/");
    assert StripSlash("/blog/") == "/blog" && scope.prefixes[0] <= "/blog/";
    SelectOne(scope, Web(0, "/blog/", ""));
    SelectOne(scope, Web(0, "/blog", ""));
    assert Entries([Web(0, "/blog", "")]) == [Some(Web(0, "/blog", ""))];
    assert !(scope.prefixes[0] <= "/blog");
  }

  lemma NotReserved(path: string)
    requires |path| > 1 && path[1] in {'a', 'b'}
    ensures !IsInfrastructure(path)
  {
    assert Lower(path)[1] == path[1];
    assert INFRASTRUCTURE[0][1] == 'c' && INFRASTRUCTURE[1][1] == '.';
  }
}
