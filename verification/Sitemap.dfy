/**
 * Seeds from a sitemap: claim each usable location once, keep every child sitemap's list apart,
 * and take one URL from each child in turn until the limit.
 */
module Sitemap {
  import opened CrawlModel
  import opened Options

  /** The first `room` usable URLs of `raws` that are not in `seen`, normalized, in order. */
  function Fresh(site: Site, raws: seq<Url>, seen: set<Url>, room: nat): seq<Url>
    decreases |raws|
  {
    if raws == [] || room == 0 then []
    else
      var u := site.normalize(raws[0]);
      if site.eligible(raws[0]) && u !in seen then [u] + Fresh(site, raws[1..], seen + {u}, room - 1)
      else Fresh(site, raws[1..], seen, room)
  }

  function Elements(us: seq<Url>): set<Url> { set u | u in us }

  /** Each child's own list of at most `limit` URLs, claimed in child order. */
  function ChildLists(site: Site, children: seq<seq<Url>>, seen: set<Url>, limit: nat): seq<seq<Url>>
    decreases |children|
  {
    if children == [] then []
    else
      var usable := Fresh(site, children[0], seen, limit);
      [usable] + ChildLists(site, children[1..], seen + Elements(usable), limit)
  }

  // --- Round-robin --------------------------------------------------------------------------

  /** Entry `round` of each of the first `cut` lists that has one. */
  function Column(lists: seq<seq<Url>>, round: nat, cut: nat): seq<Url>
    requires cut <= |lists|
  {
    if cut == 0 then []
    else Column(lists, round, cut - 1) + (if round < |lists[cut - 1]| then [lists[cut - 1][round]] else [])
  }

  function Rounds(lists: seq<seq<Url>>, round: nat): seq<Url> {
    if round == 0 then [] else Rounds(lists, round - 1) + Column(lists, round - 1, |lists|)
  }

  /** Everything taken once `round` rounds are complete and the next one reached list `cut`. */
  function Served(lists: seq<seq<Url>>, round: nat, cut: nat): seq<Url>
    requires cut <= |lists|
  {
    Rounds(lists, round) + Column(lists, round, cut)
  }

  /** Entry `i` of list `c` is `u`. */
  ghost predicate At(lists: seq<seq<Url>>, c: int, i: int, u: Url) {
    0 <= c < |lists| && 0 <= i < |lists[c]| && lists[c][i] == u
  }

  ghost predicate AllDistinct(lists: seq<seq<Url>>) {
    forall c, i, d, j, u :: At(lists, c, i, u) && At(lists, d, j, u) ==> c == d && i == j
  }

  function Longest(lists: seq<seq<Url>>): (n: nat)
    ensures forall c :: 0 <= c < |lists| ==> |lists[c]| <= n
  {
    if lists == [] then 0
    else
      var n := Longest(lists[..|lists| - 1]);
      if |lists[|lists| - 1]| > n then |lists[|lists| - 1]| else n
  }

  lemma {:induction false} ColumnTakes(lists: seq<seq<Url>>, round: nat, cut: nat, c: nat, i: nat, u: Url)
    requires AllDistinct(lists) && cut <= |lists| && At(lists, c, i, u)
    ensures u in Column(lists, round, cut) <==> i == round && c < cut
    decreases cut
  {
    if cut > 0 {
      ColumnTakes(lists, round, cut - 1, c, i, u);
      if round < |lists[cut - 1]| { assert At(lists, cut - 1, round, lists[cut - 1][round]); }
    }
  }

  lemma AtBounds(lists: seq<seq<Url>>, c: int, i: int, u: Url)
    requires At(lists, c, i, u)
    ensures 0 <= c < |lists|
  {
  }

  lemma NextRound(lists: seq<seq<Url>>, round: nat, u: Url)
    ensures u in Rounds(lists, round) <==>
            round > 0 && (u in Rounds(lists, round - 1) || u in Column(lists, round - 1, |lists|))
  {
  }

  lemma {:induction false} RoundsTake(lists: seq<seq<Url>>, round: nat, c: nat, i: nat, u: Url)
    requires AllDistinct(lists) && At(lists, c, i, u)
    ensures u in Rounds(lists, round) <==> i < round
    decreases round
  {
    hide AllDistinct, Column, At, Rounds;
    AtBounds(lists, c, i, u);
    NextRound(lists, round, u);
    if round > 0 {
      RoundsTake(lists, round - 1, c, i, u);
      ColumnTakes(lists, round - 1, |lists|, c, i, u);
    }
  }

  /** What is taken of each list is a prefix of it. */
  lemma ServedIsPrefix(lists: seq<seq<Url>>, round: nat, cut: nat, c: nat, i: nat)
    requires AllDistinct(lists) && cut <= |lists| && c < |lists| && i < |lists[c]|
    ensures lists[c][i] in Served(lists, round, cut) <==> i < (if c < cut then round + 1 else round)
  {
    RoundsTake(lists, round, c, i, lists[c][i]);
    ColumnTakes(lists, round, cut, c, i, lists[c][i]);
  }

  /**
   * Fairness: while one list still has its entry `k` left over, no list has given an entry
   * beyond `k`; so no child contributes more than one URL beyond a child that is not exhausted.
   */
  lemma Fairness(lists: seq<seq<Url>>, round: nat, cut: nat, c: nat, k: nat, d: nat, i: nat)
    requires AllDistinct(lists) && cut <= |lists|
    requires c < |lists| && k < |lists[c]| && lists[c][k] !in Served(lists, round, cut)
    requires d < |lists| && i < |lists[d]| && lists[d][i] in Served(lists, round, cut)
    ensures i <= k
  {
    ServedIsPrefix(lists, round, cut, c, k);
    ServedIsPrefix(lists, round, cut, d, i);
  }

  /** What is taken is taken in turn: each list's entry behind those before it, each round behind the one before. */
  lemma ServedInTurn(lists: seq<seq<Url>>, round: nat, cut: nat)
    requires cut < |lists|
    ensures Served(lists, round, cut + 1)
              == Served(lists, round, cut) + (if round < |lists[cut]| then [lists[cut][round]] else [])
    ensures Served(lists, round + 1, 0) == Served(lists, round, |lists|) && Served(lists, 0, 0) == []
  {
    var taken := Rounds(lists, round);
    assert taken + (Column(lists, round, cut) + []) == taken + Column(lists, round, cut) + [];
  }

  lemma {:induction false} ColumnFromLists(lists: seq<seq<Url>>, round: nat, cut: nat, u: Url)
    requires cut <= |lists|
    ensures u in Column(lists, round, cut) ==> exists c :: c < cut && At(lists, c, round, u)
  {
    if cut > 0 {
      ColumnFromLists(lists, round, cut - 1, u);
      if round < |lists[cut - 1]| { assert At(lists, cut - 1, round, lists[cut - 1][round]); }
    }
  }

  lemma {:induction false} RoundsFromLists(lists: seq<seq<Url>>, round: nat, u: Url)
    ensures u in Rounds(lists, round) ==> exists c, i :: i < round && At(lists, c, i, u)
  {
    if round > 0 {
      hide Column;
      RoundsFromLists(lists, round - 1, u);
      ColumnFromLists(lists, round - 1, |lists|, u);
    }
  }

  lemma {:induction false} ColumnDistinct(lists: seq<seq<Url>>, round: nat, cut: nat)
    requires AllDistinct(lists) && cut <= |lists|
    ensures Distinct(Column(lists, round, cut))
    decreases cut
  {
    if cut > 0 {
      ColumnDistinct(lists, round, cut - 1);
      if round < |lists[cut - 1]| {
        ColumnTakes(lists, round, cut - 1, cut - 1, round, lists[cut - 1][round]);
      }
    }
  }

  lemma ConcatDistinct(a: seq<Url>, b: seq<Url>)
    requires Distinct(a) && Distinct(b) && Elements(a) !! Elements(b)
    ensures Distinct(a + b)
  {
    forall i, j | 0 <= i < j < |a + b| ensures (a + b)[i] != (a + b)[j] {
      if i < |a| <= j { assert (a + b)[i] in Elements(a) && (a + b)[j] in Elements(b); }
    }
  }

  lemma {:induction false} RoundsDistinct(lists: seq<seq<Url>>, round: nat)
    requires AllDistinct(lists)
    ensures Distinct(Rounds(lists, round))
    decreases round
  {
    if round > 0 {
      hide AllDistinct, Distinct, Elements, Column;
      RoundsDistinct(lists, round - 1);
      ColumnDistinct(lists, round - 1, |lists|);
      RoundsMeetColumn(lists, round - 1, |lists|);
      ConcatDistinct(Rounds(lists, round - 1), Column(lists, round - 1, |lists|));
    }
  }

  lemma RoundsMeetColumn(lists: seq<seq<Url>>, round: nat, cut: nat)
    requires AllDistinct(lists) && cut <= |lists|
    ensures Elements(Rounds(lists, round)) !! Elements(Column(lists, round, cut))
  {
    forall u | u in Elements(Column(lists, round, cut)) ensures u !in Elements(Rounds(lists, round)) {
      ColumnFromLists(lists, round, cut, u);
      var c :| c < cut && At(lists, c, round, u);
      RoundsTake(lists, round, c, round, u);
    }
  }

  lemma ServedDistinct(lists: seq<seq<Url>>, round: nat, cut: nat)
    requires AllDistinct(lists) && cut <= |lists|
    ensures Distinct(Served(lists, round, cut))
  {
    RoundsDistinct(lists, round);
    ColumnDistinct(lists, round, cut);
    RoundsMeetColumn(lists, round, cut);
    ConcatDistinct(Rounds(lists, round), Column(lists, round, cut));
  }

  /** Once the rounds pass the longest list, every entry of every list has been taken. */
  lemma AllServed(lists: seq<seq<Url>>, round: nat, cut: nat, c: nat, i: nat)
    requires AllDistinct(lists) && cut <= |lists| && round >= Longest(lists)
    requires c < |lists| && i < |lists[c]|
    ensures lists[c][i] in Served(lists, round, cut)
  {
    ServedIsPrefix(lists, round, cut, c, i);
  }

  // --- Claiming -------------------------------------------------------------------------------

  /** Some usable location of `raws` normalizes to `u`. */
  ghost predicate Usable(site: Site, raws: seq<Url>, u: Url) {
    exists i :: 0 <= i < |raws| && site.eligible(raws[i]) && site.normalize(raws[i]) == u
  }

  lemma UsableTail(site: Site, raws: seq<Url>, u: Url)
    requires raws != []
    ensures Usable(site, raws, u) <==>
            (site.eligible(raws[0]) && site.normalize(raws[0]) == u) || Usable(site, raws[1..], u)
  {
    if Usable(site, raws[1..], u) {
      var i :| 0 <= i < |raws[1..]| && site.eligible(raws[1..][i]) && site.normalize(raws[1..][i]) == u;
      assert raws[i + 1] == raws[1..][i];
    }
    if i :| 0 <= i < |raws| && site.eligible(raws[i]) && site.normalize(raws[i]) == u {
      assert i > 0 ==> raws[1..][i - 1] == raws[i];
    }
  }

  /**
   * A claimed list is duplicate-free, new, usable and within its room, and it misses a usable new
   * location only when the room ran out. Unusable locations take no room at all.
   */
  lemma {:induction false} FreshMeaning(site: Site, raws: seq<Url>, seen: set<Url>, room: nat, u: Url)
    ensures var f := Fresh(site, raws, seen, room);
            && Distinct(f) && |f| <= room && Elements(f) !! seen
            && (u in f ==> Usable(site, raws, u))
            && (Usable(site, raws, u) && |f| < room ==> u in seen || u in f)
    decreases |raws|
  {
    if raws != [] && room > 0 {
      var v := site.normalize(raws[0]);
      UsableTail(site, raws, u);
      if site.eligible(raws[0]) && v !in seen {
        FreshMeaning(site, raws[1..], seen + {v}, room - 1, u);
        var tail := Fresh(site, raws[1..], seen + {v}, room - 1);
        assert v !in Elements(tail);
        assert Elements([v]) == {v};
        ConcatDistinct([v], tail);
      } else {
        FreshMeaning(site, raws[1..], seen, room, u);
      }
    }
  }

  /** Claims are in the order of the list: more locations never change what the earlier ones gave. */
  lemma {:induction false} FreshInOrder(site: Site, raws: seq<Url>, more: seq<Url>, seen: set<Url>, room: nat)
    ensures Fresh(site, raws, seen, room) <= Fresh(site, raws + more, seen, room)
    decreases |raws|
  {
    if raws != [] && room > 0 {
      var u := site.normalize(raws[0]);
      assert (raws + more)[1..] == raws[1..] + more;
      FreshInOrder(site, raws[1..], more, seen + {u}, room - 1);
      FreshInOrder(site, raws[1..], more, seen, room);
    }
  }

  /** Filtering precedes capping: a list and its usable part claim the same URLs. */
  lemma {:induction false} FilterBeforeCap(site: Site, raws: seq<Url>, seen: set<Url>, room: nat)
    ensures Fresh(site, raws, seen, room) == Fresh(site, Filter(site, raws), seen, room)
    decreases |raws|
  {
    if raws != [] {
      var v, tail := site.normalize(raws[0]), raws[1..];
      FilterBeforeCap(site, tail, seen, room);
      if site.eligible(raws[0]) {
        var kept := [raws[0]] + Filter(site, tail);
        assert Filter(site, raws) == kept && kept[1..] == Filter(site, tail);
        if room > 0 {
          FilterBeforeCap(site, tail, seen + {v}, room - 1);
        }
        assert Fresh(site, kept, seen, room) == Fresh(site, raws, seen, room);
      } else {
        assert Filter(site, raws) == Filter(site, tail);
      }
    }
  }

  function Filter(site: Site, raws: seq<Url>): seq<Url> {
    if raws == [] then []
    else (if site.eligible(raws[0]) then [raws[0]] else []) + Filter(site, raws[1..])
  }

  /** All usable URLs of the root and of every child. */
  ghost predicate Offered(site: Site, root: seq<Url>, children: seq<seq<Url>>, u: Url) {
    Usable(site, root, u) || exists c :: 0 <= c < |children| && Usable(site, children[c], u)
  }

  ghost predicate InLists(lists: seq<seq<Url>>, u: Url) {
    exists c, i :: At(lists, c, i, u)
  }

  lemma PrependList(list: seq<Url>, lists: seq<seq<Url>>, seen: set<Url>)
    requires Distinct(list) && AllDistinct(lists)
    requires forall u :: InLists(lists, u) ==> u !in list
    ensures AllDistinct([list] + lists)
    ensures forall u :: InLists([list] + lists, u) <==> u in list || InLists(lists, u)
  {
    var all := [list] + lists;
    forall u | InLists(all, u) ensures u in list || InLists(lists, u) {
      var c, i :| At(all, c, i, u);
      assert c > 0 ==> At(lists, c - 1, i, u);
    }
    forall u | u in list || InLists(lists, u) ensures InLists(all, u) {
      if u in list {
        var i :| 0 <= i < |list| && list[i] == u;
        assert At(all, 0, i, u);
      } else {
        var c, i :| At(lists, c, i, u);
        assert At(all, c + 1, i, u);
      }
    }
    forall c, i, d, j, u | At(all, c, i, u) && At(all, d, j, u) ensures c == d && i == j {
      if c > 0 { assert At(lists, c - 1, i, u) && InLists(lists, u); }
      if d > 0 { assert At(lists, d - 1, j, u) && InLists(lists, u); }
    }
  }

  lemma {:induction false} ChildListsMeaning(site: Site, children: seq<seq<Url>>, seen: set<Url>, limit: nat, u: Url)
    ensures var lists := ChildLists(site, children, seen, limit);
            && |lists| == |children| && AllDistinct(lists)
            && (forall c :: 0 <= c < |lists| ==> |lists[c]| <= limit)
            && (forall v :: InLists(lists, v) ==> v !in seen)
            && (InLists(lists, u) ==> Offered(site, [], children, u))
            && (Offered(site, [], children, u) && (forall c :: 0 <= c < |lists| ==> |lists[c]| < limit) ==> u in seen || InLists(lists, u))
    decreases |children|
  {
    if children != [] {
      var usable := Fresh(site, children[0], seen, limit);
      var rest := ChildLists(site, children[1..], seen + Elements(usable), limit);
      FreshMeaning(site, children[0], seen, limit, u);
      ChildListsMeaning(site, children[1..], seen + Elements(usable), limit, u);
      forall v | InLists(rest, v) ensures v !in usable { assert v !in Elements(usable); }
      PrependList(usable, rest, seen);
      var lists := [usable] + rest;
      OfferedTail(site, children, u);
      assert forall c :: 0 < c < |lists| ==> lists[c] == rest[c - 1];
      forall v | InLists(lists, v) ensures v !in seen {
        if v in usable { assert v in Elements(usable); }
      }
      if forall c :: 0 <= c < |lists| ==> |lists[c]| < limit {
        assert |lists[0]| < limit;
        forall c | 0 <= c < |rest| ensures |rest[c]| < limit { assert lists[c + 1] == rest[c]; }
      }
    }
  }

  lemma OfferedTail(site: Site, children: seq<seq<Url>>, u: Url)
    requires children != []
    ensures Offered(site, [], children, u) <==> Usable(site, children[0], u) || Offered(site, [], children[1..], u)
  {
    if Offered(site, [], children[1..], u) {
      var c :| 0 <= c < |children[1..]| && Usable(site, children[1..][c], u);
      assert children[c + 1] == children[1..][c];
    }
    if Offered(site, [], children, u) {
      var c :| 0 <= c < |children| && Usable(site, children[c], u);
      assert c > 0 ==> children[1..][c - 1] == children[c];
    }
  }

  // --- The seed list ----------------------------------------------------------------------------

  /** The parts a seed list is made of. */
  ghost function RootSeeds(site: Site, root: seq<Url>, limit: nat): seq<Url> { Fresh(site, root, {}, limit) }

  ghost function Lists(site: Site, root: seq<Url>, children: seq<seq<Url>>, limit: nat): seq<seq<Url>> {
    ChildLists(site, children, Elements(RootSeeds(site, root, limit)), limit)
  }

  /** A seed list: the root's own URLs, then the children's in turn, up to the limit or to the end. */
  ghost predicate SeedList(site: Site, root: seq<Url>, children: seq<seq<Url>>, limit: nat, seeds: seq<Url>, round: nat, cut: nat) {
    var lists := Lists(site, root, children, limit);
    && cut <= |lists|
    && seeds == RootSeeds(site, root, limit) + Served(lists, round, cut)
    && |seeds| <= limit && (|seeds| < limit ==> round >= Longest(lists))
  }

  /** Every seed is usable, none occurs twice, and below the limit no usable URL is missing. */
  lemma SeedListMeaning(site: Site, root: seq<Url>, children: seq<seq<Url>>, limit: nat, seeds: seq<Url>, round: nat, cut: nat, u: Url)
    requires SeedList(site, root, children, limit, seeds, round, cut)
    ensures Distinct(seeds)
    ensures u in seeds ==> Offered(site, root, children, u)
    ensures Offered(site, root, children, u) && |seeds| < limit ==> u in seeds
  {
    var first, lists := RootSeeds(site, root, limit), Lists(site, root, children, limit);
    var served := Served(lists, round, cut);
    FreshMeaning(site, root, {}, limit, u);
    ChildListsMeaning(site, children, Elements(first), limit, u);
    ServedDistinct(lists, round, cut);
    forall v | v in served ensures InLists(lists, v) && v !in Elements(first) {
      RoundsFromLists(lists, round, v);
      ColumnFromLists(lists, round, cut, v);
    }
    ConcatDistinct(first, served);
    assert Offered(site, root, children, u) <==> Usable(site, root, u) || Offered(site, [], children, u);
    if Offered(site, root, children, u) && |seeds| < limit {
      forall c | 0 <= c < |lists| ensures |lists[c]| < limit { ServedCovers(lists, round, cut, c); }
      if u !in first {
        assert u !in Elements(first);
        var c, i :| At(lists, c, i, u);
        AllServed(lists, round, cut, c, i);
      }
    }
  }

  /** With every round done, at least as many URLs are taken as any one list holds. */
  lemma ServedCovers(lists: seq<seq<Url>>, round: nat, cut: nat, c: nat)
    requires AllDistinct(lists) && cut <= |lists| && round >= Longest(lists) && c < |lists|
    ensures |lists[c]| <= |Served(lists, round, cut)|
  {
    var served := Served(lists, round, cut);
    forall u | u in Elements(lists[c]) ensures u in Elements(served) {
      var i :| 0 <= i < |lists[c]| && lists[c][i] == u;
      AllServed(lists, round, cut, c, i);
    }
    ServedDistinct(lists, round, cut);
    forall i, j | 0 <= i < j < |lists[c]| ensures lists[c][i] != lists[c][j] {
      assert At(lists, c, i, lists[c][i]) && At(lists, c, j, lists[c][j]);
    }
    DistinctSize(lists[c]);
    DistinctSize(served);
    SubsetSize(Elements(lists[c]), Elements(served));
  }

  lemma {:induction false} DistinctSize(us: seq<Url>)
    requires Distinct(us)
    ensures |Elements(us)| == |us|
  {
    if us != [] {
      var front, last := us[..|us| - 1], us[|us| - 1];
      DistinctSize(front);
      assert Elements(us) == Elements(front) + {last};
    }
  }

  lemma SubsetSize(a: set<Url>, b: set<Url>)
    requires a <= b
    ensures |a| <= |b|
  {
    assert |b| == |a| + |b - a| by { assert b == a + (b - a); }
  }

  /** The number of seeds is the number of usable URLs or the limit, whichever is less. */
  lemma SeedCount(site: Site, root: seq<Url>, children: seq<seq<Url>>, limit: nat, seeds: seq<Url>, round: nat, cut: nat, usable: set<Url>)
    requires SeedList(site, root, children, limit, seeds, round, cut)
    requires forall u :: u in usable <==> Offered(site, root, children, u)
    ensures |seeds| == if |usable| <= limit then |usable| else limit
  {
    SeedListMeaning(site, root, children, limit, seeds, round, cut, Url(0));
    DistinctSize(seeds);
    forall u | u in Elements(seeds) ensures u in usable { SeedListMeaning(site, root, children, limit, seeds, round, cut, u); }
    SubsetSize(Elements(seeds), usable);
    if |seeds| < limit {
      forall u | u in usable ensures u in Elements(seeds) { SeedListMeaning(site, root, children, limit, seeds, round, cut, u); }
      assert Elements(seeds) == usable;
    }
  }

  lemma ServedNothing(lists: seq<seq<Url>>)
    ensures Served(lists, 0, 0) == []
  {
  }

  lemma ServedNext(lists: seq<seq<Url>>, round: nat, cut: nat)
    requires cut < |lists|
    ensures Served(lists, round, cut + 1)
         == Served(lists, round, cut) + (if round < |lists[cut]| then [lists[cut][round]] else [])
  {
  }

  lemma ServedRound(lists: seq<seq<Url>>, round: nat)
    ensures Served(lists, round, |lists|) == Served(lists, round + 1, 0)
  {
  }

  lemma FreshUnfolds(site: Site, raws: seq<Url>, i: nat, seen: set<Url>, limit: nat, taken: seq<Url>)
    requires i < |raws| && |taken| < limit
    ensures var u := site.normalize(raws[i]);
            taken + Fresh(site, raws[i..], seen, limit - |taken|)
            == if site.eligible(raws[i]) && u !in seen
               then (taken + [u]) + Fresh(site, raws[i + 1..], seen + {u}, limit - |taken| - 1)
               else taken + Fresh(site, raws[i + 1..], seen, limit - |taken|)
  {
    assert raws[i..][1..] == raws[i + 1..];
    var u := site.normalize(raws[i]);
    if site.eligible(raws[i]) && u !in seen {
      var rest := Fresh(site, raws[i + 1..], seen + {u}, limit - |taken| - 1);
      assert taken + ([u] + rest) == (taken + [u]) + rest;
    }
  }

  lemma FreshEnds(site: Site, raws: seq<Url>, seen: set<Url>, room: nat)
    ensures raws == [] || room == 0 ==> Fresh(site, raws, seen, room) == []
  {
  }

  class SeedLoader {
    const site: Site
    var seeds: seq<Url>
    var seen: set<Url>

    constructor (site: Site)
      ensures this.site == site && seeds == [] && seen == {}
    {
      this.site := site;
      seeds, seen := [], {};
    }

    /** Normalize one location, or refuse it; a URL is claimed at most once. */
    method ClaimUrl(raw: Url) returns (claim: Option<Url>)
      modifies this`seen
      ensures claim == if site.eligible(raw) && site.normalize(raw) !in old(seen) then Some(site.normalize(raw)) else None
      ensures seen == if claim.Some? then old(seen) + {claim.value} else old(seen)
    {
      if !site.eligible(raw) { return None; }
      var norm := site.normalize(raw);
      if norm in seen { return None; }
      seen := seen + {norm};
      return Some(norm);
    }

    /** Claim usable URLs of one list until `limit` of them are found. */
    method ClaimList(raws: seq<Url>, limit: nat) returns (usable: seq<Url>)
      modifies this`seen
      ensures usable == Fresh(site, raws, old(seen), limit)
      ensures seen == old(seen) + Elements(usable)
    {
      hide Fresh;
      usable := [];
      var i := 0;
      assert raws[0..] == raws && [] + Fresh(site, raws, seen, limit) == Fresh(site, raws, seen, limit);
      while i < |raws| && |usable| < limit
        invariant i <= |raws| && |usable| <= limit && seen == old(seen) + Elements(usable)
        invariant Fresh(site, raws, old(seen), limit) == usable + Fresh(site, raws[i..], seen, limit - |usable|)
      {
        FreshUnfolds(site, raws, i, seen, limit, usable);
        var claim := ClaimUrl(raws[i]);
        if claim.Some? {
          assert Elements(usable + [claim.value]) == Elements(usable) + {claim.value};
          usable := usable + [claim.value];
        }
        i := i + 1;
      }
      FreshEnds(site, raws[i..], seen, limit - |usable|);
    }

    method Load(root: seq<Url>, children: seq<seq<Url>>, limit: nat) returns (ghost round: nat, ghost cut: nat)
      requires seeds == [] && seen == {}
      modifies this
      ensures SeedList(site, root, children, limit, seeds, round, cut)
      ensures Distinct(seeds)
    {
      hide Fresh, Served, Longest, Distinct, Offered;
      seeds := ClaimList(root, limit);
      FreshMeaning(site, root, {}, limit, Url(0));
      ghost var first := seeds;
      assert seen == Elements(first);
      var childLists := [];
      for c := 0 to |children|
        invariant ChildLists(site, children, Elements(first), limit) == childLists + ChildLists(site, children[c..], seen, limit)
        invariant seeds == first
      {
        assert children[c..][1..] == children[c + 1..];
        ghost var before := childLists;
        var usable := ClaimList(children[c], limit);
        childLists := childLists + [usable];
        assert before + ([usable] + ChildLists(site, children[c + 1..], seen, limit))
            == childLists + ChildLists(site, children[c + 1..], seen, limit);
      }
      assert childLists == Lists(site, root, children, limit);
      round, cut := Interleave(childLists, limit);
      SeedListMeaning(site, root, children, limit, seeds, round, cut, Url(0));
    }

    method Interleave(childLists: seq<seq<Url>>, limit: nat) returns (ghost round: nat, ghost cut: nat)
      requires |seeds| <= limit
      modifies this`seeds
      ensures cut <= |childLists| && seeds == old(seeds) + Served(childLists, round, cut)
      ensures |seeds| <= limit && (|seeds| < limit ==> round >= Longest(childLists))
    {
      hide Served, Longest;
      var longest := Longest(childLists);
      var index := 0;
      ServedNothing(childLists);
      round, cut := 0, 0;
      while index < longest && |seeds| < limit
        invariant |seeds| <= limit && cut <= |childLists|
        invariant seeds == old(seeds) + Served(childLists, round, cut)
        invariant |seeds| < limit ==> round == index && cut == 0
        decreases longest - index
      {
        var c := 0;
        while c < |childLists| && |seeds| < limit
          invariant c <= |childLists| && |seeds| <= limit
          invariant seeds == old(seeds) + Served(childLists, index, c)
        {
          ServedNext(childLists, index, c);
          if index < |childLists[c]| {
            seeds := seeds + [childLists[c][index]];
          }
          c := c + 1;
        }
        if c == |childLists| {
          round, cut := index + 1, 0;
          ServedRound(childLists, index);
        } else {
          round, cut := index, c;
        }
        index := index + 1;
      }
    }
  }
}
