/**
 * A wave of concurrent fetches against the crawler that takes one URL at a time: when they agree,
 * and exactly when a single wave disagrees.
 */
module CrawlWaves {
  import opened CrawlModel
  import opened Numbers
  import opened CrawlRun

  /** The reference crawler's step: one queue entry, fetched and committed before the next is looked at. */
  function ItemStep(site: Site, s: State): State {
    if s.queue == [] || s.stopped then s
    else
      var item := s.queue[0];
      var popped := s.(queue := s.queue[1..]);
      if item.url in s.visited then popped.(vanished := popped.vanished + [item.url])
      else Commit(site, popped.(visited := popped.visited + {item.url}), item, [])
  }

  function Steps(site: Site, s: State, n: nat): State
    decreases n
  {
    if n == 0 then s else Steps(site, ItemStep(site, s), n - 1)
  }

  lemma ItemStepProgress(site: Site, s: State)
    requires s.queue != [] && !s.stopped
    ensures var t := ItemStep(site, s);
            && (|s.pages| + 1 == |t.pages| || (|t.pages| == |s.pages| && |t.queue| < |s.queue|))
            && (s.queueFull ==> t.queueFull)
  {
    var item := s.queue[0];
    if item.url !in s.visited {
      CommitSize(site, s.(queue := s.queue[1..], visited := s.visited + {item.url}), item, []);
    }
  }

  /** The reference crawler: one URL at a time, under the same page limit. */
  function Sequential(site: Site, s: State, maxUrls: nat): State
    requires |s.pages| <= maxUrls
    decreases maxUrls - |s.pages|, |s.queue|
  {
    if s.queue == [] || s.stopped then s
    else if |s.pages| >= maxUrls then Drain(s, PageLimit)
    else
      ItemStepProgress(site, s);
      Sequential(site, ItemStep(site, s), maxUrls)
  }

  lemma {:induction false} SequentialStaysFull(site: Site, s: State, maxUrls: nat)
    requires |s.pages| <= maxUrls && s.queueFull
    ensures Sequential(site, s, maxUrls).queueFull
    decreases maxUrls - |s.pages|, |s.queue|
  {
    if s.queue != [] && !s.stopped && |s.pages| < maxUrls {
      ItemStepProgress(site, s);
      SequentialStaysFull(site, ItemStep(site, s), maxUrls);
    }
  }

  lemma {:induction false} StepsStayFull(site: Site, s: State, n: nat)
    requires s.queueFull
    ensures Steps(site, s, n).queueFull
    decreases n
  {
    if n > 0 {
      if s.queue != [] && !s.stopped { ItemStepProgress(site, s); }
      StepsStayFull(site, ItemStep(site, s), n - 1);
    }
  }

  lemma {:induction false} StepsOfStopped(site: Site, s: State, n: nat)
    requires s.stopped
    ensures Steps(site, s, n) == s
    decreases n
  {
    if n > 0 { StepsOfStopped(site, s, n - 1); }
  }

  // --- A claimed batch seen as a queue prefix --------------------------------------------

  function UrlSet(items: seq<Item>): set<Url> {
    if items == [] then {} else {items[0].url} + UrlSet(items[1..])
  }

  lemma {:induction false} InUrlSet(items: seq<Item>, u: Url)
    ensures u in UrlSet(items) <==> exists i :: 0 <= i < |items| && items[i].url == u
  {
    if items != [] {
      var tail := items[1..];
      InUrlSet(tail, u);
      if u in UrlSet(tail) {
        var i :| 0 <= i < |tail| && tail[i].url == u;
        assert items[i + 1].url == u;
      }
      forall i | 0 < i < |items| && items[i].url == u ensures u in UrlSet(tail) {
        assert tail[i - 1].url == u;
      }
    }
  }

  // --- The queue entries a wave consumes -------------------------------------------------

  /** The entries of a queue prefix that are still to be visited: the batch a claim makes of it. */
  function Live(p: seq<Item>, seen: set<Url>): seq<Item> {
    if p == [] then [] else (if p[0].url in seen then [] else [p[0]]) + Live(p[1..], seen)
  }

  /** Its entries that are visited already, which a claim drops. */
  function Dead(p: seq<Item>, seen: set<Url>): seq<Url> {
    if p == [] then [] else (if p[0].url in seen then [p[0].url] else []) + Dead(p[1..], seen)
  }

  /** A claim consumes an entry only while there is room for one more fetch. */
  ghost predicate Open(site: Site, p: seq<Item>, seen: set<Url>, room: int) {
    p == [] ||
    (room > 0 && Open(site, p[1..], seen, if p[0].url in seen || !site.allowed(p[0].url) then room else room - 1))
  }

  ghost predicate DistinctItems(p: seq<Item>) {
    forall i, j :: 0 <= i < j < |p| ==> p[i].url != p[j].url
  }

  /** A queue of distinct URLs, each queued once before; some may have been visited by a redirect. */
  ghost predicate Known(s: State) {
    DistinctItems(s.queue) && forall i :: 0 <= i < |s.queue| ==> s.queue[i].url in s.depthOf
  }

  /** What a wave consumed is distinct, known and visited, and its dropped entries were dropped last. */
  ghost predicate Consumed(w: State, p: seq<Item>, seen: set<Url>) {
    && DistinctItems(p)
    && (forall i :: 0 <= i < |p| ==> p[i].url in w.visited && p[i].url in w.depthOf)
    && |Dead(p, seen)| <= |w.vanished| && w.vanished[|w.vanished| - |Dead(p, seen)|..] == Dead(p, seen)
  }

  /** The state in which the consumed entries `p` are still queued. */
  ghost function Before(w: State, p: seq<Item>, seen: set<Url>): State
    requires Consumed(w, p, seen)
  {
    w.(queue := p + w.queue, visited := w.visited - UrlSet(Live(p, seen)),
       vanished := w.vanished[..|w.vanished| - |Dead(p, seen)|])
  }

  lemma {:induction false} LiveAndDead(p: seq<Item>, seen: set<Url>)
    ensures |Live(p, seen)| + |Dead(p, seen)| == |p|
    ensures Dead(p, seen) == [] ==> Live(p, seen) == p
    ensures Dead(p, seen) == [] <==> forall i :: 0 <= i < |p| ==> p[i].url !in seen
  {
    if p != [] {
      var rest := p[1..];
      LiveAndDead(rest, seen);
      assert p == [p[0]] + rest;
      if Dead(p, seen) == [] {
        forall i | 0 <= i < |p| ensures p[i].url !in seen { if i > 0 { assert p[i] == rest[i - 1]; } }
      }
      if forall i :: 0 <= i < |p| ==> p[i].url !in seen {
        forall i | 0 <= i < |rest| ensures rest[i].url !in seen { assert rest[i] == p[i + 1]; }
      }
    }
  }

  lemma {:induction false} InLive(p: seq<Item>, seen: set<Url>, u: Url)
    ensures u in UrlSet(Live(p, seen)) <==> u !in seen && exists i :: 0 <= i < |p| && p[i].url == u
  {
    if p != [] {
      var rest := p[1..];
      InLive(rest, seen, u);
      if p[0].url in seen {
        assert Live(p, seen) == Live(rest, seen);
      } else {
        assert Live(p, seen) == [p[0]] + Live(rest, seen) && Live(p, seen)[1..] == Live(rest, seen);
      }
      assert (exists i :: 0 <= i < |p| && p[i].url == u) <==> p[0].url == u || exists i :: 0 <= i < |rest| && rest[i].url == u by {
        if i :| 0 <= i < |rest| && rest[i].url == u { assert p[i + 1].url == u; }
        if i :| 0 <= i < |p| && p[i].url == u { if i > 0 { assert rest[i - 1].url == u; } }
      }
    }
  }

  /** Marking a URL that does not occur changes neither part. */
  lemma {:induction false} LiveIgnores(p: seq<Item>, seen: set<Url>, u: Url)
    requires forall i :: 0 <= i < |p| ==> p[i].url != u
    ensures Live(p, seen + {u}) == Live(p, seen) && Dead(p, seen + {u}) == Dead(p, seen)
  {
    if p != [] {
      forall i | 0 <= i < |p[1..]| ensures p[1..][i].url != u { assert p[1..][i] == p[i + 1]; }
      LiveIgnores(p[1..], seen, u);
    }
  }

  lemma {:induction false} OpenIgnores(site: Site, p: seq<Item>, seen: set<Url>, u: Url, room: int)
    requires forall i :: 0 <= i < |p| ==> p[i].url != u
    ensures Open(site, p, seen + {u}, room) <==> Open(site, p, seen, room)
    decreases |p|
  {
    if p != [] {
      forall i | 0 <= i < |p[1..]| ensures p[1..][i].url != u { assert p[1..][i] == p[i + 1]; }
      OpenIgnores(site, p[1..], seen, u, if p[0].url in seen || !site.allowed(p[0].url) then room else room - 1);
    }
  }

  /** How many queue entries a claim consumes. */
  function Taken(site: Site, s: State, room: nat): (c: nat)
    ensures c <= |s.queue|
  {
    ClaimFrame(site, s, room);
    |s.queue| - |Claim(site, s, room).0.queue|
  }

  /** A claim splits a queue prefix into its batch and its silent drops. */
  ghost predicate TakesPrefix(site: Site, s: State, room: nat) {
    var (w, batch) := Claim(site, s, room);
    var p := s.queue[..Taken(site, s, room)];
    && batch == Live(p, s.visited) && Open(site, p, s.visited, room)
    && w == s.(queue := s.queue[|p|..], visited := s.visited + UrlSet(batch), vanished := s.vanished + Dead(p, s.visited))
  }

  lemma DropTakesPrefix(site: Site, s: State, room: nat, dropped: State)
    requires room > 0 && s.queue != [] && s.queue[0].url in s.visited
    requires dropped == s.(queue := s.queue[1..], vanished := s.vanished + [s.queue[0].url]) && TakesPrefix(site, dropped, room)
    ensures TakesPrefix(site, s, room)
  {
    assert Claim(site, s, room) == Claim(site, dropped, room);
    hide Claim, UrlSet;
    PrefixStep(site, s, dropped, room, room);
    var p := s.queue[..Taken(site, s, room)];
    assert s.vanished + Dead(p, s.visited) == dropped.vanished + Dead(p[1..], s.visited);
  }

  lemma SlotTakesPrefix(site: Site, s: State, room: nat, marked: State, left: nat)
    requires room > 0 && s.queue != [] && s.queue[0].url !in s.visited && DistinctItems(s.queue)
    requires marked == s.(queue := s.queue[1..], visited := s.visited + {s.queue[0].url}) && TakesPrefix(site, marked, left)
    requires left == if site.allowed(s.queue[0].url) then room - 1 else room
    ensures TakesPrefix(site, s, room)
  {
    hide Claim, Taken, UrlSet, Live, Dead, Open;
    var item := s.queue[0];
    var (w, tail) := Claim(site, marked, left);
    ClaimSlot(site, s, room);
    PrefixStep(site, s, marked, room, left);
    var p := s.queue[..Taken(site, s, room)];
    forall i | 0 <= i < |p[1..]| ensures p[1..][i].url != item.url { assert p[1..][i] == s.queue[i + 1]; }
    LiveIgnores(p[1..], s.visited, item.url);
    OpenIgnores(site, p[1..], s.visited, item.url, left);
    SlotInPrefix(site, p, s.visited, room);
    assert s.visited + UrlSet([item] + tail) == marked.visited + UrlSet(tail);
  }

  lemma ClaimSlot(site: Site, s: State, room: nat)
    requires room > 0 && s.queue != [] && s.queue[0].url !in s.visited
    ensures var marked := s.(queue := s.queue[1..], visited := s.visited + {s.queue[0].url});
            var (w, tail) := Claim(site, marked, if site.allowed(s.queue[0].url) then room - 1 else room);
            Claim(site, s, room) == (w, [s.queue[0]] + tail)
  {
  }

  lemma SlotInPrefix(site: Site, p: seq<Item>, seen: set<Url>, room: int)
    requires p != [] && p[0].url !in seen
    ensures Live(p, seen) == [p[0]] + Live(p[1..], seen) && Dead(p, seen) == Dead(p[1..], seen)
    ensures UrlSet([p[0]] + Live(p[1..], seen)) == {p[0].url} + UrlSet(Live(p[1..], seen))
    ensures Open(site, p, seen, room) <==> room > 0 && Open(site, p[1..], seen, if site.allowed(p[0].url) then room - 1 else room)
  {
    LiveHead(p, seen);
  }

  lemma {:induction false} ClaimTakesPrefix(site: Site, s: State, room: nat)
    requires Known(s)
    ensures TakesPrefix(site, s, room)
    decreases |s.queue|
  {
    if room == 0 || s.queue == [] {
      assert s.queue[..0] == [];
    } else {
      hide TakesPrefix;
      var item := s.queue[0];
      var popped := s.(queue := s.queue[1..]);
      KnownTail(s);
      if item.url in s.visited {
        var dropped := popped.(vanished := popped.vanished + [item.url]);
        ClaimTakesPrefix(site, dropped, room);
        DropTakesPrefix(site, s, room, dropped);
      } else {
        var left := if site.allowed(item.url) then room - 1 else room;
        var marked := popped.(visited := popped.visited + {item.url});
        ClaimTakesPrefix(site, marked, left);
        SlotTakesPrefix(site, s, room, marked, left);
      }
    }
  }

  lemma KnownTail(s: State)
    requires Known(s) && s.queue != []
    ensures Known(s.(queue := s.queue[1..]))
  {
    var tail := s.queue[1..];
    forall i | 0 <= i < |tail| ensures tail[i] == s.queue[i + 1] {}
  }

  lemma PrefixStep(site: Site, s: State, t: State, room: nat, left: nat)
    requires room > 0 && s.queue != [] && t.queue == s.queue[1..]
    requires Claim(site, s, room).0 == Claim(site, t, left).0
    ensures Taken(site, s, room) == Taken(site, t, left) + 1
    ensures var p := s.queue[..Taken(site, s, room)];
            p[0] == s.queue[0] && p[1..] == t.queue[..Taken(site, t, left)] && s.queue[|p|..] == t.queue[|p| - 1..]
  {
  }

  lemma ClaimConsumed(site: Site, s: State, room: nat)
    requires Known(s)
    ensures var w, p := Claim(site, s, room).0, s.queue[..Taken(site, s, room)];
            Consumed(w, p, s.visited) && Before(w, p, s.visited) == s
  {
    hide Claim, Taken, UrlSet, Live, Dead, Open;
    ClaimTakesPrefix(site, s, room);
    var (w, batch) := Claim(site, s, room);
    var p := s.queue[..Taken(site, s, room)];
    forall i | 0 <= i < |p| ensures p[i].url in w.visited && p[i].url in w.depthOf {
      assert p[i] == s.queue[i];
      InLive(p, s.visited, p[i].url);
    }
    assert w.vanished[|s.vanished|..] == Dead(p, s.visited) && w.vanished[..|s.vanished|] == s.vanished;
    assert p + w.queue == s.queue;
    forall u | u in UrlSet(batch) ensures u !in s.visited { InLive(p, s.visited, u); }
    assert (s.visited + UrlSet(batch)) - UrlSet(batch) == s.visited;
  }

  // --- Committing one slot of a wave is one step of the reference crawler -------------------

  /** Where fetching `url` ends, when it ends on a page. */
  function Target(site: Site, url: Url): Url {
    if site.allowed(url) && site.fetch(url).Ok? then site.normalize(site.fetch(url).finalUrl) else url
  }

  /** What is known of the first consumed entry. */
  lemma HeadOfPrefix(w: State, p: seq<Item>, seen: set<Url>)
    requires Consumed(w, p, seen) && p != []
    ensures var q, rest := Before(w, p, seen), p[1..];
            && q.queue != [] && q.queue[0] == p[0] && q.queue[1..] == rest + w.queue
            && Consumed(w, rest, seen) && p[0].url !in UrlSet(Live(rest, seen))
            && UrlSet(Live(rest, seen)) <= w.visited && UrlSet(Live(rest, seen)) <= w.depthOf.Keys
            && p[0].url in w.visited
            && (if p[0].url in seen then
                  p[0].url in q.visited
                  && q.(queue := q.queue[1..], vanished := q.vanished + [p[0].url]) == Before(w, rest, seen)
                else
                  p[0].url !in q.visited
                  && q.(queue := q.queue[1..], visited := q.visited + {p[0].url}) == Before(w, rest, seen))
  {
    hide UrlSet, Live, Dead;
    var q, rest := Before(w, p, seen), p[1..];
    RestConsumed(w, p, seen);
    assert q.queue[1..] == rest + w.queue;
    InLive(rest, seen, p[0].url);
    forall i | 0 <= i < |rest| ensures rest[i].url != p[0].url { assert rest[i] == p[i + 1]; }
    forall u | u in UrlSet(Live(rest, seen)) ensures u in w.visited && u in w.depthOf { InLive(rest, seen, u); }
    if p[0].url in seen {
      InLive(p, seen, p[0].url);
      DropInPrefix(p, seen);
      var n := |w.vanished| - |Dead(p, seen)|;
      assert w.vanished[n] == w.vanished[n..][0] == p[0].url;
      assert w.vanished[..n] + [p[0].url] == w.vanished[..n + 1];
    } else {
      LiveHead(p, seen);
      assert q.visited + {p[0].url} == w.visited - UrlSet(Live(rest, seen));
    }
  }

  lemma DropInPrefix(p: seq<Item>, seen: set<Url>)
    requires p != [] && p[0].url in seen
    ensures Live(p, seen) == Live(p[1..], seen) && Dead(p, seen) == [p[0].url] + Dead(p[1..], seen)
  {
  }

  lemma LiveHead(p: seq<Item>, seen: set<Url>)
    requires p != [] && p[0].url !in seen
    ensures Live(p, seen) == [p[0]] + Live(p[1..], seen) && Dead(p, seen) == Dead(p[1..], seen)
    ensures UrlSet(Live(p, seen)) == {p[0].url} + UrlSet(Live(p[1..], seen))
  {
    assert ([p[0]] + Live(p[1..], seen))[1..] == Live(p[1..], seen);
  }

  lemma RestConsumed(w: State, p: seq<Item>, seen: set<Url>)
    requires Consumed(w, p, seen) && p != []
    ensures Consumed(w, p[1..], seen)
  {
    var rest := p[1..];
    forall i | 0 <= i < |rest| ensures rest[i] == p[i + 1] {}
    var all, d := Dead(p, seen), Dead(rest, seen);
    assert all == (if p[0].url in seen then [p[0].url] else []) + d;
    assert all[|all| - |d|..] == d;
    assert w.vanished[|w.vanished| - |all|..][|all| - |d|..] == w.vanished[|w.vanished| - |d|..];
  }

  lemma ConsumedGrows(s: State, t: State, p: seq<Item>, seen: set<Url>)
    requires Consumed(s, p, seen) && s.visited <= t.visited && s.depthOf.Keys <= t.depthOf.Keys && s.vanished == t.vanished
    ensures Consumed(t, p, seen)
  {
  }

  lemma {:induction false} EnqueueAllKeeps(site: Site, s: State, links: seq<Url>, d: nat)
    ensures s.depthOf.Keys <= EnqueueAll(site, s, links, d).depthOf.Keys
  {
    if links != [] { EnqueueAllKeeps(site, s, links[..|links| - 1], d); }
  }

  /** While the queue cap does not fire, links are queued alike in front of and behind a claim. */
  lemma {:induction false} EnqueueAllBefore(site: Site, w: State, links: seq<Url>, d: nat, p: seq<Item>, seen: set<Url>)
    requires Consumed(w, p, seen) && UrlSet(Live(p, seen)) <= w.depthOf.Keys
    requires !EnqueueAll(site, Before(w, p, seen), links, d).queueFull
    ensures Consumed(EnqueueAll(site, w, links, d), p, seen)
    ensures EnqueueAll(site, Before(w, p, seen), links, d) == Before(EnqueueAll(site, w, links, d), p, seen)
  {
    hide UrlSet, Live, Dead, DistinctItems;
    if links != [] {
      var front, last := links[..|links| - 1], links[|links| - 1];
      var q := EnqueueAll(site, Before(w, p, seen), front, d);
      assert EnqueueAll(site, Before(w, p, seen), links, d) == Enqueue(site, q, last, d);
      EnqueueAllBefore(site, w, front, d, p, seen);
      var m := EnqueueAll(site, w, front, d);
      EnqueueAllKeeps(site, w, front, d);
      EnqueueAllKeeps(site, w, links, d);
      EnqueueAllFrame(site, w, links, d);
      EnqueueAllFrame(site, w, front, d);
      ConsumedGrows(w, EnqueueAll(site, w, links, d), p, seen);
      var u := site.normalize(last);
      if site.eligible(last) && u !in m.visited && u !in m.depthOf {
        assert (p + m.queue) + [Item(u, d)] == p + (m.queue + [Item(u, d)]);
      }
    }
  }

  /** A slot is judged alike whether or not the slots behind it are marked visited. */
  lemma JudgeAgrees(site: Site, visited: set<Url>, url: Url, later: set<Url>)
    requires url !in later && Target(site, url) !in later
    ensures Judge(site, visited, url) == Judge(site, visited - later, url)
    ensures Judge(site, visited, url).url !in later
  {
  }

  /** Draining the queue with the consumed entries in it lists the dropped ones too. */
  lemma StopOrder(seen: State, u: Url, requested: Url, rest: seq<Item>, claimed: set<Url>)
    requires Consumed(seen, rest, claimed)
    ensures var q, t := StopOnBudget(Before(seen, rest, claimed), u, requested, []), StopOnBudget(seen, u, requested, Live(rest, claimed));
            && q.stopped && t.stopped
            && (Dead(rest, claimed) == [] ==> q == t.(visited := q.visited))
            && (Dead(rest, claimed) != [] ==> |q.skips| > |t.skips|)
  {
    hide Dead, Live, UrlSet;
    LiveAndDead(rest, claimed);
    assert Urls(rest + seen.queue) == Urls(rest) + Urls(seen.queue);
    assert Entries(Urls([]), ResultBudget) == [];
    var skips := seen.skips + [Entry(Skip(u, ResultBudget), requested)];
    assert Entries(Urls(rest) + Urls(seen.queue), ResultBudget)
        == Entries(Urls(rest), ResultBudget) + Entries(Urls(seen.queue), ResultBudget);
    assert skips + [] + Entries(Urls(rest + seen.queue), ResultBudget)
        == (skips + Entries(Urls(rest), ResultBudget)) + Entries(Urls(seen.queue), ResultBudget);
    if Dead(rest, claimed) == [] { assert seen.vanished[..|seen.vanished| - 0] == seen.vanished; }
  }

  /** The reference crawler reaches the same verdict on a slot and marks the same URL. */
  lemma SameVerdict(site: Site, w: State, p: seq<Item>, seen: set<Url>)
    requires Consumed(w, p, seen) && p != [] && p[0].url !in seen && !w.stopped
    requires Target(site, p[0].url) !in UrlSet(Live(p[1..], seen))
    ensures Consumed(w, p[1..], seen)
    ensures var marked := Before(w, p[1..], seen);
            var v := Judge(site, w.visited, p[0].url);
            var met := w.(visited := w.visited + {v.url});
            && ItemStep(site, Before(w, p, seen)) == Commit(site, marked, p[0], []) && Judge(site, marked.visited, p[0].url) == v
            && Consumed(met, p[1..], seen) && marked.(visited := marked.visited + {v.url}) == Before(met, p[1..], seen)
  {
    hide UrlSet, Live, Dead, DistinctItems, Commit, Judge, Target;
    var later := UrlSet(Live(p[1..], seen));
    HeadOfPrefix(w, p, seen);
    JudgeAgrees(site, w.visited, p[0].url, later);
    var v := Judge(site, w.visited, p[0].url);
    var met := w.(visited := w.visited + {v.url});
    ConsumedGrows(w, met, p[1..], seen);
    assert met.visited - later == (w.visited - later) + {v.url};
  }

  /** What one commit of a wave and the reference crawler's step make of the same slot. */
  lemma CommitIsStep(site: Site, w: State, p: seq<Item>, seen: set<Url>)
    requires Consumed(w, p, seen) && p != [] && p[0].url !in seen && !w.stopped
    requires Target(site, p[0].url) !in UrlSet(Live(p[1..], seen))
    requires !ItemStep(site, Before(w, p, seen)).queueFull
    ensures var rest := p[1..];
            var w', q' := Commit(site, w, p[0], Live(rest, seen)), ItemStep(site, Before(w, p, seen));
            if w'.stopped then
              && q'.stopped && (Dead(rest, seen) == [] ==> q' == w'.(visited := q'.visited))
              && (Dead(rest, seen) != [] ==> |q'.skips| > |w'.skips|)
            else Consumed(w', rest, seen) && q' == Before(w', rest, seen)
  {
    hide UrlSet, EnqueueAll, StopOnBudget, Live, Dead, DistinctItems, ItemStep, Judge, Target;
    var slot, rest := p[0], p[1..];
    HeadOfPrefix(w, p, seen);
    SameVerdict(site, w, p, seen);
    var v := Judge(site, w.visited, slot.url);
    var met := w.(visited := w.visited + {v.url});
    match v
    case Reject(u, reason) =>
      ConsumedGrows(met, AddSkip(met, u, reason, slot.url), rest, seen);
    case Keep(u, links, flooded) =>
      var size := site.recordBytes(slot.url, slot.depth);
      if w.bytes + size > MAX_RESULT_BYTES {
        StopOrder(met, u, slot.url, rest, seen);
      } else {
        var page := Page(u, slot.url, slot.depth, links, size, 0);
        var stored := StorePage(met, page, flooded);
        ConsumedGrows(met, stored, rest, seen);
        assert StorePage(Before(met, rest, seen), page, flooded) == Before(stored, rest, seen);
        EnqueueAllBefore(site, stored, links, slot.depth + 1, rest, seen);
        EnqueueAllFrame(site, stored, links, slot.depth + 1);
      }
  }

  // --- Agreement and lasting disagreement ---------------------------------------------------

  /** Equal in everything but, after the byte budget stopped the crawl, the visited set. */
  ghost predicate Agree(a: State, b: State) {
    a == b.(visited := a.visited) && (a.stopped || a == b)
  }

  ghost predicate SkipApart(a: State, b: State, k: nat) {
    k < |a.skips| && k < |b.skips| && a.skips[k] != b.skips[k]
  }

  /** `b` stored page `m` for a URL that `a` has visited and did not store that page for. */
  ghost predicate PageApart(a: State, b: State, m: nat, u: Url) {
    u in a.visited && m < |b.pages| && b.pages[m].requested == u && (m < |a.pages| ==> a.pages[m].requested != u)
  }

  /** A difference in the records that no later wave and no later step can undo. */
  ghost predicate Apart(a: State, b: State) {
    || (exists k: nat :: SkipApart(a, b, k))
    || (exists m: nat, u :: PageApart(a, b, m, u))
    || (a.stopped && b.stopped && a.skips != b.skips)
  }

  lemma ApartDisagrees(a: State, b: State)
    requires Apart(a, b)
    ensures !Agree(a, b)
  {
  }

  lemma CommitAppends(site: Site, s: State, slot: Item, rest: seq<Item>)
    ensures var t := Commit(site, s, slot, rest);
            && s.skips <= t.skips && s.pages <= t.pages && s.visited <= t.visited
            && (forall k :: |s.pages| <= k < |t.pages| ==> t.pages[k].requested == slot.url)
  {
    hide Judge, EnqueueAll;
    match Judge(site, s.visited, slot.url)
    case Reject(_, _) =>
    case Keep(u, links, flooded) =>
      var size := site.recordBytes(slot.url, slot.depth);
      EnqueueAllFrame(site, StorePage(s.(visited := s.visited + {u}), Page(u, slot.url, slot.depth, links, size, 0), flooded),
                      links, slot.depth + 1);
  }

  lemma {:induction false} BatchAppends(site: Site, s: State, batch: seq<Item>)
    ensures var t := CommitBatch(site, s, batch);
            && s.skips <= t.skips && s.pages <= t.pages && s.visited <= t.visited
            && (forall k :: |s.pages| <= k < |t.pages| ==> t.pages[k].requested in UrlSet(batch))
    decreases |batch|
  {
    if batch != [] && !s.stopped {
      CommitAppends(site, s, batch[0], batch[1..]);
      BatchAppends(site, Commit(site, s, batch[0], batch[1..]), batch[1..]);
    }
  }

  lemma ItemStepAppends(site: Site, s: State)
    ensures var t := ItemStep(site, s); s.skips <= t.skips && s.pages <= t.pages
  {
    if s.queue != [] && !s.stopped && s.queue[0].url !in s.visited {
      CommitAppends(site, s.(queue := s.queue[1..], visited := s.visited + {s.queue[0].url}), s.queue[0], []);
    }
  }

  lemma {:induction false} StepsAppend(site: Site, s: State, n: nat)
    ensures var t := Steps(site, s, n); s.skips <= t.skips && s.pages <= t.pages
    decreases n
  {
    if n > 0 {
      ItemStepAppends(site, s);
      StepsAppend(site, ItemStep(site, s), n - 1);
    }
  }

  /** The wave skips the redirected URL as already crawled and never stores a page for it. */
  lemma ForwardInWave(site: Site, w: State, slot: Item, rest: seq<Item>)
    requires slot.url in w.visited && slot.url !in UrlSet(rest) && !w.stopped
    requires Target(site, slot.url) in UrlSet(rest) && UrlSet(rest) <= w.visited
    ensures var wave := CommitBatch(site, w, [slot] + rest);
            && |wave.skips| > |w.skips| && wave.skips[|w.skips|].skip.url == slot.url && slot.url in wave.visited
            && (|wave.pages| > |w.pages| ==> wave.pages[|w.pages|].requested != slot.url)
  {
    assert ([slot] + rest)[1..] == rest;
    assert Judge(site, w.visited, slot.url) == Reject(slot.url, AlreadyCrawled);
    CommitAppends(site, w, slot, rest);
    BatchAppends(site, Commit(site, w, slot, rest), rest);
  }

  lemma JudgeTarget(site: Site, visited: set<Url>, url: Url)
    requires Target(site, url) !in visited
    ensures Judge(site, visited, url).url == Target(site, url)
  {
  }

  /** A commit records its verdict: one more skip under the verdict's URL, or one more page. */
  lemma CommitRecords(site: Site, s: State, slot: Item)
    ensures var t := Commit(site, s, slot, []);
            if |t.skips| > |s.skips| then t.skips[|s.skips|].skip.url == Judge(site, s.visited, slot.url).url
            else |t.pages| > |s.pages| && t.pages[|s.pages|].requested == slot.url
  {
    hide Judge, EnqueueAll;
    match Judge(site, s.visited, slot.url)
    case Reject(_, _) =>
    case Keep(u, links, flooded) =>
      var size := site.recordBytes(slot.url, slot.depth);
      EnqueueAllFrame(site, StorePage(s.(visited := s.visited + {u}), Page(u, slot.url, slot.depth, links, size, 0), flooded),
                      links, slot.depth + 1);
  }

  /** The reference crawler records the same outcome under the redirect target instead. */
  lemma ForwardInSteps(site: Site, w: State, p: seq<Item>, seen: set<Url>)
    requires Consumed(w, p, seen) && p != [] && p[0].url !in seen && !w.stopped
    requires Target(site, p[0].url) in UrlSet(Live(p[1..], seen))
    ensures var q' := ItemStep(site, Before(w, p, seen));
            if |q'.skips| > |w.skips| then q'.skips[|w.skips|].skip.url != p[0].url
            else |q'.pages| > |w.pages| && q'.pages[|w.pages|].requested == p[0].url
  {
    hide UrlSet, Live, Dead, Target, Judge, DistinctItems, Commit;
    HeadOfPrefix(w, p, seen);
    var marked := Before(w, p[1..], seen);
    JudgeTarget(site, marked.visited, p[0].url);
    assert ItemStep(site, Before(w, p, seen)) == Commit(site, marked, p[0], []);
    CommitRecords(site, marked, p[0]);
  }

  lemma ForwardApart(site: Site, w: State, p: seq<Item>, seen: set<Url>)
    requires Consumed(w, p, seen) && p != [] && p[0].url !in seen && !w.stopped
    requires Target(site, p[0].url) in UrlSet(Live(p[1..], seen))
    ensures Apart(CommitBatch(site, w, Live(p, seen)), Steps(site, Before(w, p, seen), |p|))
  {
    hide UrlSet, Dead, Target, Judge, DistinctItems, Commit, CommitBatch, ItemStep;
    var rest, q := p[1..], Before(w, p, seen);
    HeadOfPrefix(w, p, seen);
    assert Live(p, seen) == [p[0]] + Live(rest, seen);
    ForwardInWave(site, w, p[0], Live(rest, seen));
    ForwardInSteps(site, w, p, seen);
    assert Steps(site, q, |p|) == Steps(site, ItemStep(site, q), |rest|);
    StepsAppend(site, ItemStep(site, q), |rest|);
    var wave, steps := CommitBatch(site, w, Live(p, seen)), Steps(site, q, |p|);
    if |ItemStep(site, q).skips| > |w.skips| {
      assert SkipApart(wave, steps, |w.skips|);
    } else {
      assert PageApart(wave, steps, |w.pages|, p[0].url);
    }
  }

  // --- Where a wave and the steps part ---------------------------------------------------------

  /** The first committed slot that redirects onto a later slot, or the stop with a drop behind it. */
  ghost predicate Parts(site: Site, w: State, p: seq<Item>, seen: set<Url>)
    decreases |p|
  {
    p != [] &&
    if p[0].url in seen then Parts(site, w, p[1..], seen)
    else
      var later := Live(p[1..], seen);
      var w' := Commit(site, w, p[0], later);
      || Target(site, p[0].url) in UrlSet(later)
      || (if w'.stopped then Dead(p[1..], seen) != [] else Parts(site, w', p[1..], seen))
  }

  lemma {:induction false} BatchAgainstSteps(site: Site, w: State, p: seq<Item>, seen: set<Url>)
    requires Consumed(w, p, seen) && !w.stopped
    requires !Steps(site, Before(w, p, seen), |p|).queueFull
    ensures var wave, steps := CommitBatch(site, w, Live(p, seen)), Steps(site, Before(w, p, seen), |p|);
            if Parts(site, w, p, seen) then Apart(wave, steps) else Agree(wave, steps)
    decreases |p|
  {
    hide Consumed, Before, Commit, ItemStep, UrlSet, Target, Dead, Agree, Apart;
    if p == [] {
      NothingConsumed(w, seen);
    } else {
      HeadTurn(site, w, p, seen);
      var rest, q' := p[1..], ItemStep(site, Before(w, p, seen));
      if q'.queueFull { StepsStayFull(site, q', |rest|); }
      assert Steps(site, Before(w, p, seen), |p|) == Steps(site, q', |rest|);
      if p[0].url in seen {
        assert Live(p, seen) == Live(rest, seen);
        BatchAgainstSteps(site, w, rest, seen);
      } else if Target(site, p[0].url) in UrlSet(Live(rest, seen)) {
        ForwardApart(site, w, p, seen);
      } else {
        var w' := Commit(site, w, p[0], Live(rest, seen));
        assert ([p[0]] + Live(rest, seen))[1..] == Live(rest, seen);
        assert CommitBatch(site, w, Live(p, seen)) == CommitBatch(site, w', Live(rest, seen));
        CommitIsStep(site, w, p, seen);
        if w'.stopped {
          StepsOfStopped(site, q', |rest|);
          StoppedApart(w', q', Dead(rest, seen) == []);
        } else {
          BatchAgainstSteps(site, w', rest, seen);
        }
      }
    }
  }

  lemma NothingConsumed(w: State, seen: set<Url>)
    requires Consumed(w, [], seen)
    ensures Before(w, [], seen) == w && Agree(w, w)
  {
    assert w.visited - {} == w.visited && [] + w.queue == w.queue && w.vanished[..|w.vanished|] == w.vanished;
  }

  /** A dropped entry costs the reference crawler a step and changes nothing for the wave. */
  lemma HeadTurn(site: Site, w: State, p: seq<Item>, seen: set<Url>)
    requires Consumed(w, p, seen) && p != [] && !w.stopped
    ensures Consumed(w, p[1..], seen)
    ensures p[0].url in seen ==> ItemStep(site, Before(w, p, seen)) == Before(w, p[1..], seen)
  {
    hide Live, Dead, UrlSet, DistinctItems, Commit;
    HeadOfPrefix(w, p, seen);
  }

  lemma StoppedApart(a: State, b: State, same: bool)
    requires a.stopped && b.stopped && (same ==> b == a.(visited := b.visited)) && (!same ==> |b.skips| > |a.skips|)
    ensures if same then Agree(a, b) else Apart(a, b)
  {
  }

  // --- The condition, read off the wave ----------------------------------------------------------

  /** How many slots of a batch are committed: all of them, or those up to a budget stop. */
  function Reached(site: Site, w: State, batch: seq<Item>): (n: nat)
    ensures n <= |batch|
    decreases |batch|
  {
    if batch == [] || w.stopped then 0 else 1 + Reached(site, Commit(site, w, batch[0], batch[1..]), batch[1..])
  }

  /** One of the first `n` slots is redirected onto a slot claimed behind it in the same batch. */
  ghost predicate RedirectsForward(site: Site, batch: seq<Item>, n: nat) {
    exists i, j :: 0 <= i < n && i < j < |batch| && Target(site, batch[i].url) == batch[j].url
  }

  /** An entry consumed behind `slot` had been visited before the wave began. */
  ghost predicate DropsBehind(p: seq<Item>, seen: set<Url>, slot: Item) {
    exists i, j :: 0 <= i < j < |p| && p[i] == slot && p[j].url in seen
  }

  ghost predicate Diverges(site: Site, w: State, p: seq<Item>, seen: set<Url>) {
    var batch := Live(p, seen);
    var n := Reached(site, w, batch);
    || RedirectsForward(site, batch, n)
    || (CommitBatch(site, w, batch).stopped && n > 0 && DropsBehind(p, seen, batch[n - 1]))
  }

  lemma ForwardHead(site: Site, head: Item, tail: seq<Item>, n: nat)
    requires n >= 1
    ensures RedirectsForward(site, [head] + tail, n) <==>
              Target(site, head.url) in UrlSet(tail) || RedirectsForward(site, tail, n - 1)
  {
    hide Target, UrlSet;
    var batch := [head] + tail;
    InUrlSet(tail, Target(site, head.url));
    if RedirectsForward(site, batch, n) {
      var i, j :| 0 <= i < n && i < j < |batch| && Target(site, batch[i].url) == batch[j].url;
      assert tail[j - 1] == batch[j];
      if i > 0 { assert tail[i - 1] == batch[i]; }
    }
    if Target(site, head.url) in UrlSet(tail) {
      var j :| 0 <= j < |tail| && tail[j].url == Target(site, head.url);
      assert batch[0] == head && batch[j + 1] == tail[j];
    }
    if RedirectsForward(site, tail, n - 1) {
      var i, j :| 0 <= i < n - 1 && i < j < |tail| && Target(site, tail[i].url) == tail[j].url;
      assert batch[i + 1] == tail[i] && batch[j + 1] == tail[j];
    }
  }

  lemma DropsBehindTail(p: seq<Item>, seen: set<Url>, slot: Item)
    requires p != [] && p[0] != slot
    ensures DropsBehind(p, seen, slot) <==> DropsBehind(p[1..], seen, slot)
  {
    var rest := p[1..];
    if DropsBehind(p, seen, slot) {
      var i, j :| 0 <= i < j < |p| && p[i] == slot && p[j].url in seen;
      assert rest[i - 1] == p[i] && rest[j - 1] == p[j];
    }
    if DropsBehind(rest, seen, slot) {
      var i, j :| 0 <= i < j < |rest| && rest[i] == slot && rest[j].url in seen;
      assert p[i + 1] == rest[i] && p[j + 1] == rest[j];
    }
  }

  lemma DropsBehindHead(p: seq<Item>, seen: set<Url>)
    requires p != [] && DistinctItems(p)
    ensures DropsBehind(p, seen, p[0]) <==> Dead(p[1..], seen) != []
  {
    hide Dead, Live;
    var rest := p[1..];
    LiveAndDead(rest, seen);
    if DropsBehind(p, seen, p[0]) {
      var i, j :| 0 <= i < j < |p| && p[i] == p[0] && p[j].url in seen;
      assert rest[j - 1] == p[j];
    }
    if Dead(rest, seen) != [] {
      var j :| 0 <= j < |rest| && rest[j].url in seen;
      assert p[j + 1] == rest[j];
    }
  }

  lemma {:induction false} LiveFrom(p: seq<Item>, seen: set<Url>, k: nat)
    requires k < |Live(p, seen)|
    ensures Live(p, seen)[k].url !in seen && exists i :: 0 <= i < |p| && p[i] == Live(p, seen)[k]
  {
    var rest := p[1..];
    if p[0].url in seen {
      LiveFrom(rest, seen, k);
      var i :| 0 <= i < |rest| && rest[i] == Live(rest, seen)[k];
      assert p[i + 1] == rest[i];
    } else if k > 0 {
      LiveFrom(rest, seen, k - 1);
      var i :| 0 <= i < |rest| && rest[i] == Live(rest, seen)[k - 1];
      assert p[i + 1] == rest[i];
    } else {
      assert p[0] == Live(p, seen)[0];
    }
  }

  lemma {:induction false} PartsMeansDiverges(site: Site, w: State, p: seq<Item>, seen: set<Url>)
    requires DistinctItems(p) && !w.stopped
    ensures Parts(site, w, p, seen) <==> Diverges(site, w, p, seen)
    decreases |p|
  {
    hide Commit, Target, UrlSet, Dead, RedirectsForward, DropsBehind;
    if p == [] {
      assert !RedirectsForward(site, [], 0) by { NoneForward(site); }
    } else {
      var rest := p[1..];
      forall i | 0 <= i < |rest| ensures rest[i] == p[i + 1] {}
      var batch, tail := Live(p, seen), Live(rest, seen);
      var n := Reached(site, w, batch);
      if p[0].url in seen {
        PartsMeansDiverges(site, w, rest, seen);
        assert batch == tail;
        if n > 0 {
          LiveFrom(rest, seen, n - 1);
          DropsBehindTail(p, seen, batch[n - 1]);
        }
      } else {
        assert batch == [p[0]] + tail && batch[1..] == tail;
        var w' := Commit(site, w, p[0], tail);
        assert n == 1 + Reached(site, w', tail);
        ForwardHead(site, p[0], tail, n);
        assert CommitBatch(site, w, batch) == CommitBatch(site, w', tail);
        if w'.stopped {
          assert !RedirectsForward(site, tail, 0) by { NoneReached(site, tail); }
          DropsBehindHead(p, seen);
        } else {
          PartsMeansDiverges(site, w', rest, seen);
          if n > 1 {
            LiveFrom(rest, seen, n - 2);
            DropsBehindTail(p, seen, tail[n - 2]);
          }
        }
      }
    }
  }

  lemma NoneForward(site: Site)
    ensures !RedirectsForward(site, [], 0)
  {
  }

  lemma NoneReached(site: Site, batch: seq<Item>)
    ensures !RedirectsForward(site, batch, 0)
  {
  }

  /** The state after the claim of a wave, and the queue entries the claim consumed. */
  ghost function Room(s: State, concurrency: nat, maxUrls: nat): nat
    requires |s.pages| <= maxUrls
  {
    Min(concurrency, maxUrls - |s.pages|)
  }

  ghost predicate WaveDiverges(site: Site, s: State, concurrency: nat, maxUrls: nat)
    requires |s.pages| <= maxUrls
  {
    var room := Room(s, concurrency, maxUrls);
    Diverges(site, Claim(site, s, room).0, s.queue[..Taken(site, s, room)], s.visited)
  }

  /**
   * One wave against as many one-URL steps as it consumed queue entries, from any state whose queue
   * holds distinct known URLs. While the queue cap does not fire, they differ in the records (and
   * not merely in what a stopped crawl has marked visited) if and only if the wave commits a slot
   * that is redirected onto a later slot of its own, or the byte budget stops it with an entry
   * consumed behind the stopping slot that an earlier wave had visited.
   */
  lemma WaveAgainstSteps(site: Site, s: State, concurrency: nat, maxUrls: nat)
    requires Known(s) && !s.stopped && |s.pages| <= maxUrls
    requires !Steps(site, s, Taken(site, s, Room(s, concurrency, maxUrls))).queueFull
    ensures var wave, steps := Wave(site, s, concurrency, maxUrls), Steps(site, s, Taken(site, s, Room(s, concurrency, maxUrls)));
            && (Agree(wave, steps) <==> !WaveDiverges(site, s, concurrency, maxUrls))
            && (!Agree(wave, steps) ==> Apart(wave, steps))
  {
    hide Claim, CommitBatch, Steps, Known, Agree, Apart, Diverges, Parts, Taken, Live, Open;
    var room := Room(s, concurrency, maxUrls);
    var w, p := Claim(site, s, room).0, s.queue[..Taken(site, s, room)];
    ClaimTakesPrefix(site, s, room);
    ClaimConsumed(site, s, room);
    ClaimFrame(site, s, room);
    BatchAgainstSteps(site, w, p, s.visited);
    PartsMeansDiverges(site, w, p, s.visited);
    var wave, steps := Wave(site, s, concurrency, maxUrls), Steps(site, s, Taken(site, s, room));
    if Apart(wave, steps) { ApartDisagrees(wave, steps); }
  }
}
