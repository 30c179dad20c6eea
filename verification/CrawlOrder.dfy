/**
 * Whole crawls of waves against the crawler that takes one URL at a time: exactly when they record
 * the same, why concurrency one and crawls without redirects always do, and inputs that do not.
 */
module CrawlOrder {
  import opened CrawlModel
  import opened CrawlRun
  import opened CrawlWaves

  // --- A queue stays distinct and known -------------------------------------------------------

  lemma {:induction false} EnqueueAllKnown(site: Site, s: State, links: seq<Url>, d: nat)
    requires Known(s)
    ensures Known(EnqueueAll(site, s, links, d))
  {
    if links != [] { EnqueueAllKnown(site, s, links[..|links| - 1], d); }
  }

  lemma CommitKnown(site: Site, s: State, slot: Item, rest: seq<Item>)
    requires Known(s)
    ensures Known(Commit(site, s, slot, rest))
  {
    hide EnqueueAll, Judge;
    match Judge(site, s.visited, slot.url)
    case Reject(_, _) =>
    case Keep(u, links, flooded) =>
      var page := Page(u, slot.url, slot.depth, links, site.recordBytes(slot.url, slot.depth), 0);
      EnqueueAllKnown(site, StorePage(s.(visited := s.visited + {u}), page, flooded), links, slot.depth + 1);
  }

  lemma {:induction false} BatchKnown(site: Site, s: State, batch: seq<Item>)
    requires Known(s)
    ensures Known(CommitBatch(site, s, batch))
    decreases |batch|
  {
    hide Known, Commit;
    if batch != [] && !s.stopped {
      CommitKnown(site, s, batch[0], batch[1..]);
      BatchKnown(site, Commit(site, s, batch[0], batch[1..]), batch[1..]);
    }
  }

  lemma WaveKnown(site: Site, s: State, concurrency: nat, maxUrls: nat)
    requires Known(s) && |s.pages| <= maxUrls
    ensures Known(Wave(site, s, concurrency, maxUrls))
  {
    hide Claim, CommitBatch, Live, Dead, Taken, Open, UrlSet;
    var room := Room(s, concurrency, maxUrls);
    ClaimTakesPrefix(site, s, room);
    var (w, batch) := Claim(site, s, room);
    forall i | 0 <= i < |w.queue| ensures w.queue[i] == s.queue[Taken(site, s, room) + i] {}
    BatchKnown(site, w, batch);
  }

  // --- The reference crawler walks through every wave's entries ---------------------------------

  lemma {:induction false} EnqueueAllAppends(site: Site, s: State, links: seq<Url>, d: nat)
    ensures s.queue <= EnqueueAll(site, s, links, d).queue
  {
    if links != [] { EnqueueAllAppends(site, s, links[..|links| - 1], d); }
  }

  lemma StepKeepsTail(site: Site, s: State)
    requires s.queue != [] && !s.stopped && !ItemStep(site, s).stopped
    ensures s.queue[1..] <= ItemStep(site, s).queue
  {
    var item := s.queue[0];
    if item.url !in s.visited {
      var marked := s.(queue := s.queue[1..], visited := s.visited + {item.url});
      hide EnqueueAll, Judge;
      match Judge(site, marked.visited, item.url)
      case Reject(_, _) =>
      case Keep(u, links, flooded) =>
        var page := Page(u, item.url, item.depth, links, site.recordBytes(item.url, item.depth), 0);
        EnqueueAllAppends(site, StorePage(marked.(visited := marked.visited + {u}), page, flooded), links, item.depth + 1);
    }
  }

  lemma StepKeepsVisited(site: Site, s: State)
    ensures s.visited <= ItemStep(site, s).visited
  {
    if s.queue != [] && !s.stopped && s.queue[0].url !in s.visited {
      CommitAppends(site, s.(queue := s.queue[1..], visited := s.visited + {s.queue[0].url}), s.queue[0], []);
    }
  }

  lemma StepPages(site: Site, s: State)
    requires s.queue != [] && !s.stopped
    ensures |ItemStep(site, s).pages| <= |s.pages| + (if s.queue[0].url in s.visited || !site.allowed(s.queue[0].url) then 0 else 1)
  {
    if s.queue[0].url !in s.visited {
      CommitSize(site, s.(queue := s.queue[1..], visited := s.visited + {s.queue[0].url}), s.queue[0], []);
    }
  }

  lemma {:induction false} OpenMore(site: Site, p: seq<Item>, seen: set<Url>, room: int, more: int)
    requires Open(site, p, seen, room) && room <= more
    ensures Open(site, p, seen, more)
    decreases |p|
  {
    if p != [] {
      var used := if p[0].url in seen || !site.allowed(p[0].url) then 0 else 1;
      OpenMore(site, p[1..], seen, room - used, more - used);
    }
  }

  /** While a wave's entries last, the reference crawler is below the page limit and never drains. */
  lemma {:induction false} SequentialSkipsAhead(site: Site, s: State, p: seq<Item>, seen: set<Url>, maxUrls: nat)
    requires |s.pages| <= maxUrls && seen <= s.visited && (s.stopped || p <= s.queue)
    requires Open(site, p, seen, maxUrls - |s.pages|)
    ensures var t := Steps(site, s, |p|);
            |t.pages| <= maxUrls && Sequential(site, s, maxUrls) == Sequential(site, t, maxUrls)
    decreases |p|
  {
    hide ItemStep;
    if s.stopped {
      StepsOfStopped(site, s, |p|);
    } else if p != [] {
      assert s.queue[0] == p[0];
      var t := ItemStep(site, s);
      StepPages(site, s);
      StepKeepsVisited(site, s);
      ItemStepProgress(site, s);
      if !t.stopped {
        StepKeepsTail(site, s);
        assert p[1..] <= s.queue[1..];
      }
      var used := if p[0].url in seen || !site.allowed(p[0].url) then 0 else 1;
      OpenMore(site, p[1..], seen, maxUrls - |s.pages| - used, maxUrls - |t.pages|);
      SequentialSkipsAhead(site, t, p[1..], seen, maxUrls);
    }
  }

  // --- Records last -------------------------------------------------------------------------------

  lemma WaveAppends(site: Site, s: State, concurrency: nat, maxUrls: nat)
    requires Known(s) && |s.pages| <= maxUrls
    ensures var t := Wave(site, s, concurrency, maxUrls);
            && s.skips <= t.skips && s.pages <= t.pages && s.visited <= t.visited
            && (forall k :: |s.pages| <= k < |t.pages| ==> t.pages[k].requested !in s.visited)
  {
    hide Claim, CommitBatch, Live, Dead, Taken, Open, UrlSet;
    var room := Room(s, concurrency, maxUrls);
    ClaimTakesPrefix(site, s, room);
    var (w, batch) := Claim(site, s, room);
    BatchAppends(site, w, batch);
    forall u | u in UrlSet(batch) ensures u !in s.visited { InLive(s.queue[..Taken(site, s, room)], s.visited, u); }
  }

  lemma {:induction false} RunAppends(site: Site, s: State, concurrency: nat, maxUrls: nat, wave: nat)
    requires Known(s) && concurrency >= 1 && |s.pages| <= maxUrls
    ensures var t := Run(site, s, concurrency, maxUrls, Never, wave);
            && s.skips <= t.skips && s.pages <= t.pages
            && (forall k :: |s.pages| <= k < |t.pages| ==> t.pages[k].requested !in s.visited)
    decreases maxUrls - |s.pages|, |s.queue|
  {
    hide Wave, Known;
    if s.queue != [] && !s.stopped && |s.pages| < maxUrls {
      WaveProgress(site, s, concurrency, maxUrls);
      WaveAppends(site, s, concurrency, maxUrls);
      WaveKnown(site, s, concurrency, maxUrls);
      RunAppends(site, Wave(site, s, concurrency, maxUrls), concurrency, maxUrls, wave + 1);
    }
  }

  lemma {:induction false} SequentialAppends(site: Site, s: State, maxUrls: nat)
    requires |s.pages| <= maxUrls
    ensures var t := Sequential(site, s, maxUrls); s.skips <= t.skips && s.pages <= t.pages
    decreases maxUrls - |s.pages|, |s.queue|
  {
    hide ItemStep;
    if s.queue != [] && !s.stopped && |s.pages| < maxUrls {
      ItemStepProgress(site, s);
      ItemStepAppends(site, s);
      SequentialAppends(site, ItemStep(site, s), maxUrls);
    }
  }

  /** Once the records of a wave and of the steps part, the crawls end apart. */
  lemma ApartLasts(site: Site, a: State, b: State, concurrency: nat, maxUrls: nat, wave: nat)
    requires Apart(a, b) && Known(a) && concurrency >= 1 && |a.pages| <= maxUrls && |b.pages| <= maxUrls
    ensures !Agree(Run(site, a, concurrency, maxUrls, Never, wave), Sequential(site, b, maxUrls))
  {
    hide Known;
    RunAppends(site, a, concurrency, maxUrls, wave);
    SequentialAppends(site, b, maxUrls);
    var ta, tb := Run(site, a, concurrency, maxUrls, Never, wave), Sequential(site, b, maxUrls);
    if k: nat :| SkipApart(a, b, k) {
      assert ta.skips[k] == a.skips[k] && tb.skips[k] == b.skips[k];
    } else if m: nat, u :| PageApart(a, b, m, u) {
      assert tb.pages[m] == b.pages[m];
      if m < |a.pages| { assert ta.pages[m] == a.pages[m]; }
    }
  }

  // --- Whole crawls ---------------------------------------------------------------------------------

  /** Some wave of the crawl from `s` diverges. */
  ghost predicate SomeWaveDiverges(site: Site, s: State, concurrency: nat, maxUrls: nat)
    requires concurrency >= 1 && |s.pages| <= maxUrls
    decreases maxUrls - |s.pages|, |s.queue|
  {
    s.queue != [] && !s.stopped && |s.pages| < maxUrls &&
    (WaveProgress(site, s, concurrency, maxUrls);
     WaveDiverges(site, s, concurrency, maxUrls)
     || SomeWaveDiverges(site, Wave(site, s, concurrency, maxUrls), concurrency, maxUrls))
  }

  lemma {:induction false} RunAgainstSequential(site: Site, s: State, concurrency: nat, maxUrls: nat, wave: nat)
    requires Known(s) && concurrency >= 1 && |s.pages| <= maxUrls
    requires !Sequential(site, s, maxUrls).queueFull
    ensures !SomeWaveDiverges(site, s, concurrency, maxUrls) <==>
              Agree(Run(site, s, concurrency, maxUrls, Never, wave), Sequential(site, s, maxUrls))
    decreases maxUrls - |s.pages|, |s.queue|
  {
    hide Known, Wave, Apart, WaveDiverges, Steps;
    if s.queue == [] || s.stopped || |s.pages| >= maxUrls {
      SameEnd(site, s, concurrency, maxUrls, wave);
    } else {
      var next := Wave(site, s, concurrency, maxUrls);
      var steps := Steps(site, s, Taken(site, s, Room(s, concurrency, maxUrls)));
      WaveProgress(site, s, concurrency, maxUrls);
      WaveKnown(site, s, concurrency, maxUrls);
      SequentialThroughWave(site, s, concurrency, maxUrls);
      WaveAgainstSteps(site, s, concurrency, maxUrls);
      assert Run(site, s, concurrency, maxUrls, Never, wave) == Run(site, next, concurrency, maxUrls, Never, wave + 1) by {
        OneWave(site, s, concurrency, maxUrls, wave);
      }
      if WaveDiverges(site, s, concurrency, maxUrls) {
        ApartLasts(site, next, steps, concurrency, maxUrls, wave + 1);
      } else if next.stopped {
        assert !SomeWaveDiverges(site, next, concurrency, maxUrls);
      } else {
        RunAgainstSequential(site, next, concurrency, maxUrls, wave + 1);
      }
    }
  }

  lemma SameEnd(site: Site, s: State, concurrency: nat, maxUrls: nat, wave: nat)
    requires concurrency >= 1 && |s.pages| <= maxUrls && (s.queue == [] || s.stopped || |s.pages| >= maxUrls)
    ensures Run(site, s, concurrency, maxUrls, Never, wave) == Sequential(site, s, maxUrls)
    ensures !SomeWaveDiverges(site, s, concurrency, maxUrls)
  {
  }

  lemma OneWave(site: Site, s: State, concurrency: nat, maxUrls: nat, wave: nat)
    requires concurrency >= 1 && s.queue != [] && !s.stopped && |s.pages| < maxUrls
    ensures |Wave(site, s, concurrency, maxUrls).pages| <= maxUrls
    ensures Run(site, s, concurrency, maxUrls, Never, wave)
              == Run(site, Wave(site, s, concurrency, maxUrls), concurrency, maxUrls, Never, wave + 1)
  {
    hide Wave;
    WaveProgress(site, s, concurrency, maxUrls);
  }

  lemma SequentialThroughWave(site: Site, s: State, concurrency: nat, maxUrls: nat)
    requires Known(s) && |s.pages| <= maxUrls && !Sequential(site, s, maxUrls).queueFull
    ensures var t := Steps(site, s, Taken(site, s, Room(s, concurrency, maxUrls)));
            && |t.pages| <= maxUrls && Sequential(site, s, maxUrls) == Sequential(site, t, maxUrls) && !t.queueFull
  {
    hide Claim, Live, Dead, Taken, UrlSet, Known, Steps;
    var room := Room(s, concurrency, maxUrls);
    ClaimTakesPrefix(site, s, room);
    var p := s.queue[..Taken(site, s, room)];
    OpenMore(site, p, s.visited, room, maxUrls - |s.pages|);
    SequentialSkipsAhead(site, s, p, s.visited, maxUrls);
    var t := Steps(site, s, |p|);
    if t.queueFull { SequentialStaysFull(site, t, maxUrls); }
  }

  /**
   * Waves against the sequential crawl, for whole crawls. Without a clock cutoff, and if the crawl
   * that takes one URL at a time never meets the queue cap, a crawl of any concurrency stores the same
   * pages, records the same skips and silent drops in the same order, queues the same URLs at the same
   * depths and meets the same ceilings if and only if none of its waves diverges: no wave commits a
   * redirect onto a later slot of its own, and none is stopped by the byte budget in front of an
   * entry it dropped.
   */
  lemma WavesAgainstSequential(site: Site, seeds: seq<Url>, concurrency: nat, maxUrls: nat)
    requires concurrency >= 1 && Distinct(seeds)
    requires !Sequential(site, Start(seeds), maxUrls).queueFull
    ensures !SomeWaveDiverges(site, Start(seeds), concurrency, maxUrls) <==>
              Agree(Run(site, Start(seeds), concurrency, maxUrls, Never, 0), Sequential(site, Start(seeds), maxUrls))
  {
    StartKnown(seeds);
    RunAgainstSequential(site, Start(seeds), concurrency, maxUrls, 0);
  }

  lemma StartKnown(seeds: seq<Url>)
    requires Distinct(seeds)
    ensures Known(Start(seeds))
  {
    var s := Start(seeds);
    assert forall i :: 0 <= i < |s.queue| ==> s.queue[i].url == seeds[i];
  }

  // --- Concurrency one is the reference crawler ----------------------------------------------------

  /** With room for one fetch, the fetched slot is the last entry consumed. */
  lemma {:induction false} RoomForOne(site: Site, w: State, p: seq<Item>, seen: set<Url>, room: int)
    requires DistinctItems(p) && Open(site, p, seen, room) && room <= 1 && !w.stopped
    ensures !Parts(site, w, p, seen)
    decreases |p|
  {
    hide EnqueueAll;
    if p != [] {
      var rest := p[1..];
      forall i | 0 <= i < |rest| ensures rest[i] == p[i + 1] {}
      if p[0].url in seen {
        RoomForOne(site, w, rest, seen, room);
      } else if site.allowed(p[0].url) {
        assert rest == [];
      } else {
        InLive(rest, seen, p[0].url);
        RoomForOne(site, Commit(site, w, p[0], Live(rest, seen)), rest, seen, room);
      }
    }
  }

  lemma OneNeverDiverges(site: Site, s: State, maxUrls: nat)
    requires Known(s) && !s.stopped && |s.pages| <= maxUrls
    ensures !WaveDiverges(site, s, 1, maxUrls)
  {
    hide Claim, Live, Dead, Taken, UrlSet, Open, Parts, Diverges;
    var room := Room(s, 1, maxUrls);
    ClaimTakesPrefix(site, s, room);
    var w, p := Claim(site, s, room).0, s.queue[..Taken(site, s, room)];
    RoomForOne(site, w, p, s.visited, room);
    PartsMeansDiverges(site, w, p, s.visited);
  }

  lemma {:induction false} OneNeverDivergesEver(site: Site, s: State, maxUrls: nat)
    requires Known(s) && |s.pages| <= maxUrls
    ensures !SomeWaveDiverges(site, s, 1, maxUrls)
    decreases maxUrls - |s.pages|, |s.queue|
  {
    hide Known, Wave, WaveDiverges;
    if s.queue != [] && !s.stopped && |s.pages| < maxUrls {
      WaveProgress(site, s, 1, maxUrls);
      OneNeverDiverges(site, s, maxUrls);
      WaveKnown(site, s, 1, maxUrls);
      OneNeverDivergesEver(site, Wave(site, s, 1, maxUrls), maxUrls);
    }
  }

  /** The one-URL-at-a-time crawler is the program itself at concurrency one. */
  lemma ConcurrencyOneIsSequential(site: Site, seeds: seq<Url>, maxUrls: nat)
    requires Distinct(seeds) && !Sequential(site, Start(seeds), maxUrls).queueFull
    ensures Agree(Run(site, Start(seeds), 1, maxUrls, Never, 0), Sequential(site, Start(seeds), maxUrls))
  {
    StartKnown(seeds);
    OneNeverDivergesEver(site, Start(seeds), maxUrls);
    WavesAgainstSequential(site, seeds, 1, maxUrls);
  }

  // --- Crawls without redirects ----------------------------------------------------------------------

  ghost predicate NoRedirects(site: Site) {
    forall u {:trigger site.fetch(u)} :: site.fetch(u).Ok? ==> site.normalize(site.fetch(u).finalUrl) == u
  }

  /** No queued URL has been visited. */
  ghost predicate Unvisited(s: State) {
    forall i :: 0 <= i < |s.queue| ==> s.queue[i].url !in s.visited
  }

  lemma {:induction false} NoRedirectsNoParting(site: Site, w: State, p: seq<Item>, seen: set<Url>)
    requires NoRedirects(site) && DistinctItems(p) && Dead(p, seen) == [] && !w.stopped
    ensures !Parts(site, w, p, seen)
    decreases |p|
  {
    hide Commit, NoRedirects;
    if p != [] {
      var rest := p[1..];
      forall i | 0 <= i < |rest| ensures rest[i] == p[i + 1] {}
      InLive(rest, seen, p[0].url);
      assert Target(site, p[0].url) == p[0].url by { OwnTarget(site, p[0].url); }
      var w' := Commit(site, w, p[0], Live(rest, seen));
      if !w'.stopped { NoRedirectsNoParting(site, w', rest, seen); }
    }
  }

  lemma OwnTarget(site: Site, u: Url)
    requires NoRedirects(site)
    ensures Target(site, u) == u
    ensures forall visited :: Judge(site, visited, u).url == u
  {
  }

  lemma {:induction false} EnqueueAllUnvisited(site: Site, s: State, links: seq<Url>, d: nat)
    requires Unvisited(s)
    ensures Unvisited(EnqueueAll(site, s, links, d))
  {
    if links != [] { EnqueueAllUnvisited(site, s, links[..|links| - 1], d); }
  }

  lemma CommitUnvisited(site: Site, s: State, slot: Item, rest: seq<Item>)
    requires NoRedirects(site) && Unvisited(s) && slot.url in s.visited
    ensures var t := Commit(site, s, slot, rest); Unvisited(t) && s.visited <= t.visited
  {
    hide EnqueueAll, Judge, NoRedirects;
    OwnTarget(site, slot.url);
    CommitAppends(site, s, slot, rest);
    var v := Judge(site, s.visited, slot.url);
    assert s.visited + {v.url} == s.visited;
    match v
    case Reject(_, _) =>
    case Keep(u, links, flooded) =>
      var page := Page(u, slot.url, slot.depth, links, site.recordBytes(slot.url, slot.depth), 0);
      EnqueueAllUnvisited(site, StorePage(s.(visited := s.visited + {u}), page, flooded), links, slot.depth + 1);
  }

  lemma {:induction false} BatchUnvisited(site: Site, s: State, batch: seq<Item>)
    requires NoRedirects(site) && Unvisited(s) && forall i :: 0 <= i < |batch| ==> batch[i].url in s.visited
    ensures Unvisited(CommitBatch(site, s, batch))
    decreases |batch|
  {
    hide Commit, NoRedirects, Unvisited;
    if batch != [] && !s.stopped {
      CommitUnvisited(site, s, batch[0], batch[1..]);
      BatchUnvisited(site, Commit(site, s, batch[0], batch[1..]), batch[1..]);
    }
  }

  lemma WaveUnvisited(site: Site, s: State, concurrency: nat, maxUrls: nat)
    requires NoRedirects(site) && Known(s) && Unvisited(s) && !s.stopped && |s.pages| <= maxUrls
    ensures Unvisited(Wave(site, s, concurrency, maxUrls)) && !WaveDiverges(site, s, concurrency, maxUrls)
  {
    hide Claim, Live, Dead, Taken, UrlSet, Open, Parts, Diverges, CommitBatch, NoRedirects;
    var room := Room(s, concurrency, maxUrls);
    ClaimTakesPrefix(site, s, room);
    var (w, batch) := Claim(site, s, room);
    var p := s.queue[..Taken(site, s, room)];
    LiveAndDead(p, s.visited);
    forall i | 0 <= i < |batch| ensures batch[i].url in w.visited { InUrlSet(batch, batch[i].url); }
    forall i | 0 <= i < |w.queue| ensures w.queue[i].url !in w.visited {
      assert w.queue[i] == s.queue[|p| + i];
      InUrlSet(batch, w.queue[i].url);
    }
    BatchUnvisited(site, w, batch);
    NoRedirectsNoParting(site, w, p, s.visited);
    PartsMeansDiverges(site, w, p, s.visited);
  }

  lemma {:induction false} NoRedirectsNeverDiverge(site: Site, s: State, concurrency: nat, maxUrls: nat)
    requires NoRedirects(site) && Known(s) && Unvisited(s) && concurrency >= 1 && |s.pages| <= maxUrls
    ensures !SomeWaveDiverges(site, s, concurrency, maxUrls)
    decreases maxUrls - |s.pages|, |s.queue|
  {
    hide Known, Unvisited, Wave, WaveDiverges, NoRedirects;
    if s.queue != [] && !s.stopped && |s.pages| < maxUrls {
      WaveProgress(site, s, concurrency, maxUrls);
      WaveUnvisited(site, s, concurrency, maxUrls);
      WaveKnown(site, s, concurrency, maxUrls);
      NoRedirectsNeverDiverge(site, Wave(site, s, concurrency, maxUrls), concurrency, maxUrls);
    }
  }

  /** Where no fetch is redirected to another page, every concurrency crawls as one URL at a time. */
  lemma WavesRefineSequential(site: Site, seeds: seq<Url>, concurrency: nat, maxUrls: nat)
    requires NoRedirects(site) && concurrency >= 1 && Distinct(seeds)
    requires !Sequential(site, Start(seeds), maxUrls).queueFull
    ensures Agree(Run(site, Start(seeds), concurrency, maxUrls, Never, 0), Sequential(site, Start(seeds), maxUrls))
  {
    StartKnown(seeds);
    NoRedirectsNeverDiverge(site, Start(seeds), concurrency, maxUrls);
    WavesAgainstSequential(site, seeds, concurrency, maxUrls);
  }

  // --- A redirect onto a slot of the same wave ----------------------------------------------------------

  const A := Url(0)
  const B := Url(1)

  /** Two seeds: A redirects to B. */
  function RedirectSite(): Site {
    Site(u => u, _ => false, _ => true,
         (u: Url) => if u == A then Ok(B, Html([], false)) else Ok(u, Html([], false)),
         (_, _) => 1)
  }


  lemma OneFetch(site: Site, s: State, item: Item, room: nat)
    requires s.queue != [] && s.queue[0] == item && item.url !in s.visited && site.allowed(item.url) && room >= 1
    ensures var marked := s.(queue := s.queue[1..], visited := s.visited + {item.url});
            Claim(site, s, room) == (Claim(site, marked, room - 1).0, [item] + Claim(site, marked, room - 1).1)
  {
  }

  lemma WaveOfFour(site: Site, s: State)
    requires site == RedirectSite() && s == Start([A, B])
    ensures var t := Run(site, s, 4, 100, Never, 0);
            && t.skips == [Entry(Skip(A, AlreadyCrawled), A)] && t.vanished == []
            && |t.pages| == 1 && t.pages[0].requested == B
  {
    var a, b := Item(A, 0), Item(B, 0);
    var sa := s.(queue := [b], visited := {A});
    var sab := s.(queue := [], visited := {A, B});
    assert s.queue == [a, b] && s.queue[1..] == [b] && sa.queue[1..] == [] && {A} + {B} == {A, B};
    assert s.(queue := s.queue[1..], visited := s.visited + {A}) == sa;
    assert sa.(queue := sa.queue[1..], visited := sa.visited + {B}) == sab;
    OneFetch(site, s, a, 4);
    OneFetch(site, sa, b, 3);
    assert Claim(site, sab, 2) == (sab, []) && [b] + [] == [b] && [a] + [b] == [a, b];
    assert Claim(site, s, 4) == (sab, [a, b]);
    var skipped := AddSkip(sab, A, AlreadyCrawled, A);
    assert Commit(site, sab, a, [b]) == skipped.(visited := skipped.visited + {A}) == skipped;
    var page := Page(B, B, 0, [], 1, 0);
    var four := skipped.(pages := [page], bytes := 1);
    assert Commit(site, skipped, b, []) == four;
    assert CommitBatch(site, sab, [a, b]) == CommitBatch(site, skipped, [b]) == CommitBatch(site, four, []) == four;
    assert Run(site, s, 4, 100, Never, 0) == Run(site, four, 4, 100, Never, 1) == four;
  }

  lemma WavesOfOne(site: Site, s: State)
    requires site == RedirectSite() && s == Start([A, B])
    ensures var t := Run(site, s, 1, 100, Never, 0);
            t.skips == [] && t.vanished == [B] && |t.pages| == 1 && t.pages[0].requested == A
  {
    var a, b := Item(A, 0), Item(B, 0);
    var sa := s.(queue := [b], visited := {A});
    assert s.queue == [a, b] && s.queue[1..] == [b];
    assert s.(queue := s.queue[1..], visited := s.visited + {A}) == sa;
    OneFetch(site, s, a, 1);
    assert Claim(site, sa, 0) == (sa, []) && [a] + [] == [a];
    assert Claim(site, s, 1) == (sa, [a]);
    var page := Page(B, A, 0, [], 1, 0);
    var first := sa.(visited := {A, B}, pages := [page], bytes := 1);
    assert Commit(site, sa, a, []) == first;
    assert Wave(site, s, 1, 100) == CommitBatch(site, sa, [a]) == CommitBatch(site, first, []) == first;
    var one := first.(queue := [], vanished := [B]);
    assert first.queue[1..] == [] && first.vanished + [B] == [B];
    assert first.(queue := first.queue[1..], vanished := first.vanished + [B]) == one;
    assert Claim(site, first, 1) == Claim(site, one, 1) == (one, []);
    assert Wave(site, first, 1, 100) == one;
    assert Run(site, s, 1, 100, Never, 0) == Run(site, first, 1, 100, Never, 1) == Run(site, one, 1, 100, Never, 2) == one;
  }

  /**
   * A wave of four skips A because B was claimed with it; a crawl of concurrency one stores the
   * answer to A as page B and drops the queued B without a record.
   */
  lemma WaveRedirectCounterexample()
    ensures var site, s := RedirectSite(), Start([A, B]);
            var four, one := Run(site, s, 4, 100, Never, 0), Run(site, s, 1, 100, Never, 0);
            && four.skips == [Entry(Skip(A, AlreadyCrawled), A)] && four.vanished == []
            && one.skips == [] && one.vanished == [B]
            && |four.pages| == |one.pages| == 1
            && four.pages[0].requested == B && one.pages[0].requested == A
  {
    hide Run;
    WaveOfFour(RedirectSite(), Start([A, B]));
    WavesOfOne(RedirectSite(), Start([A, B]));
  }

  // --- A budget stop in front of a dropped entry -------------------------------------------------------

  const R := Url(2)
  const P := Url(3)
  const V := Url(4)

  /** R redirects to V, and the record of A alone overflows the byte budget. */
  function DropSite(): Site {
    Site(u => u, _ => false, _ => true,
         (u: Url) => if u == R then Ok(V, Html([], false)) else Ok(u, Html([], false)),
         (u: Url, _) => if u == A then MAX_RESULT_BYTES + 1 else 1)
  }

  /** After R and P: V is visited, and still queued between A and B. */
  function DropState(): State {
    Start([R, P, A, V, B]).(queue := [Item(A, 0), Item(V, 0), Item(B, 0)], visited := {R, P, V},
                            pages := [Page(V, R, 0, [], 1, 0), Page(P, P, 0, [], 1, 0)], bytes := 2)
  }

  lemma FirstTwo(s: State)
    requires s == Start([R, P, A, V, B])
    ensures Wave(DropSite(), s, 2, 100) == DropState() == ItemStep(DropSite(), ItemStep(DropSite(), s))
  {
    var site, r, p, rest := DropSite(), Item(R, 0), Item(P, 0), [Item(A, 0), Item(V, 0), Item(B, 0)];
    assert s.queue == [r, p] + rest && s.queue[1..] == [p] + rest && ([p] + rest)[1..] == rest;
    var sr := s.(queue := [p] + rest, visited := {R});
    var srp := s.(queue := rest, visited := {R, P});
    assert s.(queue := s.queue[1..], visited := s.visited + {R}) == sr;
    assert sr.(queue := sr.queue[1..], visited := sr.visited + {P}) == srp by { assert {R} + {P} == {R, P}; }
    OneFetch(site, s, r, 2);
    OneFetch(site, sr, p, 1);
    assert Claim(site, srp, 0) == (srp, []) && [p] + [] == [p] && [r] + [p] == [r, p];
    assert Claim(site, s, 2) == (srp, [r, p]);
    var pageV, pageP := Page(V, R, 0, [], 1, 0), Page(P, P, 0, [], 1, 0);
    var afterR := srp.(visited := {R, P, V}, pages := [pageV], bytes := 1);
    assert [] + [pageV] == [pageV] && [pageV] + [pageP] == [pageV, pageP] && {R, P} + {V} == {R, P, V};
    assert Commit(site, srp, r, [p]) == afterR;
    assert {R, P, V} + {P} == {R, P, V};
    assert Commit(site, afterR, p, []) == DropState();
    assert [r, p][1..] == [p] && [p][1..] == [];
    assert CommitBatch(site, srp, [r, p]) == CommitBatch(site, afterR, [p]) == CommitBatch(site, DropState(), []) == DropState();
    var stepR := sr.(visited := {R, V}, pages := [pageV], bytes := 1);
    assert {R} + {V} == {R, V} && {R, V} + {P} == {R, P, V};
    assert ItemStep(site, s) == Commit(site, sr, r, []) == stepR;
    assert ItemStep(site, stepR) == Commit(site, stepR.(queue := rest, visited := {R, P, V}), p, []) == DropState();
  }

  lemma StopInWave()
    ensures var t := Wave(DropSite(), DropState(), 2, 100);
            t.skips == [Entry(Skip(A, ResultBudget), A), Entry(Skip(B, ResultBudget), B)] && t.vanished == [V] && t.stopped
            && t.pages == DropState().pages
  {
    var site, s := DropSite(), DropState();
    var a, v, b := Item(A, 0), Item(V, 0), Item(B, 0);
    assert s.queue[1..] == [v, b];
    var sa := s.(queue := [v, b], visited := {R, P, V, A});
    assert {R, P, V} + {A} == {R, P, V, A};
    assert s.(queue := s.queue[1..], visited := s.visited + {A}) == sa;
    OneFetch(site, s, a, 2);
    var sv := sa.(queue := [b], vanished := [V]);
    assert sa.queue[1..] == [b] && [] + [V] == [V];
    assert Claim(site, sa, 1) == Claim(site, sv, 1);
    var sb := sv.(queue := [], visited := {R, P, V, A, B});
    assert {R, P, V, A} + {B} == {R, P, V, A, B} && sv.queue[1..] == [];
    assert sv.(queue := sv.queue[1..], visited := sv.visited + {B}) == sb;
    OneFetch(site, sv, b, 1);
    assert Claim(site, sb, 0) == (sb, []) && [b] + [] == [b] && [a] + [b] == [a, b];
    assert Claim(site, s, 2) == (sb, [a, b]) && [a, b][1..] == [b];
    var t := Commit(site, sb, a, [b]);
    assert t.stopped && t.skips == [Entry(Skip(A, ResultBudget), A)] + Entries([B], ResultBudget) + Entries([], ResultBudget) by {
      assert Urls([b]) == [B] && Urls([]) == [] && [] + [Entry(Skip(A, ResultBudget), A)] == [Entry(Skip(A, ResultBudget), A)];
    }
    assert Entries([B], ResultBudget) == [Entry(Skip(B, ResultBudget), B)] && Entries([], ResultBudget) == [];
    assert CommitBatch(site, sb, [a, b]) == CommitBatch(site, t, [b]) == t;
  }

  lemma StopInSteps()
    ensures var t := ItemStep(DropSite(), DropState());
            && t.skips == [Entry(Skip(A, ResultBudget), A), Entry(Skip(V, ResultBudget), V), Entry(Skip(B, ResultBudget), B)]
            && t.vanished == [] && t.stopped && t.pages == DropState().pages
  {
    var site, s := DropSite(), DropState();
    var a := Item(A, 0);
    assert s.queue[1..] == [Item(V, 0), Item(B, 0)] && Urls(s.queue[1..]) == [V, B] && Urls([]) == [];
    assert Entries([V, B], ResultBudget) == [Entry(Skip(V, ResultBudget), V), Entry(Skip(B, ResultBudget), B)];
    assert Entries([], ResultBudget) == [];
  }

  /**
   * No wave of this crawl redirects onto one of its own slots, and still concurrency two and one record
   * different skips: the budget stop of the second wave comes in front of V, which the wave dropped
   * because R had been redirected there, while the crawl of concurrency one lists V as skipped.
   */
  lemma DropBehindStopCounterexample()
    ensures var site, s := DropSite(), Start([R, P, A, V, B]);
            var two, one := Run(site, s, 2, 100, Never, 0), Sequential(site, s, 100);
            && two.skips == [Entry(Skip(A, ResultBudget), A), Entry(Skip(B, ResultBudget), B)] && two.vanished == [V]
            && one.skips == [Entry(Skip(A, ResultBudget), A), Entry(Skip(V, ResultBudget), V), Entry(Skip(B, ResultBudget), B)]
            && one.vanished == [] && two.pages == one.pages
            && !RedirectsForward(site, [Item(R, 0), Item(P, 0)], 2) && !RedirectsForward(site, [Item(A, 0), Item(B, 0)], 2)
  {
    hide Wave, ItemStep, Commit;
    var site, s := DropSite(), Start([R, P, A, V, B]);
    FirstTwo(s);
    StopInWave();
    StopInSteps();
    var first := ItemStep(site, s);
    OneWave(site, s, 2, 100, 0);
    OneWave(site, DropState(), 2, 100, 1);
    DropPages();
    SequentialStep(site, s, 100);
    SequentialStep(site, first, 100);
    SequentialStep(site, DropState(), 100);
  }

  lemma SequentialStep(site: Site, s: State, maxUrls: nat)
    requires s.queue != [] && !s.stopped && |s.pages| < maxUrls
    ensures |ItemStep(site, s).pages| <= maxUrls && Sequential(site, s, maxUrls) == Sequential(site, ItemStep(site, s), maxUrls)
  {
    hide ItemStep;
    ItemStepProgress(site, s);
  }

  lemma DropPages()
    ensures var first := ItemStep(DropSite(), Start([R, P, A, V, B]));
            first.queue != [] && !first.stopped && |first.pages| == 1
  {
  }
}
