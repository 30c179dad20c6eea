/** The whole crawl: waves until the queue is empty, a ceiling drains it, or the byte budget stops it. */
module CrawlRun {
  import opened CrawlModel
  import opened Numbers

  /** How many slots of a batch are really fetched; robots-blocked ones cost no slot. */
  function Fetches(site: Site, batch: seq<Item>): nat {
    if batch == [] then 0
    else (if site.allowed(batch[0].url) then 1 else 0) + Fetches(site, batch[1..])
  }

  lemma {:induction false} EnqueueAllFrame(site: Site, s: State, links: seq<Url>, depth: nat)
    ensures var t := EnqueueAll(site, s, links, depth);
            t == s.(queue := t.queue, depthOf := t.depthOf, queueFull := t.queueFull)
    ensures s.queueFull ==> EnqueueAll(site, s, links, depth).queueFull
  {
    if links != [] {
      EnqueueAllFrame(site, s, links[..|links| - 1], depth);
    }
  }

  lemma {:induction false} ClaimFrame(site: Site, s: State, room: nat)
    ensures var (t, batch) := Claim(site, s, room);
            && t == s.(queue := t.queue, visited := t.visited, vanished := t.vanished)
            && |t.queue| <= |s.queue|
            && (room > 0 && s.queue != [] ==> |t.queue| < |s.queue|)
    decreases |s.queue|
  {
    if room != 0 && s.queue != [] {
      var item := s.queue[0];
      var popped := s.(queue := s.queue[1..]);
      if item.url in s.visited {
        ClaimFrame(site, popped.(vanished := popped.vanished + [item.url]), room);
      } else {
        ClaimFrame(site, popped.(visited := popped.visited + {item.url}),
                   if site.allowed(item.url) then room - 1 else room);
      }
    }
  }

  /** A batch never holds more fetches than there is room, and a robots slot never ends a full one. */
  ghost predicate Fits(site: Site, batch: seq<Item>, room: int) {
    && Fetches(site, batch) <= room
    && (batch != [] && !site.allowed(batch[|batch| - 1].url) ==> Fetches(site, batch) < room)
  }

  lemma {:induction false} ClaimFits(site: Site, s: State, room: nat)
    ensures Fits(site, Claim(site, s, room).1, room)
    decreases |s.queue|
  {
    if room != 0 && s.queue != [] {
      var item := s.queue[0];
      var popped := s.(queue := s.queue[1..]);
      if item.url in s.visited {
        ClaimFits(site, popped.(vanished := popped.vanished + [item.url]), room);
      } else {
        var left := if site.allowed(item.url) then room - 1 else room;
        var marked := popped.(visited := popped.visited + {item.url});
        ClaimFits(site, marked, left);
        var tail := Claim(site, marked, left).1;
        assert ([item] + tail)[1..] == tail;
      }
    }
  }

  lemma {:induction false} LastFetchCounts(site: Site, batch: seq<Item>)
    requires batch != [] && site.allowed(batch[|batch| - 1].url)
    ensures Fetches(site, batch) >= 1
  {
    if |batch| > 1 {
      LastFetchCounts(site, batch[1..]);
    }
  }

  lemma FitsTail(site: Site, batch: seq<Item>, room: int)
    requires batch != [] && Fits(site, batch, room)
    ensures room > 0
    ensures Fits(site, batch[1..], if site.allowed(batch[0].url) then room - 1 else room)
  {
    if site.allowed(batch[|batch| - 1].url) {
      LastFetchCounts(site, batch);
    }
  }

  lemma CommitSize(site: Site, s: State, slot: Item, rest: seq<Item>)
    ensures var t := Commit(site, s, slot, rest);
            && |s.pages| <= |t.pages| <= |s.pages| + (if site.allowed(slot.url) then 1 else 0)
            && (|t.pages| == |s.pages| ==> |t.queue| <= |s.queue|)
            && (s.queueFull ==> t.queueFull)
  {
    match Judge(site, s.visited, slot.url)
    case Reject(_, _) =>
    case Keep(u, links, flooded) =>
      var seen := s.(visited := s.visited + {u});
      var size := site.recordBytes(slot.url, slot.depth);
      EnqueueAllFrame(site, StorePage(seen, Page(u, slot.url, slot.depth, links, size, 0), flooded), links, slot.depth + 1);
  }

  lemma {:induction false} CommitBatchSize(site: Site, s: State, batch: seq<Item>, room: nat)
    requires Fits(site, batch, room)
    ensures var t := CommitBatch(site, s, batch);
            && |s.pages| <= |t.pages| <= |s.pages| + room
            && (|t.pages| == |s.pages| ==> |t.queue| <= |s.queue|)
            && (s.queueFull ==> t.queueFull)
    decreases |batch|
  {
    if batch != [] && !s.stopped {
      CommitSize(site, s, batch[0], batch[1..]);
      FitsTail(site, batch, room);
      CommitBatchSize(site, Commit(site, s, batch[0], batch[1..]), batch[1..],
                      if site.allowed(batch[0].url) then room - 1 else room);
    }
  }

  /**
   * Every wave makes progress towards the page limit or shortens the queue, and the page limit
   * holds with all of the wave's fetches counted.
   */
  lemma WaveProgress(site: Site, s: State, concurrency: nat, maxUrls: nat)
    requires concurrency >= 1 && s.queue != [] && |s.pages| < maxUrls
    ensures var t := Wave(site, s, concurrency, maxUrls);
            && |t.pages| <= maxUrls
            && (|s.pages| < |t.pages| || (|t.pages| == |s.pages| && |t.queue| < |s.queue|))
            && (s.queueFull ==> t.queueFull)
  {
    var room := Min(concurrency, maxUrls - |s.pages|);
    ClaimFrame(site, s, room);
    ClaimFits(site, s, room);
    var (claimed, batch) := Claim(site, s, room);
    CommitBatchSize(site, claimed, batch, room);
  }

  /** The clock of a crawl that never runs out of time. */
  predicate Never(wave: nat) { false }

  /** `late(w)` says whether the time budget is spent when wave `w` is about to start. */
  function Run(site: Site, s: State, concurrency: nat, maxUrls: nat, late: nat -> bool, wave: nat): State
    requires concurrency >= 1 && |s.pages| <= maxUrls
    decreases maxUrls - |s.pages|, |s.queue|
  {
    if s.queue == [] || s.stopped then s
    else if |s.pages| >= maxUrls then Drain(s, PageLimit)
    else if late(wave) then Drain(s, TimeBudget)
    else
      WaveProgress(site, s, concurrency, maxUrls);
      Run(site, Wave(site, s, concurrency, maxUrls), concurrency, maxUrls, late, wave + 1)
  }
}
