/**
 * The depth a URL is queued at is a breadth-first depth: the queue stays sorted with a spread of
 * at most one across waves, and while the queue cap never fired every queued URL carries its
 * shortest distance from a seed over the links of stored pages.
 */
module CrawlDepth {
  import opened CrawlModel
  import opened Numbers
  import opened CrawlRun

  ghost predicate LinksTo(site: Site, links: seq<Url>, v: Url) {
    exists i :: 0 <= i < |links| && site.eligible(links[i]) && site.normalize(links[i]) == v
  }

  /** There is a walk of `n` links from a seed to `v`, each link on a page stored for the URL before it. */
  ghost predicate Walk(site: Site, seeds: seq<Url>, pages: seq<Page>, v: Url, n: nat)
    decreases n
  {
    if n == 0 then v in seeds
    else exists i :: 0 <= i < |pages| && LinksTo(site, pages[i].links, v)
                     && Walk(site, seeds, pages, pages[i].requested, n - 1)
  }

  /** Every depth handed out so far is at most `d`. */
  ghost predicate Level(depthOf: map<Url, nat>, d: nat) {
    forall v :: v in depthOf ==> depthOf[v] <= d
  }

  ghost predicate Placed(depthOf: map<Url, nat>, item: Item) {
    item.url in depthOf && depthOf[item.url] == item.depth && Level(depthOf, item.depth + 1)
  }

  /** Pending entries carry their own depth, are sorted, and no depth exceeds any of them by two. */
  ghost predicate Ordered(depthOf: map<Url, nat>, pending: seq<Item>) {
    && (forall i :: 0 <= i < |pending| ==> Placed(depthOf, pending[i]))
    && (forall i, j :: 0 <= i < j < |pending| ==> pending[i].depth <= pending[j].depth)
  }

  /** A seed at depth zero, or one level below a stored page that links to it. */
  ghost predicate Discovered(site: Site, seeds: seq<Url>, pages: seq<Page>, v: Url, d: nat) {
    || (d == 0 && v in seeds)
    || (exists i :: 0 <= i < |pages| && LinksTo(site, pages[i].links, v) && d == pages[i].depth + 1)
  }

  ghost predicate Requested(depthOf: map<Url, nat>, page: Page) {
    page.requested in depthOf && depthOf[page.requested] == page.depth
  }

  /** Each depth is explained by a seed or by a stored page one level up. */
  ghost predicate Grounded(site: Site, seeds: seq<Url>, depthOf: map<Url, nat>, pages: seq<Page>) {
    && (forall v :: v in seeds ==> v in depthOf && depthOf[v] == 0)
    && (forall i :: 0 <= i < |pages| ==> Requested(depthOf, pages[i]))
    && (forall v {:trigger Discovered(site, seeds, pages, v, depthOf[v])} ::
          v in depthOf ==> Discovered(site, seeds, pages, v, depthOf[v]))
  }

  ghost predicate Settled(depthOf: map<Url, nat>, visited: set<Url>, v: Url, d: nat) {
    if v in depthOf then depthOf[v] <= d else v in visited
  }

  ghost predicate TightPage(site: Site, depthOf: map<Url, nat>, visited: set<Url>, page: Page) {
    forall v :: LinksTo(site, page.links, v) ==> Settled(depthOf, visited, v, page.depth + 1)
  }

  /** While the queue cap never fired, no stored link leads to a URL queued more than one level below it. */
  ghost predicate Tight(site: Site, depthOf: map<Url, nat>, visited: set<Url>, pages: seq<Page>, queueFull: bool) {
    !queueFull ==> forall i :: 0 <= i < |pages| ==> TightPage(site, depthOf, visited, pages[i])
  }

  ghost predicate DepthInv(site: Site, seeds: seq<Url>, s: State, rest: seq<Item>) {
    && Ordered(s.depthOf, rest + s.queue)
    && Grounded(site, seeds, s.depthOf, s.pages)
    && Tight(site, s.depthOf, s.visited, s.pages, s.queueFull)
  }

  // --- Discovering the links of one page ---------------------------------------------------

  /** How the depths and the queue grow when a page's links are queued at depth `d`. */
  ghost predicate Grows(s: State, t: State, d: nat) {
    && (forall v :: v in s.depthOf ==> v in t.depthOf && t.depthOf[v] == s.depthOf[v])
    && (forall v :: v in t.depthOf && v !in s.depthOf ==> t.depthOf[v] == d && v !in s.visited)
    && s.queue <= t.queue
    && (forall i :: |s.queue| <= i < |t.queue| ==> t.queue[i].depth == d && t.queue[i].url in t.depthOf
                                                   && t.depthOf[t.queue[i].url] == d)
  }

  lemma {:induction false} EnqueueAllGrows(site: Site, s: State, links: seq<Url>, d: nat)
    ensures Grows(s, EnqueueAll(site, s, links, d), d)
  {
    if links != [] {
      EnqueueAllGrows(site, s, links[..|links| - 1], d);
      EnqueueAllFrame(site, s, links[..|links| - 1], d);
    }
  }

  lemma LinksToPrefix(site: Site, links: seq<Url>, v: Url)
    requires links != []
    ensures LinksTo(site, links, v) <==>
            LinksTo(site, links[..|links| - 1], v)
            || (site.eligible(links[|links| - 1]) && site.normalize(links[|links| - 1]) == v)
  {
    var front := links[..|links| - 1];
    if LinksTo(site, front, v) {
      var i :| 0 <= i < |front| && site.eligible(front[i]) && site.normalize(front[i]) == v;
      assert links[i] == front[i];
    }
    if LinksTo(site, links, v) {
      var i :| 0 <= i < |links| && site.eligible(links[i]) && site.normalize(links[i]) == v;
      if i < |front| { assert front[i] == links[i]; }
    }
  }

  /** Queued means linked to; linked to means queued or visited, unless the cap fired. */
  lemma {:induction false} EnqueueAllLinks(site: Site, s: State, links: seq<Url>, d: nat, v: Url)
    ensures var t := EnqueueAll(site, s, links, d);
            && (v in t.depthOf && v !in s.depthOf ==> LinksTo(site, links, v))
            && (!t.queueFull && LinksTo(site, links, v) ==> v in s.visited || v in t.depthOf)
  {
    if links != [] {
      EnqueueAllLinks(site, s, links[..|links| - 1], d, v);
      EnqueueAllFrame(site, s, links[..|links| - 1], d);
      LinksToPrefix(site, links, v);
    }
  }

  // --- Each step keeps the invariant --------------------------------------------------------

  /** Taking pending entries away keeps the others ordered. */
  lemma OrderedParts(depthOf: map<Url, nat>, pending: seq<Item>, from: nat, skip: nat)
    requires Ordered(depthOf, pending) && from + skip <= |pending|
    ensures Ordered(depthOf, pending[..from] + pending[from + skip..])
  {
    var parts := pending[..from] + pending[from + skip..];
    forall i | 0 <= i < |parts| ensures parts[i] == pending[if i < from then i else i + skip] {}
  }

  lemma TightVisited(site: Site, s: State, visited: set<Url>)
    requires Tight(site, s.depthOf, s.visited, s.pages, s.queueFull) && s.visited <= visited
    ensures Tight(site, s.depthOf, visited, s.pages, s.queueFull)
  {
    forall i | !s.queueFull && 0 <= i < |s.pages| ensures TightPage(site, s.depthOf, visited, s.pages[i]) {
      assert TightPage(site, s.depthOf, s.visited, s.pages[i]);
    }
  }

  lemma {:induction false} ClaimDepth(site: Site, seeds: seq<Url>, s: State, room: nat, taken: seq<Item>)
    requires DepthInv(site, seeds, s, taken)
    ensures var (t, batch) := Claim(site, s, room); DepthInv(site, seeds, t, taken + batch)
    decreases |s.queue|
  {
    hide Grounded, Ordered, Tight;
    if room == 0 || s.queue == [] {
      assert taken + [] == taken;
    } else {
      var item := s.queue[0];
      var popped := s.(queue := s.queue[1..]);
      var pending := taken + s.queue;
      if item.url in s.visited {
        var t := popped.(vanished := popped.vanished + [item.url]);
        OrderedParts(s.depthOf, pending, |taken|, 1);
        assert pending[..|taken|] + pending[|taken| + 1..] == taken + t.queue;
        ClaimDepth(site, seeds, t, room, taken);
      } else {
        var t := popped.(visited := popped.visited + {item.url});
        var left := if site.allowed(item.url) then room - 1 else room;
        assert pending == (taken + [item]) + t.queue;
        TightVisited(site, s, t.visited);
        ClaimDepth(site, seeds, t, left, taken + [item]);
        var batch := Claim(site, t, left).1;
        assert taken + [item] + batch == taken + ([item] + batch);
      }
    }
  }

  lemma OrderedGrows(s: State, t: State, slot: Item, rest: seq<Item>)
    requires Ordered(s.depthOf, [slot] + rest + s.queue) && Grows(s, t, slot.depth + 1)
    ensures Ordered(t.depthOf, rest + t.queue)
  {
    var old', new' := [slot] + rest + s.queue, rest + t.queue;
    var kept := |rest| + |s.queue|;
    assert old'[0] == slot && Placed(s.depthOf, slot);
    assert Level(t.depthOf, slot.depth + 1);
    forall i | 0 <= i < |new'| ensures slot.depth <= new'[i].depth <= slot.depth + 1 && Placed(t.depthOf, new'[i])
                               ensures i < kept ==> new'[i] == old'[i + 1]
                               ensures i >= kept ==> new'[i].depth == slot.depth + 1
    {
      if i < kept {
        assert new'[i] == old'[i + 1];
        assert Placed(s.depthOf, old'[i + 1]);
      } else {
        assert new'[i] == t.queue[i - |rest|];
      }
    }
  }

  lemma GroundedGrows(site: Site, seeds: seq<Url>, s: State, t: State, page: Page)
    requires Grounded(site, seeds, s.depthOf, s.pages) && Requested(s.depthOf, page)
    requires Grows(s, t, page.depth + 1)
    requires forall v :: v in t.depthOf && v !in s.depthOf ==> LinksTo(site, page.links, v)
    ensures Grounded(site, seeds, t.depthOf, s.pages + [page])
  {
    var pages := s.pages + [page];
    forall i | 0 <= i < |pages| ensures Requested(t.depthOf, pages[i]) {
      assert i < |s.pages| ==> Requested(s.depthOf, s.pages[i]);
    }
    forall v | v in t.depthOf ensures Discovered(site, seeds, pages, v, t.depthOf[v]) {
      if v in s.depthOf {
        assert Discovered(site, seeds, s.pages, v, s.depthOf[v]);
        if i :| 0 <= i < |s.pages| && LinksTo(site, s.pages[i].links, v) && s.depthOf[v] == s.pages[i].depth + 1 {
          assert pages[i] == s.pages[i];
        }
      } else {
        assert pages[|s.pages|] == page;
      }
    }
  }

  lemma TightGrows(site: Site, s: State, t: State, page: Page)
    requires Tight(site, s.depthOf, s.visited, s.pages, s.queueFull) && (s.queueFull ==> t.queueFull)
    requires Grows(s, t, page.depth + 1) && Level(s.depthOf, page.depth + 1)
    requires forall v :: !t.queueFull && LinksTo(site, page.links, v) ==> v in s.visited || v in t.depthOf
    ensures Tight(site, t.depthOf, s.visited, s.pages + [page], t.queueFull)
  {
    var pages := s.pages + [page];
    if !t.queueFull {
      forall i | 0 <= i < |pages| ensures TightPage(site, t.depthOf, s.visited, pages[i]) {
        if i < |s.pages| {
          assert TightPage(site, s.depthOf, s.visited, s.pages[i]);
          forall v | LinksTo(site, pages[i].links, v) ensures Settled(t.depthOf, s.visited, v, pages[i].depth + 1) {
            assert Settled(s.depthOf, s.visited, v, pages[i].depth + 1);
          }
        } else {
          assert pages[i] == page;
        }
      }
    }
  }

  lemma StoreDepth(site: Site, seeds: seq<Url>, s: State, slot: Item, rest: seq<Item>, page: Page, flooded: bool)
    requires DepthInv(site, seeds, s, [slot] + rest)
    requires page.requested == slot.url && page.depth == slot.depth
    ensures var stored := StorePage(s.(visited := s.visited + {page.url}), page, flooded);
            DepthInv(site, seeds, EnqueueAll(site, stored, page.links, slot.depth + 1), rest)
  {
    var d := slot.depth + 1;
    var seen := s.(visited := s.visited + {page.url});
    var stored := StorePage(seen, page, flooded);
    var t := EnqueueAll(site, stored, page.links, d);
    EnqueueAllGrows(site, stored, page.links, d);
    EnqueueAllFrame(site, stored, page.links, d);
    forall v
      ensures v in t.depthOf && v !in s.depthOf ==> LinksTo(site, page.links, v)
      ensures !t.queueFull && LinksTo(site, page.links, v) ==> v in seen.visited || v in t.depthOf
    {
      EnqueueAllLinks(site, stored, page.links, d, v);
    }
    assert Placed(s.depthOf, ([slot] + rest + s.queue)[0]);
    TightVisited(site, s, seen.visited);
    OrderedGrows(seen, t, slot, rest);
    GroundedGrows(site, seeds, seen, t, page);
    TightGrows(site, seen, t, page);
  }

  lemma CommitDepth(site: Site, seeds: seq<Url>, s: State, slot: Item, rest: seq<Item>)
    requires DepthInv(site, seeds, s, [slot] + rest) && !s.stopped
    ensures var t := Commit(site, s, slot, rest);
            if t.stopped then DepthInv(site, seeds, t, []) && t.queue == [] else DepthInv(site, seeds, t, rest)
  {
    assert Ordered(s.depthOf, []);
    hide Grounded, Ordered, Tight, Judge, EnqueueAll;
    var v := Judge(site, s.visited, slot.url);
    var t := Commit(site, s, slot, rest);
    var pending := [slot] + rest + s.queue;
    OrderedParts(s.depthOf, pending, 0, 1);
    assert pending[..0] + pending[1..] == rest + s.queue;
    TightVisited(site, s, s.visited + {v.url});
    match v
    case Reject(u, reason) =>
    case Keep(u, links, flooded) =>
      var size := site.recordBytes(slot.url, slot.depth);
      var page := Page(u, slot.url, slot.depth, links, size, 0);
      if s.bytes + size <= MAX_RESULT_BYTES {
        StoreDepth(site, seeds, s, slot, rest, page, flooded);
        EnqueueAllFrame(site, StorePage(s.(visited := s.visited + {u}), page, flooded), links, slot.depth + 1);
      }
  }

  lemma {:induction false} CommitBatchDepth(site: Site, seeds: seq<Url>, s: State, batch: seq<Item>)
    requires DepthInv(site, seeds, s, batch) && !s.stopped
    ensures var t := CommitBatch(site, s, batch); DepthInv(site, seeds, t, []) && (t.stopped ==> t.queue == [])
    decreases |batch|
  {
    hide DepthInv, Commit;
    if batch != [] {
      assert [batch[0]] + batch[1..] == batch;
      CommitDepth(site, seeds, s, batch[0], batch[1..]);
      var t := Commit(site, s, batch[0], batch[1..]);
      if !t.stopped {
        CommitBatchDepth(site, seeds, t, batch[1..]);
      }
    }
  }

  lemma WaveDepth(site: Site, seeds: seq<Url>, s: State, concurrency: nat, maxUrls: nat)
    requires DepthInv(site, seeds, s, []) && !s.stopped && |s.pages| <= maxUrls
    ensures var t := Wave(site, s, concurrency, maxUrls); DepthInv(site, seeds, t, []) && (t.stopped ==> t.queue == [])
  {
    var room := Min(concurrency, maxUrls - |s.pages|);
    ClaimDepth(site, seeds, s, room, []);
    ClaimFrame(site, s, room);
    var (claimed, batch) := Claim(site, s, room);
    assert [] + batch == batch;
    CommitBatchDepth(site, seeds, claimed, batch);
  }

  lemma {:induction false} RunDepth(site: Site, seeds: seq<Url>, s: State, concurrency: nat, maxUrls: nat, late: nat -> bool, wave: nat)
    requires concurrency >= 1 && |s.pages| <= maxUrls
    requires DepthInv(site, seeds, s, []) && (s.stopped ==> s.queue == [])
    ensures DepthInv(site, seeds, Run(site, s, concurrency, maxUrls, late, wave), [])
    decreases maxUrls - |s.pages|, |s.queue|
  {
    if s.queue != [] && !s.stopped {
      if |s.pages| >= maxUrls {
      } else if late(wave) {
      } else {
        WaveProgress(site, s, concurrency, maxUrls);
        WaveDepth(site, seeds, s, concurrency, maxUrls);
        RunDepth(site, seeds, Wave(site, s, concurrency, maxUrls), concurrency, maxUrls, late, wave + 1);
      }
    }
  }

  lemma StartDepth(site: Site, seeds: seq<Url>)
    ensures DepthInv(site, seeds, Start(seeds), [])
  {
    var s := Start(seeds);
    assert forall i :: 0 <= i < |s.queue| ==> s.queue[i].url in seeds;
  }

  // --- What the invariant means -------------------------------------------------------------

  lemma {:induction false} DepthIsWalk(site: Site, seeds: seq<Url>, s: State, v: Url)
    requires Grounded(site, seeds, s.depthOf, s.pages) && v in s.depthOf
    ensures Walk(site, seeds, s.pages, v, s.depthOf[v])
    decreases s.depthOf[v]
  {
    assert Discovered(site, seeds, s.pages, v, s.depthOf[v]);
    if !(s.depthOf[v] == 0 && v in seeds) {
      var i :| 0 <= i < |s.pages| && LinksTo(site, s.pages[i].links, v) && s.depthOf[v] == s.pages[i].depth + 1;
      assert Requested(s.depthOf, s.pages[i]);
      DepthIsWalk(site, seeds, s, s.pages[i].requested);
    }
  }

  lemma {:induction false} WalkIsNoShorter(site: Site, seeds: seq<Url>, s: State, v: Url, n: nat)
    requires Grounded(site, seeds, s.depthOf, s.pages) && !s.queueFull
    requires Tight(site, s.depthOf, s.visited, s.pages, s.queueFull)
    requires Walk(site, seeds, s.pages, v, n)
    ensures Settled(s.depthOf, s.visited, v, n)
    decreases n
  {
    if n > 0 {
      var i :| 0 <= i < |s.pages| && LinksTo(site, s.pages[i].links, v)
               && Walk(site, seeds, s.pages, s.pages[i].requested, n - 1);
      WalkIsNoShorter(site, seeds, s, s.pages[i].requested, n - 1);
      assert Requested(s.depthOf, s.pages[i]) && TightPage(site, s.depthOf, s.visited, s.pages[i]);
    }
  }

  /**
   * BFS depth is exact. In every finished crawl each queued URL's depth is the length of a walk
   * from a seed over stored pages. If the queue cap never fired, no shorter walk exists, and every
   * URL such a walk reaches was queued or was already visited when its link was met.
   */
  lemma BreadthFirst(site: Site, seeds: seq<Url>, concurrency: nat, maxUrls: nat, late: nat -> bool)
    requires concurrency >= 1
    ensures var t := Run(site, Start(seeds), concurrency, maxUrls, late, 0);
            && (forall v :: v in t.depthOf ==> Walk(site, seeds, t.pages, v, t.depthOf[v]))
            && (forall i :: 0 <= i < |t.pages| ==> Requested(t.depthOf, t.pages[i]))
            && (!t.queueFull ==> forall v, n :: Walk(site, seeds, t.pages, v, n) ==> Settled(t.depthOf, t.visited, v, n))
  {
    StartDepth(site, seeds);
    RunDepth(site, seeds, Start(seeds), concurrency, maxUrls, late, 0);
    var t := Run(site, Start(seeds), concurrency, maxUrls, late, 0);
    forall v | v in t.depthOf ensures Walk(site, seeds, t.pages, v, t.depthOf[v]) {
      DepthIsWalk(site, seeds, t, v);
    }
    forall v, n | !t.queueFull && Walk(site, seeds, t.pages, v, n) ensures Settled(t.depthOf, t.visited, v, n) {
      WalkIsNoShorter(site, seeds, t, v, n);
    }
  }

  /** Across waves the queue is sorted by depth and its depths differ by at most one. */
  lemma QueueSpread(site: Site, seeds: seq<Url>, s: State)
    requires DepthInv(site, seeds, s, [])
    ensures forall i, j :: 0 <= i < j < |s.queue| ==> s.queue[i].depth <= s.queue[j].depth <= s.queue[i].depth + 1
  {
    assert [] + s.queue == s.queue;
    forall i, j | 0 <= i < j < |s.queue| ensures s.queue[j].depth <= s.queue[i].depth + 1 {
      assert Placed(s.depthOf, s.queue[i]) && Placed(s.depthOf, s.queue[j]);
    }
  }
}
