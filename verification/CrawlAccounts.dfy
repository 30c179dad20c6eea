/**
 * Nothing a crawl queues is lost: every URL ever queued ends as exactly one page, exactly one
 * skip, or one silent drop that an earlier redirect already recorded. Also the ceilings: pages
 * are pairwise distinct, within the page limit and within the byte budget.
 */
module CrawlAccounts {
  import opened CrawlModel
  import opened Numbers
  import opened CrawlRun

  function PageSources(pages: seq<Page>): (us: seq<Url>)
    ensures |us| == |pages|
  {
    seq(|pages|, i requires 0 <= i < |pages| => pages[i].requested)
  }

  function SkipSources(skips: seq<Entry>): (us: seq<Url>)
    ensures |us| == |skips|
  {
    seq(|skips|, i requires 0 <= i < |skips| => skips[i].requested)
  }

  /** The queued URLs a state has accounted for, with multiplicity. */
  ghost function Accounted(s: State): multiset<Url> {
    multiset(PageSources(s.pages)) + multiset(SkipSources(s.skips)) + multiset(s.vanished)
  }

  function TotalBytes(pages: seq<Page>): nat {
    if pages == [] then 0 else TotalBytes(pages[..|pages| - 1]) + pages[|pages| - 1].bytes
  }

  /** Some page or skip is recorded under `u` although another URL was requested for it. */
  ghost predicate ByRedirect(s: State, u: Url) {
    || (exists i :: 0 <= i < |s.pages| && s.pages[i].url == u && s.pages[i].requested != u)
    || (exists i :: 0 <= i < |s.skips| && s.skips[i].skip.url == u && s.skips[i].requested != u)
  }

  /** Claimed slots are visited; page URLs are visited, distinct and never those of a claimed slot. */
  ghost predicate PagesSound(s: State, rest: seq<Item>) {
    && (forall i :: 0 <= i < |rest| ==> rest[i].url in s.visited)
    && (forall i, j :: 0 <= i < j < |s.pages| ==> s.pages[i].url != s.pages[j].url)
    && (forall i :: 0 <= i < |s.pages| ==> s.pages[i].url in s.visited && s.pages[i].url !in Urls(rest))
    && TotalBytes(s.pages) == s.bytes <= MAX_RESULT_BYTES
  }

  ghost predicate DropsRecorded(s: State) {
    && (forall i :: 0 <= i < |s.queue| && s.queue[i].url in s.visited ==> ByRedirect(s, s.queue[i].url))
    && (forall i :: 0 <= i < |s.vanished| ==> ByRedirect(s, s.vanished[i]))
  }

  /** Every URL ever queued is, exactly once, accounted for, claimed or still in the queue. */
  ghost predicate Balanced(s: State, rest: seq<Item>) {
    Accounted(s) + multiset(Urls(rest)) + multiset(Urls(s.queue)) == multiset(s.depthOf.Keys)
  }

  /** The invariant of a crawl whose slots `rest` are claimed and not yet committed. */
  ghost predicate Inv(s: State, rest: seq<Item>) {
    PagesSound(s, rest) && DropsRecorded(s) && Balanced(s, rest)
  }

  // --- Small facts ----------------------------------------------------------------------

  lemma UrlsParts(a: seq<Item>, item: Item, b: seq<Item>)
    ensures Urls(a + b) == Urls(a) + Urls(b)
    ensures Urls([item] + b) == [item.url] + Urls(b)
    ensures Urls(a + [item]) == Urls(a) + [item.url]
  {
  }

  lemma UrlsHead(items: seq<Item>)
    requires items != []
    ensures Urls(items) == [items[0].url] + Urls(items[1..])
  {
  }

  /** What occurs in a set occurs once, so a part of a balance has no other copy elsewhere. */
  lemma OnlyCopy(u: Url, others: multiset<Url>, keys: set<Url>)
    requires others + multiset{u} == multiset(keys)
    ensures u !in others && u in keys
  {
    assert multiset(keys)[u] == others[u] + 1;
  }

  /** Records are only ever added, so what a redirect recorded stays recorded. */
  lemma ByRedirectGrows(s: State, t: State)
    requires s.pages <= t.pages && s.skips <= t.skips
    ensures forall u :: ByRedirect(s, u) ==> ByRedirect(t, u)
  {
    forall u | ByRedirect(s, u) ensures ByRedirect(t, u) {
      if i :| 0 <= i < |s.pages| && s.pages[i].url == u && s.pages[i].requested != u {
        assert t.pages[i] == s.pages[i];
      } else {
        var i :| 0 <= i < |s.skips| && s.skips[i].skip.url == u && s.skips[i].requested != u;
        assert t.skips[i] == s.skips[i];
      }
    }
  }

  lemma PagesGrow(pages: seq<Page>, p: Page)
    ensures PageSources(pages + [p]) == PageSources(pages) + [p.requested]
    ensures TotalBytes(pages + [p]) == TotalBytes(pages) + p.bytes
  {
    assert (pages + [p])[..|pages|] == pages;
  }

  lemma SkipsGrow(skips: seq<Entry>, more: seq<Entry>)
    ensures SkipSources(skips + more) == SkipSources(skips) + SkipSources(more)
  {
  }

  lemma SourcesOfEntries(urls: seq<Url>, reason: Reason)
    ensures SkipSources(Entries(urls, reason)) == urls
  {
  }

  // --- Each step keeps the invariant ------------------------------------------------------

  lemma {:induction false} SeqToSet(us: seq<Url>)
    requires Distinct(us)
    ensures multiset(us) == multiset(set u | u in us)
  {
    if us != [] {
      var front, last := us[..|us| - 1], us[|us| - 1];
      SeqToSet(front);
      assert us == front + [last];
      assert (set u | u in us) == (set u | u in front) + {last};
    }
  }

  lemma StartInv(seeds: seq<Url>)
    requires Distinct(seeds)
    ensures Inv(Start(seeds), [])
  {
    var s := Start(seeds);
    assert Urls(s.queue) == seeds;
    assert Urls([]) == [];
    SeqToSet(seeds);
    assert s.depthOf.Keys == set u | u in seeds;
  }

  lemma NewKeyBalance(s: State, t: State, u: Url, depth: nat, rest: seq<Item>)
    requires Balanced(s, rest) && u !in s.depthOf
    requires t == s.(depthOf := s.depthOf[u := depth], queue := s.queue + [Item(u, depth)])
    ensures Balanced(t, rest)
  {
    UrlsParts(s.queue, Item(u, depth), []);
    assert t.depthOf.Keys == s.depthOf.Keys + {u};
    assert multiset(t.depthOf.Keys) == multiset(s.depthOf.Keys) + multiset{u};
  }

  lemma EnqueueInv(site: Site, s: State, link: Url, depth: nat, rest: seq<Item>)
    requires Inv(s, rest)
    ensures Inv(Enqueue(site, s, link, depth), rest)
  {
    var t := Enqueue(site, s, link, depth);
    ByRedirectGrows(s, t);
    var u := site.normalize(link);
    if |s.queue| < MAX_QUEUE_URLS && site.eligible(link) && u !in s.visited && u !in s.depthOf {
      NewKeyBalance(s, t, u, depth, rest);
      hide Balanced, ByRedirect;
      forall i | 0 <= i < |t.queue| && t.queue[i].url in t.visited ensures ByRedirect(t, t.queue[i].url) {
        assert t.queue[i] == s.queue[i];
      }
    }
  }

  lemma {:induction false} EnqueueAllInv(site: Site, s: State, links: seq<Url>, depth: nat, rest: seq<Item>)
    requires Inv(s, rest)
    ensures Inv(EnqueueAll(site, s, links, depth), rest)
  {
    if links != [] {
      EnqueueAllInv(site, s, links[..|links| - 1], depth, rest);
      EnqueueInv(site, EnqueueAll(site, s, links[..|links| - 1], depth), links[|links| - 1], depth, rest);
    }
  }

  lemma PopBalance(s: State, taken: seq<Item>)
    requires Balanced(s, taken) && s.queue != []
    ensures Balanced(s.(queue := s.queue[1..], vanished := s.vanished + [s.queue[0].url]), taken)
    ensures forall visited :: Balanced(s.(queue := s.queue[1..], visited := visited), taken + [s.queue[0]])
    ensures forall i :: 1 <= i < |s.queue| ==> s.queue[i].url != s.queue[0].url
    ensures s.queue[0].url !in Urls(taken)
  {
    var item, tail := s.queue[0], s.queue[1..];
    UrlsHead(s.queue);
    UrlsParts(taken, item, []);
    OnlyCopy(item.url, Accounted(s) + multiset(Urls(taken)) + multiset(Urls(tail)), s.depthOf.Keys);
    assert item.url !in Urls(tail);
    forall i | 1 <= i < |s.queue| ensures s.queue[i].url != item.url { assert s.queue[i].url == Urls(tail)[i - 1]; }
  }

  /** Taking the head off the queue leaves the other entries' records in place. */
  lemma PopDrops(s: State, t: State)
    requires DropsRecorded(s) && s.queue != [] && t.queue == s.queue[1..] && t.pages == s.pages && t.skips == s.skips
    requires t.visited <= s.visited + {s.queue[0].url}
    requires forall i :: 1 <= i < |s.queue| ==> s.queue[i].url != s.queue[0].url
    requires t.vanished == s.vanished || (t.vanished == s.vanished + [s.queue[0].url] && s.queue[0].url in s.visited)
    ensures DropsRecorded(t)
  {
    ByRedirectGrows(s, t);
    hide ByRedirect;
    forall i | 0 <= i < |t.queue| && t.queue[i].url in t.visited ensures ByRedirect(t, t.queue[i].url) {
      assert t.queue[i] == s.queue[i + 1];
    }
  }

  /** A queue entry that is already visited is dropped without a record. */
  lemma VanishInv(s: State, taken: seq<Item>)
    requires Inv(s, taken) && s.queue != [] && s.queue[0].url in s.visited
    ensures Inv(s.(queue := s.queue[1..], vanished := s.vanished + [s.queue[0].url]), taken)
  {
    hide Balanced, DropsRecorded, TotalBytes;
    PopBalance(s, taken);
    PopDrops(s, s.(queue := s.queue[1..], vanished := s.vanished + [s.queue[0].url]));
  }

  /** Any other queue entry moves to the end of the batch and is marked visited. */
  lemma TakeInv(s: State, taken: seq<Item>)
    requires Inv(s, taken) && s.queue != [] && s.queue[0].url !in s.visited
    ensures Inv(s.(queue := s.queue[1..], visited := s.visited + {s.queue[0].url}), taken + [s.queue[0]])
  {
    hide Balanced, DropsRecorded, TotalBytes;
    PopBalance(s, taken);
    PopDrops(s, s.(queue := s.queue[1..], visited := s.visited + {s.queue[0].url}));
    UrlsParts(taken, s.queue[0], []);
  }

  lemma {:induction false} ClaimInv(site: Site, s: State, room: nat, taken: seq<Item>)
    requires Inv(s, taken)
    ensures var (t, batch) := Claim(site, s, room); Inv(t, taken + batch)
    decreases |s.queue|
  {
    hide Inv;
    if room == 0 || s.queue == [] {
      assert taken + [] == taken;
    } else {
      var item := s.queue[0];
      var popped := s.(queue := s.queue[1..]);
      if item.url in s.visited {
        VanishInv(s, taken);
        ClaimInv(site, popped.(vanished := popped.vanished + [item.url]), room, taken);
      } else {
        TakeInv(s, taken);
        var marked := popped.(visited := popped.visited + {item.url});
        var left := if site.allowed(item.url) then room - 1 else room;
        ClaimInv(site, marked, left, taken + [item]);
        var batch := Claim(site, marked, left).1;
        assert taken + [item] + batch == taken + ([item] + batch);
      }
    }
  }

  /** What is known of a claimed slot that is about to be committed. */
  lemma SlotLeaves(s: State, slot: Item, rest: seq<Item>)
    requires Inv(s, [slot] + rest)
    ensures slot.url in s.visited && slot.url !in Urls(rest) && slot.url !in Urls(s.queue)
    ensures PagesSound(s, rest)
    ensures forall i :: 0 <= i < |s.pages| ==> s.pages[i].url != slot.url
    ensures Accounted(s) + multiset{slot.url} + multiset(Urls(rest)) + multiset(Urls(s.queue)) == multiset(s.depthOf.Keys)
  {
    UrlsParts([], slot, rest);
    assert slot.url == ([slot] + rest)[0].url == Urls([slot] + rest)[0];
    OnlyCopy(slot.url, Accounted(s) + multiset(Urls(rest)) + multiset(Urls(s.queue)), s.depthOf.Keys);
    forall i | 0 <= i < |rest| ensures rest[i].url in s.visited { assert rest[i] == ([slot] + rest)[i + 1]; }
  }

  /** A claimed slot turns into one skip, recorded under itself or under a fresh redirect target. */
  lemma SkipInv(s: State, slot: Item, rest: seq<Item>, u: Url, reason: Reason)
    requires Inv(s, [slot] + rest)
    requires u == slot.url || u !in s.visited
    ensures Inv(AddSkip(s.(visited := s.visited + {u}), u, reason, slot.url), rest)
  {
    var t := AddSkip(s.(visited := s.visited + {u}), u, reason, slot.url);
    var e := t.skips[|s.skips|];
    SlotLeaves(s, slot, rest);
    SkipsGrow(s.skips, [e]);
    assert SkipSources([e]) == [slot.url];
    ByRedirectGrows(s, t);
    assert u != slot.url ==> ByRedirect(t, u);
    assert Balanced(t, rest);
    hide ByRedirect, Balanced, TotalBytes;
    forall i | 0 <= i < |t.queue| && t.queue[i].url in t.visited ensures ByRedirect(t, t.queue[i].url) {
      assert t.queue[i].url == Urls(t.queue)[i];
    }
  }

  lemma PagePagesSound(s: State, slot: Item, rest: seq<Item>, page: Page, flooded: bool)
    requires PagesSound(s, rest) && slot.url in s.visited && slot.url !in Urls(rest)
    requires forall i :: 0 <= i < |s.pages| ==> s.pages[i].url != slot.url
    requires page.url == slot.url || page.url !in s.visited
    requires s.bytes + page.bytes <= MAX_RESULT_BYTES
    ensures PagesSound(StorePage(s.(visited := s.visited + {page.url}), page, flooded), rest)
  {
    PagesGrow(s.pages, page);
    forall i | 0 <= i < |Urls(rest)| ensures Urls(rest)[i] != page.url { assert Urls(rest)[i] == rest[i].url; }
  }

  /** A claimed slot turns into one page that the byte budget admits. */
  lemma PageInv(s: State, slot: Item, rest: seq<Item>, page: Page, flooded: bool)
    requires Inv(s, [slot] + rest)
    requires page.requested == slot.url
    requires page.url == slot.url || page.url !in s.visited
    requires s.bytes + page.bytes <= MAX_RESULT_BYTES
    ensures Inv(StorePage(s.(visited := s.visited + {page.url}), page, flooded), rest)
  {
    var t := StorePage(s.(visited := s.visited + {page.url}), page, flooded);
    SlotLeaves(s, slot, rest);
    PagePagesSound(s, slot, rest, page, flooded);
    hide PagesSound, TotalBytes;
    PagesGrow(s.pages, page);
    assert Balanced(t, rest);
    hide Balanced;
    ByRedirectGrows(s, t);
    assert t.pages[|s.pages|] == page;
    assert page.url != slot.url ==> ByRedirect(t, page.url);
    hide ByRedirect;
    forall i | 0 <= i < |t.queue| && t.queue[i].url in t.visited ensures ByRedirect(t, t.queue[i].url) {
      assert t.queue[i].url == Urls(t.queue)[i];
    }
  }

  /** Recording a list of claimed URLs as skipped, under themselves. */
  lemma SkipRestInv(s: State, rest: seq<Item>, reason: Reason)
    requires Inv(s, rest)
    ensures Inv(s.(skips := s.skips + Entries(Urls(rest), reason)), [])
  {
    var t := s.(skips := s.skips + Entries(Urls(rest), reason));
    SkipsGrow(s.skips, Entries(Urls(rest), reason));
    SourcesOfEntries(Urls(rest), reason);
    ByRedirectGrows(s, t);
    assert Urls([]) == [];
  }

  lemma DrainInv(s: State, reason: Reason)
    requires Inv(s, [])
    ensures Inv(Drain(s, reason), [])
  {
    var t := Drain(s, reason);
    SkipsGrow(s.skips, Entries(Urls(s.queue), reason));
    SourcesOfEntries(Urls(s.queue), reason);
    ByRedirectGrows(s, t);
    assert Urls([]) == [];
  }

  lemma BudgetStopInv(s: State, slot: Item, rest: seq<Item>, u: Url)
    requires Inv(s, [slot] + rest)
    requires u == slot.url || u !in s.visited
    ensures Inv(StopOnBudget(s.(visited := s.visited + {u}), u, slot.url, rest), [])
  {
    hide Inv, Urls, Entries;
    SkipInv(s, slot, rest, u, ResultBudget);
    var s1 := AddSkip(s.(visited := s.visited + {u}), u, ResultBudget, slot.url);
    SkipRestInv(s1, rest, ResultBudget);
    var s2 := s1.(skips := s1.skips + Entries(Urls(rest), ResultBudget));
    DrainInv(s2, ResultBudget);
    StoppedInv(Drain(s2, ResultBudget));
  }

  lemma StoppedInv(s: State)
    requires Inv(s, [])
    ensures Inv(s.(stopped := true), [])
  {
    ByRedirectGrows(s, s.(stopped := true));
    hide ByRedirect, TotalBytes, Urls;
  }

  lemma StoreInv(site: Site, s: State, slot: Item, rest: seq<Item>, page: Page, flooded: bool)
    requires Inv(s, [slot] + rest)
    requires page.requested == slot.url
    requires page.url == slot.url || page.url !in s.visited
    requires s.bytes + page.bytes <= MAX_RESULT_BYTES
    ensures var stored := StorePage(s.(visited := s.visited + {page.url}), page, flooded);
            var t := EnqueueAll(site, stored, page.links, slot.depth + 1);
            Inv(t, rest) && t.stopped == s.stopped
  {
    hide Inv, EnqueueAll;
    var stored := StorePage(s.(visited := s.visited + {page.url}), page, flooded);
    PageInv(s, slot, rest, page, flooded);
    EnqueueAllInv(site, stored, page.links, slot.depth + 1, rest);
    EnqueueAllFrame(site, stored, page.links, slot.depth + 1);
  }

  lemma CommitInv(site: Site, s: State, slot: Item, rest: seq<Item>)
    requires Inv(s, [slot] + rest) && !s.stopped
    ensures var t := Commit(site, s, slot, rest);
            if t.stopped then Inv(t, []) && t.queue == [] else Inv(t, rest)
  {
    hide Inv, EnqueueAll, Judge;
    match Judge(site, s.visited, slot.url)
    case Reject(u, reason) =>
      SkipInv(s, slot, rest, u, reason);
    case Keep(u, links, flooded) =>
      var size := site.recordBytes(slot.url, slot.depth);
      if s.bytes + size > MAX_RESULT_BYTES {
        BudgetStopInv(s, slot, rest, u);
      } else {
        StoreInv(site, s, slot, rest, Page(u, slot.url, slot.depth, links, size, 0), flooded);
      }
  }

  lemma {:induction false} CommitBatchInv(site: Site, s: State, batch: seq<Item>)
    requires Inv(s, batch) && !s.stopped
    ensures Inv(CommitBatch(site, s, batch), [])
    ensures var t := CommitBatch(site, s, batch); t.stopped ==> t.queue == []
    decreases |batch|
  {
    hide Inv, Commit;
    if batch != [] {
      assert [batch[0]] + batch[1..] == batch;
      CommitInv(site, s, batch[0], batch[1..]);
      var t := Commit(site, s, batch[0], batch[1..]);
      if !t.stopped {
        CommitBatchInv(site, t, batch[1..]);
      }
    }
  }

  lemma WaveInv(site: Site, s: State, concurrency: nat, maxUrls: nat)
    requires Inv(s, []) && !s.stopped && |s.pages| <= maxUrls
    ensures var t := Wave(site, s, concurrency, maxUrls); Inv(t, []) && (t.stopped ==> t.queue == [])
  {
    hide Inv, Claim, CommitBatch;
    var room := Min(concurrency, maxUrls - |s.pages|);
    ClaimInv(site, s, room, []);
    ClaimFrame(site, s, room);
    var (claimed, batch) := Claim(site, s, room);
    assert [] + batch == batch;
    CommitBatchInv(site, claimed, batch);
  }

  lemma {:induction false} RunInv(site: Site, s: State, concurrency: nat, maxUrls: nat, late: nat -> bool, wave: nat)
    requires concurrency >= 1 && |s.pages| <= maxUrls
    requires Inv(s, []) && (s.stopped ==> s.queue == [])
    ensures var t := Run(site, s, concurrency, maxUrls, late, wave);
            Inv(t, []) && t.queue == [] && |t.pages| <= maxUrls
    decreases maxUrls - |s.pages|, |s.queue|
  {
    hide Inv, Wave;
    if s.queue != [] && !s.stopped {
      if |s.pages| >= maxUrls {
        DrainInv(s, PageLimit);
      } else if late(wave) {
        DrainInv(s, TimeBudget);
      } else {
        WaveProgress(site, s, concurrency, maxUrls);
        WaveInv(site, s, concurrency, maxUrls);
        RunInv(site, Wave(site, s, concurrency, maxUrls), concurrency, maxUrls, late, wave + 1);
      }
    }
  }

  // --- What holds of every finished crawl -------------------------------------------------

  /**
   * URL conservation. Every URL ever queued is accounted for exactly once: by the page it was
   * fetched for, by the skip recorded for it, or by a silent drop; and a URL dropped silently is
   * already recorded, as a page or as a skip, under that same URL by an earlier redirect.
   */
  lemma Conservation(site: Site, seeds: seq<Url>, concurrency: nat, maxUrls: nat, late: nat -> bool)
    requires concurrency >= 1 && Distinct(seeds)
    ensures var t := Run(site, Start(seeds), concurrency, maxUrls, late, 0);
            && t.queue == []
            && multiset(PageSources(t.pages)) + multiset(SkipSources(t.skips)) + multiset(t.vanished)
               == multiset(t.depthOf.Keys)
            && |t.depthOf| == |t.pages| + |Listed(t.skips)| + (|t.skips| - |Listed(t.skips)|) + |t.vanished|
            && (forall i :: 0 <= i < |t.vanished| ==> ByRedirect(t, t.vanished[i]))
  {
    StartInv(seeds);
    RunInv(site, Start(seeds), concurrency, maxUrls, late, 0);
    var t := Run(site, Start(seeds), concurrency, maxUrls, late, 0);
    assert Urls([]) == [] && Urls(t.queue) == [];
    assert Accounted(t) == multiset(t.depthOf.Keys);
    assert |Accounted(t)| == |t.pages| + |t.skips| + |t.vanished|;
    assert |multiset(t.depthOf.Keys)| == |t.depthOf.Keys| == |t.depthOf|;
  }

  /**
   * Ceilings. Page URLs are pairwise distinct, at most `maxUrls`, and their records fit the byte
   * budget; listed skips together with every ceiling note stay within MAX_SKIPPED.
   */
  lemma Ceilings(site: Site, seeds: seq<Url>, concurrency: nat, maxUrls: nat, late: nat -> bool, root: Url)
    requires concurrency >= 1 && Distinct(seeds)
    ensures var t := Run(site, Start(seeds), concurrency, maxUrls, late, 0);
            && |t.pages| <= maxUrls
            && (forall i, j :: 0 <= i < j < |t.pages| ==> t.pages[i].url != t.pages[j].url)
            && TotalBytes(t.pages) <= MAX_RESULT_BYTES
            && |Listed(t.skips) + Notes(t, root)| <= MAX_SKIPPED
  {
    StartInv(seeds);
    RunInv(site, Start(seeds), concurrency, maxUrls, late, 0);
  }
}
