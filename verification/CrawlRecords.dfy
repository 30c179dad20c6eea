/**
 * What the records of a crawl say about the site: every page is what its URL's fetch answered, every
 * skip gives the reason the site gave, and nothing that could be stored is left out without one.
 */
module CrawlRecords {
  import opened CrawlModel
  import opened CrawlRun
  import opened Numbers
  import CrawlAccounts

  // --- What the site answers ------------------------------------------------------------------

  /** robots.txt permits `u`, and fetching it ends at `target`, by redirects or at once. */
  predicate Answers(site: Site, u: Url, target: Url) {
    site.allowed(u) && site.fetch(u).Ok? && site.normalize(site.fetch(u).finalUrl) == target
  }

  /** It ends there and robots.txt permits that URL too. */
  predicate Reads(site: Site, u: Url, target: Url) { Answers(site, u, target) && site.allowed(target) }

  /** It is the record of an HTML page that `requested` was answered with. */
  predicate PageTrue(site: Site, depthOf: map<Url, nat>, p: Page) {
    && p.requested in depthOf && p.depth == depthOf[p.requested]
    && Reads(site, p.requested, p.url) && site.fetch(p.requested).content.Html?
    && p.links == site.fetch(p.requested).content.links && p.bytes == site.recordBytes(p.requested, p.depth)
  }

  /**
   * The reason is the site's own answer, recorded under the URL it is about. `visited` holds the URLs
   * that the crawl has taken for itself.
   */
  predicate SkipTrue(site: Site, visited: set<Url>, e: Entry) {
    var Entry(Skip(url, reason), u) := e;
    match reason
    case RobotsBlocked => !site.allowed(url) && (url == u || Answers(site, u, url))
    case TimedOut => url == u && site.allowed(u) && site.fetch(u) == Timeout
    case RedirectLoop => url == u && site.allowed(u) && site.fetch(u) == TooManyRedirects
    case OffOrigin(target) => url == u && site.allowed(u) && site.fetch(u) == OffOriginRedirect(target)
    case BodyTooLarge => url == u && site.allowed(u) && site.fetch(u) == TooLarge
    case FetchFailed(message) => url == u && site.allowed(u) && site.fetch(u) == FetchError(message)
    case AlreadyCrawled => url == u && exists target :: target != u && target in visited && Answers(site, u, target)
    case NonHtml(contentType) => Reads(site, u, url) && site.fetch(u).content == NotHtml(contentType)
    case ParseFailed(message) => Reads(site, u, url) && site.fetch(u).content == Unparseable(message)
    case ResultBudget => url == u || (Reads(site, u, url) && site.fetch(u).content.Html?)
    case PageLimit => url == u
    case TimeBudget => url == u
    case _ => false
  }

  predicate Drained(reason: Reason) { reason == PageLimit || reason == TimeBudget }

  /** Some record is about `v`, and not because the crawl ended before its turn. */
  ghost predicate Taken(s: State, v: Url) {
    || (exists i :: 0 <= i < |s.pages| && (s.pages[i].url == v || s.pages[i].requested == v))
    || (exists i :: 0 <= i < |s.skips| && !Drained(s.skips[i].skip.reason)
                 && (s.skips[i].skip.url == v || s.skips[i].requested == v))
  }

  /** How many stored pages had more links than were recorded. */
  function Flooded(site: Site, pages: seq<Page>): nat {
    if pages == [] then 0
    else
      var page := pages[|pages| - 1];
      Flooded(site, pages[..|pages| - 1])
      + (if site.fetch(page.requested).Ok? && site.fetch(page.requested).content.Html? && site.fetch(page.requested).content.flooded
         then 1 else 0)
  }

  // --- The invariant -------------------------------------------------------------------------

  ghost predicate Placed(depthOf: map<Url, nat>, items: seq<Item>) {
    forall i :: 0 <= i < |items| ==> items[i].url in depthOf && depthOf[items[i].url] == items[i].depth
  }

  ghost predicate RecordsTrue(site: Site, s: State) {
    && (forall i :: 0 <= i < |s.pages| ==> PageTrue(site, s.depthOf, s.pages[i]))
    && (forall i :: 0 <= i < |s.skips| ==> SkipTrue(site, s.visited, s.skips[i]))
    && s.flooded == Flooded(site, s.pages)
  }

  /** With the slots `rest` claimed and not yet committed. */
  ghost predicate Truth(site: Site, s: State, rest: seq<Item>) {
    && RecordsTrue(site, s) && Placed(s.depthOf, s.queue) && Placed(s.depthOf, rest)
    && forall v :: v in s.visited ==> v in Urls(rest) || Taken(s, v)
  }

  /** What was recorded stays true as a crawl goes on. */
  ghost predicate Grows(s: State, t: State) {
    && s.pages <= t.pages && s.skips <= t.skips && s.visited <= t.visited
    && (forall u :: u in s.depthOf ==> u in t.depthOf && t.depthOf[u] == s.depthOf[u])
  }

  lemma SkipStays(site: Site, visited: set<Url>, more: set<Url>, e: Entry)
    requires SkipTrue(site, visited, e) && visited <= more
    ensures SkipTrue(site, more, e)
  {
    if e.skip.reason.AlreadyCrawled? {
      var target :| target != e.requested && target in visited && Answers(site, e.requested, target);
      assert target in more;
    }
  }

  lemma TakenStays(s: State, t: State, v: Url)
    requires Taken(s, v) && s.pages <= t.pages && s.skips <= t.skips
    ensures Taken(t, v)
  {
    if i :| 0 <= i < |s.pages| && (s.pages[i].url == v || s.pages[i].requested == v) {
      assert t.pages[i] == s.pages[i];
    } else {
      var i :| 0 <= i < |s.skips| && !Drained(s.skips[i].skip.reason) && (s.skips[i].skip.url == v || s.skips[i].requested == v);
      assert t.skips[i] == s.skips[i];
    }
  }

  /** Recording one more skip. */
  lemma SkipKeeps(site: Site, s: State, t: State, e: Entry)
    requires RecordsTrue(site, s) && SkipTrue(site, t.visited, e)
    requires t == s.(visited := t.visited, skips := s.skips + [e]) && s.visited <= t.visited
    ensures RecordsTrue(site, t)
  {
    hide SkipTrue, PageTrue, Flooded;
    forall i | 0 <= i < |t.skips| ensures SkipTrue(site, t.visited, t.skips[i]) {
      if i < |s.skips| { SkipStays(site, s.visited, t.visited, s.skips[i]); }
    }
  }

  lemma {:induction false} SkipListKeeps(site: Site, s: State, items: seq<Item>, reason: Reason)
    requires RecordsTrue(site, s) && (Drained(reason) || reason == ResultBudget)
    ensures RecordsTrue(site, s.(skips := s.skips + Entries(Urls(items), reason)))
  {
    hide PageTrue, Flooded;
    var t := s.(skips := s.skips + Entries(Urls(items), reason));
    forall i | 0 <= i < |t.skips| ensures SkipTrue(site, t.visited, t.skips[i]) {
      if i < |s.skips| { assert t.skips[i] == s.skips[i]; }
    }
  }

  lemma {:induction false} EnqueueKeeps(site: Site, s: State, links: seq<Url>, depth: nat)
    ensures var t := EnqueueAll(site, s, links, depth);
            && Grows(s, t) && t == s.(queue := t.queue, depthOf := t.depthOf, queueFull := t.queueFull)
            && (Placed(s.depthOf, s.queue) ==> Placed(t.depthOf, t.queue))
            && s.depthOf.Keys <= t.depthOf.Keys
  {
    if links != [] { EnqueueKeeps(site, s, links[..|links| - 1], depth); }
  }

  lemma RecordsStay(site: Site, s: State, t: State)
    requires RecordsTrue(site, s) && Grows(s, t) && t.pages == s.pages && t.skips == s.skips && t.flooded == s.flooded
    ensures RecordsTrue(site, t)
  {
    hide SkipTrue, Flooded;
    forall i | 0 <= i < |t.skips| ensures SkipTrue(site, t.visited, t.skips[i]) {
      SkipStays(site, s.visited, t.visited, t.skips[i]);
    }
  }

  // --- One slot ------------------------------------------------------------------------------

  /** A slot that is not stored is skipped for the site's own reason. */
  lemma RejectTrue(site: Site, visited: set<Url>, u: Url)
    requires Judge(site, visited, u).Reject?
    ensures var v := Judge(site, visited, u);
            && SkipTrue(site, visited + {v.url}, Entry(Skip(v.url, v.reason), u))
            && !Drained(v.reason) && v.reason != ResultBudget
  {
    var v := Judge(site, visited, u);
    if v.reason.AlreadyCrawled? {
      assert Answers(site, u, site.normalize(site.fetch(u).finalUrl));
    }
  }

  lemma KeepTrue(site: Site, visited: set<Url>, u: Url)
    requires Judge(site, visited, u).Keep?
    ensures var v := Judge(site, visited, u);
            && Reads(site, u, v.url) && site.fetch(u).content.Html?
            && v.links == site.fetch(u).content.links && v.flooded == site.fetch(u).content.flooded
  {
  }

  lemma RestTaken(s: State, t: State, slot: Item, rest: seq<Item>)
    requires forall v :: v in s.visited ==> v in Urls([slot] + rest) || Taken(s, v)
    requires s.pages <= t.pages && s.skips <= t.skips
    requires Taken(t, slot.url) && forall v :: v in t.visited && v !in s.visited ==> Taken(t, v)
    ensures forall v :: v in t.visited ==> v in Urls(rest) || Taken(t, v)
  {
    hide Taken;
    CrawlAccounts.UrlsParts([], slot, rest);
    forall v | v in t.visited ensures v in Urls(rest) || Taken(t, v) {
      if v in s.visited && Taken(s, v) { TakenStays(s, t, v); }
    }
  }

  lemma RejectTruth(site: Site, s: State, slot: Item, rest: seq<Item>)
    requires Truth(site, s, [slot] + rest) && Judge(site, s.visited, slot.url).Reject?
    ensures Truth(site, Commit(site, s, slot, rest), rest)
  {
    hide Judge, SkipTrue, PageTrue, Flooded, Urls;
    RejectTrue(site, s.visited, slot.url);
    var v := Judge(site, s.visited, slot.url);
    var e := Entry(Skip(v.url, v.reason), slot.url);
    var t := Commit(site, s, slot, rest);
    SkipKeeps(site, s, t, e);
    assert t.skips[|s.skips|] == e;
    RestTaken(s, t, slot, rest);
    assert ([slot] + rest)[1..] == rest;
  }

  lemma StoreRecords(site: Site, s: State, page: Page, flooded: bool)
    requires RecordsTrue(site, s) && PageTrue(site, s.depthOf, page) && flooded == site.fetch(page.requested).content.flooded
    ensures RecordsTrue(site, StorePage(s.(visited := s.visited + {page.url}), page, flooded))
  {
    hide SkipTrue;
    var t := StorePage(s.(visited := s.visited + {page.url}), page, flooded);
    assert t.pages[..|s.pages|] == s.pages;
    forall i | 0 <= i < |t.skips| ensures SkipTrue(site, t.visited, t.skips[i]) {
      SkipStays(site, s.visited, t.visited, t.skips[i]);
    }
  }

  lemma KeepTruth(site: Site, s: State, slot: Item, rest: seq<Item>)
    requires Truth(site, s, [slot] + rest) && Judge(site, s.visited, slot.url).Keep?
    requires s.bytes + site.recordBytes(slot.url, slot.depth) <= MAX_RESULT_BYTES
    ensures Truth(site, Commit(site, s, slot, rest), rest)
  {
    hide Judge, SkipTrue, Flooded, EnqueueAll, Urls;
    KeepTrue(site, s.visited, slot.url);
    var v := Judge(site, s.visited, slot.url);
    assert ([slot] + rest)[0] == slot && ([slot] + rest)[1..] == rest;
    var page := Page(v.url, slot.url, slot.depth, v.links, site.recordBytes(slot.url, slot.depth), 0);
    StoreRecords(site, s, page, v.flooded);
    var stored := StorePage(s.(visited := s.visited + {v.url}), page, v.flooded);
    EnqueueKeeps(site, stored, v.links, slot.depth + 1);
    var t := Commit(site, s, slot, rest);
    RecordsStay(site, stored, t);
    assert t.pages[|s.pages|] == page;
    RestTaken(s, t, slot, rest);
  }

  /** The byte budget: this slot, the rest of the batch and the queue, each under its own name. */
  lemma StopTruth(site: Site, s: State, slot: Item, rest: seq<Item>)
    requires Truth(site, s, [slot] + rest) && Judge(site, s.visited, slot.url).Keep?
    requires s.bytes + site.recordBytes(slot.url, slot.depth) > MAX_RESULT_BYTES
    ensures Truth(site, Commit(site, s, slot, rest), [])
  {
    hide Judge, PageTrue, Flooded, Urls, Entries;
    KeepTrue(site, s.visited, slot.url);
    var v := Judge(site, s.visited, slot.url);
    var seen := s.(visited := s.visited + {v.url});
    var e := Entry(Skip(v.url, ResultBudget), slot.url);
    var s1 := AddSkip(seen, v.url, ResultBudget, slot.url);
    SkipKeeps(site, s, s1, e);
    hide SkipTrue;
    SkipListKeeps(site, s1, rest, ResultBudget);
    var s2 := s1.(skips := s1.skips + Entries(Urls(rest), ResultBudget));
    SkipListKeeps(site, s2, s.queue, ResultBudget);
    var t := Commit(site, s, slot, rest);
    assert t.skips[|s.skips|] == e;
    RestTaken(s, t, slot, rest);
    forall v | v in Urls(rest) ensures Taken(t, v) { RestListed(s1, t, rest, v); }
  }

  lemma RestListed(s: State, t: State, rest: seq<Item>, v: Url)
    requires s.skips + Entries(Urls(rest), ResultBudget) <= t.skips && v in Urls(rest)
    ensures Taken(t, v)
  {
    var k :| 0 <= k < |Urls(rest)| && Urls(rest)[k] == v;
    assert t.skips[|s.skips| + k] == Entry(Skip(v, ResultBudget), v);
  }

  lemma CommitTruth(site: Site, s: State, slot: Item, rest: seq<Item>)
    requires Truth(site, s, [slot] + rest) && !s.stopped
    ensures var t := Commit(site, s, slot, rest); Truth(site, t, if t.stopped then [] else rest)
  {
    hide Truth, EnqueueAll, Judge, Entries;
    var v := Judge(site, s.visited, slot.url);
    if v.Reject? {
      RejectTruth(site, s, slot, rest);
    } else if s.bytes + site.recordBytes(slot.url, slot.depth) > MAX_RESULT_BYTES {
      StopTruth(site, s, slot, rest);
    } else {
      KeepTruth(site, s, slot, rest);
      EnqueueKeeps(site, StorePage(s.(visited := s.visited + {v.url}),
                                   Page(v.url, slot.url, slot.depth, v.links, site.recordBytes(slot.url, slot.depth), 0), v.flooded),
                   v.links, slot.depth + 1);
    }
  }

  lemma {:induction false} CommitBatchTruth(site: Site, s: State, batch: seq<Item>)
    requires Truth(site, s, batch) && !s.stopped
    ensures Truth(site, CommitBatch(site, s, batch), [])
    decreases |batch|
  {
    hide Truth, Commit;
    if batch != [] {
      assert [batch[0]] + batch[1..] == batch;
      CommitTruth(site, s, batch[0], batch[1..]);
      var t := Commit(site, s, batch[0], batch[1..]);
      if !t.stopped { CommitBatchTruth(site, t, batch[1..]); }
    }
  }

  // --- Waves and whole crawls ------------------------------------------------------------------

  lemma {:induction false} ClaimTruth(site: Site, s: State, room: nat, taken: seq<Item>)
    requires Truth(site, s, taken)
    ensures var (t, batch) := Claim(site, s, room); Truth(site, t, taken + batch)
    decreases |s.queue|
  {
    hide Truth;
    if room == 0 || s.queue == [] {
      assert taken + [] == taken;
    } else {
      var item := s.queue[0];
      var popped := s.(queue := s.queue[1..]);
      if item.url in s.visited {
        assert (set u | u in Urls([])) == {};
        PopTruth(site, s, popped.(vanished := popped.vanished + [item.url]), taken, []);
        assert taken + [] == taken;
        ClaimTruth(site, popped.(vanished := popped.vanished + [item.url]), room, taken);
      } else {
        var marked := popped.(visited := popped.visited + {item.url});
        assert Urls([item]) == [item.url];
        assert (set u | u in Urls([item])) == {item.url};
        PopTruth(site, s, marked, taken, [item]);
        var left := if site.allowed(item.url) then room - 1 else room;
        ClaimTruth(site, marked, left, taken + [item]);
        assert taken + [item] + Claim(site, marked, left).1 == taken + ([item] + Claim(site, marked, left).1);
      }
    }
  }

  lemma PopTruth(site: Site, s: State, t: State, taken: seq<Item>, more: seq<Item>)
    requires Truth(site, s, taken) && s.queue != [] && (more == [] || more == [s.queue[0]])
    requires t == s.(queue := s.queue[1..], visited := t.visited, vanished := t.vanished) && t.visited == s.visited + set u | u in Urls(more)
    ensures Truth(site, t, taken + more)
  {
    hide SkipTrue, PageTrue, Flooded, Taken;
    RecordsStay(site, s, t);
    assert Urls(taken + more) == Urls(taken) + Urls(more);
    forall v | v in t.visited ensures v in Urls(taken + more) || Taken(t, v) {
      if v in s.visited && Taken(s, v) { TakenStays(s, t, v); }
    }
  }

  lemma WaveTruth(site: Site, s: State, concurrency: nat, maxUrls: nat)
    requires Truth(site, s, []) && !s.stopped && |s.pages| <= maxUrls
    ensures Truth(site, Wave(site, s, concurrency, maxUrls), [])
  {
    hide Truth, Claim, CommitBatch;
    var room := Min(concurrency, maxUrls - |s.pages|);
    ClaimTruth(site, s, room, []);
    ClaimFrame(site, s, room);
    var (claimed, batch) := Claim(site, s, room);
    assert [] + batch == batch;
    CommitBatchTruth(site, claimed, batch);
  }

  lemma DrainTruth(site: Site, s: State, reason: Reason)
    requires Truth(site, s, []) && Drained(reason)
    ensures Truth(site, Drain(s, reason), [])
  {
    hide PageTrue, SkipTrue, Flooded, Taken;
    SkipListKeeps(site, s, s.queue, reason);
    var t := Drain(s, reason);
    forall v | v in t.visited ensures v in Urls([]) || Taken(t, v) { TakenStays(s, t, v); }
  }

  // --- Why a ceiling fired -----------------------------------------------------------------------

  /** The HTML answer to some queued URL has a record that no longer fits. */
  ghost predicate Overflow(site: Site, s: State) {
    exists i :: 0 <= i < |s.skips| && Overflows(site, s, s.skips[i])
  }

  predicate Overflows(site: Site, s: State, e: Entry) {
    && e.skip.reason == ResultBudget && Reads(site, e.requested, e.skip.url) && site.fetch(e.requested).content.Html?
    && e.requested in s.depthOf && s.bytes + site.recordBytes(e.requested, s.depthOf[e.requested]) > MAX_RESULT_BYTES
  }

  /** The ceilings that a wave can meet; the other two end the crawl between waves. */
  ghost predicate Quiet(site: Site, s: State) {
    && (forall i :: 0 <= i < |s.skips| ==> !Drained(s.skips[i].skip.reason) && (s.skips[i].skip.reason == ResultBudget ==> s.stopped))
    && (s.stopped ==> Overflow(site, s))
    && Crowded(s)
  }

  /** The queue was only ever full of URLs queued once each. */
  predicate Crowded(s: State) { |s.queue| <= |s.depthOf| && (s.queueFull ==> |s.depthOf| >= MAX_QUEUE_URLS) }

  lemma {:induction false} EnqueueCrowded(site: Site, s: State, links: seq<Url>, depth: nat)
    requires Crowded(s)
    ensures Crowded(EnqueueAll(site, s, links, depth))
  {
    if links != [] { EnqueueCrowded(site, s, links[..|links| - 1], depth); }
  }

  lemma StopOverflows(site: Site, s: State, slot: Item, rest: seq<Item>)
    requires Placed(s.depthOf, [slot]) && Judge(site, s.visited, slot.url).Keep? && Quiet(site, s) && !s.stopped
    requires s.bytes + site.recordBytes(slot.url, slot.depth) > MAX_RESULT_BYTES
    ensures Quiet(site, Commit(site, s, slot, rest))
  {
    hide Judge;
    KeepTrue(site, s.visited, slot.url);
    var v := Judge(site, s.visited, slot.url);
    var t := Commit(site, s, slot, rest);
    assert [slot][0] == slot;
    assert t.skips[|s.skips|] == Entry(Skip(v.url, ResultBudget), slot.url);
    assert Overflows(site, t, t.skips[|s.skips|]);
  }

  lemma RejectQuiet(site: Site, s: State, slot: Item, rest: seq<Item>)
    requires Quiet(site, s) && !s.stopped && Judge(site, s.visited, slot.url).Reject?
    ensures Quiet(site, Commit(site, s, slot, rest))
  {
    hide Judge, Overflow, SkipTrue;
    RejectTrue(site, s.visited, slot.url);
  }

  lemma StoreQuiet(site: Site, s: State, slot: Item, rest: seq<Item>)
    requires Quiet(site, s) && !s.stopped && Judge(site, s.visited, slot.url).Keep?
    requires s.bytes + site.recordBytes(slot.url, slot.depth) <= MAX_RESULT_BYTES
    ensures Quiet(site, Commit(site, s, slot, rest))
  {
    hide Judge, Overflow, EnqueueAll;
    var v := Judge(site, s.visited, slot.url);
    var stored := StorePage(s.(visited := s.visited + {v.url}),
                            Page(v.url, slot.url, slot.depth, v.links, site.recordBytes(slot.url, slot.depth), 0), v.flooded);
    EnqueueCrowded(site, stored, v.links, slot.depth + 1);
    EnqueueKeeps(site, stored, v.links, slot.depth + 1);
  }

  lemma CommitQuiet(site: Site, s: State, slot: Item, rest: seq<Item>)
    requires Placed(s.depthOf, [slot]) && Quiet(site, s) && !s.stopped
    ensures Quiet(site, Commit(site, s, slot, rest))
  {
    hide Commit, Judge, Quiet;
    if Judge(site, s.visited, slot.url).Reject? {
      RejectQuiet(site, s, slot, rest);
    } else if s.bytes + site.recordBytes(slot.url, slot.depth) > MAX_RESULT_BYTES {
      StopOverflows(site, s, slot, rest);
    } else {
      StoreQuiet(site, s, slot, rest);
    }
  }

  lemma {:induction false} CommitBatchQuiet(site: Site, s: State, batch: seq<Item>)
    requires Truth(site, s, batch) && Quiet(site, s) && !s.stopped
    ensures Quiet(site, CommitBatch(site, s, batch))
    decreases |batch|
  {
    hide Truth, Quiet, Commit;
    if batch != [] {
      assert [batch[0]] + batch[1..] == batch;
      HeadPlaced(site, s, batch);
      CommitTruth(site, s, batch[0], batch[1..]);
      CommitQuiet(site, s, batch[0], batch[1..]);
      var t := Commit(site, s, batch[0], batch[1..]);
      if !t.stopped { CommitBatchQuiet(site, t, batch[1..]); }
    }
  }

  lemma HeadPlaced(site: Site, s: State, batch: seq<Item>)
    requires Truth(site, s, batch) && batch != []
    ensures Placed(s.depthOf, [batch[0]])
  {
  }

  lemma WaveQuiet(site: Site, s: State, concurrency: nat, maxUrls: nat)
    requires Truth(site, s, []) && Quiet(site, s) && !s.stopped && |s.pages| <= maxUrls
    ensures Quiet(site, Wave(site, s, concurrency, maxUrls))
  {
    hide Truth, Claim, CommitBatch, Overflow;
    var room := Min(concurrency, maxUrls - |s.pages|);
    ClaimTruth(site, s, room, []);
    ClaimFrame(site, s, room);
    var (claimed, batch) := Claim(site, s, room);
    assert [] + batch == batch;
    CommitBatchQuiet(site, claimed, batch);
  }

  /** A ceiling speaks only when it was met. */
  ghost predicate CeilingsTrue(site: Site, s: State, maxUrls: nat, late: nat -> bool) {
    && (forall i :: 0 <= i < |s.skips| ==>
          match s.skips[i].skip.reason
          case PageLimit => |s.pages| >= maxUrls
          case TimeBudget => exists w :: late(w)
          case ResultBudget => s.stopped
          case _ => true)
    && (s.stopped ==> Overflow(site, s))
    && (s.queueFull ==> |s.depthOf| >= MAX_QUEUE_URLS)
  }

  lemma DrainCeilings(site: Site, s: State, maxUrls: nat, late: nat -> bool, reason: Reason)
    requires Quiet(site, s) && !s.stopped
    requires (reason == PageLimit && |s.pages| >= maxUrls) || (reason == TimeBudget && exists w :: late(w))
    ensures CeilingsTrue(site, Drain(s, reason), maxUrls, late)
  {
    hide Overflow;
  }

  lemma {:induction false} RunTruth(site: Site, s: State, concurrency: nat, maxUrls: nat, late: nat -> bool, wave: nat)
    requires concurrency >= 1 && |s.pages| <= maxUrls && Truth(site, s, []) && Quiet(site, s)
    ensures var t := Run(site, s, concurrency, maxUrls, late, wave); Truth(site, t, []) && CeilingsTrue(site, t, maxUrls, late)
    decreases maxUrls - |s.pages|, |s.queue|
  {
    hide Truth, Wave, Overflow;
    if s.queue != [] && !s.stopped {
      if |s.pages| >= maxUrls {
        DrainTruth(site, s, PageLimit);
        DrainCeilings(site, s, maxUrls, late, PageLimit);
      } else if late(wave) {
        DrainTruth(site, s, TimeBudget);
        DrainCeilings(site, s, maxUrls, late, TimeBudget);
      } else {
        hide Quiet, CeilingsTrue;
        WaveProgress(site, s, concurrency, maxUrls);
        WaveTruth(site, s, concurrency, maxUrls);
        WaveQuiet(site, s, concurrency, maxUrls);
        RunTruth(site, Wave(site, s, concurrency, maxUrls), concurrency, maxUrls, late, wave + 1);
      }
    }
  }

  lemma StartTruth(site: Site, seeds: seq<Url>)
    requires Distinct(seeds)
    ensures Truth(site, Start(seeds), []) && Quiet(site, Start(seeds))
  {
    CrawlAccounts.SeqToSet(seeds);
    var s := Start(seeds);
    assert s.depthOf.Keys == set u | u in seeds;
    assert |multiset(seeds)| == |seeds|;
  }

  /**
   * The records are true. In every crawl, at any concurrency and whatever the clock does: a page stands for
   * an HTML answer to the URL requested, under the URL where its redirects ended, both permitted by
   * robots.txt, with that answer's links; a skip gives the answer the site gave, under the URL it is about;
   * a URL passed over as already crawled has a record of its own; and a ceiling is named only when met.
   */
  lemma RecordsAreTrue(site: Site, seeds: seq<Url>, concurrency: nat, maxUrls: nat, late: nat -> bool)
    requires concurrency >= 1 && Distinct(seeds)
    ensures var t := Run(site, Start(seeds), concurrency, maxUrls, late, 0);
            && RecordsTrue(site, t) && CeilingsTrue(site, t, maxUrls, late)
            && forall v :: v in t.visited ==> Taken(t, v)
  {
    hide Run, Quiet, Start;
    StartPages(seeds);
    StartTruth(site, seeds);
    RunTruth(site, Start(seeds), concurrency, maxUrls, late, 0);
    assert Urls([]) == [];
  }

  lemma StartPages(seeds: seq<Url>)
    ensures Start(seeds).pages == []
  {
  }

  // --- And nothing is left out -------------------------------------------------------------------------

  /** The URL was fetched for a page. */
  ghost predicate Stored(s: State, u: Url) { exists i :: 0 <= i < |s.pages| && s.pages[i].requested == u }

  ghost predicate SkippedFor(s: State, u: Url, reason: Reason) {
    exists i :: 0 <= i < |s.skips| && s.skips[i].requested == u && s.skips[i].skip.reason == reason
  }

  lemma ReasonForHtml(site: Site, visited: set<Url>, e: Entry, target: Url)
    requires SkipTrue(site, visited, e) && Reads(site, e.requested, target)
    requires site.fetch(e.requested).Ok? && site.fetch(e.requested).content.Html?
    ensures e.skip.reason in {AlreadyCrawled, ResultBudget, PageLimit, TimeBudget}
    ensures e.skip.reason == AlreadyCrawled ==> target != e.requested && target in visited
  {
  }

  /**
   * Every URL ever queued whose fetch ends at an HTML page that robots.txt permits is stored, unless
   * that page has a record already, an earlier redirect recorded the URL itself, or the crawl met a
   * ceiling: all pages allowed, no time left, or a record that does not fit.
   */
  lemma HtmlIsStored(site: Site, seeds: seq<Url>, concurrency: nat, maxUrls: nat, late: nat -> bool, u: Url, target: Url)
    requires concurrency >= 1 && Distinct(seeds)
    requires Reads(site, u, target) && site.fetch(u).Ok? && site.fetch(u).content.Html?
    requires u in Run(site, Start(seeds), concurrency, maxUrls, late, 0).depthOf
    ensures var t := Run(site, Start(seeds), concurrency, maxUrls, late, 0);
            || Stored(t, u)
            || (target != u && Taken(t, target) && SkippedFor(t, u, AlreadyCrawled))
            || (u in t.vanished && CrawlAccounts.ByRedirect(t, u))
            || (SkippedFor(t, u, PageLimit) && |t.pages| == maxUrls)
            || (SkippedFor(t, u, TimeBudget) && exists w :: late(w))
            || (SkippedFor(t, u, ResultBudget) && Overflow(site, t))
  {
    hide Run, Start, Taken, Overflow, PageTrue, SkipTrue, Reads, Flooded, CrawlAccounts.ByRedirect, CrawlAccounts.Accounted;
    StartPages(seeds);
    RecordsAreTrue(site, seeds, concurrency, maxUrls, late);
    CrawlAccounts.Conservation(site, seeds, concurrency, maxUrls, late);
    CrawlAccounts.Ceilings(site, seeds, concurrency, maxUrls, late, u);
    var t := Run(site, Start(seeds), concurrency, maxUrls, late, 0);
    assert CrawlAccounts.Accounted(t) == multiset(t.depthOf.Keys) by { AccountsSum(t); }
    AccountedFor(t, u);
    if k :| 0 <= k < |t.skips| && t.skips[k].requested == u {
      ReasonForHtml(site, t.visited, t.skips[k], target);
      assert SkippedFor(t, u, t.skips[k].skip.reason);
    }
  }

  lemma AccountsSum(t: State)
    ensures CrawlAccounts.Accounted(t)
              == multiset(CrawlAccounts.PageSources(t.pages)) + multiset(CrawlAccounts.SkipSources(t.skips)) + multiset(t.vanished)
  {
  }

  lemma AccountedFor(t: State, u: Url)
    requires CrawlAccounts.Accounted(t) == multiset(t.depthOf.Keys) && u in t.depthOf
    ensures Stored(t, u) || (exists k :: 0 <= k < |t.skips| && t.skips[k].requested == u) || u in t.vanished
  {
    assert u in CrawlAccounts.Accounted(t);
    if u in multiset(CrawlAccounts.PageSources(t.pages)) {
      var k :| 0 <= k < |t.pages| && CrawlAccounts.PageSources(t.pages)[k] == u;
      assert t.pages[k].requested == u;
    } else if u in multiset(CrawlAccounts.SkipSources(t.skips)) {
      var k :| 0 <= k < |t.skips| && CrawlAccounts.SkipSources(t.skips)[k] == u;
      assert t.skips[k].requested == u;
    }
  }
}
