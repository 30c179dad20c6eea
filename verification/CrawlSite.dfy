/**
 * The crawl as the program runs it: one object whose queue, sets, lists and counters are updated
 * in place. Every method is proved against the specification in `CrawlModel` and `CrawlRun`.
 */
module CrawlSite {
  import opened CrawlModel
  import opened Numbers
  import opened CrawlRun
  import opened Numerals
  import opened Options
  import CrawlAccounts
  import CrawlDepth
  import CrawlRecords
  import InLinks

  /** A claimed URL: blocked by robots.txt, or carrying the outcome of its fetch. */
  datatype Slot =
    | RobotsSlot(url: Url, depth: nat)
    | FetchSlot(url: Url, depth: nat, outcome: Outcome)

  function SlotItem(slot: Slot): Item { Item(slot.url, slot.depth) }

  function SlotItems(batch: seq<Slot>): (items: seq<Item>)
    ensures |items| == |batch|
    ensures forall i :: 0 <= i < |batch| ==> items[i] == SlotItem(batch[i])
  {
    seq(|batch|, i requires 0 <= i < |batch| => SlotItem(batch[i]))
  }

  predicate SlotOf(site: Site, slot: Slot) {
    if site.allowed(slot.url) then slot == FetchSlot(slot.url, slot.depth, site.fetch(slot.url))
    else slot.RobotsSlot?
  }

  /** A skip as the tenant reads it. */
  datatype SkippedUrl = SkippedUrl(url: Url, reason: string)

  datatype CrawlResult = CrawlResult(pages: seq<Page>, skipped: seq<SkippedUrl>, sitemapUrls: Option<seq<string>>)

  /**
   * The text of a reason. The fixed sentences are shortened here; the four that quote outside text
   * quote it in full.
   */
  function ReasonText(reason: Reason): string {
    match reason
    case RobotsBlocked => "blocked by robots.txt"
    case TimedOut => "timeout"
    case RedirectLoop => "too many redirects"
    case OffOrigin(target) => "off-origin redirect to " + target
    case BodyTooLarge => "response body too large"
    case FetchFailed(message) => "fetch failed: " + message
    case AlreadyCrawled => "redirects to already-crawled URL"
    case NonHtml(contentType) => "non-HTML (" + (if contentType == "" then "unknown" else contentType) + ")"
    case ParseFailed(message) => "parse failed: " + message
    case ResultBudget => "result byte budget reached"
    case PageLimit => "max URL limit reached"
    case TimeBudget => "time budget exhausted"
    case SkipOverflow(dropped) => "skips not listed: " + Numeral(dropped, 10)
    case LinkFlood(pages) => "pages with too many links: " + Numeral(pages, 10)
    case QueueFull => "link queue limit reached"
    case PagesDropped(pages) => "pages dropped from the result: " + Numeral(pages, 10)
  }

  function Told(skips: seq<Skip>): (told: seq<SkippedUrl>)
    ensures |told| == |skips|
    ensures forall i :: 0 <= i < |skips| ==> told[i] == SkippedUrl(skips[i].url, ReasonText(skips[i].reason))
  {
    seq(|skips|, i requires 0 <= i < |skips| => SkippedUrl(skips[i].url, ReasonText(skips[i].reason)))
  }

  // --- Stored text ------------------------------------------------------------------------------

  const MAX_FIELD_CHARS: nat := 2000
  const MAX_SITEMAP_URLS_STORED: nat := 500

  /** Cut a long text and mark the cut. */
  function ClampField(value: string): string {
    if |value| <= MAX_FIELD_CHARS then value else value[..MAX_FIELD_CHARS] + ['\U{2026}']
  }

  function ClampAll(values: seq<string>): (clamped: seq<string>)
    ensures |clamped| == |values| && forall i :: 0 <= i < |values| ==> clamped[i] == ClampField(values[i])
  {
    seq(|values|, i requires 0 <= i < |values| => ClampField(values[i]))
  }

  function BoundSitemapUrls(urls: seq<string>): seq<string> { ClampAll(urls[..Min(|urls|, MAX_SITEMAP_URLS_STORED)]) }

  /** What is stored of a text: the whole of it up to the limit, or its first characters and the mark. */
  predicate CutTo(text: string, cut: string) {
    if |text| <= MAX_FIELD_CHARS then cut == text
    else |cut| == MAX_FIELD_CHARS + 1 && cut[MAX_FIELD_CHARS] == '\U{2026}' && forall i :: 0 <= i < MAX_FIELD_CHARS ==> cut[i] == text[i]
  }

  /** The first URLs that the sitemap listed, in its order, each cut to what is stored of it. */
  predicate FirstStored(urls: seq<string>, stored: seq<string>) {
    && |stored| == Min(|urls|, MAX_SITEMAP_URLS_STORED)
    && forall i :: 0 <= i < |stored| ==> CutTo(urls[i], stored[i])
  }

  lemma SitemapStored(urls: seq<string>)
    ensures FirstStored(urls, BoundSitemapUrls(urls))
  {
    hide CutTo;
    var stored := BoundSitemapUrls(urls);
    forall i | 0 <= i < |stored| ensures CutTo(urls[i], stored[i]) { ClampCuts(urls[i]); }
  }

  lemma ClampCuts(text: string)
    ensures CutTo(text, ClampField(text))
  {
  }

  class Crawl {
    const site: Site
    const maxUrls: nat

    var queue: seq<Item>
    var enqueued: set<Url>
    var visited: set<Url>
    var pages: seq<Page>
    var skipped: seq<Skip>
    var skippedDropped: nat
    var linkFloodedPages: nat
    var queueFull: bool
    var resultBytes: nat
    var stopped: bool

    ghost var depthOf: map<Url, nat>    // the depth each enqueued URL was queued at
    ghost var log: seq<Entry>           // every skip recorded, listed or not
    ghost var vanished: seq<Url>        // queue entries dropped without a record

    ghost predicate Valid()
      reads this`depthOf, this`enqueued, this`skipped, this`skippedDropped, this`log
    {
      && depthOf.Keys == enqueued
      && skipped == Listed(log)
      && skippedDropped == |log| - |skipped|
    }

    ghost function Now(): State
      reads this
    {
      State(queue, depthOf, visited, pages, log, vanished, linkFloodedPages, queueFull, resultBytes, stopped)
    }

    constructor (site: Site, seeds: seq<Url>, maxUrls: nat)
      ensures Valid() && Now() == Start(seeds)
      ensures this.site == site && this.maxUrls == maxUrls
    {
      this.site := site;
      this.maxUrls := maxUrls;
      queue := seq(|seeds|, i requires 0 <= i < |seeds| => Item(seeds[i], 0));
      enqueued := set u | u in seeds;
      visited, pages, skipped, skippedDropped := {}, [], [], 0;
      linkFloodedPages, queueFull, resultBytes, stopped := 0, false, 0, false;
      depthOf := map u | u in seeds :: 0;
      log, vanished := [], [];
    }

    method AddSkip(url: Url, reason: Reason, ghost requested: Url)
      requires Valid()
      modifies this`skipped, this`skippedDropped, this`log
      ensures Valid() && Now() == CrawlModel.AddSkip(old(Now()), url, reason, requested)
    {
      log := log + [Entry(Skip(url, reason), requested)];
      if |skipped| >= MAX_SKIPPED_LISTED {
        skippedDropped := skippedDropped + 1;
        return;
      }
      skipped := skipped + [Skip(url, reason)];
    }

    method Enqueue(link: Url, depth: nat)
      requires Valid()
      modifies this`queue, this`enqueued, this`queueFull, this`depthOf
      ensures Valid() && Now() == CrawlModel.Enqueue(site, old(Now()), link, depth)
    {
      if |queue| >= MAX_QUEUE_URLS {
        queueFull := true;
        return;
      }
      if !site.eligible(link) { return; }
      var norm := site.normalize(link);
      if norm !in visited && norm !in enqueued {
        enqueued := enqueued + {norm};
        depthOf := depthOf[norm := depth];
        queue := queue + [Item(norm, depth)];
      }
    }

    /** Empty the queue into the skip list. */
    method DrainQueue(reason: Reason)
      requires Valid()
      modifies this`queue, this`skipped, this`skippedDropped, this`log
      ensures Valid() && Now() == Drain(old(Now()), reason)
    {
      var items := queue;
      queue := [];
      SkipAll(Urls(items), reason);
    }

    method SkipAll(urls: seq<Url>, reason: Reason)
      requires Valid()
      modifies this`skipped, this`skippedDropped, this`log
      ensures Valid() && Now() == old(Now()).(skips := old(log) + Entries(urls, reason))
    {
      for i := 0 to |urls|
        invariant Valid()
        invariant log == old(log) + Entries(urls, reason)[..i]
        invariant Now() == old(Now()).(skips := log)
      {
        AddSkip(urls[i], reason, urls[i]);
      }
    }

    /** Take up to `room` fetchable URLs off the queue head. */
    method ClaimBatch(room: nat) returns (batch: seq<Slot>)
      requires Valid()
      modifies this`queue, this`visited, this`vanished
      ensures Valid()
      ensures (Now(), SlotItems(batch)) == Claim(site, old(Now()), room)
      ensures forall i :: 0 <= i < |batch| ==> SlotOf(site, batch[i])
    {
      hide Claim, Valid;
      batch := [];
      var claimed := 0;
      ghost var goal := Claim(site, Now(), room);
      assert SlotItems([]) + goal.1 == goal.1;
      while claimed < room && queue != []
        invariant Valid() && claimed <= room
        invariant Behind(SlotItems(batch), Claim(site, Now(), room - claimed)) == goal
        invariant forall i :: 0 <= i < |batch| ==> SlotOf(site, batch[i])
        decreases |queue|
      {
        ghost var s, taken := Now(), SlotItems(batch);
        var item := queue[0];
        queue := queue[1..];
        if item.url in visited {
          vanished := vanished + [item.url];
          ClaimVanishes(site, s, room - claimed);
          continue;
        }
        ClaimTakes(site, s, room - claimed, taken);
        visited := visited + {item.url};
        if !site.allowed(item.url) {
          batch := batch + [RobotsSlot(item.url, item.depth)];
        } else {
          claimed := claimed + 1;
          batch := batch + [FetchSlot(item.url, item.depth, site.fetch(item.url))];
        }
        assert SlotItems(batch) == taken + [item];
      }
      ClaimEnds(site, Now(), room - claimed);
      assert SlotItems(batch) + [] == SlotItems(batch);
    }

    /** The byte budget is hit by the slot at hand: skip it, the rest of the batch and the queue. */
    method StopCrawl(url: Url, rest: seq<Slot>, ghost requested: Url)
      requires Valid()
      modifies this`queue, this`skipped, this`skippedDropped, this`log, this`stopped
      ensures Valid() && Now() == StopOnBudget(old(Now()), url, requested, SlotItems(rest))
    {
      AddSkip(url, ResultBudget, requested);
      var urls := seq(|rest|, i requires 0 <= i < |rest| => rest[i].url);
      assert urls == Urls(SlotItems(rest));
      SkipAll(urls, ResultBudget);
      DrainQueue(ResultBudget);
      stopped := true;
    }

    method EnqueueLinks(links: seq<Url>, depth: nat)
      requires Valid()
      modifies this`queue, this`enqueued, this`queueFull, this`depthOf
      ensures Valid() && Now() == EnqueueAll(site, old(Now()), links, depth)
    {
      for i := 0 to |links|
        invariant Valid()
        invariant Now() == EnqueueAll(site, old(Now()), links[..i], depth)
      {
        assert links[..i + 1][..i] == links[..i];
        Enqueue(links[i], depth);
      }
      assert links[..|links|] == links;
    }

    /** Store a fetched page, or stop the crawl when its record does not fit the byte budget. */
    method KeepPage(finalUrl: Url, slot: Slot, rest: seq<Slot>)
      requires Valid() && slot.FetchSlot? && slot.outcome.Ok? && slot.outcome.content.Html?
      modifies this
      ensures Valid()
      ensures var size := site.recordBytes(slot.url, slot.depth);
              var page := Page(finalUrl, slot.url, slot.depth, slot.outcome.content.links, size, 0);
              Now() == if old(resultBytes) + size > MAX_RESULT_BYTES
                       then StopOnBudget(old(Now()), finalUrl, slot.url, SlotItems(rest))
                       else EnqueueAll(site, StorePage(old(Now()), page, slot.outcome.content.flooded), page.links, slot.depth + 1)
    {
      hide EnqueueAll, StopOnBudget, Valid;
      var recordBytes := site.recordBytes(slot.url, slot.depth);
      if resultBytes + recordBytes > MAX_RESULT_BYTES {
        StopCrawl(finalUrl, rest, slot.url);
        return;
      }
      resultBytes := resultBytes + recordBytes;
      pages := pages + [Page(finalUrl, slot.url, slot.depth, slot.outcome.content.links, recordBytes, 0)];
      if slot.outcome.content.flooded { linkFloodedPages := linkFloodedPages + 1; }
      EnqueueLinks(slot.outcome.content.links, slot.depth + 1);
    }

    /** Apply one claimed slot's outcome. */
    method CommitSlot(slot: Slot, rest: seq<Slot>)
      requires Valid() && SlotOf(site, slot) && slot.url in visited
      modifies this
      ensures Valid()
      ensures Now() == Commit(site, old(Now()), SlotItem(slot), SlotItems(rest))
    {
      hide EnqueueAll, StopOnBudget, Valid;
      var url := slot.url;
      assert visited + {url} == visited;
      if slot.RobotsSlot? {
        AddSkip(url, RobotsBlocked, url);
        return;
      }
      match slot.outcome {
        case Timeout => AddSkip(url, TimedOut, url); return;
        case TooManyRedirects => AddSkip(url, RedirectLoop, url); return;
        case OffOriginRedirect(target) => AddSkip(url, OffOrigin(target), url); return;
        case TooLarge => AddSkip(url, BodyTooLarge, url); return;
        case FetchError(message) => AddSkip(url, FetchFailed(message), url); return;
        case Ok(_, _) =>
      }
      var finalUrl := site.normalize(slot.outcome.finalUrl);
      if finalUrl != url {
        if finalUrl in visited {
          AddSkip(url, AlreadyCrawled, url);
          return;
        }
        visited := visited + {finalUrl};
        if !site.allowed(finalUrl) {
          AddSkip(finalUrl, RobotsBlocked, url);
          return;
        }
      }
      if slot.outcome.content.NotHtml? {
        AddSkip(finalUrl, NonHtml(slot.outcome.content.contentType), url);
        return;
      }
      if slot.outcome.content.Unparseable? {
        AddSkip(finalUrl, ParseFailed(slot.outcome.content.message), url);
        return;
      }
      KeepPage(finalUrl, slot, rest);
    }

    /** Apply a batch in the order it was taken off the queue. */
    method CommitBatch(batch: seq<Slot>)
      requires Valid() && !stopped
      requires forall i :: 0 <= i < |batch| ==> SlotOf(site, batch[i])
      requires forall i :: 0 <= i < |batch| ==> SlotItems(batch)[i].url in visited
      modifies this
      ensures Valid()
      ensures Now() == CrawlModel.CommitBatch(site, old(Now()), SlotItems(batch))
    {
      var index := 0;
      while index < |batch| && !stopped
        invariant 0 <= index <= |batch| && Valid()
        invariant CrawlModel.CommitBatch(site, Now(), SlotItems(batch[index..]))
               == CrawlModel.CommitBatch(site, old(Now()), SlotItems(batch))
        invariant old(visited) <= visited
      {
        assert SlotItems(batch[index..])[1..] == SlotItems(batch[index + 1..]);
        ghost var s := Now();
        CommitSlot(batch[index], batch[index + 1..]);
        CommitKeepsVisited(site, s, SlotItem(batch[index]), SlotItems(batch[index + 1..]));
        index := index + 1;
      }
    }

    /** The wave loop. `late(w)` answers whether the time budget is spent when wave `w` would start. */
    method CrawlWaves(concurrency: nat, late: nat -> bool)
      requires Valid() && concurrency >= 1 && |pages| <= maxUrls
      modifies this
      ensures Valid()
      ensures Now() == Run(site, old(Now()), concurrency, maxUrls, late, 0)
    {
      var wave := 0;
      hide CrawlModel.CommitBatch, Claim;
      while queue != [] && !stopped
        invariant Valid() && |pages| <= maxUrls
        invariant Run(site, Now(), concurrency, maxUrls, late, wave)
               == Run(site, old(Now()), concurrency, maxUrls, late, 0)
        decreases maxUrls - |pages|, |queue|
      {
        if |pages| >= maxUrls {
          DrainQueue(PageLimit);
          break;
        }
        if late(wave) {
          DrainQueue(TimeBudget);
          break;
        }
        ghost var s := Now();
        RunUnfolds(site, s, concurrency, maxUrls, late, wave);
        var batch := ClaimBatch(Min(concurrency, maxUrls - |pages|));
        ClaimMarks(site, s, Min(concurrency, maxUrls - |s.pages|), Now(), SlotItems(batch));
        CommitBatch(batch);
        wave := wave + 1;
      }
    }

    /** What the ceilings report about themselves, once each. */
    method CeilingNotes(root: Url) returns (notes: seq<Skip>)
      requires Valid()
      ensures notes == Notes(Now(), root)
    {
      notes := [];
      if skippedDropped > 0 { notes := notes + [Skip(root, SkipOverflow(skippedDropped))]; }
      if linkFloodedPages > 0 { notes := notes + [Skip(root, LinkFlood(linkFloodedPages))]; }
      if queueFull { notes := notes + [Skip(root, QueueFull)]; }
    }

    /**
     * The whole crawl from its seeds, with everything promised of the result: the specified
     * pages and skips, distinct pages within the page limit and the byte budget, a bounded skip
     * list, every queued URL accounted for exactly once, and records that are true of the site.
     */
    method CrawlAll(ghost seeds: seq<Url>, concurrency: nat, late: nat -> bool, root: Url, norm: InLinks.Normalize,
                    sitemapSeen: seq<string>)
      returns (result: CrawlResult)
      requires Valid() && concurrency >= 1 && Distinct(seeds) && Now() == Start(seeds)
      modifies this
      ensures Valid() && Now() == Run(site, Start(seeds), concurrency, maxUrls, late, 0)
      ensures result.pages == InLinks.WithInLinks(norm, pages)
      ensures result.skipped == Told(Listed(log) + Notes(Now(), root)) && NotesTrue(Now(), root, Notes(Now(), root))
      ensures result.sitemapUrls.Some? && FirstStored(sitemapSeen, result.sitemapUrls.value)
      ensures |result.pages| <= maxUrls && |result.skipped| <= MAX_SKIPPED
      ensures forall i, j :: 0 <= i < j < |result.pages| ==> result.pages[i].url != result.pages[j].url
      ensures |enqueued| == |result.pages| + |skipped| + skippedDropped + |vanished|
      ensures forall i :: 0 <= i < |vanished| ==> CrawlAccounts.ByRedirect(Now(), vanished[i])
      ensures forall v :: v in enqueued ==> CrawlDepth.Walk(site, seeds, pages, v, depthOf[v])
      ensures CrawlRecords.RecordsTrue(site, Now()) && CrawlRecords.CeilingsTrue(site, Now(), maxUrls, late)
    {
      assert pages == [];
      hide Run, Start, InLinks.WithInLinks, CrawlDepth.Walk, CrawlAccounts.ByRedirect, Distinct,
        CrawlRecords.RecordsTrue, CrawlRecords.CeilingsTrue, BoundSitemapUrls, NotesTrue, FirstStored;
      CrawlWaves(concurrency, late);
      Finished(site, seeds, concurrency, maxUrls, late, root);
      var notes := CeilingNotes(root);
      NotesExactly(Now(), root);
      SitemapStored(sitemapSeen);
      var counted := InLinks.AttachInLinkCounts(norm, pages);
      result := CrawlResult(counted, Told(skipped + notes), Some(BoundSitemapUrls(sitemapSeen)));
    }
  }

  /** One note for each ceiling that fired, on the start page, counting what the lists leave out. */
  ghost predicate NotesTrue(s: State, root: Url, notes: seq<Skip>) {
    && (forall reason :: Skip(root, reason) in notes <==>
          match reason
          case SkipOverflow(dropped) => dropped > 0 && |Listed(s.skips)| + dropped == |s.skips|
          case LinkFlood(pages) => pages == s.flooded > 0
          case QueueFull => s.queueFull
          case _ => false)
    && (forall i :: 0 <= i < |notes| ==> notes[i].url == root)
    && (forall i, j :: 0 <= i < j < |notes| ==> notes[i] != notes[j])
  }

  lemma NotesExactly(s: State, root: Url)
    ensures NotesTrue(s, root, Notes(s, root))
  {
  }

  /** A claim seen from behind slots that were taken before it. */
  function Behind(taken: seq<Item>, claim: (State, seq<Item>)): (State, seq<Item>) {
    (claim.0, taken + claim.1)
  }

  lemma ClaimEnds(site: Site, s: State, room: nat)
    requires room == 0 || s.queue == []
    ensures Claim(site, s, room) == (s, [])
  {
  }

  lemma ClaimVanishes(site: Site, s: State, room: nat)
    requires room > 0 && s.queue != [] && s.queue[0].url in s.visited
    ensures Claim(site, s, room)
         == Claim(site, s.(queue := s.queue[1..], vanished := s.vanished + [s.queue[0].url]), room)
  {
  }

  lemma ClaimTakes(site: Site, s: State, room: nat, taken: seq<Item>)
    requires room > 0 && s.queue != [] && s.queue[0].url !in s.visited
    ensures var item := s.queue[0];
            var marked := s.(queue := s.queue[1..], visited := s.visited + {item.url});
            Behind(taken, Claim(site, s, room))
            == Behind(taken + [item], Claim(site, marked, if site.allowed(item.url) then room - 1 else room))
  {
    var item := s.queue[0];
    var marked := s.(queue := s.queue[1..], visited := s.visited + {item.url});
    var tail := Claim(site, marked, if site.allowed(item.url) then room - 1 else room).1;
    assert taken + ([item] + tail) == (taken + [item]) + tail;
  }

  lemma Finished(site: Site, seeds: seq<Url>, concurrency: nat, maxUrls: nat, late: nat -> bool, root: Url)
    requires concurrency >= 1 && Distinct(seeds)
    ensures var t := Run(site, Start(seeds), concurrency, maxUrls, late, 0);
            && |t.pages| <= maxUrls && |Listed(t.skips) + Notes(t, root)| <= MAX_SKIPPED
            && (forall i, j :: 0 <= i < j < |t.pages| ==> t.pages[i].url != t.pages[j].url)
            && |t.depthOf.Keys| == |t.pages| + |t.skips| + |t.vanished|
            && (forall i :: 0 <= i < |t.vanished| ==> CrawlAccounts.ByRedirect(t, t.vanished[i]))
            && (forall v :: v in t.depthOf ==> CrawlDepth.Walk(site, seeds, t.pages, v, t.depthOf[v]))
            && CrawlRecords.RecordsTrue(site, t) && CrawlRecords.CeilingsTrue(site, t, maxUrls, late)
  {
    CrawlAccounts.Conservation(site, seeds, concurrency, maxUrls, late);
    CrawlAccounts.Ceilings(site, seeds, concurrency, maxUrls, late, root);
    CrawlDepth.BreadthFirst(site, seeds, concurrency, maxUrls, late);
    hide CrawlRecords.RecordsTrue, CrawlRecords.CeilingsTrue;
    CrawlRecords.RecordsAreTrue(site, seeds, concurrency, maxUrls, late);
  }

  lemma CommitKeepsVisited(site: Site, s: State, slot: Item, rest: seq<Item>)
    ensures s.visited <= Commit(site, s, slot, rest).visited
  {
    match Judge(site, s.visited, slot.url)
    case Reject(_, _) =>
    case Keep(u, links, flooded) =>
      var page := Page(u, slot.url, slot.depth, links, site.recordBytes(slot.url, slot.depth), 0);
      EnqueueAllFrame(site, StorePage(s.(visited := s.visited + {u}), page, flooded), links, slot.depth + 1);
  }

  /** One turn of the wave loop is one unfolding of the specified run. */
  lemma RunUnfolds(site: Site, s: State, concurrency: nat, maxUrls: nat, late: nat -> bool, wave: nat)
    requires concurrency >= 1 && s.queue != [] && !s.stopped && |s.pages| < maxUrls && !late(wave)
    ensures var t := Wave(site, s, concurrency, maxUrls);
            && |t.pages| <= maxUrls
            && (|s.pages| < |t.pages| || (|t.pages| == |s.pages| && |t.queue| < |s.queue|))
            && Run(site, s, concurrency, maxUrls, late, wave) == Run(site, t, concurrency, maxUrls, late, wave + 1)
  {
    WaveProgress(site, s, concurrency, maxUrls);
  }

  lemma ClaimMarks(site: Site, s: State, room: nat, t: State, batch: seq<Item>)
    requires (t, batch) == Claim(site, s, room)
    ensures t == s.(queue := t.queue, visited := t.visited, vanished := t.vanished)
    ensures forall i :: 0 <= i < |batch| ==> batch[i].url in t.visited
  {
    ClaimFrame(site, s, room);
    ClaimVisits(site, s, room);
  }

  lemma {:induction false} ClaimVisits(site: Site, s: State, room: nat)
    ensures var (t, batch) := Claim(site, s, room);
            s.visited <= t.visited && forall i :: 0 <= i < |batch| ==> batch[i].url in t.visited
    decreases |s.queue|
  {
    if room != 0 && s.queue != [] {
      var item := s.queue[0];
      var popped := s.(queue := s.queue[1..]);
      if item.url in s.visited {
        ClaimVisits(site, popped.(vanished := popped.vanished + [item.url]), room);
      } else {
        ClaimVisits(site, popped.(visited := popped.visited + {item.url}),
                   if site.allowed(item.url) then room - 1 else room);
      }
    }
  }
}
