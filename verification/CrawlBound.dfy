/**
 * Bounding a crawl result to what may be persisted, and whether a real crawl survives it whole.
 * The crawl measures a record before its in-link count is filled in; the bound measures it after.
 */
module CrawlBound {
  import opened CrawlModel
  import opened CrawlOrder
  import opened CrawlRun
  import opened CrawlWaves
  import opened Numbers
  import opened Options
  import CrawlAccounts
  import InLinks
  import opened CrawlSite

  type Size = Page -> nat

  function Total(size: Size, pages: seq<Page>): nat {
    if pages == [] then 0 else Total(size, pages[..|pages| - 1]) + size(pages[|pages| - 1])
  }

  /** `n` is the length of the longest prefix of `pages` whose records fit the byte budget. */
  ghost predicate LongestFit(size: Size, pages: seq<Page>, n: nat) {
    && n <= |pages| && Total(size, pages[..n]) <= MAX_RESULT_BYTES
    && (n < |pages| ==> Total(size, pages[..n + 1]) > MAX_RESULT_BYTES)
  }

  lemma {:induction false} TotalGrows(size: Size, pages: seq<Page>, m: nat, n: nat)
    requires m <= n <= |pages|
    ensures Total(size, pages[..m]) <= Total(size, pages[..n])
    decreases n
  {
    if m < n {
      TotalGrows(size, pages, m, n - 1);
      assert pages[..n][..n - 1] == pages[..n - 1];
    }
  }

  /** Everything is kept exactly when everything fits. */
  lemma AllFitExactly(size: Size, pages: seq<Page>, n: nat)
    requires LongestFit(size, pages, n)
    ensures n == |pages| <==> Total(size, pages) <= MAX_RESULT_BYTES
  {
    assert pages[..|pages|] == pages;
    if n < |pages| {
      TotalGrows(size, pages, n + 1, |pages|);
    }
  }

  /** A skip with its reason clamped, which leaves a short one as it is. */
  function ClampSkip(s: SkippedUrl): SkippedUrl { s.(reason := ClampField(s.reason)) }

  function ClampSkips(skips: seq<SkippedUrl>): (clamped: seq<SkippedUrl>)
    ensures |clamped| == |skips| && forall i :: 0 <= i < |skips| ==> clamped[i] == ClampSkip(skips[i])
  {
    seq(|skips|, i requires 0 <= i < |skips| => ClampSkip(skips[i]))
  }

  function Rebound(urls: Option<seq<string>>): Option<seq<string>> {
    if urls.None? then None else Some(BoundSitemapUrls(urls.value))
  }

  /**
   * What bounding does: cut the skips and the pages at their ceilings, clamp the reasons and the
   * sitemap list, and say once what was cut.
   */
  ghost predicate Bounds(size: Size, result: CrawlResult, bounded: CrawlResult) {
    var capped := result.pages[..Min(|result.pages|, MAX_PAGES_PERSISTED)];
    var listed := ClampSkips(result.skipped[..Min(|result.skipped|, MAX_SKIPPED)]);
    var dropped, lost := |result.skipped| - |listed|, |capped| - |bounded.pages|;
    && bounded.pages <= capped && LongestFit(size, capped, |bounded.pages|)
    && bounded.skipped == listed
         + Told((if dropped > 0 then [Skip(listed[0].url, SkipOverflow(dropped))] else [])
                + (if lost > 0 then [Skip(capped[0].url, PagesDropped(lost))] else []))
    && bounded.sitemapUrls == Rebound(result.sitemapUrls)
    && (result.sitemapUrls.Some? ==> FirstStored(result.sitemapUrls.value, bounded.sitemapUrls.value))
  }

  method BoundCrawlResult(size: Size, result: CrawlResult) returns (bounded: CrawlResult)
    ensures Bounds(size, result, bounded)
  {
    hide FirstStored, BoundSitemapUrls, ClampSkips, LongestFit;
    var listed := result.skipped[..Min(|result.skipped|, MAX_SKIPPED)];
    var skipped := ClampReasons(listed);
    var dropped := |result.skipped| - |skipped|;
    var capped := result.pages[..Min(|result.pages|, MAX_PAGES_PERSISTED)];
    var pages := TakeFitting(size, capped);
    var budgetDropped := |capped| - |pages|;
    var notes: seq<Skip> := [];
    if dropped > 0 { notes := notes + [Skip(skipped[0].url, SkipOverflow(dropped))]; }
    if budgetDropped > 0 { notes := notes + [Skip(capped[0].url, PagesDropped(budgetDropped))]; }
    if result.sitemapUrls.Some? { SitemapStored(result.sitemapUrls.value); }
    bounded := CrawlResult(pages, skipped + Told(notes), Rebound(result.sitemapUrls));
  }

  /** Pages are taken in order until the next one does not fit. */
  method TakeFitting(size: Size, capped: seq<Page>) returns (pages: seq<Page>)
    ensures pages <= capped && LongestFit(size, capped, |pages|)
  {
    pages := [];
    var bytes := 0;
    while |pages| < |capped|
      invariant pages <= capped && bytes == Total(size, pages) <= MAX_RESULT_BYTES
      decreases |capped| - |pages|
    {
      var n := |pages|;
      assert capped[..n + 1] == pages + [capped[n]] && capped[..n + 1][..n] == pages == capped[..n];
      if bytes + size(capped[n]) > MAX_RESULT_BYTES { break; }
      bytes := bytes + size(capped[n]);
      pages := pages + [capped[n]];
    }
    assert capped[..|pages|] == pages;
  }

  /** Only a reason over the field limit is rewritten. */
  method ClampReasons(skips: seq<SkippedUrl>) returns (clamped: seq<SkippedUrl>)
    ensures clamped == ClampSkips(skips)
  {
    clamped := [];
    for i := 0 to |skips|
      invariant |clamped| == i && forall k :: 0 <= k < i ==> clamped[k] == ClampSkip(skips[k])
    {
      var s := skips[i];
      clamped := clamped + [if |s.reason| <= MAX_FIELD_CHARS then s else s.(reason := ClampField(s.reason))];
    }
  }

  /** A text the clamp leaves alone: within the limit, or cut by it before. */
  predicate Stable(text: string) {
    |text| <= MAX_FIELD_CHARS || (|text| == MAX_FIELD_CHARS + 1 && text[MAX_FIELD_CHARS] == '\U{2026}')
  }

  lemma ClampExactly(text: string)
    ensures ClampField(text) == text <==> Stable(text)
    ensures Stable(ClampField(text)) && CutTo(text, ClampField(text))
  {
    if |text| == MAX_FIELD_CHARS + 1 {
      assert text == text[..MAX_FIELD_CHARS] + [text[MAX_FIELD_CHARS]];
    }
    if ClampField(text) == text && |text| > MAX_FIELD_CHARS {
      assert text[MAX_FIELD_CHARS] == ClampField(text)[MAX_FIELD_CHARS];
    }
  }

  /** Bounding the sitemap list twice is bounding it once. */
  lemma SitemapBoundOnce(urls: seq<string>)
    ensures BoundSitemapUrls(BoundSitemapUrls(urls)) == BoundSitemapUrls(urls)
  {
    hide ClampField, Stable;
    var once := BoundSitemapUrls(urls);
    assert once[..Min(|once|, MAX_SITEMAP_URLS_STORED)] == once;
    forall i | 0 <= i < |once| ensures ClampField(once[i]) == once[i] {
      ClampExactly(urls[i]);
      ClampExactly(once[i]);
    }
  }

  lemma SkipsKeptExactly(skips: seq<SkippedUrl>)
    ensures ClampSkips(skips) == skips <==> forall i :: 0 <= i < |skips| ==> Stable(skips[i].reason)
  {
    hide ClampField, Stable;
    forall i | 0 <= i < |skips| ensures ClampSkip(skips[i]) == skips[i] <==> Stable(skips[i].reason) {
      ClampExactly(skips[i].reason);
    }
    if ClampSkips(skips) == skips {
      forall i | 0 <= i < |skips| ensures Stable(skips[i].reason) { assert ClampSkips(skips)[i] == ClampSkip(skips[i]); }
    }
  }

  // --- A finished crawl under the bound ----------------------------------------------------

  function Digits(n: nat): (d: nat)
    ensures d >= 1 && (d == 1 <==> n < 10)
  {
    if n < 10 then 1 else 1 + Digits(n / 10)
  }

  /** A record as persisted: the one-digit zero it was measured with has become its in-link count. */
  function FinalSize(p: Page): nat { p.bytes + Digits(p.inLinkCount) - 1 }

  lemma {:induction false} FinalTotal(pages: seq<Page>)
    ensures Total(FinalSize, pages) >= CrawlAccounts.TotalBytes(pages)
    ensures (forall i :: 0 <= i < |pages| ==> pages[i].inLinkCount < 10) ==> Total(FinalSize, pages) == CrawlAccounts.TotalBytes(pages)
  {
    if pages != [] {
      FinalTotal(pages[..|pages| - 1]);
    }
  }

  lemma {:induction false} CountingKeepsBytes(norm: InLinks.Normalize, pages: seq<Page>, counted: seq<Page>)
    requires |counted| == |pages| && forall i :: 0 <= i < |pages| ==> counted[i].bytes == pages[i].bytes
    ensures CrawlAccounts.TotalBytes(counted) == CrawlAccounts.TotalBytes(pages)
  {
    if pages != [] {
      CountingKeepsBytes(norm, pages[..|pages| - 1], counted[..|counted| - 1]);
    }
  }

  lemma NothingCut(size: Size, result: CrawlResult, bounded: CrawlResult)
    requires Bounds(size, result, bounded)
    requires |result.skipped| <= MAX_SKIPPED && Rebound(result.sitemapUrls) == result.sitemapUrls
    ensures ClampSkips(result.skipped) <= bounded.skipped
    ensures bounded == result <==>
              && |result.pages| <= MAX_PAGES_PERSISTED && Total(size, result.pages) <= MAX_RESULT_BYTES
              && forall i :: 0 <= i < |result.skipped| ==> Stable(result.skipped[i].reason)
    ensures Total(size, result.pages) <= MAX_RESULT_BYTES ==> bounded.pages == result.pages[..Min(|result.pages|, MAX_PAGES_PERSISTED)]
  {
    hide Stable, ClampField, ReasonText, Total;
    var capped := result.pages[..Min(|result.pages|, MAX_PAGES_PERSISTED)];
    assert result.pages[..|result.pages|] == result.pages && result.skipped[..|result.skipped|] == result.skipped;
    TotalGrows(size, result.pages, |capped|, |result.pages|);
    AllFitExactly(size, capped, |bounded.pages|);
    SkipsKeptExactly(result.skipped);
    assert ClampSkips(result.skipped) + Told([]) == ClampSkips(result.skipped);
  }

  /** The result `CrawlSite.Crawl.CrawlAll` returns. */
  ghost function Finish(t: State, root: Url, norm: InLinks.Normalize, sitemapSeen: seq<string>): CrawlResult {
    CrawlResult(InLinks.WithInLinks(norm, t.pages), Told(Listed(t.skips) + Notes(t, root)), Some(BoundSitemapUrls(sitemapSeen)))
  }

  /**
   * On the real crawler the bound drops no skip and no note, and it is the identity if and only if no
   * page is above MAX_PAGES_PERSISTED, the final records fit the byte budget and no reason is over the
   * field limit (or was cut by it before). No page is above it under a page limit within it, as the
   * queue handler's always is; and where every page has fewer than ten in-links, the pages above
   * it are all that is dropped.
   */
  lemma CrawlUnderBound(site: Site, seeds: seq<Url>, concurrency: nat, maxUrls: nat, late: nat -> bool,
                        root: Url, norm: InLinks.Normalize, sitemapSeen: seq<string>, bounded: CrawlResult)
    requires concurrency >= 1 && Distinct(seeds)
    requires Bounds(FinalSize, Finish(Run(site, Start(seeds), concurrency, maxUrls, late, 0), root, norm, sitemapSeen), bounded)
    ensures var result := Finish(Run(site, Start(seeds), concurrency, maxUrls, late, 0), root, norm, sitemapSeen);
            var readable := forall i :: 0 <= i < |result.skipped| ==> Stable(result.skipped[i].reason);
            && ClampSkips(result.skipped) <= bounded.skipped
            && (bounded == result <==>
                  |result.pages| <= MAX_PAGES_PERSISTED && Total(FinalSize, result.pages) <= MAX_RESULT_BYTES && readable)
            && (maxUrls <= MAX_PAGES_PERSISTED ==> |result.pages| <= MAX_PAGES_PERSISTED)
            && ((forall i :: 0 <= i < |result.pages| ==> result.pages[i].inLinkCount < 10) ==>
                  bounded.pages == result.pages[..Min(|result.pages|, MAX_PAGES_PERSISTED)])
  {
    hide Run, Bounds, Distinct, Stable, ReasonText, BoundSitemapUrls;
    var t := Run(site, Start(seeds), concurrency, maxUrls, late, 0);
    var result := Finish(t, root, norm, sitemapSeen);
    assert |result.skipped| <= MAX_SKIPPED && |result.pages| <= maxUrls by {
      Finished(site, seeds, concurrency, maxUrls, late, root);
    }
    SitemapBoundOnce(sitemapSeen);
    NothingCut(FinalSize, result, bounded);
    PageBytesFit(site, seeds, concurrency, maxUrls, late);
    CountingKeepsBytes(norm, t.pages, result.pages);
    FinalTotal(result.pages);
  }

  lemma PageBytesFit(site: Site, seeds: seq<Url>, concurrency: nat, maxUrls: nat, late: nat -> bool)
    requires concurrency >= 1 && Distinct(seeds)
    ensures CrawlAccounts.TotalBytes(Run(site, Start(seeds), concurrency, maxUrls, late, 0).pages) <= MAX_RESULT_BYTES
  {
    CrawlAccounts.Ceilings(site, seeds, concurrency, maxUrls, late, Url(0));
  }

  // --- A crawl the bound does shorten --------------------------------------------------------

  function Plain(u: Url): Option<Url> { Some(u) }

  const TEN := 10
  const RECORD_BYTES := 1_200_000

  function TenUrls(): (us: seq<Url>)
    ensures |us| == TEN && forall i :: 0 <= i < TEN ==> us[i] == Url(i)
  {
    seq(TEN, i requires 0 <= i < TEN => Url(i))
  }

  /** Ten pages, each linking to all ten, whose records fill the byte budget exactly. */
  function MeshSite(): Site {
    Site(u => u, _ => true, _ => true, (u: Url) => Ok(u, Html(TenUrls(), false)), (_, _) => RECORD_BYTES)
  }

  function MeshPage(i: nat): Page { Page(Url(i), Url(i), 0, TenUrls(), RECORD_BYTES, 0) }

  function MeshPages(n: nat): (ps: seq<Page>)
    ensures |ps| == n && forall i :: 0 <= i < n ==> ps[i] == MeshPage(i)
  {
    seq(n, i requires 0 <= i < n => MeshPage(i))
  }

  /** The mesh crawl after `n` pages. */
  ghost function MeshState(n: nat): State
    requires n <= TEN
  {
    State(Start(TenUrls()).queue[n..], Start(TenUrls()).depthOf, set i | 0 <= i < n :: Url(i),
          MeshPages(n), [], [], 0, false, n * RECORD_BYTES, false)
  }

  lemma {:induction false} KnownLinksChangeNothing(site: Site, s: State, links: seq<Url>, d: nat)
    requires |s.queue| < MAX_QUEUE_URLS && forall i :: 0 <= i < |links| ==> site.normalize(links[i]) in s.depthOf
    ensures EnqueueAll(site, s, links, d) == s
  {
    if links != [] {
      KnownLinksChangeNothing(site, s, links[..|links| - 1], d);
    }
  }

  lemma MeshStep(n: nat)
    requires n < TEN
    ensures ItemStep(MeshSite(), MeshState(n)) == MeshState(n + 1)
  {
    var site, s := MeshSite(), MeshState(n);
    assert s.queue[0] == Item(Url(n), 0);
    var marked := s.(queue := s.queue[1..], visited := s.visited + {Url(n)});
    assert marked.visited + {Url(n)} == marked.visited == MeshState(n + 1).visited;
    assert MeshPages(n + 1) == MeshPages(n) + [MeshPage(n)];
    assert Judge(site, marked.visited, Url(n)) == Keep(Url(n), TenUrls(), false);
    var stored := StorePage(marked.(visited := marked.visited + {Url(n)}), MeshPage(n), false);
    KnownLinksChangeNothing(site, stored, TenUrls(), 1);
    assert stored == MeshState(n + 1);
  }

  lemma {:induction false} MeshRun(n: nat)
    requires n <= TEN
    ensures Sequential(MeshSite(), MeshState(n), 100) == MeshState(TEN)
    decreases TEN - n
  {
    if n < TEN {
      MeshStep(n);
      assert MeshState(n).queue[0] == Item(Url(n), 0);
      MeshRun(n + 1);
    }
  }

  lemma {:induction false} UrlsBelow(n: nat)
    ensures |set i | 0 <= i < n :: Url(i)| == n
  {
    if n > 0 {
      UrlsBelow(n - 1);
      assert (set i | 0 <= i < n :: Url(i)) == (set i | 0 <= i < n - 1 :: Url(i)) + {Url(n - 1)};
    }
  }

  lemma MeshSources(target: nat)
    requires target < TEN
    ensures |InLinks.Sources(Plain, MeshPages(TEN), Url(target))| == TEN
  {
    var pages := MeshPages(TEN);
    var sources, all := InLinks.Sources(Plain, pages, Url(target)), set i | 0 <= i < TEN :: Url(i);
    forall u | u in all ensures u in sources {
      var i: nat :| i < TEN && u == Url(i);
      assert InLinks.LinkAt(Plain, pages, i, target, Url(target));
      assert InLinks.PageKey(Plain, pages[i]) == u;
    }
    forall u | u in sources ensures u in all {
      var i: nat :| i < |pages| && InLinks.PageKey(Plain, pages[i]) == u;
      assert pages[i] == MeshPage(i) && Plain(pages[i].url) == Some(Url(i));
    }
    assert sources == all;
    UrlsBelow(TEN);
  }

  lemma {:induction false} MeshTotal(pages: seq<Page>)
    requires forall i :: 0 <= i < |pages| ==> pages[i].bytes == RECORD_BYTES && pages[i].inLinkCount == TEN
    ensures Total(FinalSize, pages) == |pages| * (RECORD_BYTES + 1)
  {
    if pages != [] {
      MeshTotal(pages[..|pages| - 1]);
      assert Digits(TEN) == 2;
    }
  }

  /**
   * The bound is not always the identity on a real crawl: ten pages linking to one another fill
   * the byte budget exactly, and one more digit in each in-link count pushes the last page out.
   */
  lemma BoundDropsPageCounterexample(root: Url, bounded: CrawlResult)
    requires Bounds(FinalSize, Finish(Run(MeshSite(), Start(TenUrls()), 4, 100, Never, 0), root, Plain, []), bounded)
    ensures |bounded.pages| < |Run(MeshSite(), Start(TenUrls()), 4, 100, Never, 0).pages| == TEN
  {
    hide Run, Sequential;
    MeshCrawled();
    var counted := InLinks.WithInLinks(Plain, MeshPages(TEN));
    assert counted[..TEN] == counted;
    MeshCounted(|bounded.pages|);
  }

  lemma MeshCrawled()
    ensures Run(MeshSite(), Start(TenUrls()), 4, 100, Never, 0).pages == MeshPages(TEN)
  {
    hide Run, Sequential, MeshSite, SomeWaveDiverges;
    assert Start(TenUrls()) == MeshState(0);
    MeshRun(0);
    assert NoRedirects(MeshSite()) by { MeshStays(); }
    WavesRefineSequential(MeshSite(), TenUrls(), 4, 100);
  }

  lemma MeshStays()
    ensures NoRedirects(MeshSite())
  {
  }

  lemma MeshCounted(n: nat)
    requires LongestFit(FinalSize, InLinks.WithInLinks(Plain, MeshPages(TEN)), n)
    ensures n < TEN
  {
    var counted := InLinks.WithInLinks(Plain, MeshPages(TEN));
    forall i | 0 <= i < TEN ensures counted[i].inLinkCount == TEN && counted[i].bytes == RECORD_BYTES {
      MeshSources(i);
      assert InLinks.PageKey(Plain, MeshPages(TEN)[i]) == Url(i);
    }
    MeshTotal(counted);
    AllFitExactly(FinalSize, counted, n);
  }

  // --- A crawl whose reason the bound rewrites ----------------------------------------------------

  function Long(n: nat): (s: string)
    ensures |s| == n && forall i :: 0 <= i < n ==> s[i] == 'x'
  {
    seq(n, _ => 'x')
  }

  /** One page that redirects to a long address of another site. */
  function LongSite(): Site {
    Site(u => u, _ => false, _ => true, _ => OffOriginRedirect(Long(MAX_FIELD_CHARS)), (_, _) => 1)
  }

  lemma LongCrawl()
    ensures var t := Run(LongSite(), Start([Url(0)]), 4, 100, Never, 0);
            && t.pages == [] && t.skips == [Entry(Skip(Url(0), OffOrigin(Long(MAX_FIELD_CHARS))), Url(0))]
            && t.flooded == 0 && !t.queueFull
  {
    var site, s, item := LongSite(), Start([Url(0)]), Item(Url(0), 0);
    var marked := s.(queue := [], visited := {Url(0)});
    assert s.queue == [item] && s.queue[1..] == [] && s.(queue := s.queue[1..], visited := s.visited + {Url(0)}) == marked;
    OneFetch(site, s, item, 4);
    assert Claim(site, marked, 3) == (marked, []) && [item] + [] == [item];
    assert Claim(site, s, 4) == (marked, [item]);
    var skipped := AddSkip(marked, Url(0), OffOrigin(Long(MAX_FIELD_CHARS)), Url(0));
    assert marked.visited + {Url(0)} == marked.visited;
    assert Commit(site, marked, item, []) == skipped;
    assert CommitBatch(site, marked, [item]) == CommitBatch(site, skipped, []) == skipped;
    assert Run(site, s, 4, 100, Never, 0) == Run(site, skipped, 4, 100, Never, 1) == skipped;
  }

  /**
   * Nor does it take a single page: an off-site redirect to an address of 2000 characters is listed
   * with a reason the bound cuts, although no record is stored and none could be too large.
   */
  lemma BoundCutsReasonCounterexample(root: Url, bounded: CrawlResult)
    requires Bounds(FinalSize, Finish(Run(LongSite(), Start([Url(0)]), 4, 100, Never, 0), root, Plain, []), bounded)
    ensures var result := Finish(Run(LongSite(), Start([Url(0)]), 4, 100, Never, 0), root, Plain, []);
            result.pages == [] && bounded.skipped != result.skipped
  {
    hide Run, LongSite, ClampField, Bounds;
    LongCrawl();
    var t := Run(LongSite(), Start([Url(0)]), 4, 100, Never, 0);
    var result := Finish(t, root, Plain, []);
    LongNotStable();
    assert Listed(t.skips) + Notes(t, root) == [Skip(Url(0), OffOrigin(Long(MAX_FIELD_CHARS)))];
    assert result.skipped[0].reason == "off-origin redirect to " + Long(MAX_FIELD_CHARS);
    SitemapBoundOnce([]);
    NothingCut(FinalSize, result, bounded);
    ClampExactly(result.skipped[0].reason);
    assert ClampSkips(result.skipped) <= bounded.skipped;
    assert bounded.skipped[0] == ClampSkips(result.skipped)[0] != result.skipped[0];
  }

  lemma LongNotStable()
    ensures !Stable("off-origin redirect to " + Long(MAX_FIELD_CHARS))
  {
  }
}
