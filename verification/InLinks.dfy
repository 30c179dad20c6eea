/** How many distinct crawled pages link to each page, counted in one pass over the finished crawl. */
module InLinks {
  import opened CrawlModel
  import opened Options

  /** URL normalization as the index uses it: `None` where the text is not a URL. */
  type Normalize = Url -> Option<Url>

  function PageKey(norm: Normalize, page: Page): Url {
    if norm(page.url).Some? then norm(page.url).value else page.url
  }

  /** Link `j` of page `i` leads to `target`. */
  ghost predicate LinkAt(norm: Normalize, pages: seq<Page>, i: nat, j: nat, target: Url) {
    i < |pages| && j < |pages[i].links| && norm(pages[i].links[j]) == Some(target)
  }

  /** Link (i, j) lies before link (pi, lj) in reading order. */
  predicate Before(i: nat, j: nat, pi: nat, lj: nat) { i < pi || (i == pi && j < lj) }

  /** Some link read before (pi, lj), on a page whose key is `source`, leads to `target`. */
  ghost predicate Cites(norm: Normalize, pages: seq<Page>, pi: nat, lj: nat, source: Url, target: Url) {
    exists i: nat, j: nat :: LinkAt(norm, pages, i, j, target) && Before(i, j, pi, lj) && PageKey(norm, pages[i]) == source
  }

  /** The pages that link to `target`, by key: what a reader would count by hand. */
  ghost function Sources(norm: Normalize, pages: seq<Page>, target: Url): set<Url> {
    set i | 0 <= i < |pages| && (exists j: nat :: LinkAt(norm, pages, i, j, target)) :: PageKey(norm, pages[i])
  }

  predicate Holds(index: map<Url, set<Url>>, source: Url, target: Url) {
    target in index && source in index[target]
  }

  /** The index holds exactly the sources of the links read so far. */
  ghost predicate Indexed(norm: Normalize, pages: seq<Page>, pi: nat, lj: nat, index: map<Url, set<Url>>) {
    forall target, source :: Holds(index, source, target) <==> Cites(norm, pages, pi, lj, source, target)
  }

  ghost function WithInLinks(norm: Normalize, pages: seq<Page>): (r: seq<Page>)
    ensures |r| == |pages|
    ensures forall i :: 0 <= i < |pages| ==>
              r[i] == pages[i].(inLinkCount := |Sources(norm, pages, PageKey(norm, pages[i]))|)
  {
    seq(|pages|, i requires 0 <= i < |pages| =>
      pages[i].(inLinkCount := |Sources(norm, pages, PageKey(norm, pages[i]))|))
  }

  /** Reading one more link adds its page to the sources of its target and changes nothing else. */
  lemma CitesNext(norm: Normalize, pages: seq<Page>, pi: nat, lj: nat, source: Url, target: Url)
    requires pi < |pages| && lj < |pages[pi].links|
    ensures Cites(norm, pages, pi, lj + 1, source, target) <==>
            Cites(norm, pages, pi, lj, source, target)
            || (norm(pages[pi].links[lj]) == Some(target) && PageKey(norm, pages[pi]) == source)
  {
    if norm(pages[pi].links[lj]) == Some(target) && PageKey(norm, pages[pi]) == source {
      assert LinkAt(norm, pages, pi, lj, target) && Before(pi, lj, pi, lj + 1);
    }
    if Cites(norm, pages, pi, lj, source, target) {
      var i: nat, j: nat :| LinkAt(norm, pages, i, j, target) && Before(i, j, pi, lj) && PageKey(norm, pages[i]) == source;
      assert Before(i, j, pi, lj + 1);
    } else if Cites(norm, pages, pi, lj + 1, source, target) {
      var i: nat, j: nat :| LinkAt(norm, pages, i, j, target) && Before(i, j, pi, lj + 1) && PageKey(norm, pages[i]) == source;
      assert !Before(i, j, pi, lj);
    }
  }

  lemma IndexedNext(norm: Normalize, pages: seq<Page>, pi: nat, lj: nat, index: map<Url, set<Url>>, index': map<Url, set<Url>>)
    requires pi < |pages| && lj < |pages[pi].links| && Indexed(norm, pages, pi, lj, index)
    requires var key, n := PageKey(norm, pages[pi]), norm(pages[pi].links[lj]);
             index' == if n.None? then index
                       else index[n.value := (if n.value in index then index[n.value] else {}) + {key}]
    ensures Indexed(norm, pages, pi, lj + 1, index')
  {
    forall target, source ensures Holds(index', source, target) <==> Cites(norm, pages, pi, lj + 1, source, target) {
      CitesNext(norm, pages, pi, lj, source, target);
      assert Holds(index, source, target) <==> Cites(norm, pages, pi, lj, source, target);
    }
  }

  /** Having read a page to its end is standing at the start of the next one. */
  lemma IndexedNextPage(norm: Normalize, pages: seq<Page>, pi: nat, index: map<Url, set<Url>>)
    requires pi < |pages| && Indexed(norm, pages, pi, |pages[pi].links|, index)
    ensures Indexed(norm, pages, pi + 1, 0, index)
  {
    forall target, source ensures Holds(index, source, target) <==> Cites(norm, pages, pi + 1, 0, source, target) {
      if Cites(norm, pages, pi, |pages[pi].links|, source, target) {
        var i: nat, j: nat :| LinkAt(norm, pages, i, j, target) && Before(i, j, pi, |pages[pi].links|) && PageKey(norm, pages[i]) == source;
        assert Before(i, j, pi + 1, 0);
      } else if Cites(norm, pages, pi + 1, 0, source, target) {
        var i: nat, j: nat :| LinkAt(norm, pages, i, j, target) && Before(i, j, pi + 1, 0) && PageKey(norm, pages[i]) == source;
        assert Before(i, j, pi, |pages[pi].links|);
      }
      assert Holds(index, source, target) <==> Cites(norm, pages, pi, |pages[pi].links|, source, target);
    }
  }

  lemma IndexIsSources(norm: Normalize, pages: seq<Page>, index: map<Url, set<Url>>, target: Url)
    requires Indexed(norm, pages, |pages|, 0, index)
    ensures (if target in index then index[target] else {}) == Sources(norm, pages, target)
  {
    var found := if target in index then index[target] else {};
    forall source | source in found ensures source in Sources(norm, pages, target) {
      assert Holds(index, source, target);
      assert Cites(norm, pages, |pages|, 0, source, target);
    }
    forall source | source in Sources(norm, pages, target) ensures source in found {
      var i: nat :| i < |pages| && (exists j: nat :: LinkAt(norm, pages, i, j, target)) && PageKey(norm, pages[i]) == source;
      var j: nat :| LinkAt(norm, pages, i, j, target);
      assert Before(i, j, |pages|, 0);
      assert Cites(norm, pages, |pages|, 0, source, target);
      assert Holds(index, source, target);
    }
  }

  /** The first pass: every target with the distinct pages that link to it. */
  method IndexLinks(norm: Normalize, pages: seq<Page>) returns (sources: map<Url, set<Url>>)
    ensures Indexed(norm, pages, |pages|, 0, sources)
  {
    sources := map[];
    for i := 0 to |pages|
      invariant Indexed(norm, pages, i, 0, sources)
    {
      var from := PageKey(norm, pages[i]);
      for j := 0 to |pages[i].links|
        invariant Indexed(norm, pages, i, j, sources)
      {
        ghost var before := sources;
        match norm(pages[i].links[j]) {
          case None =>
          case Some(target) =>
            var known := if target in sources then sources[target] else {};
            sources := sources[target := known + {from}];
        }
        IndexedNext(norm, pages, i, j, before, sources);
      }
      IndexedNextPage(norm, pages, i, sources);
    }
  }

  method AttachInLinkCounts(norm: Normalize, pages: seq<Page>) returns (r: seq<Page>)
    ensures r == WithInLinks(norm, pages)
  {
    var sources := IndexLinks(norm, pages);
    r := [];
    for i := 0 to |pages|
      invariant |r| == i && forall k :: 0 <= k < i ==> r[k] == WithInLinks(norm, pages)[k]
    {
      var key := PageKey(norm, pages[i]);
      IndexIsSources(norm, pages, sources, key);
      r := r + [pages[i].(inLinkCount := if key in sources then |sources[key]| else 0)];
    }
  }
}
