/** The seed list of a crawl. */
module Seeds {
  import opened CrawlModel
  import opened Sitemap

  /** The first occurrence of each URL, in order. */
  function Dedupe(us: seq<Url>, seen: set<Url>): seq<Url> {
    if us == [] then []
    else if us[0] in seen then Dedupe(us[1..], seen)
    else [us[0]] + Dedupe(us[1..], seen + {us[0]})
  }

  /** The homepage first when it is in scope, then the extra seeds, then the sitemap's. */
  function SeedUrls(rootInScope: bool, root: Url, extra: seq<Url>, sitemap: seq<Url>): seq<Url> {
    Dedupe((if rootInScope then [root] else []) + extra + sitemap, {})
  }

  lemma {:induction false} DedupeMeaning(us: seq<Url>, seen: set<Url>)
    ensures Distinct(Dedupe(us, seen)) && Elements(Dedupe(us, seen)) == Elements(us) - seen
    decreases |us|
  {
    if us != [] {
      assert us == [us[0]] + us[1..];
      assert Elements(us) == {us[0]} + Elements(us[1..]);
      if us[0] in seen {
        DedupeMeaning(us[1..], seen);
      } else {
        var tail := Dedupe(us[1..], seen + {us[0]});
        DedupeMeaning(us[1..], seen + {us[0]});
        assert Elements([us[0]]) == {us[0]};
        ConcatDistinct([us[0]], tail);
        assert Elements([us[0]] + tail) == {us[0]} + Elements(tail);
      }
    }
  }

  /** What is kept is in the order of the list: more URLs behind it change nothing of it. */
  lemma {:induction false} DedupeInOrder(us: seq<Url>, more: seq<Url>, seen: set<Url>)
    ensures Dedupe(us, seen) <= Dedupe(us + more, seen)
    decreases |us|
  {
    if us != [] {
      assert (us + more)[1..] == us[1..] + more;
      DedupeInOrder(us[1..], more, seen);
      DedupeInOrder(us[1..], more, seen + {us[0]});
    }
  }

  /**
   * Seeds are what a crawl may start from: distinct, with the root first whenever it is in scope, and the
   * extra seeds in front of the sitemap's.
   */
  lemma SeedUrlsMeaning(rootInScope: bool, root: Url, extra: seq<Url>, sitemap: seq<Url>)
    ensures var seeds := SeedUrls(rootInScope, root, extra, sitemap);
            && Distinct(seeds)
            && (forall u :: u in seeds <==> (rootInScope && u == root) || u in extra || u in sitemap)
            && (rootInScope ==> seeds != [] && seeds[0] == root)
            && SeedUrls(rootInScope, root, extra, []) <= seeds
  {
    var all := (if rootInScope then [root] else []) + extra + sitemap;
    var seeds := SeedUrls(rootInScope, root, extra, sitemap);
    DedupeMeaning(all, {});
    DedupeInOrder((if rootInScope then [root] else []) + extra + [], sitemap, {});
    assert (if rootInScope then [root] else []) + extra + [] + sitemap == all;
    forall u ensures u in seeds <==> u in all {
      assert u in Elements(seeds) <==> u in Elements(all);
    }
  }
}
