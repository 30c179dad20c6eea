/**
 * The crawl frontier engine as a specification on values: what one claim, one commit and one
 * wave do to the crawl's state, and the whole run. `CrawlSite` implements it imperatively.
 *
 * URLs are opaque: the crawl only compares them. Everything it learns from the outside world (URL
 * parsing and scope, robots.txt, fetching, the JSON size of a page record) is a field of `Site`.
 */
module CrawlModel {
  import opened Numbers

  datatype Url = Url(id: nat)

  const MAX_QUEUE_URLS: nat := 5000
  const MAX_SKIPPED: nat := 500
  const MAX_CEILING_NOTES: nat := 3
  const MAX_SKIPPED_LISTED: nat := MAX_SKIPPED - MAX_CEILING_NOTES
  const MAX_RESULT_BYTES: nat := 12_000_000
  const MAX_PAGES_PERSISTED: nat := 100

  /** What a fetched body turns out to be. */
  datatype Content =
    | NotHtml(contentType: string)
    | Unparseable(message: string)
    | Html(links: seq<Url>, flooded: bool)

  /** What became of fetching one URL. The texts come from outside and may have any length. */
  datatype Outcome =
    | Timeout
    | TooManyRedirects
    | OffOriginRedirect(target: string)
    | TooLarge
    | FetchError(message: string)
    | Ok(finalUrl: Url, content: Content)

  datatype Site = Site(
    normalize: Url -> Url,
    eligible: Url -> bool,           // parses, same site, in scope, not infrastructure
    allowed: Url -> bool,               // robots.txt
    fetch: Url -> Outcome,
    recordBytes: (Url, nat) -> nat      // size of the record stored for a claimed URL at a depth
  )

  datatype Reason =
    | RobotsBlocked | TimedOut | RedirectLoop | OffOrigin(target: string) | BodyTooLarge | FetchFailed(message: string)
    | AlreadyCrawled | NonHtml(contentType: string) | ParseFailed(message: string) | ResultBudget | PageLimit | TimeBudget
    | SkipOverflow(dropped: nat) | LinkFlood(pages: nat) | QueueFull | PagesDropped(pages: nat)

  datatype Skip = Skip(url: Url, reason: Reason)

  /** `requested` is the URL taken off the queue; `url` is where its redirects ended. */
  datatype Page = Page(url: Url, requested: Url, depth: nat, links: seq<Url>, bytes: nat, inLinkCount: nat)

  datatype Item = Item(url: Url, depth: nat)

  /** One recorded skip together with the queued URL it accounts for. */
  datatype Entry = Entry(skip: Skip, requested: Url)

  /**
   * The state of a crawl. `depthOf` maps every URL ever queued to the depth it was queued at,
   * `skips` is every skip ever recorded (the listing ceiling is applied by `Listed`), and
   * `vanished` lists the queue entries dropped without a record.
   */
  datatype State = State(
    queue: seq<Item>,
    depthOf: map<Url, nat>,
    visited: set<Url>,
    pages: seq<Page>,
    skips: seq<Entry>,
    vanished: seq<Url>,
    flooded: nat,
    queueFull: bool,
    bytes: nat,
    stopped: bool
  )

  function Urls(items: seq<Item>): (us: seq<Url>)
    ensures |us| == |items|
    ensures forall i :: 0 <= i < |items| ==> us[i] == items[i].url
  {
    seq(|items|, i requires 0 <= i < |items| => items[i].url)
  }

  ghost predicate Distinct(us: seq<Url>) {
    forall i, j :: 0 <= i < j < |us| ==> us[i] != us[j]
  }

  function Start(seeds: seq<Url>): State {
    State(seq(|seeds|, i requires 0 <= i < |seeds| => Item(seeds[i], 0)),
          map u | u in seeds :: 0, {}, [], [], [], 0, false, 0, false)
  }

  // --- Recording skips ------------------------------------------------------------------

  function Entries(urls: seq<Url>, reason: Reason): (es: seq<Entry>)
    ensures |es| == |urls|
    ensures forall i :: 0 <= i < |urls| ==> es[i] == Entry(Skip(urls[i], reason), urls[i])
  {
    seq(|urls|, i requires 0 <= i < |urls| => Entry(Skip(urls[i], reason), urls[i]))
  }

  function AddSkip(s: State, url: Url, reason: Reason, requested: Url): State {
    s.(skips := s.skips + [Entry(Skip(url, reason), requested)])
  }

  /** The part of the skip log that is listed; the rest is only counted. */
  function Listed(skips: seq<Entry>): (l: seq<Skip>)
    ensures |l| == if |skips| <= MAX_SKIPPED_LISTED then |skips| else MAX_SKIPPED_LISTED
    ensures forall i :: 0 <= i < |l| ==> l[i] == skips[i].skip
  {
    seq(if |skips| <= MAX_SKIPPED_LISTED then |skips| else MAX_SKIPPED_LISTED,
        i requires 0 <= i < |skips| => skips[i].skip)
  }

  /** Empty the queue into the skip log, as every ceiling does. */
  function Drain(s: State, reason: Reason): State {
    s.(skips := s.skips + Entries(Urls(s.queue), reason), queue := [])
  }

  // --- Discovering links ----------------------------------------------------------------

  function Enqueue(site: Site, s: State, link: Url, depth: nat): State {
    if |s.queue| >= MAX_QUEUE_URLS then s.(queueFull := true)
    else if !site.eligible(link) then s
    else
      var u := site.normalize(link);
      if u in s.visited || u in s.depthOf then s
      else s.(depthOf := s.depthOf[u := depth], queue := s.queue + [Item(u, depth)])
  }

  function EnqueueAll(site: Site, s: State, links: seq<Url>, depth: nat): State {
    if links == [] then s
    else Enqueue(site, EnqueueAll(site, s, links[..|links| - 1], depth), links[|links| - 1], depth)
  }

  // --- Claiming a batch -----------------------------------------------------------------

  /** Take queue entries until `room` fetchable ones are claimed; visited entries vanish. */
  function Claim(site: Site, s: State, room: nat): (State, seq<Item>)
    decreases |s.queue|
  {
    if room == 0 || s.queue == [] then (s, [])
    else
      var item := s.queue[0];
      var popped := s.(queue := s.queue[1..]);
      if item.url in s.visited then
        Claim(site, popped.(vanished := popped.vanished + [item.url]), room)
      else
        var marked := popped.(visited := popped.visited + {item.url});
        var (s', batch) := Claim(site, marked, if site.allowed(item.url) then room - 1 else room);
        (s', [item] + batch)
  }

  // --- Committing a batch ---------------------------------------------------------------

  /** What a claimed URL's outcome amounts to, before the byte budget is consulted. */
  datatype Verdict =
    | Reject(url: Url, reason: Reason)
    | Keep(url: Url, links: seq<Url>, flooded: bool)

  function Judge(site: Site, visited: set<Url>, url: Url): (v: Verdict)
    ensures v.url == url || v.url !in visited
  {
    if !site.allowed(url) then Reject(url, RobotsBlocked)
    else
      match site.fetch(url)
      case Timeout => Reject(url, TimedOut)
      case TooManyRedirects => Reject(url, RedirectLoop)
      case OffOriginRedirect(target) => Reject(url, OffOrigin(target))
      case TooLarge => Reject(url, BodyTooLarge)
      case FetchError(message) => Reject(url, FetchFailed(message))
      case Ok(raw, content) =>
        var final := site.normalize(raw);
        if final != url && final in visited then Reject(url, AlreadyCrawled)
        else if final != url && !site.allowed(final) then Reject(final, RobotsBlocked)
        else
          match content
          case NotHtml(contentType) => Reject(final, NonHtml(contentType))
          case Unparseable(message) => Reject(final, ParseFailed(message))
          case Html(links, flooded) => Keep(final, links, flooded)
  }

  /** The byte budget is full: this page, the rest of the batch and the queue are all skipped. */
  function StopOnBudget(s: State, url: Url, requested: Url, rest: seq<Item>): State {
    var s1 := AddSkip(s, url, ResultBudget, requested);
    var s2 := s1.(skips := s1.skips + Entries(Urls(rest), ResultBudget));
    Drain(s2, ResultBudget).(stopped := true)
  }

  function StorePage(s: State, page: Page, flooded: bool): State {
    s.(pages := s.pages + [page], bytes := s.bytes + page.bytes,
       flooded := if flooded then s.flooded + 1 else s.flooded)
  }

  /** Apply the outcome of one claimed slot; `rest` is what the batch still holds behind it. */
  function Commit(site: Site, s: State, slot: Item, rest: seq<Item>): State {
    var v := Judge(site, s.visited, slot.url);
    var seen := s.(visited := s.visited + {v.url});
    match v
    case Reject(u, reason) => AddSkip(seen, u, reason, slot.url)
    case Keep(u, links, flooded) =>
      var size := site.recordBytes(slot.url, slot.depth);
      if s.bytes + size > MAX_RESULT_BYTES then StopOnBudget(seen, u, slot.url, rest)
      else EnqueueAll(site, StorePage(seen, Page(u, slot.url, slot.depth, links, size, 0), flooded),
                      links, slot.depth + 1)
  }

  function CommitBatch(site: Site, s: State, batch: seq<Item>): State
    decreases |batch|
  {
    if batch == [] || s.stopped then s
    else CommitBatch(site, Commit(site, s, batch[0], batch[1..]), batch[1..])
  }

  // --- The wave loop --------------------------------------------------------------------

  function Wave(site: Site, s: State, concurrency: nat, maxUrls: nat): State
    requires |s.pages| <= maxUrls
  {
    var (claimed, batch) := Claim(site, s, Min(concurrency, maxUrls - |s.pages|));
    CommitBatch(site, claimed, batch)
  }

  // --- What the ceilings say about themselves --------------------------------------------

  function Notes(s: State, root: Url): (notes: seq<Skip>)
    ensures |notes| <= MAX_CEILING_NOTES
  {
    (if |s.skips| > MAX_SKIPPED_LISTED then [Skip(root, SkipOverflow(|s.skips| - MAX_SKIPPED_LISTED))] else [])
    + (if s.flooded > 0 then [Skip(root, LinkFlood(s.flooded))] else [])
    + (if s.queueFull then [Skip(root, QueueFull)] else [])
  }
}
