# Verified models of the crawler, the money protocols and the guards around them

A Dafny model of the parts of this repository that keep state across steps, with proofs of what
those parts promise. `dafny verify dfyconfig.toml` checks the whole project.

| part | files | what it models |
|---|---|---|
| Crawl frontier | `CrawlModel`, `CrawlRun`, `CrawlSite` | Waves that claim URLs off a queue, fetch them together and commit them in dequeue order: a specification on values, and the engine as a class with the source's own fields and loops, proved to do exactly what the specification says |
| What a crawl keeps | `CrawlAccounts`, `CrawlRecords`, `CrawlDepth`, `CrawlWaves`, `CrawlOrder`, `InLinks`, `CrawlBound` | Conservation of queued URLs, ceilings, records that are true of the site, breadth-first depth, one wave and whole crawls of waves against sequential crawling, in-link counts, and the bound on what is persisted |
| Seeds | `Sitemap`, `Seeds`, `ExtraSeeds` | The sitemap seed loader with its round-robin, the seed list, and the selection of supplied seeds |
| Credits | `CreditLedger`, `CreditProtocol`, `CreditGuard` | The append-only ledger, a transition system of any number of guarded calls with lost replies and a sweep, and `withCredits` as a class whose every execution is an execution of that system |
| Spend | `Spend` | What the dashboard derives from the ledger |
| Vendor budget | `SpendLedger`, `MemoryLedger`, `LedgerAgreement`, `VendorBudget`, `VendorClients` | The fleet's daily cap, its in-memory double and when the two answer alike, a transition system of interleaved operations, and the four fan-out clients as a class on top of it |
| Allowance | `FreeAllowance` | The truncated count of uncharged vendor spend, and calls admitted on readings that have gone stale |
| Rate limit, cache | `RateLimiter`, `SingleFlight` | The token bucket, and the time-limited single-flight cache |
| Robots | `RobotsMatch`, `RobotsParse`, `RobotsFiles`, `RobotsLines` | Pattern matching, rule precedence, the file parser, files with stray spaces and comments, and lines that are no directives |
| Projects | `Hostnames`, `Projects`, `ProjectsRoute` | Canonical hosts and the domain gate, and interleaved project opening on a shared table |
| Addresses | `IpText`, `IpClass`, `IpRanges` | IPv4 and IPv6 text, masks, ranges and verdicts, and the same verdicts in bytes |
| Calendar | `Calendar` | The date window of a backlink time series |
| Shared | `Options`, `Strings`, `Numbers`, `Numerals`, `Network` | An option type; finding and lower-casing text; bounds and clamps; decimal numerals; what becomes of a call that is sent |

Everything a part learns from outside is a parameter. For the crawl these are the fields of `Site`
(URL normalization, scope, robots verdict, fetch outcome, record size) and a clock predicate. For the
protocols they are an adversary that picks what everybody else does before each call and what
happens to each call: delivered, applied with its reply lost, or never applied.

Amounts of money are integers (credits, micro-dollars) or reals (dollars), times are integers or
reals of milliseconds. Bitwise "and" of non-negative numbers is defined on their binary digits.

## Where the code and its documentation differ

What comments promise and the code does not keep, with the lemmas that show a failing case and
those that say exactly when the promise holds.

- **Waves are not always sequential.** apps/mcp/src/crawler/crawl.ts:1763-1767 says committing in
  dequeue order makes a wave behave as sequential crawling. It does not when one URL of a wave redirects
  onto a later URL of the same wave (`WaveRedirectCounterexample`), nor when the byte budget stops a wave
  in front of an entry it dropped because an earlier redirect had visited it
  (`DropBehindStopCounterexample`). Short of the queue cap those are all the cases: `WaveAgainstSteps`
  for one wave, `WavesAgainstSequential` for whole crawls.
- **Bounding a crawl result is not always the identity.** apps/mcp/src/crawler/crawl.ts:1971-1976
  takes a crawl that met its byte budget to survive the bound whole. The budget measures records before
  their in-link counts are filled in (`BoundDropsPageCounterexample`), and the bound cuts skip reasons
  that carry a long address or header (`BoundCutsReasonCounterexample`); exactly when, `CrawlUnderBound`.
- **Selecting extra seeds twice can change them.** apps/mcp/src/crawler/crawl.ts:608-610 calls it
  idempotent. Normalization removes one trailing slash per call (`TwoSlashesCounterexample`), and a path
  without its slash may no longer be under the include prefix that has one (`LostPrefixCounterexample`);
  exactly when, on the supplied URLs, `SelectTwiceExactly`.
- **Two projects for one site.** packages/db/src/projects.ts:34-37 has every spelling of a site
  canonicalize to one string. `www.www.x.y` canonicalizes to `www.x.y`, and a race of the two spellings
  inserts both: `TwoSpellingsRace`; exactly when, `OneRowPerSite`, `TwinMeansDoubledLabel` and
  `TwinAccepted`.
- **Unknown robots lines are not always ignored.** apps/mcp/src/crawler/robots.ts:1-7 says they are. A
  comment that contains a colon ends a run of user-agent lines: `CommentFreesTheCrawler`; exactly when the
  rules the crawler obeys change, whatever follows in the file, `UnknownLineIgnored`.
- **A dollar sign anchors wherever it stands,** not only at the end of a pattern, where section 2.2.3 of
  RFC 9309 has it designate the end: `EarlyAnchorCounterexamples`; exactly when, `StandardExactly`.
- **A dead range.** apps/mcp/src/crawler/ssrf.ts:160-167 lists only exceptions inside 2000::/3;
  5f00::/16 is outside it: `OneEntryIsDead`.
- **The row cap and the budget parameter.** apps/mcp/src/credits/free-vendor-calls.ts:134-142 derives
  the row cap from a constant while the gate takes its budget as a parameter:
  `CapFitsExactlyThisMuch` says for which budgets they agree.
- **The in-memory spend ledger** is called the same contract as the database's
  (apps/mcp/src/dfs/budget.ts:244-252). It has no day, no column and no checks of its own:
  `MidnightCounterexample`, `NoEndpointCounterexample`, `EstimateCounterexample`, `CostCounterexample`,
  `RoundingCounterexample`; exactly when the two answer alike, `SameAnswersExactly`, and within one day
  `SameAnswersInOneDay`.
- **Window dates are compared as text** (apps/mcp/src/dfs/backlink-changes.ts:192-211). Beyond the year
  9999 an ISO date begins with a sign and sorts before every other: exactly when that matters,
  `WindowStartIsClampedDate` and `WindowNeverShrinks`.

## Model

| member | source | states |
|---|---|---|
| CrawlSite.Crawl.CrawlAll | apps/mcp/src/crawler/crawl.ts:1635-1926 | The whole crawl: pages and skips are those of the specified run, page URLs are distinct, the page limit, the byte budget and the skip ceiling hold, every queued URL is accounted for once, every page and every skip is true of the site, a ceiling is named only when met and counts what the lists leave out, and the first sitemap URLs are stored, cut to the field limit |
| CrawlSite.Crawl.CrawlWaves | apps/mcp/src/crawler/crawl.ts:1712-1724 | The wave loop ends and leaves the state of the specified run, with the time cutoff and the page limit taken in the same places |
| CrawlSite.Crawl.ClaimBatch | apps/mcp/src/crawler/crawl.ts:1735-1761 | A batch is the longest queue prefix with at most the free number of fetches; robots-blocked URLs take no slot, visited ones vanish |
| CrawlSite.Crawl.CommitSlot | apps/mcp/src/crawler/crawl.ts:1763-1893 | One claimed URL becomes one page, one skip or the budget stop, in dequeue order; what each of these says of the site is RecordsAreTrue |
| CrawlSite.Crawl.EnqueueLinks | apps/mcp/src/crawler/crawl.ts:1675-1703 | Links are queued once each, at the next depth, until the queue cap; the cap is noted |
| CrawlSite.Crawl.StopCrawl | apps/mcp/src/crawler/crawl.ts:1879-1888 | At the byte budget the page, the rest of its batch and the queue are listed as skipped, in order |
| CrawlSite.Crawl.CeilingNotes | apps/mcp/src/crawler/crawl.ts:1903-1926 | Each ceiling reports once what it dropped |
| CrawlRun.WaveProgress | apps/mcp/src/crawler/crawl.ts:1712-1761 | Every wave stores pages towards the limit or shortens the queue; the limit holds with all fetches in flight counted |
| CrawlAccounts.Conservation | apps/mcp/src/crawler/crawl.ts:1667-1893 | Every URL ever queued ends, exactly once, as a page, a skip (listed or counted as dropped) or a silent drop, and a silent drop is already recorded under its own URL by an earlier redirect |
| CrawlAccounts.Ceilings | apps/mcp/src/crawler/crawl.ts:1712-1926 | Page URLs are distinct and at most maxUrls, their records fit the byte budget, skips and notes together never pass MAX_SKIPPED |
| CrawlRecords.RecordsAreTrue | apps/mcp/src/crawler/crawl.ts:1763-1893 | In every crawl a page stands for an HTML answer to the URL requested, under the normalized URL where its redirects ended, both allowed by robots.txt, at its depth and with the links of that answer; a skip gives the answer the site gave, under the URL it is about; a URL passed over as already crawled redirects onto one with a record; a ceiling is named only when it was met |
| CrawlRecords.HtmlIsStored | apps/mcp/src/crawler/crawl.ts:1795-1893 | Every queued URL whose fetch ends at an HTML page that robots.txt allows is stored, unless that page has a record already, an earlier redirect recorded the URL, or a ceiling was met |
| CrawlDepth.BreadthFirst | apps/mcp/src/crawler/crawl.ts:1675-1893 | Every depth is the length of a walk from a seed over links of stored pages; when the queue cap never fired no shorter walk exists and every URL such a walk reaches was queued or already visited |
| CrawlDepth.WaveDepth | apps/mcp/src/crawler/crawl.ts:1712-1893 | A wave keeps the depth invariant |
| CrawlDepth.QueueSpread | apps/mcp/src/crawler/crawl.ts:1866-1892 | Under that invariant the queue is sorted by depth with a spread of at most one |
| CrawlWaves.WaveAgainstSteps | apps/mcp/src/crawler/crawl.ts:1735-1893 | One wave against as many one-URL steps as it consumed queue entries, from any queue of distinct known URLs, visited ones included: equal if and only if the wave commits no redirect onto a later slot of its own and its budget stop has no entry dropped behind it (a stopped crawl may differ in the visited set only); where they differ, their records differ for good |
| CrawlOrder.WavesAgainstSequential | apps/mcp/src/crawler/crawl.ts:1705-1893 | A whole crawl of any concurrency, redirects included, has the pages, skips, silent drops, frontier, depths and ceilings of the one-URL-at-a-time crawl if and only if none of its waves diverges |
| CrawlOrder.ConcurrencyOneIsSequential | apps/mcp/src/crawler/crawl.ts:1705-1709 | At concurrency one the wave loop is that sequential crawl, whatever redirects there are |
| CrawlOrder.WaveRedirectCounterexample | apps/mcp/src/crawler/crawl.ts:1763-1767 | The in-code claim that waves behave as sequential commits fails when a redirect lands on a URL of the same wave |
| CrawlOrder.DropBehindStopCounterexample | apps/mcp/src/crawler/crawl.ts:1738-1740 | It also fails without such a redirect: a URL that an earlier redirect visited is dropped by the wave and listed as skipped by the sequential crawl when the byte budget stops in front of it |
| InLinks.AttachInLinkCounts | apps/mcp/src/crawler/crawl.ts:1945-1969 | Each in-link count is the number of distinct pages, by normalized URL, with a link that normalizes to the page |
| InLinks.IndexLinks | apps/mcp/src/crawler/crawl.ts:1945-1960 | The one-pass index holds for each target exactly the sources a count by hand would find, self-links and repeats included |
| CrawlBound.BoundCrawlResult | apps/mcp/src/crawler/crawl.ts:1977-2018 | The longest prefix of pages that fits, the skips within their ceiling with their reasons cut to the field limit, one note saying what was dropped, and the first sitemap URLs within their own ceiling |
| CrawlBound.CrawlUnderBound | apps/mcp/src/crawler/crawl.ts:1971-2018 | On every real crawl the bound drops no skip and no note, and is the identity if and only if there are at most MAX_PAGES_PERSISTED pages (always so under a page limit within it, to which the queue handler clamps), the final records fit and no reason is over the field limit; with fewer than ten in-links per page only the pages above that number are dropped |
| CrawlBound.BoundDropsPageCounterexample | apps/mcp/src/crawler/crawl.ts:1971-1976 | It is not always the identity: a crawl measured within the budget loses its last page to the digits of its in-link counts |
| CrawlBound.BoundCutsReasonCounterexample | apps/mcp/src/crawler/crawl.ts:1785-1788 | Nor does it take a page: the reason for an off-site redirect to a 2000-character address is cut |
| CrawlBound.ClampExactly | apps/mcp/src/crawler/page-signals.ts:32-35 | The field clamp keeps a text within the limit whole and of any other the first characters and the mark; it leaves a text alone exactly when it is within the limit or was cut by the clamp before |
| CrawlBound.SitemapBoundOnce | apps/mcp/src/crawler/crawl.ts:832-839 | Bounding the sitemap list in the crawl and again in the queue handler is bounding it once |
| Sitemap.SeedLoader.Load | apps/mcp/src/crawler/crawl.ts:1373-1489 | The seed list is the root list followed by the children in turn, up to the limit |
| Sitemap.SeedLoader.ClaimList | apps/mcp/src/crawler/crawl.ts:1413-1419 | A list claims its first usable new URLs up to its limit |
| Sitemap.SeedLoader.Interleave | apps/mcp/src/crawler/crawl.ts:1466-1488 | The round-robin takes what the rounds of the specification serve |
| Sitemap.ServedIsPrefix | apps/mcp/src/crawler/crawl.ts:1479-1488 | Of each child a prefix of its list is taken |
| Sitemap.Fairness | apps/mcp/src/crawler/crawl.ts:1466-1488 | While a child has its entry k left over no child has given an entry beyond k |
| Sitemap.ServedInTurn | apps/mcp/src/crawler/crawl.ts:1466-1488 | A round takes its entry of each child in turn, and follows the round before it |
| Sitemap.FilterBeforeCap | apps/mcp/src/crawler/crawl.ts:1393-1419 | Unusable locations never consume the limit |
| Sitemap.FreshMeaning | apps/mcp/src/crawler/crawl.ts:1393-1419 | A claimed list is duplicate-free, new and usable, and misses a usable new location only when its room ran out |
| Sitemap.FreshInOrder | apps/mcp/src/crawler/crawl.ts:1393-1419 | What a list claims is in its own order: later locations never change what earlier ones gave |
| Sitemap.SeedListMeaning | apps/mcp/src/crawler/crawl.ts:1373-1489 | Seeds are usable and distinct, and below the limit none is missing |
| Sitemap.SeedCount | apps/mcp/src/crawler/crawl.ts:1373-1489 | The number of seeds is the limit or the number of usable URLs, whichever is less |
| Seeds.SeedUrlsMeaning | apps/mcp/src/crawler/crawl.ts:1635-1639 | The seed list is duplicate-free, led by the root when in scope, keeps the extra seeds before the sitemap and each in its order, and loses nothing offered |
| ExtraSeeds.SelectExtraSeeds | apps/mcp/src/crawler/crawl.ts:610-663 | The loop selects exactly the normal forms of the entries that pass, and counts every other entry once under why it is not a seed |
| ExtraSeeds.SelectMeaning | apps/mcp/src/crawler/crawl.ts:610-663 | Selected seeds are distinct and are exactly what passes the gates and was not selected before |
| ExtraSeeds.SelectInOrder | apps/mcp/src/crawler/crawl.ts:610-663 | Seeds keep the order they were supplied in |
| ExtraSeeds.ReservedSegment | apps/mcp/src/crawler/crawl.ts:559-573 | A path is infrastructure if and only if its first segment, in any case, is a reserved name |
| ExtraSeeds.SelectTwiceExactly | apps/mcp/src/crawler/crawl.ts:608-663 | Selecting twice equals selecting once if and only if no supplied URL that passes has a path ending in two slashes, and each such path is still under an include prefix without its trailing slash |
| ExtraSeeds.ScopeLostExactly | apps/mcp/src/crawler/crawl.ts:645-654 | A path loses its scope with its slash exactly when the only prefixes it is under are the whole path |
| ExtraSeeds.TwoSlashesCounterexample | apps/mcp/src/crawler/crawl.ts:608-663 | A path that ends in two slashes is selected differently the second time |
| ExtraSeeds.LostPrefixCounterexample | apps/mcp/src/crawler/crawl.ts:608-663 | With the include path /blog/ the seed /blog/ is selected once and dropped the second time |
| ExtraSeeds.StripTwiceExactly | apps/mcp/src/crawler/crawl.ts:496-501 | A path is stable under a second normalization unless it is longer than "//" and ends in two slashes |
| CreditLedger.BalanceIsReceivedLessStanding | packages/db/supabase/migrations/0005_ledger_functions.sql:28-142 | A balance is what was received less the open and the committed reserves |
| CreditLedger.ReserveCovered | packages/db/supabase/migrations/0005_ledger_functions.sql:28-61 | A reserve is granted only when covered and leaves no negative balance |
| CreditLedger.GrantedExactly | packages/db/supabase/migrations/0005_ledger_functions.sql:28-61 | A reserve is granted if and only if it is positive and what the user received covers it beside the reserves standing; it is then open and debits that user by its amount and nobody else |
| CreditLedger.SettledExactly | packages/db/supabase/migrations/0005_ledger_functions.sql:73-142 | A reserve can be committed, or released, if and only if no row settles it yet; a commit moves no balance, a release gives the amount back to the user who reserved it |
| CreditProtocol.SettlementSafety | apps/mcp/src/credits/guard.ts:200-294 | In every interleaving with lost replies, retries, failed calls and the sweep: no reserve is settled twice, a return means exactly one commit at the price, a throw whose disposition is known means no commit ever |
| CreditProtocol.NetIsCostOrNothing | apps/mcp/src/credits/guard.ts:294-367 | Once settled, a reserve moved the balance by exactly its price or by nothing |
| CreditProtocol.SweepSettles | apps/mcp/src/queue/reaper.ts:365-432 | The sweep closes the open reserve it reaches and refunds the run that threw |
| CreditGuard.Guard.Settle | apps/mcp/src/credits/guard.ts:214-231 | At least one call and at most SETTLE_ATTEMPTS, fewer only after a confirmation or an error no retry can change |
| CreditGuard.Guard.ReadDisposition | apps/mcp/src/credits/guard.ts:243-257 | One read of the ledger as it stands tells whether the reserve is committed, released or open, and fails when the call does |
| CreditGuard.Guard.CommitSpend | apps/mcp/src/credits/guard.ts:267-276 | A commit counts if confirmed or if the ledger says so |
| CreditGuard.Guard.WithCredits | apps/mcp/src/credits/guard.ts:294-367 | A refused or free call leaves the ledger alone; a priced call ends as safely as every protocol run, under any behaviour of everyone else, within a fixed number of calls. After one reserve, failed work or linking makes between one and SETTLE_ATTEMPTS calls to release, and if one of them reached the ledger the reserve is refunded in full; finished work makes calls to commit, and no release. An unreserved call is told so only if the balance did not cover it or the answer was lost |
| Spend.SpendMirrorsLedger | apps/web/lib/spend.ts:72-131 | On every sound ledger total spend is the open plus the committed reserves, that is, what was received less the balance |
| Spend.SpendMirrorsEveryRun | apps/web/lib/spend.ts:11-22 | So it is at every moment of every run of the settlement protocol |
| Spend.SortSorts | apps/web/lib/spend.ts:72-82 | Events are ordered by time and none is added or lost |
| Spend.SortIsStable | apps/web/lib/spend.ts:72-82 | Events of one moment keep the ledger's order |
| Spend.SpendSinceMirrors | apps/web/lib/spend.ts:72-82 | Spend since a moment is what the balance has lost unreceived since the rows written before it |
| Spend.CumulativeSpend | apps/web/lib/spend.ts:125-131 | Each point is the sum of all events up to it |
| Spend.SpendByDay | apps/web/lib/spend.ts:104-116 | Each bar is the total of the events of its day |
| Spend.BarIsTheDaysRows | apps/web/lib/spend.ts:39-43 | The bar of a day is the debits less the refunds of the rows written on that day; a refund is not dated back to its reserve |
| Spend.BarsAddUp | apps/web/lib/spend.ts:85-116 | The bars of the trailing days sum to exactly the events of those days |
| SpendLedger.WithinCap | packages/db/supabase/migrations/0014_dfs_spend_budget.sql:97-199 | An admitted booking keeps the day within the cap, and so does settling within the estimate |
| SpendLedger.BookedExactly | packages/db/supabase/migrations/0014_dfs_spend_budget.sql:97-137 | An estimate is booked if and only if it is positive and the cap has room for it beside the open estimates and the settled costs; it then counts as open, and nothing else moves |
| SpendLedger.SettlingMakesRoom | packages/db/supabase/migrations/0014_dfs_spend_budget.sql:160-198 | Settling an open booking gives the room its estimate held over its cost to the next estimate, and no more |
| MemoryLedger.MemorySpendLedger.Reserve | apps/mcp/src/dfs/budget.ts:272-286 | The in-memory ledger books any estimate the cap admits, of whatever sign and for whatever endpoint |
| MemoryLedger.MemorySpendLedger.Settle | apps/mcp/src/dfs/budget.ts:287-297 | It settles an open row at any cost, of whatever sign, and refuses unknown and settled rows |
| MemoryLedger.MemorySpendLedger.TodayUsd | apps/mcp/src/dfs/budget.ts:298-301 | The total is the committed spend, or unreadable when broken |
| LedgerAgreement.SameAnswersExactly | apps/mcp/src/dfs/budget.ts:244-252 | Over any calls on any days the in-memory ledger tells its callers what the database does if and only if, call by call: an estimate is positive and names its endpoint, the cap decides alike on the day's stored total and on the total of all days, and what it admits fits the column; a cost is not negative, its row count is an integer of 32 bits and, for an open row, it fits the column; a day's total is the total of all days |
| LedgerAgreement.SameAnswersInOneDay | apps/mcp/src/dfs/budget.ts:244-252 | Within one day and in whole micro-dollars the totals always agree, so the two answer alike if and only if every call passes the checks the in-memory ledger does not make |
| LedgerAgreement.DayWithinTotal | packages/db/supabase/migrations/0014_dfs_spend_budget.sql:70-78 | In whole micro-dollars a day's stored total is at most the total of all days, and equal where there is no other day |
| LedgerAgreement.MidnightCounterexample | packages/db/supabase/migrations/0014_dfs_spend_budget.sql:121-130 | Two bookings of two dollars on either side of midnight: the database admits both, the in-memory ledger refuses the second |
| LedgerAgreement.NoEndpointCounterexample | packages/db/supabase/migrations/0014_dfs_spend_budget.sql:113-115 | A booking without an endpoint is refused by the database only |
| LedgerAgreement.EstimateCounterexample | packages/db/supabase/migrations/0014_dfs_spend_budget.sql:110-112 | An estimate of zero or less is refused by the database only |
| LedgerAgreement.CostCounterexample | packages/db/supabase/migrations/0014_dfs_spend_budget.sql:32-34 | A negative cost and one the column cannot hold are refused by the database only |
| LedgerAgreement.RoundingCounterexample | packages/db/supabase/migrations/0014_dfs_spend_budget.sql:32-34 | Below a micro-dollar the database stores a rounded estimate and refuses a booking the in-memory ledger still admits |
| VendorBudget.BudgetSandwich | apps/mcp/src/dfs/budget.ts:119-217 | In every interleaving of operations within a day, real vendor spend is at most the committed total, which is at most the cap |
| VendorBudget.OneSettlementEach | apps/mcp/src/dfs/budget.ts:165-217 | A finished operation made exactly one settlement call, at its tally or at its estimate; a lost call leaves it counted in full |
| VendorBudget.FailureMovesNothing | apps/mcp/src/dfs/budget.ts:185-217 | Closing a failed operation at its estimate leaves the total unchanged |
| VendorBudget.OverrunEscapes | apps/mcp/src/dfs/budget.ts:206-210 | Without the assumption on prices the day is under-counted by the overrun |
| VendorClients.ReservationsAreSumsOfShares | apps/mcp/src/dfs/competitors.ts:348-354 | Each operation reserves the sum of the amounts its requests settle at when they state no price |
| VendorClients.ComparisonCeiling | apps/mcp/src/dfs/competitors.ts:105-112 | No comparison reserves more than the declared ceiling |
| VendorClients.ListPrices | apps/mcp/src/dfs/competitors.ts:80-105 | In millionths of a dollar the shares are one and a half times the list price of the request and of each row |
| Numbers.ClampCount | apps/mcp/src/dfs/backlink-details.ts:165-177 | Counts are truncated into their range, and default when not finite |
| VendorClients.RivalsMeaning | apps/mcp/src/dfs/competitors.ts:550-555 | Rivals are exactly the listed rows that are not the target |
| VendorClients.FindTargetRow | apps/mcp/src/dfs/competitors.ts:563-568 | The first row listed for the target is found, and none exactly when none is listed |
| VendorClients.DiscoveredTable | apps/mcp/src/dfs/competitors.ts:590-619 | A discovered table has the target first and behind it the first three rows listed for other domains, or all of them, in the order of the list, each with its own two measurements |
| VendorClients.Client.ReserveSpend | apps/mcp/src/dfs/budget.ts:119-153 | The estimate is booked if the day has room for it as the call arrives, and requests may go out if and only if it was and the answer came back |
| VendorClients.Client.SettleFailedSpend | apps/mcp/src/dfs/budget.ts:211-217 | A failure closes the reservation at its own estimate, in one call |
| VendorClients.Client.RunRequest | apps/mcp/src/dfs/competitors.ts:743-767 | The running tally is the sum of stated prices, or shares, of the answered requests |
| VendorClients.Client.FetchCompetitorComparison | apps/mcp/src/dfs/competitors.ts:786-893 | Both flows: the table is made of the figures of the very replies to the questions asked of the vendor, one per compared domain or one list; a second request goes out exactly when the list lacks the target; an answer needs every request answered, a failure has its last one unanswered, and there is one settlement on every path |
| VendorClients.Client.FetchBacklinkProfile | apps/mcp/src/dfs/backlinks.ts:409-513 | The summary, the referring domains and the anchors of the target, asked in that order under one reservation and answered with what the vendor replied; one settlement on every path |
| VendorClients.Client.FetchBacklinkDetails | apps/mcp/src/dfs/backlink-details.ts:603-675 | The links and the pages of the target, asked for with clamped row counts under one reservation; one settlement on every path |
| VendorClients.Client.FetchBacklinkChanges | apps/mcp/src/dfs/backlink-changes.ts:518-589 | The two series of the target over the window from its clamped start to today, under one reservation, each unpriced one settled at half the estimate |
| FreeAllowance.TruncationIsLossless | apps/mcp/src/credits/free-vendor-calls.ts:134-142 | Whatever rows come back at the row cap, the decision is that of the full sum |
| FreeAllowance.CapFitsExactlyThisMuch | apps/mcp/src/credits/free-vendor-calls.ts:142-142 | A fixed row cap is lossless for a budget if and only if the cap times the cheapest price reaches it |
| FreeAllowance.UnchargedSpendBound | apps/mcp/src/credits/free-vendor-calls.ts:292-326 | With at most w calls at the gate or out at once, however stale the readings they are admitted on, uncharged spend with all that is out or sure to be let through stays below the budget plus w dearest calls |
| FreeAllowance.FirstCallPasses | apps/mcp/src/credits/free-vendor-calls.ts:273-280 | A fresh account is let through on any tool |
| FreeAllowance.GateExactly | apps/mcp/src/credits/free-vendor-calls.ts:292-326 | The gate admits a call if and only if what the account has released so far is below the budget, whichever rows come back at the row cap; without a reading it admits none |
| FreeAllowance.EstimateInRange | apps/mcp/src/credits/free-vendor-calls.ts:150-153 | Every row counts at a price of the table, an unknown tool at the dearest |
| FreeAllowance.PricedAtItsOwn | apps/mcp/src/credits/free-vendor-calls.ts:150-153 | A known tool counts at its own price, a missing or unknown one at the dearest |
| RateLimiter.Limiter.TryConsume | apps/mcp/src/auth.ts:164-182 | One call does what the specification does to the map |
| RateLimiter.WindowBound | apps/mcp/src/auth.ts:157-183 | Over any stretch of a run, on any clock, one id is admitted at most (1 + clears) bursts plus the refill of the time the clock moved forward, which is the time that passed when it never steps back |
| RateLimiter.DeniedExactly | apps/mcp/src/auth.ts:157-183 | On any clock a call is denied if and only if some stretch of its id's calls that ends with it, with no clear in between, already admitted more than the capacity less one token plus the refill of the time the clock moved forward |
| RateLimiter.BurstGranted | apps/mcp/src/auth.ts:164-183 | The first calls of an id are all admitted, as many as the capacity holds whole tokens |
| RateLimiter.BackwardClockCounterexample | apps/mcp/src/auth.ts:164-182 | On a clock that steps back and forth within one second a one-token bucket admits any number of calls |
| RateLimiter.SpacedCallerAdmitted | apps/mcp/src/auth.ts:157-183 | A caller spaced by one token's refill is never denied, whatever others do |
| RateLimiter.IsolationRefinesSolo | apps/mcp/src/auth.ts:157-183 | The shared map is one private limiter per id; others reach a bucket only by emptying the map |
| RateLimiter.MapBounded | apps/mcp/src/auth.ts:134-144 | The map never outgrows max(1, maxEntries) |
| SingleFlight.TtlSingleFlight.Invoke | apps/mcp/src/server.ts:394-400 | A call serves the stored value, joins the read that is out, or starts one, in every state the cache can reach |
| SingleFlight.AnswerExactly | apps/mcp/src/server.ts:394-410 | After any history a caller gets the newest value while it is final or younger than the time to live; else the read still open; else a read of its own, which starts then |
| SingleFlight.AtMostOneInFlight | apps/mcp/src/server.ts:380-414 | At most one read is in flight, and a joiner joins that one |
| SingleFlight.StartsBound | apps/mcp/src/server.ts:387-414 | In a window of T ms at most 1 + floor(T / ttl) reads start that do not reject |
| SingleFlight.TerminalForever | apps/mcp/src/server.ts:432-446 | After a terminal value no read starts and every answer is that value |
| SingleFlight.ServedIsNewest | apps/mcp/src/server.ts:394-397 | A served value is the newest read, and final or younger than the time to live |
| SingleFlight.RejectionsAreUnbounded | apps/mcp/src/server.ts:407-410 | A reader that rejects is not held back by the time to live |
| RobotsMatch.PatternToSource | apps/mcp/src/crawler/robots.ts:25-37 | The loop builds the specified expression source |
| RobotsMatch.SourceReadsBack | apps/mcp/src/crawler/robots.ts:25-37 | Escaping is complete: the source reads back as the pattern's own tokens |
| RobotsMatch.MatchMeansLayout | apps/mcp/src/crawler/robots.ts:40-47 | The matcher succeeds if and only if the pattern can be laid over the start of the path |
| RobotsMatch.PlainPatternIsPrefix | apps/mcp/src/crawler/robots.ts:25-37 | Without wildcards matching is the prefix relation |
| RobotsMatch.AnchoredPatternIsExact | apps/mcp/src/crawler/robots.ts:25-37 | With a final anchor it is equality |
| RobotsMatch.NothingAfterAnchor | apps/mcp/src/crawler/robots.ts:30-31 | A pattern with a literal after a dollar sign never matches |
| RobotsMatch.StandardExactly | apps/mcp/src/crawler/robots.ts:25-37 | The matcher agrees on every path with the standard one, in which only a final dollar sign anchors, if and only if the pattern has no dollar sign before its last character |
| RobotsMatch.EarlyAnchorCounterexamples | apps/mcp/src/crawler/robots.ts:30-31 | The rule /$a does not match the path /$a, and the rule /$$ matches the path / that it should not |
| RobotsMatch.LongestMatch | apps/mcp/src/crawler/robots.ts:40-47 | The length-skipping scan returns the true maximum |
| RobotsMatch.IsAllowed | apps/mcp/src/crawler/robots.ts:108-115 | The program's test is the specified verdict |
| RobotsMatch.MostSpecificRuleWins | apps/mcp/src/crawler/robots.ts:108-115 | A path is refused if and only if a matching Disallow rule is longer than every matching Allow rule |
| RobotsMatch.RulesAreMonotone | apps/mcp/src/crawler/robots.ts:108-115 | Adding Allow never forbids, adding Disallow never permits |
| RobotsMatch.OrderIrrelevant | apps/mcp/src/crawler/robots.ts:40-47 | The order and repetition of rules do not matter |
| RobotsParse.ParseRobots | apps/mcp/src/crawler/robots.ts:59-107 | The line loop computes the specified groups, selection and crawl delay |
| RobotsParse.PrintedFileReadsBack | apps/mcp/src/crawler/robots.ts:59-102 | Reading a printed file gives each agent the rules of all its blocks, concatenated in file order |
| RobotsParse.PrintedFileObeyed | apps/mcp/src/crawler/robots.ts:104-115 | The crawler obeys its own blocks, else those for everybody, else nothing |
| RobotsFiles.DressedLineReads | apps/mcp/src/crawler/robots.ts:50-90 | With white space anywhere around its field and its value and a comment behind them, a line reads as the field, lower-cased, and the value |
| RobotsFiles.WrittenParsesSame | apps/mcp/src/crawler/robots.ts:59-102 | A file whose lines are dressed in this way, in any case of letters in the field, and mixed with blank and comment lines without a colon parses as the plain file |
| RobotsFiles.WrittenFileObeyed | apps/mcp/src/crawler/robots.ts:50-115 | So the crawler obeys its own blocks of it, else those for everybody, else nothing |
| RobotsLines.UnknownLineIgnored | apps/mcp/src/crawler/robots.ts:1-7 | For every continuation of the file the crawler obeys the same rules with and without an unknown line, if and only if the line has no colon, is not directly behind user-agent lines, or that run names no agent whose group the crawler may still select; otherwise some continuation turns a verdict around |
| RobotsLines.CommentFreesTheCrawler | apps/mcp/src/crawler/robots.ts:73-90 | A comment with a colon between two user-agent lines frees the crawler from the file's rules |
| RobotsParse.LinesOfJoin | apps/mcp/src/crawler/robots.ts:73-73 | Lines joined by either line end come apart again |
| Projects.CallsEndHonestly | packages/db/src/projects.ts:71-111 | The "no existing row" throw and the "nothing was changed" refusal are unreachable; a row is reported created by the call that inserted it and by no other; a reused row belongs to the site |
| Projects.OneRowPerSite | packages/db/src/projects.ts:71-153 | Every interleaving keeps one row per site if and only if the site has its row already or all hosts that the domain gate lets through as the site normalize to one spelling |
| Projects.ExistingRowReused | packages/db/src/projects.ts:125-153 | A site's existing row, `www.` or bare, is reused and never shadowed |
| Hostnames.TwinMeansDoubledLabel | packages/core/src/net/hostname.ts:97-117 | Two spellings arise only from a doubled `www.` label |
| Hostnames.TwinAccepted | packages/core/src/net/hostname.ts:46-67 | The domain gate lets the `www.` twin of a site through if and only if it lets the site through and the twin is at most 253 characters long |
| ProjectsRoute.Route.FindSameSiteProject | packages/db/src/projects.ts:143-153 | The canonical form is probed first, its twin only when absent |
| ProjectsRoute.Route.OpenTrackedProject | packages/db/src/projects.ts:71-111 | One call is one protocol run and ends as every run does; it succeeds with an active row of the site, and throws only after a statement that failed |
| IpText.Ipv4ToOctets | apps/mcp/src/crawler/ssrf.ts:49-60 | The loop reads four decimal octets or nothing |
| IpText.Ipv6ToBytes | apps/mcp/src/crawler/ssrf.ts:111-158 | The array-filling parser computes the specified sixteen bytes or nothing |
| IpText.CompressedReads | apps/mcp/src/crawler/ssrf.ts:111-158 | Every compressed spelling, any case, padding and dotted tail, reads back as its bytes |
| IpText.AddressRoundTrip | apps/mcp/src/crawler/ssrf.ts:106-158 | Every address printed with any elided zero run and either tail reads back as itself |
| IpText.FullRoundTrip | apps/mcp/src/crawler/ssrf.ts:106-158 | So does every address printed in full |
| IpText.ParserIsGrammar | apps/mcp/src/crawler/ssrf.ts:106-158 | Without a zone, a text is read as given bytes if and only if it spells them: full or with one `::`, a dotted quad at most at the end of a segment |
| IpText.ZoneIgnored | apps/mcp/src/crawler/ssrf.ts:112-114 | A zone is dropped |
| IpClass.MaskIsInterval | apps/mcp/src/crawler/ssrf.ts:70-104 | The mask test is integer interval membership, for every prefix |
| IpClass.BlockedIpv4IsRanges | apps/mcp/src/crawler/ssrf.ts:81-104 | An IPv4 address is blocked if and only if it lies in a listed range |
| IpRanges.InternalExactly | apps/mcp/src/crawler/ssrf.ts:81-104 | The private, loopback, link-local, shared, multicast and reserved ranges in octets: an IPv4 address is blocked if and only if it is in one |
| IpClass.InV6Cidr | apps/mcp/src/crawler/ssrf.ts:175-182 | The byte scan decides the specified test |
| IpClass.CidrIsInterval | apps/mcp/src/crawler/ssrf.ts:175-182 | That test is integer interval membership, for every width and prefix |
| IpClass.Ipv6Verdict | apps/mcp/src/crawler/ssrf.ts:196-234 | An address that carries an IPv4 address gets its verdict; any other is blocked if and only if outside 2000::/3 or in a reserved range |
| IpRanges.ReservedExactly | apps/mcp/src/crawler/ssrf.ts:160-182 | The reserved IPv6 ranges in bytes: the scan finds an address if and only if it is in one |
| IpRanges.VerdictInBytes | apps/mcp/src/crawler/ssrf.ts:196-234 | The verdict on every IPv6 address in its bytes, the IPv4 addresses it may carry included |
| IpClass.OneEntryIsDead | apps/mcp/src/crawler/ssrf.ts:161-172 | The entry 5f00::/16 lies outside 2000::/3 and never decides |
| Calendar.FieldsReadBack | apps/mcp/src/dfs/backlink-changes.ts:175-180 | The date constructor and the field readers are inverse |
| Calendar.MonthsBackLands | apps/mcp/src/dfs/backlink-changes.ts:160-180 | Months back land exactly that many months earlier, on the same day or the month's last, for every date outside the years 0 to 99, which Date.UTC moves |
| Calendar.StartLands | apps/mcp/src/dfs/backlink-changes.ts:192-209 | A span of days ends with and counts the end date, a week is seven days, and months and years go back to the same day of the month or its last |
| Calendar.MidnightIsDay | apps/mcp/src/dfs/backlink-changes.ts:197-200 | A date put together from its own fields is that date if and only if its year is not one of 0 to 99 |
| Calendar.StartNeverLater | apps/mcp/src/dfs/backlink-changes.ts:192-209 | More periods never start the window later |
| Calendar.TextOrder | apps/mcp/src/dfs/backlink-changes.ts:156-158 | Text order of dates is date order |
| Calendar.WindowStartIsClampedDate | apps/mcp/src/dfs/backlink-changes.ts:192-211 | For every end date, grouping and period count the text clamp is the date clamp if and only if the window starts before the year 10000 |
| Calendar.WindowNeverShrinks | apps/mcp/src/dfs/backlink-changes.ts:150-211 | Asking for more periods never makes the sent window start later, for every end date, unless it moves the start from beyond the year 9999 to before it |

## Left out

- Fetching, DNS, TLS, HTML and sitemap XML parsing, hashing, abort timers and wall clocks: outcome functions, reply fates and time parameters stand for them.
- URL parsing and `normalizeUrl` as a whole: an abstract function that is not assumed idempotent; only its trailing-slash step is modelled (`ExtraSeeds.StripSlash`), and supplied seeds start from the origin, path and query the URL parser makes of them.
- URL parsing and the Unicode folds inside `normalizeDomain`: a project call starts from the host name the URL parser gives, which is ASCII and has no white space. Lower-casing in robots.txt is ASCII only.
- Wording of refusals and log lines. Skip reasons keep in full what comes from outside (a redirect's address, a header, an error message); the sentences around it are shortened, and the seconds inside time-budget reasons are not kept.
- Crawl-delay sleeps and the progress callback of the crawl: they change no state the crawl decides on. The crawl delay itself is computed.
- The gates that run before a reserve (balance, paid balance, allowance): one verdict parameter of `WithCredits`. The allowance gate is modelled on its own.
- The fields of page records and their clamping: a record is a set of links and a size. Of a result, the skip reasons and the sitemap list are kept as text.
- Projection of vendor responses, their row counts in the spend table, and the single-request ports: instances of the modelled budget pattern with one request.
- The price table of the free allowance as literals: its prices are parameters, positive and each tool at its own.
- Floating-point rounding, NaN and infinities: sums are exact. Outside `LedgerAgreement` the spend column's rounding to micro-dollars is left out too.
- The copy of the token bucket in apps/web/lib/rate-limit.ts: the same algorithm as the modelled one.
- Rendering, prompts, server card, environment loading and generated types: no state.
- `node:net` family detection and the name gate of `checkPublicHost`: the model starts from text known to be IPv4 or IPv6.
- CrawlWaves.WaveAgainstSteps: compares waves only while the one-URL steps do not meet the queue cap, which a wave meets later because its own entries have left the queue.
- CrawlOrder.WavesAgainstSequential: assumes no clock cutoff, which falls between waves and not between URLs, and a sequential crawl that does not meet the queue cap.
- CrawlOrder.ConcurrencyOneIsSequential: assumes the same.
- CrawlDepth.BreadthFirst: says a walk is no shorter than the depth only while the queue cap never fired; after that, links are dropped and the code promises nothing.
- CreditProtocol.SettlementSafety: assumes that a call that errored has either been applied or never will be.
- FreeAllowance.UnchargedSpendBound: one account's calendar day; a call that is let through on one day and released on the next counts on the next.
- VendorBudget.BudgetSandwich: assumes that a request really costs at most its own estimate and that no day boundary falls inside the run; `OverrunEscapes` shows the first assumption is needed.
- LedgerAgreement.SameAnswersExactly: both ledgers have one cap, bookings are named by the order they were made in, amounts are finite, row counts are whole and endpoints are text a database can store; calls that fail outside the ledger are not compared.
- RateLimiter.WindowBound: assumes that capacity and refill rate are not negative.
- SingleFlight.StartsBound: counts reads that do not reject, assumes a positive time to live and a clock that never steps back; `RejectionsAreUnbounded` shows the first is needed.
- SingleFlight.ServedIsNewest: assumes the same clock; the age of a value is measured on it.
- Projects.OneRowPerSite: assumes that project rows are never deleted.
- IpText.ParserIsGrammar: the grammar is the parser's, a little wider than section 2.2 of RFC 4291: `::` may stand for no group, and a dotted quad may end the part before `::`; callers pass only text that the runtime takes for IPv6.
- Calendar.WindowStartIsClampedDate: day numbers are unbounded; the range of JavaScript dates, 100 million days either way, is not modelled.
