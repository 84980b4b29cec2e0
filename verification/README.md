# A verified model of the tgju price client

The repository reads price boards from tgju.org: it fetches a page with retries, parses its tables,
keeps a snapshot per market in a cache that collapses concurrent fetches, filters boards for a command
line and an HTTP API, and limits how often a client of that API may ask. This project models the parts
of it that carry state, concurrency or arithmetic, and proves what they promise.

`dafny verify dfyconfig.toml` checks everything.

## How it is organised

| file | what it holds |
|---|---|
| `CacheProtocol.dfy` | the cache as a transition system: calls, detached fetches, invalidations, one mutex, a monotone clock |
| `CacheInvariants.dfy` | the invariant of every reachable state, kept by a rely and guarantee argument |
| `CacheTheorems.dfy` | what holds of every run: collapsing, windows, freshness, the invalidation barrier, termination |
| `CacheLiveness.dfy` | that the goroutines, left alone, come to rest with every call answered |
| `CacheObject.dfy` | the cache as a class whose methods change the shared memory as the steps of the protocol do |
| `Limiter.dfy`, `LimiterLaws.dfy` | the token buckets as a class and as a value, and their exact meaning over histories |
| `LimiterAdvice.dfy`, `LimiterClients.dfy` | when the Retry-After header is good advice, and when clients do not show in each other's answers |
| `Dom.dfy`, `DomLaws.dfy` | the walks over a document, and what they find told without them: children, attributes, the words of a text |
| `Scrape.dfy`, `ScrapeLaws.dfy`, `ColumnOrder.dfy`, `SmallPage.dfy` | the table reader, what it takes from a page of the site, that the order of the columns does not matter, and a page for any caption |
| `Numfmt.dfy`, `Output.dfy`, `NumberLaws.dfy`, `Numerals.dfy` | the number normaliser, parser and printer, how they undo each other, and what a text denotes in any of the three scripts |
| `Board.dfy`, `BoardLaws.dfy`, `Filters.dfy`, `Interfaces.dfy` | snapshots and what their items say, their flattening, the two filters, and when they agree |
| `SitePage.dfy` | a page as the site renders it, and that reading it gives back the board that was rendered |
| `Retry.dfy` | the retry loop and its pauses |
| `FetchAll.dfy` | the concurrent join of several boards, and the lookup of one instrument |
| `Strings.dfy`, `Sums.dfy`, `Wrappers.dfy` | the library functions on strings the program uses, sums, and options |

Code that changes state is a class or a method with a loop, proved against a function; what the program
promises is proved about that function, in terms that do not use it. For the way from a page to a board that is
one theorem: any board, rendered as the site renders it, is read back (`SitePage.BoardComesBack`). The goroutines
of the cache and of `FetchAll` are steps of a transition system, and theorems quantify over every run, that is
over every interleaving. The limiter does each request under one lock, so its runs are sequences of requests.

## What the proofs found

The code is modelled as it is. Where it does not do what is said of it, the exact condition is proved.

- *One fetch per time to live.* `client.go:119-121` promises at most one fetch per market per time to live.
  Two things break it besides an invalidation, which is meant to. `do` asks twice in a pass whether the entry
  is settled (`cache.go:56` and `cache.go:59`); if the channel is closed between the two looks, the caller
  replaces an entry that has just become fresh. And a failure is remembered for two seconds only
  (`cache.go:84-88`). `TwoLooksBreakTheWindow` and `FailuresBreakTheTtl` give the runs. Between invalidations
  the promise holds exactly as long as no registration replaces an entry that has not expired and whose close
  it straddled, and none replaces a failure before the time to live has passed (`OnePerTtlIff`); what the code
  means, two seconds after a failure, holds exactly as long as the first does not happen (`OnePerWindowIff`).
  A pass that looked once would never straddle (`SingleLookNeverStraddles`). Collapsing survives either way.
- *Sweeping.* Deleting idle buckets goes unnoticed exactly when a bucket fills within ten minutes,
  `rate * 600 >= burst`. On the same configurations, and no others, the limiter refuses exactly the requests it
  should, no window is ever overdrawn, and no client shows in another's answers. Otherwise a client gets a
  second burst early, unless another one asks at the wrong moment.
- *Retry-After.* The header truncates `1/rate`. Coming back then or later, whatever other clients ask
  meanwhile, is enough exactly when the rate is at least one, or its period is a whole number of seconds, or
  the header is at least twenty minutes, after which the client's bucket has been collected. Between ten and
  twenty minutes a request of another client can have the bucket kept (`RefusedAfterOther`).
- *Cleaning and value.* `Value` honours a sign only at index 0, and `Clean` trims what is before it: the
  value changes exactly when leading white space hides a minus before a number that is not zero.
- *The sign of a change.* `snapshot.go:70-73` documents the percentage and the amount of a change as always
  positive. The percentage is negative exactly when the brackets of the cell start with a minus and hold a
  digit other than zero, and the amount likewise for its text; `ChangeMayBeNegative` gives a cell.
- *Backoff.* `RetryPolicy.MaxBackoff` is documented as a cap on the pause; the first pause is not capped.
  The pauses are the doubled ones exactly as long as no doubling leaves 64 bits. The pause after a doubling
  that overflows upwards is skipped, and a later one may last a few nanoseconds; the doubling of a
  negative pause that overflows downwards gives one that, without a cap, may last for centuries.
- *A body that breaks off* on a 200 is not retried, although a dropped connection is said to be.
- *The two filters* give the same categories of every board the program can build exactly when the category
  comes without white space around it, or no caption can be what is left of it.
- *The finish order* of `FetchAll` shows in its map exactly when no worker fails and two workers on a market
  that is listed twice get different boards.

## Model

| member | source | states |
|---|---|---|
| CacheProtocol.Window | cache.go:83-88 | a success is remembered for the time to live, a failure for that or two seconds, whichever is less |
| CacheInvariants.StepKeepsInv | cache.go:46-101 | every step of a call, a fetch, an invalidation or the clock keeps the invariant of entries, slots, lock and calls |
| CacheInvariants.StepGrows | cache.go:78-91 | no step changes a closed entry, takes back a stage of a fetch or turns the clock back |
| CacheInvariants.StepRely | cache.go:52-72 | a step of anyone else leaves a call where it is, and while the call holds the lock it leaves the table alone |
| CacheInvariants.OwnUnderLock | cache.go:53-60 | under the lock a call has the entry of the slot; a first look that misses has seen it open or expired |
| CacheInvariants.EntriesAfterRegister | cache.go:70-72 | a registration puts a new open entry in place of the last one, which is closed, and expired unless the close was straddled |
| CacheInvariants.EntriesAfterStage | cache.go:79-90 | a fetch that returns, publishes and closes leaves in its entry what it returned, with the expiry computed when it published |
| CacheInvariants.EntriesDropped | cache.go:119-133 | an invalidation keeps every entry as it is and takes those of the markets it covers out of the table, so that they are no longer current |
| CacheInvariants.RunInv | cache.go:46-133 | the invariant holds in every state of every run |
| CacheInvariants.RunGrows | cache.go:78-91 | over any stretch of a run entries only progress and closed ones stay as they are |
| CacheTheorems.FetchesAreCollapsed | cache.go:11-17 | in every reachable state the unsettled fetches of a market number at most one more than the invalidations that covered it |
| CacheTheorems.EarlierAreClosed | cache.go:59-71 | between two invalidations of its market, an entry is registered only once all earlier ones are closed |
| CacheTheorems.OnlySettledAreReplaced | cache.go:59-71 | what a step takes out of a slot, other than by invalidation, is settled, and what it puts there is new and unsettled |
| CacheTheorems.OneFetchPerWindow | cache.go:54-72 | two fetches of a market with neither an invalidation nor an early straddle between are a whole window apart, counted from the first's publication |
| CacheTheorems.SingleLookNeverStraddles | cache.go:56-59 | a pass that looked at the entry once would never straddle a close |
| CacheTheorems.OnePerWindowIff | cache.go:56-71 | at every point of every run the windows hold exactly when no step so far replaced an entry that had not expired and whose close it straddled |
| CacheTheorems.ApartIff | cache.go:54-72 | for any spans, the fetches of a market lie them apart at a point of a run exactly when no step so far replaced an entry within its span |
| CacheTheorems.ApartStep | cache.go:59-71 | a step brings two fetches too close exactly when it replaces an entry within its span |
| CacheTheorems.EarlyForTtl | cache.go:56-88 | a replacement within the time to live straddles a close early or replaces a failure |
| CacheTheorems.OnePerTtlIff | client.go:119-121 | at every point of every run, fetches between two invalidations lie the time to live apart exactly when no step so far replaced an unexpired entry over a straddled close or a failure before the time to live had passed |
| CacheTheorems.FailuresBreakTheTtl | cache.go:84-88 | for every time to live above two seconds there is a run without invalidation or straddle that fetches twice within it |
| CacheTheorems.TwoLooksBreakTheWindow | cache.go:56-71 | for every time to live and market there is a run without invalidation with two fetches in one window |
| CacheTheorems.InvalidationDrops | cache.go:119-133 | an invalidation that names no market empties the table, and one that names some leaves exactly the others in it; entries, fetches and calls stay as they are |
| CacheTheorems.InvalidationBarrier | cache.go:115-133 | after an invalidation that names the market or none, only the call that started an earlier fetch, or that had found its entry fresh before, answers from it; waiters and later calls do not |
| CacheTheorems.ResultStays | cache.go:93-98 | once a call leads or has a hit it takes the lock no more, and keeps its entry or gives up |
| CacheTheorems.CachedAnswersAreFresh | cache.go:56-58 | a cached answer was published by a fetch of that market, looked up later and less than its window after that |
| CacheTheorems.FreshAnswersAreOwn | cache.go:93-96 | any other answer is the outcome of a fetch of that market started by the same call |
| CacheTheorems.ClosedIsPublished | cache.go:79-90 | a closed entry holds what its own goroutine published: for its market, and never a caller's cancellation |
| CacheTheorems.FieldsAreWrittenOnce | cache.go:82-90 | the fields of an entry change in one step only, its own publication, and that is before its channel closes |
| CacheTheorems.OnlyTheCancelledGiveUp | cache.go:65-98 | a call goes without an answer only after its own caller has cancelled |
| CacheTheorems.CancelledMayLeave | cache.go:42-45 | a cancelled call that waits may leave at once, and its leaving changes nothing for any other call, entry or fetch |
| CacheTheorems.WaitersTerminate | cache.go:52-66 | a call waits for an entry at most once, and with k entries of its market takes the lock at most k + 1 times |
| CacheTheorems.CallsTakeFewSteps | cache.go:46-101 | with k entries registered for its market, a call has taken at most 4k + 6 steps of its own |
| CacheTheorems.NoDeadlock | cache.go:52-98 | while a call is unanswered, some goroutine can take a step |
| CacheLiveness.StepLeavesLess | cache.go:46-101 | every step of a call or a fetch lowers a bound on the steps left, whatever the others do |
| CacheLiveness.ProgressIsBounded | cache.go:46-101 | without new calls, cancellations, invalidations and ticks, the steps from a reachable state are at most that bound |
| CacheLiveness.RestIsAnswered | cache.go:93-98 | when no goroutine can take a step, every call is answered |
| CacheLiveness.EveryCallCanBeAnswered | cache.go:39-45 | every run can be continued by its goroutines alone until every call is answered |
| CacheObject.Cache.constructor | cache.go:32-34 | a new cache is empty |
| CacheObject.Cache.Lookup | cache.go:53-72 | a pass under the lock reuses, waits or registers, and changes the memory, as the specified pass does, whether or not the channel is closed between its looks |
| CacheObject.Cache.Register | cache.go:70-71 | the slot of the market is given a new open entry, and nothing else changes |
| CacheObject.Cache.Publish | cache.go:82-88 | the entry holds the snapshot, the error and its expiry, and nothing else changes |
| CacheObject.Cache.Close | cache.go:90 | the channel of the entry is closed, and nothing else changes |
| CacheObject.Cache.Invalidate | cache.go:119-133 | the table is empty when no market is named, and otherwise the named markets, and no others, are gone from it |
| CacheObject.PassIsPath | cache.go:53-72 | a pass of the object does to the memory, and decides, what a run of protocol steps does and decides |
| Limiter.RateLimiter.constructor | server/middleware.go:281-289 | a new limiter knows no client |
| Limiter.RateLimiter.AllowRequest | server/middleware.go:292-313 | the verdict, every bucket and the sweep time are those of the specified step |
| Limiter.RateLimiter.BucketOf | server/middleware.go:299-306 | a client's bucket is full the first time, refilled up to the burst afterwards, and seen now |
| Limiter.RateLimiter.SweepIdle | server/middleware.go:319-329 | once per interval exactly the buckets not seen for longer than it are gone |
| Limiter.RateLimiter.DeleteIdle | server/middleware.go:324-328 | the loop over the keys, in any order, keeps exactly the buckets that are not idle, unchanged |
| LimiterLaws.RetainedBucketsAreRecent | server/middleware.go:315-329 | after every request each bucket kept was seen less than twenty minutes ago |
| LimiterLaws.SweepsAreOnTime | server/middleware.go:319-329 | a request sweeps exactly when the last sweep is ten minutes or more behind, and then exactly the other clients not seen for longer than that are forgotten |
| LimiterLaws.RunsAlike | server/middleware.go:292-329 | if a bucket fills within the interval, the limiter gives every request of every run the verdict of one that forgets nobody |
| LimiterLaws.SweepIsInvisibleIff | server/middleware.go:315-329 | collecting idle buckets is invisible on all runs exactly when rate * 600 >= burst |
| LimiterLaws.SweepIsVisible | server/middleware.go:315-329 | after two bursts more than the interval and less than a filling apart, the last request is admitted, and a limiter that forgets nobody refuses it |
| LimiterLaws.BothBurstsAdmitted | server/middleware.go:298-302 | a client whose bucket was collected gets a second burst in full |
| LimiterLaws.ExactLimiter | server/middleware.go:292-313 | if rate * 600 >= burst, a request is refused exactly when admitting it would put more than burst + rate * length into some window up to now, and then into one that starts with a request |
| LimiterLaws.IsExactIff | server/middleware.go:292-329 | the limiter refuses exactly those requests on every run exactly when rate * 600 >= burst |
| LimiterLaws.NoWindowIsOverdrawn | server/middleware.go:292-313 | if rate * 600 >= burst, no window of a run holds more admissions of a client than burst + rate * its length |
| LimiterLaws.NeverOverdrawnIff | server/middleware.go:292-329 | that bound holds for every window of every run exactly when rate * 600 >= burst |
| LimiterLaws.RefusedIffExhausted | server/middleware.go:304-312 | in a limiter that never sweeps, a request is refused exactly when some window up to it has no admission left, on every configuration |
| LimiterAdvice.RetryAfterSufficesIff | server/middleware.go:335 | for every rate and burst, coming back after the header's seconds or later, whatever other clients ask meanwhile, admits every refused client exactly when the rate is at least one, or its period whole, or the header at least twice the sweep interval |
| LimiterAdvice.RetryAfterIs | server/middleware.go:335 | the header says one second at a rate of one or more, and otherwise the largest whole number not above the period |
| LimiterAdvice.AlwaysComesBackIff | server/middleware.go:292-329 | any wait suffices exactly when a token flows in during it or it is at least twice the interval |
| LimiterAdvice.OthersLeave | server/middleware.go:299-328 | requests of other clients leave a bucket as it is or have it collected |
| LimiterAdvice.RefusedAfterOther | server/middleware.go:319-335 | rate 2/1401, burst 1: a client told to wait 700 seconds is refused after them, because another asked at 600 |
| LimiterClients.AreIsolatedIff | server/middleware.go:292-329 | every client is answered on every run as if it were alone exactly when rate * 600 >= burst |
| LimiterClients.ApartWithoutSweep | server/middleware.go:299-312 | a limiter that never sweeps answers every client as if it were alone |
| LimiterClients.OtherClientShows | server/middleware.go:319-329 | a run whose last request is refused because another client postponed a sweep |
| LimiterLaws.RunIsSound | server/middleware.go:292-329 | on every run no bucket of the sweeping limiter is overdrawn |
| Numfmt.RewriteDigits | internal/numfmt/numfmt.go:25-46 | the loop rewrites the digits of both scripts and the decimal separator, drops invisible runes and keeps the rest in order |
| Numfmt.DigitsArePlain | internal/numfmt/numfmt.go:22-46 | no Persian or Arabic-Indic digit and no invisible rune survives |
| Numfmt.CleanIsNormal | internal/numfmt/numfmt.go:48-52 | a cleaned cell has plain runes and no leading, trailing or doubled white space |
| Numfmt.CleanFixes | internal/numfmt/numfmt.go:48-52 | cleaning leaves exactly the normal texts alone, so it is idempotent and equals cleaning after rewriting |
| Numerals.DigitsOfRune | internal/numfmt/numfmt.go:20-46 | the ten digits of both scripts become their ASCII digits, the Arabic point a point, the six invisible runes nothing, and any other rune stays |
| Numerals.DigitsConcat | internal/numfmt/numfmt.go:31-45 | texts are rewritten rune by rune: the rewriting of two texts one after the other is that of the first and that of the second |
| Numerals.DigitsOfScript | internal/numfmt/numfmt.go:22-24 | any plain text written in Persian or Arabic-Indic digits is rewritten to that text |
| Numfmt.ScanNumber | internal/numfmt/numfmt.go:63-79 | the loop keeps the digits, the first point and a sign at the front |
| Numfmt.ReadValue | internal/numfmt/numfmt.go:60-88 | the value read is the exact decimal of the collected text, and there is none without a digit |
| NumberLaws.ReadsWhateverHasADigit | internal/numfmt/numfmt.go:54-88 | a text is read as a number exactly when it has a digit, and the float parser is handed a grammatical decimal |
| Numerals.ValueIs | internal/numfmt/numfmt.go:54-88 | the value of any text is all its digits, with the point before those behind its first point, and negated if a minus comes first; nothing else in it matters |
| Numerals.OnlyDigitsKeeps | internal/numfmt/numfmt.go:66-76 | the digits of a text are its ASCII digits, all of them and in order |
| Numerals.DigitsAreTen | internal/numfmt/numfmt.go:68 | the digits are ten, and each denotes its place among them |
| Numerals.WholeConcat | internal/numfmt/numfmt.go:83 | digits put behind others shift those to the left |
| Numerals.FractionIs | internal/numfmt/numfmt.go:83 | a fraction is its digits, with the point moved behind them |
| Numerals.ReadInScript | internal/numfmt/numfmt.go:54-88 | a decimal printed with or without separators, in any of the three scripts, is read back as the same text and the same number |
| Numerals.AnySeparator | internal/numfmt/numfmt.go:58-59 | the groups of a decimal may be separated by any rune that is neither digit nor point |
| NumberLaws.CleanKeepsValueIff | internal/numfmt/numfmt.go:48-88 | cleaning keeps the value exactly when no minus hides behind leading white space before a number that is not zero |
| NumberLaws.LeadingSpaceHidesMinus | internal/numfmt/numfmt.go:74 | a text whose value changes when it is cleaned |
| Output.PrintWhole | cmd/tgju/output.go:78-86 | the loop writes the whole part in groups of three |
| Output.PrintGrouped | cmd/tgju/output.go:71-94 | the sign, the grouped whole part and the fraction are written |
| Output.WrittenIsGrouped | cmd/tgju/output.go:79-84 | a separator wherever a multiple of three digits remains gives the groups counted from the right |
| Output.GroupsAreThrees | cmd/tgju/output.go:79-84 | the groups join to the whole part; the first has one to three digits and every other exactly three |
| NumberLaws.PrintThenParse | cmd/tgju/output.go:71-94 | a printed decimal, signed or fractional, is read back as the same text and the same number |
| NumberLaws.GroupIsInjective | cmd/tgju/output.go:71-94 | decimals that print alike are written alike |
| NumberLaws.ChangeRoundTrip | internal/numfmt/numfmt.go:90-110 | a change cell made of a percentage and a grouped amount is split and read back exactly, text and values |
| NumberLaws.ChangeInBrackets | internal/numfmt/numfmt.go:102-107 | a cell with brackets is split into the number in them, or zero without one, and the trimmed text after them |
| NumberLaws.ChangeWithoutBrackets | internal/numfmt/numfmt.go:95-109 | a cell without brackets, or with one that is not closed, is an amount with no percentage |
| Numerals.ChangeInScript | internal/numfmt/numfmt.go:90-110 | a change cell in any of the three scripts is split into its percentage and its amount in ASCII |
| NumberLaws.ValueIsNegativeIff | internal/numfmt/numfmt.go:58-88 | a text is read as a negative number exactly when it starts with a minus and has a digit other than zero |
| NumberLaws.PercentIsNegativeIff | snapshot.go:70-71 | the percentage of a cell, documented as positive, is negative exactly when its brackets hold a minus in front of a number that is not zero |
| NumberLaws.AmountIsNegativeIff | snapshot.go:72-73 | the amount of a cell, documented as positive, is negative exactly when its trimmed text is a minus in front of a number that is not zero |
| NumberLaws.ChangeMayBeNegative | snapshot.go:70-73 | a cell whose percentage and amount are both read as negative |
| Dom.Find | internal/dom/dom.go:52-63 | the stopping walk finds the first hit of the recursive search |
| Dom.Walk | internal/dom/dom.go:160-172 | the walk stops exactly when it has found something, on every finite tree |
| Dom.FindAll | internal/dom/dom.go:65-83 | the loops collect the hits with no hit above them |
| Dom.Children | internal/dom/dom.go:85-97 | the element children that match, in order |
| Dom.ReadText | internal/dom/dom.go:128-158 | the words of all text below, element boundaries counting as blanks, joined by single blanks |
| DomLaws.TextIsItsData | internal/dom/dom.go:128-158 | blanks aside, the text of a node is the data of all text nodes below it, in document order |
| DomLaws.ElementsKeepApart | internal/dom/dom.go:131-133 | the words of an element are kept apart from those before it and those after it |
| DomLaws.TextsRunTogether | internal/dom/dom.go:141-144 | text nodes that meet run together |
| DomLaws.CommentsDoNotShow | internal/dom/dom.go:145-153 | a node that is neither element nor text, such as a comment, changes no text |
| DomLaws.KidsAreSelected | internal/dom/dom.go:85-97 | the children found are the siblings from the first child on, restricted to matching elements |
| DomLaws.SiblingsFollow | internal/dom/dom.go:91 | those siblings follow each other's links from the first child to the last |
| DomLaws.ChainOfSiblings | internal/dom/dom.go:91 | linking those siblings again gives the chain they came from |
| DomLaws.AttrIsFirst | internal/dom/dom.go:99-110 | an attribute is the first of its name |
| DomLaws.NoneOfName | internal/dom/dom.go:109 | an attribute that is not there is empty |
| Dom.FindAllIsTopHits | internal/dom/dom.go:65-83 | the nodes found are the document order restricted to hits with no hit between them and the start |
| Dom.FindAllHasNoRepeats | internal/dom/dom.go:65-83 | no node is found twice, and exactly the topmost hits are found |
| Dom.FindIsFirst | internal/dom/dom.go:52-63 | the node found is the first hit in document order, and the first of those found by the collecting search |
| Scrape.ParseHead | internal/scrape/scrape.go:126-160 | caption and layout come from the header cells; the historical layout when fewer than three captions are recognised |
| Scrape.ScanHead | internal/scrape/scrape.go:145-155 | each caption sets the column of its first keyword to its index |
| Scrape.StatusOf | internal/scrape/scrape.go:216-226 | the first class token of the cell's spans that names a direction |
| Scrape.ParseRow | internal/scrape/scrape.go:162-210 | a line gives the specified row, or none if it has no cells, no slug or no title |
| Scrape.ParseTable | internal/scrape/scrape.go:109-121 | a table has its caption and the rows of all its bodies in order |
| Scrape.Tables | internal/scrape/scrape.go:59-75 | every market table of the page in order, empty ones included, and an error exactly when there is none |
| ScrapeLaws.MarketTables | internal/scrape/scrape.go:65-80 | the market tables are the elements named table with the word market-table among their classes |
| ScrapeLaws.HeaderIs | internal/scrape/scrape.go:126-141 | the header cells are those of the first line of the first header section, and the caption is the cleaned text of the first |
| ScrapeLaws.CaptionAnnounces | internal/scrape/scrape.go:98-107 | which of the site's words in a caption decides what column it announces, for every caption |
| ScrapeLaws.ScanIsLast | internal/scrape/scrape.go:145-156 | for any captions, ambiguous ones too, a column is where it is announced last, and every caption that announces one counts |
| ScrapeLaws.SiteLayout | internal/scrape/scrape.go:82-107 | the layouts of the site's own header and of one with the low and the high the other way round |
| ScrapeLaws.PositionsWithoutHeader | internal/scrape/scrape.go:90-92 | without header cells, or with fewer than three captions recognised, the columns are the first five in their historical order |
| ScrapeLaws.RowIdentity | internal/scrape/scrape.go:162-210 | which lines are prices, and where the title, the slug and the link of one come from |
| ScrapeLaws.RowsAreOfLines | internal/scrape/scrape.go:112-119 | the row of any line of any body stands between those of the lines and bodies before it and after it |
| ScrapeLaws.StatusIsFirst | internal/scrape/scrape.go:212-226 | the direction is the first low or high among the class tokens of the cell's spans, in order |
| ScrapeLaws.StatusIsNone | internal/scrape/scrape.go:226 | a cell has no direction if no span names one |
| ScrapeLaws.SlugOfLink | internal/scrape/scrape.go:228-241 | the slug of a link is what stands behind its last slash and before its query or fragment, a final slash and white space aside |
| ColumnOrder.ScanPlaces | internal/scrape/scrape.go:143-155 | unless captions compete for a column, each known column stands where its caption is, and no other |
| ColumnOrder.HeadMoved | internal/scrape/scrape.go:126-160 | rearranging the header cells rearranges the layout alike and keeps the caption |
| ColumnOrder.FieldsComeFromTheirColumns | internal/scrape/scrape.go:145-199 | each field of a row is the cleaned text of the cell below its caption, with the price's fallback and the direction from the change cell |
| ColumnOrder.RowMoved | internal/scrape/scrape.go:175-199 | a line with rearranged cells, read with the rearranged layout, is the same row |
| ColumnOrder.RowlessAlways | internal/scrape/scrape.go:201-209 | whether a line gives a row does not depend on the layout |
| ColumnOrder.ColumnOrderIsIrrelevant | internal/scrape/scrape.go:82-107 | for every table of caption words: if three columns are recognised and none twice, rearranging the data columns alike in header and rows, the last fixed, changes no row, whatever becomes of lines that give none |
| Board.SnapshotFrom | convert.go:15-34 | one category per table with rows, in page order, its items converted from its rows under its caption |
| BoardLaws.NoRowIsLost | convert.go:23-32 | each table that has rows becomes the category at its place among those, under its caption and with one item for each row |
| BoardLaws.AmountsComeFromTheirColumns | convert.go:44-46 | price, low and high of an item are the amounts whose text stands below the captions that announce them, in a readable table of any column order; without a digit they are empty |
| BoardLaws.MovesComeFromTheirColumn | convert.go:47-51 | an item fell or rose exactly if the cell below the caption of the change says low or high, and a percentage and a grouped amount in that cell come back as numbers |
| BoardLaws.IdentityOfRow | convert.go:40-43 | key, title and time of an item are those of its row, market and category those of its board and table |
| BoardLaws.LinkOfRow | convert.go:80-97 | a link with its own scheme stays, one without is given one, and any other hangs below the base address |
| SitePage.TableIsRead | internal/scrape/scrape.go:109-210 | a table with any texts in the site's markup is read as its caption and its lines, cleaned, in order |
| SitePage.BoardComesBack | convert.go:11-34 | for all sections, listings and scripts: the board of the page that renders them has each section with listings as a category at its place, with every key, title, number, direction, time and link as rendered |
| SitePage.OwnHeads | internal/scrape/scrape.go:98-107 | the site's own captions are ones that theorem is about |
| Board.Collect | snapshot.go:180-186 | all items in page order |
| Board.Len | snapshot.go:152-159 | as many as there are items |
| BoardLaws.FlattenAt | snapshot.go:161-173 | item k of category i stands behind all items of the categories before it and k of its own |
| Board.LookupItem | snapshot.go:198-205 | the first item with the key, across categories |
| Board.FirstWithKeyMeaning | snapshot.go:197-205 | an item with the key at the least position, and none exactly when no item has it |
| Strings.SplitJoin | cmd/tgju/serve.go:107 | the pieces between separators hold none, and put together with separators they are the text |
| Strings.TrimSpaceIs | cmd/tgju/serve.go:108 | trimming takes away the white space around a text and nothing else |
| Strings.SpaceRunes | internal/numfmt/numfmt.go:51 | which runes are white space |
| Strings.FieldsAround | internal/numfmt/numfmt.go:51 | the words around white space are those before it and those after it |
| Filters.SplitCSV | cmd/tgju/serve.go:105-113 | the parts between commas, trimmed, empty ones dropped, in order |
| Filters.SplitKeys | server/handlers.go:208-219 | the set of those same parts |
| Filters.KeysComeBack | cmd/tgju/serve.go:105-113 | keys joined with commas, with any blanks around them, come back as those keys, and blank pieces as nothing |
| Filters.FilterCategories | server/handlers.go:175-205 | the server's loops compute the specified filter of the trimmed category and the split keys |
| Filters.Filter | cmd/tgju/commands.go:222-253 | the command's loops compute the same filter of the category as given |
| Interfaces.AgreeIff | cmd/tgju/commands.go:220-253 | both give equal categories of every board built from tables the reader makes of some page exactly when the category is given trimmed, or what is left of it is no clean text |
| SmallPage.OneRowIsRead | internal/scrape/scrape.go:109-210 | for any clean caption, clean title and slug there is a page of which the reader makes a table with that caption and one row with them |
| Interfaces.TablesAreParsed | internal/scrape/scrape.go:141-209 | every table that is read has a clean caption, and rows with a key, a title, clean texts and a known direction |
| Filters.FlattenFiltered | server/handlers.go:170-205 | flattening the filtered board is keeping the wanted items of the flattened one, in page order |
| Filters.CategoriesSurvive | server/handlers.go:184-204 | the answer has exactly the categories asked for that have a wanted item, in order and under their captions; with keys given none is empty, and without it keeps all its items |
| Filters.BoardsAreLabelled | convert.go:23-32 | in every board built from tables each item carries the caption of its category |
| Filters.FilteredTwice | server/handlers.go:175-205 | filtering twice changes nothing |
| Retry.Get | transport.go:19-65 | tries at most MaxAttempts times and at least once, and that often as long as each failure is retryable and nothing ends the call; each try but the last a retryable failure; a body only from a complete last response; every failure counts the tries; every pause as specified |
| Retry.TryMeans | transport.go:69-106 | a try succeeds exactly on a complete 200 within the limit, and an oversized body is told from one that breaks off |
| Retry.TransientIff | transport.go:108-122 | which exchanges are tried again |
| Retry.BrokenBodyIsFinal | transport.go:98-121 | a fault that breaks off the body of a 200 is not tried again; the same fault without a response is, unless it wraps an oversized body |
| Retry.PausesAreExactIff | transport.go:28-37 | the pauses are B, then min(B * 2^(k-1), cap), exactly as long as no doubling leaves 64 bits |
| Retry.NoOverflowIff | transport.go:28-37 | up to which number of pauses that is, from the policy alone, negative pauses included |
| Retry.OverflowSkipsThePause | transport.go:33-36 | the pause after a doubling that overflows upwards is negative, so it is skipped |
| Retry.OverflowTurnsThePause | transport.go:33-36 | the pause after a doubling that overflows downwards is positive, or zero if the least integer was doubled |
| Retry.LongPauseAfterOverflow | transport.go:33-36 | a policy whose negative first pause becomes one of 2^63 - 2 nanoseconds |
| Retry.PauseAfterOverflow | transport.go:33-36 | a policy whose third pause, after an overflow, lasts four nanoseconds |
| Retry.CapHoldsIff | transport.go:28-37 | every pause is within the cap exactly when the first is |
| Retry.CappedWait | transport.go:28-37 | n pauses take at most the first and n - 1 times the cap |
| Retry.UncappedWait | transport.go:28-37 | without a cap, n pauses take 2^n - 1 times the first, or none if that is negative, while nothing overflows |
| FetchAll.AllOrNothing | client.go:76-113 | in every interleaving a map comes back exactly when every worker got its board, and then holds exactly the requested markets, each with a board fetched for it; otherwise exactly the errors come back |
| FetchAll.PresentInOrder | client.go:110-111 | the joined errors are in the order of the markets they belong to |
| FetchAll.StepCause | client.go:96-101 | a worker's cancellation of the others is always over an error that is not itself a cancellation, unless the caller cancelled |
| FetchAll.RootCauseIsReported | client.go:96-111 | unless the caller cancelled, the joined errors include one that is not a cancellation |
| FetchAll.FinishOrderIsIrrelevant | client.go:91-113 | workers with the same results return the same in whatever order they finish, if one failed or those on one market agree |
| FetchAll.FinishesLast | client.go:91-107 | for every worker there is a run in which it is the last to store its board, and that board is the one in the map |
| FetchAll.OrderFreeIff | client.go:91-113 | for all results some run comes to, the finish order does not show exactly when a worker failed or workers on one market got the same board |
| FetchAll.FinishOrderShows | client.go:104-106 | a market listed twice can come back with the one board its workers fetched, and with the other |
| FetchAll.WorkersAreBounded | client.go:91-108 | the workers of a call take at most three steps each |
| FetchAll.EveryCallCompletes | client.go:108 | every run can be continued by its workers alone until all of them are done |
| FetchAll.FindItem | client.go:122-141 | the item of the first listed market that has the key, and not found exactly when none has it |
| FetchAll.FindsAmong | client.go:126-140 | the item comes from the first of the markets named, or of coin, currency and gold when none is, whose board has the key, and is missing exactly when none has it |
| FetchAll.FindsNothing | client.go:123-132 | an empty key is missing without looking, and errors of the fetches come back as they are |
| FetchAll.BoardsAreThere | client.go:130-136 | the boards that come back for the requested markets are all there to look the key up in |
| FetchAll.ItemIsOrderFree | client.go:134-139 | the answer does not depend on the order in which the boards arrived, if a worker failed or those on one market agree |

## Left out

- The path of `do` that bypasses the cache when the time to live is not positive (`cache.go:47-50`): it calls fetch and nothing else.
- The loop of `do` as one method: it blocks on channels while others run, so its passes are the method `Lookup`, and the loop is the steps of the protocol.
- Clocks that go backwards, and a rate that is not positive or a burst below one in the laws of the limiter.
- Rounding and range of float64 in `ParseFloat`, `FormatFloat` and the token arithmetic: numbers are exact decimals and reals, so an out of range error of `ParseFloat` does not occur, and `group` starts from the decimal text.
- Invalid UTF-8: texts are sequences of code points, and positions in them count code points.
- `html.Parse`: the tree reader starts from an arbitrary finite tree of first child and next sibling links, with a tag's name in place of its atom. The nodes are values, as no function here changes one; an identity tells equal looking nodes apart.
- The difference between a nil and an empty slice or map.
- HTTP plumbing: routing, headers, CORS, request ids, access log, metrics, JSON and CSV output, graceful shutdown.
- The message texts of errors and their classification (`errors.go`, `server/render.go`): an error is the set of sentinels it wraps.
- `ParseMarket`, option setters, flag and environment parsing: finite tables and assignments.
- The deadline of a fetch is one of the outcomes a fetch may have, and the draining of a response body is not modelled.
- Retry.Get: the surroundings (responses, the context, whether it ends a pause) are given as functions of the try, and a pause takes no time of its own.
- FetchAll.AllOrNothing: `errors.Join` is modelled as the list of the errors that are there.
- SitePage.BoardComesBack: the rendered markup is that of the site without flags, help icons, tooltips and the `data-price` attribute; what those do to a text is stated for any page (`ElementsKeepApart`, `AmountsComeFromTheirColumns`).
