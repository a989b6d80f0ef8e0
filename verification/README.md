# BeeCrawl: a verified model

BeeCrawl is a web crawling and extraction service. This project models the parts of its API server
that are hard to get right and proves what they promise:

- **the crawl queue** (`Crawl*.dfy`): jobs and tasks in two Postgres tables, shared by any number
  of workers that claim tasks under 90-second leases, may crash, and may finish late or twice.
  `CrawlStatements` gives each statement or transaction as a function on the rows of one job;
  `CrawlStores` has a class with the two tables as mutable maps whose methods are proved against those
  functions; `CrawlMachine` runs the steps in any order; `CrawlInvariants`, `CrawlPreservation` and
  `CrawlSafety` prove an invariant of every reachable state; `CrawlHistory` proves what an earlier
  state fixes for every later one; `CrawlTheorems`, `CrawlWork`, `CrawlLeases` and `CrawlCompletion` state
  the guarantees; `CrawlContracts` and `CrawlAnswers` say column by column, with every number written out,
  what a step leaves in the tables and what each answer of the outside world leads to;
  `CrawlServices` shows that every call of a worker or client is one step of that machine;
- **reading results** (`Paging.dfy`, `Watcher.dfy`): the pages of a crawl, the loop that assembles
  them and the WebSocket watcher, over a store that other workers change between two queries;
- **the rate limiter** (`RateLimits.dfy`): a sliding window with lazy pruning and eviction, proved
  indistinguishable from a limiter that remembers everything;
- **robots.txt** (`RobotsPattern.dfy`, `RobotsRules.dfy`): wildcard patterns, the one-pass grouping
  of lines and the decision, against sections 2.2.1 to 2.2.3 of RFC 9309;
- **HTML to Markdown** (`Markdown.dfy`, `BlankLines.dfy`, `Text.dfy`, `WordText.dfy`,
  `MarkdownWords.dfy`, `ReadingWords.dfy`, `Paragraphs.dfy`): which characters of a document tree the
  renderer keeps, which words it keeps apart, and how blocks follow each other;
- **change tracking** (`JsonDiff.dfy`): the structural difference of two JSON values;
- **the scrape cache** (`ScrapeCache.dfy`): cached pages against freshly derived ones.

Code that updates rows, maps or buffers in place is a class or a method with a loop, proved against
a function; the promises are then lemmas about those functions or invariants of the class.

## Where the code and its promises differ

- A robots.txt pattern with stars and a final `$` is matched from the left without backing up, so
  `/*a$` misses `/aba`, which section 2.2.3 of RFC 9309 lets it match. The matcher accepts such a
  path exactly when no proper prefix of the path is an expansion of the pattern
  (`AnchoredPatternsMatchFirstAtEnd`, `AnchoredPatternsAgreeUnlessShorter`, `AnchoredStarCanMiss`), and
  it follows the standard on all paths exactly for the patterns without stars
  (`AnchoredPatternsAreExactWithoutStars`).
- A list is rendered from its `li` children alone; text beside them is lost
  (`LooseListTextIsLost`). `NothingIsLostExactlyWhen` gives the exact condition.
- Text without words is dropped together with its whitespace, and so is a block without words. Where
  nothing else stands between two letters, the words a reader sees apart run together:
  `<span>a</span> <span>b</span>` renders to `ab` (`SpaceBetweenInlinesIsLost`). For pages of blocks, inline
  containers, line breaks and text the Markdown has the words a reader sees exactly when there is no such
  place (`WordsAreKeptExactlyWhen`); with words in every block and no text directly behind another, it has
  the words of the texts, in order (`BlocksKeepWords`).
- Keys are not escaped in the path text of a JSON change, so the text does not always name a place:
  `{"a/b": 1, "a": {"b": 1}}` against `{"a/b": 2, "a": {"b": 2}}` gives two entries with the text
  `/a/b` (`TwoPlacesOneText`). Two paths have the same text exactly when they agree once their keys
  are cut at the slashes, the root counting as an empty key (`RenderedAlikeExactlyWhen`); with
  non-empty keys free of slashes no text repeats (`PlainKeysAreToldApart`).
- `try_acquire` reads the clock before it takes the lock, so times can decrease in lock order. Two
  calls that pass each other there can make the limiter refuse what the ideal limiter admits
  (`OvertakingBreaksTheWindow`), when an old admission is recorded behind a newer one, and can make it
  admit what the ideal limiter refuses (`OvertakingAdmitsTooMuch`), when a later reading already
  dropped an admission. An entry answers ideally to all limits and times exactly when its admissions
  were recorded in order (`AnswersAreIdealExactlyWhenSorted`), and after dropping some from a given
  time on exactly when the dropped ones are a minute old then
  (`AnswersAreIdealExactlyWhenDroppedAreOld`). Permit counting and the concurrency cap are exact
  whatever the clock says.
- A scrape with actions skips the cache lookup but stores its page under a key that ignores actions,
  so a later request without actions can be served the page as the actions left it
  (`PageOfActionsIsServed`).
- A worker whose lease has run out may still finish its task as long as nobody took it over, and
  taking over a lease raises `attempts` without looking at `max_retries`. Both are part of the model;
  the bounds on work and retries hold all the same.

## Model

| member | source | states |
|---|---|---|
| CrawlStatements.RetryDelayShape | apps/api/src/crawl.rs:949-952 | the back-off is defined exactly for attempts from one on (the power never overflows), never decreases, lies within 5 and 300 seconds and is 5, 10, 20, 40, 80, 160, 300, 300, ... |
| CrawlStatements.DistinctKeepsFirstOccurrences | apps/api/src/crawl.rs:187-194 | the batch loop keeps each URL once, in the order of first occurrences |
| CrawlStatements.FilterKeepsOrder | apps/api/src/crawl.rs:709-723 | the links handed to finish_success are the mapped ones the path filters allow, in their order and as often as they were mapped |
| CrawlContracts.NoPatternsAllow | apps/api/src/crawl.rs:860-877 | without patterns exactly the URLs that parse are allowed |
| CrawlContracts.OneMoreExclude | apps/api/src/crawl.rs:860-877 | one more exclude pattern forbids exactly what it matches, in the path or, if so configured, in the whole URL |
| CrawlContracts.OneMoreInclude | apps/api/src/crawl.rs:860-877 | the first include pattern allows only what it matches, every further one adds what it matches |
| CrawlContracts.CastsWrap | apps/api/src/crawl.rs:132-164 | the casts keep a number modulo the width, within the signed range, and so keep every number that fits |
| CrawlContracts.NormalizeAllIs | apps/api/src/crawl.rs:187-195 | a batch normalises exactly when each of its URLs does, one for one |
| CrawlContracts.AcceptedCrawlIsAsAsked | apps/api/src/crawl.rs:91-181 | a request whose numbers fit is accepted exactly when its URL normalises, its patterns compile, limit and concurrency are positive and its idempotency key is new; every column is as asked for, with one queued task and the expiry retention_days later |
| CrawlContracts.NewCrawlIsClaimableAtOnce | apps/api/src/crawl.rs:91-181 | the first task of a new crawl can be claimed at once |
| CrawlContracts.AcceptedBatchIsAsAsked | apps/api/src/crawl.rs:183-256 | a batch is accepted exactly when its URLs normalise to one to a thousand distinct ones and its concurrency is positive, and stored with a queued task per URL |
| CrawlContracts.ClaimIsExact | apps/api/src/crawl.rs:412-426 | the condition of the candidate query and every column a claim writes, the lease being 90,000,000 microseconds |
| CrawlContracts.BackOffIsTabled | apps/api/src/crawl.rs:949-952 | the back-off after attempts 1 to 6 is 5, 10, 20, 40, 80 and 160 seconds, and 300 after any further one |
| CrawlContracts.LinksStand | apps/api/src/crawl.rs:522-534 | after a finish every link has a row under its URL or dedup key, or the page limit is reached |
| CrawlContracts.LinksGoInOrder | apps/api/src/crawl.rs:522-534 | room below the page limit is given to the links in their order |
| CrawlContracts.AnswersAreStored | apps/api/src/crawl.rs:498-572 | what one finish under a current token stores, by filters, robots.txt verdict, scrape and mapping, column by column |
| CrawlAnswers.FinishStoresTheAnswer | apps/api/src/crawl.rs:613-774 | in every reachable state: an allowed page completes its row with that page and, where links are followed, gives every allowed mapped link a row unless the page limit is reached or the job cancelled; a disallowed one fails with blocked_by_policy and no result; a fetch or render failure or empty content with attempts left is queued again after its back-off, any other failure fails the row; the job is completed exactly when nothing is left; a claim that lost its task changes nothing |
| CrawlAnswers.CancelEndsTheCrawl | apps/api/src/crawl.rs:395-428 | a cancel makes a queued or scraping job cancelled at once and leaves its tasks; from then on, over any run, the job row and the claim history stay, nothing is claimable at any time, and only active tasks still finish |
| CrawlAnswers.CleanupTakesTheExpired | apps/api/src/crawl.rs:574-581 | a removed job was completed or cancelled and its expiry had passed; every other one stays as it is |
| CrawlStores.CrawlStore.Enqueue | apps/api/src/crawl.rs:91-181 | every refusal in the order of the code, including used idempotency keys and schema violations, leaves the tables as they were; otherwise one job and its first task are added under fresh ids |
| CrawlStores.CrawlStore.NormalizeBatch | apps/api/src/crawl.rs:187-195 | the loop fails on the first invalid URL and otherwise returns the distinct normalised URLs |
| CrawlStores.CrawlStore.InsertBatch | apps/api/src/crawl.rs:242-249 | one queued row per URL, the URL being its own dedup key |
| CrawlStores.CrawlStore.EnqueueBatch | apps/api/src/crawl.rs:183-256 | a refused batch changes nothing, an accepted one adds a job with page limit equal to its number of URLs |
| CrawlStores.CrawlStore.Candidate | apps/api/src/crawl.rs:412-412 | the candidate query answers None exactly when no task of any job is claimable, otherwise a claimable task no other claimable one precedes |
| CrawlStores.CrawlStore.ClaimTask | apps/api/src/crawl.rs:408-428 | a claim takes a task that may be claimed, the longest due and then oldest one, marks it active under a fresh token until 90 seconds from now, raises its attempts and touches its job; nothing else changes |
| CrawlStores.CrawlStore.InsertLink | apps/api/src/crawl.rs:522-534 | one insert below the page limit, skipped on a URL or dedup-key conflict within the job |
| CrawlStores.CrawlStore.InsertLinks | apps/api/src/crawl.rs:522-534 | the loop over discovered links inserts them one after the other |
| CrawlStores.CrawlStore.UpdateTask | apps/api/src/crawl.rs:512-521 | the update changes the row of the claim if it is still active under the token and says whether it did; otherwise it changes nothing |
| CrawlStores.CrawlStore.CompleteIfDrained | apps/api/src/crawl.rs:906-915 | an uncancelled job without queued or active tasks becomes completed, any other stays |
| CrawlStores.CrawlStore.FinishSuccess | apps/api/src/crawl.rs:498-538 | stores the result, inserts the links unless cancelled and completes a drained job, if the task is still active under the token; else nothing |
| CrawlStores.CrawlStore.FinishFailure | apps/api/src/crawl.rs:540-572 | requeues with back-off or fails the task under its token, then completes a drained job |
| CrawlStores.CrawlStore.Cancel | apps/api/src/crawl.rs:398-401 | only queued and scraping jobs are cancelled |
| CrawlStores.CrawlStore.CleanupExpired | apps/api/src/crawl.rs:574-581 | exactly the completed and cancelled jobs whose expiry has passed go, each with all its tasks |
| CrawlServices.CrawlService.constructor | apps/api/migrations/20260710070051_create_crawl_jobs.sql:1-35 | freshly created tables are empty and are the start of a run |
| CrawlServices.CrawlService.Enqueue | apps/api/src/crawl.rs:91-181 | is one Enqueue step of the queue machine; answers with the new id exactly when a crawl was added, otherwise with the error of the statement |
| CrawlServices.CrawlService.EnqueueBatch | apps/api/src/crawl.rs:183-256 | is one EnqueueBatch step, answered in the same way |
| CrawlServices.CrawlService.ClaimTask | apps/api/src/crawl.rs:408-428 | is one Claim step on a claimable task, with the columns it writes, or nothing is claimable and only time passes |
| CrawlServices.CrawlService.StartTask | apps/api/src/crawl.rs:619-622 | a worker reads the options of its job; a removed job is an error, a cancelled one ends the work |
| CrawlServices.CrawlService.FinishTask | apps/api/src/crawl.rs:636-744 | at any later time, whatever others did meanwhile, the worker takes one Finish step, which stores the answer it got as FinishStoresTheAnswer says if its claim still holds the task, and otherwise changes nothing |
| CrawlServices.CrawlService.ProcessTask | apps/api/src/crawl.rs:613-774 | a worker nobody interrupts does both: a removed job is an error, a cancelled one leaves everything, any other answer is stored |
| CrawlServices.CrawlService.Cancel | apps/api/src/crawl.rs:395-406 | is one Cancel step, after which a queued or scraping job is cancelled and any other as before, and answers with the status of the job and its first results as they stand then |
| CrawlServices.CrawlService.CleanupExpired | apps/api/src/crawl.rs:574-581 | is one Cleanup step that removes exactly the completed and cancelled jobs whose expiry has passed and returns their number |
| CrawlSafety.NextKeepsInv | apps/api/src/crawl.rs:408-581 | every step of every worker, client and clock keeps the invariant of every crawl |
| CrawlSafety.ReachableInv | apps/api/src/crawl.rs:91-581 | the invariant (frontier, row shapes, concurrency, agreement of rows with the claim history, back-off, budget, drain, pacing) holds after every run |
| CrawlHistory.RunIsLater | apps/api/src/crawl.rs:395-581 | over any run, finished rows, completed jobs and superseded tokens stay as they are, a cancelled job only winds down, and no task row is lost |
| CrawlHistory.RemovedForGood | apps/api/src/crawl.rs:574-581 | a removed crawl never comes back |
| CrawlTheorems.DrainDetectionIsExact | apps/api/src/crawl.rs:906-915 | in every reachable state an uncancelled job is completed exactly when no task is queued or active, and cancel_requested holds exactly when the status is cancelled |
| CrawlTheorems.CompletedIsFinal | apps/api/src/crawl.rs:395-581 | a completed crawl stays identical until cleanup removes job and tasks together, for good |
| CrawlTheorems.CancellationIsFinal | apps/api/src/crawl.rs:395-428 | after a cancel no run claims, requeues or inserts; the only task change left is from active to finished |
| CrawlTheorems.SupersededFinishHasNoEffect | apps/api/src/crawl.rs:498-572 | once a claim was followed by another or its task is over, every later finish with its token leaves both tables unchanged |
| CrawlTheorems.EffectiveFinishSupersedesItself | apps/api/src/crawl.rs:512-560 | a finish takes effect at most once |
| CrawlTheorems.ResultsAreWrittenOnce | apps/api/src/crawl.rs:512-517 | a task has a result exactly when completed, and a finished row never changes again |
| CrawlTheorems.WorkersKnowTheirJob | apps/api/src/crawl.rs:430-464 | the options a worker read and its place in the claim history stay true while it works |
| CrawlTheorems.FrontierHolds | apps/api/src/crawl.rs:522-534 | page limit, distinct URLs and dedup keys (the similar-URL key where asked for, else the URL), depth bounds (at most 1 for sitemap `only`, 0 in a batch) and path filters hold in every reachable state |
| CrawlTheorems.BatchNeverGrows | apps/api/src/crawl.rs:684-725 | the task set of a batch never changes after its enqueue |
| CrawlTheorems.RunningCrawlBecomesClaimable | apps/api/src/crawl.rs:408-428 | in every reachable state, more than 300 seconds and the start delay later a running crawl has a claimable task, whatever became of its workers |
| CrawlTheorems.ConcurrencyCapHolds | apps/api/src/crawl.rs:408-428 | unexpired leases never exceed max_concurrency |
| CrawlLeases.TakeoversWait | apps/api/src/crawl.rs:412-412 | over every run, a start that took a lease over comes more than 90,000,000 microseconds after every earlier start of its task |
| CrawlLeases.CurrentClaimIsSafe | apps/api/src/crawl.rs:412-412 | while a claim holds its task, nobody can claim that until more than 90 seconds after its start: a claim step then changes no crawl |
| CrawlTheorems.StartsAreSpaced | apps/api/src/crawl.rs:408-428 | in every reachable state the i-th and k-th task start of a job are at least (k - i) delays apart |
| CrawlTheorems.WindowsHoldFewStarts | apps/api/src/crawl.rs:408-428 | a window of length L holds at most L / delay + 1 starts |
| CrawlTheorems.RetriesBackOff | apps/api/src/crawl.rs:540-572 | the k-th start of a task from the queue comes no earlier than its first plus all back-offs between, also with lease takeovers, and there are at most max_retries + 1 |
| CrawlTheorems.CurrentAttemptsAreExact | apps/api/src/crawl.rs:540-572 | the attempts a worker holds are at least one, equal those of the row while its lease is current, and a queued task has retries left |
| CrawlTheorems.QueueStartsAreBounded | apps/api/src/crawl.rs:408-428 | a job takes tasks from the queue at most page_limit * (max_retries + 1) times, however its links form cycles |
| CrawlWork.WorkNeverGrows | apps/api/src/crawl.rs:408-572 | in every reachable state the work measure strictly drops with every claim from the queue and every effective finish, even one that inserts links, and never grows with any other step |
| CrawlWork.WorkBoundsProductiveSteps | apps/api/src/crawl.rs:408-572 | from any reachable state on, a run holds at most as many such steps of a job as the measure says |
| CrawlWork.TotalWorkIsBounded | apps/api/src/crawl.rs:91-572 | from its enqueue on, a crawl takes at most 2 * (max_retries + 1) * page_limit of them |
| CrawlWork.TotalBatchWorkIsBounded | apps/api/src/crawl.rs:183-572 | a batch takes at most 2 * (max_retries + 1) of them per URL |
| CrawlCompletion.RunningCrawlCanComplete | apps/api/src/crawl.rs:408-572 | from every reachable state, whatever its workers did and whatever the outside world answers from then on, a running crawl is done after a number of claim-and-finish rounds bounded by the work measure |
| Paging.RowOrdersExist | apps/api/src/crawl.rs:276-281 | every table can be listed by `finished_at`, so the row orders assumed elsewhere exist |
| Paging.TotalCountsListedRows | apps/api/src/crawl.rs:270-282 | the page total (completed plus failed) equals the number of listed rows, by the queue invariant |
| Paging.Get | apps/api/src/crawl.rs:258-323 | one page from three queries, in full: status, counts, the slice of listed rows split into pages and errors, offset, clamped limit, total and next offset |
| Paging.StatusIsExact | apps/api/src/crawl.rs:258-323 | a page holds the listed rows from its offset on, as many as its limit, which is clamped to 1 to 100; it counts tasks by status and names the next offset exactly when finished tasks are left |
| Paging.ListedByTheirEnd | apps/api/src/crawl.rs:276-276 | every listed task has ended, and they are listed from the first that ended to the last |
| Paging.PageOfTask | apps/api/src/crawl.rs:283-303 | every listed task stands once, at its place in the row order, its result in the data or its error, code and message defaulted, in the errors |
| Paging.EntriesCount | apps/api/src/crawl.rs:283-303 | data and errors together are as many as the listed tasks |
| Paging.CompleteStatus | apps/api/src/routes.rs:1270-1308 | the assembly loop ends although the store may change between any two of its queries, reads on exactly as long as a read finds the job and counts more, returns what its reads listed, in order, and on unchanged rows every page and every error in order |
| Watcher.SendNew | apps/api/src/routes.rs:1240-1252 | one poll sends exactly the pages whose request id was not sent before, in order, up to the first send that fails |
| Watcher.UnsentIsExact | apps/api/src/routes.rs:1240-1242 | a page is sent, in its place, exactly when neither the client nor an earlier page of the poll has its request id |
| Watcher.Watch | apps/api/src/routes.rs:1195-1261 | the client is told what the rounds have to say, in order, up to the first send that fails; with sends that work the rounds go on until one finds the job gone or over, or their number is used up; every delivered page is the stored result of a task of the job and no document repeats one; `done` is for a job that is over, and if that was completed and still there the client has every request id and no foreign page, and with distinct request ids it has exactly the stored pages |
| Watcher.TalkIsFramed | apps/api/src/routes.rs:1205-1257 | it begins with a catch-up on exactly the pages the first round assembled, or with the message that the job is missing; it ends with that message exactly when the last round found the job gone, and with `done` exactly when that found it over |
| Watcher.NewPagesAreTold | apps/api/src/routes.rs:1240-1252 | every page a later round assembled whose request id is new is sent as a document |
| Watcher.SeenResultsAreFinal | apps/api/src/crawl.rs:512-517 | a result that any query saw is still the result as long as the job is there |
| Watcher.CompletedJobIsUnchanged | apps/api/src/routes.rs:1229-1229 | between two queries that both find a completed job nothing about it changes |
| RateLimits.AcquireIsIdeal | apps/api/src/limits.rs:55-92 | pruning, eviction and decision give the verdict of a limiter that remembers the whole history, and keep agreeing with it |
| RateLimits.IdealVerdictIs | apps/api/src/limits.rs:72-84 | the verdict in numbers: concurrency limited exactly when the permits still held reach the cap, otherwise rate limited exactly when the admission requests_per_minute places from the end is less than 60,000,000,000 nanoseconds old |
| RateLimits.EvictionIsInvisible | apps/api/src/limits.rs:58-63 | a key that is evicted is as good as one never seen |
| RateLimits.OtherKeysUnaffected | apps/api/src/limits.rs:55-92 | an acquire on one key keeps the agreement of every other key |
| RateLimits.KeysAreIndependent | apps/api/src/limits.rs:64-92 | the verdict on a key depends on the events of that key alone |
| RateLimits.WindowsAreBounded | apps/api/src/limits.rs:65-85 | any admission is at least a minute after the one requests_per_minute places before it |
| RateLimits.RetryAfterSuffices | apps/api/src/limits.rs:75-84 | the answer r is the least sufficient number of seconds: it lies within 1 and 60, r seconds later, with no admission of the key between, it is not rate limited, and any fewer seconds later it is not admitted |
| RateLimits.OvertakingBreaksTheWindow | apps/api/src/limits.rs:56-57 | times that decrease in lock order can make the limiter refuse what the ideal one admits |
| RateLimits.OvertakingAdmitsTooMuch | apps/api/src/limits.rs:56-57 | they can also make it admit what the ideal one refuses |
| RateLimits.PruningIsIdealExactlyWhenSorted | apps/api/src/limits.rs:65-71 | pruning from the front leaves exactly the last minute, at all times, exactly when the recorded times are in order |
| RateLimits.AnswersAreIdealExactlyWhenSorted | apps/api/src/limits.rs:64-92 | an entry with all its admissions answers ideally to all limits and times exactly when they were recorded in order |
| RateLimits.AnswersAreIdealExactlyWhenDroppedAreOld | apps/api/src/limits.rs:64-92 | an entry that dropped admissions answers ideally from a time on exactly when the dropped ones are a minute old then |
| RateLimits.AcquireKeepsSound | apps/api/src/limits.rs:55-92 | for any clock reading permits stay counted and the cap is exact; with times in order the whole verdict is ideal |
| RateLimits.RateLimiter.constructor | apps/api/src/limits.rs:47-53 | both limits are raised to at least one |
| RateLimits.RateLimiter.TryAcquire | apps/api/src/limits.rs:55-92 | accepts any clock reading; exactly the entries without permits last seen 300 seconds ago or longer go; the cap is exact in any case, and while times are in order the answer is that of the ideal limiter on the history, which it joins |
| RateLimits.RateLimiter.Release | apps/api/src/limits.rs:95-104 | dropping a permit finds its entry with a positive count, so the subtraction never saturates |
| RateLimits.RateLimiter.ActiveIsOutstanding | apps/api/src/limits.rs:58-63 | whatever the clock said, `active` equals the outstanding permits of the key, so an entry with a live permit is never evicted |
| RobotsPattern.MatchPattern | apps/api/src/web_extract.rs:519-547 | the loop over the pieces, skipping empty ones, computes PatternMatch |
| RobotsPattern.MatchesWeighTheirText | apps/api/src/web_extract.rs:541-547 | a match counts the characters of the pattern without the stars and a final `$` |
| RobotsPattern.PlainPatternsArePrefixes | apps/api/src/web_extract.rs:519-547 | a pattern without stars and final `$` matches exactly the paths it begins, and counts for all its characters |
| RobotsPattern.OffsetIsShortest | apps/api/src/web_extract.rs:524-538 | taking each piece at its leftmost place finds the shortest prefix of the path that expands the pattern, if there is any |
| RobotsPattern.OpenPatternsAreExact | apps/api/src/web_extract.rs:519-547 | without a final `$` a pattern matches exactly when some expansion of its stars is a prefix of the path |
| RobotsPattern.AnchoredPatternsMatchFirstAtEnd | apps/api/src/web_extract.rs:538-540 | with a final `$` it matches exactly when the path is an expansion and no proper prefix of it is |
| RobotsPattern.AnchoredPatternsAgreeUnlessShorter | apps/api/src/web_extract.rs:538-540 | so it never matches wrongly, and misses exactly the paths with a shorter expansion in front |
| RobotsPattern.AnchoredStarFreeIsEquality | apps/api/src/web_extract.rs:519-541 | without stars a pattern with `$` matches exactly one path |
| RobotsPattern.AnchoredPatternsAreExactWithoutStars | apps/api/src/web_extract.rs:519-541 | a pattern with a final `$` is matched as the standard says on all paths exactly when it has no star |
| RobotsPattern.AnchoredStarCanMiss | apps/api/src/web_extract.rs:519-541 | `/*a$` misses `/aba` |
| RobotsRules.LineParses | apps/api/src/web_extract.rs:456-479 | what a line with a colon says, for every field, spacing, letter case and comment |
| RobotsRules.LineWithoutColon | apps/api/src/web_extract.rs:457-460 | a line without a colon in front of its comment says nothing |
| RobotsRules.CollectGroups | apps/api/src/web_extract.rs:450-484 | the one-pass loop computes Groups of the parsed lines |
| RobotsRules.GroupsLoseNothing | apps/api/src/web_extract.rs:455-484 | every user-agent value and every rule with a pattern behind the first one goes into one group, once and in order |
| RobotsRules.GroupsPairAsLinesDo | apps/api/src/web_extract.rs:463-484 | an agent and a rule share a group exactly when no user-agent line follows a rule line between their lines |
| RobotsRules.BestIsMostSpecific | apps/api/src/web_extract.rs:483-490 | the best length is the greatest among matching agents, and absent exactly when none matches |
| RobotsRules.AgentMatchIsContainment | apps/api/src/web_extract.rs:509-517 | the star names every agent with length zero, any other name exactly those that contain it, with its length in bytes |
| RobotsRules.DecisiveIsGreatest | apps/api/src/web_extract.rs:504-506 | the deciding rule is a matching one, longest, allow winning ties |
| RobotsRules.VerdictMeans | apps/api/src/web_extract.rs:483-507 | the verdict is allow exactly when every matching Disallow of a most specific group is answered by a matching Allow that is as long |
| RobotsRules.LongestTextDecides | apps/api/src/web_extract.rs:496-507 | of the selected rules that match, one with more text than every opposite one decides; when it allows, as much text will do |
| RobotsRules.TwoPlainRules | apps/api/src/web_extract.rs:496-507 | of two plain rules the one with the longer path decides, allow among equals, and one that does not match has no say |
| RobotsRules.GroupsDecideAsLinesDo | apps/api/src/web_extract.rs:450-507 | deciding on the groups is deciding on the lines themselves, without groups |
| RobotsRules.RobotsTextAllows | apps/api/src/web_extract.rs:450-507 | the whole function decides as the lines say |
| RobotsRules.GroupOrderIsIrrelevant | apps/api/src/web_extract.rs:496-507 | permuting groups never changes the verdict |
| RobotsRules.RuleOrderIsIrrelevant | apps/api/src/web_extract.rs:503-507 | permuting the rules of a group never changes the verdict |
| RobotsRules.AllowNeverForbids | apps/api/src/web_extract.rs:503-507 | one more Allow rule never turns allow into disallow |
| Text.SolidOfTrim | apps/api/src/web_extract.rs:1605-1605 | trimming removes whitespace only, and all text is gone exactly when there was none |
| Text.LinesOfJoin | apps/api/src/web_extract.rs:1643-1654 | splitting into lines undoes joining |
| Text.LinesOfReturn | apps/api/src/web_extract.rs:456-456 | a carriage return in front of a newline goes with it |
| Text.TrimIs | apps/api/src/web_extract.rs:1605-1605 | trimming takes whitespace off both ends until it meets other text |
| Text.AsciiLowerIs | apps/api/src/web_extract.rs:451-451 | A to Z become the letters 32 places on, everything else stays |
| Text.Utf8LengthIs | apps/api/src/web_extract.rs:513-513 | an ASCII text has as many bytes as characters, and each further character adds one to four |
| WordText.WordsOfConcat | apps/api/src/web_extract.rs:1636-1638 | the words of two texts together are those of both, the last and the first fused exactly when no whitespace is between them |
| WordText.WordsOfCollectText | apps/api/src/web_extract.rs:1636-1638 | collect_text keeps the words and leaves nothing to trim |
| BlankLines.CollapseBlankLines | apps/api/src/web_extract.rs:1640-1655 | the loop with its counter of blanks computes Collapse |
| BlankLines.CollapseKeepsText | apps/api/src/web_extract.rs:1640-1655 | collapsing keeps every non-whitespace character, in order |
| BlankLines.NoAdjacentBlankLines | apps/api/src/web_extract.rs:1640-1655 | no two adjacent lines of the result are blank |
| BlankLines.CollapseIsIdempotent | apps/api/src/web_extract.rs:1640-1655 | collapsing again changes nothing |
| WordText.CollapseKeepsWords | apps/api/src/web_extract.rs:1640-1655 | collapsing keeps the words |
| Markdown.Buffer.PushInlineText | apps/api/src/web_extract.rs:1588-1602 | the new buffer is InlineText of the old one |
| Markdown.Buffer.PushBlock | apps/api/src/web_extract.rs:1604-1617 | the popping loop and the pushes give Block of the old buffer |
| Markdown.SolidOfInlineText | apps/api/src/web_extract.rs:1588-1602 | pushing inline text keeps the buffer's characters and adds those of the text, whitespace aside |
| Markdown.SolidOfBlock | apps/api/src/web_extract.rs:1604-1617 | so does pushing a block |
| MarkdownWords.WordsOfInlineText | apps/api/src/web_extract.rs:1588-1602 | pushing text keeps the words on both sides and fuses the last with the first exactly when neither text has whitespace between them; text without words is dropped |
| MarkdownWords.WordsOfBlock | apps/api/src/web_extract.rs:1604-1617 | pushing a block keeps the words of both sides and never fuses any |
| Markdown.RenderNodeOnto | apps/api/src/web_extract.rs:1394-1412 | renders one node onto the shared buffer |
| Markdown.RenderElementOnto | apps/api/src/web_extract.rs:1413-1523 | each kind of element, its children on a buffer of their own |
| Markdown.RenderList | apps/api/src/web_extract.rs:1535-1558 | the numbered or bulleted lines of the li children |
| Markdown.AppendItem | apps/api/src/web_extract.rs:1542-1556 | the first line of an item behind its prefix, its other lines indented, blank ones left out |
| MarkdownWords.ItemBegins | apps/api/src/web_extract.rs:1542-1551 | an item has its prefix in front of its first line, and no lines without text |
| MarkdownWords.ContinuedIndents | apps/api/src/web_extract.rs:1552-1556 | every further line with text is indented by two spaces |
| MarkdownWords.FencesStandAlone | apps/api/src/web_extract.rs:1462-1467 | the fences of a code block stand on lines of their own around its lines |
| MarkdownWords.OnlyNewlinesGo | apps/api/src/web_extract.rs:1462-1467 | a code block is freed of the newlines around it and of nothing else |
| MarkdownWords.ItemCountIs | apps/api/src/web_extract.rs:1536-1541 | an item has the number of its place among the li children |
| Markdown.DecimalStandsFor | apps/api/src/web_extract.rs:1543-1544 | the digits in front of an item stand for that number |
| Markdown.RenderMarkdown | apps/api/src/web_extract.rs:1386-1392 | all children, then the blank lines collapsed |
| Markdown.NodeAddsMarks | apps/api/src/web_extract.rs:1394-1498 | whatever the buffer holds, rendering a node keeps it and adds exactly the node's own marked characters |
| Markdown.RenderingIsMarked | apps/api/src/web_extract.rs:1386-1498 | the characters of a rendering are the marked characters of the tree, each once and in order; everything else only moves whitespace |
| MarkdownWords.NodeAddsFlow | apps/api/src/web_extract.rs:1394-1498 | whatever the buffer holds, rendering a node adds the node's own text to it, as far as words go |
| MarkdownWords.RenderingFlows | apps/api/src/web_extract.rs:1386-1559 | the words of any rendering are those of the text the tree stands for, in order: blocks, headings, rules, items and quotes stand apart, marks and links close around their trimmed content, and text without words is left out with its whitespace |
| Markdown.RenderingKeepsText | apps/api/src/web_extract.rs:1386-1559 | the text the renderer takes is a subsequence of the Markdown |
| Markdown.NothingIsLostExactlyWhen | apps/api/src/web_extract.rs:1535-1559 | all visible text is taken exactly when none stands in a table, in a childless element or in a list outside its items |
| Markdown.RenderingKeepsDocument | apps/api/src/web_extract.rs:1386-1559 | so the visible text of every such document is in its Markdown, in order |
| Markdown.LooseListTextIsLost | apps/api/src/web_extract.rs:1535-1540 | text beside the items of a list does not reach the result |
| ReadingWords.WordsAreKeptExactlyWhen | apps/api/src/web_extract.rs:1386-1498 | for pages of blocks, inline containers, line breaks and text: the Markdown has the words a reader sees exactly when nowhere two letters have nothing between them but dropped whitespace |
| ReadingWords.NothingDroppedNothingGlued | apps/api/src/web_extract.rs:1588-1617 | so the words are kept wherever no text and no block is without words |
| ReadingWords.SpaceBetweenInlinesIsLost | apps/api/src/web_extract.rs:1588-1596 | `<span>a</span> <span>b</span>` renders to one word |
| ReadingWords.BlocksKeepWords | apps/api/src/web_extract.rs:1386-1498 | the words of a tree of blocks with words and texts are the words of its texts, in order |
| Paragraphs.BlocksAreParagraphs | apps/api/src/web_extract.rs:1386-1439 | a page of blocks with a text each becomes exactly those texts, one space between words and one blank line between blocks |
| JsonDiff.Walk | apps/api/src/workflows.rs:580-591 | appends the difference of the two values to the shared list |
| JsonDiff.WalkMembers | apps/api/src/workflows.rs:585-588 | the loop over the union of the keys in order |
| JsonDiff.JsonChanges | apps/api/src/workflows.rs:579-595 | the whole difference from the root |
| JsonDiff.EmptyDiffMeansSame | apps/api/src/workflows.rs:579-595 | nothing is reported exactly when the values agree up to missing-versus-null members |
| JsonDiff.DiffPatches | apps/api/src/workflows.rs:579-595 | applying the changes to the old value gives the new one, up to such members |
| JsonDiff.DiffSwaps | apps/api/src/workflows.rs:579-595 | swapping the arguments swaps before and after in every entry |
| JsonDiff.PathsExtend | apps/api/src/workflows.rs:585-589 | every path lies below its start and none is a prefix of another |
| JsonDiff.ChangesAreInKeyOrder | apps/api/src/workflows.rs:585-588 | the changes come in dictionary order of their keys |
| JsonDiff.RenderedAlikeExactlyWhen | apps/api/src/workflows.rs:587-589 | two paths have the same text exactly when they agree once their keys are cut at the slashes |
| JsonDiff.EntriesAreToldApartExactlyWhen | apps/api/src/workflows.rs:587-589 | no two entries share a path text exactly when their places, so cut, all differ |
| JsonDiff.TwoPlacesOneText | apps/api/src/workflows.rs:587-589 | two values whose difference has two entries with one path text |
| JsonDiff.RenderIsFaithful | apps/api/src/workflows.rs:587-589 | paths of non-empty keys free of slashes have different texts |
| JsonDiff.PlainKeysAreToldApart | apps/api/src/workflows.rs:579-595 | the difference of two values with such keys repeats no path text |
| ScrapeCache.LookupIsIdeal | apps/api/src/cache.rs:31-104 | after any history of stores and cleanups a lookup answers like a table that forgets nothing |
| ScrapeCache.HitExactlyWhen | apps/api/src/cache.rs:31-66 | a request is served from the cache exactly when the page last stored under the key is young enough, within its retention and has the screenshot the request asks for, and it is served that page with the note how it was got replaced |
| ScrapeCache.CleanupIsInvisible | apps/api/src/cache.rs:95-104 | cleanup never changes a later lookup |
| ScrapeCache.StoredPageReadsBack | apps/api/src/cache.rs:49-93 | storing and reading a page changes nothing but the note how it was got (engine outcomes, fallback reason, proxy, actions, browser state), which becomes that of a hit; the status code survives its widening |
| ScrapeCache.ServedPageAnswersTheSame | apps/api/src/web_extract.rs:87-134 | a page read back answers every request, whatever its content options and formats, as it did when stored, up to that note |
| ScrapeCache.SettledPageAnswersTheSame | apps/api/src/web_extract.rs:100-106 | deriving title and language again changes no answer |
| ScrapeCache.AnswerIs | apps/api/src/web_extract.rs:93-166 | an answer part by part: which formats fill which field, in any letter case, the errors, the data URL of a screenshot, and title and language of the HTML before those of the engine |
| ScrapeCache.TitleLeadsMarkdown | apps/api/src/web_extract.rs:1053-1066 | a heading with the page title goes in front of the Markdown unless that begins with it, and no other word changes |
| ScrapeCache.HitAnswersAsLastStored | apps/api/src/web_extract.rs:82-134 | a hit is young enough, unexpired, and answers as the scrape that last stored the key would |
| ScrapeCache.PageOfActionsIsServed | apps/api/src/web_extract.rs:76-113 | a page stored by a scrape with actions answers, while fresh, a later request for the same key without them |
| ScrapeCache.ScrapeWithCache | apps/api/src/web_extract.rs:73-170 | URL refusal, hit, miss and every error: the answer is that of the page stored last or just fetched, and the page is stored, settled, exactly on a miss with derivable content |
| ScrapeCache.CacheStore.Get | apps/api/src/cache.rs:31-66 | answers from the table as the ideal lookup on the history |
| ScrapeCache.CacheStore.PutPage | apps/api/src/cache.rs:68-93 | upserts the row, retained for the configured positive number of days or 604,800,000,000 microseconds |
| ScrapeCache.CacheStore.CleanupExpired | apps/api/src/cache.rs:95-104 | removes exactly the expired rows and counts them |

## Left out

- Each SQL statement or transaction is one atomic step, as the row locks on the job make it; snapshot anomalies inside one statement and contention under `SKIP LOCKED` (a claim that finds nothing because rows are locked) are not modelled.
- Failures of the database and of the connection pool, except where a statement violates a schema check or finds no job row.
- Ids and lease tokens come from one supply of never repeated numbers instead of random UUIDs; `attempts` does not overflow 32 bits.
- Time is an integer of microseconds that never decreases in the database; clock readings of the limiter are nanoseconds in any order.
- Columns that only travel through the queue (proxy, browser options, actions, webhooks) and webhook delivery; the order of page and completed webhooks is not guaranteed by the code.
- HTTP, DNS, proxies, browsers, engine ranking and the fetching of robots.txt: a scrape is an arbitrary page or error, a mapping an arbitrary list of links, the robots.txt verdict a parameter of the worker.
- URL parsing and joining, regular expressions, HTML parsing, the similar-URL key and the cache key are parameters about which nothing is assumed.
- CrawlServices.CrawlService.ProcessTask: is the case without interruption; StartTask and FinishTask allow any steps of others between them.
- CrawlServices.CrawlService.Cancel: reads the status in the same instant as it cancels.
- RateLimits.AcquireIsIdeal: assumes that no admission of the key is later than the clock reading; RateLimits.AcquireKeepsSound and TryAcquire accept any reading.
- Watcher.Watch: is cut off after any number of polls, because the program's loop ends only when the job does or the socket fails; a failing read ends the real watch with an error message, which is not modelled.
- Paging: the order among rows with equal `finished_at` is some fixed order of the rows; the database does not promise one.
- The second robots.txt check with a slash appended to the path, and the default agent name.
- RobotsPattern.PatternMatch: works on characters where the program uses byte offsets; both find the same places and accept the same paths.
- ReadingWords.WordsAreKeptExactlyWhen: leaves out marks, links, lists, quotes and code, whose marks are no words of the reader; RenderingFlows gives the words of those.
- Tables in the renderer: their block is a parameter, since rows longer than the first are cut to its width.
- JSON numbers are compared by their representation; the text diff of Markdown (`git_style_diff`) is left out as simple.
- ScrapeCache.ScrapeWithCache: the request id and the elapsed time of an answer are not modelled, and the checks of the URL are one given verdict.
- Cache ages so large that Postgres refuses the interval.
- Monitors, agents, Bee Engine sessions, CLI, SDKs, website and charts: thin wrappers, input and output or simple state.
