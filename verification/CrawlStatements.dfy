/**
 What each statement or transaction of the crawl queue does to the rows of one job, as functions.
 Every one of them runs as a single atomic step: they all lock the job row first.
 The class CrawlStore is proved against these functions; CrawlMachine runs them in any order.
 */
module CrawlStatements {
  import opened Wrappers
  import opened CrawlRows

  // ---------- Small decisions ----------

  /** Back-off before the next attempt, in seconds. None stands for the overflow of `2_i32.pow`,
      which stops the worker before it has sent its update. */
  function RetryDelaySeconds(attempts: int): Option<int> {
    var exponent := Min(Max(attempts - 1, -0x8000_0000), 6);
    var asU32 := if exponent < 0 then exponent + 0x1_0000_0000 else exponent;
    if asU32 > 30 then None else Some(Min(5 * Pow2(asU32), 300))
  }

  function Pow2(n: nat): nat {
    if n == 0 then 1 else 2 * Pow2(n - 1)
  }

  predicate IsRetryable(error: ScrapeError) {
    error.FetchFailed? || error.RenderFailed? || error.EmptyContent?
  }

  predicate UrlAllowed(lib: Library, config: Config, url: Url) {
    match lib.urlPath(url)
    case None => false
    case Some(path) =>
      var target := if config.regexOnFullUrl then url else path;
      && (forall p | p in config.excludePaths :: !(lib.regexValid(p) && lib.regexMatches(p, target)))
      && (config.includePaths == []
          || exists p | p in config.includePaths :: lib.regexValid(p) && lib.regexMatches(p, target))
  }

  function DedupKey(lib: Library, url: Url, dedupSimilar: bool): string {
    if dedupSimilar then lib.similarKey(url) else url
  }

  // ---------- Enqueue ----------

  datatype IdempotencyKey = NoKey | Malformed | Key(id: Uuid)

  datatype CrawlRequest = CrawlRequest(
    url: string, idempotencyKey: IdempotencyKey, limit: nat, maxDepth: nat,
    includePaths: seq<string>, excludePaths: seq<string>, regexOnFullUrl: bool, sitemap: Sitemap,
    delayMs: nat, maxConcurrency: nat, dedupSimilar: bool, ignoreRobots: bool, maxRetries: nat)

  datatype BatchRequest = BatchRequest(urls: seq<string>, maxConcurrency: nat, maxRetries: nat)

  function NewTask(crawlId: Uuid, url: Url, dedupKey: string, depth: int, now: Time): Task {
    Task(crawlId, url, dedupKey, depth, Queued, 0, None, None, now, None, None, None, now, None, None)
  }

  function NewJob(config: Config, retentionDays: nat, now: Time): Job {
    Job(config, Waiting, false, None, None, None, Some(now + retentionDays * DAY))
  }

  function CrawlConfig(request: CrawlRequest, url: Url): Config {
    Config(CrawlJob, url, AsI64(request.limit), AsI32(request.maxDepth), request.includePaths,
           request.excludePaths, request.regexOnFullUrl, request.sitemap, AsI64(request.delayMs),
           AsI32(request.maxConcurrency), request.dedupSimilar, request.ignoreRobots,
           AsI32(request.maxRetries))
  }

  function BatchConfig(request: BatchRequest, urls: seq<Url>): Config
    requires urls != []
  {
    Config(BatchScrape, urls[0], |urls|, 0, [], [], false, Include, 0,
           AsI32(request.maxConcurrency), true, false, AsI32(request.maxRetries))
  }

  /** The rows of a new crawl, or why it is refused. `usedKeys` are the idempotency keys so far. */
  function EnqueueRows(lib: Library, request: CrawlRequest, usedKeys: set<Uuid>,
                       jobId: Uuid, taskId: Uuid, retentionDays: nat, now: Time)
    : Result<Rows, StoreError>
  {
    if request.limit == 0 || request.maxConcurrency == 0 then Err(InvalidRequest) else
    match lib.normalize(request.url)
    case None => Err(InvalidRequest)
    case Some(url) =>
      if exists p | p in request.includePaths + request.excludePaths :: !lib.regexValid(p) then
        Err(InvalidRequest)
      else if request.idempotencyKey.Malformed? then Err(InvalidRequest)
      else if request.idempotencyKey.Key? && request.idempotencyKey.id in usedKeys then
        Err(IdempotencyConflict)
      else
        var config := CrawlConfig(request, url);
        if !SchemaOk(config) then Err(Database) else
        var key := DedupKey(lib, url, request.dedupSimilar);
        Ok(Rows(NewJob(config, retentionDays, now), map[taskId := NewTask(jobId, url, key, 0, now)]))
  }

  /** Every URL normalised, or None as soon as one is invalid. */
  function NormalizeAll(lib: Library, raw: seq<string>): Option<seq<Url>> {
    if raw == [] then Some([]) else
    match (NormalizeAll(lib, raw[..|raw| - 1]), lib.normalize(raw[|raw| - 1]))
    case (Some(urls), Some(url)) => Some(urls + [url])
    case _ => None
  }

  /** The URLs without later repetitions. */
  function Distinct(urls: seq<Url>): (r: seq<Url>)
    ensures forall u :: u in r <==> u in urls
    ensures urls != [] ==> r != []
  {
    if urls == [] then [] else
    var front := Distinct(urls[..|urls| - 1]);
    assert urls == urls[..|urls| - 1] + [urls[|urls| - 1]];
    if urls[|urls| - 1] in front then front else front + [urls[|urls| - 1]]
  }

  /** One row per URL; in a batch the URL is its own dedup key. */
  function BatchTasks(urls: seq<Url>, jobId: Uuid, firstId: Uuid, now: Time): (r: map<Uuid, Task>)
    ensures forall id :: id in r <==> firstId <= id < firstId + |urls|
    ensures forall id | id in r :: r[id] == NewTask(jobId, urls[id - firstId], urls[id - firstId], 0, now)
  {
    if urls == [] then map[] else
    var n := |urls| - 1;
    BatchTasks(urls[..n], jobId, firstId, now)[firstId + n := NewTask(jobId, urls[n], urls[n], 0, now)]
  }

  function EnqueueBatchRows(lib: Library, request: BatchRequest, jobId: Uuid, firstId: Uuid,
                            retentionDays: nat, now: Time): Result<Rows, StoreError>
  {
    match NormalizeAll(lib, request.urls)
    case None => Err(InvalidRequest)
    case Some(all) =>
      var urls := Distinct(all);
      if urls == [] || |urls| > 1000 || request.maxConcurrency == 0 then Err(InvalidRequest) else
      var config := BatchConfig(request, urls);
      if !SchemaOk(config) then Err(Database) else
      Ok(Rows(NewJob(config, retentionDays, now), BatchTasks(urls, jobId, firstId, now)))
  }

  // ---------- Claim ----------

  predicate HoldsLease(task: Task, now: Time) {
    task.status.Active? && task.leaseExpiresAt.Some? && task.leaseExpiresAt.value >= now
  }

  function Leased(tasks: map<Uuid, Task>, now: Time): set<Uuid> {
    set id | id in tasks && HoldsLease(tasks[id], now)
  }

  predicate Due(task: Task, now: Time) {
    || (task.status.Queued? && task.nextAttemptAt <= now)
    || (task.status.Active? && task.leaseExpiresAt.Some? && task.leaseExpiresAt.value < now)
  }

  predicate MayStart(job: Job, now: Time) {
    && !job.cancelRequested
    && (job.status.Waiting? || job.status.Scraping?)
    && (job.lastTaskStartedAt.None?
        || job.lastTaskStartedAt.value + job.config.delayMs * MILLISECOND <= now)
  }

  /** The WHERE clause of the claim. */
  predicate Claimable(rows: Rows, id: Uuid, now: Time) {
    && id in rows.tasks
    && MayStart(rows.job, now)
    && Due(rows.tasks[id], now)
    && |Leased(rows.tasks, now)| < rows.job.config.maxConcurrency
  }

  function Started(task: Task, token: Uuid, now: Time): Task {
    task.(status := Active, attempts := task.attempts + 1, leaseToken := Some(token),
          leaseExpiresAt := Some(now + LEASE),
          startedAt := if task.startedAt.Some? then task.startedAt else Some(now))
  }

  function TouchedJob(job: Job, now: Time): Job {
    job.(status := Scraping,
         startedAt := if job.startedAt.Some? then job.startedAt else Some(now),
         lastTaskStartedAt := Some(now))
  }

  function ClaimRows(rows: Rows, id: Uuid, token: Uuid, now: Time): Rows
    requires id in rows.tasks
  {
    Rows(TouchedJob(rows.job, now), rows.tasks[id := Started(rows.tasks[id], token, now)])
  }

  function ClaimOf(task: Task, id: Uuid, token: Uuid): ClaimedTask {
    ClaimedTask(id, task.crawlId, task.url, task.depth, task.attempts + 1, token)
  }

  // ---------- Finish ----------

  predicate Drained(tasks: map<Uuid, Task>) {
    forall id | id in tasks :: !Open(tasks[id])
  }

  function CompleteIfDrained(rows: Rows, now: Time): Rows {
    if !rows.job.cancelRequested && Drained(rows.tasks) then
      rows.(job := rows.job.(status := Done, finishedAt := Some(now)))
    else rows
  }

  /** The row a finish updates: still active under the token of the claim. */
  predicate Current(tasks: map<Uuid, Task>, claim: ClaimedTask) {
    && claim.id in tasks
    && tasks[claim.id].status.Active?
    && tasks[claim.id].leaseToken == Some(claim.leaseToken)
  }

  /** ON CONFLICT DO NOTHING: a row of the job has this url or this dedup key. */
  predicate Conflicts(tasks: map<Uuid, Task>, url: Url, dedupKey: string) {
    exists id | id in tasks :: tasks[id].url == url || tasks[id].dedupKey == dedupKey
  }

  function InsertLink(lib: Library, config: Config, tasks: map<Uuid, Task>, crawlId: Uuid, url: Url,
                      depth: int, id: Uuid, now: Time): map<Uuid, Task>
  {
    var key := DedupKey(lib, url, config.dedupSimilar);
    if |tasks| < config.pageLimit && !Conflicts(tasks, url, key) then
      tasks[id := NewTask(crawlId, url, key, depth, now)]
    else tasks
  }

  /** One INSERT after the other, each taking one fresh id. */
  function InsertLinks(lib: Library, config: Config, tasks: map<Uuid, Task>, crawlId: Uuid,
                       links: seq<Url>, depth: int, firstId: Uuid, now: Time): map<Uuid, Task>
    decreases |links|
  {
    if links == [] then tasks else
    InsertLinks(lib, config, InsertLink(lib, config, tasks, crawlId, links[0], depth, firstId, now),
                crawlId, links[1..], depth, firstId + 1, now)
  }

  function Succeeded(task: Task, page: Page, now: Time): Task {
    task.(status := Completed, result := Some(page), leaseExpiresAt := None, finishedAt := Some(now))
  }

  function TasksAfterSuccess(lib: Library, job: Job, tasks: map<Uuid, Task>, claim: ClaimedTask,
                             page: Page, links: seq<Url>, firstId: Uuid, now: Time): map<Uuid, Task>
    requires claim.id in tasks
  {
    var updated := tasks[claim.id := Succeeded(tasks[claim.id], page, now)];
    if job.cancelRequested then updated
    else InsertLinks(lib, job.config, updated, claim.crawlId, links, claim.depth + 1, firstId, now)
  }

  function FinishSuccessRows(lib: Library, rows: Rows, claim: ClaimedTask, page: Page,
                             links: seq<Url>, firstId: Uuid, now: Time): Rows
  {
    if !Current(rows.tasks, claim) then rows else
    CompleteIfDrained(
      Rows(rows.job, TasksAfterSuccess(lib, rows.job, rows.tasks, claim, page, links, firstId, now)), now)
  }

  /** The CASE condition of finish_failure: put the task back in the queue. */
  predicate Requeues(job: Job, task: Task, error: ScrapeError) {
    IsRetryable(error) && !job.cancelRequested && task.attempts <= job.config.maxRetries
  }

  function FailedOnce(job: Job, task: Task, error: ScrapeError, delay: int, now: Time): Task {
    var noted := task.(errorCode := Some(error.Code()), errorMessage := Some(error.Text()),
                       leaseExpiresAt := None);
    if Requeues(job, task, error) then
      noted.(status := Queued, nextAttemptAt := now + delay * SECOND, finishedAt := None)
    else
      noted.(status := Failed, finishedAt := Some(now))
  }

  function FinishFailureRows(rows: Rows, claim: ClaimedTask, error: ScrapeError, now: Time): Rows {
    match RetryDelaySeconds(claim.attempts)
    case None => rows
    case Some(delay) =>
      if !Current(rows.tasks, claim) then rows else
      var task := FailedOnce(rows.job, rows.tasks[claim.id], error, delay, now);
      CompleteIfDrained(rows.(tasks := rows.tasks[claim.id := task]), now)
  }

  // ---------- Worker ----------

  datatype Outcome = Success(page: Page, links: seq<Url>) | Failure(error: ScrapeError)

  function Filter(lib: Library, config: Config, urls: seq<Url>): (r: seq<Url>)
    ensures forall u :: u in r <==> u in urls && UrlAllowed(lib, config, u)
  {
    if urls == [] then []
    else if UrlAllowed(lib, config, urls[0]) then [urls[0]] + Filter(lib, config, urls[1..])
    else Filter(lib, config, urls[1..])
  }

  predicate FollowsLinks(config: Config, depth: int) {
    && config.jobType.CrawlJob?
    && depth < config.maxDepth
    && !(config.sitemap.Only? && depth > 0)
  }

  /** What a worker does with a claimed task once the outside world has answered: `robotsAllow` is
      the robots.txt verdict, `scraped` the page or the failure, `mapped` the links found on the
      page (None when mapping it failed). */
  function WorkOutcome(lib: Library, config: Config, claim: ClaimedTask, robotsAllow: bool,
                       scraped: Result<Page, ScrapeError>, mapped: Option<seq<Url>>): Outcome
  {
    if !UrlAllowed(lib, config, claim.url) then
      Failure(BlockedByPolicy("URL is excluded by includePaths or excludePaths"))
    else if !config.ignoreRobots && !robotsAllow then
      Failure(BlockedByPolicy("robots.txt disallows URL"))
    else match scraped
      case Err(error) => Failure(error)
      case Ok(page) =>
        var links :=
          if FollowsLinks(config, claim.depth) && mapped.Some?
          then Filter(lib, config, mapped.value) else [];
        Success(page, links)
  }

  function FinishRows(lib: Library, rows: Rows, claim: ClaimedTask, outcome: Outcome,
                      firstId: Uuid, now: Time): Rows
  {
    match outcome
    case Success(page, links) => FinishSuccessRows(lib, rows, claim, page, links, firstId, now)
    case Failure(error) => FinishFailureRows(rows, claim, error, now)
  }

  // ---------- Cancel and cleanup ----------

  function CancelRows(rows: Rows, now: Time): Rows {
    if rows.job.status.Waiting? || rows.job.status.Scraping? then
      rows.(job := rows.job.(cancelRequested := true, status := Cancelled,
                             finishedAt := if rows.job.finishedAt.Some? then rows.job.finishedAt else Some(now)))
    else rows
  }

  predicate Expired(job: Job, now: Time) {
    job.expiresAt.Some? && job.expiresAt.value <= now && (job.status.Done? || job.status.Cancelled?)
  }

  // ---------- Facts about the decisions ----------

  lemma {:induction false} FilterOfConcat(lib: Library, config: Config, a: seq<Url>, b: seq<Url>)
    ensures Filter(lib, config, a + b) == Filter(lib, config, a) + Filter(lib, config, b)
  {
    hide UrlAllowed;
    if a == [] {
      assert a + b == b;
    } else {
      FilterOfConcat(lib, config, a[1..], b);
      assert (a + b)[1..] == a[1..] + b && (a + b)[0] == a[0];
    }
  }

  lemma FilterOfOne(lib: Library, config: Config, url: Url)
    ensures Filter(lib, config, [url]) == if UrlAllowed(lib, config, url) then [url] else []
  {
    hide UrlAllowed;
    assert Filter(lib, config, [url][1..]) == [];
  }

  /** The filter looks at each URL on its own: it keeps the allowed ones in their order, repeated as
      often as they were. */
  lemma FilterKeepsOrder(lib: Library, config: Config, urls: seq<Url>, k: nat)
    requires k < |urls|
    ensures Filter(lib, config, urls[..k + 1]) == Filter(lib, config, urls[..k])
              + if UrlAllowed(lib, config, urls[k]) then [urls[k]] else []
    ensures Filter(lib, config, urls) == Filter(lib, config, urls[..k]) + Filter(lib, config, urls[k..])
  {
    hide UrlAllowed, Filter;
    FilterOfConcat(lib, config, urls[..k], [urls[k]]);
    FilterOfOne(lib, config, urls[k]);
    FilterOfConcat(lib, config, urls[..k], urls[k..]);
    assert urls[..k + 1] == urls[..k] + [urls[k]] && urls == urls[..k] + urls[k..];
  }

  /** The back-off is defined exactly for attempt numbers from one on, stays within its bounds and
      never decreases; in the range it is 5, 10, 20, 40, 80, 160, 300, 300, ... */
  lemma RetryDelayShape(a: int, b: int)
    ensures RetryDelaySeconds(a).Some? <==> a >= 1
    ensures a >= 1 ==> 5 <= RetryDelaySeconds(a).value <= 300
    ensures 1 <= a <= b ==> RetryDelaySeconds(a).value <= RetryDelaySeconds(b).value
    ensures 1 <= a <= 6 ==> RetryDelaySeconds(a).value == [5, 10, 20, 40, 80, 160][a - 1]
    ensures a >= 7 ==> RetryDelaySeconds(a).value == 300
  {
    assert Pow2(6) == 64 && Pow2(5) == 32 && Pow2(4) == 16 && Pow2(3) == 8 && Pow2(2) == 4 && Pow2(1) == 2 by {
      assert Pow2(3) == 8;
    }
  }

  function FirstIndex(urls: seq<Url>, u: Url): (i: nat)
    requires u in urls
    ensures i < |urls| && urls[i] == u && forall k | 0 <= k < i :: urls[k] != u
  {
    if urls[0] == u then 0 else 1 + FirstIndex(urls[1..], u)
  }

  lemma FirstIndexFront(urls: seq<Url>, u: Url)
    requires urls != [] && u in urls[..|urls| - 1]
    ensures u in urls && FirstIndex(urls, u) == FirstIndex(urls[..|urls| - 1], u)
  {
    var i := FirstIndex(urls[..|urls| - 1], u);
    assert urls[i] == u && forall k | 0 <= k < i :: urls[..|urls| - 1][k] == urls[k];
  }

  /** The batch loop keeps each URL once, in the order of the first occurrences. */
  lemma {:induction false} DistinctKeepsFirstOccurrences(urls: seq<Url>)
    ensures forall i, j | 0 <= i < j < |Distinct(urls)| :: Distinct(urls)[i] != Distinct(urls)[j]
    ensures forall u :: u in Distinct(urls) <==> u in urls
    ensures forall i, j | 0 <= i < j < |Distinct(urls)| ::
              FirstIndex(urls, Distinct(urls)[i]) < FirstIndex(urls, Distinct(urls)[j])
  {
    if urls == [] {
    } else {
      var n := |urls| - 1;
      var front := Distinct(urls[..n]);
      DistinctKeepsFirstOccurrences(urls[..n]);
      forall i | 0 <= i < |front|
        ensures front[i] in urls && FirstIndex(urls, front[i]) == FirstIndex(urls[..n], front[i])
      {
        FirstIndexFront(urls, front[i]);
      }
      if urls[n] !in front {
        assert urls[n] !in urls[..n];
        assert forall k | 0 <= k < n :: urls[..n][k] == urls[k];
      }
    }
  }
}
