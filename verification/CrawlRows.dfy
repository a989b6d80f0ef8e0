/**
 The two tables of the crawl queue, crawl_jobs and crawl_tasks, as row datatypes, and the parts
 of the program the queue treats as black boxes (URL parsing, regular expressions).

 Times are microseconds, the resolution of a Postgres timestamp.
 */
module CrawlRows {
  import opened Wrappers

  type Uuid = nat
  type Url = string
  type Time = int

  const MILLISECOND: Time := 1_000
  const SECOND: Time := 1_000_000
  const DAY: Time := 86_400 * SECOND

  /** How long a claim is protected from being reclaimed. */
  const LEASE: Time := 90 * SECOND

  datatype JobType = CrawlJob | BatchScrape
  datatype Sitemap = Skip | Include | Only
  datatype JobStatus = Waiting | Scraping | Done | Cancelled
  datatype TaskStatus = Queued | Active | Completed | Failed

  /** The columns of crawl_jobs that no statement ever updates. */
  datatype Config = Config(
    jobType: JobType,
    url: Url,
    pageLimit: int,
    maxDepth: int,
    includePaths: seq<string>,
    excludePaths: seq<string>,
    regexOnFullUrl: bool,
    sitemap: Sitemap,
    delayMs: int,
    maxConcurrency: int,
    dedupSimilar: bool,
    ignoreRobots: bool,
    maxRetries: int)

  datatype Job = Job(
    config: Config,
    status: JobStatus,
    cancelRequested: bool,
    startedAt: Option<Time>,
    finishedAt: Option<Time>,
    lastTaskStartedAt: Option<Time>,
    expiresAt: Option<Time>)

  datatype Page = Page(requestId: string, url: Url, markdown: string)

  datatype Task = Task(
    crawlId: Uuid,
    url: Url,
    dedupKey: string,
    depth: int,
    status: TaskStatus,
    attempts: int,
    leaseToken: Option<Uuid>,
    leaseExpiresAt: Option<Time>,
    nextAttemptAt: Time,
    result: Option<Page>,
    errorCode: Option<string>,
    errorMessage: Option<string>,
    createdAt: Time,
    startedAt: Option<Time>,
    finishedAt: Option<Time>)

  /** What claim_task hands to a worker. */
  datatype ClaimedTask = ClaimedTask(
    id: Uuid, crawlId: Uuid, url: Url, depth: int, attempts: int, leaseToken: Uuid)

  datatype ScrapeError =
    | InvalidUrl(message: string)
    | BlockedByPolicy(message: string)
    | FetchFailed(message: string)
    | RenderFailed(message: string)
    | EmptyContent
  {
    function Code(): string {
      match this
      case InvalidUrl(_) => "invalid_url"
      case BlockedByPolicy(_) => "blocked_by_policy"
      case FetchFailed(_) => "fetch_failed"
      case RenderFailed(_) => "render_failed"
      case EmptyContent => "empty_content"
    }

    function Text(): string {
      match this
      case EmptyContent => "empty_content: No content could be extracted"
      case _ => Code() + ": " + message
    }
  }

  /** Library code the queue calls: URL normalisation and parsing, the similar-URL key, regular
      expressions. Nothing is assumed about any of them. */
  datatype Library = Library(
    normalize: string -> Option<Url>,
    urlPath: Url -> Option<string>,
    similarKey: Url -> string,
    regexValid: string -> bool,
    regexMatches: (string, string) -> bool)

  datatype StoreError =
    | InvalidRequest
    | IdempotencyConflict
    | Database

  /** All rows that belong to one job. */
  datatype Rows = Rows(job: Job, tasks: map<Uuid, Task>)

  /** The check constraints of crawl_jobs. */
  predicate SchemaOk(config: Config) {
    && config.pageLimit > 0
    && config.maxDepth >= 0
    && config.delayMs >= 0
    && config.maxConcurrency > 0
    && config.maxRetries >= 0
  }

  predicate Open(task: Task) {
    task.status.Queued? || task.status.Active?
  }

  predicate Finished(task: Task) {
    task.status.Completed? || task.status.Failed?
  }

  /** `n as i32`: keeps the low 32 bits. */
  function AsI32(n: nat): int {
    (n + 0x8000_0000) % 0x1_0000_0000 - 0x8000_0000
  }

  /** `n as i64`: keeps the low 64 bits. */
  function AsI64(n: nat): int {
    (n + 0x8000_0000_0000_0000) % 0x1_0000_0000_0000_0000 - 0x8000_0000_0000_0000
  }

  function Min(a: int, b: int): int {
    if a <= b then a else b
  }

  function Max(a: int, b: int): int {
    if a >= b then a else b
  }
}
