/**
 What every reachable crawl satisfies, in separate parts, and the proof that every step keeps
 each part.
 */
module CrawlInvariants {
  import opened Wrappers
  import opened CrawlRows
  import opened CrawlStatements
  import opened CrawlMachine
  import opened Sums

  // ---------- The parts ----------

  predicate DepthOk(config: Config, depth: int) {
    && 0 <= depth <= config.maxDepth
    && (config.sitemap.Only? ==> depth <= 1)
    && (config.jobType.BatchScrape? ==> depth == 0)
  }

  predicate RowInFrontier(lib: Library, config: Config, task: Task) {
    && DepthOk(config, task.depth)
    && (task.depth > 0 ==> UrlAllowed(lib, config, task.url))
    && task.dedupKey == DedupKey(lib, task.url, config.jobType.CrawlJob? && config.dedupSimilar)
  }

  ghost predicate NoDuplicates(tasks: map<Uuid, Task>) {
    forall a, b | a in tasks && b in tasks && a != b ::
      tasks[a].url != tasks[b].url && tasks[a].dedupKey != tasks[b].dedupKey
  }

  /** The page budget, uniqueness, depth and filters. */
  ghost predicate Frontier(lib: Library, j: Uuid, config: Config, tasks: map<Uuid, Task>, nextId: Uuid) {
    && SchemaOk(config)
    && 1 <= |tasks| <= config.pageLimit
    && NoDuplicates(tasks)
    && (forall id | id in tasks ::
          id < nextId && tasks[id].crawlId == j && RowInFrontier(lib, config, tasks[id]))
  }

  predicate RowShape(config: Config, task: Task, now: Time) {
    && (task.status.Queued? ==>
          0 <= task.attempts <= config.maxRetries && task.nextAttemptAt <= now + 300 * SECOND)
    && (task.status.Active? ==> task.leaseExpiresAt.Some? && task.leaseExpiresAt.value <= now + LEASE)
    && (!task.status.Active? ==> task.leaseExpiresAt.None?)
    && (task.status.Completed? <==> task.result.Some?)
    && (Finished(task) <==> task.finishedAt.Some?)
  }

  ghost predicate Shapes(config: Config, tasks: map<Uuid, Task>, now: Time) {
    forall id | id in tasks :: RowShape(config, tasks[id], now)
  }

  /** A job that was not cancelled is done exactly when nothing is queued or active. */
  ghost predicate DrainExact(rows: Rows) {
    && (rows.job.cancelRequested <==> rows.job.status.Cancelled?)
    && (!rows.job.cancelRequested ==> (rows.job.status.Done? <==> Drained(rows.tasks)))
  }

  predicate WithinConcurrency(config: Config, tasks: map<Uuid, Task>, now: Time) {
    |Leased(tasks, now)| <= config.maxConcurrency
  }

  /** The latest start of a task. */
  function LastStart(log: seq<Start>, id: Uuid): (r: Option<Start>)
    ensures r.Some? ==> r.value in log && r.value.claim.id == id
    ensures r.None? <==> forall i | 0 <= i < |log| :: log[i].claim.id != id
  {
    if log == [] then None
    else if log[|log| - 1].claim.id == id then Some(log[|log| - 1])
    else LastStart(log[..|log| - 1], id)
  }

  predicate RowMatchesLog(task: Task, last: Option<Start>) {
    match last
    case None => task.status.Queued? && task.attempts == 0 && task.leaseToken.None?
    case Some(start) =>
      && task.attempts == start.claim.attempts
      && task.leaseToken == Some(start.claim.leaseToken)
  }

  predicate StartMatchesRow(j: Uuid, tasks: map<Uuid, Task>, start: Start, nextId: Uuid) {
    && start.claim.crawlId == j
    && start.claim.id in tasks
    && start.claim.url == tasks[start.claim.id].url
    && start.claim.depth == tasks[start.claim.id].depth
    && start.claim.attempts >= 1
    && start.claim.leaseToken < nextId
  }

  /** Every row agrees with the latest start of its task, and no lease token is used twice. */
  ghost predicate LogAgrees(j: Uuid, tasks: map<Uuid, Task>, log: seq<Start>, nextId: Uuid) {
    && (forall i | 0 <= i < |log| :: StartMatchesRow(j, tasks, log[i], nextId))
    && (forall a, b | 0 <= a < b < |log| :: log[a].claim.leaseToken != log[b].claim.leaseToken)
    && (forall id | id in tasks :: RowMatchesLog(tasks[id], LastStart(log, id)))
  }

  function Delay(config: Config): Time {
    config.delayMs * MILLISECOND
  }

  /** Consecutive starts of the job are at least the configured delay apart. */
  ghost predicate Paced(config: Config, lastStartedAt: Option<Time>, log: seq<Start>, now: Time) {
    && (forall i | 0 <= i < |log| - 1 :: log[i].at + Delay(config) <= log[i + 1].at)
    && lastStartedAt == (if log == [] then None else Some(log[|log| - 1].at))
    && (forall i | 0 <= i < |log| :: log[i].at <= now)
  }

  /** When a task was taken from the queue, in order. */
  function QueueStarts(log: seq<Start>, id: Uuid): (r: seq<Time>)
    ensures forall t | t in r :: exists i | 0 <= i < |log| :: log[i].at == t
  {
    if log == [] then [] else
    var last := log[|log| - 1];
    QueueStarts(log[..|log| - 1], id) + (if last.claim.id == id && last.fromQueue then [last.at] else [])
  }

  function BackOff(n: nat): Time
    requires n >= 1
  {
    RetryDelayShape(n, n);
    RetryDelaySeconds(n).value * SECOND
  }

  ghost predicate RowBacksOff(config: Config, task: Task, q: seq<Time>) {
    && |q| <= task.attempts
    && (task.attempts > 0 ==> |q| > 0)
    && |q| <= config.maxRetries + 1
    && (forall k | 1 <= k < |q| :: q[k] >= q[k - 1] + BackOff(k))
    && (task.status.Queued? && q != [] ==> task.nextAttemptAt >= q[|q| - 1] + BackOff(|q|))
  }

  ghost predicate BacksOff(config: Config, tasks: map<Uuid, Task>, log: seq<Start>) {
    forall id | id in tasks :: RowBacksOff(config, tasks[id], QueueStarts(log, id))
  }

  function FreshStarts(log: seq<Start>): nat {
    if log == [] then 0 else
    FreshStarts(log[..|log| - 1]) + if log[|log| - 1].fromQueue then 1 else 0
  }

  /** How many more times a task can still be taken from the queue. */
  function ChancesLeft(maxRetries: int): Task -> nat {
    task =>
      if Open(task) then Max(maxRetries + 1 - task.attempts, 0) else 0
  }

  /** The starts from the queue so far and those that can still come fit the budget of the tasks. */
  ghost predicate WithinBudget(config: Config, tasks: map<Uuid, Task>, log: seq<Start>) {
    FreshStarts(log) + Sum(tasks, ChancesLeft(config.maxRetries)) <= (config.maxRetries + 1) * |tasks|
  }

  /** The parts that do not look at the status of the job. */
  ghost predicate WorkInv(lib: Library, j: Uuid, config: Config, tasks: map<Uuid, Task>,
                          log: seq<Start>, nextId: Uuid, now: Time)
  {
    && Frontier(lib, j, config, tasks, nextId)
    && Shapes(config, tasks, now)
    && WithinConcurrency(config, tasks, now)
    && LogAgrees(j, tasks, log, nextId)
    && BacksOff(config, tasks, log)
    && WithinBudget(config, tasks, log)
  }

  ghost predicate CrawlInv(lib: Library, j: Uuid, c: Crawl, nextId: Uuid, now: Time) {
    && WorkInv(lib, j, c.rows.job.config, c.rows.tasks, c.log, nextId, now)
    && DrainExact(c.rows)
    && Paced(c.rows.job.config, c.rows.job.lastTaskStartedAt, c.log, now)
  }

  // ---------- Inserting links ----------

  /** What a loop of link inserts can do to the rows. */
  ghost predicate Grows(lib: Library, config: Config, before: map<Uuid, Task>, after: map<Uuid, Task>,
                        crawlId: Uuid, links: seq<Url>, depth: int, firstId: Uuid, now: Time)
  {
    && (forall id | id in before :: id in after && after[id] == before[id])
    && (forall id | id in after && id !in before ::
          && firstId <= id < firstId + |links|
          && after[id].url in links
          && after[id] == NewTask(crawlId, after[id].url, DedupKey(lib, after[id].url, config.dedupSimilar),
                                  depth, now))
    && |before| <= |after| <= Max(|before|, config.pageLimit)
    && (NoDuplicates(before) ==> NoDuplicates(after))
  }

  lemma InsertLinkGrows(lib: Library, config: Config, tasks: map<Uuid, Task>,
      crawlId: Uuid, links: seq<Url>, depth: int, id: Uuid, now: Time)
    requires links != [] && id !in tasks
    ensures Grows(lib, config, tasks,
                  InsertLink(lib, config, tasks, crawlId, links[0], depth, id, now),
                  crawlId, links, depth, id, now)
  {
    hide NoDuplicates, Conflicts, DedupKey, NewTask, InsertLink;
    InsertLinkKeepsUnique(lib, config, tasks, crawlId, links[0], depth, id, now);
    InsertLinkAddsOne(lib, config, tasks, crawlId, links[0], depth, id, now);
    NewTaskUrl(crawlId, links[0], DedupKey(lib, links[0], config.dedupSimilar), depth, now);
  }

  lemma InsertLinkAddsOne(lib: Library, config: Config, tasks: map<Uuid, Task>, crawlId: Uuid, url: Url,
      depth: int, id: Uuid, now: Time)
    requires id !in tasks
    ensures var one := InsertLink(lib, config, tasks, crawlId, url, depth, id, now);
            || one == tasks
            || (&& one == tasks[id := NewTask(crawlId, url, DedupKey(lib, url, config.dedupSimilar), depth, now)]
                && |one| == |tasks| + 1 <= config.pageLimit)
  {
  }

  lemma NewTaskUrl(crawlId: Uuid, url: Url, key: string, depth: int, now: Time)
    ensures NewTask(crawlId, url, key, depth, now).url == url
  {
  }

  lemma InsertLinkKeepsUnique(lib: Library, config: Config, tasks: map<Uuid, Task>, crawlId: Uuid, url: Url,
      depth: int, id: Uuid, now: Time)
    requires id !in tasks
    ensures NoDuplicates(tasks) ==> NoDuplicates(InsertLink(lib, config, tasks, crawlId, url, depth, id, now))
  {
    hide DedupKey;
  }

  lemma GrowsMore(lib: Library, config: Config, a: map<Uuid, Task>, b: map<Uuid, Task>, c: map<Uuid, Task>,
      crawlId: Uuid, links: seq<Url>, depth: int, id: Uuid, now: Time)
    requires links != []
    requires Grows(lib, config, a, b, crawlId, links, depth, id, now)
    requires Grows(lib, config, b, c, crawlId, links[1..], depth, id + 1, now)
    ensures Grows(lib, config, a, c, crawlId, links, depth, id, now)
  {
  }

  lemma GrowsByNothing(lib: Library, config: Config, tasks: map<Uuid, Task>, crawlId: Uuid, depth: int,
      firstId: Uuid, now: Time)
    ensures Grows(lib, config, tasks, tasks, crawlId, [], depth, firstId, now)
  {
  }

  lemma {:induction false} InsertLinksGrows(lib: Library, config: Config, tasks: map<Uuid, Task>,
      crawlId: Uuid, links: seq<Url>, depth: int, firstId: Uuid, now: Time)
    requires forall id | id in tasks :: id < firstId
    ensures Grows(lib, config, tasks,
                  InsertLinks(lib, config, tasks, crawlId, links, depth, firstId, now),
                  crawlId, links, depth, firstId, now)
    decreases |links|
  {
    hide Grows, DedupKey, Conflicts;
    if links == [] {
      GrowsByNothing(lib, config, tasks, crawlId, depth, firstId, now);
    } else {
      var one := InsertLink(lib, config, tasks, crawlId, links[0], depth, firstId, now);
      InsertLinkGrows(lib, config, tasks, crawlId, links, depth, firstId, now);
      InsertLinksGrows(lib, config, one, crawlId, links[1..], depth, firstId + 1, now);
      GrowsMore(lib, config, tasks, one,
                InsertLinks(lib, config, one, crawlId, links[1..], depth, firstId + 1, now),
                crawlId, links, depth, firstId, now);
    }
  }

  lemma OneMore(w: nat, n: nat)
    ensures w * (n + 1) == w * n + w
  {
  }

  lemma InsertLinkSum(lib: Library, config: Config, tasks: map<Uuid, Task>, crawlId: Uuid, url: Url,
      depth: int, id: Uuid, now: Time, weight: Task -> nat, w: nat)
    requires id !in tasks
    requires forall url, key :: weight(NewTask(crawlId, url, key, depth, now)) == w
    ensures var after := InsertLink(lib, config, tasks, crawlId, url, depth, id, now);
            Sum(after, weight) - w * |after| == Sum(tasks, weight) - w * |tasks|
  {
    var after := InsertLink(lib, config, tasks, crawlId, url, depth, id, now);
    if after != tasks {
      SumInsert(tasks, weight, id, after[id]);
      assert |after| == |tasks| + 1;
      OneMore(w, |tasks|);
    }
  }

  /** Every inserted row adds the weight of a new task. */
  lemma {:induction false} InsertLinksSum(lib: Library, config: Config, tasks: map<Uuid, Task>,
      crawlId: Uuid, links: seq<Url>, depth: int, firstId: Uuid, now: Time, weight: Task -> nat, w: nat)
    requires forall id | id in tasks :: id < firstId
    requires forall url, key :: weight(NewTask(crawlId, url, key, depth, now)) == w
    ensures var after := InsertLinks(lib, config, tasks, crawlId, links, depth, firstId, now);
            Sum(after, weight) - w * |after| == Sum(tasks, weight) - w * |tasks|
    decreases |links|
  {
    if links == [] {
    } else {
      var one := InsertLink(lib, config, tasks, crawlId, links[0], depth, firstId, now);
      InsertLinkSum(lib, config, tasks, crawlId, links[0], depth, firstId, now, weight, w);
      InsertLinksSum(lib, config, one, crawlId, links[1..], depth, firstId + 1, now, weight, w);
    }
  }
}
