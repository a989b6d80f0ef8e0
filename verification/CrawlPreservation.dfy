/** Every step of the queue keeps every part of the invariant. */
module CrawlPreservation {
  import opened Wrappers
  import opened CrawlRows
  import opened CrawlStatements
  import opened CrawlMachine
  import opened CrawlInvariants
  import opened Sums

  type Tasks = map<Uuid, Task>

  // ---------- History bookkeeping ----------

  lemma LogExtended(log: seq<Start>, start: Start, id: Uuid)
    ensures LastStart(log + [start], id) == if start.claim.id == id then Some(start) else LastStart(log, id)
    ensures QueueStarts(log + [start], id)
            == QueueStarts(log, id) + (if start.claim.id == id && start.fromQueue then [start.at] else [])
    ensures FreshStarts(log + [start]) == FreshStarts(log) + if start.fromQueue then 1 else 0
  {
    assert (log + [start])[..|log|] == log;
  }

  lemma {:induction false} UnknownTaskHasNoHistory(log: seq<Start>, id: Uuid)
    requires forall i | 0 <= i < |log| :: log[i].claim.id != id
    ensures LastStart(log, id).None? && QueueStarts(log, id) == []
  {
    if log == [] {
    } else {
      UnknownTaskHasNoHistory(log[..|log| - 1], id);
    }
  }

  lemma NewTaskHasNoHistory(j: Uuid, tasks: Tasks, log: seq<Start>, id: Uuid, nextId: Uuid)
    requires LogAgrees(j, tasks, log, nextId) && id !in tasks
    ensures LastStart(log, id).None? && QueueStarts(log, id) == []
  {
    forall i | 0 <= i < |log| ensures log[i].claim.id != id {
      assert StartMatchesRow(j, tasks, log[i], nextId);
    }
    UnknownTaskHasNoHistory(log, id);
  }

  /** A started row has been counted at least once. */
  lemma AttemptsOfRow(j: Uuid, tasks: Tasks, log: seq<Start>, id: Uuid, nextId: Uuid)
    requires LogAgrees(j, tasks, log, nextId) && id in tasks
    ensures tasks[id].attempts >= 0
    ensures tasks[id].status.Queued? || tasks[id].attempts >= 1
  {
    assert RowMatchesLog(tasks[id], LastStart(log, id));
    var last := LastStart(log, id);
    if last.Some? {
      var i :| 0 <= i < |log| && log[i] == last.value;
      assert StartMatchesRow(j, tasks, log[i], nextId);
    }
  }

  // ---------- Changing one row ----------

  /** What neither a claim nor a finish changes in a row. */
  predicate SamePlace(a: Task, b: Task) {
    a.crawlId == b.crawlId && a.url == b.url && a.dedupKey == b.dedupKey && a.depth == b.depth
  }

  lemma UpdateKeepsFrontier(lib: Library, j: Uuid, config: Config, tasks: Tasks, id: Uuid, task: Task, nextId: Uuid)
    requires Frontier(lib, j, config, tasks, nextId) && id in tasks && SamePlace(tasks[id], task)
    ensures Frontier(lib, j, config, tasks[id := task], nextId)
  {
    hide UrlAllowed, DedupKey, DepthOk;
    var after := tasks[id := task];
    assert after.Keys == tasks.Keys;
    assert |after| == |after.Keys| && |tasks| == |tasks.Keys|;
    forall other | other in after
      ensures other < nextId && after[other].crawlId == j && RowInFrontier(lib, config, after[other])
    {
      assert other in tasks;
    }
    assert NoDuplicates(after);
  }

  lemma UpdateKeepsShapes(config: Config, tasks: Tasks, id: Uuid, task: Task, now: Time)
    requires Shapes(config, tasks, now) && id in tasks && RowShape(config, task, now)
    ensures Shapes(config, tasks[id := task], now)
  {
  }

  lemma FrontierMonotone(lib: Library, j: Uuid, config: Config, tasks: Tasks, nextId: Uuid, later: Uuid)
    requires Frontier(lib, j, config, tasks, nextId) && nextId <= later
    ensures Frontier(lib, j, config, tasks, later)
  {
  }

  lemma LogMonotone(j: Uuid, tasks: Tasks, log: seq<Start>, nextId: Uuid, later: Uuid)
    requires LogAgrees(j, tasks, log, nextId) && nextId <= later
    ensures LogAgrees(j, tasks, log, later)
  {
    forall i | 0 <= i < |log| ensures StartMatchesRow(j, tasks, log[i], later) {
      assert StartMatchesRow(j, tasks, log[i], nextId);
    }
  }

  // ---------- Claim ----------

  lemma ClaimKeepsConcurrency(config: Config, tasks: Tasks, id: Uuid, token: Uuid, now: Time)
    requires id in tasks && Due(tasks[id], now) && |Leased(tasks, now)| < config.maxConcurrency
    ensures WithinConcurrency(config, tasks[id := Started(tasks[id], token, now)], now)
  {
    var after := tasks[id := Started(tasks[id], token, now)];
    assert Leased(after, now) == Leased(tasks, now) + {id};
  }

  lemma ClaimKeepsLog(j: Uuid, tasks: Tasks, log: seq<Start>, id: Uuid, token: Uuid, start: Start, now: Time)
    requires LogAgrees(j, tasks, log, token) && id in tasks
    requires tasks[id].crawlId == j && tasks[id].attempts >= 0
    requires start.claim == ClaimOf(tasks[id], id, token)
    ensures LogAgrees(j, tasks[id := Started(tasks[id], token, now)], log + [start], token + 1)
  {
    var tasks', log' := tasks[id := Started(tasks[id], token, now)], log + [start];
    forall other | other in tasks' ensures RowMatchesLog(tasks'[other], LastStart(log', other)) {
      LogExtended(log, start, other);
    }
    forall i | 0 <= i < |log'| ensures StartMatchesRow(j, tasks', log'[i], token + 1) {
      assert i < |log| ==> StartMatchesRow(j, tasks, log[i], token);
    }
  }

  lemma ClaimKeepsRowBackOff(config: Config, task: Task, q: seq<Time>, token: Uuid, now: Time)
    requires RowBacksOff(config, task, q) && task.attempts >= 0 && Due(task, now)
    requires task.status.Queued? ==> task.attempts <= config.maxRetries
    requires task.status.Queued? || task.attempts >= 1
    ensures RowBacksOff(config, Started(task, token, now), q + if task.status.Queued? then [now] else [])
  {
  }

  lemma ClaimKeepsBackOff(config: Config, tasks: Tasks, log: seq<Start>, id: Uuid, token: Uuid, start: Start, now: Time)
    requires BacksOff(config, tasks, log) && id in tasks && Due(tasks[id], now) && tasks[id].attempts >= 0
    requires RowShape(config, tasks[id], now)
    requires tasks[id].status.Queued? || tasks[id].attempts >= 1
    requires start == Start(ClaimOf(tasks[id], id, token), now, tasks[id].status.Queued?)
    ensures BacksOff(config, tasks[id := Started(tasks[id], token, now)], log + [start])
  {
    var tasks' := tasks[id := Started(tasks[id], token, now)];
    forall other | other in tasks'
      ensures RowBacksOff(config, tasks'[other], QueueStarts(log + [start], other))
    {
      LogExtended(log, start, other);
      assert RowBacksOff(config, tasks[other], QueueStarts(log, other));
      if other == id {
        ClaimKeepsRowBackOff(config, tasks[id], QueueStarts(log, id), token, now);
      } else {
        assert QueueStarts(log + [start], other) == QueueStarts(log, other);
      }
    }
  }

  lemma ClaimKeepsBudget(config: Config, tasks: Tasks, log: seq<Start>, id: Uuid, token: Uuid, start: Start, now: Time)
    requires WithinBudget(config, tasks, log) && id in tasks && RowShape(config, tasks[id], now)
    requires start.fromQueue == tasks[id].status.Queued? && Due(tasks[id], now)
    ensures WithinBudget(config, tasks[id := Started(tasks[id], token, now)], log + [start])
  {
    var tasks' := tasks[id := Started(tasks[id], token, now)];
    LogExtended(log, start, id);
    SumUpdate(tasks, ChancesLeft(config.maxRetries), id, tasks'[id]);
    assert tasks'.Keys == tasks.Keys;
    assert |tasks'| == |tasks'.Keys| && |tasks| == |tasks.Keys|;
  }

  lemma ClaimKeepsWork(lib: Library, j: Uuid, rows: Rows, log: seq<Start>, id: Uuid, token: Uuid, now: Time)
    requires WorkInv(lib, j, rows.job.config, rows.tasks, log, token, now) && Claimable(rows, id, now)
    ensures var start := Start(ClaimOf(rows.tasks[id], id, token), now, rows.tasks[id].status.Queued?);
            WorkInv(lib, j, rows.job.config, rows.tasks[id := Started(rows.tasks[id], token, now)],
                    log + [start], token + 1, now)
  {
    var config, tasks := rows.job.config, rows.tasks;
    var start := Start(ClaimOf(tasks[id], id, token), now, tasks[id].status.Queued?);
    AttemptsOfRow(j, tasks, log, id, token);
    assert RowShape(config, tasks[id], now);
    UpdateKeepsFrontier(lib, j, config, tasks, id, Started(tasks[id], token, now), token);
    FrontierMonotone(lib, j, config, tasks[id := Started(tasks[id], token, now)], token, token + 1);
    UpdateKeepsShapes(config, tasks, id, Started(tasks[id], token, now), now);
    ClaimKeepsConcurrency(config, tasks, id, token, now);
    ClaimKeepsLog(j, tasks, log, id, token, start, now);
    ClaimKeepsBackOff(config, tasks, log, id, token, start, now);
    ClaimKeepsBudget(config, tasks, log, id, token, start, now);
  }

  lemma ClaimKeepsPace(job: Job, log: seq<Start>, start: Start, now: Time)
    requires Paced(job.config, job.lastTaskStartedAt, log, now) && MayStart(job, now) && start.at == now
    ensures Paced(job.config, Some(now), log + [start], now)
  {
  }

  lemma ClaimKeepsInv(lib: Library, j: Uuid, c: Crawl, id: Uuid, token: Uuid, now: Time)
    requires CrawlInv(lib, j, c, token, now) && Claimable(c.rows, id, now)
    ensures CrawlInv(lib, j, ClaimStep(c, id, token, now), token + 1, now)
  {
    var c' := ClaimStep(c, id, token, now);
    ClaimKeepsWork(lib, j, c.rows, c.log, id, token, now);
    ClaimKeepsPace(c.rows.job, c.log, c'.log[|c.log|], now);
    assert Open(c'.rows.tasks[id]);
  }

  // ---------- Finish: the row of the claim ----------

  function BackOffOf(attempts: int): Time {
    if attempts >= 1 then BackOff(attempts) else 0
  }

  predicate LeavesActive(config: Config, before: Task, after: Task, now: Time) {
    && before.status.Active? && !after.status.Active?
    && SamePlace(before, after)
    && before.attempts == after.attempts && before.leaseToken == after.leaseToken
    && RowShape(config, after, now)
    && (after.status.Queued? ==> after.nextAttemptAt >= now + BackOffOf(before.attempts))
  }

  lemma LeavingKeepsConcurrency(config: Config, tasks: Tasks, id: Uuid, task: Task, now: Time)
    requires WithinConcurrency(config, tasks, now) && id in tasks && !task.status.Active?
    ensures WithinConcurrency(config, tasks[id := task], now)
  {
    assert Leased(tasks[id := task], now) <= Leased(tasks, now);
    SubsetIsNoLarger(Leased(tasks[id := task], now), Leased(tasks, now));
  }

  lemma LeavingKeepsLog(j: Uuid, config: Config, tasks: Tasks, log: seq<Start>, id: Uuid, task: Task,
                        nextId: Uuid, now: Time)
    requires LogAgrees(j, tasks, log, nextId) && id in tasks && LeavesActive(config, tasks[id], task, now)
    ensures LogAgrees(j, tasks[id := task], log, nextId)
  {
    var tasks' := tasks[id := task];
    forall other | other in tasks' ensures RowMatchesLog(tasks'[other], LastStart(log, other)) {
      assert RowMatchesLog(tasks[other], LastStart(log, other));
    }
    forall i | 0 <= i < |log| ensures StartMatchesRow(j, tasks', log[i], nextId) {
      assert StartMatchesRow(j, tasks, log[i], nextId);
    }
  }

  /** Back-off grows with the attempts, and there are at least as many attempts as queue starts. */
  lemma LeavingKeepsRowBackOff(config: Config, before: Task, after: Task, q: seq<Time>, now: Time)
    requires RowBacksOff(config, before, q) && LeavesActive(config, before, after, now)
    requires forall t | t in q :: t <= now
    ensures RowBacksOff(config, after, q)
  {
    if after.status.Queued? && q != [] {
      RetryDelayShape(|q|, before.attempts);
      assert q[|q| - 1] in q;
    }
  }

  lemma LeavingKeepsBackOff(config: Config, tasks: Tasks, log: seq<Start>, id: Uuid, task: Task, now: Time)
    requires BacksOff(config, tasks, log) && id in tasks && LeavesActive(config, tasks[id], task, now)
    requires forall i | 0 <= i < |log| :: log[i].at <= now
    ensures BacksOff(config, tasks[id := task], log)
  {
    var tasks' := tasks[id := task];
    forall other | other in tasks' ensures RowBacksOff(config, tasks'[other], QueueStarts(log, other)) {
      assert RowBacksOff(config, tasks[other], QueueStarts(log, other));
      if other == id {
        LeavingKeepsRowBackOff(config, tasks[id], task, QueueStarts(log, id), now);
      }
    }
  }

  lemma LeavingKeepsBudget(config: Config, tasks: Tasks, log: seq<Start>, id: Uuid, task: Task, now: Time)
    requires WithinBudget(config, tasks, log) && id in tasks && LeavesActive(config, tasks[id], task, now)
    ensures WithinBudget(config, tasks[id := task], log)
  {
    SumUpdate(tasks, ChancesLeft(config.maxRetries), id, task);
    assert tasks[id := task].Keys == tasks.Keys;
    assert |tasks[id := task]| == |tasks[id := task].Keys| && |tasks| == |tasks.Keys|;
  }

  lemma LeavingKeepsWork(lib: Library, j: Uuid, config: Config, tasks: Tasks, log: seq<Start>, id: Uuid,
                         task: Task, nextId: Uuid, now: Time)
    requires WorkInv(lib, j, config, tasks, log, nextId, now) && id in tasks
    requires LeavesActive(config, tasks[id], task, now)
    requires forall i | 0 <= i < |log| :: log[i].at <= now
    ensures WorkInv(lib, j, config, tasks[id := task], log, nextId, now)
  {
    UpdateKeepsFrontier(lib, j, config, tasks, id, task, nextId);
    UpdateKeepsShapes(config, tasks, id, task, now);
    LeavingKeepsConcurrency(config, tasks, id, task, now);
    LeavingKeepsLog(j, config, tasks, log, id, task, nextId, now);
    LeavingKeepsBackOff(config, tasks, log, id, task, now);
    LeavingKeepsBudget(config, tasks, log, id, task, now);
  }

  // ---------- Finish: inserted links ----------

  /** The links a worker reports for a page at a given depth. */
  predicate LinksOk(lib: Library, config: Config, depth: int, links: seq<Url>) {
    links != [] ==>
      && config.jobType.CrawlJob?
      && DepthOk(config, depth)
      && forall u | u in links :: UrlAllowed(lib, config, u)
  }

  lemma OutcomeLinksOk(lib: Library, config: Config, claim: ClaimedTask, robotsAllow: bool,
                       scraped: Result<Page, ScrapeError>, mapped: Option<seq<Url>>)
    requires DepthOk(config, claim.depth)
    ensures var outcome := WorkOutcome(lib, config, claim, robotsAllow, scraped, mapped);
            outcome.Success? ==> LinksOk(lib, config, claim.depth + 1, outcome.links)
  {
  }

  lemma GrowthKeepsFrontier(lib: Library, j: Uuid, config: Config, tasks: Tasks, more: Tasks,
                            links: seq<Url>, depth: int, nextId: Uuid, now: Time)
    requires Frontier(lib, j, config, tasks, nextId) && LinksOk(lib, config, depth, links)
    requires Grows(lib, config, tasks, more, j, links, depth, nextId, now)
    ensures Frontier(lib, j, config, more, nextId + |links|)
  {
    forall id | id in more
      ensures id < nextId + |links| && more[id].crawlId == j && RowInFrontier(lib, config, more[id])
    {
      if id in tasks {
        assert more[id] == tasks[id];
      }
    }
  }

  lemma GrowthKeepsShapes(lib: Library, j: Uuid, config: Config, tasks: Tasks, more: Tasks,
                          links: seq<Url>, depth: int, nextId: Uuid, now: Time)
    requires Shapes(config, tasks, now) && SchemaOk(config)
    requires Grows(lib, config, tasks, more, j, links, depth, nextId, now)
    ensures Shapes(config, more, now)
    ensures Leased(more, now) == Leased(tasks, now)
  {
  }

  lemma GrowthKeepsLog(lib: Library, j: Uuid, config: Config, tasks: Tasks, more: Tasks, log: seq<Start>,
                       links: seq<Url>, depth: int, nextId: Uuid, now: Time)
    requires LogAgrees(j, tasks, log, nextId)
    requires Grows(lib, config, tasks, more, j, links, depth, nextId, now)
    ensures LogAgrees(j, more, log, nextId + |links|)
  {
    forall i | 0 <= i < |log| ensures StartMatchesRow(j, more, log[i], nextId + |links|) {
      assert StartMatchesRow(j, tasks, log[i], nextId);
    }
    forall id | id in more ensures RowMatchesLog(more[id], LastStart(log, id)) {
      if id in tasks {
        assert more[id] == tasks[id];
      } else {
        NewTaskHasNoHistory(j, tasks, log, id, nextId);
      }
    }
  }

  lemma GrowthKeepsBackOff(lib: Library, j: Uuid, config: Config, tasks: Tasks, more: Tasks, log: seq<Start>,
                           links: seq<Url>, depth: int, nextId: Uuid, now: Time)
    requires BacksOff(config, tasks, log) && LogAgrees(j, tasks, log, nextId) && SchemaOk(config)
    requires Grows(lib, config, tasks, more, j, links, depth, nextId, now)
    ensures BacksOff(config, more, log)
  {
    forall id | id in more ensures RowBacksOff(config, more[id], QueueStarts(log, id)) {
      if id in tasks {
        assert more[id] == tasks[id];
      } else {
        NewTaskHasNoHistory(j, tasks, log, id, nextId);
      }
    }
  }

  lemma GrowthKeepsBudget(lib: Library, j: Uuid, config: Config, tasks: Tasks, log: seq<Start>,
                          links: seq<Url>, depth: int, nextId: Uuid, now: Time)
    requires WithinBudget(config, tasks, log) && SchemaOk(config)
    requires forall id | id in tasks :: id < nextId
    ensures WithinBudget(config, InsertLinks(lib, config, tasks, j, links, depth, nextId, now), log)
  {
    var r := config.maxRetries;
    InsertLinksSum(lib, config, tasks, j, links, depth, nextId, now, ChancesLeft(r), r + 1);
  }

  lemma GrowthKeepsLeases(lib: Library, j: Uuid, config: Config, tasks: Tasks, more: Tasks,
                          links: seq<Url>, depth: int, firstId: Uuid, now: Time)
    requires Grows(lib, config, tasks, more, j, links, depth, firstId, now)
    ensures Leased(more, now) == Leased(tasks, now)
  {
    hide NoDuplicates, DedupKey;
  }

  lemma GrowthKeepsWork(lib: Library, j: Uuid, config: Config, tasks: Tasks, log: seq<Start>,
                        links: seq<Url>, depth: int, nextId: Uuid, now: Time)
    requires WorkInv(lib, j, config, tasks, log, nextId, now) && LinksOk(lib, config, depth, links)
    ensures WorkInv(lib, j, config, InsertLinks(lib, config, tasks, j, links, depth, nextId, now),
                    log, nextId + |links|, now)
  {
    hide InsertLinks, Grows, Shapes, Leased, LogAgrees, BacksOff, WithinBudget, NoDuplicates, LinksOk;
    var more := InsertLinks(lib, config, tasks, j, links, depth, nextId, now);
    InsertLinksGrows(lib, config, tasks, j, links, depth, nextId, now);
    GrowthKeepsLeases(lib, j, config, tasks, more, links, depth, nextId, now);
    GrowthKeepsFrontier(lib, j, config, tasks, more, links, depth, nextId, now);
    GrowthKeepsShapes(lib, j, config, tasks, more, links, depth, nextId, now);
    GrowthKeepsLog(lib, j, config, tasks, more, log, links, depth, nextId, now);
    GrowthKeepsBackOff(lib, j, config, tasks, more, log, links, depth, nextId, now);
    GrowthKeepsBudget(lib, j, config, tasks, log, links, depth, nextId, now);
  }

  // ---------- Finish: closing the job ----------

  lemma ClosingKeepsInv(lib: Library, j: Uuid, rows: Rows, log: seq<Start>, nextId: Uuid, now: Time)
    requires WorkInv(lib, j, rows.job.config, rows.tasks, log, nextId, now)
    requires Paced(rows.job.config, rows.job.lastTaskStartedAt, log, now)
    requires rows.job.cancelRequested <==> rows.job.status.Cancelled?
    requires !rows.job.status.Done?
    ensures CrawlInv(lib, j, Crawl(CompleteIfDrained(rows, now), log), nextId, now)
  {
  }

  /** A claim whose row is still active under its token describes that row. */
  lemma CurrentClaimMatches(j: Uuid, tasks: Tasks, log: seq<Start>, index: nat, nextId: Uuid)
    requires LogAgrees(j, tasks, log, nextId) && index < |log| && Current(tasks, log[index].claim)
    ensures var claim := log[index].claim;
            && LastStart(log, claim.id) == Some(log[index])
            && claim.crawlId == j
            && tasks[claim.id].attempts == claim.attempts
            && tasks[claim.id].depth == claim.depth
            && claim.attempts >= 1
  {
    var claim := log[index].claim;
    assert StartMatchesRow(j, tasks, log[index], nextId);
    assert RowMatchesLog(tasks[claim.id], LastStart(log, claim.id));
    var last := LastStart(log, claim.id).value;
    var k :| 0 <= k < |log| && log[k] == last;
    assert k == index;
  }

  lemma FailureLeavesActive(config: Config, job: Job, task: Task, error: ScrapeError, now: Time)
    requires RowShape(config, task, now) && task.status.Active? && task.attempts >= 1 && job.config == config
    ensures RetryDelaySeconds(task.attempts).Some?
    ensures LeavesActive(config, task, FailedOnce(job, task, error, RetryDelaySeconds(task.attempts).value, now), now)
  {
    RetryDelayShape(task.attempts, task.attempts);
  }

  lemma RunningWhileActive(rows: Rows, id: Uuid)
    requires DrainExact(rows) && id in rows.tasks && rows.tasks[id].status.Active?
    ensures !rows.job.status.Done?
  {
    assert Open(rows.tasks[id]);
  }

  lemma FailureKeepsWork(lib: Library, j: Uuid, job: Job, tasks: Tasks, log: seq<Start>, index: nat,
                         error: ScrapeError, nextId: Uuid, now: Time)
    requires WorkInv(lib, j, job.config, tasks, log, nextId, now) && index < |log|
    requires Current(tasks, log[index].claim)
    requires forall i | 0 <= i < |log| :: log[i].at <= now
    ensures RetryDelaySeconds(log[index].claim.attempts).Some?
    ensures var claim := log[index].claim;
            var task := FailedOnce(job, tasks[claim.id], error, RetryDelaySeconds(claim.attempts).value, now);
            WorkInv(lib, j, job.config, tasks[claim.id := task], log, nextId, now)
  {
    var claim := log[index].claim;
    CurrentClaimMatches(j, tasks, log, index, nextId);
    assert RowShape(job.config, tasks[claim.id], now);
    FailureLeavesActive(job.config, job, tasks[claim.id], error, now);
    var task := FailedOnce(job, tasks[claim.id], error, RetryDelaySeconds(claim.attempts).value, now);
    LeavingKeepsWork(lib, j, job.config, tasks, log, claim.id, task, nextId, now);
  }

  lemma FailureStepIs(lib: Library, c: Crawl, claim: ClaimedTask, error: ScrapeError, nextId: Uuid, now: Time)
    requires Current(c.rows.tasks, claim) && RetryDelaySeconds(claim.attempts).Some?
    ensures var delay := RetryDelaySeconds(claim.attempts).value;
            var task := FailedOnce(c.rows.job, c.rows.tasks[claim.id], error, delay, now);
            FinishStep(lib, c, claim, Failure(error), nextId, now)
            == Crawl(CompleteIfDrained(Rows(c.rows.job, c.rows.tasks[claim.id := task]), now), c.log)
  {
  }

  lemma FailureKeepsInv(lib: Library, j: Uuid, c: Crawl, index: nat, error: ScrapeError, nextId: Uuid, now: Time)
    requires CrawlInv(lib, j, c, nextId, now) && index < |c.log|
    requires Current(c.rows.tasks, c.log[index].claim)
    ensures CrawlInv(lib, j, FinishStep(lib, c, c.log[index].claim, Failure(error), nextId, now), nextId, now)
  {
    var claim, job := c.log[index].claim, c.rows.job;
    FailureKeepsWork(lib, j, job, c.rows.tasks, c.log, index, error, nextId, now);
    RunningWhileActive(c.rows, claim.id);
    var task := FailedOnce(job, c.rows.tasks[claim.id], error, RetryDelaySeconds(claim.attempts).value, now);
    ClosingKeepsInv(lib, j, Rows(job, c.rows.tasks[claim.id := task]), c.log, nextId, now);
    FailureStepIs(lib, c, claim, error, nextId, now);
  }

  function IdsTaken(job: Job, links: seq<Url>): nat {
    if job.cancelRequested then 0 else |links|
  }

  lemma SuccessRowKeepsWork(lib: Library, j: Uuid, config: Config, tasks: Tasks, log: seq<Start>, index: nat,
                            page: Page, nextId: Uuid, now: Time)
    requires WorkInv(lib, j, config, tasks, log, nextId, now) && index < |log|
    requires Current(tasks, log[index].claim)
    requires forall i | 0 <= i < |log| :: log[i].at <= now
    ensures var claim := log[index].claim;
            && claim.crawlId == j
            && WorkInv(lib, j, config, tasks[claim.id := Succeeded(tasks[claim.id], page, now)], log, nextId, now)
  {
    var claim := log[index].claim;
    CurrentClaimMatches(j, tasks, log, index, nextId);
    assert RowShape(config, tasks[claim.id], now);
    LeavingKeepsWork(lib, j, config, tasks, log, claim.id, Succeeded(tasks[claim.id], page, now), nextId, now);
  }

  lemma SuccessKeepsWork(lib: Library, j: Uuid, job: Job, tasks: Tasks, log: seq<Start>, index: nat,
                         page: Page, links: seq<Url>, nextId: Uuid, now: Time)
    requires WorkInv(lib, j, job.config, tasks, log, nextId, now) && index < |log|
    requires Current(tasks, log[index].claim)
    requires LinksOk(lib, job.config, log[index].claim.depth + 1, links)
    requires forall i | 0 <= i < |log| :: log[i].at <= now
    ensures WorkInv(lib, j, job.config, TasksAfterSuccess(lib, job, tasks, log[index].claim, page, links, nextId, now),
                    log, nextId + IdsTaken(job, links), now)
  {
    hide Frontier, Shapes, LogAgrees, BacksOff, WithinBudget, WithinConcurrency;
    var claim := log[index].claim;
    var task := Succeeded(tasks[claim.id], page, now);
    SuccessRowKeepsWork(lib, j, job.config, tasks, log, index, page, nextId, now);
    if !job.cancelRequested {
      GrowthKeepsWork(lib, j, job.config, tasks[claim.id := task], log, links, claim.depth + 1, nextId, now);
    }
  }

  lemma SuccessStepIs(lib: Library, c: Crawl, claim: ClaimedTask, page: Page, links: seq<Url>, nextId: Uuid, now: Time)
    requires Current(c.rows.tasks, claim)
    ensures var tasks := TasksAfterSuccess(lib, c.rows.job, c.rows.tasks, claim, page, links, nextId, now);
            FinishStep(lib, c, claim, Success(page, links), nextId, now)
            == Crawl(CompleteIfDrained(Rows(c.rows.job, tasks), now), c.log)
  {
  }

  lemma SuccessKeepsInv(lib: Library, j: Uuid, c: Crawl, index: nat, page: Page, links: seq<Url>,
                        nextId: Uuid, now: Time)
    requires CrawlInv(lib, j, c, nextId, now) && index < |c.log|
    requires Current(c.rows.tasks, c.log[index].claim)
    requires LinksOk(lib, c.rows.job.config, c.log[index].claim.depth + 1, links)
    ensures CrawlInv(lib, j, FinishStep(lib, c, c.log[index].claim, Success(page, links), nextId, now),
                     nextId + IdsTaken(c.rows.job, links), now)
  {
    hide Frontier, Shapes, LogAgrees, BacksOff, WithinBudget, WithinConcurrency, WorkInv;
    var claim, job := c.log[index].claim, c.rows.job;
    RunningWhileActive(c.rows, claim.id);
    SuccessKeepsWork(lib, j, job, c.rows.tasks, c.log, index, page, links, nextId, now);
    ClosingKeepsInv(lib, j, Rows(job, TasksAfterSuccess(lib, job, c.rows.tasks, claim, page, links, nextId, now)),
                    c.log, nextId + IdsTaken(job, links), now);
    SuccessStepIs(lib, c, claim, page, links, nextId, now);
  }

  // ---------- The other steps ----------

  lemma InvMonotone(lib: Library, j: Uuid, c: Crawl, nextId: Uuid, later: Uuid, now: Time, after: Time)
    requires CrawlInv(lib, j, c, nextId, now) && nextId <= later && now <= after
    ensures CrawlInv(lib, j, c, later, after)
  {
    var config, tasks := c.rows.job.config, c.rows.tasks;
    FrontierMonotone(lib, j, config, tasks, nextId, later);
    LogMonotone(j, tasks, c.log, nextId, later);
    forall id | id in tasks ensures RowShape(config, tasks[id], after) {
      assert RowShape(config, tasks[id], now);
    }
    assert Leased(tasks, after) <= Leased(tasks, now);
    SubsetIsNoLarger(Leased(tasks, after), Leased(tasks, now));
  }

  lemma CancelKeepsInv(lib: Library, j: Uuid, c: Crawl, nextId: Uuid, now: Time)
    requires CrawlInv(lib, j, c, nextId, now)
    ensures CrawlInv(lib, j, CancelStep(c, now), nextId, now)
  {
  }

  /** A crawl whose tasks are all new. */
  lemma NewCrawlInv(lib: Library, j: Uuid, rows: Rows, retentionDays: nat, nextId: Uuid, now: Time)
    requires Frontier(lib, j, rows.job.config, rows.tasks, nextId)
    requires rows.job == NewJob(rows.job.config, retentionDays, now)
    requires AllNew(j, rows.tasks, now)
    ensures CrawlInv(lib, j, Crawl(rows, []), nextId, now)
  {
    hide Frontier, AllNew;
    NewTasksWork(lib, j, rows.job.config, rows.tasks, nextId, now);
    NewTasksAreOpen(lib, j, rows.job.config, rows.tasks, nextId, now);
  }

  ghost predicate AllNew(j: Uuid, tasks: Tasks, now: Time) {
    forall id | id in tasks ::
      tasks[id] == NewTask(j, tasks[id].url, tasks[id].dedupKey, tasks[id].depth, now)
  }

  lemma NewTasksWork(lib: Library, j: Uuid, config: Config, tasks: Tasks, nextId: Uuid, now: Time)
    requires Frontier(lib, j, config, tasks, nextId) && AllNew(j, tasks, now)
    ensures WorkInv(lib, j, config, tasks, [], nextId, now)
  {
    hide NoDuplicates, RowInFrontier;
    assert Leased(tasks, now) == {};
    SumConstant(tasks, ChancesLeft(config.maxRetries), config.maxRetries + 1);
  }

  lemma NewTasksAreOpen(lib: Library, j: Uuid, config: Config, tasks: Tasks, nextId: Uuid, now: Time)
    requires Frontier(lib, j, config, tasks, nextId) && AllNew(j, tasks, now)
    ensures !Drained(tasks)
  {
    hide NoDuplicates, RowInFrontier;
    assert |tasks.Keys| > 0;
    var id :| id in tasks.Keys;
    assert Open(tasks[id]);
  }
}
