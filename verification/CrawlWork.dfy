/**
 Bounded total work: a measure that strictly drops with every task taken from the queue and with
 every finish that takes effect, even one that inserts links, and never grows.
 */
module CrawlWork {
  import opened CrawlRows
  import opened CrawlStatements
  import opened CrawlMachine
  import opened CrawlInvariants
  import opened CrawlPreservation
  import opened CrawlSafety
  import opened Sums

  function WorkOfTask(maxRetries: int): Task -> nat {
    (task: Task) =>
      var chances := 2 * Max(maxRetries + 1 - task.attempts, 0);
      if task.status.Queued? then chances
      else if task.status.Active? then chances + 1
      else 0
  }

  /** The work a page not yet discovered can cause. */
  function WorkOfPage(config: Config): int {
    2 * (config.maxRetries + 1)
  }

  ghost function WorkOf(config: Config, tasks: map<Uuid, Task>): int {
    WorkOfPage(config) * (config.pageLimit - |tasks|) + Sum(tasks, WorkOfTask(config.maxRetries))
  }

  ghost function Work(c: Crawl): int {
    WorkOf(c.rows.job.config, c.rows.tasks)
  }

  lemma WorkAfterUpdate(config: Config, tasks: map<Uuid, Task>, id: Uuid, task: Task)
    requires id in tasks
    ensures WorkOf(config, tasks[id := task])
            == WorkOf(config, tasks) - WorkOfTask(config.maxRetries)(tasks[id]) + WorkOfTask(config.maxRetries)(task)
  {
    SumUpdate(tasks, WorkOfTask(config.maxRetries), id, task);
    assert tasks[id := task].Keys == tasks.Keys;
    assert |tasks[id := task]| == |tasks[id := task].Keys| && |tasks| == |tasks.Keys|;
  }

  /** Turning a page that may still be found into a queued task moves work, it does not add any. */
  lemma WorkAfterInserts(lib: Library, config: Config, tasks: map<Uuid, Task>, j: Uuid,
                         links: seq<Url>, depth: int, firstId: Uuid, now: Time)
    requires SchemaOk(config) && forall id | id in tasks :: id < firstId
    ensures WorkOf(config, InsertLinks(lib, config, tasks, j, links, depth, firstId, now)) == WorkOf(config, tasks)
  {
    hide Sum, InsertLinks;
    var w, n := WorkOfPage(config), |InsertLinks(lib, config, tasks, j, links, depth, firstId, now)|;
    InsertLinksSum(lib, config, tasks, j, links, depth, firstId, now, WorkOfTask(config.maxRetries), w);
    Split(w, config.pageLimit, n);
    Split(w, config.pageLimit, |tasks|);
  }

  lemma Split(w: int, a: int, b: int)
    ensures w * (a - b) == w * a - w * b
  {
  }

  lemma ClaimWork(config: Config, rows: Rows, id: Uuid, token: Uuid, now: Time)
    requires Claimable(rows, id, now) && rows.job.config == config
    requires RowShape(config, rows.tasks[id], now)
    ensures WorkOf(config, ClaimRows(rows, id, token, now).tasks)
            <= WorkOf(config, rows.tasks) - (if rows.tasks[id].status.Queued? then 1 else 0)
  {
    WorkAfterUpdate(config, rows.tasks, id, Started(rows.tasks[id], token, now));
  }

  lemma FailureWork(lib: Library, j: Uuid, c: Crawl, index: nat, error: ScrapeError, nextId: Uuid, now: Time)
    requires LogAgrees(j, c.rows.tasks, c.log, nextId) && index < |c.log| && SchemaOk(c.rows.job.config)
    requires Current(c.rows.tasks, c.log[index].claim)
    ensures Work(FinishStep(lib, c, c.log[index].claim, Failure(error), nextId, now)) < Work(c)
  {
    hide LogAgrees, WorkOf;
    var claim := c.log[index].claim;
    CurrentClaimMatches(j, c.rows.tasks, c.log, index, nextId);
    RetryDelayShape(claim.attempts, claim.attempts);
    FailureStepIs(lib, c, claim, error, nextId, now);
    WorkAfterUpdate(c.rows.job.config, c.rows.tasks, claim.id,
      FailedOnce(c.rows.job, c.rows.tasks[claim.id], error, RetryDelaySeconds(claim.attempts).value, now));
  }

  lemma SuccessWork(lib: Library, c: Crawl, claim: ClaimedTask, page: Page, links: seq<Url>, nextId: Uuid, now: Time)
    requires SchemaOk(c.rows.job.config) && forall id | id in c.rows.tasks :: id < nextId
    requires Current(c.rows.tasks, claim)
    ensures Work(FinishStep(lib, c, claim, Success(page, links), nextId, now)) < Work(c)
  {
    hide WorkOf, InsertLinks;
    SuccessStepIs(lib, c, claim, page, links, nextId, now);
    var config := c.rows.job.config;
    var updated := c.rows.tasks[claim.id := Succeeded(c.rows.tasks[claim.id], page, now)];
    WorkAfterUpdate(config, c.rows.tasks, claim.id, Succeeded(c.rows.tasks[claim.id], page, now));
    WorkAfterInserts(lib, config, updated, claim.crawlId, links, claim.depth + 1, nextId, now);
  }

  /** A step that takes one of j's tasks from the queue, or a finish of j that takes effect. */
  predicate Productive(s: Store, step: Step, j: Uuid) {
    && j in s.crawls
    && var c := s.crawls[j];
       || (step.Claim? && step.crawlId == j && Claimable(c.rows, step.taskId, s.now)
           && c.rows.tasks[step.taskId].status.Queued?)
       || (step.Finish? && step.crawlId == j && step.index < |c.log|
           && Current(c.rows.tasks, c.log[step.index].claim))
  }

  function ProductiveSteps(w: World, s: Store, steps: seq<Step>, j: Uuid): nat
    decreases |steps|
  {
    if steps == [] then 0 else
    (if Productive(s, steps[0], j) then 1 else 0) + ProductiveSteps(w, Next(w, s, steps[0]), steps[1..], j)
  }

  lemma ClaimStepWork(lib: Library, j: Uuid, c: Crawl, id: Uuid, token: Uuid, now: Time)
    requires CrawlInv(lib, j, c, token, now)
    ensures Work(ClaimStep(c, id, token, now))
            <= Work(c) - (if Claimable(c.rows, id, now) && c.rows.tasks[id].status.Queued? then 1 else 0)
  {
    hide WorkOf, Frontier, LogAgrees, BacksOff, WithinBudget, Paced;
    if Claimable(c.rows, id, now) {
      assert RowShape(c.rows.job.config, c.rows.tasks[id], now);
      ClaimWork(c.rows.job.config, c.rows, id, token, now);
    }
  }

  lemma FinishStepWork(w: World, j: Uuid, c: Crawl, step: Step, nextId: Uuid, now: Time)
    requires CrawlInv(w.lib, j, c, nextId, now) && step.Finish? && step.index < |c.log|
    ensures Work(FinishStep(w.lib, c, c.log[step.index].claim, OutcomeOf(w, c, step), nextId, now))
            <= Work(c) - (if Current(c.rows.tasks, c.log[step.index].claim) then 1 else 0)
  {
    hide FinishStep, LogAgrees, Shapes, BacksOff, WithinBudget, Paced, DrainExact, WorkOf;
    var claim, outcome := c.log[step.index].claim, OutcomeOf(w, c, step);
    if !Current(c.rows.tasks, claim) {
      StaleFinishChangesNothing(w.lib, c, claim, outcome, nextId, now);
    } else {
      match outcome
      case Success(page, links) => SuccessWork(w.lib, c, claim, page, links, nextId, now);
      case Failure(error) => FailureWork(w.lib, j, c, step.index, error, nextId, now);
    }
  }

  /** The measure drops with every productive step and never grows with any other. */
  lemma StepWork(w: World, s: Store, step: Step, j: Uuid)
    requires StoreInv(w, s) && j in s.crawls && j in Next(w, s, step).crawls
    ensures Work(Next(w, s, step).crawls[j]) <= Work(s.crawls[j]) - (if Productive(s, step, j) then 1 else 0)
  {
    hide CrawlInv, ClaimStep, FinishStep, WorkOf, Claimable;
    if step.Claim? && step.crawlId == j {
      ClaimStepWork(w.lib, j, s.crawls[j], step.taskId, s.nextId, s.now);
    } else if step.Finish? && step.crawlId == j && step.index < |s.crawls[j].log| {
      FinishStepWork(w, j, s.crawls[j], step, s.nextId, s.now);
    }
  }

  lemma WorkBounds(lib: Library, j: Uuid, c: Crawl, nextId: Uuid, now: Time)
    requires CrawlInv(lib, j, c, nextId, now)
    ensures 0 <= Work(c)
  {
    hide Shapes, LogAgrees, BacksOff, WithinBudget, Paced, DrainExact, Sum;
    assert WorkOfPage(c.rows.job.config) * (c.rows.job.config.pageLimit - |c.rows.tasks|) >= 0;
  }

  lemma {:induction false} NoWorkAfterRemoval(w: World, s: Store, steps: seq<Step>, j: Uuid)
    requires j < s.nextId && j !in s.crawls
    ensures ProductiveSteps(w, s, steps, j) == 0
    decreases |steps|
  {
    if steps == [] {
    } else {
      NoWorkAfterRemoval(w, Next(w, s, steps[0]), steps[1..], j);
    }
  }

  /** From any reachable state on, a run contains at most Work(c) productive steps of a crawl. */
  lemma {:induction false} ProductiveStepsAreBounded(w: World, s: Store, steps: seq<Step>, j: Uuid)
    requires StoreInv(w, s) && j in s.crawls
    ensures ProductiveSteps(w, s, steps, j) <= Work(s.crawls[j])
    decreases |steps|
  {
    hide CrawlInv, Work, Claimable;
    WorkBounds(w.lib, j, s.crawls[j], s.nextId, s.now);
    if steps == [] {
    } else {
      var next := Next(w, s, steps[0]);
      NextKeepsInv(w, s, steps[0]);
      if j in next.crawls {
        StepWork(w, s, steps[0], j);
        ProductiveStepsAreBounded(w, next, steps[1..], j);
      } else {
        NoWorkAfterRemoval(w, next, steps[1..], j);
      }
    }
  }

  lemma NewTasksWork(config: Config, tasks: map<Uuid, Task>)
    requires SchemaOk(config)
    requires forall id | id in tasks :: tasks[id].status.Queued? && tasks[id].attempts == 0
    ensures WorkOf(config, tasks) == WorkOfPage(config) * config.pageLimit
  {
    hide Sum;
    SumConstant(tasks, WorkOfTask(config.maxRetries), WorkOfPage(config));
    Split(WorkOfPage(config), config.pageLimit, |tasks|);
  }

  /** In every reachable state, a step of anyone leaves the measure of a crawl where it is or lowers
      it, and a productive step lowers it. */
  lemma WorkNeverGrows(w: World, now: Time, first: seq<Step>, step: Step, j: Uuid)
    requires j in Run(w, Empty(now), first).crawls
    requires j in Next(w, Run(w, Empty(now), first), step).crawls
    ensures var s := Run(w, Empty(now), first);
            && Work(Next(w, s, step).crawls[j]) <= Work(s.crawls[j])
            && (Productive(s, step, j) ==> Work(Next(w, s, step).crawls[j]) < Work(s.crawls[j]))
  {
    hide Work, Next, StoreInv;
    ReachableInv(w, now, first);
    StepWork(w, Run(w, Empty(now), first), step, j);
  }

  /** So from any reachable state on, whatever happens, a crawl takes at most as many productive
      steps as its measure says. */
  lemma WorkBoundsProductiveSteps(w: World, now: Time, first: seq<Step>, then_: seq<Step>, j: Uuid)
    requires j in Run(w, Empty(now), first).crawls
    ensures var s := Run(w, Empty(now), first);
            ProductiveSteps(w, s, then_, j) <= Work(s.crawls[j])
  {
    hide Work, Next, StoreInv;
    ReachableInv(w, now, first);
    ProductiveStepsAreBounded(w, Run(w, Empty(now), first), then_, j);
  }

  /** From its enqueue to its removal, no matter how its links are connected and how the workers
      behave, a crawl takes at most 2 * (max_retries + 1) * page_limit productive steps. */
  lemma TotalWorkIsBounded(w: World, now: Time, first: seq<Step>, request: CrawlRequest, then_: seq<Step>)
    requires var s := Run(w, Empty(now), first);
             s.nextId in Next(w, s, Enqueue(request)).crawls
    ensures var s := Run(w, Empty(now), first);
            var next := Next(w, s, Enqueue(request));
            var config := next.crawls[s.nextId].rows.job.config;
            ProductiveSteps(w, next, then_, s.nextId) <= 2 * (config.maxRetries + 1) * config.pageLimit
  {
    hide CrawlInv, WorkOf;
    var s := Run(w, Empty(now), first);
    var next := Next(w, s, Enqueue(request));
    ReachableInv(w, now, first);
    NextKeepsInv(w, s, Enqueue(request));
    NewCrawlWork(w, s, request);
    ProductiveStepsAreBounded(w, next, then_, s.nextId);
  }

  lemma NewCrawlWork(w: World, s: Store, request: CrawlRequest)
    requires StoreInv(w, s) && s.nextId in Next(w, s, Enqueue(request)).crawls
    ensures var c := Next(w, s, Enqueue(request)).crawls[s.nextId];
            Work(c) == WorkOfPage(c.rows.job.config) * c.rows.job.config.pageLimit
  {
    hide CrawlInv, WorkOf;
    var rows := Next(w, s, Enqueue(request)).crawls[s.nextId].rows;
    NewTasksWork(rows.job.config, rows.tasks);
  }

  /** So does a batch, whose page limit is its number of URLs. */
  lemma TotalBatchWorkIsBounded(w: World, now: Time, first: seq<Step>, request: BatchRequest, then_: seq<Step>)
    requires var s := Run(w, Empty(now), first);
             s.nextId in Next(w, s, EnqueueBatch(request)).crawls
    ensures var s := Run(w, Empty(now), first);
            var next := Next(w, s, EnqueueBatch(request));
            var rows := next.crawls[s.nextId].rows;
            && rows.job.config.pageLimit == |rows.tasks|
            && ProductiveSteps(w, next, then_, s.nextId) <= 2 * (rows.job.config.maxRetries + 1) * |rows.tasks|
  {
    hide StoreInv, Work, Next, Run;
    var s := Run(w, Empty(now), first);
    var next := Next(w, s, EnqueueBatch(request));
    ReachableInv(w, now, first);
    NextKeepsInv(w, s, EnqueueBatch(request));
    NewBatchWork(w, s, request);
    ProductiveStepsAreBounded(w, next, then_, s.nextId);
  }

  lemma NewBatchWork(w: World, s: Store, request: BatchRequest)
    requires StoreInv(w, s) && s.nextId in Next(w, s, EnqueueBatch(request)).crawls
    ensures var c := Next(w, s, EnqueueBatch(request)).crawls[s.nextId];
            && c.rows.job.config.pageLimit == |c.rows.tasks|
            && Work(c) == WorkOfPage(c.rows.job.config) * c.rows.job.config.pageLimit
  {
    hide CrawlInv, WorkOf, Distinct, NormalizeAll, BatchTasks;
    var rows := Next(w, s, EnqueueBatch(request)).crawls[s.nextId].rows;
    var urls := Distinct(NormalizeAll(w.lib, request.urls).value);
    BatchTaskCount(urls, s.nextId, s.nextId + 1, s.now);
    NewTasksWork(rows.job.config, rows.tasks);
  }
}
