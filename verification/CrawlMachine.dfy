/**
 The whole queue as a state machine. Workers, clients and the clock take steps in any order; a
 worker that claimed a task may finish it at any later time, twice, or never.
 Each crawl carries, beside its rows, the history of its task starts.
 */
module CrawlMachine {
  import opened Wrappers
  import opened CrawlRows
  import opened CrawlStatements

  /** One effective claim: what was handed out, when, and whether the task came from the queue
      (otherwise the expired lease of another worker was taken over). */
  datatype Start = Start(claim: ClaimedTask, at: Time, fromQueue: bool)

  datatype Crawl = Crawl(rows: Rows, log: seq<Start>)

  /** Identifiers come from one supply of never repeated values, `nextId` being the next one. */
  datatype Store = Store(crawls: map<Uuid, Crawl>, usedKeys: set<Uuid>, nextId: Uuid, now: Time)

  datatype Step =
    | Tick(elapsed: nat)
    | Enqueue(request: CrawlRequest)
    | EnqueueBatch(batch: BatchRequest)
    | Claim(crawlId: Uuid, taskId: Uuid)
    | Finish(crawlId: Uuid, index: nat, robotsAllow: bool,
             scraped: Result<Page, ScrapeError>, mapped: Option<seq<Url>>)
    | Cancel(crawlId: Uuid)
    | Cleanup

  /** What stays fixed during a run. */
  datatype World = World(lib: Library, retentionDays: nat)

  function ClaimStep(c: Crawl, id: Uuid, token: Uuid, now: Time): Crawl {
    if !Claimable(c.rows, id, now) then c else
    Crawl(ClaimRows(c.rows, id, token, now),
          c.log + [Start(ClaimOf(c.rows.tasks[id], id, token), now, c.rows.tasks[id].status.Queued?)])
  }

  function FinishStep(lib: Library, c: Crawl, claim: ClaimedTask, outcome: Outcome,
                      firstId: Uuid, now: Time): Crawl
  {
    c.(rows := FinishRows(lib, c.rows, claim, outcome, firstId, now))
  }

  function CancelStep(c: Crawl, now: Time): Crawl {
    c.(rows := CancelRows(c.rows, now))
  }

  function OutcomeOf(w: World, c: Crawl, step: Step): Outcome
    requires step.Finish? && step.index < |c.log|
  {
    WorkOutcome(w.lib, c.rows.job.config, c.log[step.index].claim, step.robotsAllow,
                step.scraped, step.mapped)
  }

  /** A finish takes one id per link it tries to insert. */
  function IdsUsed(c: Crawl, claim: ClaimedTask, outcome: Outcome): nat {
    if outcome.Success? && Current(c.rows.tasks, claim) && !c.rows.job.cancelRequested
    then |outcome.links| else 0
  }

  /** A step that cannot be taken leaves the store as it is. */
  function Next(w: World, s: Store, step: Step): Store {
    match step
    case Tick(elapsed) => s.(now := s.now + elapsed)
    case Enqueue(request) =>
      (match EnqueueRows(w.lib, request, s.usedKeys, s.nextId, s.nextId + 1, w.retentionDays, s.now)
       case Err(_) => s
       case Ok(rows) =>
         s.(crawls := s.crawls[s.nextId := Crawl(rows, [])], nextId := s.nextId + 2,
            usedKeys := if request.idempotencyKey.Key? then s.usedKeys + {request.idempotencyKey.id}
                        else s.usedKeys))
    case EnqueueBatch(request) =>
      (match EnqueueBatchRows(w.lib, request, s.nextId, s.nextId + 1, w.retentionDays, s.now)
       case Err(_) => s
       case Ok(rows) =>
         s.(crawls := s.crawls[s.nextId := Crawl(rows, [])], nextId := s.nextId + 1 + |rows.tasks|))
    case Claim(crawlId, taskId) =>
      if crawlId !in s.crawls then s else
      s.(crawls := s.crawls[crawlId := ClaimStep(s.crawls[crawlId], taskId, s.nextId, s.now)],
         nextId := s.nextId + 1)
    case Finish(crawlId, index, _, _, _) =>
      if crawlId !in s.crawls || index >= |s.crawls[crawlId].log| then s else
      var c := s.crawls[crawlId];
      var outcome := OutcomeOf(w, c, step);
      s.(crawls := s.crawls[crawlId := FinishStep(w.lib, c, c.log[index].claim, outcome, s.nextId, s.now)],
         nextId := s.nextId + IdsUsed(c, c.log[index].claim, outcome))
    case Cancel(crawlId) =>
      if crawlId !in s.crawls then s else
      s.(crawls := s.crawls[crawlId := CancelStep(s.crawls[crawlId], s.now)])
    case Cleanup =>
      s.(crawls := map j | j in s.crawls && !Expired(s.crawls[j].rows.job, s.now) :: s.crawls[j])
  }

  function Run(w: World, s: Store, steps: seq<Step>): Store
    decreases |steps|
  {
    if steps == [] then s else Run(w, Next(w, s, steps[0]), steps[1..])
  }

  function Empty(now: Time): Store {
    Store(map[], {}, 0, now)
  }

  /** Appending a step to a run takes that step from its end. */
  lemma {:induction false} RunExtended(w: World, s: Store, steps: seq<Step>, step: Step)
    ensures Run(w, s, steps + [step]) == Next(w, Run(w, s, steps), step)
    decreases |steps|
  {
    if steps == [] {
      assert Run(w, Next(w, s, step), []) == Next(w, s, step);
      assert (steps + [step])[1..] == [];
    } else {
      RunExtended(w, Next(w, s, steps[0]), steps[1..], step);
      assert (steps + [step])[1..] == steps[1..] + [step];
    }
  }
}
