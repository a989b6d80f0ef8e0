/**
 How long a claim is safe: over every run, nobody takes a task over until more than ninety seconds
 after its latest start.
 */
module CrawlLeases {
  import opened Wrappers
  import opened CrawlRows
  import opened CrawlStatements
  import opened CrawlMachine
  import opened CrawlInvariants
  import opened CrawlPreservation
  import opened CrawlSafety
  import opened CrawlHistory
  import opened CrawlTheorems

  const NINETY_SECONDS: Time := 90_000_000

  /** The lease of an active row ends ninety seconds after the latest start of its task. */
  ghost predicate LeasesMatch(tasks: map<Uuid, Task>, log: seq<Start>) {
    forall id | id in tasks && tasks[id].status.Active? ::
      LastStart(log, id).Some? && tasks[id].leaseExpiresAt == Some(LastStart(log, id).value.at + NINETY_SECONDS)
  }

  /** A start that is not from the queue comes late enough after every earlier start of its task. */
  ghost predicate TakeoversAreLate(log: seq<Start>) {
    forall i, k | 0 <= i < k < |log| && log[i].claim.id == log[k].claim.id && !log[k].fromQueue ::
      log[k].at > log[i].at + NINETY_SECONDS
  }

  ghost predicate LeaseInv(s: Store) {
    forall j | j in s.crawls ::
      LeasesMatch(s.crawls[j].rows.tasks, s.crawls[j].log) && TakeoversAreLate(s.crawls[j].log)
  }

  // ---------- One step ----------

  lemma LastStartExtended(log: seq<Start>, start: Start, id: Uuid)
    ensures LastStart(log + [start], id) == if start.claim.id == id then Some(start) else LastStart(log, id)
  {
    assert (log + [start])[..|log|] == log;
  }

  /** No start of a task is later than its latest one. */
  lemma LatestIsLast(config: Config, last: Option<Time>, log: seq<Start>, now: Time, id: Uuid, i: nat)
    requires SchemaOk(config) && Paced(config, last, log, now) && i < |log| && log[i].claim.id == id
    ensures LastStart(log, id).Some? && log[i].at <= LastStart(log, id).value.at
  {
    hide Paced;
    LastStartIsLatest(log, id, i);
    var m :| i <= m < |log| && log[m] == LastStart(log, id).value;
    SpacedByPace(config, last, log, now, i, m);
  }

  lemma StartedLease(tasks: map<Uuid, Task>, log: seq<Start>, id: Uuid, token: Uuid, start: Start)
    requires id in tasks && LeasesMatch(tasks, log) && start.claim.id == id
    ensures LeasesMatch(tasks[id := Started(tasks[id], token, start.at)], log + [start])
  {
    hide LastStart;
    forall k ensures LastStart(log + [start], k) == if k == id then Some(start) else LastStart(log, k) {
      LastStartExtended(log, start, k);
    }
  }

  /** A task that can be taken over was started long enough ago. */
  lemma TakeoverIsLate(config: Config, last: Option<Time>, tasks: map<Uuid, Task>, log: seq<Start>, id: Uuid,
                       now: Time, i: nat)
    requires SchemaOk(config) && Paced(config, last, log, now) && LeasesMatch(tasks, log)
    requires id in tasks && Due(tasks[id], now) && !tasks[id].status.Queued?
    requires i < |log| && log[i].claim.id == id
    ensures now > log[i].at + NINETY_SECONDS
  {
    hide Paced, SchemaOk, LastStart;
    LatestIsLast(config, last, log, now, id, i);
  }

  lemma OneMoreStart(log: seq<Start>, start: Start)
    requires TakeoversAreLate(log)
    requires forall i | 0 <= i < |log| && log[i].claim.id == start.claim.id && !start.fromQueue ::
               start.at > log[i].at + NINETY_SECONDS
    ensures TakeoversAreLate(log + [start])
  {
  }

  lemma ClaimableParts(rows: Rows, id: Uuid, now: Time)
    requires Claimable(rows, id, now)
    ensures id in rows.tasks && Due(rows.tasks[id], now)
  {
  }

  lemma ClaimKeepsLeases(config: Config, last: Option<Time>, c: Crawl, id: Uuid, token: Uuid, now: Time)
    requires c.rows.job.config == config && SchemaOk(config) && Paced(config, last, c.log, now)
    requires LeasesMatch(c.rows.tasks, c.log) && TakeoversAreLate(c.log)
    ensures var d := ClaimStep(c, id, token, now); LeasesMatch(d.rows.tasks, d.log) && TakeoversAreLate(d.log)
  {
    hide Paced, SchemaOk, LeasesMatch, TakeoversAreLate, Claimable, Due, Started;
    if Claimable(c.rows, id, now) {
      ClaimableParts(c.rows, id, now);
      var start := ClaimStep(c, id, token, now).log[|c.log|];
      StartedLease(c.rows.tasks, c.log, id, token, start);
      forall i | 0 <= i < |c.log| && c.log[i].claim.id == id && !start.fromQueue
        ensures now > c.log[i].at + NINETY_SECONDS
      {
        TakeoverIsLate(config, last, c.rows.tasks, c.log, id, now, i);
      }
      OneMoreStart(c.log, start);
    }
  }

  /** Rows that keep their lease, lose it with their status, or are new. */
  lemma FewerLeases(before: map<Uuid, Task>, after: map<Uuid, Task>, log: seq<Start>)
    requires LeasesMatch(before, log)
    requires forall id | id in after && after[id].status.Active? :: id in before && before[id] == after[id]
    ensures LeasesMatch(after, log)
  {
  }

  /** A finish ends the lease of its row and adds rows that have none. */
  lemma SuccessKeepsLeases(lib: Library, c: Crawl, claim: ClaimedTask, page: Page, links: seq<Url>, firstId: Uuid,
                           now: Time)
    requires LeasesMatch(c.rows.tasks, c.log) && forall id | id in c.rows.tasks :: id < firstId
    requires Current(c.rows.tasks, claim)
    ensures var d := FinishStep(lib, c, claim, Success(page, links), firstId, now);
            d.log == c.log && LeasesMatch(d.rows.tasks, d.log)
  {
    hide InsertLinks, LeasesMatch;
    SuccessStepIs(lib, c, claim, page, links, firstId, now);
    var updated := c.rows.tasks[claim.id := Succeeded(c.rows.tasks[claim.id], page, now)];
    InsertLinksGrows(lib, c.rows.job.config, updated, claim.crawlId, links, claim.depth + 1, firstId, now);
    FewerLeases(c.rows.tasks, FinishStep(lib, c, claim, Success(page, links), firstId, now).rows.tasks, c.log);
  }

  lemma FinishKeepsLeases(lib: Library, c: Crawl, claim: ClaimedTask, outcome: Outcome, firstId: Uuid, now: Time)
    requires LeasesMatch(c.rows.tasks, c.log) && forall id | id in c.rows.tasks :: id < firstId
    ensures var d := FinishStep(lib, c, claim, outcome, firstId, now);
            d.log == c.log && LeasesMatch(d.rows.tasks, d.log)
  {
    hide InsertLinks, LastStart, RetryDelaySeconds, LeasesMatch, TasksAfterSuccess;
    if Current(c.rows.tasks, claim) {
      match outcome
      case Success(page, links) =>
        SuccessKeepsLeases(lib, c, claim, page, links, firstId, now);
      case Failure(error) =>
        if RetryDelaySeconds(claim.attempts).Some? {
          FailureStepIs(lib, c, claim, error, firstId, now);
          FewerLeases(c.rows.tasks, FinishStep(lib, c, claim, outcome, firstId, now).rows.tasks, c.log);
        }
    }
  }

  lemma CrawlParts(lib: Library, j: Uuid, c: Crawl, nextId: Uuid, now: Time)
    requires CrawlInv(lib, j, c, nextId, now)
    ensures SchemaOk(c.rows.job.config)
    ensures Paced(c.rows.job.config, c.rows.job.lastTaskStartedAt, c.log, now)
    ensures forall id | id in c.rows.tasks :: id < nextId
  {
    hide Paced, Shapes, LogAgrees, BacksOff, WithinBudget, DrainExact;
  }

  lemma NewTasksHaveNoLease(w: World, s: Store, step: Step, j: Uuid)
    requires j !in s.crawls && j in Next(w, s, step).crawls
    ensures var c := Next(w, s, step).crawls[j];
            c.log == [] && forall id | id in c.rows.tasks :: c.rows.tasks[id].status.Queued?
  {
    hide ClaimStep, FinishStep, CancelStep, Distinct, NormalizeAll, BatchTasks;
  }

  lemma NextKeepsLeases(w: World, s: Store, step: Step)
    requires StoreInv(w, s) && LeaseInv(s)
    ensures LeaseInv(Next(w, s, step))
  {
    hide CrawlInv, ClaimStep, FinishStep, EnqueueRows, EnqueueBatchRows, LeasesMatch, TakeoversAreLate, OutcomeOf;
    var next := Next(w, s, step);
    forall j | j in next.crawls
      ensures LeasesMatch(next.crawls[j].rows.tasks, next.crawls[j].log) && TakeoversAreLate(next.crawls[j].log)
    {
      if j !in s.crawls {
        NewTasksHaveNoLease(w, s, step, j);
        NothingLeased(next.crawls[j].rows.tasks);
      } else {
        var c := s.crawls[j];
        CrawlParts(w.lib, j, c, s.nextId, s.now);
        if step.Claim? && step.crawlId == j {
          ClaimKeepsLeases(c.rows.job.config, c.rows.job.lastTaskStartedAt, c, step.taskId, s.nextId, s.now);
        } else if step.Finish? && step.crawlId == j && step.index < |c.log| {
          FinishKeepsLeases(w.lib, c, c.log[step.index].claim, OutcomeOf(w, c, step), s.nextId, s.now);
        }
      }
    }
  }

  lemma NothingLeased(tasks: map<Uuid, Task>)
    requires forall id | id in tasks :: tasks[id].status.Queued?
    ensures LeasesMatch(tasks, []) && TakeoversAreLate([])
  {
  }

  lemma {:induction false} RunKeepsLeases(w: World, s: Store, steps: seq<Step>)
    requires StoreInv(w, s) && LeaseInv(s)
    ensures LeaseInv(Run(w, s, steps))
    decreases |steps|
  {
    hide StoreInv, LeaseInv, Next;
    if steps == [] {
    } else {
      NextKeepsInv(w, s, steps[0]);
      NextKeepsLeases(w, s, steps[0]);
      RunKeepsLeases(w, Next(w, s, steps[0]), steps[1..]);
    }
  }

  lemma ReachableLeases(w: World, now: Time, first: seq<Step>)
    ensures StoreInv(w, Reach(w, now, first)) && LeaseInv(Reach(w, now, first))
  {
    ReachableInv(w, now, first);
    RunKeepsLeases(w, Empty(now), first);
  }

  // ---------- Main results ----------

  /** A start that took a lease over comes more than ninety seconds after every earlier start of the
      same task. */
  lemma TakeoversWait(w: World, now: Time, first: seq<Step>, j: Uuid, i: nat, k: nat)
    requires j in Reach(w, now, first).crawls && i < k < |Reach(w, now, first).crawls[j].log|
    ensures var log := Reach(w, now, first).crawls[j].log;
            log[i].claim.id == log[k].claim.id && !log[k].fromQueue ==> log[k].at - log[i].at > 90_000_000
  {
    hide StoreInv;
    ReachableLeases(w, now, first);
  }

  /** While a claim is current, nobody can claim its task until more than ninety seconds after its
      start: a claim step then leaves the crawl as it is. */
  lemma CurrentClaimIsSafe(w: World, now: Time, first: seq<Step>, j: Uuid, index: nat)
    requires j in Reach(w, now, first).crawls && index < |Reach(w, now, first).crawls[j].log|
    ensures var s := Reach(w, now, first);
            var c := s.crawls[j];
            var (claim, at) := (c.log[index].claim, c.log[index].at);
            && claim.id in c.rows.tasks
            && (c.rows.tasks[claim.id].status.Active? && c.rows.tasks[claim.id].leaseToken == Some(claim.leaseToken) ==>
                  && (forall t | t <= at + 90_000_000 :: !Claimable(c.rows, claim.id, t))
                  && (s.now <= at + 90_000_000 ==> Next(w, s, Claim(j, claim.id)).crawls == s.crawls))
  {
    hide StoreInv, CrawlInv, LastStart;
    ReachableLeases(w, now, first);
    ReachedCrawl(w, now, first, j);
    var s := Reach(w, now, first);
    var c := s.crawls[j];
    LogAndIds(w.lib, j, c, s.nextId, s.now);
    StartOfCurrent(j, c, index, s.nextId);
    assert s.crawls[j := c] == s.crawls;
  }

  lemma StartOfCurrent(j: Uuid, c: Crawl, index: nat, nextId: Uuid)
    requires LogAgrees(j, c.rows.tasks, c.log, nextId) && index < |c.log|
    ensures c.log[index].claim.id in c.rows.tasks
    ensures Current(c.rows.tasks, c.log[index].claim) ==>
              LastStart(c.log, c.log[index].claim.id) == Some(c.log[index])
  {
    var claim := c.log[index].claim;
    assert StartMatchesRow(j, c.rows.tasks, c.log[index], nextId);
    if Current(c.rows.tasks, claim) {
      var last := LastStart(c.log, claim.id);
      assert RowMatchesLog(c.rows.tasks[claim.id], last);
      var m :| 0 <= m < |c.log| && c.log[m] == last.value;
      assert c.log[m].claim.leaseToken == claim.leaseToken;
    }
  }
}
