/**
 What an earlier state of a crawl fixes for every later one: finished rows, completed jobs,
 cancelled jobs and superseded leases never change again.
 */
module CrawlHistory {
  import opened CrawlRows
  import opened CrawlStatements
  import opened CrawlMachine
  import opened CrawlInvariants
  import opened CrawlPreservation
  import opened CrawlSafety

  /** No task row is lost, its identity never changes, and a finished row never changes at all. */
  ghost predicate RowsKept(before: map<Uuid, Task>, after: map<Uuid, Task>) {
    forall id | id in before ::
      && id in after
      && SamePlace(before[id], after[id])
      && (Finished(before[id]) ==> after[id] == before[id])
  }

  /** After a cancel the only change left is from active to completed or failed. */
  ghost predicate OnlyWindsDown(before: map<Uuid, Task>, after: map<Uuid, Task>) {
    && after.Keys == before.Keys
    && forall id | id in before ::
         after[id] == before[id] || (before[id].status.Active? && Finished(after[id]))
  }

  /** Once the row of a start has moved on, its token never becomes valid again. */
  ghost predicate StaleForever(before: Crawl, after: Crawl) {
    forall i | 0 <= i < |before.log| ::
      i < |after.log| &&
      (!Current(before.rows.tasks, before.log[i].claim) ==> !Current(after.rows.tasks, after.log[i].claim))
  }

  ghost predicate Later(before: Crawl, after: Crawl) {
    && after.rows.job.config == before.rows.job.config
    && before.log <= after.log
    && RowsKept(before.rows.tasks, after.rows.tasks)
    && (before.rows.job.config.jobType.BatchScrape? ==> after.rows.tasks.Keys == before.rows.tasks.Keys)
    && (before.rows.job.status.Done? ==> after == before)
    && (before.rows.job.status.Cancelled? ==>
          && after.rows.job == before.rows.job
          && after.log == before.log
          && OnlyWindsDown(before.rows.tasks, after.rows.tasks))
    && StaleForever(before, after)
  }

  lemma LaterReflexive(c: Crawl)
    ensures Later(c, c)
  {
  }

  lemma LaterTransitive(a: Crawl, b: Crawl, c: Crawl)
    requires Later(a, b) && Later(b, c)
    ensures Later(a, c)
  {
    assert StaleForever(a, c) by {
      forall i | 0 <= i < |a.log| && !Current(a.rows.tasks, a.log[i].claim)
        ensures i < |c.log| && !Current(c.rows.tasks, c.log[i].claim)
      {
        assert !Current(b.rows.tasks, b.log[i].claim);
      }
    }
  }

  // ---------- Each step leads to a later state ----------

  lemma TokenOfStart(j: Uuid, tasks: map<Uuid, Task>, log: seq<Start>, i: nat, nextId: Uuid)
    requires LogAgrees(j, tasks, log, nextId) && i < |log|
    ensures StartMatchesRow(j, tasks, log[i], nextId)
  {
  }

  lemma ClaimIsLater(j: Uuid, c: Crawl, id: Uuid, token: Uuid, now: Time)
    requires LogAgrees(j, c.rows.tasks, c.log, token)
    ensures Later(c, ClaimStep(c, id, token, now))
  {
    hide LogAgrees;
    if Claimable(c.rows, id, now) {
      var d := ClaimStep(c, id, token, now);
      forall i | 0 <= i < |c.log| && !Current(c.rows.tasks, c.log[i].claim)
        ensures !Current(d.rows.tasks, d.log[i].claim)
      {
        TokenOfStart(j, c.rows.tasks, c.log, i, token);
      }
      assert d.rows.tasks.Keys == c.rows.tasks.Keys;
    }
  }

  lemma LogOfCrawl(lib: Library, j: Uuid, c: Crawl, nextId: Uuid, now: Time)
    requires CrawlInv(lib, j, c, nextId, now)
    ensures LogAgrees(j, c.rows.tasks, c.log, nextId)
  {
  }

  lemma CancelIsLater(c: Crawl, now: Time)
    ensures Later(c, CancelStep(c, now))
  {
  }

  /** A finish changes its own active row, to a row that is not active, and adds new rows. */
  ghost predicate Finishes(before: map<Uuid, Task>, after: map<Uuid, Task>, id: Uuid) {
    && id in before && before[id].status.Active? && !Finished(before[id])
    && (forall other | other in before :: other in after && (other != id ==> after[other] == before[other]))
    && SamePlace(before[id], after[id]) && !after[id].status.Active?
  }

  lemma FinishedIsLater(j: Uuid, c: Crawl, d: Crawl, id: Uuid, nextId: Uuid)
    requires LogAgrees(j, c.rows.tasks, c.log, nextId) && DrainExact(c.rows)
    requires Finishes(c.rows.tasks, d.rows.tasks, id)
    requires d.log == c.log && d.rows.job.config == c.rows.job.config
    requires c.rows.job.config.jobType.BatchScrape? || c.rows.job.cancelRequested ==>
               d.rows.tasks.Keys == c.rows.tasks.Keys
    requires c.rows.job.cancelRequested ==> d.rows.job == c.rows.job && Finished(d.rows.tasks[id])
    ensures Later(c, d)
  {
    assert Open(c.rows.tasks[id]);
    forall i | 0 <= i < |c.log| && !Current(c.rows.tasks, c.log[i].claim)
      ensures !Current(d.rows.tasks, d.log[i].claim)
    {
      assert StartMatchesRow(j, c.rows.tasks, c.log[i], nextId);
    }
  }

  lemma FailureIsLater(lib: Library, j: Uuid, c: Crawl, claim: ClaimedTask, error: ScrapeError, nextId: Uuid, now: Time)
    requires LogAgrees(j, c.rows.tasks, c.log, nextId) && DrainExact(c.rows)
    requires Current(c.rows.tasks, claim)
    ensures Later(c, FinishStep(lib, c, claim, Failure(error), nextId, now))
  {
    hide Later, LogAgrees, DrainExact, RetryDelaySeconds;
    var d := FinishStep(lib, c, claim, Failure(error), nextId, now);
    if RetryDelaySeconds(claim.attempts).Some? {
      FailureStepIs(lib, c, claim, error, nextId, now);
      assert d.rows.tasks.Keys == c.rows.tasks.Keys;
      FinishedIsLater(j, c, d, claim.id, nextId);
    } else {
      LaterReflexive(c);
    }
  }

  lemma SuccessIsLater(lib: Library, j: Uuid, c: Crawl, claim: ClaimedTask, page: Page, links: seq<Url>,
                       nextId: Uuid, now: Time)
    requires LogAgrees(j, c.rows.tasks, c.log, nextId) && DrainExact(c.rows)
    requires Current(c.rows.tasks, claim)
    requires forall id | id in c.rows.tasks :: id < nextId
    requires c.rows.job.config.jobType.BatchScrape? ==> links == []
    ensures Later(c, FinishStep(lib, c, claim, Success(page, links), nextId, now))
  {
    hide InsertLinks, Later, LogAgrees, DrainExact;
    SuccessStepIs(lib, c, claim, page, links, nextId, now);
    var d := FinishStep(lib, c, claim, Success(page, links), nextId, now);
    var updated := c.rows.tasks[claim.id := Succeeded(c.rows.tasks[claim.id], page, now)];
    assert updated.Keys == c.rows.tasks.Keys;
    InsertLinksGrows(lib, c.rows.job.config, updated, claim.crawlId, links, claim.depth + 1, nextId, now);
    var grown := InsertLinks(lib, c.rows.job.config, updated, claim.crawlId, links, claim.depth + 1, nextId, now);
    assert links == [] ==> grown.Keys == updated.Keys;
    FinishedIsLater(j, c, d, claim.id, nextId);
  }

  lemma FinishIsLater(w: World, j: Uuid, c: Crawl, step: Step, nextId: Uuid, now: Time)
    requires CrawlInv(w.lib, j, c, nextId, now) && step.Finish? && step.index < |c.log|
    ensures Later(c, FinishStep(w.lib, c, c.log[step.index].claim, OutcomeOf(w, c, step), nextId, now))
  {
    hide Later, FinishStep, LogAgrees, DrainExact, Shapes, BacksOff, WithinBudget, Paced;
    var claim, outcome := c.log[step.index].claim, OutcomeOf(w, c, step);
    if !Current(c.rows.tasks, claim) {
      StaleFinishChangesNothing(w.lib, c, claim, outcome, nextId, now);
      LaterReflexive(c);
    } else {
      match outcome
      case Success(page, links) => SuccessIsLater(w.lib, j, c, claim, page, links, nextId, now);
      case Failure(error) => FailureIsLater(w.lib, j, c, claim, error, nextId, now);
    }
  }

  lemma StepIsLater(w: World, s: Store, step: Step, j: Uuid)
    requires StoreInv(w, s) && j in s.crawls && j in Next(w, s, step).crawls
    ensures Later(s.crawls[j], Next(w, s, step).crawls[j])
  {
    hide CrawlInv, ClaimStep, FinishStep, CancelStep, Later, LogAgrees;
    if step.Claim? && step.crawlId == j {
      LogOfCrawl(w.lib, j, s.crawls[j], s.nextId, s.now);
      ClaimIsLater(j, s.crawls[j], step.taskId, s.nextId, s.now);
    } else if step.Finish? && step.crawlId == j && step.index < |s.crawls[j].log| {
      FinishIsLater(w, j, s.crawls[j], step, s.nextId, s.now);
    } else if step.Cancel? && step.crawlId == j {
      CancelIsLater(s.crawls[j], s.now);
    } else {
      LaterReflexive(s.crawls[j]);
    }
  }

  // ---------- Whole runs ----------

  /** Neither the supply of identifiers nor the clock ever goes back. */
  lemma {:induction false} SupplyGrows(w: World, s: Store, steps: seq<Step>)
    ensures s.nextId <= Run(w, s, steps).nextId && s.now <= Run(w, s, steps).now
    decreases |steps|
  {
    if steps == [] {
    } else {
      SupplyGrows(w, Next(w, s, steps[0]), steps[1..]);
    }
  }

  /** A removed crawl never comes back: identifiers are not reused. */
  lemma {:induction false} RemovedForGood(w: World, s: Store, steps: seq<Step>, j: Uuid)
    requires j < s.nextId && j !in s.crawls
    ensures j !in Run(w, s, steps).crawls
    decreases |steps|
  {
    if steps == [] {
    } else {
      RemovedForGood(w, Next(w, s, steps[0]), steps[1..], j);
    }
  }

  /** Whatever steps are taken in between, a crawl still present is a later state of itself. */
  lemma {:induction false} RunIsLater(w: World, s: Store, steps: seq<Step>, j: Uuid)
    requires StoreInv(w, s) && j in s.crawls && j in Run(w, s, steps).crawls
    ensures Later(s.crawls[j], Run(w, s, steps).crawls[j])
    decreases |steps|
  {
    hide Later, CrawlInv;
    if steps == [] {
      LaterReflexive(s.crawls[j]);
    } else {
      var next := Next(w, s, steps[0]);
      NextKeepsInv(w, s, steps[0]);
      if j !in next.crawls {
        RemovedForGood(w, next, steps[1..], j);
      }
      StepIsLater(w, s, steps[0], j);
      RunIsLater(w, next, steps[1..], j);
      LaterTransitive(s.crawls[j], next.crawls[j], Run(w, s, steps).crawls[j]);
    }
  }
}
