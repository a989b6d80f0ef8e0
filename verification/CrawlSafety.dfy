/**
 Safety of the queue over whole runs: the invariant holds in every reachable state, and what an
 earlier state of a crawl fixes for every later one.
 */
module CrawlSafety {
  import opened CrawlRows
  import opened CrawlStatements
  import opened CrawlMachine
  import opened CrawlInvariants
  import opened CrawlPreservation

  ghost predicate StoreInv(w: World, s: Store) {
    forall j | j in s.crawls :: j < s.nextId && CrawlInv(w.lib, j, s.crawls[j], s.nextId, s.now)
  }

  // ---------- New crawls ----------

  lemma EnqueuedCrawlInv(w: World, s: Store, request: CrawlRequest)
    requires EnqueueRows(w.lib, request, s.usedKeys, s.nextId, s.nextId + 1, w.retentionDays, s.now).Ok?
    ensures var rows := EnqueueRows(w.lib, request, s.usedKeys, s.nextId, s.nextId + 1, w.retentionDays, s.now).value;
            CrawlInv(w.lib, s.nextId, Crawl(rows, []), s.nextId + 2, s.now)
  {
    var rows := EnqueueRows(w.lib, request, s.usedKeys, s.nextId, s.nextId + 1, w.retentionDays, s.now).value;
    NewCrawlInv(w.lib, s.nextId, rows, w.retentionDays, s.nextId + 2, s.now);
  }

  lemma BatchFrontier(lib: Library, request: BatchRequest, all: seq<Url>, j: Uuid, now: Time)
    requires Distinct(all) != [] && SchemaOk(BatchConfig(request, Distinct(all)))
    ensures var urls := Distinct(all);
            Frontier(lib, j, BatchConfig(request, urls), BatchTasks(urls, j, j + 1, now), j + 1 + |urls|)
  {
    hide Distinct, FirstIndex, BatchTasks, NoDuplicates;
    var urls := Distinct(all);
    DistinctKeepsFirstOccurrences(all);
    BatchTaskCount(urls, j, j + 1, now);
    BatchRowsDiffer(urls, j, now);
  }

  lemma BatchRowsDiffer(urls: seq<Url>, j: Uuid, now: Time)
    requires forall a, b | 0 <= a < b < |urls| :: urls[a] != urls[b]
    ensures NoDuplicates(BatchTasks(urls, j, j + 1, now))
  {
    hide BatchTasks;
    var rows := BatchTasks(urls, j, j + 1, now);
    forall a, b | a in rows && b in rows && a != b
      ensures rows[a].url != rows[b].url && rows[a].dedupKey != rows[b].dedupKey
    {
      var x, y := a - (j + 1), b - (j + 1);
      assert urls[x] != urls[y] by { if x < y {} else {} }
    }
  }

  lemma EnqueuedBatchInv(w: World, s: Store, request: BatchRequest)
    requires EnqueueBatchRows(w.lib, request, s.nextId, s.nextId + 1, w.retentionDays, s.now).Ok?
    ensures var rows := EnqueueBatchRows(w.lib, request, s.nextId, s.nextId + 1, w.retentionDays, s.now).value;
            CrawlInv(w.lib, s.nextId, Crawl(rows, []), s.nextId + 1 + |rows.tasks|, s.now)
  {
    hide Frontier, CrawlInv, Distinct, NormalizeAll, SchemaOk, BatchTasks;
    var rows := EnqueueBatchRows(w.lib, request, s.nextId, s.nextId + 1, w.retentionDays, s.now).value;
    var all := NormalizeAll(w.lib, request.urls).value;
    BatchFrontier(w.lib, request, all, s.nextId, s.now);
    BatchTaskCount(Distinct(all), s.nextId, s.nextId + 1, s.now);
    NewCrawlInv(w.lib, s.nextId, rows, w.retentionDays, s.nextId + 1 + |rows.tasks|, s.now);
  }

  lemma OneMoreKey(tasks: map<Uuid, Task>, id: Uuid, task: Task)
    requires id !in tasks
    ensures |tasks[id := task]| == |tasks| + 1
  {
  }

  lemma {:induction false} BatchTaskCount(urls: seq<Url>, jobId: Uuid, firstId: Uuid, now: Time)
    ensures |BatchTasks(urls, jobId, firstId, now)| == |urls|
  {
    hide NewTask;
    if urls == [] {
    } else {
      var n := |urls| - 1;
      BatchTaskCount(urls[..n], jobId, firstId, now);
      OneMoreKey(BatchTasks(urls[..n], jobId, firstId, now), firstId + n, NewTask(jobId, urls[n], urls[n], 0, now));
    }
  }

  // ---------- One step ----------

  lemma ClaimStepInv(w: World, j: Uuid, c: Crawl, id: Uuid, nextId: Uuid, now: Time)
    requires CrawlInv(w.lib, j, c, nextId, now)
    ensures CrawlInv(w.lib, j, ClaimStep(c, id, nextId, now), nextId + 1, now)
  {
    if Claimable(c.rows, id, now) {
      ClaimKeepsInv(w.lib, j, c, id, nextId, now);
    } else {
      InvMonotone(w.lib, j, c, nextId, nextId + 1, now, now);
    }
  }

  lemma DepthOfClaim(lib: Library, j: Uuid, c: Crawl, index: nat, nextId: Uuid, now: Time)
    requires CrawlInv(lib, j, c, nextId, now) && index < |c.log|
    ensures DepthOk(c.rows.job.config, c.log[index].claim.depth)
  {
    assert StartMatchesRow(j, c.rows.tasks, c.log[index], nextId);
  }

  lemma StaleFinishChangesNothing(lib: Library, c: Crawl, claim: ClaimedTask, outcome: Outcome,
                                  firstId: Uuid, now: Time)
    requires !Current(c.rows.tasks, claim)
    ensures FinishStep(lib, c, claim, outcome, firstId, now) == c
  {
  }

  lemma FinishStepInv(w: World, j: Uuid, c: Crawl, step: Step, nextId: Uuid, now: Time)
    requires CrawlInv(w.lib, j, c, nextId, now) && step.Finish? && step.index < |c.log|
    ensures var outcome := OutcomeOf(w, c, step);
            CrawlInv(w.lib, j, FinishStep(w.lib, c, c.log[step.index].claim, outcome, nextId, now),
                     nextId + IdsUsed(c, c.log[step.index].claim, outcome), now)
  {
    hide CrawlInv, FinishStep, WorkOutcome, LinksOk;
    var claim, outcome := c.log[step.index].claim, OutcomeOf(w, c, step);
    if !Current(c.rows.tasks, claim) {
      StaleFinishChangesNothing(w.lib, c, claim, outcome, nextId, now);
    } else {
      match outcome
      case Success(page, links) =>
        DepthOfClaim(w.lib, j, c, step.index, nextId, now);
        OutcomeLinksOk(w.lib, c.rows.job.config, claim, step.robotsAllow, step.scraped, step.mapped);
        SuccessKeepsInv(w.lib, j, c, step.index, page, links, nextId, now);
      case Failure(error) =>
        FailureKeepsInv(w.lib, j, c, step.index, error, nextId, now);
    }
  }

  /** The crawls a step does not create. */
  lemma OldCrawlKeepsInv(w: World, s: Store, step: Step, j: Uuid)
    requires StoreInv(w, s) && j in s.crawls && j in Next(w, s, step).crawls
    ensures CrawlInv(w.lib, j, Next(w, s, step).crawls[j], Next(w, s, step).nextId, Next(w, s, step).now)
  {
    hide CrawlInv, ClaimStep, FinishStep, CancelStep;
    var s' := Next(w, s, step);
    if step.Claim? && step.crawlId == j {
      ClaimStepInv(w, j, s.crawls[j], step.taskId, s.nextId, s.now);
    } else if step.Finish? && step.crawlId == j && step.index < |s.crawls[j].log| {
      FinishStepInv(w, j, s.crawls[j], step, s.nextId, s.now);
    } else if step.Cancel? && step.crawlId == j {
      CancelKeepsInv(w.lib, j, s.crawls[j], s.nextId, s.now);
    } else {
      assert s'.crawls[j] == s.crawls[j];
      InvMonotone(w.lib, j, s.crawls[j], s.nextId, s'.nextId, s.now, s'.now);
    }
  }

  lemma NextKeepsInv(w: World, s: Store, step: Step)
    requires StoreInv(w, s)
    ensures StoreInv(w, Next(w, s, step))
  {
    hide CrawlInv, ClaimStep, FinishStep, CancelStep, EnqueueRows, EnqueueBatchRows;
    var s' := Next(w, s, step);
    forall j | j in s'.crawls ensures j < s'.nextId && CrawlInv(w.lib, j, s'.crawls[j], s'.nextId, s'.now) {
      if j in s.crawls {
        OldCrawlKeepsInv(w, s, step, j);
      } else if step.Enqueue? {
        EnqueuedCrawlInv(w, s, step.request);
      } else {
        EnqueuedBatchInv(w, s, step.batch);
      }
    }
  }

  lemma {:induction false} RunKeepsInv(w: World, s: Store, steps: seq<Step>)
    requires StoreInv(w, s)
    ensures StoreInv(w, Run(w, s, steps))
    decreases |steps|
  {
    if steps == [] {
    } else {
      NextKeepsInv(w, s, steps[0]);
      RunKeepsInv(w, Next(w, s, steps[0]), steps[1..]);
    }
  }

  /** Every run from the empty store keeps every crawl within all parts of the invariant. */
  lemma ReachableInv(w: World, now: Time, steps: seq<Step>)
    ensures StoreInv(w, Run(w, Empty(now), steps))
  {
    RunKeepsInv(w, Empty(now), steps);
  }
}
