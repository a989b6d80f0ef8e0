/**
 What one step leads to in every reachable state, in the terms of CrawlContracts: the answers of
 workers, cancellation, cleanup, and the limits with their numbers written out.
 */
module CrawlAnswers {
  import opened Wrappers
  import opened CrawlRows
  import opened CrawlStatements
  import opened CrawlMachine
  import opened CrawlInvariants
  import opened CrawlSafety
  import opened CrawlHistory
  import opened CrawlTheorems
  import opened CrawlContracts

  lemma ClaimOfLog(w: World, s: Store, j: Uuid, index: nat)
    requires StoreInv(w, s) && j in s.crawls && index < |s.crawls[j].log|
    ensures s.crawls[j].log[index].claim.attempts >= 1
    ensures forall id | id in s.crawls[j].rows.tasks :: id < s.nextId
  {
    hide CrawlInv, LogAgrees;
    var c := s.crawls[j];
    LogAndIds(w.lib, j, c, s.nextId, s.now);
    OneStart(j, c, index, s.nextId);
  }

  lemma OneStart(j: Uuid, c: Crawl, index: nat, nextId: Uuid)
    requires LogAgrees(j, c.rows.tasks, c.log, nextId) && index < |c.log|
    ensures StartMatchesRow(j, c.rows.tasks, c.log[index], nextId)
  {
  }

  /** A task that is not completed has no result. */
  lemma NoResultYet(lib: Library, j: Uuid, c: Crawl, id: Uuid, nextId: Uuid, now: Time)
    requires CrawlInv(lib, j, c, nextId, now) && id in c.rows.tasks && !c.rows.tasks[id].status.Completed?
    ensures c.rows.tasks[id].result.None?
  {
    hide Frontier, WithinConcurrency, LogAgrees, BacksOff, WithinBudget, DrainExact, Paced;
    assert RowShape(c.rows.job.config, c.rows.tasks[id], now);
  }

  /** What the finish of the start at `index` makes of its crawl: a worker whose claim still holds its
      task stores the answer it got, where a disallowed page leaves no result; any other changes
      nothing. */
  ghost predicate AnswerFollows(lib: Library, c: Crawl, d: Crawl, index: nat, robotsAllow: bool,
                                scraped: Result<Page, ScrapeError>, mapped: Option<seq<Url>>, now: Time)
    requires index < |c.log|
  {
    var claim := c.log[index].claim;
    && d.log == c.log
    && if HoldsTask(c.rows.tasks, claim) then
         && AnswerIsStored(lib, c.rows, d.rows, claim, robotsAllow, scraped, mapped, now)
         && (!MayFetch(lib, c.rows.job.config, claim.url, robotsAllow) ==>
               claim.id in d.rows.tasks && d.rows.tasks[claim.id].result.None?)
       else d == c
  }

  lemma AnswerOfCrawl(lib: Library, j: Uuid, c: Crawl, index: nat, robotsAllow: bool,
                      scraped: Result<Page, ScrapeError>, mapped: Option<seq<Url>>, nextId: Uuid, now: Time)
    requires CrawlInv(lib, j, c, nextId, now) && index < |c.log|
    requires c.log[index].claim.attempts >= 1 && forall id | id in c.rows.tasks :: id < nextId
    ensures var claim := c.log[index].claim;
            var outcome := WorkOutcome(lib, c.rows.job.config, claim, robotsAllow, scraped, mapped);
            AnswerFollows(lib, c, FinishStep(lib, c, claim, outcome, nextId, now), index,
                          robotsAllow, scraped, mapped, now)
  {
    hide WorkOutcome, FinishRows, MayFetch, RetryDelaySeconds, CrawlInv, JobFollows, PageIsStored, FailureIsStored;
    var claim := c.log[index].claim;
    var outcome := WorkOutcome(lib, c.rows.job.config, claim, robotsAllow, scraped, mapped);
    if HoldsTask(c.rows.tasks, claim) {
      AnswersAreStored(lib, c.rows, claim, robotsAllow, scraped, mapped, nextId, now);
      NoResultYet(lib, j, c, claim.id, nextId, now);
    } else {
      StaleFinishChangesNothing(lib, c, claim, outcome, nextId, now);
    }
  }

  /** In every reachable state, one finish stores the worker's answer, whatever the outside world
      answered, and touches no other crawl. */
  lemma FinishStoresTheAnswer(w: World, now: Time, first: seq<Step>, j: Uuid, index: nat, robotsAllow: bool,
                              scraped: Result<Page, ScrapeError>, mapped: Option<seq<Url>>)
    requires j in Reach(w, now, first).crawls && index < |Reach(w, now, first).crawls[j].log|
    ensures var s := Reach(w, now, first);
            var next := Next(w, s, Finish(j, index, robotsAllow, scraped, mapped));
            && next.crawls.Keys == s.crawls.Keys && next.now == s.now
            && (forall k | k in s.crawls && k != j :: next.crawls[k] == s.crawls[k])
            && AnswerFollows(w.lib, s.crawls[j], next.crawls[j], index, robotsAllow, scraped, mapped, s.now)
  {
    hide AnswerFollows, WorkOutcome, FinishStep, StoreInv, CrawlInv, IdsUsed;
    var s := Reach(w, now, first);
    ReachableInv(w, now, first);
    ReachedCrawl(w, now, first, j);
    ClaimOfLog(w, s, j, index);
    AnswerOfCrawl(w.lib, j, s.crawls[j], index, robotsAllow, scraped, mapped, s.nextId, s.now);
    assert s.crawls[j := Next(w, s, Finish(j, index, robotsAllow, scraped, mapped)).crawls[j]].Keys == s.crawls.Keys;
  }

  // ---------- Cancel and cleanup ----------

  /** A cancel makes a queued or scraping job cancelled at once and leaves its tasks; whatever happens
      afterwards, the job row and the history stay as they are then, nothing is claimable at any time, and
      the workers still at it are the only ones to change a task. */
  lemma CancelEndsTheCrawl(w: World, now: Time, first: seq<Step>, then_: seq<Step>, j: Uuid)
    requires j in Reach(w, now, first).crawls
    requires Reach(w, now, first).crawls[j].rows.job.status.Waiting?
             || Reach(w, now, first).crawls[j].rows.job.status.Scraping?
    ensures var s := Reach(w, now, first);
            var (c, d) := (s.crawls[j], Next(w, s, Cancel(j)).crawls[j]);
            && Next(w, s, Cancel(j)).crawls == s.crawls[j := d]
            && d.log == c.log && d.rows.tasks == c.rows.tasks
            && d.rows.job == c.rows.job.(
                 status := Cancelled, cancelRequested := true,
                 finishedAt := if c.rows.job.finishedAt.None? then Some(s.now) else c.rows.job.finishedAt)
            && var later := Run(w, Next(w, s, Cancel(j)), then_);
               j in later.crawls ==>
                 && later.crawls[j].rows.job == d.rows.job && later.crawls[j].log == d.log
                 && OnlyWindsDown(d.rows.tasks, later.crawls[j].rows.tasks)
                 && forall id, t :: !Claimable(later.crawls[j].rows, id, t)
  {
    hide CrawlInv, Run;
    var s := Reach(w, now, first);
    var next := Next(w, s, Cancel(j));
    ReachedCrawl(w, now, first, j);
    CancelIsExact(s.crawls[j].rows, s.now);
    RunExtended(w, Empty(now), first, Cancel(j));
    assert next == Reach(w, now, first + [Cancel(j)]);
    if j in Run(w, next, then_).crawls {
      CancellationIsFinal(w, now, first + [Cancel(j)], then_, j);
    }
  }

  /** Cleanup keeps every crawl that is queued or scraping or not yet expired, and removes the others. */
  lemma CleanupTakesTheExpired(w: World, s: Store, j: Uuid)
    ensures j in Next(w, s, Cleanup).crawls <==>
              && j in s.crawls
              && !(&& (s.crawls[j].rows.job.status.Done? || s.crawls[j].rows.job.status.Cancelled?)
                   && s.crawls[j].rows.job.expiresAt.Some? && s.now >= s.crawls[j].rows.job.expiresAt.value)
    ensures j in Next(w, s, Cleanup).crawls ==> Next(w, s, Cleanup).crawls[j] == s.crawls[j]
  {
  }
}
