/**
 Every running crawl can be finished: whatever the workers so far did and whatever the outside world
 answers from now on, one worker that keeps claiming and finishing drains it in a bounded number of
 rounds.
 */
module CrawlCompletion {
  import opened Wrappers
  import opened CrawlRows
  import opened CrawlStatements
  import opened CrawlMachine
  import opened CrawlInvariants
  import opened CrawlSafety
  import opened CrawlTheorems
  import opened CrawlWork

  /** What the outside world answers to one worker: robots.txt, the scrape, the links. */
  datatype Answer = Answer(robotsAllow: bool, scraped: Result<Page, ScrapeError>, mapped: Option<seq<Url>>)

  predicate Running(job: Job) {
    job.status.Waiting? || job.status.Scraping?
  }

  /** The clock moves, a task of j is claimed, and the worker finishes it with the answer it got. */
  ghost predicate IsRound(steps: seq<Step>, j: Uuid, answer: Answer) {
    && |steps| == 3
    && steps[0].Tick?
    && steps[1].Claim? && steps[1].crawlId == j
    && steps[2].Finish? && steps[2].crawlId == j
    && Answer(steps[2].robotsAllow, steps[2].scraped, steps[2].mapped) == answer
  }

  /** One round after the other, the i-th with the i-th answer. */
  ghost predicate AreRounds(steps: seq<Step>, j: Uuid, answers: nat -> Answer, from: nat)
    decreases |steps|
  {
    steps == [] ||
    (|steps| >= 3 && IsRound(steps[..3], j, answers(from)) && AreRounds(steps[3..], j, answers, from + 1))
  }

  /** A claim that succeeds makes its start the current one. */
  lemma ClaimIsCurrent(c: Crawl, id: Uuid, token: Uuid, now: Time)
    requires Claimable(c.rows, id, now)
    ensures var d := ClaimStep(c, id, token, now);
            && |d.log| == |c.log| + 1 && Current(d.rows.tasks, d.log[|c.log|].claim)
            && d.rows.job.status.Scraping? && d.rows.job.cancelRequested == c.rows.job.cancelRequested
  {
    hide Claimable;
    assert id in c.rows.tasks by { ClaimableIsThere(c.rows, id, now); }
  }

  lemma ClaimableIsThere(rows: Rows, id: Uuid, now: Time)
    requires Claimable(rows, id, now)
    ensures id in rows.tasks && !rows.job.cancelRequested
  {
  }

  /** A finish leaves a job that was not cancelled done or scraping. */
  lemma FinishKeepsRunning(lib: Library, c: Crawl, claim: ClaimedTask, outcome: Outcome, firstId: Uuid, now: Time)
    requires c.rows.job.status.Scraping? && !c.rows.job.cancelRequested
    ensures var job := FinishStep(lib, c, claim, outcome, firstId, now).rows.job;
            job.status.Done? || (job.status.Scraping? && !job.cancelRequested)
  {
    hide InsertLinks, Drained, RetryDelaySeconds, FailedOnce, Current;
  }

  /** One round from any state that satisfies the invariant: the measure drops. */
  lemma OneRound(w: World, s: Store, j: Uuid, answer: Answer) returns (steps: seq<Step>)
    requires StoreInv(w, s) && j in s.crawls && Running(s.crawls[j].rows.job)
    ensures IsRound(steps, j, answer)
    ensures var after := Run(w, s, steps);
            && StoreInv(w, after) && j in after.crawls
            && (after.crawls[j].rows.job.status.Done? || Running(after.crawls[j].rows.job))
            && Work(after.crawls[j]) < Work(s.crawls[j])
  {
    hide CrawlInv, Work, Claimable, ClaimStep, FinishStep, OutcomeOf, Current;
    var c := s.crawls[j];
    var tick := Tick(301 * SECOND + (if Delay(c.rows.job.config) > 0 then Delay(c.rows.job.config) else 0));
    var s1 := Next(w, s, tick);
    OpenTaskBecomesDue(w.lib, j, c, s.nextId, s.now, s1.now);
    var id :| Claimable(c.rows, id, s1.now);
    ClaimableIsThere(c.rows, id, s1.now);
    var claim := Claim(j, id);
    var s2 := Next(w, s1, claim);
    ClaimIsCurrent(c, id, s1.nextId, s1.now);
    var finish := Finish(j, |c.log|, answer.robotsAllow, answer.scraped, answer.mapped);
    var s3 := Next(w, s2, finish);
    var d := s2.crawls[j];
    FinishKeepsRunning(w.lib, d, d.log[|c.log|].claim, OutcomeOf(w, d, finish), s2.nextId, s2.now);
    NextKeepsInv(w, s, tick);
    NextKeepsInv(w, s1, claim);
    NextKeepsInv(w, s2, finish);
    StepWork(w, s, tick, j);
    StepWork(w, s1, claim, j);
    StepWork(w, s2, finish, j);
    steps := [tick, claim, finish];
    ThreeSteps(w, s, tick, claim, finish);
  }

  lemma ThreeSteps(w: World, s: Store, a: Step, b: Step, c: Step)
    ensures Run(w, s, [a, b, c]) == Next(w, Next(w, Next(w, s, a), b), c)
  {
    hide Next;
    assert [a, b, c][1..] == [b, c] && [b, c][1..] == [c] && [c][1..] == [];
    var s1 := Next(w, s, a);
    var s2 := Next(w, s1, b);
    assert Run(w, Next(w, s2, c), []) == Next(w, s2, c);
    assert Run(w, s2, [c]) == Next(w, s2, c);
    assert Run(w, s1, [b, c]) == Run(w, s2, [c]);
  }

  lemma {:induction false} RunTogether(w: World, s: Store, a: seq<Step>, b: seq<Step>)
    ensures Run(w, s, a + b) == Run(w, Run(w, s, a), b)
    decreases |a|
  {
    hide Next;
    if a == [] {
      assert a + b == b;
    } else {
      RunTogether(w, Next(w, s, a[0]), a[1..], b);
      assert (a + b)[1..] == a[1..] + b && (a + b)[0] == a[0];
    }
  }

  /** Rounds drain the crawl before they outnumber its work. */
  lemma {:induction false} RoundsDrain(w: World, s: Store, j: Uuid, answers: nat -> Answer, from: nat)
    returns (steps: seq<Step>)
    requires StoreInv(w, s) && j in s.crawls
    requires s.crawls[j].rows.job.status.Done? || Running(s.crawls[j].rows.job)
    ensures AreRounds(steps, j, answers, from)
    ensures j in Run(w, s, steps).crawls && Run(w, s, steps).crawls[j].rows.job.status.Done?
    ensures |steps| <= 3 * Work(s.crawls[j])
    decreases Work(s.crawls[j])
  {
    hide CrawlInv, Work, IsRound, Next;
    WorkBounds(w.lib, j, s.crawls[j], s.nextId, s.now);
    if s.crawls[j].rows.job.status.Done? {
      steps := [];
    } else {
      var round := OneRound(w, s, j, answers(from));
      var after := Run(w, s, round);
      WorkBounds(w.lib, j, after.crawls[j], after.nextId, after.now);
      var rest := RoundsDrain(w, after, j, answers, from + 1);
      steps := round + rest;
      RunTogether(w, s, round, rest);
      assert |round| == 3 by { RoundIsThree(round, j, answers(from)); }
      assert steps[..3] == round && steps[3..] == rest;
    }
  }

  lemma RoundIsThree(steps: seq<Step>, j: Uuid, answer: Answer)
    requires IsRound(steps, j, answer)
    ensures |steps| == 3
  {
  }

  /** From every reachable state, whatever its workers did before and whatever the world answers from
      now on, a running crawl is done after at most as many rounds as its measure says. */
  lemma RunningCrawlCanComplete(w: World, now: Time, first: seq<Step>, j: Uuid, answers: nat -> Answer)
    requires j in Reach(w, now, first).crawls && Running(Reach(w, now, first).crawls[j].rows.job)
    ensures var s := Reach(w, now, first);
            exists then_ ::
              && AreRounds(then_, j, answers, 0) && |then_| <= 3 * Work(s.crawls[j])
              && j in Run(w, s, then_).crawls && Run(w, s, then_).crawls[j].rows.job.status.Done?
  {
    hide StoreInv, Work, AreRounds, Next;
    ReachableInv(w, now, first);
    assert StoreInv(w, Reach(w, now, first));
    var then_ := RoundsDrain(w, Reach(w, now, first), j, answers, 0);
  }
}
