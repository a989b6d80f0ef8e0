/**
 The guarantees of the crawl queue, for every run of every number of workers: `first` leads from
 the empty store to some reachable state, `then` from there to any later one.
 */
module CrawlTheorems {
  import opened Wrappers
  import opened CrawlRows
  import opened CrawlStatements
  import opened CrawlMachine
  import opened CrawlInvariants
  import opened CrawlPreservation
  import opened CrawlSafety
  import opened CrawlHistory
  import opened Sums

  function Reach(w: World, now: Time, first: seq<Step>): Store {
    Run(w, Empty(now), first)
  }

  lemma ReachedCrawl(w: World, now: Time, first: seq<Step>, j: Uuid)
    requires j in Reach(w, now, first).crawls
    ensures var s := Reach(w, now, first);
            CrawlInv(w.lib, j, s.crawls[j], s.nextId, s.now)
  {
    hide CrawlInv;
    ReachableInv(w, now, first);
  }

  // ---------- Drain detection and finality ----------

  /** Done means drained and drained means done, unless the job was cancelled. */
  lemma DrainDetectionIsExact(w: World, now: Time, first: seq<Step>, j: Uuid)
    requires j in Reach(w, now, first).crawls
    ensures var job := Reach(w, now, first).crawls[j].rows.job;
            && (job.cancelRequested <==> job.status.Cancelled?)
            && (!job.cancelRequested ==>
                  (job.status.Done? <==> Drained(Reach(w, now, first).crawls[j].rows.tasks)))
  {
    ReachableInv(w, now, first);
  }

  /** A completed crawl is frozen until cleanup takes the job and its tasks away for good. */
  lemma CompletedIsFinal(w: World, now: Time, first: seq<Step>, then_: seq<Step>, j: Uuid)
    requires j in Reach(w, now, first).crawls
    requires Reach(w, now, first).crawls[j].rows.job.status.Done?
    ensures var later := Run(w, Reach(w, now, first), then_);
            if j in later.crawls then later.crawls[j] == Reach(w, now, first).crawls[j]
            else forall more :: j !in Run(w, later, more).crawls
  {
    var s := Reach(w, now, first);
    ReachableInv(w, now, first);
    if j in Run(w, s, then_).crawls {
      RunIsLater(w, s, then_, j);
    } else {
      forall more ensures j !in Run(w, Run(w, s, then_), more).crawls {
        SupplyGrows(w, s, then_);
        RemovedForGood(w, Run(w, s, then_), more, j);
      }
    }
  }

  /** After a cancel nothing is claimed, requeued or inserted, and the job row does not change. */
  lemma CancellationIsFinal(w: World, now: Time, first: seq<Step>, then_: seq<Step>, j: Uuid)
    requires j in Reach(w, now, first).crawls
    requires Reach(w, now, first).crawls[j].rows.job.status.Cancelled?
    requires j in Run(w, Reach(w, now, first), then_).crawls
    ensures var c, d := Reach(w, now, first).crawls[j], Run(w, Reach(w, now, first), then_).crawls[j];
            && d.rows.job == c.rows.job && d.rows.job.cancelRequested
            && d.log == c.log
            && OnlyWindsDown(c.rows.tasks, d.rows.tasks)
  {
    ReachableInv(w, now, first);
    RunIsLater(w, Reach(w, now, first), then_, j);
  }

  // ---------- Lease fencing ----------

  /** The start at `index` has lost its task: another start followed, or the task is over. */
  predicate Superseded(c: Crawl, index: nat)
    requires index < |c.log|
  {
    var id := c.log[index].claim.id;
    || (exists k | index < k < |c.log| :: c.log[k].claim.id == id)
    || (id in c.rows.tasks && !c.rows.tasks[id].status.Active?)
  }

  lemma {:induction false} LastStartIsLatest(log: seq<Start>, id: Uuid, k: nat)
    requires k < |log| && log[k].claim.id == id
    ensures LastStart(log, id).Some?
    ensures exists m | k <= m < |log| :: log[m] == LastStart(log, id).value
  {
    if log[|log| - 1].claim.id == id {
    } else {
      LastStartIsLatest(log[..|log| - 1], id, k);
      var m :| k <= m < |log| - 1 && log[..|log| - 1][m] == LastStart(log[..|log| - 1], id).value;
      assert log[m] == LastStart(log, id).value;
    }
  }

  lemma SupersededIsStale(j: Uuid, c: Crawl, index: nat, nextId: Uuid)
    requires LogAgrees(j, c.rows.tasks, c.log, nextId) && index < |c.log| && Superseded(c, index)
    ensures !Current(c.rows.tasks, c.log[index].claim)
  {
    var claim := c.log[index].claim;
    if k :| index < k < |c.log| && c.log[k].claim.id == claim.id {
      LastStartIsLatest(c.log, claim.id, k);
      var m :| k <= m < |c.log| && c.log[m] == LastStart(c.log, claim.id).value;
      assert claim.leaseToken != c.log[m].claim.leaseToken;
      assert claim.id in c.rows.tasks ==> RowMatchesLog(c.rows.tasks[claim.id], Some(c.log[m]));
    }
  }

  /** Fencing: from the moment a start is superseded, no finish with its token, whatever its
      outcome and however late, changes a row of either table. */
  lemma SupersededFinishHasNoEffect(w: World, now: Time, first: seq<Step>, then_: seq<Step>, j: Uuid,
                                    index: nat, outcome: Outcome, firstId: Uuid, at: Time)
    requires j in Reach(w, now, first).crawls && index < |Reach(w, now, first).crawls[j].log|
    requires Superseded(Reach(w, now, first).crawls[j], index)
    requires j in Run(w, Reach(w, now, first), then_).crawls
    ensures var d := Run(w, Reach(w, now, first), then_).crawls[j];
            index < |d.log| && FinishStep(w.lib, d, d.log[index].claim, outcome, firstId, at) == d
  {
    var s := Reach(w, now, first);
    var c, d := s.crawls[j], Run(w, s, then_).crawls[j];
    ReachableInv(w, now, first);
    SupersededIsStale(j, c, index, s.nextId);
    RunIsLater(w, s, then_, j);
    StaleFinishChangesNothing(w.lib, d, d.log[index].claim, outcome, firstId, at);
  }

  /** A finish that takes effect supersedes its own start, so it takes effect at most once. */
  lemma EffectiveFinishSupersedesItself(w: World, now: Time, first: seq<Step>, j: Uuid, index: nat,
                                        robotsAllow: bool, scraped: Result<Page, ScrapeError>, mapped: Option<seq<Url>>)
    requires j in Reach(w, now, first).crawls && index < |Reach(w, now, first).crawls[j].log|
    requires var c := Reach(w, now, first).crawls[j]; Current(c.rows.tasks, c.log[index].claim)
    ensures var s := Reach(w, now, first);
            var next := Next(w, s, Finish(j, index, robotsAllow, scraped, mapped));
            j in next.crawls && next.crawls[j].log == s.crawls[j].log && Superseded(next.crawls[j], index)
  {
    hide CrawlInv, OutcomeOf;
    var s := Reach(w, now, first);
    var c, step := s.crawls[j], Finish(j, index, robotsAllow, scraped, mapped);
    ReachedCrawl(w, now, first, j);
    LogAndIds(w.lib, j, c, s.nextId, s.now);
    EffectiveFinishLeavesActive(w.lib, j, c, index, OutcomeOf(w, c, step), s.nextId, s.now);
  }

  lemma LogAndIds(lib: Library, j: Uuid, c: Crawl, nextId: Uuid, now: Time)
    requires CrawlInv(lib, j, c, nextId, now)
    ensures LogAgrees(j, c.rows.tasks, c.log, nextId)
    ensures forall id | id in c.rows.tasks :: id < nextId
  {
    hide LogAgrees;
  }

  lemma SuccessLeavesActive(lib: Library, c: Crawl, claim: ClaimedTask, page: Page, links: seq<Url>,
                            nextId: Uuid, now: Time)
    requires Current(c.rows.tasks, claim) && forall id | id in c.rows.tasks :: id < nextId
    ensures var d := FinishStep(lib, c, claim, Success(page, links), nextId, now);
            claim.id in d.rows.tasks && !d.rows.tasks[claim.id].status.Active?
  {
    hide InsertLinks;
    SuccessStepIs(lib, c, claim, page, links, nextId, now);
    var updated := c.rows.tasks[claim.id := Succeeded(c.rows.tasks[claim.id], page, now)];
    InsertLinksGrows(lib, c.rows.job.config, updated, claim.crawlId, links, claim.depth + 1, nextId, now);
  }

  lemma EffectiveFinishLeavesActive(lib: Library, j: Uuid, c: Crawl, index: nat, outcome: Outcome,
                                    nextId: Uuid, now: Time)
    requires LogAgrees(j, c.rows.tasks, c.log, nextId) && index < |c.log|
    requires Current(c.rows.tasks, c.log[index].claim) && forall id | id in c.rows.tasks :: id < nextId
    ensures var d, id := FinishStep(lib, c, c.log[index].claim, outcome, nextId, now), c.log[index].claim.id;
            id in d.rows.tasks && !d.rows.tasks[id].status.Active?
  {
    hide LogAgrees, InsertLinks;
    var claim := c.log[index].claim;
    CurrentClaimMatches(j, c.rows.tasks, c.log, index, nextId);
    match outcome
    case Success(page, links) =>
      SuccessLeavesActive(lib, c, claim, page, links, nextId, now);
    case Failure(error) =>
      RetryDelayShape(claim.attempts, claim.attempts);
      FailureStepIs(lib, c, claim, error, nextId, now);
  }

  /** A task has a result exactly when it is completed, and a finished row is never written again. */
  lemma ResultsAreWrittenOnce(w: World, now: Time, first: seq<Step>, then_: seq<Step>, j: Uuid, id: Uuid)
    requires j in Reach(w, now, first).crawls && j in Run(w, Reach(w, now, first), then_).crawls
    requires id in Reach(w, now, first).crawls[j].rows.tasks
    ensures var c, d := Reach(w, now, first).crawls[j], Run(w, Reach(w, now, first), then_).crawls[j];
            && (c.rows.tasks[id].status.Completed? <==> c.rows.tasks[id].result.Some?)
            && id in d.rows.tasks
            && (Finished(c.rows.tasks[id]) ==> d.rows.tasks[id] == c.rows.tasks[id])
  {
    var s := Reach(w, now, first);
    ReachableInv(w, now, first);
    RunIsLater(w, s, then_, j);
    assert RowShape(s.crawls[j].rows.job.config, s.crawls[j].rows.tasks[id], s.now);
  }

  /** What a worker was told stays true while it works: the options of its job, and that it holds the
      claim at its place in the history. */
  lemma WorkersKnowTheirJob(w: World, now: Time, first: seq<Step>, then_: seq<Step>, j: Uuid, index: nat)
    requires j in Reach(w, now, first).crawls && index < |Reach(w, now, first).crawls[j].log|
    requires j in Run(w, Reach(w, now, first), then_).crawls
    ensures var c, d := Reach(w, now, first).crawls[j], Run(w, Reach(w, now, first), then_).crawls[j];
            && d.rows.job.config == c.rows.job.config
            && index < |d.log| && d.log[index] == c.log[index]
  {
    ReachableInv(w, now, first);
    RunIsLater(w, Reach(w, now, first), then_, j);
  }

  // ---------- The crawl frontier ----------

  /** Page budget, uniqueness, depth and path filters hold in every reachable state. */
  lemma FrontierHolds(w: World, now: Time, first: seq<Step>, j: Uuid, a: Uuid, b: Uuid)
    requires j in Reach(w, now, first).crawls
    requires a in Reach(w, now, first).crawls[j].rows.tasks && b in Reach(w, now, first).crawls[j].rows.tasks
    ensures var rows := Reach(w, now, first).crawls[j].rows;
            && |rows.tasks| <= rows.job.config.pageLimit
            && (a != b ==> rows.tasks[a].url != rows.tasks[b].url && rows.tasks[a].dedupKey != rows.tasks[b].dedupKey)
            && 0 <= rows.tasks[a].depth <= rows.job.config.maxDepth
            && (rows.job.config.sitemap.Only? ==> rows.tasks[a].depth <= 1)
            && (rows.job.config.jobType.BatchScrape? ==> rows.tasks[a].depth == 0)
            && rows.tasks[a].dedupKey == (if rows.job.config.jobType.CrawlJob? && rows.job.config.dedupSimilar
                                          then w.lib.similarKey(rows.tasks[a].url) else rows.tasks[a].url)
            && (rows.tasks[a].depth > 0 ==> UrlAllowed(w.lib, rows.job.config, rows.tasks[a].url))
  {
    ReachableInv(w, now, first);
    var rows := Reach(w, now, first).crawls[j].rows;
    assert RowInFrontier(w.lib, rows.job.config, rows.tasks[a]);
  }

  /** The tasks of a batch are those it was enqueued with. */
  lemma BatchNeverGrows(w: World, now: Time, first: seq<Step>, then_: seq<Step>, j: Uuid)
    requires j in Reach(w, now, first).crawls && j in Run(w, Reach(w, now, first), then_).crawls
    requires Reach(w, now, first).crawls[j].rows.job.config.jobType.BatchScrape?
    ensures Run(w, Reach(w, now, first), then_).crawls[j].rows.tasks.Keys
            == Reach(w, now, first).crawls[j].rows.tasks.Keys
  {
    ReachableInv(w, now, first);
    RunIsLater(w, Reach(w, now, first), then_, j);
  }

  // ---------- Progress ----------

  /** With no help from anyone, a running crawl has a claimable task once the clock has moved by
      more than the longest back-off and the start delay. */
  lemma RunningCrawlBecomesClaimable(w: World, now: Time, first: seq<Step>, j: Uuid, elapsed: nat)
    requires j in Reach(w, now, first).crawls
    requires Reach(w, now, first).crawls[j].rows.job.status.Waiting?
             || Reach(w, now, first).crawls[j].rows.job.status.Scraping?
    requires elapsed > 300_000_000 && elapsed > Reach(w, now, first).crawls[j].rows.job.config.delayMs * 1_000
    ensures var s := Reach(w, now, first);
            var quiet := Next(w, s, Tick(elapsed));
            && quiet.crawls[j] == s.crawls[j]
            && exists id :: Claimable(quiet.crawls[j].rows, id, quiet.now)
  {
    hide CrawlInv, Claimable;
    var s := Reach(w, now, first);
    ReachedCrawl(w, now, first, j);
    OpenTaskBecomesDue(w.lib, j, s.crawls[j], s.nextId, s.now, s.now + elapsed);
  }

  lemma OpenTaskBecomesDue(lib: Library, j: Uuid, c: Crawl, nextId: Uuid, now: Time, later: Time)
    requires CrawlInv(lib, j, c, nextId, now)
    requires c.rows.job.status.Waiting? || c.rows.job.status.Scraping?
    requires later > now + 300 * SECOND && later > now + Delay(c.rows.job.config)
    ensures exists id :: Claimable(c.rows, id, later)
  {
    var config, tasks := c.rows.job.config, c.rows.tasks;
    var id :| id in tasks && Open(tasks[id]);
    assert forall k | k in tasks :: RowShape(config, tasks[k], now);
    assert Leased(tasks, later) == {};
    assert Claimable(c.rows, id, later);
  }

  // ---------- Throttling ----------

  /** The number of unexpired leases never exceeds the cap, also after any quiet time. */
  lemma ConcurrencyCapHolds(w: World, now: Time, first: seq<Step>, j: Uuid, elapsed: nat)
    requires j in Reach(w, now, first).crawls
    ensures var s := Reach(w, now, first);
            var tasks := s.crawls[j].rows.tasks;
            |set id | id in tasks && tasks[id].status.Active? && tasks[id].leaseExpiresAt.Some?
                      && tasks[id].leaseExpiresAt.value >= s.now + elapsed|
              <= s.crawls[j].rows.job.config.maxConcurrency
  {
    hide CrawlInv, Leased;
    var s := Reach(w, now, first);
    ReachedCrawl(w, now, first, j);
    CapOfCrawl(w.lib, j, s.crawls[j], s.nextId, s.now, elapsed);
    LeasedAre(s.crawls[j].rows.tasks, s.now + elapsed);
  }

  lemma CapOfCrawl(lib: Library, j: Uuid, c: Crawl, nextId: Uuid, now: Time, elapsed: nat)
    requires CrawlInv(lib, j, c, nextId, now)
    ensures |Leased(c.rows.tasks, now + elapsed)| <= c.rows.job.config.maxConcurrency
  {
    assert Leased(c.rows.tasks, now + elapsed) <= Leased(c.rows.tasks, now);
    SubsetIsNoLarger(Leased(c.rows.tasks, now + elapsed), Leased(c.rows.tasks, now));
  }

  lemma LeasedAre(tasks: map<Uuid, Task>, now: Time)
    ensures (set id | id in tasks && tasks[id].status.Active? && tasks[id].leaseExpiresAt.Some?
                      && tasks[id].leaseExpiresAt.value >= now) == Leased(tasks, now)
  {
  }

  lemma {:induction false} SpacedByPace(config: Config, last: Option<Time>, log: seq<Start>, now: Time, i: nat, k: nat)
    requires Paced(config, last, log, now) && i <= k < |log|
    ensures log[k].at - log[i].at >= (k - i) * Delay(config)
    decreases k
  {
    if i == k {
    } else {
      SpacedByPace(config, last, log, now, i, k - 1);
      assert (k - i) * Delay(config) == (k - 1 - i) * Delay(config) + Delay(config);
      assert log[k - 1].at + Delay(config) <= log[k - 1 + 1].at;
    }
  }

  function StartsWithin(log: seq<Start>, from: Time, length: nat): set<nat> {
    set i: nat | i < |log| && from <= log[i].at <= from + length
  }

  lemma WindowBound(config: Config, last: Option<Time>, log: seq<Start>, now: Time, from: Time, length: nat)
    requires Paced(config, last, log, now) && Delay(config) > 0
    ensures |StartsWithin(log, from, length)| <= length / Delay(config) + 1
  {
    var inside := StartsWithin(log, from, length);
    if inside != {} {
      var low, high := Extremes(inside);
      SpacedByPace(config, last, log, now, low, high);
      QuotientBound(high - low, Delay(config), length);
    }
  }

  lemma PaceOfCrawl(lib: Library, j: Uuid, c: Crawl, nextId: Uuid, now: Time)
    requires CrawlInv(lib, j, c, nextId, now)
    ensures Paced(c.rows.job.config, c.rows.job.lastTaskStartedAt, c.log, now)
  {
  }

  /** The i-th and k-th start of a job are at least (k - i) delays apart. */
  lemma StartsAreSpaced(w: World, now: Time, first: seq<Step>, j: Uuid, i: nat, k: nat)
    requires j in Reach(w, now, first).crawls && i <= k < |Reach(w, now, first).crawls[j].log|
    ensures var c := Reach(w, now, first).crawls[j];
            c.log[k].at - c.log[i].at >= (k - i) * (c.rows.job.config.delayMs * 1_000)
  {
    hide CrawlInv, Paced;
    var s := Reach(w, now, first);
    ReachedCrawl(w, now, first, j);
    PaceOfCrawl(w.lib, j, s.crawls[j], s.nextId, s.now);
    var job := s.crawls[j].rows.job;
    SpacedByPace(job.config, job.lastTaskStartedAt, s.crawls[j].log, s.now, i, k);
  }

  /** Any window of time holds at most one start more than the delays that fit into it. */
  lemma WindowsHoldFewStarts(w: World, now: Time, first: seq<Step>, j: Uuid, from: Time, length: nat)
    requires j in Reach(w, now, first).crawls
    requires Delay(Reach(w, now, first).crawls[j].rows.job.config) > 0
    ensures var c := Reach(w, now, first).crawls[j];
            |StartsWithin(c.log, from, length)| <= length / Delay(c.rows.job.config) + 1
  {
    hide CrawlInv, Paced;
    var s := Reach(w, now, first);
    ReachedCrawl(w, now, first, j);
    PaceOfCrawl(w.lib, j, s.crawls[j], s.nextId, s.now);
    var job := s.crawls[j].rows.job;
    WindowBound(job.config, job.lastTaskStartedAt, s.crawls[j].log, s.now, from, length);
  }

  lemma QuotientBound(n: nat, d: nat, length: nat)
    requires d > 0 && n * d <= length
    ensures n <= length / d
  {
    MulMonotone(d, Min(n, length / d + 1), n);
    assert d * (length / d + 1) > length;
  }

  /** A finite set of indices lies between two of its members, and is no larger than that range. */
  lemma {:induction false} Extremes(s: set<nat>) returns (low: nat, high: nat)
    requires s != {}
    ensures low in s && high in s && forall x | x in s :: low <= x <= high
    ensures |s| <= high - low + 1
  {
    var x :| x in s;
    if s == {x} {
      low, high := x, x;
    } else {
      var rest := s - {x};
      assert s == rest + {x};
      low, high := Extremes(rest);
      if x < low { low := x; } else if x > high { high := x; } else {
        RangeSize(s, low, high);
      }
    }
  }

  lemma {:induction false} RangeSize(s: set<nat>, low: nat, high: nat)
    requires low <= high && forall x | x in s :: low <= x <= high
    ensures |s| <= high - low + 1
    decreases high - low
  {
    if low == high {
      assert s <= {low};
      SubsetIsNoLarger(s, {low});
    } else {
      RangeSize(s - {high}, low, high - 1);
      if high in s { assert s == (s - {high}) + {high}; } else { assert s == s - {high}; }
    }
  }

  // ---------- Back-off ----------

  /** The back-offs after the first n attempts, together. */
  function TotalBackOff(n: nat): Time {
    if n == 0 then 0 else TotalBackOff(n - 1) + BackOff(n)
  }

  lemma {:induction false} QueueStartsSpread(config: Config, task: Task, q: seq<Time>, k: nat)
    requires RowBacksOff(config, task, q) && k < |q|
    ensures q[k] >= q[0] + TotalBackOff(k)
  {
    if k == 0 {
    } else {
      QueueStartsSpread(config, task, q, k - 1);
    }
  }

  /** The k-th time a task leaves the queue comes no earlier than the first time plus all back-offs
      in between, also when leases were taken over meanwhile; and it leaves the queue at most
      max_retries + 1 times. */
  lemma RetriesBackOff(w: World, now: Time, first: seq<Step>, j: Uuid, id: Uuid, k: nat)
    requires j in Reach(w, now, first).crawls && id in Reach(w, now, first).crawls[j].rows.tasks
    ensures var c := Reach(w, now, first).crawls[j];
            var q := QueueStarts(c.log, id);
            && |q| <= c.rows.job.config.maxRetries + 1
            && (k < |q| ==> q[k] >= q[0] + TotalBackOff(k))
  {
    var s := Reach(w, now, first);
    ReachableInv(w, now, first);
    var c := s.crawls[j];
    assert RowBacksOff(c.rows.job.config, c.rows.tasks[id], QueueStarts(c.log, id));
    if k < |QueueStarts(c.log, id)| {
      QueueStartsSpread(c.rows.job.config, c.rows.tasks[id], QueueStarts(c.log, id), k);
    }
  }

  /** While a start is current, the attempts it was handed are those of its row, at least one, so
      its back-off is defined and between 5 and 300 seconds; a queued task has retries left. */
  lemma CurrentAttemptsAreExact(w: World, now: Time, first: seq<Step>, j: Uuid, index: nat, id: Uuid)
    requires j in Reach(w, now, first).crawls && index < |Reach(w, now, first).crawls[j].log|
    requires id in Reach(w, now, first).crawls[j].rows.tasks
    ensures var c := Reach(w, now, first).crawls[j];
            var claim := c.log[index].claim;
            && claim.attempts >= 1
            && RetryDelaySeconds(claim.attempts).Some? && 5 <= RetryDelaySeconds(claim.attempts).value <= 300
            && (Current(c.rows.tasks, claim) ==> c.rows.tasks[claim.id].attempts == claim.attempts)
            && (c.rows.tasks[id].status.Queued? ==> c.rows.tasks[id].attempts <= c.rows.job.config.maxRetries)
  {
    var s := Reach(w, now, first);
    ReachableInv(w, now, first);
    var c := s.crawls[j];
    assert StartMatchesRow(j, c.rows.tasks, c.log[index], s.nextId);
    assert RowShape(c.rows.job.config, c.rows.tasks[id], s.now);
    RetryDelayShape(c.log[index].claim.attempts, c.log[index].claim.attempts);
    if Current(c.rows.tasks, c.log[index].claim) {
      CurrentClaimMatches(j, c.rows.tasks, c.log, index, s.nextId);
    }
  }

  // ---------- Bounded work ----------

  lemma BudgetOfCrawl(lib: Library, j: Uuid, config: Config, tasks: map<Uuid, Task>, log: seq<Start>, nextId: Uuid)
    requires Frontier(lib, j, config, tasks, nextId) && WithinBudget(config, tasks, log)
    ensures FreshStarts(log) <= config.pageLimit * (config.maxRetries + 1)
  {
    hide FreshStarts, Sum;
    MulMonotone(config.maxRetries + 1, |tasks|, config.pageLimit);
  }

  lemma PartsOfCrawl(lib: Library, j: Uuid, c: Crawl, nextId: Uuid, now: Time)
    requires CrawlInv(lib, j, c, nextId, now)
    ensures Frontier(lib, j, c.rows.job.config, c.rows.tasks, nextId)
    ensures WithinBudget(c.rows.job.config, c.rows.tasks, c.log)
  {
    hide Frontier, WithinBudget;
  }

  /** However the links lead back to each other, a job starts tasks from the queue at most
      page_limit * (max_retries + 1) times. */
  lemma QueueStartsAreBounded(w: World, now: Time, first: seq<Step>, j: Uuid)
    requires j in Reach(w, now, first).crawls
    ensures var c := Reach(w, now, first).crawls[j];
            FreshStarts(c.log) <= c.rows.job.config.pageLimit * (c.rows.job.config.maxRetries + 1)
  {
    hide CrawlInv, Frontier, WithinBudget;
    var s := Reach(w, now, first);
    var c := s.crawls[j];
    ReachedCrawl(w, now, first, j);
    PartsOfCrawl(w.lib, j, c, s.nextId, s.now);
    BudgetOfCrawl(w.lib, j, c.rows.job.config, c.rows.tasks, c.log, s.nextId);
  }

  lemma MulMonotone(a: nat, b: int, c: int)
    requires b <= c
    ensures a * b <= a * c
  {
  }
}
