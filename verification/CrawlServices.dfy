/**
 Workers and clients on top of the store. Every method takes exactly one step of the queue machine
 (after the clock has moved on), so whatever CrawlTheorems says of runs holds of the tables.
 */
module CrawlServices {
  import opened Wrappers
  import opened CrawlRows
  import opened CrawlStatements
  import opened CrawlInvariants
  import opened CrawlSafety
  import opened CrawlContracts
  import opened CrawlAnswers
  import opened CrawlStores
  import opened Paging
  import M = CrawlMachine

  /** The tables a state of the machine stands for. */
  function RowsOf(s: M.Store): map<Uuid, Rows> {
    map j | j in s.crawls :: s.crawls[j].rows
  }

  const DEFAULT_STATUS_LIMIT := 20

  lemma RowsOfSize(s: M.Store)
    ensures |RowsOf(s)| == |s.crawls|
  {
    assert RowsOf(s).Keys == s.crawls.Keys;
    assert |RowsOf(s)| == |RowsOf(s).Keys| && |s.crawls| == |s.crawls.Keys|;
  }

  lemma TickedModel(w: M.World, s: M.Store, elapsed: nat)
    ensures M.Next(w, s, M.Tick(elapsed)) == s.(now := s.now + elapsed)
    ensures RowsOf(M.Next(w, s, M.Tick(elapsed))) == RowsOf(s)
  {
  }

  /** What an EnqueueBatch step does to the tables. */
  lemma BatchModel(w: M.World, s: M.Store, request: BatchRequest)
    ensures var next := M.Next(w, s, M.EnqueueBatch(request));
            && next.usedKeys == s.usedKeys
            && match EnqueueBatchRows(w.lib, request, s.nextId, s.nextId + 1, w.retentionDays, s.now)
               case Err(_) => next == s
               case Ok(rows) =>
                 && RowsOf(next) == RowsOf(s)[s.nextId := rows] && s.nextId in next.crawls
                 && next.nextId == s.nextId + 1 + |rows.tasks|
  {
    hide EnqueueBatchRows;
  }

  /** What an Enqueue step does to the tables. */
  lemma EnqueueModel(w: M.World, s: M.Store, request: CrawlRequest)
    ensures var next := M.Next(w, s, M.Enqueue(request));
            match EnqueueRows(w.lib, request, s.usedKeys, s.nextId, s.nextId + 1, w.retentionDays, s.now)
            case Err(_) => next == s
            case Ok(rows) =>
              && RowsOf(next) == RowsOf(s)[s.nextId := rows] && s.nextId in next.crawls
              && next.nextId == s.nextId + 2
              && next.usedKeys == if request.idempotencyKey.Key? then s.usedKeys + {request.idempotencyKey.id}
                                  else s.usedKeys
  {
    hide EnqueueRows;
  }

  /** What a Finish step does to the tables. */
  lemma FinishedModel(w: M.World, s: M.Store, step: M.Step)
    requires step.Finish?
    ensures var next, j := M.Next(w, s, step), step.crawlId;
            && next.usedKeys == s.usedKeys
            && if j !in s.crawls || step.index >= |s.crawls[j].log| then next == s else
               var c := s.crawls[j];
               var claim, outcome := c.log[step.index].claim, M.OutcomeOf(w, c, step);
               && RowsOf(next) == RowsOf(s)[j := FinishRows(w.lib, c.rows, claim, outcome, s.nextId, s.now)]
               && next.nextId == s.nextId + M.IdsUsed(c, claim, outcome)
  {
    hide FinishRows, M.IdsUsed, M.OutcomeOf;
  }

  class CrawlService {
    const store: CrawlStore

    ghost var model: M.Store
    /** The steps taken so far, and the time of the first. */
    ghost var trace: seq<M.Step>
    ghost const begun: Time

    ghost function TheWorld(): M.World {
      M.World(store.lib, store.retentionDays)
    }

    ghost predicate Valid()
      reads this, store
    {
      && store.Valid()
      && store.Snapshot() == RowsOf(model)
      && store.nextId == model.nextId
      && store.idempotencyKeys == model.usedKeys
      && model == M.Run(TheWorld(), M.Empty(begun), trace)
    }

    constructor (lib: Library, retentionDays: nat, now: Time)
      ensures Valid() && model == M.Empty(now) && begun == now && trace == []
      ensures fresh(store) && store.lib == lib && store.retentionDays == retentionDays
    {
      store := new CrawlStore(lib, retentionDays);
      model := M.Empty(now);
      trace := [];
      begun := now;
    }

    /** The state after the clock has moved to `now` and one step was taken. */
    ghost function After(now: Time, step: M.Step): M.Store
      requires now >= model.now
      reads this
    {
      M.Next(TheWorld(), M.Next(TheWorld(), model, M.Tick(now - model.now)), step)
    }

    ghost method Take(now: Time, step: M.Step)
      requires now >= model.now && model == M.Run(TheWorld(), M.Empty(begun), trace)
      modifies this`model, this`trace
      ensures model == old(After(now, step)) && model == M.Run(TheWorld(), M.Empty(begun), trace)
      ensures trace == old(trace) + [M.Tick(now - old(model).now), step]
    {
      hide M.Next;
      var tick := M.Tick(now - model.now);
      var next := After(now, step);
      M.RunExtended(TheWorld(), M.Empty(begun), trace, tick);
      M.RunExtended(TheWorld(), M.Empty(begun), trace + [tick], step);
      assert trace + [tick, step] == trace + [tick] + [step];
      model := next;
      trace := trace + [tick, step];
    }

    lemma Reachable()
      requires Valid()
      ensures StoreInv(TheWorld(), model)
    {
      ReachableInv(TheWorld(), begun, trace);
    }

    lemma FreshId()
      requires Valid()
      ensures model.nextId !in model.crawls
    {
      hide CrawlInv;
      Reachable();
    }

    method Enqueue(request: CrawlRequest, now: Time) returns (r: Result<Uuid, StoreError>)
      requires Valid() && now >= model.now
      modifies this, store
      ensures Valid() && model == old(After(now, M.Enqueue(request)))
      ensures r.Ok? <==> old(model).nextId in model.crawls
      ensures r.Ok? ==> r.value == old(model).nextId
      ensures r.Err? ==>
                && model.crawls == old(model).crawls
                && Err(r.error) == EnqueueRows(store.lib, request, old(model).usedKeys, old(model).nextId,
                                               old(model).nextId + 1, store.retentionDays, now)
    {
      hide EnqueueRows, M.Run, M.Next;
      FreshId();
      TickedModel(TheWorld(), model, now - model.now);
      EnqueueModel(TheWorld(), M.Next(TheWorld(), model, M.Tick(now - model.now)), request);
      r := store.Enqueue(request, now);
      Take(now, M.Enqueue(request));
    }

    method EnqueueBatch(request: BatchRequest, now: Time) returns (r: Result<Uuid, StoreError>)
      requires Valid() && now >= model.now
      modifies this, store
      ensures Valid() && model == old(After(now, M.EnqueueBatch(request)))
      ensures r.Ok? <==> old(model).nextId in model.crawls
      ensures r.Ok? ==> r.value == old(model).nextId
      ensures r.Err? ==>
                && model.crawls == old(model).crawls
                && Err(r.error) == EnqueueBatchRows(store.lib, request, old(model).nextId, old(model).nextId + 1,
                                                    store.retentionDays, now)
    {
      hide EnqueueBatchRows, M.Run, M.Next;
      FreshId();
      TickedModel(TheWorld(), model, now - model.now);
      BatchModel(TheWorld(), M.Next(TheWorld(), model, M.Tick(now - model.now)), request);
      r := store.EnqueueBatch(request, now);
      Take(now, M.EnqueueBatch(request));
    }

    /** A claim is a Claim step of the machine on a claimable task, and is recorded in its history;
        without one, only time passes, and nothing is claimable anywhere. */
    method ClaimTask(now: Time) returns (r: Option<ClaimedTask>)
      requires Valid() && now >= model.now
      modifies this, store
      ensures Valid()
      ensures r.Some? ==>
                && model == old(After(now, M.Claim(r.value.crawlId, r.value.id)))
                && Issued(r.value)
                && r.value.crawlId in old(model).crawls && r.value.crawlId in model.crawls
                && r.value.id in old(model).crawls[r.value.crawlId].rows.tasks
                && MayBeClaimed(old(model).crawls[r.value.crawlId].rows, r.value.id, now)
                && IsClaimed(old(model).crawls[r.value.crawlId].rows, model.crawls[r.value.crawlId].rows,
                             r.value.id, r.value.leaseToken, now, r.value)
      ensures r.None? ==>
                && model == old(After(now, M.Tick(0)))
                && forall j, id | j in model.crawls :: !Claimable(model.crawls[j].rows, id, now)
    {
      hide Claimable, ClaimRows, ClaimOf, MayBeClaimed, IsClaimed, M.Run;
      r := store.ClaimTask(now);
      if r.None? {
        Take(now, M.Tick(0));
        forall j, id | j in model.crawls ensures !Claimable(model.crawls[j].rows, id, now) {
          assert RowsOf(old(model))[j] == model.crawls[j].rows;
        }
      } else {
        var j, id := r.value.crawlId, r.value.id;
        assert RowsOf(model)[j] == model.crawls[j].rows;
        Take(now, M.Claim(j, id));
        assert RowsOf(model) == store.Snapshot();
        assert RowsOf(model)[j] == model.crawls[j].rows;
        assert model.crawls[j].log[|model.crawls[j].log| - 1].claim == r.value;
      }
    }

    /** The claim was handed out by this service. */
    ghost predicate Issued(claim: ClaimedTask)
      reads this
    {
      claim.crawlId in model.crawls ==>
        exists i | 0 <= i < |model.crawls[claim.crawlId].log| :: model.crawls[claim.crawlId].log[i].claim == claim
    }

    /** The claim is the one recorded at `index` in the history of its crawl, if that still exists. */
    ghost predicate IssuedAt(claim: ClaimedTask, index: nat)
      reads this
    {
      claim.crawlId in model.crawls ==>
        && index < |model.crawls[claim.crawlId].log|
        && model.crawls[claim.crawlId].log[index].claim == claim
    }

    lemma IssuedClaim(claim: ClaimedTask, index: nat)
      requires Valid() && claim.crawlId in model.crawls && IssuedAt(claim, index)
      ensures store.NamesItsJob(claim) && claim.attempts >= 1
    {
      var j := claim.crawlId;
      Reachable();
      LogOfModel(j);
      assert StartMatchesRow(j, model.crawls[j].rows.tasks, model.crawls[j].log[index], model.nextId);
      assert store.Snapshot()[j] == model.crawls[j].rows;
      assert claim.id in TasksOf(store.tasks, j);
    }

    lemma LogOfModel(j: Uuid)
      requires StoreInv(TheWorld(), model) && j in model.crawls
      ensures LogAgrees(j, model.crawls[j].rows.tasks, model.crawls[j].log, model.nextId)
    {
      assert CrawlInv(store.lib, j, model.crawls[j], model.nextId, model.now);
    }

    /** The first query of a worker: the options of its job, unless that is gone or cancelled. */
    method StartTask(claim: ClaimedTask) returns (r: Result<Option<Config>, StoreError>)
      requires Valid()
      ensures r == if claim.crawlId !in model.crawls then Err(Database)
                   else if model.crawls[claim.crawlId].rows.job.cancelRequested then Ok(None)
                   else Ok(Some(model.crawls[claim.crawlId].rows.job.config))
    {
      var j := claim.crawlId;
      assert j in store.jobs <==> j in RowsOf(model);
      if j !in store.jobs {
        return Err(Database);
      }
      assert store.Snapshot()[j] == model.crawls[j].rows;
      if store.jobs[j].cancelRequested {
        return Ok(None);
      }
      return Ok(Some(store.jobs[j].config));
    }

    /** A finish stores the worker's answer at whatever time it comes. */
    lemma FinishFollows(now: Time, j: Uuid, index: nat, robotsAllow: bool,
                        scraped: Result<Page, ScrapeError>, mapped: Option<seq<Url>>)
      requires Valid() && now >= model.now && j in model.crawls && index < |model.crawls[j].log|
      ensures var next := After(now, M.Finish(j, index, robotsAllow, scraped, mapped));
              && j in next.crawls
              && AnswerFollows(store.lib, model.crawls[j], next.crawls[j], index, robotsAllow, scraped, mapped, now)
    {
      hide AnswerFollows, M.Run;
      var tick := M.Tick(now - model.now);
      M.RunExtended(TheWorld(), M.Empty(begun), trace, tick);
      FinishStoresTheAnswer(TheWorld(), begun, trace + [tick], j, index, robotsAllow, scraped, mapped);
    }

    /** The last transaction of a worker, at any later time: others may have cancelled the job, taken
        the task over or removed everything meanwhile. It is a Finish step of the machine. */
    method FinishTask(claim: ClaimedTask, ghost index: nat, options: Config, robotsAllow: bool,
                      scraped: Result<Page, ScrapeError>, mapped: Option<seq<Url>>, now: Time)
      returns (r: Result<(), StoreError>)
      requires Valid() && now >= model.now && IssuedAt(claim, index)
      requires claim.crawlId in model.crawls ==> model.crawls[claim.crawlId].rows.job.config == options
      modifies this, store
      ensures Valid()
      ensures r == if claim.crawlId in old(model).crawls then Ok(()) else Err(Database)
      ensures model == old(After(now, M.Finish(claim.crawlId, index, robotsAllow, scraped, mapped)))
      ensures claim.crawlId in old(model).crawls ==>
                && claim.crawlId in model.crawls
                && AnswerFollows(store.lib, old(model).crawls[claim.crawlId], model.crawls[claim.crawlId], index,
                                 robotsAllow, scraped, mapped, now)
    {
      hide AnswerFollows, WorkOutcome, FinishSuccessRows, FinishFailureRows, M.Run, M.Next, Current;
      var j := claim.crawlId;
      ghost var step := M.Finish(j, index, robotsAllow, scraped, mapped);
      ghost var ticked := M.Next(TheWorld(), model, M.Tick(now - model.now));
      TickedModel(TheWorld(), model, now - model.now);
      FinishedModel(TheWorld(), ticked, step);
      assert j in store.Snapshot() <==> j in RowsOf(model);
      if j in model.crawls {
        assert store.Snapshot()[j] == model.crawls[j].rows;
        IssuedClaim(claim, index);
        FinishFollows(now, j, index, robotsAllow, scraped, mapped);
      }
      match WorkOutcome(store.lib, options, claim, robotsAllow, scraped, mapped) {
        case Success(page, links) => r := store.FinishSuccess(claim, page, links, now);
        case Failure(error) => r := store.FinishFailure(claim, error, now);
      }
      Take(now, step);
    }

    /** A worker nobody interrupts. A job that is gone is an error, a cancelled one leaves the task
        active; otherwise the worker's finish is a Finish step of the machine. */
    method ProcessTask(claim: ClaimedTask, ghost index: nat, robotsAllow: bool,
                       scraped: Result<Page, ScrapeError>, mapped: Option<seq<Url>>, now: Time)
      returns (r: Result<(), StoreError>)
      requires Valid() && now >= model.now && IssuedAt(claim, index)
      modifies this, store
      ensures Valid()
      ensures claim.crawlId !in old(model).crawls ==> r == Err(Database) && model == old(model)
      ensures claim.crawlId in old(model).crawls ==> r == Ok(())
      ensures claim.crawlId in old(model).crawls && old(model).crawls[claim.crawlId].rows.job.cancelRequested ==>
                model == old(model)
      ensures claim.crawlId in old(model).crawls && !old(model).crawls[claim.crawlId].rows.job.cancelRequested ==>
                && model == old(After(now, M.Finish(claim.crawlId, index, robotsAllow, scraped, mapped)))
                && claim.crawlId in model.crawls
                && AnswerFollows(store.lib, old(model).crawls[claim.crawlId], model.crawls[claim.crawlId], index,
                                 robotsAllow, scraped, mapped, now)
    {
      hide M.Run, AnswerFollows;
      var options := StartTask(claim);
      match options
      case Err(error) => return Err(error);
      case Ok(None) => return Ok(());
      case Ok(Some(config)) => r := FinishTask(claim, index, config, robotsAllow, scraped, mapped, now);
    }

    /** A cancel answers with the first results of the job as it stands then. */
    method Cancel(j: Uuid, order: RowOrder, now: Time) returns (r: Option<Status>)
      requires Valid() && now >= model.now && IsRowOrder(order)
      modifies this, store
      ensures Valid() && model == old(After(now, M.Cancel(j)))
      ensures j in old(model).crawls ==>
                var (before, after) := (old(model).crawls[j].rows, model.crawls[j].rows);
                && after.tasks == before.tasks
                && if before.job.status.Waiting? || before.job.status.Scraping?
                   then after.job.status.Cancelled? && after.job.cancelRequested
                   else after.job == before.job
      ensures r == if j !in model.crawls then None else
                   var rows := model.crawls[j].rows;
                   Some(StatusOf(rows.job, rows.tasks, rows.tasks, order, 0, DEFAULT_STATUS_LIMIT))
    {
      hide M.Run, StatusOf, Lists;
      store.Cancel(j, now);
      Take(now, M.Cancel(j));
      assert RowsOf(model) == store.Snapshot();
      assert j in store.jobs <==> j in RowsOf(model);
      var tasks := TasksOf(store.tasks, j);
      assert j in model.crawls ==> store.Snapshot()[j] == model.crawls[j].rows;
      var job := if j in store.jobs then Some(store.jobs[j]) else None;
      r := Get(job, tasks, tasks, order, 0, DEFAULT_STATUS_LIMIT);
    }

    method CleanupExpired(now: Time) returns (deleted: nat)
      requires Valid() && now >= model.now
      modifies this, store
      ensures Valid() && model == old(After(now, M.Cleanup))
      ensures deleted == |old(model).crawls| - |model.crawls|
      ensures forall j | j in old(model).crawls ::
                var job := old(model).crawls[j].rows.job;
                j !in model.crawls <==>
                  && (job.status.Done? || job.status.Cancelled?)
                  && job.expiresAt.Some? && now >= job.expiresAt.value
    {
      hide M.Run;
      deleted := store.CleanupExpired(now);
      RowsOfSize(model);
      Take(now, M.Cleanup);
      RowsOfSize(model);
    }
  }
}
