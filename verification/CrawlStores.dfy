/**
 The crawl store: the two tables as mutable maps, and the methods that run the SQL statements on
 them, proved against the functions of CrawlStatements.
 */
module CrawlStores {
  import opened Wrappers
  import opened CrawlRows
  import opened CrawlStatements
  import C = CrawlContracts

  /** WHERE crawl_id = j */
  function TasksOf(tasks: map<Uuid, Task>, j: Uuid): map<Uuid, Task> {
    map id | id in tasks && tasks[id].crawlId == j :: tasks[id]
  }

  function Rowwise(jobs: map<Uuid, Job>, tasks: map<Uuid, Task>): map<Uuid, Rows> {
    map j | j in jobs :: Rows(jobs[j], TasksOf(tasks, j))
  }

  lemma RowwiseTaskUpdate(jobs: map<Uuid, Job>, tasks: map<Uuid, Task>, j: Uuid, id: Uuid, task: Task)
    requires j in jobs && task.crawlId == j && (id in tasks ==> tasks[id].crawlId == j)
    ensures TasksOf(tasks[id := task], j) == TasksOf(tasks, j)[id := task]
    ensures Rowwise(jobs, tasks[id := task])
            == Rowwise(jobs, tasks)[j := Rows(jobs[j], TasksOf(tasks, j)[id := task])]
  {
    hide TasksOf;
    OwnTaskUpdate(tasks, j, id, task);
    forall k | k != j ensures TasksOf(tasks[id := task], k) == TasksOf(tasks, k) {
      OtherTasksKept(tasks, j, id, task, k);
    }
  }

  lemma OwnTaskUpdate(tasks: map<Uuid, Task>, j: Uuid, id: Uuid, task: Task)
    requires task.crawlId == j
    ensures TasksOf(tasks[id := task], j) == TasksOf(tasks, j)[id := task]
  {
  }

  lemma OtherTasksKept(tasks: map<Uuid, Task>, j: Uuid, id: Uuid, task: Task, k: Uuid)
    requires task.crawlId == j != k && (id in tasks ==> tasks[id].crawlId == j)
    ensures TasksOf(tasks[id := task], k) == TasksOf(tasks, k)
  {
  }

  lemma RowwiseJobUpdate(jobs: map<Uuid, Job>, tasks: map<Uuid, Task>, j: Uuid, job: Job)
    ensures Rowwise(jobs[j := job], tasks) == Rowwise(jobs, tasks)[j := Rows(job, TasksOf(tasks, j))]
  {
  }

  lemma RowwiseUnchanged(jobs: map<Uuid, Job>, tasks: map<Uuid, Task>, j: Uuid)
    requires j in jobs
    ensures Rowwise(jobs, tasks) == Rowwise(jobs, tasks)[j := Rows(jobs[j], TasksOf(tasks, j))]
  {
  }

  lemma RowwiseJobs(jobs: map<Uuid, Job>, tasks: map<Uuid, Task>)
    ensures Rowwise(jobs, tasks).Keys == jobs.Keys
    ensures forall j | j in jobs :: Rowwise(jobs, tasks)[j] == Rows(jobs[j], TasksOf(tasks, j))
  {
  }

  lemma TasksOfCleanup(tasks: map<Uuid, Task>, gone: set<Uuid>, j: Uuid)
    requires j !in gone
    ensures TasksOf(map id | id in tasks && tasks[id].crawlId !in gone :: tasks[id], j) == TasksOf(tasks, j)
  {
  }

  /** DELETE FROM crawl_jobs WHERE expired */
  function Unexpired(all: map<Uuid, Rows>, now: Time): map<Uuid, Rows> {
    map j | j in all && !Expired(all[j].job, now) :: all[j]
  }

  lemma UnexpiredStay(all: map<Uuid, Rows>, now: Time)
    ensures forall j | j in all ::
              j !in Unexpired(all, now) <==>
                && (all[j].job.status.Done? || all[j].job.status.Cancelled?)
                && all[j].job.expiresAt.Some? && now >= all[j].job.expiresAt.value
    ensures forall j | j in Unexpired(all, now) :: j in all && Unexpired(all, now)[j] == all[j]
  {
  }

  lemma UnexpiredAre(jobs: map<Uuid, Job>, tasks: map<Uuid, Task>, gone: set<Uuid>, now: Time)
    requires gone == set j | j in jobs && Expired(jobs[j], now)
    ensures Unexpired(Rowwise(jobs, tasks), now)
         == Rowwise(map j | j in jobs && j !in gone :: jobs[j],
                    map id | id in tasks && tasks[id].crawlId !in gone :: tasks[id])
    ensures |Unexpired(Rowwise(jobs, tasks), now)| == |Rowwise(jobs, tasks)| - |gone|
  {
    hide Rowwise, TasksOf, Expired;
    RowwiseJobs(jobs, tasks);
    RowwiseCleanup(jobs, tasks, gone);
    SizeWithout(Rowwise(jobs, tasks), gone);
  }

  /** Jobs leave together with their tasks, the others keep theirs. */
  lemma RowwiseCleanup(jobs: map<Uuid, Job>, tasks: map<Uuid, Task>, gone: set<Uuid>)
    requires gone <= jobs.Keys
    ensures Rowwise(map j | j in jobs && j !in gone :: jobs[j],
                    map id | id in tasks && tasks[id].crawlId !in gone :: tasks[id])
         == map j | j in jobs && j !in gone :: Rowwise(jobs, tasks)[j]
  {
    hide TasksOf;
    forall j | j in jobs && j !in gone
      ensures TasksOf(map id | id in tasks && tasks[id].crawlId !in gone :: tasks[id], j) == TasksOf(tasks, j)
    {
      TasksOfCleanup(tasks, gone, j);
    }
  }

  lemma SizeWithout(all: map<Uuid, Rows>, gone: set<Uuid>)
    requires gone <= all.Keys
    ensures |map j | j in all && j !in gone :: all[j]| == |all| - |gone|
  {
    var left := map j | j in all && j !in gone :: all[j];
    assert left.Keys == all.Keys - gone;
    assert |left| == |left.Keys| && |all| == |all.Keys|;
  }

  lemma CountInJob(tasks: map<Uuid, Task>, j: Uuid)
    ensures |set id | id in tasks && tasks[id].crawlId == j| == |TasksOf(tasks, j)|
  {
    assert (set id | id in tasks && tasks[id].crawlId == j) == TasksOf(tasks, j).Keys;
  }

  lemma ConflictInJob(tasks: map<Uuid, Task>, j: Uuid, url: Url, key: string)
    ensures Conflicts(TasksOf(tasks, j), url, key) <==>
              exists id | id in tasks :: tasks[id].crawlId == j && (tasks[id].url == url || tasks[id].dedupKey == key)
  {
    if id :| id in tasks && tasks[id].crawlId == j && (tasks[id].url == url || tasks[id].dedupKey == key) {
      assert id in TasksOf(tasks, j);
    }
  }

  lemma NewTaskJob(j: Uuid, url: Url, key: string, depth: int, now: Time)
    ensures NewTask(j, url, key, depth, now).crawlId == j
  {
  }

  lemma InsertLinksUnfolds(lib: Library, config: Config, tasks: map<Uuid, Task>, j: Uuid, links: seq<Url>, i: nat,
                           depth: int, id: Uuid, now: Time)
    requires i < |links|
    ensures CrawlStatements.InsertLinks(lib, config, tasks, j, links[i..], depth, id, now)
         == CrawlStatements.InsertLinks(lib, config,
              CrawlStatements.InsertLink(lib, config, tasks, j, links[i], depth, id, now),
              j, links[i + 1..], depth, id + 1, now)
  {
    hide CrawlStatements.InsertLink;
    assert links[i..][0] == links[i] && links[i..][1..] == links[i + 1..];
  }

  lemma NoMoreLinks(lib: Library, config: Config, tasks: map<Uuid, Task>, j: Uuid, links: seq<Url>,
                    depth: int, id: Uuid, now: Time)
    ensures CrawlStatements.InsertLinks(lib, config, tasks, j, links[|links|..], depth, id, now) == tasks
  {
  }

  lemma NoBatchTasks(j: Uuid, now: Time)
    ensures BatchTasks([], j, j + 1, now) == map[]
  {
  }

  lemma BatchTasksExtended(urls: seq<Url>, i: nat, j: Uuid, now: Time)
    requires i < |urls|
    ensures BatchTasks(urls[..i + 1], j, j + 1, now)
         == BatchTasks(urls[..i], j, j + 1, now)[j + 1 + i := NewTask(j, urls[i], urls[i], 0, now)]
    ensures |BatchTasks(urls[..i + 1], j, j + 1, now)| == |BatchTasks(urls[..i], j, j + 1, now)| + 1
  {
    hide NewTask;
    assert urls[..i + 1][..i] == urls[..i];
  }

  /** ORDER BY next_attempt_at, created_at */
  predicate Before(a: Task, b: Task) {
    a.nextAttemptAt < b.nextAttemptAt || (a.nextAttemptAt == b.nextAttemptAt && a.createdAt < b.createdAt)
  }

  /** The longest due first, among equals the oldest first. */
  predicate ComesFirst(a: Task, b: Task) {
    if a.nextAttemptAt == b.nextAttemptAt then a.createdAt <= b.createdAt else a.nextAttemptAt < b.nextAttemptAt
  }

  lemma NobodyBefore(all: map<Uuid, Rows>, first: Task, now: Time)
    requires forall j, id | j in all && Claimable(all[j], id, now) :: !Before(all[j].tasks[id], first)
    ensures forall j, id | j in all && Claimable(all[j], id, now) :: ComesFirst(first, all[j].tasks[id])
  {
    hide Claimable;
    forall j, id | j in all && Claimable(all[j], id, now) ensures id in all[j].tasks {
      ClaimableIsThere(all[j], id, now);
    }
  }

  lemma {:induction false} FirstExists(tasks: map<Uuid, Task>, ids: set<Uuid>) returns (first: Uuid)
    requires ids != {} && ids <= tasks.Keys
    ensures first in ids && forall id | id in ids :: !Before(tasks[id], tasks[first])
  {
    var x :| x in ids;
    if ids == {x} {
      first := x;
    } else {
      first := FirstExists(tasks, ids - {x});
      if Before(tasks[x], tasks[first]) {
        first := x;
      }
    }
  }

  lemma RowwiseFreshJob(jobs: map<Uuid, Job>, tasks: map<Uuid, Task>, j: Uuid, job: Job, rows: map<Uuid, Task>)
    requires forall id | id in tasks :: tasks[id].crawlId != j
    requires forall id | id in rows :: id !in tasks && rows[id].crawlId == j
    ensures Rowwise(jobs[j := job], tasks + rows) == Rowwise(jobs, tasks)[j := Rows(job, rows)]
  {
    assert TasksOf(tasks + rows, j) == rows;
    forall k | k != j ensures TasksOf(tasks + rows, k) == TasksOf(tasks, k) {
    }
  }

  class CrawlStore {
    const lib: Library
    const retentionDays: nat

    var jobs: map<Uuid, Job>
    var tasks: map<Uuid, Task>
    var idempotencyKeys: set<Uuid>
    /** The next value of Uuid::new_v4, none of which ever repeats. */
    var nextId: Uuid

    /** Primary keys come from the supply and every task belongs to a job. */
    ghost predicate Valid()
      reads this
    {
      && (forall j | j in jobs :: j < nextId)
      && (forall id | id in tasks :: id < nextId && tasks[id].crawlId in jobs)
    }

    /** Per job, its row and the rows of its tasks. */
    ghost function Snapshot(): map<Uuid, Rows>
      reads this
    {
      Rowwise(jobs, tasks)
    }

    constructor (lib: Library, retentionDays: nat)
      ensures Valid() && Snapshot() == map[] && idempotencyKeys == {} && nextId == 0
      ensures this.lib == lib && this.retentionDays == retentionDays
    {
      this.lib := lib;
      this.retentionDays := retentionDays;
      jobs, tasks, idempotencyKeys, nextId := map[], map[], {}, 0;
    }

    // ---------- Enqueue ----------

    /** Insert a job under the next id together with its first tasks. */
    method InsertJob(job: Job, rows: map<Uuid, Task>, ids: nat)
      requires Valid() && ids > 0
      requires forall id | id in rows :: nextId < id < nextId + ids && rows[id].crawlId == nextId
      modifies this`jobs, this`tasks, this`nextId
      ensures Valid() && nextId == old(nextId) + ids
      ensures Snapshot() == old(Snapshot())[old(nextId) := Rows(job, rows)]
    {
      RowwiseFreshJob(jobs, tasks, nextId, job, rows);
      jobs := jobs[nextId := job];
      tasks := tasks + rows;
      nextId := nextId + ids;
    }

    method Enqueue(request: CrawlRequest, now: Time) returns (r: Result<Uuid, StoreError>)
      requires Valid()
      modifies this
      ensures Valid()
      ensures match EnqueueRows(lib, request, old(idempotencyKeys), old(nextId), old(nextId) + 1, retentionDays, now)
              case Err(error) =>
                r == Err(error) && Snapshot() == old(Snapshot())
                && nextId == old(nextId) && idempotencyKeys == old(idempotencyKeys)
              case Ok(rows) =>
                r == Ok(old(nextId)) && Snapshot() == old(Snapshot())[old(nextId) := rows]
                && nextId == old(nextId) + 2
                && idempotencyKeys == old(idempotencyKeys)
                   + (if request.idempotencyKey.Key? then {request.idempotencyKey.id} else {})
    {
      if request.limit == 0 || request.maxConcurrency == 0 {
        return Err(InvalidRequest);
      }
      var normalized := lib.normalize(request.url);
      if normalized.None? {
        return Err(InvalidRequest);
      }
      var url := normalized.value;
      if exists p | p in request.includePaths + request.excludePaths :: !lib.regexValid(p) {
        return Err(InvalidRequest);
      }
      if request.idempotencyKey.Malformed? {
        return Err(InvalidRequest);
      }
      if request.idempotencyKey.Key? && request.idempotencyKey.id in idempotencyKeys {
        return Err(IdempotencyConflict);
      }
      var config := CrawlConfig(request, url);
      if !SchemaOk(config) {
        return Err(Database);
      }
      if request.idempotencyKey.Key? {
        idempotencyKeys := idempotencyKeys + {request.idempotencyKey.id};
      }
      var id, taskId := nextId, nextId + 1;
      var rows := map[taskId := NewTask(id, url, DedupKey(lib, url, request.dedupSimilar), 0, now)];
      InsertJob(NewJob(config, retentionDays, now), rows, 2);
      return Ok(id);
    }

    /** The first loop of enqueue_batch: normalise and drop repetitions. */
    method NormalizeBatch(raw: seq<string>) returns (r: Option<seq<Url>>)
      ensures r == match NormalizeAll(lib, raw)
                   case None => None
                   case Some(all) => Some(Distinct(all))
    {
      var urls := [];
      for i := 0 to |raw|
        invariant NormalizeAll(lib, raw[..i]).Some? && urls == Distinct(NormalizeAll(lib, raw[..i]).value)
      {
        assert raw[..i + 1][..i] == raw[..i];
        var url := lib.normalize(raw[i]);
        if url.None? {
          NormalizeAllFails(lib, raw, i + 1);
          return None;
        }
        ghost var all := NormalizeAll(lib, raw[..i]).value;
        assert (all + [url.value])[..|all|] == all;
        if url.value !in urls {
          urls := urls + [url.value];
        }
      }
      assert raw[..|raw|] == raw;
      return Some(urls);
    }

    /** The second loop of enqueue_batch: one row per URL. */
    method InsertBatch(urls: seq<Url>, id: Uuid, now: Time) returns (rows: map<Uuid, Task>)
      ensures rows == BatchTasks(urls, id, id + 1, now) && |rows| == |urls|
    {
      hide BatchTasks, NewTask;
      rows := map[];
      NoBatchTasks(id, now);
      for i := 0 to |urls|
        invariant rows == BatchTasks(urls[..i], id, id + 1, now) && |rows| == i
      {
        BatchTasksExtended(urls, i, id, now);
        rows := rows[id + 1 + i := NewTask(id, urls[i], urls[i], 0, now)];
      }
      assert urls[..|urls|] == urls;
    }

    method EnqueueBatch(request: BatchRequest, now: Time) returns (r: Result<Uuid, StoreError>)
      requires Valid()
      modifies this
      ensures Valid() && idempotencyKeys == old(idempotencyKeys)
      ensures match EnqueueBatchRows(lib, request, old(nextId), old(nextId) + 1, retentionDays, now)
              case Err(error) =>
                r == Err(error) && Snapshot() == old(Snapshot()) && nextId == old(nextId)
              case Ok(rows) =>
                r == Ok(old(nextId)) && Snapshot() == old(Snapshot())[old(nextId) := rows]
                && nextId == old(nextId) + 1 + |rows.tasks|
    {
      hide NormalizeAll, Distinct, BatchTasks;
      var normalized := NormalizeBatch(request.urls);
      if normalized.None? {
        return Err(InvalidRequest);
      }
      var urls := normalized.value;
      if urls == [] || |urls| > 1000 || request.maxConcurrency == 0 {
        return Err(InvalidRequest);
      }
      var config := BatchConfig(request, urls);
      if !SchemaOk(config) {
        return Err(Database);
      }
      var id := nextId;
      var rows := InsertBatch(urls, id, now);
      InsertJob(NewJob(config, retentionDays, now), rows, 1 + |urls|);
      return Ok(id);
    }

    // ---------- Claim ----------

    /** The candidate query: None exactly when no job has a claimable task, otherwise one that no
        other claimable task precedes. */
    method Candidate(now: Time) returns (r: Option<Uuid>)
      requires Valid()
      ensures r.None? ==> forall j, id | j in Snapshot() :: !Claimable(Snapshot()[j], id, now)
      ensures r.Some? ==>
                && r.value in tasks && tasks[r.value].crawlId in Snapshot()
                && Claimable(Snapshot()[tasks[r.value].crawlId], r.value, now)
                && forall j, id | j in Snapshot() && Claimable(Snapshot()[j], id, now) ::
                     !Before(Snapshot()[j].tasks[id], tasks[r.value])
    {
      hide Claimable, Before;
      var candidates := set id | id in tasks && Selected(id, now);
      forall j, id | j in Snapshot() ensures Claimable(Snapshot()[j], id, now) ==> id in candidates {
        if Claimable(Snapshot()[j], id, now) {
          ClaimableIsSelected(j, id, now);
          assert id in candidates;
        }
      }
      if candidates == {} {
        forall j, id | j in Snapshot() ensures !Claimable(Snapshot()[j], id, now) {
          assert Claimable(Snapshot()[j], id, now) ==> id in candidates;
        }
        return None;
      }
      ghost var first := FirstExists(tasks, candidates);
      var id :| id in candidates && forall other | other in candidates :: !Before(tasks[other], tasks[id]);
      forall j, k | j in Snapshot() && Claimable(Snapshot()[j], k, now)
        ensures k in Snapshot()[j].tasks && !Before(Snapshot()[j].tasks[k], tasks[id])
      {
        ClaimableIsSelected(j, k, now);
      }
      return Some(id);
    }

    lemma ClaimableIsSelected(j: Uuid, id: Uuid, now: Time)
      requires Valid() && j in Snapshot() && Claimable(Snapshot()[j], id, now)
      ensures id in tasks && tasks[id].crawlId == j && Selected(id, now)
      ensures id in Snapshot()[j].tasks && Snapshot()[j].tasks[id] == tasks[id]
    {
      hide Claimable;
      ClaimableIsThere(Snapshot()[j], id, now);
    }

    /** Claim the first candidate under a fresh lease token. */
    method ClaimTask(now: Time) returns (r: Option<ClaimedTask>)
      requires Valid()
      modifies this
      ensures Valid() && idempotencyKeys == old(idempotencyKeys)
      ensures r.None? ==>
                && Snapshot() == old(Snapshot()) && nextId == old(nextId)
                && forall j, id | j in old(Snapshot()) :: !Claimable(old(Snapshot())[j], id, now)
      ensures r.Some? ==>
                var claim, before := r.value, old(Snapshot());
                && claim.crawlId in before && Claimable(before[claim.crawlId], claim.id, now)
                && claim == ClaimOf(before[claim.crawlId].tasks[claim.id], claim.id, old(nextId))
                && Snapshot() == before[claim.crawlId := ClaimRows(before[claim.crawlId], claim.id, old(nextId), now)]
                && nextId == old(nextId) + 1
                && claim.id in before[claim.crawlId].tasks && C.MayBeClaimed(before[claim.crawlId], claim.id, now)
                && C.IsClaimed(before[claim.crawlId], Snapshot()[claim.crawlId], claim.id, claim.leaseToken, now, claim)
                && claim.leaseToken == old(nextId)
                && forall j, id | j in before && Claimable(before[j], id, now) ::
                     ComesFirst(before[claim.crawlId].tasks[claim.id], before[j].tasks[id])
    {
      hide Claimable, Before, ComesFirst, Started, TouchedJob, C.MayBeClaimed, C.IsClaimed;
      var candidate := Candidate(now);
      if candidate.None? {
        return None;
      }
      var id, token := candidate.value, nextId;
      var j, task := tasks[id].crawlId, tasks[id];
      NobodyBefore(Snapshot(), task, now);
      var started := Started(task, token, now);
      StartedStays(task, token, now);
      C.ClaimIsExact(Snapshot()[j], id, token, now);
      RowwiseTaskUpdate(jobs, tasks, j, id, started);
      RowwiseJobUpdate(jobs, tasks[id := started], j, TouchedJob(jobs[j], now));
      tasks := tasks[id := started];
      jobs := jobs[j := TouchedJob(jobs[j], now)];
      nextId := nextId + 1;
      return Some(ClaimOf(task, id, token));
    }

    /** The WHERE clause of the candidate query, on the joined tables. */
    predicate Selected(id: Uuid, now: Time)
      requires id in tasks && Valid()
      reads this
      ensures Selected(id, now) <==> Claimable(Snapshot()[tasks[id].crawlId], id, now)
    {
      var j := tasks[id].crawlId;
      var leased := set k | k in tasks && tasks[k].crawlId == j && HoldsLease(tasks[k], now);
      assert leased == Leased(TasksOf(tasks, j), now);
      && MayStart(jobs[j], now)
      && Due(tasks[id], now)
      && |leased| < jobs[j].config.maxConcurrency
    }

    // ---------- Finish ----------

    /** One INSERT ... WHERE the page limit leaves room ON CONFLICT DO NOTHING. */
    method InsertLink(j: Uuid, url: Url, depth: int, now: Time)
      requires Valid() && j in jobs
      modifies this`tasks, this`nextId
      ensures Valid() && nextId == old(nextId) + 1
      ensures TasksOf(tasks, j)
              == CrawlStatements.InsertLink(lib, jobs[j].config, old(TasksOf(tasks, j)), j, url, depth,
                                            old(nextId), now)
      ensures Snapshot() == old(Snapshot())[j := Rows(jobs[j], TasksOf(tasks, j))]
    {
      hide DedupKey, NewTask, Conflicts, TasksOf, Rowwise;
      var config := jobs[j].config;
      var key := DedupKey(lib, url, config.dedupSimilar);
      var count := |set id | id in tasks && tasks[id].crawlId == j|;
      var conflict := exists id | id in tasks ::
        tasks[id].crawlId == j && (tasks[id].url == url || tasks[id].dedupKey == key);
      CountInJob(tasks, j);
      ConflictInJob(tasks, j, url, key);
      var id := nextId;
      nextId := nextId + 1;
      if count < config.pageLimit && !conflict {
        var task := NewTask(j, url, key, depth, now);
        NewTaskJob(j, url, key, depth, now);
        RowwiseTaskUpdate(jobs, tasks, j, id, task);
        tasks := tasks[id := task];
      } else {
        RowwiseUnchanged(jobs, tasks, j);
      }
    }

    /** UPDATE crawl_jobs ... WHERE NOT EXISTS an open task. */
    method CompleteIfDrained(j: Uuid, now: Time)
      requires Valid() && j in jobs
      modifies this`jobs
      ensures Valid()
      ensures Snapshot() == old(Snapshot())[j := CrawlStatements.CompleteIfDrained(old(Snapshot())[j], now)]
    {
      var open := exists id | id in tasks :: tasks[id].crawlId == j && Open(tasks[id]);
      if id :| id in tasks && tasks[id].crawlId == j && Open(tasks[id]) {
        assert id in TasksOf(tasks, j);
      }
      assert open <==> !Drained(TasksOf(tasks, j));
      if !jobs[j].cancelRequested && !open {
        RowwiseJobUpdate(jobs, tasks, j, jobs[j].(status := Done, finishedAt := Some(now)));
        jobs := jobs[j := jobs[j].(status := Done, finishedAt := Some(now))];
      } else {
        assert Snapshot() == old(Snapshot())[j := old(Snapshot())[j]];
      }
    }

    /** Claims are only built by ClaimTask: they name the job of their task. */
    ghost predicate NamesItsJob(claim: ClaimedTask)
      reads this
    {
      claim.id in tasks ==> tasks[claim.id].crawlId == claim.crawlId
    }

    /** The WHERE clause of the UPDATE of a finish. */
    predicate Matches(claim: ClaimedTask)
      reads this
    {
      && claim.id in tasks
      && tasks[claim.id].leaseToken == Some(claim.leaseToken)
      && tasks[claim.id].status.Active?
    }

    /** The UPDATE of a finish: changes the row of the claim if it still matches, and says whether it
        did. The columns it sets do not include the job. */
    method UpdateTask(claim: ClaimedTask, change: Task -> Task) returns (updated: bool)
      requires Valid() && claim.crawlId in jobs && NamesItsJob(claim)
      requires forall task :: change(task).crawlId == task.crawlId
      modifies this`tasks
      ensures Valid()
      ensures updated <==> Current(old(TasksOf(tasks, claim.crawlId)), claim)
      ensures TasksOf(tasks, claim.crawlId) ==
                var before := old(TasksOf(tasks, claim.crawlId));
                if updated then before[claim.id := change(before[claim.id])] else before
      ensures Snapshot() == old(Snapshot())[claim.crawlId := Rows(jobs[claim.crawlId], TasksOf(tasks, claim.crawlId))]
    {
      assert Matches(claim) <==> Current(TasksOf(tasks, claim.crawlId), claim);
      updated := Matches(claim);
      if updated {
        RowwiseTaskUpdate(jobs, tasks, claim.crawlId, claim.id, change(tasks[claim.id]));
        tasks := tasks[claim.id := change(tasks[claim.id])];
      } else {
        RowwiseUnchanged(jobs, tasks, claim.crawlId);
      }
    }

    /** The loop over the discovered links. */
    method InsertLinks(j: Uuid, links: seq<Url>, depth: int, now: Time)
      requires Valid() && j in jobs
      modifies this`tasks, this`nextId
      ensures Valid() && nextId == old(nextId) + |links|
      ensures Snapshot() == old(Snapshot())[j := Rows(jobs[j],
                CrawlStatements.InsertLinks(lib, jobs[j].config, old(TasksOf(tasks, j)), j, links, depth,
                                            old(nextId), now))]
    {
      hide Rowwise, TasksOf, CrawlStatements.InsertLinks, CrawlStatements.InsertLink;
      RowwiseUnchanged(jobs, tasks, j);
      assert links[0..] == links;
      for i := 0 to |links|
        invariant Valid() && nextId == old(nextId) + i
        invariant CrawlStatements.InsertLinks(lib, jobs[j].config, TasksOf(tasks, j), j, links[i..], depth, nextId, now)
               == CrawlStatements.InsertLinks(lib, jobs[j].config, old(TasksOf(tasks, j)), j, links, depth,
                                              old(nextId), now)
        invariant Snapshot() == old(Snapshot())[j := Rows(jobs[j], TasksOf(tasks, j))]
      {
        InsertLinksUnfolds(lib, jobs[j].config, TasksOf(tasks, j), j, links, i, depth, nextId, now);
        InsertLink(j, links[i], depth, now);
      }
      NoMoreLinks(lib, jobs[j].config, TasksOf(tasks, j), j, links, depth, nextId, now);
    }

    method FinishSuccess(claim: ClaimedTask, page: Page, links: seq<Url>, now: Time)
      returns (r: Result<(), StoreError>)
      requires Valid() && (claim.crawlId in Snapshot() ==> NamesItsJob(claim))
      modifies this
      ensures Valid() && idempotencyKeys == old(idempotencyKeys)
      ensures claim.crawlId !in old(Snapshot()) ==>
                r == Err(Database) && Snapshot() == old(Snapshot()) && nextId == old(nextId)
      ensures claim.crawlId in old(Snapshot()) ==>
                var rows := old(Snapshot())[claim.crawlId];
                && r == Ok(())
                && Snapshot() == old(Snapshot())[claim.crawlId :=
                     FinishSuccessRows(lib, rows, claim, page, links, old(nextId), now)]
                && nextId == old(nextId) +
                     if Current(rows.tasks, claim) && !rows.job.cancelRequested then |links| else 0
    {
      hide CrawlStatements.InsertLinks, CrawlStatements.CompleteIfDrained, Rowwise, TasksOf, Succeeded, Current;
      RowwiseJobs(jobs, tasks);
      if claim.crawlId !in jobs {
        return Err(Database);
      }
      SucceededStays(page, now);
      var j := claim.crawlId;
      var cancelRequested := jobs[j].cancelRequested;
      var updated := UpdateTask(claim, task => Succeeded(task, page, now));
      if !updated {
        return Ok(());
      }
      if !cancelRequested {
        InsertLinks(j, links, claim.depth + 1, now);
      }
      CompleteIfDrained(j, now);
      return Ok(());
    }

    method FinishFailure(claim: ClaimedTask, error: ScrapeError, now: Time)
      returns (r: Result<(), StoreError>)
      requires Valid() && (claim.crawlId in Snapshot() ==> NamesItsJob(claim) && claim.attempts >= 1)
      modifies this
      ensures Valid() && idempotencyKeys == old(idempotencyKeys) && nextId == old(nextId)
      ensures claim.crawlId !in old(Snapshot()) ==> r == Err(Database) && Snapshot() == old(Snapshot())
      ensures claim.crawlId in old(Snapshot()) ==>
                && r == Ok(())
                && Snapshot() == old(Snapshot())[claim.crawlId :=
                     FinishFailureRows(old(Snapshot())[claim.crawlId], claim, error, now)]
    {
      hide RetryDelaySeconds, CrawlStatements.CompleteIfDrained, Rowwise, TasksOf, FailedOnce, Current;
      RowwiseJobs(jobs, tasks);
      if claim.crawlId !in jobs {
        return Err(Database);
      }
      var j := claim.crawlId;
      FailedOnceStays(jobs[j], error, now);
      RetryDelayShape(claim.attempts, claim.attempts);
      var delay := RetryDelaySeconds(claim.attempts).value;
      var job := jobs[j];
      var updated := UpdateTask(claim, task => FailedOnce(job, task, error, delay, now));
      if updated {
        CompleteIfDrained(j, now);
      }
      return Ok(());
    }

    // ---------- Cancel and cleanup ----------

    method Cancel(j: Uuid, now: Time)
      requires Valid()
      modifies this`jobs
      ensures Valid()
      ensures Snapshot() ==
                if j in old(Snapshot()) then old(Snapshot())[j := CancelRows(old(Snapshot())[j], now)]
                else old(Snapshot())
    {
      if j in jobs && (jobs[j].status.Waiting? || jobs[j].status.Scraping?) {
        var job := jobs[j].(cancelRequested := true, status := Cancelled,
          finishedAt := if jobs[j].finishedAt.Some? then jobs[j].finishedAt else Some(now));
        RowwiseJobUpdate(jobs, tasks, j, job);
        jobs := jobs[j := job];
      } else if j in jobs {
        assert Snapshot() == old(Snapshot())[j := old(Snapshot())[j]];
      }
    }

    /** DELETE FROM crawl_jobs with ON DELETE CASCADE: a job goes together with all its tasks. */
    method CleanupExpired(now: Time) returns (deleted: nat)
      requires Valid()
      modifies this`jobs, this`tasks
      ensures Valid()
      ensures Snapshot() == Unexpired(old(Snapshot()), now)
      ensures deleted == |old(Snapshot())| - |Snapshot()|
      ensures forall j | j in old(Snapshot()) ::
                var job := old(Snapshot())[j].job;
                j !in Snapshot() <==>
                  && (job.status.Done? || job.status.Cancelled?)
                  && job.expiresAt.Some? && now >= job.expiresAt.value
      ensures forall j | j in Snapshot() :: j in old(Snapshot()) && Snapshot()[j] == old(Snapshot())[j]
      ensures forall id | id in tasks :: tasks[id].crawlId in Snapshot()
    {
      hide Rowwise, TasksOf, Expired, Unexpired;
      var gone := set j | j in jobs && Expired(jobs[j], now);
      UnexpiredAre(jobs, tasks, gone, now);
      UnexpiredStay(Snapshot(), now);
      jobs := map j | j in jobs && j !in gone :: jobs[j];
      tasks := map id | id in tasks && tasks[id].crawlId !in gone :: tasks[id];
      RowwiseJobs(jobs, tasks);
      return |gone|;
    }
  }

  lemma ClaimableIsThere(rows: Rows, id: Uuid, now: Time)
    requires Claimable(rows, id, now)
    ensures id in rows.tasks
  {
  }

  lemma SucceededStays(page: Page, now: Time)
    ensures forall task :: Succeeded(task, page, now).crawlId == task.crawlId
  {
  }

  lemma FailedOnceStays(job: Job, error: ScrapeError, now: Time)
    ensures forall task, delay :: FailedOnce(job, task, error, delay, now).crawlId == task.crawlId
  {
  }

  lemma StartedStays(task: Task, token: Uuid, now: Time)
    ensures Started(task, token, now).crawlId == task.crawlId
  {
  }

  lemma {:induction false} NormalizeAllFails(lib: Library, raw: seq<string>, k: nat)
    requires k <= |raw| && NormalizeAll(lib, raw[..k]).None?
    ensures NormalizeAll(lib, raw).None?
  {
    if k < |raw| {
      assert raw[..|raw| - 1][..k] == raw[..k];
      NormalizeAllFails(lib, raw[..|raw| - 1], k);
    } else {
      assert raw[..k] == raw;
    }
  }
}
