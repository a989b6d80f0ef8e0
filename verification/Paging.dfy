/**
 Reading results: one page of a crawl's finished tasks, and the loop that assembles all pages.
 Both are only correct because of what the queue guarantees.
 */
module Paging {
  import opened Wrappers
  import opened CrawlRows
  import M = CrawlMachine
  import opened CrawlInvariants
  import opened Sequences
  import opened Sums
  import opened CrawlSafety
  import opened CrawlHistory

  datatype CrawlError = CrawlError(url: Url, code: string, message: string)

  datatype Status = Status(
    status: JobStatus, total: nat, completed: nat, failed: nat,
    data: seq<Page>, errors: seq<CrawlError>,
    offset: nat, limit: nat, resultsTotal: nat, next: Option<nat>)

  // ---------- The listed rows ----------

  /** result IS NOT NULL OR status = 'failed' */
  predicate Listed(task: Task) {
    task.result.Some? || task.status.Failed?
  }

  /** finished_at ASC NULLS LAST */
  predicate NotAfter(a: Option<Time>, b: Option<Time>) {
    b.None? || (a.Some? && a.value <= b.value)
  }

  /** Rows of the table, none twice, sorted by the end of their tasks. */
  ghost predicate InOrder(tasks: map<Uuid, Task>, ids: seq<Uuid>) {
    && (forall id | id in ids :: id in tasks)
    && (forall a, b | 0 <= a < b < |ids| :: ids[a] != ids[b])
    && (forall a, b | 0 <= a < b < |ids| :: NotAfter(tasks[ids[a]].finishedAt, tasks[ids[b]].finishedAt))
  }

  /** One of the row orders the query may return; ties are up to the database. */
  ghost predicate Lists(tasks: map<Uuid, Task>, ids: seq<Uuid>) {
    InOrder(tasks, ids) && forall id :: id in ids <==> id in tasks && Listed(tasks[id])
  }

  /** How the database orders the rows of a query: the same rows always in the same order. */
  type RowOrder = map<Uuid, Task> -> seq<Uuid>

  ghost predicate IsRowOrder(order: RowOrder) {
    forall tasks :: Lists(tasks, order(tasks))
  }

  /** The place of a row among sorted ones. */
  lemma {:induction false} Inserted(tasks: map<Uuid, Task>, ids: seq<Uuid>, id: Uuid) returns (r: seq<Uuid>)
    requires InOrder(tasks, ids) && id in tasks && id !in ids
    ensures InOrder(tasks, r) && forall k :: k in r <==> k in ids || k == id
  {
    if ids == [] {
      r := [id];
    } else {
      var n := |ids| - 1;
      if NotAfter(tasks[ids[n]].finishedAt, tasks[id].finishedAt) {
        r := ids + [id];
      } else {
        assert ids[n] !in ids[..n] && ids == ids[..n] + [ids[n]];
        var front := Inserted(tasks, ids[..n], id);
        r := front + [ids[n]];
        assert forall k | k in front :: NotAfter(tasks[k].finishedAt, tasks[ids[n]].finishedAt);
      }
    }
  }

  lemma {:induction false} SortedRows(tasks: map<Uuid, Task>, rows: set<Uuid>) returns (ids: seq<Uuid>)
    requires rows <= tasks.Keys
    ensures InOrder(tasks, ids) && forall k :: k in ids <==> k in rows
  {
    if rows == {} {
      ids := [];
    } else {
      var id :| id in rows;
      var others := SortedRows(tasks, rows - {id});
      ids := Inserted(tasks, others, id);
    }
  }

  lemma ListingExists(tasks: map<Uuid, Task>)
    ensures exists ids :: Lists(tasks, ids)
  {
    var ids := SortedRows(tasks, set id | id in tasks && Listed(tasks[id]));
    assert Lists(tasks, ids);
  }

  ghost function SomeListing(tasks: map<Uuid, Task>): (ids: seq<Uuid>)
    ensures Lists(tasks, ids)
  {
    ListingExists(tasks);
    var ids :| Lists(tasks, ids);
    ids
  }

  /** Every table can be listed, so there are row orders. */
  lemma RowOrdersExist()
    ensures exists order :: IsRowOrder(order)
  {
    var order: RowOrder := tasks => SomeListing(tasks);
    assert IsRowOrder(order);
  }

  function ErrorOf(task: Task): CrawlError {
    CrawlError(task.url,
               if task.errorCode.Some? then task.errorCode.value else "crawl_failed",
               if task.errorMessage.Some? then task.errorMessage.value else "Crawl task failed")
  }

  /** What one row adds to the data. */
  function PageEntry(tasks: map<Uuid, Task>, id: Uuid): seq<Page> {
    if id in tasks && tasks[id].result.Some? then [tasks[id].result.value] else []
  }

  /** What one row adds to the errors. */
  function ErrorEntry(tasks: map<Uuid, Task>, id: Uuid): seq<CrawlError> {
    if id in tasks && tasks[id].result.None? then [ErrorOf(tasks[id])] else []
  }

  function PagesOf(tasks: map<Uuid, Task>, ids: seq<Uuid>): seq<Page> {
    if ids == [] then [] else PagesOf(tasks, ids[..|ids| - 1]) + PageEntry(tasks, ids[|ids| - 1])
  }

  function ErrorsOf(tasks: map<Uuid, Task>, ids: seq<Uuid>): seq<CrawlError> {
    if ids == [] then [] else ErrorsOf(tasks, ids[..|ids| - 1]) + ErrorEntry(tasks, ids[|ids| - 1])
  }

  lemma EntriesOfLast(tasks: map<Uuid, Task>, ids: seq<Uuid>, id: Uuid)
    ensures PagesOf(tasks, ids + [id]) == PagesOf(tasks, ids) + PageEntry(tasks, id)
    ensures ErrorsOf(tasks, ids + [id]) == ErrorsOf(tasks, ids) + ErrorEntry(tasks, id)
  {
    hide PageEntry, ErrorEntry;
    assert (ids + [id])[..|ids|] == ids;
  }

  lemma EntriesOfNone(tasks: map<Uuid, Task>)
    ensures PagesOf(tasks, []) == [] && ErrorsOf(tasks, []) == []
  {
  }

  lemma SplitLast(a: seq<Uuid>, b: seq<Uuid>)
    requires b != []
    ensures b == b[..|b| - 1] + [b[|b| - 1]] && a + b == (a + b[..|b| - 1]) + [b[|b| - 1]]
  {
  }

  lemma {:induction false} PagesOfAppend(tasks: map<Uuid, Task>, a: seq<Uuid>, b: seq<Uuid>)
    ensures PagesOf(tasks, a + b) == PagesOf(tasks, a) + PagesOf(tasks, b)
  {
    hide PagesOf, PageEntry;
    if b == [] {
      assert a + b == a;
      EntriesOfNone(tasks);
    } else {
      var init, id := b[..|b| - 1], b[|b| - 1];
      SplitLast(a, b);
      PagesOfAppend(tasks, a, init);
      EntriesOfLast(tasks, init, id);
      EntriesOfLast(tasks, a + init, id);
      Together(PagesOf(tasks, a), PagesOf(tasks, init), PageEntry(tasks, id));
    }
  }

  lemma {:induction false} ErrorsOfAppend(tasks: map<Uuid, Task>, a: seq<Uuid>, b: seq<Uuid>)
    ensures ErrorsOf(tasks, a + b) == ErrorsOf(tasks, a) + ErrorsOf(tasks, b)
  {
    hide ErrorsOf, ErrorEntry;
    if b == [] {
      assert a + b == a;
      EntriesOfNone(tasks);
    } else {
      var init, id := b[..|b| - 1], b[|b| - 1];
      SplitLast(a, b);
      ErrorsOfAppend(tasks, a, init);
      EntriesOfLast(tasks, init, id);
      EntriesOfLast(tasks, a + init, id);
      Together(ErrorsOf(tasks, a), ErrorsOf(tasks, init), ErrorEntry(tasks, id));
    }
  }

  /** Every page is the result of a row. */
  lemma {:induction false} PagesAreResults(tasks: map<Uuid, Task>, ids: seq<Uuid>, page: Page)
    requires page in PagesOf(tasks, ids)
    ensures exists id | id in tasks :: tasks[id].result == Some(page)
  {
    var init, id := ids[..|ids| - 1], ids[|ids| - 1];
    if page in PageEntry(tasks, id) {
    } else {
      PagesAreResults(tasks, init, page);
    }
  }

  /** Where the page of a listed task stands: after the pages of those listed before it. */
  lemma {:induction false} PageOfTask(tasks: map<Uuid, Task>, ids: seq<Uuid>, k: nat)
    requires k < |ids| && forall id | id in ids :: id in tasks
    ensures tasks[ids[k]].result.Some? ==>
              var p := |PagesOf(tasks, ids[..k])|;
              p < |PagesOf(tasks, ids)| && PagesOf(tasks, ids)[p] == tasks[ids[k]].result.value
    ensures tasks[ids[k]].result.None? ==>
              var p := |ErrorsOf(tasks, ids[..k])|;
              p < |ErrorsOf(tasks, ids)| &&
              var (error, task) := (ErrorsOf(tasks, ids)[p], tasks[ids[k]]);
              && error.url == task.url
              && error.code == (if task.errorCode.None? then "crawl_failed" else task.errorCode.value)
              && error.message == (if task.errorMessage.None? then "Crawl task failed" else task.errorMessage.value)
  {
    assert ids == ids[..k + 1] + ids[k + 1..];
    assert ids[..k + 1] == ids[..k] + [ids[k]];
    EntriesOfLast(tasks, ids[..k], ids[k]);
    PagesOfAppend(tasks, ids[..k + 1], ids[k + 1..]);
    ErrorsOfAppend(tasks, ids[..k + 1], ids[k + 1..]);
  }

  /** Every listed task contributes one entry, to the pages or to the errors. */
  lemma {:induction false} EntriesCount(tasks: map<Uuid, Task>, ids: seq<Uuid>)
    requires forall id | id in ids :: id in tasks
    ensures |PagesOf(tasks, ids)| + |ErrorsOf(tasks, ids)| == |ids|
  {
    if ids == [] {
    } else {
      EntriesCount(tasks, ids[..|ids| - 1]);
    }
  }

  // ---------- One page ----------

  function CompletedIds(tasks: map<Uuid, Task>): set<Uuid> {
    set id | id in tasks && tasks[id].status.Completed?
  }

  function FailedIds(tasks: map<Uuid, Task>): set<Uuid> {
    set id | id in tasks && tasks[id].status.Failed?
  }

  function Elements(ids: seq<Uuid>): set<Uuid> {
    set id | id in ids
  }

  lemma {:induction false} DistinctCount(ids: seq<Uuid>)
    requires forall a, b | 0 <= a < b < |ids| :: ids[a] != ids[b]
    ensures |Elements(ids)| == |ids|
  {
    if ids == [] {
    } else {
      var n := |ids| - 1;
      DistinctCount(ids[..n]);
      assert ids == ids[..n] + [ids[n]];
      assert Elements(ids) == Elements(ids[..n]) + {ids[n]};
    }
  }

  /** The page total equals the number of listed rows, because a result exists exactly for
      completed tasks. */
  lemma TotalCountsListedRows(config: Config, tasks: map<Uuid, Task>, ids: seq<Uuid>, now: Time)
    requires Shapes(config, tasks, now) && Lists(tasks, ids)
    ensures |CompletedIds(tasks)| + |FailedIds(tasks)| == |ids| <= |tasks|
  {
    forall id | id in tasks ensures Listed(tasks[id]) <==> id in CompletedIds(tasks) + FailedIds(tasks) {
      assert RowShape(config, tasks[id], now);
    }
    CountOfListed(tasks, ids);
  }

  lemma CountOfListed(tasks: map<Uuid, Task>, ids: seq<Uuid>)
    requires Lists(tasks, ids)
    requires forall id | id in tasks :: Listed(tasks[id]) <==> id in CompletedIds(tasks) + FailedIds(tasks)
    ensures |CompletedIds(tasks)| + |FailedIds(tasks)| == |ids| <= |tasks|
  {
    hide Listed, NotAfter;
    DistinctCount(ids);
    var listed := Elements(ids);
    assert listed == CompletedIds(tasks) + FailedIds(tasks);
    assert CompletedIds(tasks) !! FailedIds(tasks);
    SubsetIsNoLarger(listed, tasks.Keys);
    assert |tasks| == |tasks.Keys|;
  }

  function Clamp(limit: nat): nat {
    if limit < 1 then 1 else if limit > 100 then 100 else limit
  }

  function Slice(ids: seq<Uuid>, offset: nat, limit: nat): seq<Uuid> {
    var from := if offset < |ids| then offset else |ids|;
    var to := if from + limit < |ids| then from + limit else |ids|;
    ids[from..to]
  }

  lemma SliceWithin(ids: seq<Uuid>, offset: nat, limit: nat)
    ensures forall id | id in Slice(ids, offset, limit) :: id in ids
    ensures |ids| <= offset ==> Slice(ids, offset, limit) == []
  {
  }

  /** The answer of get. */
  function StatusOf(job: Job, counted: map<Uuid, Task>, listed: map<Uuid, Task>, order: RowOrder,
                    offset: nat, queryLimit: nat): Status
  {
    var limit := Clamp(queryLimit);
    var ids := Slice(order(listed), offset, limit);
    var completed, failed := |CompletedIds(counted)|, |FailedIds(counted)|;
    Status(job.status, |counted|, completed, failed, PagesOf(listed, ids), ErrorsOf(listed, ids),
           offset, limit, completed + failed,
           if offset + limit < completed + failed then Some(offset + limit) else None)
  }

  lemma IdsByStatus(tasks: map<Uuid, Task>)
    ensures (set id | id in tasks && tasks[id].status.Completed?) == CompletedIds(tasks)
    ensures (set id | id in tasks && tasks[id].status.Failed?) == FailedIds(tasks)
  {
  }

  /** A page holds the listed rows from its offset on, as many as its limit: a limit outside 1 to 100
      becomes the nearest of the two. It counts the tasks by their status and names the next offset
      exactly when finished tasks are left. */
  lemma StatusIsExact(job: Job, counted: map<Uuid, Task>, listed: map<Uuid, Task>, order: RowOrder,
                      offset: nat, queryLimit: nat)
    requires Lists(listed, order(listed))
    ensures var (r, rows) := (StatusOf(job, counted, listed, order, offset, queryLimit), order(listed));
            && r.status == job.status && r.offset == offset && r.total == |counted|
            && 1 <= r.limit <= 100 && (1 <= queryLimit <= 100 ==> r.limit == queryLimit)
            && (queryLimit == 0 ==> r.limit == 1) && (queryLimit > 100 ==> r.limit == 100)
            && r.completed == |set id | id in counted && counted[id].status.Completed?|
            && r.failed == |set id | id in counted && counted[id].status.Failed?|
            && r.resultsTotal == r.completed + r.failed
            && (r.next.Some? <==> offset + r.limit < r.completed + r.failed)
            && (r.next.Some? ==> r.next.value == offset + r.limit)
            && (|rows| <= offset ==> r.data == [] && r.errors == [])
            && (offset < |rows| ==>
                  var to := Min(offset + r.limit, |rows|);
                  r.data == PagesOf(listed, rows[offset..to]) && r.errors == ErrorsOf(listed, rows[offset..to]))
  {
    hide Lists, CompletedIds, FailedIds, PagesOf, ErrorsOf;
    EntriesOfNone(listed);
    IdsByStatus(counted);
    SliceWithin(order(listed), offset, Clamp(queryLimit));
  }

  /** The rows are listed from the first task that ended to the last. */
  lemma ListedByTheirEnd(config: Config, tasks: map<Uuid, Task>, ids: seq<Uuid>, now: Time, a: nat, b: nat)
    requires Shapes(config, tasks, now) && Lists(tasks, ids) && a < b < |ids|
    ensures ids[a] in tasks && ids[b] in tasks
    ensures tasks[ids[a]].finishedAt.Some? && tasks[ids[b]].finishedAt.Some?
    ensures tasks[ids[a]].finishedAt.value <= tasks[ids[b]].finishedAt.value
  {
    assert ids[a] in ids && ids[b] in ids;
    assert RowShape(config, tasks[ids[a]], now) && RowShape(config, tasks[ids[b]], now);
  }

  /** get: its three queries see the job row, then the tasks they count, then those they list. */
  method Get(job: Option<Job>, counted: map<Uuid, Task>, listed: map<Uuid, Task>, order: RowOrder,
             offset: nat, queryLimit: nat) returns (r: Option<Status>)
    requires Lists(listed, order(listed))
    ensures r == if job.None? then None
                 else Some(StatusOf(job.value, counted, listed, order, offset, queryLimit))
  {
    hide PagesOf, ErrorsOf, Slice, ErrorOf, CompletedIds, FailedIds, Clamp, NotAfter;
    if job.None? {
      return None;
    }
    var completed, failed := |CompletedIds(counted)|, |FailedIds(counted)|;
    var limit := Clamp(queryLimit);
    var total := completed + failed;
    var ids := Slice(order(listed), offset, limit);
    SliceWithin(order(listed), offset, limit);
    var data, errors := [], [];
    EntriesOfNone(listed);
    for i := 0 to |ids|
      invariant data == PagesOf(listed, ids[..i]) && errors == ErrorsOf(listed, ids[..i])
    {
      assert ids[i] in ids && ids[..i + 1] == ids[..i] + [ids[i]];
      EntriesOfLast(listed, ids[..i], ids[i]);
      var task := listed[ids[i]];
      if task.result.Some? {
        data := data + [task.result.value];
      } else {
        errors := errors + [ErrorOf(task)];
      }
    }
    assert ids[..|ids|] == ids;
    return Some(Status(job.value.status, |counted|, completed, failed, data, errors, offset, limit, total,
                       if offset + limit < total then Some(offset + limit) else None));
  }

  // ---------- A store that changes while it is read ----------

  /** Between two queries the store has taken some steps. */
  ghost predicate Continues(w: M.World, at: nat -> M.Store, t: nat) {
    exists steps :: at(t + 1) == M.Run(w, at(t), steps)
  }

  /** What the store looks like at each successive query, other workers running in between. */
  ghost predicate IsHistory(w: M.World, at: nat -> M.Store) {
    && StoreInv(w, at(0))
    && forall t: nat :: Continues(w, at, t)
  }

  lemma HistoryStep(w: M.World, at: nat -> M.Store, t: nat) returns (steps: seq<M.Step>)
    requires IsHistory(w, at)
    ensures at(t + 1) == M.Run(w, at(t), steps)
  {
    hide StoreInv, M.Run;
    assert Continues(w, at, t);
    steps :| at(t + 1) == M.Run(w, at(t), steps);
  }

  lemma {:induction false} HistoryInv(w: M.World, at: nat -> M.Store, t: nat)
    requires IsHistory(w, at)
    ensures StoreInv(w, at(t))
  {
    hide StoreInv, M.Run;
    if t == 0 {
    } else {
      HistoryInv(w, at, t - 1);
      var steps := HistoryStep(w, at, t - 1);
      RunKeepsInv(w, at(t - 1), steps);
    }
  }

  /** A crawl seen by two queries was there in between, and the second saw a later state of it. */
  lemma {:induction false} HistoryIsLater(w: M.World, at: nat -> M.Store, a: nat, b: nat, j: Uuid)
    requires IsHistory(w, at) && a <= b && j in at(a).crawls && j in at(b).crawls
    ensures Later(at(a).crawls[j], at(b).crawls[j])
    ensures forall t | a <= t <= b :: j in at(t).crawls
    decreases b
  {
    hide StoreInv, Later, M.Run, IsHistory;
    if a == b {
      LaterReflexive(at(a).crawls[j]);
    } else {
      HistoryInv(w, at, b - 1);
      var steps := HistoryStep(w, at, b - 1);
      KnownId(w, at, a, b - 1, j);
      if j !in at(b - 1).crawls {
        RemovedForGood(w, at(b - 1), steps, j);
      }
      HistoryIsLater(w, at, a, b - 1, j);
      RunIsLater(w, at(b - 1), steps, j);
      LaterTransitive(at(a).crawls[j], at(b - 1).crawls[j], at(b).crawls[j]);
    }
  }

  lemma IdOfCrawl(w: M.World, s: M.Store, j: Uuid)
    requires StoreInv(w, s) && j in s.crawls
    ensures j < s.nextId
  {
    hide CrawlInv;
  }

  /** An id once given out stays below the supply. */
  lemma {:induction false} KnownId(w: M.World, at: nat -> M.Store, a: nat, b: nat, j: Uuid)
    requires IsHistory(w, at) && a <= b && j in at(a).crawls
    ensures j < at(b).nextId
    decreases b
  {
    hide StoreInv, M.Run, IsHistory;
    if a == b {
      HistoryInv(w, at, a);
      IdOfCrawl(w, at(a), j);
    } else {
      KnownId(w, at, a, b - 1, j);
      var steps := HistoryStep(w, at, b - 1);
      SupplyGrows(w, at(b - 1), steps);
    }
  }

  function JobAt(s: M.Store, j: Uuid): Option<Job> {
    if j in s.crawls then Some(s.crawls[j].rows.job) else None
  }

  /** A job that is gone has no tasks. */
  function TasksAt(s: M.Store, j: Uuid): map<Uuid, Task> {
    if j in s.crawls then s.crawls[j].rows.tasks else map[]
  }

  // ---------- All pages ----------

  /** Some query from number `from` on and before number `to` could see the page as the result of a
      task of j. */
  ghost predicate ResultSeen(at: nat -> M.Store, j: Uuid, from: nat, to: nat, page: Page) {
    exists t: nat, id: Uuid ::
      from <= t < to && id in TasksAt(at(t), j) && TasksAt(at(t), j)[id].result == Some(page)
  }

  ghost predicate AllSeen(at: nat -> M.Store, j: Uuid, from: nat, to: nat, pages: seq<Page>) {
    forall page | page in pages :: ResultSeen(at, j, from, to, page)
  }

  lemma SeenLonger(at: nat -> M.Store, j: Uuid, from: nat, to: nat, earlier: nat, later: nat, pages: seq<Page>)
    requires AllSeen(at, j, from, to, pages) && earlier <= from && to <= later
    ensures AllSeen(at, j, earlier, later, pages)
  {
    forall page | page in pages ensures ResultSeen(at, j, earlier, later, page) {
      assert ResultSeen(at, j, from, to, page);
      var t: nat, id: Uuid :|
        from <= t < to && id in TasksAt(at(t), j) && TasksAt(at(t), j)[id].result == Some(page);
      assert earlier <= t < later;
    }
  }

  /** The pages of one read were seen by its last query. */
  lemma ReadIsSeen(at: nat -> M.Store, j: Uuid, t: nat, ids: seq<Uuid>)
    ensures AllSeen(at, j, t, t + 1, PagesOf(TasksAt(at(t), j), ids))
  {
    forall page | page in PagesOf(TasksAt(at(t), j), ids) ensures ResultSeen(at, j, t, t + 1, page) {
      PagesAreResults(TasksAt(at(t), j), ids, page);
    }
  }

  /** The job is there from query `a` to query `b`, with the same rows. */
  ghost predicate Unchanged(at: nat -> M.Store, j: Uuid, a: nat, b: nat) {
    && j in at(a).crawls
    && forall t | a <= t <= b :: j in at(t).crawls && at(t).crawls[j].rows == at(a).crawls[j].rows
  }

  lemma ListedAtMostPageLimit(w: M.World, at: nat -> M.Store, order: RowOrder, a: nat, b: nat, j: Uuid)
    requires IsHistory(w, at) && IsRowOrder(order) && a <= b && j in at(a).crawls
    ensures var tasks := TasksAt(at(b), j);
            |CompletedIds(tasks)| + |FailedIds(tasks)| == |order(tasks)|
            <= at(a).crawls[j].rows.job.config.pageLimit
  {
    hide LogAgrees, Paced, BacksOff, WithinBudget, DrainExact, Shapes, IsHistory;
    HistoryInv(w, at, a);
    HistoryInv(w, at, b);
    assert Lists(TasksAt(at(b), j), order(TasksAt(at(b), j)));
    assert CrawlInv(w.lib, j, at(a).crawls[j], at(a).nextId, at(a).now);
    if j in at(b).crawls {
      var c := at(b).crawls[j];
      HistoryIsLater(w, at, a, b, j);
      assert CrawlInv(w.lib, j, c, at(b).nextId, at(b).now);
      TotalCountsListedRows(c.rows.job.config, c.rows.tasks, order(c.rows.tasks), at(b).now);
    } else {
      NothingListed(order(map[]));
    }
  }

  lemma NothingListed(ids: seq<Uuid>)
    requires Lists(map[], ids)
    ensures ids == [] && CompletedIds(map[]) == {} && FailedIds(map[]) == {}
  {
    DistinctCount(ids);
    assert Elements(ids) == {};
  }

  /** What a read of 100 rows from `offset` on answers, its queries being number t, t + 1 and t + 2. */
  ghost predicate IsRead(at: nat -> M.Store, order: RowOrder, j: Uuid, t: nat, offset: nat, page: Status) {
    var counted, listed := TasksAt(at(t + 1), j), TasksAt(at(t + 2), j);
    && page.data == PagesOf(listed, Slice(order(listed), offset, 100))
    && page.errors == ErrorsOf(listed, Slice(order(listed), offset, 100))
    && page.next == (if offset + 100 < |order(counted)| then Some(offset + 100) else None)
    && AllSeen(at, j, t, t + 3, page.data)
  }

  method ReadPage(ghost w: M.World, at: nat -> M.Store, order: RowOrder, j: Uuid, ghost start: nat, t: nat, offset: nat)
    returns (r: Option<Status>)
    requires IsHistory(w, at) && IsRowOrder(order) && start <= t && j in at(start).crawls
    ensures r.Some? <==> j in at(t).crawls
    ensures r.Some? ==>
              && r.value.status == at(t).crawls[j].rows.job.status
              && IsRead(at, order, j, t, offset, r.value)
              && (r.value.next.Some? ==>
                    r.value.next.value == offset + 100 < at(start).crawls[j].rows.job.config.pageLimit)
  {
    hide IsHistory, StoreInv, PagesOf, ErrorsOf, Slice, CompletedIds, FailedIds, Lists, AllSeen;
    r := Get(JobAt(at(t), j), TasksAt(at(t + 1), j), TasksAt(at(t + 2), j), order, offset, 100);
    var ids := Slice(order(TasksAt(at(t + 2), j)), offset, 100);
    ReadIsSeen(at, j, t + 2, ids);
    SeenLonger(at, j, t + 2, t + 3, t, t + 3, PagesOf(TasksAt(at(t + 2), j), ids));
    if r.Some? {
      ListedAtMostPageLimit(w, at, order, start, t + 1, j);
    }
  }

  /** What was put together by the queries from `start` on and before `end`: results they saw, and on
      unchanged rows the first `done` ones, with more to come exactly when there are more. */
  ghost predicate Assembled(at: nat -> M.Store, order: RowOrder, j: Uuid, start: nat, end: nat, done: nat,
                            data: seq<Page>, errors: seq<CrawlError>, more: bool)
  {
    && start + 3 <= end
    && AllSeen(at, j, start, end, data)
    && (Unchanged(at, j, start, end - 1) ==>
          var tasks := TasksAt(at(start), j);
          && data == PagesOf(tasks, Slice(order(tasks), 0, done))
          && errors == ErrorsOf(tasks, Slice(order(tasks), 0, done))
          && (more <==> done < |order(tasks)|))
  }

  /** With unchanged rows the last three queries saw the rows of the first. */
  lemma UnchangedMeans(at: nat -> M.Store, j: Uuid, start: nat, end: nat)
    requires start + 3 <= end
    ensures Unchanged(at, j, start, end - 1) ==>
              && (start + 4 <= end ==> Unchanged(at, j, start, end - 4))
              && j in at(end - 3).crawls
              && TasksAt(at(end - 2), j) == TasksAt(at(end - 1), j) == TasksAt(at(start), j)
  {
  }

  lemma FirstRead(at: nat -> M.Store, order: RowOrder, j: Uuid, start: nat, page: Status)
    requires IsRead(at, order, j, start, 0, page)
    ensures Assembled(at, order, j, start, start + 3, 100, page.data, page.errors, page.next.Some?)
  {
    hide AllSeen, Unchanged, PagesOf, ErrorsOf, Slice, TasksAt;
    UnchangedMeans(at, j, start, start + 3);
  }

  lemma NextRead(at: nat -> M.Store, order: RowOrder, j: Uuid, start: nat, end: nat, done: nat,
                 data: seq<Page>, errors: seq<CrawlError>, page: Status)
    requires Assembled(at, order, j, start, end, done, data, errors, true)
    requires IsRead(at, order, j, end, done, page)
    ensures Assembled(at, order, j, start, end + 3, done + 100, data + page.data, errors + page.errors, page.next.Some?)
  {
    hide AllSeen, Unchanged, PagesOf, ErrorsOf, Slice, TasksAt;
    SeenLonger(at, j, start, end, start, end + 3, data);
    SeenTogether(at, j, start, end + 3, data, page.data);
    UnchangedMeans(at, j, start, end + 3);
    SliceAppend(TasksAt(at(start), j), order(TasksAt(at(start), j)), done);
  }

  /** A read that finds the job gone ends the assembly; the rows did change. */
  lemma ReadOfGone(at: nat -> M.Store, order: RowOrder, j: Uuid, start: nat, end: nat, done: nat,
                   data: seq<Page>, errors: seq<CrawlError>)
    requires Assembled(at, order, j, start, end, done, data, errors, true) && j !in at(end).crawls
    ensures Assembled(at, order, j, start, end + 3, done, data, errors, false)
  {
    hide AllSeen, Unchanged, PagesOf, ErrorsOf, Slice, TasksAt;
    SeenLonger(at, j, start, end, start, end + 3, data);
    UnchangedMeans(at, j, start, end + 3);
  }

  lemma SeenTogether(at: nat -> M.Store, j: Uuid, from: nat, to: nat, a: seq<Page>, b: seq<Page>)
    requires from + 3 <= to && AllSeen(at, j, from, to, a) && AllSeen(at, j, to - 3, to, b)
    ensures AllSeen(at, j, from, to, a + b)
  {
    SeenLonger(at, j, to - 3, to, from, to, b);
  }

  /** Nothing more to come: all of it is there. */
  lemma AllAssembled(at: nat -> M.Store, order: RowOrder, j: Uuid, start: nat, end: nat, done: nat,
                     data: seq<Page>, errors: seq<CrawlError>)
    requires IsRowOrder(order) && Assembled(at, order, j, start, end, done, data, errors, false)
    ensures AllSeen(at, j, start, end, data)
    ensures Unchanged(at, j, start, end - 1) ==>
              var tasks := TasksAt(at(start), j);
              && data == PagesOf(tasks, order(tasks)) && errors == ErrorsOf(tasks, order(tasks))
              && |data| + |errors| == |order(tasks)|
  {
    hide AllSeen, Unchanged, PagesOf, ErrorsOf, TasksAt;
    var tasks := TasksAt(at(start), j);
    assert Lists(tasks, order(tasks));
    EntriesCount(tasks, order(tasks));
    if done >= |order(tasks)| {
      assert Slice(order(tasks), 0, done) == order(tasks);
    }
  }

  lemma SliceAppend(tasks: map<Uuid, Task>, ids: seq<Uuid>, done: nat)
    ensures PagesOf(tasks, Slice(ids, 0, done + 100))
         == PagesOf(tasks, Slice(ids, 0, done)) + PagesOf(tasks, Slice(ids, done, 100))
    ensures ErrorsOf(tasks, Slice(ids, 0, done + 100))
         == ErrorsOf(tasks, Slice(ids, 0, done)) + ErrorsOf(tasks, Slice(ids, done, 100))
  {
    assert Slice(ids, 0, done + 100) == Slice(ids, 0, done) + Slice(ids, done, 100);
    PagesOfAppend(tasks, Slice(ids, 0, done), Slice(ids, done, 100));
    ErrorsOfAppend(tasks, Slice(ids, 0, done), Slice(ids, done, 100));
  }

  // ---------- Read by read ----------

  /** What read number `n` of an assembly adds, its first read beginning with query `start`: the rows
      it listed, a hundred from its place on, and nothing if it found the job gone. */
  function ReadData(at: nat -> M.Store, order: RowOrder, j: Uuid, start: nat, n: nat): seq<Page> {
    var listed := TasksAt(at(start + 3 * n + 2), j);
    if j in at(start + 3 * n).crawls then PagesOf(listed, Slice(order(listed), 100 * n, 100)) else []
  }

  function ReadErrors(at: nat -> M.Store, order: RowOrder, j: Uuid, start: nat, n: nat): seq<CrawlError> {
    var listed := TasksAt(at(start + 3 * n + 2), j);
    if j in at(start + 3 * n).crawls then ErrorsOf(listed, Slice(order(listed), 100 * n, 100)) else []
  }

  function DataOfReads(at: nat -> M.Store, order: RowOrder, j: Uuid, start: nat, n: nat): seq<Page> {
    if n == 0 then [] else DataOfReads(at, order, j, start, n - 1) + ReadData(at, order, j, start, n - 1)
  }

  function ErrorsOfReads(at: nat -> M.Store, order: RowOrder, j: Uuid, start: nat, n: nat): seq<CrawlError> {
    if n == 0 then [] else ErrorsOfReads(at, order, j, start, n - 1) + ReadErrors(at, order, j, start, n - 1)
  }

  /** Read number `n` found the job and counted more finished tasks than the reads so far cover. */
  predicate MoreToRead(at: nat -> M.Store, order: RowOrder, j: Uuid, start: nat, n: nat) {
    j in at(start + 3 * n).crawls && 100 * (n + 1) < |order(TasksAt(at(start + 3 * n + 1), j))|
  }

  /** The assembly took this many reads: it went on as long as there was more to read, no longer. */
  ghost predicate TakesReads(at: nat -> M.Store, order: RowOrder, j: Uuid, start: nat, count: nat) {
    && count >= 1
    && (forall n | 0 <= n < count - 1 :: MoreToRead(at, order, j, start, n))
    && !MoreToRead(at, order, j, start, count - 1)
  }

  lemma ReadIs(at: nat -> M.Store, order: RowOrder, j: Uuid, start: nat, n: nat, page: Status)
    requires IsRead(at, order, j, start + 3 * n, 100 * n, page) && j in at(start + 3 * n).crawls
    ensures page.data == ReadData(at, order, j, start, n) && page.errors == ReadErrors(at, order, j, start, n)
    ensures page.next.Some? <==> MoreToRead(at, order, j, start, n)
  {
    hide AllSeen, PagesOf, ErrorsOf, Slice, TasksAt;
  }

  lemma OneMoreRead(at: nat -> M.Store, order: RowOrder, j: Uuid, start: nat, n: nat)
    ensures DataOfReads(at, order, j, start, n + 1)
         == DataOfReads(at, order, j, start, n) + ReadData(at, order, j, start, n)
    ensures ErrorsOfReads(at, order, j, start, n + 1)
         == ErrorsOfReads(at, order, j, start, n) + ReadErrors(at, order, j, start, n)
  {
  }

  lemma NoReads(at: nat -> M.Store, order: RowOrder, j: Uuid, start: nat)
    ensures DataOfReads(at, order, j, start, 0) == [] && ErrorsOfReads(at, order, j, start, 0) == []
  {
  }

  lemma GoneRead(at: nat -> M.Store, order: RowOrder, j: Uuid, start: nat, n: nat)
    requires j !in at(start + 3 * n).crawls
    ensures ReadData(at, order, j, start, n) == [] && ReadErrors(at, order, j, start, n) == []
    ensures !MoreToRead(at, order, j, start, n)
  {
  }

  /** firecrawl_complete_status, the first query being number `start` and the last `end - 1`: it
      always ends; it reads on exactly as long as there is more to read and returns what its reads
      listed, in order; every page is a result one of its queries saw; and when the rows do not change
      meanwhile it returns every page and every error of the crawl in order, each listed task once. */
  method CompleteStatus(ghost w: M.World, at: nat -> M.Store, order: RowOrder, j: Uuid, start: nat)
    returns (r: Option<Status>, end: nat, ghost count: nat)
    requires IsHistory(w, at) && IsRowOrder(order)
    ensures TakesReads(at, order, j, start, count) && start < end == start + 3 * count
    ensures r.Some? <==> j in at(start).crawls
    ensures r.Some? ==>
              && r.value.status == at(start).crawls[j].rows.job.status
              && r.value.data == DataOfReads(at, order, j, start, count)
              && r.value.errors == ErrorsOfReads(at, order, j, start, count)
    ensures r.Some? ==> AllSeen(at, j, start, end, r.value.data)
    ensures r.Some? && Unchanged(at, j, start, end - 1) ==>
              var tasks := at(start).crawls[j].rows.tasks;
              && r.value.data == PagesOf(tasks, order(tasks))
              && r.value.errors == ErrorsOf(tasks, order(tasks))
              && r.value.next.None? && r.value.offset == 0
              && r.value.limit == |order(tasks)|
  {
    hide IsHistory, IsRowOrder, StoreInv, PagesOf, ErrorsOf, AllSeen, Unchanged, IsRead, Assembled;
    hide ReadData, ReadErrors, DataOfReads, ErrorsOfReads, MoreToRead;
    r, end, count := None, start + 3, 1;
    if j !in at(start).crawls {
      GoneRead(at, order, j, start, 0);
      return;
    }
    var status := ReadPage(w, at, order, j, start, start, 0);
    var offset := status.value.next;
    var data, errors := status.value.data, status.value.errors;
    ghost var bound := at(start).crawls[j].rows.job.config.pageLimit;
    FirstRead(at, order, j, start, status.value);
    ReadIs(at, order, j, start, 0, status.value);
    NoReads(at, order, j, start);
    OneMoreRead(at, order, j, start, 0);
    while offset.Some?
      invariant count >= 1 && end == start + 3 * count
      invariant Assembled(at, order, j, start, end, 100 * count, data, errors, offset.Some?)
      invariant data == DataOfReads(at, order, j, start, count) && errors == ErrorsOfReads(at, order, j, start, count)
      invariant forall n | 0 <= n < count - 1 :: MoreToRead(at, order, j, start, n)
      invariant offset.Some? <==> MoreToRead(at, order, j, start, count - 1)
      invariant offset.Some? ==> offset.value == 100 * count < bound
      decreases bound - 100 * count
    {
      var page := ReadPage(w, at, order, j, start, end, offset.value);
      OneMoreRead(at, order, j, start, count);
      if page.None? {
        ReadOfGone(at, order, j, start, end, 100 * count, data, errors);
        GoneRead(at, order, j, start, count);
        count, end := count + 1, end + 3;
        break;
      }
      NextRead(at, order, j, start, end, 100 * count, data, errors, page.value);
      ReadIs(at, order, j, start, count, page.value);
      count, end := count + 1, end + 3;
      data := data + page.value.data;
      errors := errors + page.value.errors;
      offset := page.value.next;
    }
    ghost var covered :| Assembled(at, order, j, start, end, covered, data, errors, false);
    AllAssembled(at, order, j, start, end, covered, data, errors);
    r := Some(status.value.(data := data, errors := errors, next := None, offset := 0, limit := |data| + |errors|));
  }
}
