/**
 The WebSocket watcher of a job: a catch-up message, then one message per new result, then "done".
 */
module Watcher {
  import opened Wrappers
  import opened CrawlRows
  import opened CrawlInvariants
  import opened CrawlSafety
  import opened CrawlHistory
  import opened Paging
  import opened Sequences
  import M = CrawlMachine

  datatype Message =
    | Catchup(pages: seq<Page>)
    | Document(page: Page)
    | Missing
    | DoneMessage

  function Elements(pages: seq<Page>): set<Page> {
    set p | p in pages
  }

  function IdsOf(pages: set<Page>): set<string> {
    set p | p in pages :: p.requestId
  }

  /** The pages a message carries. */
  function Carried(m: Message): set<Page> {
    match m
    case Catchup(pages) => Elements(pages)
    case Document(page) => {page}
    case Missing => {}
    case DoneMessage => {}
  }

  /** The pages a client has received with these messages. */
  function Delivered(messages: seq<Message>): set<Page> {
    if messages == [] then {} else
    Delivered(messages[..|messages| - 1]) + Carried(messages[|messages| - 1])
  }

  /** Their request ids. */
  function Received(messages: seq<Message>): set<string> {
    IdsOf(Delivered(messages))
  }

  /** No document repeats a result that an earlier message carried. */
  ghost predicate NoRepeats(messages: seq<Message>) {
    forall i | 0 <= i < |messages| && messages[i].Document? ::
      messages[i].page.requestId !in Received(messages[..i])
  }

  predicate Terminal(status: JobStatus) {
    status.Done? || status.Cancelled?
  }

  lemma Appended(messages: seq<Message>, m: Message)
    ensures (messages + [m])[..|messages|] == messages
    ensures Delivered(messages + [m]) == Delivered(messages) + Carried(m)
    ensures Received(messages + [m]) == Received(messages) + IdsOf(Carried(m))
    ensures NoRepeats(messages) && (m.Document? ==> m.page.requestId !in Received(messages))
            ==> NoRepeats(messages + [m])
  {
    assert (messages + [m])[..|messages|] == messages;
    forall i | 0 <= i < |messages| ensures (messages + [m])[..i] == messages[..i] {
    }
  }

  lemma NothingSent()
    ensures NoRepeats([]) && Delivered([]) == {} && Received([]) == {}
  {
  }

  // ---------- One poll ----------

  /** The pages whose request id is new, the first of each. */
  function Unsent(pages: seq<Page>, sent: set<string>): seq<Page> {
    if pages == [] then [] else
    var (init, page) := (pages[..|pages| - 1], pages[|pages| - 1]);
    Unsent(init, sent) + if page.requestId in sent + IdsOf(Elements(init)) then [] else [page]
  }

  function Documents(pages: seq<Page>): (r: seq<Message>)
    ensures |r| == |pages| && forall i | 0 <= i < |pages| :: r[i] == Document(pages[i])
  {
    seq(|pages|, i requires 0 <= i < |pages| => Document(pages[i]))
  }

  lemma UnsentOfLast(pages: seq<Page>, page: Page, sent: set<string>)
    ensures Unsent(pages + [page], sent) == Unsent(pages, sent)
              + if page.requestId in sent + IdsOf(Elements(pages)) then [] else [page]
  {
    hide IdsOf, Elements;
    assert (pages + [page])[..|pages|] == pages;
  }

  lemma IdsOfLast(pages: seq<Page>, page: Page)
    ensures IdsOf(Elements(pages + [page])) == IdsOf(Elements(pages)) + {page.requestId}
  {
    assert Elements(pages + [page]) == Elements(pages) + {page};
  }

  lemma DocumentsOfLast(pages: seq<Page>, page: Page)
    ensures Documents(pages + [page]) == Documents(pages) + [Document(page)]
  {
  }

  lemma {:induction false} UnsentGrows(pages: seq<Page>, k: nat, sent: set<string>)
    requires k <= |pages|
    ensures Unsent(pages[..k], sent) <= Unsent(pages, sent)
    decreases |pages|
  {
    if k == |pages| {
      assert pages[..k] == pages;
    } else {
      var init := pages[..|pages| - 1];
      assert init[..k] == pages[..k];
      UnsentGrows(init, k, sent);
    }
  }

  lemma DocumentsGrow(fewer: seq<Page>, more: seq<Page>)
    requires fewer <= more
    ensures Documents(fewer) <= Documents(more)
  {
  }

  /** Sending a document that works, or one whose id is known, moves one page on. */
  lemma OnePageMore(pages: seq<Page>, i: nat, sent: set<string>, before: seq<Message>)
    requires i < |pages|
    ensures var page, unsent, more := pages[i], Unsent(pages[..i], sent), Unsent(pages[..i + 1], sent);
            && pages[..i + 1] == pages[..i] + [page]
            && IdsOf(Elements(pages[..i + 1])) == IdsOf(Elements(pages[..i])) + {page.requestId}
            && (page.requestId in sent + IdsOf(Elements(pages[..i])) ==> more == unsent)
            && (page.requestId !in sent + IdsOf(Elements(pages[..i])) ==>
                  before + Documents(more) == before + Documents(unsent) + [Document(page)])
            && before + Documents(unsent) <= before + Documents(Unsent(pages, sent))
  {
    hide Unsent, IdsOf, Elements, Documents;
    assert pages[..i + 1] == pages[..i] + [pages[i]];
    UnsentOfLast(pages[..i], pages[i], sent);
    IdsOfLast(pages[..i], pages[i]);
    DocumentsOfLast(Unsent(pages[..i], sent), pages[i]);
    UnsentGrows(pages, i, sent);
    DocumentsGrow(Unsent(pages[..i], sent), Unsent(pages, sent));
  }

  /** The loop over one poll's pages sends exactly the pages whose request id is new, in order, as far
      as sending works. `sendWorks(n)` says whether a send succeeds after n that did; the first failure
      ends the watch. */
  method SendNew(pages: seq<Page>, sent: set<string>, messages: seq<Message>, sendWorks: nat -> bool)
    returns (sent': set<string>, messages': seq<Message>, alive: bool)
    requires NoRepeats(messages) && sent == Received(messages) && AllWork(sendWorks, |messages|)
    ensures messages <= messages' <= messages + Documents(Unsent(pages, sent))
    ensures AllWork(sendWorks, |messages'|)
    ensures alive ==> messages' == messages + Documents(Unsent(pages, sent))
    ensures !alive ==> messages' < messages + Documents(Unsent(pages, sent)) && !sendWorks(|messages'|)
    ensures forall i | |messages| <= i < |messages'| :: messages'[i].Document?
    ensures NoRepeats(messages')
    ensures Delivered(messages') <= Delivered(messages) + Elements(pages)
    ensures alive ==> sent' == Received(messages') == sent + IdsOf(Elements(pages))
  {
    hide NoRepeats, Received, Delivered, Unsent, IdsOf;
    sent', messages', alive := sent, messages, true;
    NothingUnsent(sent);
    for i := 0 to |pages|
      invariant NoRepeats(messages') && messages' == messages + Documents(Unsent(pages[..i], sent))
      invariant sent' == Received(messages') == sent + IdsOf(Elements(pages[..i]))
      invariant Delivered(messages') <= Delivered(messages) + Elements(pages)
      invariant AllWork(sendWorks, |messages'|)
    {
      var page := pages[i];
      OnePageMore(pages, i, sent, messages);
      if page.requestId !in sent' {
        sent' := sent' + {page.requestId};
        if !sendWorks(|messages'|) {
          alive := false;
          OneMoreIsLonger(messages, pages, i, sent);
          return;
        }
        Appended(messages', Document(page));
        OneId(page);
        messages' := messages' + [Document(page)];
      }
    }
    assert pages[..|pages|] == pages;
  }

  lemma OneMoreIsLonger(messages: seq<Message>, pages: seq<Page>, i: nat, sent: set<string>)
    requires i < |pages| && pages[i].requestId !in sent + IdsOf(Elements(pages[..i]))
    ensures messages + Documents(Unsent(pages[..i], sent)) < messages + Documents(Unsent(pages, sent))
  {
    hide Unsent, IdsOf, Elements;
    assert pages[..i + 1] == pages[..i] + [pages[i]];
    UnsentOfLast(pages[..i], pages[i], sent);
    UnsentGrows(pages, i + 1, sent);
    DocumentsGrow(Unsent(pages[..i], sent), Unsent(pages, sent));
  }

  lemma NothingUnsent(sent: set<string>)
    ensures Unsent([], sent) == [] && IdsOf(Elements([])) == {}
  {
  }

  lemma OneId(page: Page)
    ensures IdsOf({page}) == {page.requestId}
  {
  }

  // ---------- What was delivered ----------

  /** Every delivered page was seen by some query as the result of a task of j. */
  ghost predicate AllGenuine(at: nat -> M.Store, j: Uuid, to: nat, pages: set<Page>) {
    forall page | page in pages :: ResultSeen(at, j, 0, to, page)
  }

  /** The results of the tasks. */
  function Results(tasks: map<Uuid, Task>): set<Page> {
    set id | id in tasks && tasks[id].result.Some? :: tasks[id].result.value
  }

  /** No two tasks carry the same request id; each scrape makes a fresh one. */
  ghost predicate DistinctRequestIds(tasks: map<Uuid, Task>) {
    forall a, b | a in tasks && b in tasks && a != b && tasks[a].result.Some? && tasks[b].result.Some? ::
      tasks[a].result.value.requestId != tasks[b].result.value.requestId
  }

  /** The client has the request id of every result. */
  ghost predicate AllReceived(tasks: map<Uuid, Task>, messages: seq<Message>) {
    IdsOf(Results(tasks)) <= Received(messages)
  }

  lemma PagesCoverResults(order: RowOrder, tasks: map<Uuid, Task>)
    requires IsRowOrder(order)
    ensures Elements(PagesOf(tasks, order(tasks))) == Results(tasks)
  {
    var ids := order(tasks);
    assert Lists(tasks, ids);
    forall page | page in Results(tasks) ensures page in PagesOf(tasks, ids) {
      var id :| id in tasks && tasks[id].result == Some(page);
      var k :| 0 <= k < |ids| && ids[k] == id;
      PageOfTask(tasks, ids, k);
    }
    forall page | page in PagesOf(tasks, ids) ensures page in Results(tasks) {
      PagesAreResults(tasks, ids, page);
    }
  }

  /** A result never changes: what any query saw is among the results as long as the job is there. */
  lemma SeenResultsAreFinal(w: M.World, at: nat -> M.Store, j: Uuid, to: nat, page: Page)
    requires IsHistory(w, at) && to > 0 && j in at(to - 1).crawls
    requires ResultSeen(at, j, 0, to, page)
    ensures page in Results(at(to - 1).crawls[j].rows.tasks)
  {
    hide IsHistory, StaleForever, OnlyWindsDown, Frontier, WithinConcurrency, LogAgrees, BacksOff, WithinBudget, Paced;
    var t: nat, id: Uuid :| 0 <= t < to && id in TasksAt(at(t), j) && TasksAt(at(t), j)[id].result == Some(page);
    HistoryInv(w, at, t);
    HistoryIsLater(w, at, t, to - 1, j);
    var c := at(t).crawls[j];
    assert CrawlInv(w.lib, j, c, at(t).nextId, at(t).now);
    assert RowShape(c.rows.job.config, c.rows.tasks[id], at(t).now);
  }

  lemma DeliveredAreResults(w: M.World, at: nat -> M.Store, j: Uuid, to: nat, pages: set<Page>)
    requires IsHistory(w, at) && to > 0 && j in at(to - 1).crawls && AllGenuine(at, j, to, pages)
    ensures pages <= Results(at(to - 1).crawls[j].rows.tasks)
  {
    hide IsHistory, ResultSeen, Results;
    forall page | page in pages ensures page in Results(at(to - 1).crawls[j].rows.tasks) {
      SeenResultsAreFinal(w, at, j, to, page);
    }
  }

  /** With distinct request ids, having every id is having every page. */
  lemma IdsStandForPages(tasks: map<Uuid, Task>, messages: seq<Message>)
    requires DistinctRequestIds(tasks) && AllReceived(tasks, messages) && Delivered(messages) <= Results(tasks)
    ensures Delivered(messages) == Results(tasks)
  {
    forall page | page in Results(tasks) ensures page in Delivered(messages) {
      assert page.requestId in IdsOf(Results(tasks));
      var got :| got in Delivered(messages) && got.requestId == page.requestId;
      var a :| a in tasks && tasks[a].result == Some(page);
      var b :| b in tasks && tasks[b].result == Some(got);
      assert a == b;
    }
  }

  /** A completed job does not change between the queries of a poll that finds it still there. */
  lemma CompletedJobIsUnchanged(w: M.World, at: nat -> M.Store, j: Uuid, a: nat, b: nat)
    requires IsHistory(w, at) && a <= b && j in at(a).crawls && j in at(b).crawls
    requires at(a).crawls[j].rows.job.status.Done?
    ensures Unchanged(at, j, a, b)
  {
    hide IsHistory, StoreInv, RowsKept, StaleForever;
    HistoryIsLater(w, at, a, b, j);
    forall t | a <= t <= b ensures at(t).crawls[j].rows == at(a).crawls[j].rows {
      HistoryIsLater(w, at, a, t, j);
    }
  }

  // ---------- The watcher ----------

  /** What a client that was told "done" can count on, `last` being the first query of the last poll
      and `end` the one after its last. */
  ghost predicate DoneIsKept(at: nat -> M.Store, j: Uuid, last: nat, end: nat, messages: seq<Message>)
    requires last < end
  {
    && j in at(last).crawls
    && Terminal(at(last).crawls[j].rows.job.status)
    && (at(last).crawls[j].rows.job.status.Done? && j in at(end - 1).crawls ==>
          var tasks := at(end - 1).crawls[j].rows.tasks;
          && at(end - 1).crawls[j].rows == at(last).crawls[j].rows
          && AllReceived(tasks, messages)
          && Delivered(messages) <= Results(tasks)
          && (DistinctRequestIds(tasks) ==> Delivered(messages) == Results(tasks)))
  }

  /** Once a poll that found the job over has been sent, "done" keeps its word. */
  lemma PollCompletes(w: M.World, at: nat -> M.Store, order: RowOrder, j: Uuid, last: nat, end: nat,
                      pages: seq<Page>, messages: seq<Message>)
    requires IsHistory(w, at) && IsRowOrder(order) && last < end && j in at(last).crawls
    requires Terminal(at(last).crawls[j].rows.job.status)
    requires Unchanged(at, j, last, end - 1) ==>
               pages == PagesOf(at(last).crawls[j].rows.tasks, order(at(last).crawls[j].rows.tasks))
    requires IdsOf(Elements(pages)) <= Received(messages)
    requires AllGenuine(at, j, end, Delivered(messages))
    ensures DoneIsKept(at, j, last, end, messages + [DoneMessage])
  {
    hide IsHistory, IsRowOrder, PagesOf, Unchanged, Results, Received, Delivered, AllGenuine, DistinctRequestIds, IdsOf;
    Appended(messages, DoneMessage);
    NothingMore(Delivered(messages));
    if at(last).crawls[j].rows.job.status.Done? && j in at(end - 1).crawls {
      var tasks := at(end - 1).crawls[j].rows.tasks;
      CompletedJobIsUnchanged(w, at, j, last, end - 1);
      SameRows(at, j, last, end - 1);
      PagesCoverResults(order, tasks);
      DeliveredAreResults(w, at, j, end, Delivered(messages));
      if DistinctRequestIds(tasks) {
        IdsStandForPages(tasks, messages);
      }
    }
  }

  lemma NothingMore(pages: set<Page>)
    ensures pages + Carried(DoneMessage) == pages && pages + Carried(Missing) == pages
    ensures IdsOf(Carried(DoneMessage)) == {} && IdsOf(Carried(Missing)) == {}
  {
  }

  lemma SameRows(at: nat -> M.Store, j: Uuid, a: nat, b: nat)
    requires Unchanged(at, j, a, b) && a <= b
    ensures j in at(b).crawls && at(b).crawls[j].rows == at(a).crawls[j].rows
  {
  }

  lemma NothingIsGenuine(at: nat -> M.Store, j: Uuid)
    ensures AllGenuine(at, j, 0, {})
  {
  }

  lemma GenuineLater(at: nat -> M.Store, j: Uuid, a: nat, b: nat, pages: set<Page>)
    requires AllGenuine(at, j, a, pages) && a <= b
    ensures AllGenuine(at, j, b, pages)
  {
    forall page | page in pages ensures ResultSeen(at, j, 0, b, page) {
      SeenLonger(at, j, 0, a, 0, b, [page]);
      assert page in [page];
    }
  }

  /** What a poll adds is as genuine as what it read. */
  lemma MoreIsGenuine(at: nat -> M.Store, j: Uuid, last: nat, end: nat,
                      had: set<Page>, pages: seq<Page>, has: set<Page>)
    requires AllGenuine(at, j, end, had) && AllSeen(at, j, last, end, pages) && has <= had + Elements(pages)
    ensures AllGenuine(at, j, end, has)
  {
    hide ResultSeen;
    SeenLonger(at, j, last, end, 0, end, pages);
  }

  // ---------- What is to be said ----------

  /** One round of the watcher: the query it began with and how many reads its assembly took. */
  datatype Poll = Poll(start: nat, count: nat) {
    function End(): nat {
      start + 3 * count
    }
  }

  predicate Exists(at: nat -> M.Store, j: Uuid, t: nat) {
    j in at(t).crawls
  }

  predicate Over(at: nat -> M.Store, j: Uuid, t: nat) {
    Exists(at, j, t) && (at(t).crawls[j].rows.job.status.Done? || at(t).crawls[j].rows.job.status.Cancelled?)
  }

  /** Consecutive rounds from the first query on, each but the last finding the job running. */
  ghost predicate ArePolls(at: nat -> M.Store, order: RowOrder, j: Uuid, polls: seq<Poll>) {
    && (polls != [] ==> polls[0].start == 0)
    && (forall i | 0 <= i < |polls| :: TakesReads(at, order, j, polls[i].start, polls[i].count))
    && (forall i | 0 < i < |polls| :: polls[i].start == polls[i - 1].End())
    && (forall i | 0 <= i < |polls| - 1 :: Exists(at, j, polls[i].start) && !Over(at, j, polls[i].start))
  }

  /** The pages a round assembled. */
  function Assembly(at: nat -> M.Store, order: RowOrder, j: Uuid, poll: Poll): seq<Page> {
    DataOfReads(at, order, j, poll.start, poll.count)
  }

  function AllPolled(at: nat -> M.Store, order: RowOrder, j: Uuid, polls: seq<Poll>): seq<Page> {
    if polls == [] then [] else
    AllPolled(at, order, j, polls[..|polls| - 1]) + Assembly(at, order, j, polls[|polls| - 1])
  }

  /** What the last of the rounds has to say. */
  function Says(at: nat -> M.Store, order: RowOrder, j: Uuid, before: seq<Poll>, poll: Poll): seq<Message> {
    if !Exists(at, j, poll.start) then [Missing] else
    (if before == [] then [Catchup(Assembly(at, order, j, poll))]
     else Documents(Unsent(Assembly(at, order, j, poll), IdsOf(Elements(AllPolled(at, order, j, before))))))
    + if Over(at, j, poll.start) then [DoneMessage] else []
  }

  /** What the rounds have to say, one after the other. */
  function Talk(at: nat -> M.Store, order: RowOrder, j: Uuid, polls: seq<Poll>): seq<Message> {
    if polls == [] then [] else
    var (before, poll) := (polls[..|polls| - 1], polls[|polls| - 1]);
    Talk(at, order, j, before) + Says(at, order, j, before, poll)
  }

  lemma TalkOfLast(at: nat -> M.Store, order: RowOrder, j: Uuid, before: seq<Poll>, poll: Poll)
    ensures Talk(at, order, j, before + [poll]) == Talk(at, order, j, before) + Says(at, order, j, before, poll)
    ensures AllPolled(at, order, j, before + [poll])
         == AllPolled(at, order, j, before) + Assembly(at, order, j, poll)
    ensures IdsOf(Elements(AllPolled(at, order, j, before + [poll])))
         == IdsOf(Elements(AllPolled(at, order, j, before))) + IdsOf(Elements(Assembly(at, order, j, poll)))
  {
    hide Says, Assembly;
    assert (before + [poll])[..|before|] == before;
    IdsOfBoth(AllPolled(at, order, j, before), Assembly(at, order, j, poll));
  }

  lemma SaysWhat(at: nat -> M.Store, order: RowOrder, j: Uuid, before: seq<Poll>, poll: Poll)
    ensures Exists(at, j, poll.start) <==> j in at(poll.start).crawls
    ensures Exists(at, j, poll.start) ==>
              (Over(at, j, poll.start) <==> Terminal(at(poll.start).crawls[j].rows.job.status))
    ensures var (pages, says) := (Assembly(at, order, j, poll), Says(at, order, j, before, poll));
            var news := if before == [] then [Catchup(pages)]
                        else Documents(Unsent(pages, IdsOf(Elements(AllPolled(at, order, j, before)))));
            && (!Exists(at, j, poll.start) ==> says == [Missing])
            && (Exists(at, j, poll.start) && !Over(at, j, poll.start) ==> says == news)
            && (Over(at, j, poll.start) ==> says == news + [DoneMessage])
  {
  }

  lemma IdsOfBoth(a: seq<Page>, b: seq<Page>)
    ensures IdsOf(Elements(a + b)) == IdsOf(Elements(a)) + IdsOf(Elements(b))
  {
    assert Elements(a + b) == Elements(a) + Elements(b);
  }

  lemma OnePollMore(at: nat -> M.Store, order: RowOrder, j: Uuid, polls: seq<Poll>, poll: Poll)
    requires ArePolls(at, order, j, polls)
    requires polls != [] ==> !Over(at, j, polls[|polls| - 1].start) && Exists(at, j, polls[|polls| - 1].start)
    requires poll.start == (if polls == [] then 0 else polls[|polls| - 1].End())
    requires TakesReads(at, order, j, poll.start, poll.count)
    ensures ArePolls(at, order, j, polls + [poll])
  {
    hide TakesReads;
  }

  /** The page at place `k` is among the unsent ones, behind those in front of it, exactly when neither the
      client nor an earlier page has its request id. */
  lemma UnsentIsExact(pages: seq<Page>, sent: set<string>, k: nat)
    requires k < |pages|
    ensures var isNew := pages[k].requestId !in sent
                         && forall i | 0 <= i < k :: pages[i].requestId != pages[k].requestId;
            && Unsent(pages[..k + 1], sent) == Unsent(pages[..k], sent) + (if isNew then [pages[k]] else [])
            && Unsent(pages[..k + 1], sent) <= Unsent(pages, sent)
  {
    assert pages[..k + 1] == pages[..k] + [pages[k]];
    UnsentOfLast(pages[..k], pages[k], sent);
    UnsentGrows(pages, k + 1, sent);
    IdsAreThere(pages, k, pages[k].requestId);
  }

  lemma IdsAreThere(pages: seq<Page>, k: nat, id: string)
    requires k <= |pages|
    ensures id in IdsOf(Elements(pages[..k])) <==> exists i | 0 <= i < k :: pages[i].requestId == id
  {
    if i :| 0 <= i < k && pages[i].requestId == id {
      assert pages[..k][i] in Elements(pages[..k]);
    }
    if id in IdsOf(Elements(pages[..k])) {
      var page :| page in Elements(pages[..k]) && page.requestId == id;
      var i :| 0 <= i < k && pages[..k][i] == page;
      assert pages[i].requestId == id;
    }
  }

  lemma {:induction false} TalkGrows(at: nat -> M.Store, order: RowOrder, j: Uuid, polls: seq<Poll>, i: nat)
    requires i <= |polls|
    ensures Talk(at, order, j, polls[..i]) <= Talk(at, order, j, polls)
    decreases |polls|
  {
    hide Says;
    if i == |polls| {
      assert polls[..i] == polls;
    } else {
      assert polls[..|polls| - 1][..i] == polls[..i];
      TalkGrows(at, order, j, polls[..|polls| - 1], i);
    }
  }

  lemma NothingOfGone(at: nat -> M.Store, order: RowOrder, j: Uuid, poll: Poll)
    requires TakesReads(at, order, j, poll.start, poll.count) && !Exists(at, j, poll.start)
    ensures Assembly(at, order, j, poll) == []
  {
    assert poll.count == 1 || MoreToRead(at, order, j, poll.start, 0);
    assert DataOfReads(at, order, j, poll.start, 1)
        == DataOfReads(at, order, j, poll.start, 0) + ReadData(at, order, j, poll.start, 0);
  }

  /** The talk begins with a catch-up on exactly the pages the first round assembled, or with the message
      that the job is missing; it ends with the latter exactly when the last round found the job gone, and
      with "done" exactly when that found it over. */
  lemma TalkIsFramed(at: nat -> M.Store, order: RowOrder, j: Uuid, polls: seq<Poll>)
    requires ArePolls(at, order, j, polls) && polls != []
    ensures var (talk, last) := (Talk(at, order, j, polls), polls[|polls| - 1].start);
            && talk != []
            && talk[0] == (if j in at(0).crawls then Catchup(DataOfReads(at, order, j, 0, polls[0].count)) else Missing)
            && (talk[|talk| - 1].Missing? <==> j !in at(last).crawls)
            && (talk[|talk| - 1].DoneMessage? <==>
                  && j in at(last).crawls
                  && (at(last).crawls[j].rows.job.status.Done? || at(last).crawls[j].rows.job.status.Cancelled?))
  {
    hide ArePolls, DataOfReads, Unsent, AllPolled, IdsOf, Elements, Talk, Says;
    FirstPoll(at, order, j, polls);
    LastPoll(at, order, j, polls);
    TalkGrows(at, order, j, polls, 1);
  }

  lemma FirstPoll(at: nat -> M.Store, order: RowOrder, j: Uuid, polls: seq<Poll>)
    requires ArePolls(at, order, j, polls) && polls != []
    ensures polls[0].start == 0 && Talk(at, order, j, polls[..1]) != []
    ensures Talk(at, order, j, polls[..1])[0]
         == if j in at(0).crawls then Catchup(DataOfReads(at, order, j, 0, polls[0].count)) else Missing
  {
    hide DataOfReads, Unsent, AllPolled, IdsOf, Elements, Documents, TakesReads;
    assert polls[..1][..0] == [];
    assert Talk(at, order, j, polls[..1]) == Talk(at, order, j, []) + Says(at, order, j, [], polls[0]);
  }

  lemma LastPoll(at: nat -> M.Store, order: RowOrder, j: Uuid, polls: seq<Poll>)
    requires ArePolls(at, order, j, polls) && polls != []
    ensures var (talk, last) := (Talk(at, order, j, polls), polls[|polls| - 1].start);
            talk != [] ==>
              && (talk[|talk| - 1].Missing? <==> !Exists(at, j, last))
              && (talk[|talk| - 1].DoneMessage? <==> Over(at, j, last))
  {
    hide DataOfReads, Unsent, AllPolled, IdsOf, Elements, TakesReads, Documents, Talk, Says, Exists, Over;
    var (before, poll) := (polls[..|polls| - 1], polls[|polls| - 1]);
    assert polls == before + [poll];
    RunningTalk(at, order, j, before);
    TalkOfLast(at, order, j, before, poll);
    SaysWhat(at, order, j, before, poll);
    DocumentsOnly(Unsent(Assembly(at, order, j, poll), IdsOf(Elements(AllPolled(at, order, j, before)))));
  }

  lemma DocumentsOnly(pages: seq<Page>)
    ensures pages != [] ==> Documents(pages)[|pages| - 1].Document? && |Documents(pages)| == |pages|
    ensures pages == [] ==> Documents(pages) == []
  {
  }

  /** As long as every round finds the job running, nothing ends the talk. */
  lemma {:induction false} RunningTalk(at: nat -> M.Store, order: RowOrder, j: Uuid, polls: seq<Poll>)
    requires forall i | 0 <= i < |polls| :: Exists(at, j, polls[i].start) && !Over(at, j, polls[i].start)
    ensures var talk := Talk(at, order, j, polls);
            talk != [] ==> talk[|talk| - 1].Document? || talk[|talk| - 1].Catchup?
    decreases |polls|
  {
    hide DataOfReads, Unsent, AllPolled, IdsOf, Elements, Documents;
    if polls == [] {
    } else {
      var (before, poll) := (polls[..|polls| - 1], polls[|polls| - 1]);
      RunningTalk(at, order, j, before);
      DocumentsOnly(Unsent(Assembly(at, order, j, poll), IdsOf(Elements(AllPolled(at, order, j, before)))));
    }
  }

  /** The talk holds a document for every page a later round assembled whose request id is new. */
  lemma NewPagesAreTold(at: nat -> M.Store, order: RowOrder, j: Uuid, polls: seq<Poll>, i: nat, k: nat)
    requires ArePolls(at, order, j, polls) && 0 < i < |polls|
    requires k < |DataOfReads(at, order, j, polls[i].start, polls[i].count)|
    requires var pages := DataOfReads(at, order, j, polls[i].start, polls[i].count);
             && pages[k].requestId !in IdsOf(Elements(AllPolled(at, order, j, polls[..i])))
             && forall n | 0 <= n < k :: pages[n].requestId != pages[k].requestId
    ensures Document(DataOfReads(at, order, j, polls[i].start, polls[i].count)[k]) in Talk(at, order, j, polls)
  {
    hide DataOfReads, Unsent, AllPolled, IdsOf, Elements, Talk, TakesReads;
    var (before, poll) := (polls[..i], polls[i]);
    var (pages, sent) := (Assembly(at, order, j, poll), IdsOf(Elements(AllPolled(at, order, j, before))));
    assert polls[..i + 1] == before + [poll];
    TalkOfLast(at, order, j, before, poll);
    TalkGrows(at, order, j, polls, i + 1);
    if !Exists(at, j, poll.start) {
      NothingOfGone(at, order, j, poll);
      assert false;
    }
    UnsentIsExact(pages, sent, k);
    var (news, place) := (Unsent(pages, sent), |Unsent(pages[..k], sent)|);
    assert news[place] == pages[k];
    assert Documents(news)[place] == Document(pages[k]);
    assert Document(pages[k]) in Says(at, order, j, before, poll);
    assert Document(pages[k]) in Talk(at, order, j, before + [poll]);
    StillThere(Talk(at, order, j, before + [poll]), Talk(at, order, j, polls), Document(pages[k]));
  }

  lemma StillThere(fewer: seq<Message>, more: seq<Message>, m: Message)
    requires fewer <= more && m in fewer
    ensures m in more
  {
    var i :| 0 <= i < |fewer| && fewer[i] == m;
    assert more[i] == m;
  }

  /** Nothing that ends a watch, and no catch-up but in front. */
  ghost predicate MidTalk(messages: seq<Message>) {
    && (forall i | 0 <= i < |messages| :: !messages[i].DoneMessage?)
    && (forall i | 0 < i < |messages| :: !messages[i].Catchup?)
  }

  ghost predicate WellEnded(messages: seq<Message>) {
    && (forall i | 0 <= i < |messages| - 1 :: !messages[i].DoneMessage?)
    && (forall i | 0 < i < |messages| :: !messages[i].Catchup?)
  }

  ghost predicate AllWork(sendWorks: nat -> bool, n: nat) {
    forall k: nat | k < n :: sendWorks(k)
  }

  /** What holds of the messages at any time, and of those that others may follow. */
  ghost predicate Honest(at: nat -> M.Store, j: Uuid, end: nat, messages: seq<Message>) {
    NoRepeats(messages) && WellEnded(messages) && AllGenuine(at, j, end, Delivered(messages))
  }

  ghost predicate Midway(at: nat -> M.Store, j: Uuid, end: nat, messages: seq<Message>) {
    NoRepeats(messages) && MidTalk(messages) && AllGenuine(at, j, end, Delivered(messages))
  }

  lemma MidwayIsHonest(at: nat -> M.Store, j: Uuid, a: nat, b: nat, messages: seq<Message>)
    requires Midway(at, j, a, messages) && a <= b
    ensures Midway(at, j, b, messages) && Honest(at, j, b, messages)
    ensures messages != [] ==> !messages[|messages| - 1].DoneMessage?
  {
    hide NoRepeats, AllGenuine;
    GenuineLater(at, j, a, b, Delivered(messages));
  }

  /** A last message that carries nothing. */
  lemma LastWord(at: nat -> M.Store, j: Uuid, end: nat, messages: seq<Message>, m: Message)
    requires Midway(at, j, end, messages) && (m.Missing? || m.DoneMessage?)
    ensures Honest(at, j, end, messages + [m])
  {
    hide NoRepeats, AllGenuine, Received;
    Appended(messages, m);
    NothingMore(Delivered(messages));
    assert (messages + [m])[..|messages|] == messages;
  }

  lemma FirstWord(at: nat -> M.Store, j: Uuid, last: nat, end: nat, pages: seq<Page>)
    requires AllSeen(at, j, last, end, pages)
    ensures Midway(at, j, end, [Catchup(pages)])
    ensures Received([Catchup(pages)]) == IdsOf(Elements(pages))
  {
    hide AllSeen, Received, IdsOf, Elements, AllGenuine;
    NothingSent();
    NothingIsGenuine(at, j);
    Appended([], Catchup(pages));
    assert [] + [Catchup(pages)] == [Catchup(pages)];
    GenuineLater(at, j, 0, end, {});
    MoreIsGenuine(at, j, last, end, {}, pages, Delivered([Catchup(pages)]));
  }

  lemma MoreDocuments(at: nat -> M.Store, j: Uuid, last: nat, end: nat, messages: seq<Message>, pages: seq<Page>,
                      more: seq<Message>)
    requires Midway(at, j, end, messages) && AllSeen(at, j, last, end, pages) && messages != []
    requires messages <= more && forall i | |messages| <= i < |more| :: more[i].Document?
    requires NoRepeats(more) && Delivered(more) <= Delivered(messages) + Elements(pages)
    ensures Midway(at, j, end, more)
  {
    hide NoRepeats, AllSeen, AllGenuine, Delivered, Elements;
    MoreIsGenuine(at, j, last, end, Delivered(messages), pages, Delivered(more));
  }

  /** The talk with one round more, `messages` being that so far. */
  lemma NextRound(at: nat -> M.Store, order: RowOrder, j: Uuid, before: seq<Poll>, poll: Poll, messages: seq<Message>,
                  pages: seq<Page>, sent: set<string>)
    requires messages == Talk(at, order, j, before) && pages == DataOfReads(at, order, j, poll.start, poll.count)
    requires sent == IdsOf(Elements(AllPolled(at, order, j, before)))
    ensures Exists(at, j, poll.start) <==> j in at(poll.start).crawls
    ensures Exists(at, j, poll.start) ==>
              (Over(at, j, poll.start) <==> Terminal(at(poll.start).crawls[j].rows.job.status))
    ensures var talk := Talk(at, order, j, before + [poll]);
            var news := if before == [] then [Catchup(pages)] else Documents(Unsent(pages, sent));
            && messages <= talk
            && (!Exists(at, j, poll.start) ==> talk == messages + [Missing])
            && (Exists(at, j, poll.start) ==> messages + news <= talk)
            && (Exists(at, j, poll.start) && !Over(at, j, poll.start) ==> talk == messages + news)
            && (Over(at, j, poll.start) ==> talk == messages + news + [DoneMessage])
    ensures IdsOf(Elements(AllPolled(at, order, j, before + [poll]))) == sent + IdsOf(Elements(pages))
  {
    hide Talk, Says, DataOfReads, AllPolled, IdsOf, Elements, Documents, Unsent, Exists, Over, Terminal;
    TalkOfLast(at, order, j, before, poll);
    SaysWhat(at, order, j, before, poll);
    var news := if before == [] then [Catchup(pages)] else Documents(Unsent(pages, sent));
    Together(messages, news, [DoneMessage]);
    NothingAdded(messages);
    OverExists(at, j, poll.start);
  }

  lemma OverExists(at: nat -> M.Store, j: Uuid, t: nat)
    ensures Over(at, j, t) ==> Exists(at, j, t)
  {
  }

  lemma OneMoreWorks(sendWorks: nat -> bool, n: nat)
    ensures AllWork(sendWorks, 0)
    ensures AllWork(sendWorks, n) && sendWorks(n) ==> AllWork(sendWorks, n + 1)
  {
  }

  /** The client hears the talk up to the first send that fails. */
  ghost predicate IsHeard(talk: seq<Message>, messages: seq<Message>, sendWorks: nat -> bool) {
    && messages <= talk
    && (forall n: nat | n < |messages| :: sendWorks(n))
    && (messages == talk || !sendWorks(|messages|))
  }

  lemma HeardSoFar(talk: seq<Message>, messages: seq<Message>, sendWorks: nat -> bool)
    requires messages <= talk && AllWork(sendWorks, |messages|)
    ensures messages == talk || !sendWorks(|messages|) ==> IsHeard(talk, messages, sendWorks)
  {
  }

  /** What one poll that found the job sends: the catch-up if it is the first, otherwise a document for each
      new page, as far as sending works. */
  method Tell(at: nat -> M.Store, j: Uuid, ghost last: nat, ghost end: nat, first: bool, pages: seq<Page>,
              sent: set<string>, messages: seq<Message>, sendWorks: nat -> bool)
    returns (sent': set<string>, messages': seq<Message>, alive: bool)
    requires AllSeen(at, j, last, end, pages) && Midway(at, j, end, messages)
    requires sent == Received(messages) && AllWork(sendWorks, |messages|) && (first <==> messages == [])
    ensures var news := if first then [Catchup(pages)] else Documents(Unsent(pages, sent));
            && messages <= messages' <= messages + news
            && (if alive then messages' == messages + news
                else messages' < messages + news && !sendWorks(|messages'|))
    ensures AllWork(sendWorks, |messages'|) && Midway(at, j, end, messages') && Honest(at, j, end, messages')
    ensures messages' != [] ==> !messages'[|messages'| - 1].DoneMessage?
    ensures alive ==> messages' != [] && sent' == Received(messages') == sent + IdsOf(Elements(pages))
  {
    hide Received, IdsOf, Elements, NoRepeats, AllSeen, AllGenuine, Delivered, Documents, Unsent, AllWork;
    hide Honest, Midway;
    MidwayIsHonest(at, j, end, end, messages);
    HonestParts(at, j, end, messages);
    if first {
      sent', messages', alive := sent, messages, sendWorks(0);
      if alive {
        OneMoreWorks(sendWorks, 0);
        FirstWord(at, j, last, end, pages);
        assert messages + [Catchup(pages)] == [Catchup(pages)];
        NothingReceived();
        messages' := messages + [Catchup(pages)];
        sent' := sent + IdsOf(Elements(pages));
      }
    } else {
      sent', messages', alive := SendNew(pages, sent, messages, sendWorks);
      MoreDocuments(at, j, last, end, messages, pages, messages');
    }
    MidwayIsHonest(at, j, end, end, messages');
  }

  lemma NothingReceived()
    ensures Received([]) == {}
  {
    NothingSent();
  }

  /** The watcher, cut off after some number of polls; `messages` are those delivered and `done` the
      rounds it made. Queries are numbered by `at`; `last` is the one the last round began with and `end`
      the one after its last. The client is told what the rounds have to say, up to the first send that
      fails; without one the watch goes on until a round finds the job gone or over. Every delivered page
      is the stored result of a task of the job. Results are never sent twice; "done" is said at most
      once, at the end, of a job that is over; and if that job was completed and is still there after the
      round, the client has every result: the pages themselves when their request ids are distinct. */
  method Watch(ghost w: M.World, at: nat -> M.Store, order: RowOrder, j: Uuid, sendWorks: nat -> bool, polls: nat)
    returns (messages: seq<Message>, last: nat, end: nat, ghost done: seq<Poll>)
    requires IsHistory(w, at) && IsRowOrder(order)
    ensures ArePolls(at, order, j, done) && |done| <= polls
    ensures done != [] ==> last == done[|done| - 1].start && end == done[|done| - 1].End()
    ensures IsHeard(Talk(at, order, j, done), messages, sendWorks)
    ensures messages == Talk(at, order, j, done) ==>
              |done| == polls || (done != [] && (!Exists(at, j, last) || Over(at, j, last)))
    ensures Honest(at, j, end, messages)
    ensures messages != [] && messages[|messages| - 1].DoneMessage? ==>
              last < end && DoneIsKept(at, j, last, end, messages)
  {
    hide IsHistory, IsRowOrder, StoreInv, Unchanged, PagesOf, ErrorsOf, AllReceived, Received, IdsOf, Elements;
    hide NoRepeats, Honest, Midway, AllSeen, AllGenuine, Delivered, DoneIsKept, Documents, Unsent;
    hide TakesReads, ArePolls, AllPolled, Talk, Says, DataOfReads, AllWork, Exists, Over, Terminal, IsHeard;
    messages, last, end, done := [], 0, 0, [];
    NothingSaid(at, order, j, sendWorks);
    var sent: set<string> := {};
    var first, round := true, 0;
    while round < polls
      invariant round == |done| <= polls && ArePolls(at, order, j, done)
      invariant done != [] ==> last == done[|done| - 1].start && Exists(at, j, last) && !Over(at, j, last)
      invariant end == if done == [] then 0 else done[|done| - 1].End()
      invariant messages == Talk(at, order, j, done) && AllWork(sendWorks, |messages|)
      invariant IsHeard(messages, messages, sendWorks)
      invariant sent == Received(messages) == IdsOf(Elements(AllPolled(at, order, j, done)))
      invariant Midway(at, j, end, messages) && Honest(at, j, end, messages)
      invariant messages != [] ==> !messages[|messages| - 1].DoneMessage?
      invariant first <==> done == []
      invariant first <==> messages == []
    {
      round := round + 1;
      last := end;
      var status;
      ghost var count;
      status, end, count := CompleteStatus(w, at, order, j, last);
      MidwayIsHonest(at, j, last, end, messages);
      OnePollMore(at, order, j, done, Poll(last, count));
      NextRound(at, order, j, done, Poll(last, count), messages, DataOfReads(at, order, j, last, count), sent);
      done := done + [Poll(last, count)];
      OneMoreWorks(sendWorks, |messages|);
      if status.None? {
        if sendWorks(|messages|) {
          LastWord(at, j, end, messages, Missing);
          messages := messages + [Missing];
        }
        HeardSoFar(Talk(at, order, j, done), messages, sendWorks);
        break;
      }
      var pages := status.value.data;
      var alive;
      sent, messages, alive := Tell(at, j, last, end, first, pages, sent, messages, sendWorks);
      if !alive {
        HeardSoFar(Talk(at, order, j, done), messages, sendWorks);
        break;
      }
      first := false;
      OneMoreWorks(sendWorks, |messages|);
      if Terminal(status.value.status) {
        if sendWorks(|messages|) {
          HonestParts(at, j, end, messages);
          PollCompletes(w, at, order, j, last, end, pages, messages);
          LastWord(at, j, end, messages, DoneMessage);
          messages := messages + [DoneMessage];
        }
        HeardSoFar(Talk(at, order, j, done), messages, sendWorks);
        break;
      }
      HeardSoFar(Talk(at, order, j, done), messages, sendWorks);
    }
  }

  lemma HonestParts(at: nat -> M.Store, j: Uuid, end: nat, messages: seq<Message>)
    requires Honest(at, j, end, messages)
    ensures NoRepeats(messages) && AllGenuine(at, j, end, Delivered(messages))
  {
  }

  lemma NothingSaid(at: nat -> M.Store, order: RowOrder, j: Uuid, sendWorks: nat -> bool)
    ensures Talk(at, order, j, []) == [] && AllPolled(at, order, j, []) == []
    ensures ArePolls(at, order, j, []) && Received([]) == IdsOf(Elements([])) == {}
    ensures Midway(at, j, 0, []) && Honest(at, j, 0, []) && AllWork(sendWorks, 0) && IsHeard([], [], sendWorks)
  {
    NothingSent();
    NothingIsGenuine(at, j);
  }
}
