/**
 What the statements of the queue do to the rows of one job, written out column by column, and what
 a worker's answer leads to. The functions of CrawlStatements are shown to do exactly this.
 */
module CrawlContracts {
  import opened Wrappers
  import opened CrawlRows
  import opened CrawlStatements
  import opened CrawlInvariants

  // ---------- Path filters ----------

  /** Without patterns every URL that parses is allowed. */
  lemma NoPatternsAllow(lib: Library, config: Config, url: Url)
    requires config.includePaths == [] && config.excludePaths == []
    ensures UrlAllowed(lib, config, url) <==> lib.urlPath(url).Some?
  {
  }

  /** One more exclude pattern forbids exactly what it matches, in the path or in the whole URL. */
  lemma OneMoreExclude(lib: Library, config: Config, p: string, url: Url)
    ensures var more := config.(excludePaths := config.excludePaths + [p]);
            UrlAllowed(lib, more, url) <==>
              && UrlAllowed(lib, config, url)
              && !(lib.regexValid(p)
                   && lib.regexMatches(p, if config.regexOnFullUrl then url else lib.urlPath(url).value))
  {
    var more := config.(excludePaths := config.excludePaths + [p]);
    assert forall q :: q in more.excludePaths <==> q in config.excludePaths || q == p;
  }

  /** The first include pattern narrows everything to what it matches, every further one widens. */
  lemma OneMoreInclude(lib: Library, config: Config, p: string, url: Url)
    ensures var more := config.(includePaths := config.includePaths + [p]);
            var hit := lib.urlPath(url).Some? && lib.regexValid(p)
                       && lib.regexMatches(p, if config.regexOnFullUrl then url else lib.urlPath(url).value);
            UrlAllowed(lib, more, url) <==>
              if config.includePaths == [] then hit && UrlAllowed(lib, config, url)
              else UrlAllowed(lib, config, url) || (hit && UrlAllowed(lib, config.(includePaths := []), url))
  {
    var more := config.(includePaths := config.includePaths + [p]);
    assert forall q :: q in more.includePaths <==> q in config.includePaths || q == p;
  }

  // ---------- Casts ----------

  /** A cast keeps the number modulo the width and lands in the signed range, so it keeps numbers that
      fit. */
  lemma CastsWrap(n: nat)
    ensures -0x8000_0000 <= AsI32(n) < 0x8000_0000 && (n - AsI32(n)) % 0x1_0000_0000 == 0
    ensures n < 0x8000_0000 ==> AsI32(n) == n
    ensures -0x8000_0000_0000_0000 <= AsI64(n) < 0x8000_0000_0000_0000
    ensures (n - AsI64(n)) % 0x1_0000_0000_0000_0000 == 0
    ensures n < 0x8000_0000_0000_0000 ==> AsI64(n) == n
  {
  }

  // ---------- Enqueue ----------

  /** The numbers of a request fit their columns. */
  predicate Fits(request: CrawlRequest) {
    && request.limit < 0x8000_0000_0000_0000 && request.delayMs < 0x8000_0000_0000_0000
    && request.maxDepth < 0x8000_0000 && request.maxConcurrency < 0x8000_0000 && request.maxRetries < 0x8000_0000
  }

  predicate IsNewTask(task: Task, jobId: Uuid, url: Url, key: string, depth: int, now: Time) {
    && task.crawlId == jobId && task.url == url && task.dedupKey == key && task.depth == depth
    && task.status.Queued? && task.attempts == 0 && task.nextAttemptAt == now && task.createdAt == now
    && task.leaseToken.None? && task.leaseExpiresAt.None? && task.result.None? && task.errorCode.None?
    && task.errorMessage.None? && task.startedAt.None? && task.finishedAt.None?
  }

  predicate IsNewJob(job: Job, retentionDays: nat, now: Time) {
    && job.status.Waiting? && !job.cancelRequested
    && job.startedAt.None? && job.finishedAt.None? && job.lastTaskStartedAt.None?
    && job.expiresAt == Some(now + retentionDays * 86_400_000_000)
  }

  /** A crawl whose numbers fit is accepted exactly when its URL normalises, its patterns are valid, its
      limit and concurrency are positive and its idempotency key is a new one; it is stored as asked
      for. */
  lemma AcceptedCrawlIsAsAsked(lib: Library, request: CrawlRequest, usedKeys: set<Uuid>,
                               jobId: Uuid, taskId: Uuid, retentionDays: nat, now: Time)
    requires Fits(request)
    ensures var r := EnqueueRows(lib, request, usedKeys, jobId, taskId, retentionDays, now);
            && (r.Ok? <==>
                  && request.limit > 0 && request.maxConcurrency > 0 && lib.normalize(request.url).Some?
                  && (forall p | p in request.includePaths || p in request.excludePaths :: lib.regexValid(p))
                  && !request.idempotencyKey.Malformed?
                  && !(request.idempotencyKey.Key? && request.idempotencyKey.id in usedKeys))
            && (r.Ok? ==>
                  var (url, config) := (lib.normalize(request.url).value, r.value.job.config);
                  && IsNewJob(r.value.job, retentionDays, now)
                  && config.jobType.CrawlJob? && config.url == url
                  && config.pageLimit == request.limit && config.maxDepth == request.maxDepth
                  && config.delayMs == request.delayMs && config.maxConcurrency == request.maxConcurrency
                  && config.maxRetries == request.maxRetries && config.sitemap == request.sitemap
                  && config.includePaths == request.includePaths && config.excludePaths == request.excludePaths
                  && config.regexOnFullUrl == request.regexOnFullUrl
                  && config.dedupSimilar == request.dedupSimilar && config.ignoreRobots == request.ignoreRobots
                  && r.value.tasks.Keys == {taskId}
                  && IsNewTask(r.value.tasks[taskId], jobId, url,
                               if request.dedupSimilar then lib.similarKey(url) else url, 0, now))
  {
    CastsWrap(request.limit);
    CastsWrap(request.delayMs);
    CastsWrap(request.maxDepth);
    CastsWrap(request.maxConcurrency);
    CastsWrap(request.maxRetries);
    hide AsI32, AsI64;
    assert forall p :: p in request.includePaths + request.excludePaths
                       <==> p in request.includePaths || p in request.excludePaths;
  }

  /** A new crawl can be claimed at once. */
  lemma NewCrawlIsClaimableAtOnce(lib: Library, request: CrawlRequest, usedKeys: set<Uuid>,
                                  jobId: Uuid, taskId: Uuid, retentionDays: nat, now: Time)
    requires EnqueueRows(lib, request, usedKeys, jobId, taskId, retentionDays, now).Ok?
    ensures Claimable(EnqueueRows(lib, request, usedKeys, jobId, taskId, retentionDays, now).value, taskId, now)
  {
    hide AsI32, AsI64;
    var rows := EnqueueRows(lib, request, usedKeys, jobId, taskId, retentionDays, now).value;
    assert Leased(rows.tasks, now) == {};
  }

  /** A batch normalises exactly when each of its URLs does, one for one. */
  lemma {:induction false} NormalizeAllIs(lib: Library, raw: seq<string>)
    ensures NormalizeAll(lib, raw).Some? <==> forall s | s in raw :: lib.normalize(s).Some?
    ensures NormalizeAll(lib, raw).Some? ==>
              && |NormalizeAll(lib, raw).value| == |raw|
              && forall i | 0 <= i < |raw| :: Some(NormalizeAll(lib, raw).value[i]) == lib.normalize(raw[i])
  {
    if raw == [] {
    } else {
      NormalizeAllIs(lib, raw[..|raw| - 1]);
      assert raw == raw[..|raw| - 1] + [raw[|raw| - 1]];
    }
  }

  /** A batch that is accepted has one new task per distinct URL, which may be as many as its limit. */
  lemma AcceptedBatchIsAsAsked(lib: Library, request: BatchRequest, jobId: Uuid, firstId: Uuid,
                               retentionDays: nat, now: Time)
    requires request.maxConcurrency < 0x8000_0000 && request.maxRetries < 0x8000_0000
    ensures var r := EnqueueBatchRows(lib, request, jobId, firstId, retentionDays, now);
            && (r.Ok? <==>
                  && NormalizeAll(lib, request.urls).Some? && request.maxConcurrency > 0
                  && 1 <= |Distinct(NormalizeAll(lib, request.urls).value)| <= 1000)
            && (r.Ok? ==>
                  var (urls, config) := (Distinct(NormalizeAll(lib, request.urls).value), r.value.job.config);
                  && IsNewJob(r.value.job, retentionDays, now)
                  && config.jobType.BatchScrape? && config.url == urls[0] && config.pageLimit == |urls|
                  && config.maxDepth == 0 && config.delayMs == 0
                  && config.maxConcurrency == request.maxConcurrency && config.maxRetries == request.maxRetries
                  && config.includePaths == [] && config.excludePaths == [] && !config.ignoreRobots
                  && (forall id :: id in r.value.tasks <==> firstId <= id < firstId + |urls|)
                  && forall i | 0 <= i < |urls| ::
                       IsNewTask(r.value.tasks[firstId + i], jobId, urls[i], urls[i], 0, now))
  {
    CastsWrap(request.maxConcurrency);
    CastsWrap(request.maxRetries);
    hide AsI32, AsI64, NormalizeAll, Distinct, BatchTasks;
  }

  // ---------- Claim ----------

  /** The WHERE clause of the claim. */
  ghost predicate MayBeClaimed(rows: Rows, id: Uuid, now: Time) {
    && id in rows.tasks
    && !rows.job.cancelRequested && (rows.job.status.Waiting? || rows.job.status.Scraping?)
    && (rows.job.lastTaskStartedAt.Some? ==>
          now >= rows.job.lastTaskStartedAt.value + rows.job.config.delayMs * 1_000)
    && (|| (rows.tasks[id].status.Queued? && now >= rows.tasks[id].nextAttemptAt)
        || (rows.tasks[id].status.Active? && rows.tasks[id].leaseExpiresAt.Some?
            && now > rows.tasks[id].leaseExpiresAt.value))
    && |set k | k in rows.tasks && rows.tasks[k].status.Active? && rows.tasks[k].leaseExpiresAt.Some?
                && rows.tasks[k].leaseExpiresAt.value >= now| < rows.job.config.maxConcurrency
  }

  /** What a claim writes, and what it hands out. */
  ghost predicate IsClaimed(before: Rows, after: Rows, id: Uuid, token: Uuid, now: Time, claim: ClaimedTask)
    requires id in before.tasks
  {
    var (task, job) := (before.tasks[id], before.job);
    && after.tasks == before.tasks[id := task.(
         status := Active, attempts := task.attempts + 1, leaseToken := Some(token),
         leaseExpiresAt := Some(now + 90_000_000),
         startedAt := if task.startedAt.None? then Some(now) else task.startedAt)]
    && after.job == job.(
         status := Scraping, lastTaskStartedAt := Some(now),
         startedAt := if job.startedAt.None? then Some(now) else job.startedAt)
    && claim == ClaimedTask(id, task.crawlId, task.url, task.depth, task.attempts + 1, token)
  }

  lemma ClaimIsExact(rows: Rows, id: Uuid, token: Uuid, now: Time)
    ensures Claimable(rows, id, now) <==> MayBeClaimed(rows, id, now)
    ensures Claimable(rows, id, now) ==>
              IsClaimed(rows, ClaimRows(rows, id, token, now), id, token, now, ClaimOf(rows.tasks[id], id, token))
  {
    assert Leased(rows.tasks, now)
        == set k | k in rows.tasks && rows.tasks[k].status.Active? && rows.tasks[k].leaseExpiresAt.Some?
                   && rows.tasks[k].leaseExpiresAt.value >= now;
  }

  // ---------- Cancel ----------

  /** A cancel makes a queued or scraping job cancelled and leaves its tasks; other jobs stay. */
  lemma CancelIsExact(rows: Rows, now: Time)
    ensures var after := CancelRows(rows, now);
            && after.tasks == rows.tasks
            && (rows.job.status.Done? || rows.job.status.Cancelled? ==> after.job == rows.job)
            && (rows.job.status.Waiting? || rows.job.status.Scraping? ==>
                  && after.job.status.Cancelled? && after.job.cancelRequested
                  && after.job == rows.job.(status := Cancelled, cancelRequested := true,
                       finishedAt := if rows.job.finishedAt.None? then Some(now) else rows.job.finishedAt))
  {
  }

  // ---------- One finish ----------

  /** A worker may fetch the URL. */
  predicate MayFetch(lib: Library, config: Config, url: Url, robotsAllow: bool) {
    UrlAllowed(lib, config, url) && (config.ignoreRobots || robotsAllow)
  }

  /** The links of this page are to be followed. */
  predicate MayFollow(config: Config, depth: int) {
    config.jobType.CrawlJob? && depth < config.maxDepth && (config.sitemap.Only? ==> depth <= 0)
  }

  predicate IsTransient(error: ScrapeError) {
    match error
    case InvalidUrl(_) => false
    case BlockedByPolicy(_) => false
    case FetchFailed(_) => true
    case RenderFailed(_) => true
    case EmptyContent => true
  }

  /** The row has this URL or its key. */
  predicate Stands(lib: Library, config: Config, tasks: map<Uuid, Task>, url: Url) {
    exists id | id in tasks ::
      tasks[id].url == url || tasks[id].dedupKey == if config.dedupSimilar then lib.similarKey(url) else url
  }

  /** The job is over exactly when nothing is left to do and nobody cancelled it. */
  ghost predicate JobFollows(before: Rows, after: Rows, now: Time) {
    after.job ==
      if !before.job.cancelRequested
         && forall id | id in after.tasks :: after.tasks[id].status.Completed? || after.tasks[id].status.Failed?
      then before.job.(status := Done, finishedAt := Some(now))
      else before.job
  }

  /** The row of the claim gets the page; no other row changes. */
  ghost predicate ResultIsStored(before: map<Uuid, Task>, after: map<Uuid, Task>, id: Uuid, page: Page, now: Time)
    requires id in before
  {
    && id in after
    && (forall k | k in before :: k in after && (k != id ==> after[k] == before[k]))
    && after[id] == before[id].(
         status := Completed, result := Some(page), leaseExpiresAt := None, finishedAt := Some(now))
  }

  /** New rows are mapped links the filters allow; if links are to be followed, each such link has a row or
      the page limit is reached, and otherwise there are none. */
  ghost predicate LinksAreStored(lib: Library, job: Job, before: map<Uuid, Task>, after: map<Uuid, Task>,
                                 claim: ClaimedTask, mapped: Option<seq<Url>>, now: Time)
  {
    && (forall id | id in after && id !in before ::
          var url := after[id].url;
          && mapped.Some? && url in mapped.value && UrlAllowed(lib, job.config, url)
          && IsNewTask(after[id], claim.crawlId, url,
                       if job.config.dedupSimilar then lib.similarKey(url) else url, claim.depth + 1, now))
    && (job.cancelRequested || !MayFollow(job.config, claim.depth) || mapped.None? ==> after.Keys == before.Keys)
    && (!job.cancelRequested && MayFollow(job.config, claim.depth) && mapped.Some? ==>
          forall url | url in mapped.value && UrlAllowed(lib, job.config, url) ::
            Stands(lib, job.config, after, url) || |after| >= job.config.pageLimit)
  }

  /** What is stored when the page was fetched. */
  ghost predicate PageIsStored(lib: Library, before: Rows, after: Rows, claim: ClaimedTask, page: Page,
                               mapped: Option<seq<Url>>, now: Time)
    requires claim.id in before.tasks
  {
    && ResultIsStored(before.tasks, after.tasks, claim.id, page, now)
    && LinksAreStored(lib, before.job, before.tasks, after.tasks, claim, mapped, now)
  }

  /** The seconds between an attempt and the next one. */
  function BackOffTable(attempts: int): int {
    match attempts
    case 1 => 5
    case 2 => 10
    case 3 => 20
    case 4 => 40
    case 5 => 80
    case 6 => 160
    case _ => 300
  }

  lemma BackOffIsTabled(attempts: int)
    requires attempts >= 1
    ensures RetryDelaySeconds(attempts) == Some(BackOffTable(attempts))
  {
    RetryDelayShape(attempts, attempts);
  }

  /** What is stored when the page was not fetched. */
  ghost predicate FailureIsStored(before: Rows, after: Rows, claim: ClaimedTask, error: ScrapeError, now: Time)
    requires claim.id in before.tasks
  {
    var task := before.tasks[claim.id];
    var noted := task.(errorCode := Some(error.Code()), errorMessage := Some(error.Text()), leaseExpiresAt := None);
    && after.tasks.Keys == before.tasks.Keys
    && (forall id | id in before.tasks && id != claim.id :: after.tasks[id] == before.tasks[id])
    && after.tasks[claim.id] ==
         if IsTransient(error) && !before.job.cancelRequested && task.attempts <= before.job.config.maxRetries then
           noted.(status := Queued, finishedAt := None,
                  nextAttemptAt := now + BackOffTable(claim.attempts) * 1_000_000)
         else
           noted.(status := Failed, finishedAt := Some(now))
  }

  /** What one finish under a current token leads to, by the answers of the outside world. */
  ghost predicate AnswerIsStored(lib: Library, before: Rows, after: Rows, claim: ClaimedTask, robotsAllow: bool,
                                 scraped: Result<Page, ScrapeError>, mapped: Option<seq<Url>>, now: Time)
    requires claim.id in before.tasks
  {
    && JobFollows(before, after, now)
    && claim.id in after.tasks
    && if !MayFetch(lib, before.job.config, claim.url, robotsAllow) then
         && FailureIsStored(before, after, claim,
                            BlockedByPolicy(BlockedBecause(lib, before.job.config, claim.url)), now)
         && after.tasks[claim.id].status.Failed? && after.tasks[claim.id].errorCode == Some("blocked_by_policy")
         && after.tasks[claim.id].result == before.tasks[claim.id].result
       else match scraped
         case Ok(page) => PageIsStored(lib, before, after, claim, page, mapped, now)
         case Err(error) => FailureIsStored(before, after, claim, error, now)
  }

  function BlockedBecause(lib: Library, config: Config, url: Url): string {
    if UrlAllowed(lib, config, url) then "robots.txt disallows URL"
    else "URL is excluded by includePaths or excludePaths"
  }

  // ---------- Links ----------

  lemma StandsLonger(lib: Library, config: Config, tasks: map<Uuid, Task>, more: map<Uuid, Task>, url: Url)
    requires Stands(lib, config, tasks, url) && forall id | id in tasks :: id in more && more[id] == tasks[id]
    ensures Stands(lib, config, more, url)
  {
  }

  lemma OneLinkStands(lib: Library, config: Config, tasks: map<Uuid, Task>, crawlId: Uuid, url: Url, depth: int,
                      id: Uuid, now: Time)
    requires forall k | k in tasks :: k < id
    ensures var after := InsertLink(lib, config, tasks, crawlId, url, depth, id, now);
            && (Stands(lib, config, after, url) || |after| >= config.pageLimit)
            && (forall k | k in after :: k < id + 1)
            && (id in after ==> after[id].url == url && |after| <= config.pageLimit)
            && (|| after == tasks
                || after == tasks[id := NewTask(crawlId, url, DedupKey(lib, url, config.dedupSimilar), depth, now)])
  {
    var after := InsertLink(lib, config, tasks, crawlId, url, depth, id, now);
    var key := DedupKey(lib, url, config.dedupSimilar);
    if |tasks| < config.pageLimit && !Conflicts(tasks, url, key) {
      assert after[id].url == url;
    }
  }

  lemma LinksKeepRows(lib: Library, config: Config, tasks: map<Uuid, Task>, crawlId: Uuid, links: seq<Url>, depth: int,
                      firstId: Uuid, now: Time)
    requires forall id | id in tasks :: id < firstId
    ensures var after := InsertLinks(lib, config, tasks, crawlId, links, depth, firstId, now);
            && (forall id | id in tasks :: id in after && after[id] == tasks[id])
            && (forall id | id in after && id !in tasks ::
                  var url := after[id].url;
                  && firstId <= id < firstId + |links| && url in links
                  && IsNewTask(after[id], crawlId, url,
                               if config.dedupSimilar then lib.similarKey(url) else url, depth, now))
            && |tasks| <= |after|
            && (|tasks| >= config.pageLimit ==> after == tasks)
    decreases |links|
  {
    hide InsertLinks, NoDuplicates;
    InsertLinksGrows(lib, config, tasks, crawlId, links, depth, firstId, now);
    if |tasks| >= config.pageLimit {
      NoRoomNoRows(lib, config, tasks, crawlId, links, depth, firstId, now);
    }
  }

  lemma {:induction false} NoRoomNoRows(lib: Library, config: Config, tasks: map<Uuid, Task>, crawlId: Uuid,
                                        links: seq<Url>, depth: int, firstId: Uuid, now: Time)
    requires |tasks| >= config.pageLimit
    ensures InsertLinks(lib, config, tasks, crawlId, links, depth, firstId, now) == tasks
    decreases |links|
  {
    if links == [] {
    } else {
      NoRoomNoRows(lib, config, tasks, crawlId, links[1..], depth, firstId + 1, now);
    }
  }

  /** The first link is settled at once and stays so, whatever the rest of the loop does. */
  lemma FirstLinkStands(lib: Library, config: Config, tasks: map<Uuid, Task>, crawlId: Uuid, links: seq<Url>,
                        depth: int, firstId: Uuid, now: Time)
    requires links != [] && forall id | id in tasks :: id < firstId
    ensures var one := InsertLink(lib, config, tasks, crawlId, links[0], depth, firstId, now);
            var after := InsertLinks(lib, config, tasks, crawlId, links, depth, firstId, now);
            && after == InsertLinks(lib, config, one, crawlId, links[1..], depth, firstId + 1, now)
            && (forall id | id in one :: id < firstId + 1)
            && (Stands(lib, config, after, links[0]) || (|after| >= config.pageLimit && after == one))
            && (firstId in after ==> after[firstId].url == links[0] && Stands(lib, config, after, links[0]))
  {
    hide Stands, InsertLink, InsertLinks, IsNewTask, DedupKey, NewTask;
    var one := InsertLink(lib, config, tasks, crawlId, links[0], depth, firstId, now);
    var after := InsertLinks(lib, config, one, crawlId, links[1..], depth, firstId + 1, now);
    LinksUnfold(lib, config, tasks, crawlId, links, depth, firstId, now);
    OneLinkStands(lib, config, tasks, crawlId, links[0], depth, firstId, now);
    LinksKeepRows(lib, config, one, crawlId, links[1..], depth, firstId + 1, now);
    if Stands(lib, config, one, links[0]) {
      StandsLonger(lib, config, one, after, links[0]);
    }
    if firstId in after {
      RowStands(lib, config, after, firstId);
    }
  }

  lemma RowStands(lib: Library, config: Config, tasks: map<Uuid, Task>, id: Uuid)
    requires id in tasks
    ensures Stands(lib, config, tasks, tasks[id].url)
  {
  }

  /** Every link has a row afterwards, under its URL or its key, unless the page limit is reached. */
  lemma {:induction false} LinksStand(lib: Library, config: Config, tasks: map<Uuid, Task>, crawlId: Uuid,
                                      links: seq<Url>, depth: int, firstId: Uuid, now: Time)
    requires forall id | id in tasks :: id < firstId
    ensures var after := InsertLinks(lib, config, tasks, crawlId, links, depth, firstId, now);
            forall url | url in links :: Stands(lib, config, after, url) || |after| >= config.pageLimit
    decreases |links|
  {
    hide Stands, InsertLink, InsertLinks;
    if links == [] {
    } else {
      var one := InsertLink(lib, config, tasks, crawlId, links[0], depth, firstId, now);
      FirstLinkStands(lib, config, tasks, crawlId, links, depth, firstId, now);
      LinksStand(lib, config, one, crawlId, links[1..], depth, firstId + 1, now);
      assert links == [links[0]] + links[1..];
    }
  }

  /** Room is given to the links in their order: each row comes from the link its id was drawn for, and
      every link before that one has a row, too. */
  lemma {:induction false} LinksGoInOrder(lib: Library, config: Config, tasks: map<Uuid, Task>, crawlId: Uuid,
                                          links: seq<Url>, depth: int, firstId: Uuid, now: Time)
    requires forall id | id in tasks :: id < firstId
    ensures var after := InsertLinks(lib, config, tasks, crawlId, links, depth, firstId, now);
            && (forall id | id in after && firstId <= id < firstId + |links| :: after[id].url == links[id - firstId])
            && (forall id, k | id in after && firstId <= id < firstId + |links| && 0 <= k <= id - firstId ::
                  Stands(lib, config, after, links[k]))
    decreases |links|
  {
    hide Stands, InsertLink, InsertLinks;
    if links == [] {
    } else {
      var one := InsertLink(lib, config, tasks, crawlId, links[0], depth, firstId, now);
      var after := InsertLinks(lib, config, tasks, crawlId, links, depth, firstId, now);
      FirstLinkStands(lib, config, tasks, crawlId, links, depth, firstId, now);
      LinksGoInOrder(lib, config, one, crawlId, links[1..], depth, firstId + 1, now);
      forall id | id in after && firstId < id < firstId + |links|
        ensures after[id].url == links[id - firstId] && Stands(lib, config, after, links[0])
      {
        assert links[1..][id - (firstId + 1)] == links[id - firstId];
        assert id !in one;
      }
      assert forall k | 0 < k < |links| :: links[1..][k - 1] == links[k];
    }
  }

  lemma LinksUnfold(lib: Library, config: Config, tasks: map<Uuid, Task>, crawlId: Uuid, links: seq<Url>, depth: int,
                    firstId: Uuid, now: Time)
    requires links != []
    ensures InsertLinks(lib, config, tasks, crawlId, links, depth, firstId, now)
         == InsertLinks(lib, config, InsertLink(lib, config, tasks, crawlId, links[0], depth, firstId, now),
                        crawlId, links[1..], depth, firstId + 1, now)
  {
    hide InsertLink;
  }

  // ---------- Proof of the finish ----------

  /** What CompleteIfDrained leaves of the rows it gets. */
  lemma ClosingFollows(before: Rows, tasks: map<Uuid, Task>, now: Time)
    ensures var after := CompleteIfDrained(Rows(before.job, tasks), now);
            after.tasks == tasks && JobFollows(before, after, now)
  {
    assert Drained(tasks) <==> forall id | id in tasks :: tasks[id].status.Completed? || tasks[id].status.Failed?;
  }

  lemma FailureRowsAreStored(before: Rows, claim: ClaimedTask, error: ScrapeError, now: Time)
    requires Current(before.tasks, claim) && claim.attempts >= 1
    ensures var after := FinishFailureRows(before, claim, error, now);
            FailureIsStored(before, after, claim, error, now) && JobFollows(before, after, now)
  {
    hide RetryDelaySeconds, BackOffTable, JobFollows, CompleteIfDrained;
    BackOffIsTabled(claim.attempts);
    var delay := RetryDelaySeconds(claim.attempts).value;
    var task := FailedOnce(before.job, before.tasks[claim.id], error, delay, now);
    var tasks := before.tasks[claim.id := task];
    ClosingFollows(before, tasks, now);
    assert tasks.Keys == before.tasks.Keys;
  }

  /** The rows before the job is closed. */
  lemma ResultRowIsStored(lib: Library, before: Rows, claim: ClaimedTask, page: Page, links: seq<Url>,
                          firstId: Uuid, now: Time)
    requires Current(before.tasks, claim) && forall id | id in before.tasks :: id < firstId
    ensures var tasks := TasksAfterSuccess(lib, before.job, before.tasks, claim, page, links, firstId, now);
            ResultIsStored(before.tasks, tasks, claim.id, page, now)
  {
    hide InsertLinks, IsNewTask;
    var updated := before.tasks[claim.id := Succeeded(before.tasks[claim.id], page, now)];
    LinksKeepRows(lib, before.job.config, updated, claim.crawlId, links, claim.depth + 1, firstId, now);
  }

  lemma LinkRowsAreStored(lib: Library, before: Rows, claim: ClaimedTask, page: Page, mapped: Option<seq<Url>>,
                          links: seq<Url>, firstId: Uuid, now: Time)
    requires Current(before.tasks, claim) && forall id | id in before.tasks :: id < firstId
    requires links == if MayFollow(before.job.config, claim.depth) && mapped.Some?
                      then Filter(lib, before.job.config, mapped.value) else []
    ensures var tasks := TasksAfterSuccess(lib, before.job, before.tasks, claim, page, links, firstId, now);
            LinksAreStored(lib, before.job, before.tasks, tasks, claim, mapped, now)
  {
    hide InsertLinks, UrlAllowed, Stands, IsNewTask, Succeeded;
    var updated := before.tasks[claim.id := Succeeded(before.tasks[claim.id], page, now)];
    var config := before.job.config;
    assert updated.Keys == before.tasks.Keys;
    LinksKeepRows(lib, config, updated, claim.crawlId, links, claim.depth + 1, firstId, now);
    LinksStand(lib, config, updated, claim.crawlId, links, claim.depth + 1, firstId, now);
    NoLinksNoRows(lib, config, updated, claim.crawlId, claim.depth + 1, firstId, now);
  }

  lemma SuccessIsStored(lib: Library, before: Rows, claim: ClaimedTask, page: Page, mapped: Option<seq<Url>>,
                        links: seq<Url>, firstId: Uuid, now: Time)
    requires Current(before.tasks, claim) && forall id | id in before.tasks :: id < firstId
    requires links == if MayFollow(before.job.config, claim.depth) && mapped.Some?
                      then Filter(lib, before.job.config, mapped.value) else []
    ensures var after := FinishSuccessRows(lib, before, claim, page, links, firstId, now);
            && PageIsStored(lib, before, after, claim, page, mapped, now)
            && claim.id in after.tasks && JobFollows(before, after, now)
  {
    hide TasksAfterSuccess, JobFollows, LinksAreStored, Filter, CompleteIfDrained;
    var tasks := TasksAfterSuccess(lib, before.job, before.tasks, claim, page, links, firstId, now);
    ResultRowIsStored(lib, before, claim, page, links, firstId, now);
    LinkRowsAreStored(lib, before, claim, page, mapped, links, firstId, now);
    ClosingFollows(before, tasks, now);
  }

  lemma NoLinksNoRows(lib: Library, config: Config, tasks: map<Uuid, Task>, crawlId: Uuid, depth: int,
                      firstId: Uuid, now: Time)
    ensures InsertLinks(lib, config, tasks, crawlId, [], depth, firstId, now) == tasks
  {
  }

  /** The outcome a worker takes stores the answer it got. */
  lemma AnswersAreStored(lib: Library, before: Rows, claim: ClaimedTask, robotsAllow: bool,
                         scraped: Result<Page, ScrapeError>, mapped: Option<seq<Url>>, firstId: Uuid, now: Time)
    requires Current(before.tasks, claim) && claim.attempts >= 1 && forall id | id in before.tasks :: id < firstId
    ensures var outcome := WorkOutcome(lib, before.job.config, claim, robotsAllow, scraped, mapped);
            AnswerIsStored(lib, before, FinishRows(lib, before, claim, outcome, firstId, now), claim,
                           robotsAllow, scraped, mapped, now)
  {
    hide RetryDelaySeconds, BackOffTable, FinishSuccessRows, FinishFailureRows, PageIsStored, JobFollows;
    hide UrlAllowed, Filter;
    var config := before.job.config;
    match WorkOutcome(lib, config, claim, robotsAllow, scraped, mapped)
    case Success(page, links) =>
      SuccessIsStored(lib, before, claim, page, mapped, links, firstId, now);
    case Failure(error) =>
      FailureRowsAreStored(before, claim, error, now);
  }

  /** The claim still holds its task. */
  predicate HoldsTask(tasks: map<Uuid, Task>, claim: ClaimedTask) {
    && claim.id in tasks
    && tasks[claim.id].status.Active?
    && tasks[claim.id].leaseToken.Some? && tasks[claim.id].leaseToken.value == claim.leaseToken
  }
}
