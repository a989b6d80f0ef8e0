/**
 The scrape cache and the part of a scrape that is derived from a fetched page. A hit answers like
 the scrape that last stored the key, whatever was cleaned up meanwhile.
 */
module ScrapeCache {
  import opened Wrappers
  import opened Text
  import opened BlankLines
  import opened WordText
  import opened CrawlRows
  import opened Sums

  type Status = n: nat | n <= 0xFFFF

  datatype ProviderPage = ProviderPage(
    url: string, finalUrl: string, html: string, statusCode: Option<Status>, title: Option<string>,
    language: Option<string>, provider: string, rendered: bool, screenshot: Option<string>,
    origin: Origin)

  /** How a page was got; engine outcomes, action results and browser state are texts here. None of
      this is stored. */
  datatype Origin = Origin(
    engineOutcomes: seq<string>, fallbackReason: Option<string>, proxyUsed: bool,
    actions: Option<string>, browserState: Option<string>)

  /** A row of scrape_cache; status_code is an INTEGER there. */
  datatype Row = Row(
    url: string, finalUrl: string, html: string, statusCode: Option<int>, title: Option<string>,
    language: Option<string>, provider: string, rendered: bool, screenshot: Option<string>,
    fetchedAt: Time, expiresAt: Time)

  datatype ContentOptions = ContentOptions(
    onlyMainContent: bool, onlyCleanContent: bool, includeTags: seq<string>, excludeTags: seq<string>)

  /** `key` is the digest of the URL and the fetch options. */
  datatype Request = Request(key: string, formats: seq<string>, content: Option<ContentOptions>, hasActions: bool)

  /** HTML parsing and rendering: the content selection of configured_content_html, the Markdown of
      extract_markdown, its title and language, and extract_links. */
  datatype Extractor = Extractor(
    select: (string, Option<ContentOptions>) -> Result<string, ScrapeError>,
    markdown: (string, string) -> string,
    title: string -> Option<string>,
    language: string -> Option<string>,
    links: (string, string) -> seq<string>)

  datatype Response = Response(
    url: string, finalUrl: string, markdown: string, html: Option<string>, rawHtml: Option<string>,
    links: Option<seq<string>>, screenshot: Option<string>, title: Option<string>,
    language: Option<string>, statusCode: Option<Status>, provider: string, rendered: bool,
    origin: Origin)

  const SERVED := Origin([], Some("served from scrape cache"), false, None, None)

  /** What a lookup asks for, and when. */
  datatype Query = Query(key: string, now: Time, maxAgeSeconds: nat, requireScreenshot: bool)

  // ---------- The table ----------

  function RowOf(page: ProviderPage, now: Time, retentionDays: int): Row {
    Row(page.url, page.finalUrl, page.html,
        if page.statusCode.None? then None else Some(page.statusCode.value),
        page.title, page.language, page.provider, page.rendered, page.screenshot,
        now, now + retentionDays * DAY)
  }

  /** `value as u16`: keeps the low 16 bits. */
  function AsU16(n: int): Status {
    n % 0x1_0000
  }

  function PageOf(row: Row): ProviderPage {
    ProviderPage(row.url, row.finalUrl, row.html,
                 if row.statusCode.None? then None else Some(AsU16(row.statusCode.value)),
                 row.title, row.language, row.provider, row.rendered, row.screenshot, SERVED)
  }

  /** The condition of the SELECT. */
  predicate Fresh(row: Row, q: Query) {
    && row.fetchedAt >= q.now - AsI64(q.maxAgeSeconds) * SECOND
    && row.expiresAt > q.now
    && (!q.requireScreenshot || row.screenshot.Some?)
  }

  function Lookup(rows: map<string, Row>, q: Query): Option<ProviderPage> {
    if q.key in rows && Fresh(rows[q.key], q) then Some(PageOf(rows[q.key])) else None
  }

  /** BEECRAWL_SCRAPE_CACHE_RETENTION_DAYS when it is a positive 32-bit number. */
  function RetentionDays(configured: Option<int>): int {
    if configured.Some? && 0 < configured.value < 0x8000_0000 then configured.value else 7
  }

  // ---------- The history ----------

  /** What happened to the table: a page was stored, or expired rows went. */
  datatype Event =
    | Stored(key: string, page: ProviderPage, at: Time, retentionDays: int)
    | Cleaned(at: Time)

  function Put(rows: map<string, Row>, key: string, page: ProviderPage, now: Time, retentionDays: int)
    : map<string, Row>
  {
    rows[key := RowOf(page, now, retentionDays)]
  }

  function Cleanup(rows: map<string, Row>, now: Time): map<string, Row> {
    map key | key in rows && rows[key].expiresAt > now :: rows[key]
  }

  /** The row a store leaves. */
  function RowOfEvent(e: Event): Row
    requires e.Stored?
  {
    RowOf(e.page, e.at, e.retentionDays)
  }

  function After(history: seq<Event>): map<string, Row> {
    if history == [] then map[] else
    var rows := After(history[..|history| - 1]);
    match history[|history| - 1]
    case Stored(key, page, at, days) => Put(rows, key, page, at, days)
    case Cleaned(at) => Cleanup(rows, at)
  }

  /** The event that last stored the key. */
  function LastStored(history: seq<Event>, key: string): Option<Event>
    ensures LastStored(history, key).Some? ==>
              LastStored(history, key).value.Stored? && LastStored(history, key).value in history
  {
    if history == [] then None else
    var e := history[|history| - 1];
    if e.Stored? && e.key == key then Some(e) else LastStored(history[..|history| - 1], key)
  }

  /** No event is later than `now`. */
  predicate NotAfter(history: seq<Event>, now: Time) {
    forall e | e in history :: e.at <= now
  }

  // ---------- Cleaning up is invisible ----------

  /** Lookup in a table that forgets nothing. */
  function IdealLookup(history: seq<Event>, q: Query): Option<ProviderPage> {
    match LastStored(history, q.key)
    case None => None
    case Some(e) =>
      var row := RowOfEvent(e);
      if Fresh(row, q) then Some(PageOf(row)) else None
  }

  /** The row of a key is the one last stored, unless that has expired. */
  lemma {:induction false} RowIsLastStored(history: seq<Event>, key: string, now: Time)
    requires NotAfter(history, now)
    ensures var rows, last := After(history), LastStored(history, key);
            && (key in rows ==> last.Some? && rows[key] == RowOfEvent(last.value))
            && (key !in rows && last.Some? ==> RowOfEvent(last.value).expiresAt <= now)
  {
    hide RowOf;
    if history == [] {
    } else {
      var init, e := history[..|history| - 1], history[|history| - 1];
      assert history == init + [e];
      RowIsLastStored(init, key, now);
    }
  }

  /** At any time no earlier than the history, the table answers like one that forgets nothing. */
  lemma {:induction false} LookupIsIdeal(history: seq<Event>, q: Query)
    requires NotAfter(history, q.now)
    ensures Lookup(After(history), q) == IdealLookup(history, q)
  {
    hide RowOf, PageOf;
    RowIsLastStored(history, q.key, q.now);
  }

  function WithoutCleanups(history: seq<Event>): (r: seq<Event>)
    ensures forall e | e in r :: e in history
  {
    if history == [] then [] else
    var e := history[|history| - 1];
    WithoutCleanups(history[..|history| - 1]) + if e.Cleaned? then [] else [e]
  }

  lemma LastStoredOfExtended(history: seq<Event>, e: Event, key: string)
    ensures LastStored(history + [e], key) == if e.Stored? && e.key == key then Some(e) else LastStored(history, key)
  {
    assert (history + [e])[..|history|] == history;
  }

  lemma {:induction false} LastStoredWithoutCleanups(history: seq<Event>, key: string)
    ensures LastStored(WithoutCleanups(history), key) == LastStored(history, key)
  {
    hide LastStored;
    if history == [] {
    } else {
      var init, e := history[..|history| - 1], history[|history| - 1];
      assert history == init + [e];
      LastStoredWithoutCleanups(init, key);
      LastStoredOfExtended(init, e, key);
      LastStoredOfExtended(WithoutCleanups(init), e, key);
      assert e.Cleaned? ==> WithoutCleanups(history) == WithoutCleanups(init);
    }
  }

  /** No lookup can tell whether, when or how often expired rows were removed. */
  lemma CleanupIsInvisible(history: seq<Event>, q: Query)
    requires NotAfter(history, q.now)
    ensures Lookup(After(history), q) == Lookup(After(WithoutCleanups(history)), q)
  {
    hide Lookup, After, IdealLookup;
    LookupIsIdeal(history, q);
    LookupIsIdeal(WithoutCleanups(history), q);
    SameLastSameIdeal(history, WithoutCleanups(history), q);
  }

  lemma SameLastSameIdeal(history: seq<Event>, other: seq<Event>, q: Query)
    requires other == WithoutCleanups(history)
    ensures IdealLookup(history, q) == IdealLookup(other, q)
  {
    LastStoredWithoutCleanups(history, q.key);
  }

  // ---------- What a scrape derives from a page ----------

  /** The page as a scrape settles and stores it: title and language taken from the HTML where it has them. */
  function Titled(x: Extractor, page: ProviderPage): ProviderPage {
    page.(title := if x.title(page.html).Some? then x.title(page.html) else page.title,
          language := if x.language(page.html).Some? then x.language(page.html) else page.language)
  }

  predicate Wants(request: Request, format: string) {
    exists i | 0 <= i < |request.formats| :: AsciiLower(request.formats[i]) == format
  }

  /** The lookup of a scrape: only pages with a screenshot serve a request for one. */
  function QueryOf(request: Request, now: Time, maxAgeSeconds: nat): Query {
    Query(request.key, now, maxAgeSeconds, Wants(request, "screenshot"))
  }

  predicate StartsWith(s: string, prefix: string) {
    prefix <= s
  }

  /** extract_configured_markdown: the Markdown of the selected content under the title of the
      whole page. */
  function ConfiguredMarkdown(x: Extractor, html: string, selected: string, baseUrl: string): string {
    var markdown := x.markdown(selected, baseUrl);
    match x.title(html)
    case Some(title) =>
      if title != "" && !StartsWith(TrimStart(markdown), "# " + title) then
        Collapse("# " + title + "\n\n" + Trim(markdown))
      else Collapse(markdown)
    case None => Collapse(markdown)
  }

  /** The selected content and its Markdown, when there is any. */
  function Derive(x: Extractor, page: ProviderPage, content: Option<ContentOptions>)
    : Result<(string, string), ScrapeError>
  {
    match x.select(page.html, content)
    case Err(e) => Err(e)
    case Ok(selected) =>
      var markdown := ConfiguredMarkdown(x, page.html, selected, page.finalUrl);
      if Trim(markdown) == "" then Err(EmptyContent) else Ok((selected, markdown))
  }

  function DataUrl(image: string): string {
    if StartsWith(image, "data:") then image else "data:image/png;base64," + image
  }

  /** The answer from a page whose title and language are settled. */
  function Answer(x: Extractor, page: ProviderPage, selected: string, markdown: string, request: Request)
    : Result<Response, ScrapeError>
  {
    if Wants(request, "screenshot") && page.screenshot.None? then
      Err(RenderFailed("screenshot requires browser rendering"))
    else
      Ok(Response(
        page.url, page.finalUrl, markdown,
        if Wants(request, "html") then Some(selected) else None,
        if Wants(request, "rawhtml") || Wants(request, "raw_html") then Some(page.html) else None,
        if Wants(request, "links") then Some(x.links(selected, page.finalUrl)) else None,
        if page.screenshot.None? then None else Some(DataUrl(page.screenshot.value)),
        page.title, page.language, page.statusCode, page.provider, page.rendered, page.origin))
  }

  /** What a scrape answers on this page. */
  function Respond(x: Extractor, page: ProviderPage, request: Request): Result<Response, ScrapeError> {
    match Derive(x, page, request.content)
    case Err(e) => Err(e)
    case Ok(derived) => Answer(x, Titled(x, page), derived.0, derived.1, request)
  }

  /** A heading with the title of the page goes in front of the Markdown unless that begins with it; nothing
      else of either is touched but whitespace. */
  lemma TitleLeadsMarkdown(x: Extractor, html: string, selected: string, baseUrl: string)
    ensures var (markdown, title) := (x.markdown(selected, baseUrl), x.title(html));
            Words(ConfiguredMarkdown(x, html, selected, baseUrl)) ==
              if title.Some? && title.value != "" && !("# " + title.value <= TrimStart(markdown))
              then ["#"] + Words(title.value) + Words(markdown) else Words(markdown)
  {
    hide Words, Collapse, Trim, TrimStart, Blank;
    var markdown := x.markdown(selected, baseUrl);
    CollapseKeepsWords(markdown);
    WordsOfTrim(markdown);
    if x.title(html).Some? {
      var title := x.title(html).value;
      CollapseKeepsWords("# " + title + "\n\n" + Trim(markdown));
      NewlineIsBlank();
      HashIsWord();
      WordsApart("#", " ", title);
      assert "# " + title == "#" + " " + title;
      WordsApart("# " + title, "\n\n", Trim(markdown));
    }
  }

  lemma HashIsWord()
    ensures Words("#") == ["#"]
  {
    assert IsWord("#");
    WordIsOne("#");
  }

  ghost predicate Asks(request: Request, format: string) {
    exists f | f in request.formats :: AsciiLower(f) == format
  }

  /** An answer part by part. Formats are asked for in any letter case; `rawHtml` has two names. */
  lemma AnswerIs(x: Extractor, page: ProviderPage, request: Request)
    ensures var r := Respond(x, page, request);
            match x.select(page.html, request.content)
            case Err(e) => r == Err(e)
            case Ok(selected) =>
              var markdown := ConfiguredMarkdown(x, page.html, selected, page.finalUrl);
              && (Blank(markdown) <==> r == Err(EmptyContent))
              && (!Blank(markdown) && Asks(request, "screenshot") && page.screenshot.None? ==>
                    r == Err(RenderFailed("screenshot requires browser rendering")))
              && (!Blank(markdown) && (Asks(request, "screenshot") ==> page.screenshot.Some?) ==>
                    && r.Ok? && r.value.markdown == markdown
                    && r.value.html == (if Asks(request, "html") then Some(selected) else None)
                    && r.value.rawHtml == (if Asks(request, "rawhtml") || Asks(request, "raw_html")
                                           then Some(page.html) else None)
                    && r.value.links == (if Asks(request, "links")
                                         then Some(x.links(selected, page.finalUrl)) else None)
                    && (page.screenshot.None? <==> r.value.screenshot.None?)
                    && (page.screenshot.Some? ==>
                          r.value.screenshot.value == if "data:" <= page.screenshot.value then page.screenshot.value
                                                      else "data:image/png;base64," + page.screenshot.value)
                    && r.value.title == (if x.title(page.html).Some? then x.title(page.html) else page.title)
                    && r.value.language == (if x.language(page.html).Some?
                                            then x.language(page.html) else page.language)
                    && r.value.url == page.url && r.value.finalUrl == page.finalUrl
                    && r.value.statusCode == page.statusCode && r.value.provider == page.provider
                    && r.value.rendered == page.rendered && r.value.origin == page.origin)
  {
    hide ConfiguredMarkdown, Wants, Asks, Trim;
    forall format ensures Wants(request, format) <==> Asks(request, format) {
      WantsIsAsks(request, format);
    }
    match x.select(page.html, request.content)
    case Err(e) =>
    case Ok(selected) => WordsOfTrim(ConfiguredMarkdown(x, page.html, selected, page.finalUrl));
  }

  /** Equal up to how the page was got. */
  predicate SameAnswer(a: Result<Response, ScrapeError>, b: Result<Response, ScrapeError>) {
    match (a, b)
    case (Ok(r), Ok(s)) => r.(origin := s.origin) == s
    case (Err(e), Err(f)) => e == f
    case _ => false
  }

  /** Storing a page and reading it back changes nothing but the note how it was got. */
  lemma StoredPageReadsBack(page: ProviderPage, at: Time, days: int)
    ensures PageOf(RowOf(page, at, days)) == page.(origin := SERVED)
  {
  }

  lemma TitledTwice(x: Extractor, page: ProviderPage)
    ensures Titled(x, Titled(x, page)) == Titled(x, page)
  {
  }

  /** A page that was stored and read back answers every request as it did before, only that the
      answer says where it came from. */
  lemma ServedPageAnswersTheSame(x: Extractor, page: ProviderPage, at: Time, days: int, request: Request)
    ensures var served := Respond(x, PageOf(RowOf(page, at, days)), request);
            && SameAnswer(served, Respond(x, page, request))
            && (served.Ok? ==> served.value.origin == SERVED)
  {
    hide RowOf, PageOf, ConfiguredMarkdown, Wants, DataUrl;
    StoredPageReadsBack(page, at, days);
  }

  /** Settling the title and language before storing changes no answer. */
  lemma SettledPageAnswersTheSame(x: Extractor, page: ProviderPage, request: Request)
    ensures Respond(x, Titled(x, page), request) == Respond(x, page, request)
  {
    hide ConfiguredMarkdown, Wants, DataUrl;
    TitledTwice(x, page);
  }

  lemma WantsIsAsks(request: Request, format: string)
    ensures Wants(request, format) <==> Asks(request, format)
  {
    hide AsciiLower;
    if f :| f in request.formats && AsciiLower(f) == format {
      var i :| 0 <= i < |request.formats| && request.formats[i] == f;
    }
  }

  /** When a request is served from the cache and with which page: the one last stored under its key, while
      that is neither too old for the request nor past its retention, nor without the screenshot the
      request asks for. */
  lemma HitExactlyWhen(history: seq<Event>, request: Request, now: Time, maxAgeSeconds: nat)
    requires NotAfter(history, now) && maxAgeSeconds < 0x8000_0000_0000_0000
    ensures var (hit, last) := (IdealLookup(history, QueryOf(request, now, maxAgeSeconds)),
                                LastStored(history, request.key));
            && hit == Lookup(After(history), QueryOf(request, now, maxAgeSeconds))
            && (hit.Some? <==>
                  && last.Some?
                  && now - last.value.at <= maxAgeSeconds * 1_000_000
                  && now < last.value.at + last.value.retentionDays * 86_400_000_000
                  && (Asks(request, "screenshot") ==> last.value.page.screenshot.Some?))
            && (hit.Some? ==>
                  hit.value == last.value.page.(origin :=
                    Origin([], Some("served from scrape cache"), false, None, None)))
  {
    hide Lookup, After, Wants, Asks;
    WantsIsAsks(request, "screenshot");
    LookupIsIdeal(history, QueryOf(request, now, maxAgeSeconds));
  }

  /** A hit answers as the scrape that last stored the key would answer the same request: `fetched`
      is the page that scrape fetched. */
  lemma HitAnswersAsLastStored(x: Extractor, history: seq<Event>, now: Time, maxAgeSeconds: nat, request: Request,
                               fetched: ProviderPage)
    requires NotAfter(history, now)
    requires Lookup(After(history), QueryOf(request, now, maxAgeSeconds)).Some?
    ensures LastStored(history, request.key).Some?
    ensures var page, e := Lookup(After(history), QueryOf(request, now, maxAgeSeconds)).value,
                           LastStored(history, request.key).value;
            && now - AsI64(maxAgeSeconds) * 1_000_000 <= e.at <= now
            && now < e.at + e.retentionDays * 86_400_000_000
            && SameAnswer(Respond(x, page, request), Respond(x, e.page, request))
            && (e.page == Titled(x, fetched) ==>
                  SameAnswer(Respond(x, page, request), Respond(x, fetched, request)))
  {
    hide Lookup, After, Respond, SameAnswer, Titled, PageOf, Wants, AsI64;
    LookupIsIdeal(history, QueryOf(request, now, maxAgeSeconds));
    var e := LastStored(history, request.key).value;
    ServedPageAnswersTheSame(x, e.page, e.at, e.retentionDays, request);
    SettledPageAnswersTheSame(x, fetched, request);
  }

  /** The key does not know of actions: a page stored by a scrape with actions answers, while it is
      fresh, a later request for the same key without them, as the actions left it. */
  lemma PageOfActionsIsServed(x: Extractor, history: seq<Event>, acted: Request, plain: Request, fetched: ProviderPage,
                              at: Time, days: int, now: Time, maxAgeSeconds: nat)
    requires acted.key == plain.key && acted.hasActions && !plain.hasActions
    requires NotAfter(history, now) && at <= now
    requires Fresh(RowOf(Titled(x, fetched), at, days), QueryOf(plain, now, maxAgeSeconds))
    ensures var later := history + [Stored(acted.key, Titled(x, fetched), at, days)];
            var hit := Lookup(After(later), QueryOf(plain, now, maxAgeSeconds));
            hit.Some? && SameAnswer(Respond(x, hit.value, plain), Respond(x, fetched, plain))
  {
    hide Lookup, After, Respond, SameAnswer, Titled, PageOf, RowOf, Wants, Fresh;
    var e := Stored(acted.key, Titled(x, fetched), at, days);
    LookupIsIdeal(history + [e], QueryOf(plain, now, maxAgeSeconds));
    LastStoredOfExtended(history, e, plain.key);
    ServedPageAnswersTheSame(x, e.page, at, days, plain);
    SettledPageAnswersTheSame(x, fetched, plain);
  }

  // ---------- The store ----------

  class CacheStore {
    var rows: map<string, Row>
    ghost var history: seq<Event>

    ghost predicate Valid()
      reads this
    {
      rows == After(history)
    }

    constructor ()
      ensures Valid() && history == []
    {
      rows := map[];
      history := [];
    }

    /** get */
    method Get(q: Query) returns (page: Option<ProviderPage>)
      requires Valid() && NotAfter(history, q.now)
      ensures page == IdealLookup(history, q)
    {
      LookupIsIdeal(history, q);
      if q.key !in rows || !Fresh(rows[q.key], q) {
        return None;
      }
      return Some(PageOf(rows[q.key]));
    }

    /** put */
    method PutPage(key: string, page: ProviderPage, configuredDays: Option<int>, now: Time)
      requires Valid()
      modifies this
      ensures Valid()
      ensures history == old(history) + [Stored(key, page, now, RetentionDays(configuredDays))]
      ensures rows == old(rows)[key := RowOf(page, now, RetentionDays(configuredDays))]
      ensures rows[key].fetchedAt == now
      ensures configuredDays.Some? && 0 < configuredDays.value < 0x8000_0000 ==>
                rows[key].expiresAt == now + configuredDays.value * 86_400_000_000
      ensures configuredDays.None? || configuredDays.value <= 0 || configuredDays.value >= 0x8000_0000 ==>
                rows[key].expiresAt == now + 604_800_000_000
    {
      var days := RetentionDays(configuredDays);
      rows := rows[key := RowOf(page, now, days)];
      history := history + [Stored(key, page, now, days)];
      assert history[..|history| - 1] == old(history);
    }

    /** cleanup_expired */
    method CleanupExpired(now: Time) returns (deleted: nat)
      requires Valid()
      modifies this
      ensures Valid() && history == old(history) + [Cleaned(now)]
      ensures deleted == |old(rows)| - |rows|
      ensures forall key :: key in rows <==> key in old(rows) && old(rows)[key].expiresAt > now
      ensures forall key | key in rows :: rows[key] == old(rows)[key]
    {
      var before := rows;
      rows := map key | key in before && before[key].expiresAt > now :: before[key];
      history := history + [Cleaned(now)];
      assert history[..|history| - 1] == old(history);
      SubsetIsNoLarger(rows.Keys, before.Keys);
      CountOfMap(rows);
      CountOfMap(before);
      deleted := |before| - |rows|;
    }
  }

  lemma CountOfMap(m: map<string, Row>)
    ensures |m| == |m.Keys|
  {
  }

  /** scrape_with_cache. `checked` is the verdict on the URL and `fetched` what the engines return if
      asked; a fetched page is stored at some time no earlier than the lookup, with its title and
      language settled. */
  method ScrapeWithCache(x: Extractor, cache: CacheStore, request: Request, checked: Result<(), ScrapeError>,
                         fetched: Result<ProviderPage, ScrapeError>, maxAgeSeconds: nat, configuredDays: Option<int>,
                         now: Time, later: Time)
    returns (response: Result<Response, ScrapeError>)
    requires cache.Valid() && NotAfter(cache.history, now) && now <= later
    modifies cache
    ensures cache.Valid() && NotAfter(cache.history, later)
    ensures checked.Err? ==> response == Err(checked.error) && cache.history == old(cache.history)
    ensures var hit := if request.hasActions then None
                       else IdealLookup(old(cache.history), QueryOf(request, now, maxAgeSeconds));
            checked.Ok? ==>
            && (hit.Some? ==>
                  && cache.history == old(cache.history)
                  && LastStored(cache.history, request.key).Some?
                  && SameAnswer(response, Respond(x, LastStored(cache.history, request.key).value.page, request)))
            && (hit.None? && fetched.Err? ==> response == Err(fetched.error) && cache.history == old(cache.history))
            && (hit.None? && fetched.Ok? ==>
                  && response == Respond(x, fetched.value, request)
                  && cache.history == old(cache.history)
                       + if Derive(x, fetched.value, request.content).Err? then []
                         else [Stored(request.key, Titled(x, fetched.value), later, RetentionDays(configuredDays))])
  {
    hide ConfiguredMarkdown, Answer, IdealLookup, Titled, SameAnswer, Wants, After;
    if checked.Err? {
      return Err(checked.error);
    }
    var cached: Option<ProviderPage> := None;
    if !request.hasActions {
      cached := cache.Get(QueryOf(request, now, maxAgeSeconds));
    }
    var page: ProviderPage;
    if cached.Some? {
      page := cached.value;
      LookupIsIdeal(cache.history, QueryOf(request, now, maxAgeSeconds));
      HitAnswersAsLastStored(x, cache.history, now, maxAgeSeconds, request, page);
    } else {
      if fetched.Err? {
        return Err(fetched.error);
      }
      page := fetched.value;
    }
    var selected := x.select(page.html, request.content);
    if selected.Err? {
      return Err(selected.error);
    }
    var markdown := ConfiguredMarkdown(x, page.html, selected.value, page.finalUrl);
    if Trim(markdown) == "" {
      return Err(EmptyContent);
    }
    var settled := Titled(x, page);
    if cached.None? {
      cache.PutPage(request.key, settled, configuredDays, later);
    }
    response := Answer(x, settled, selected.value, markdown, request);
  }
}
