/**
 The per-key rate limiter: a sliding window of one minute and a cap on outstanding permits, kept
 in a map that is pruned lazily and from which idle keys are evicted. It answers like an ideal
 limiter that remembers everything.
 */
module RateLimits {
  import opened Sequences
  import opened Wrappers

  /** Nanoseconds, as in std::time::Instant. */
  type Time = int
  const SECOND: Time := 1_000_000_000
  const WINDOW: Time := 60 * SECOND
  const IDLE: Time := 300 * SECOND

  datatype KeyState = KeyState(requests: seq<Time>, active: nat, lastSeen: Option<Time>)

  datatype Limits = Limits(requestsPerMinute: nat, maxConcurrency: nat)

  datatype Verdict = Admitted | RateLimited(retryAfter: int) | ConcurrencyLimited

  /** `RateLimiter::new` raises both limits to at least one. */
  predicate Sane(limits: Limits) {
    limits.requestsPerMinute >= 1 && limits.maxConcurrency >= 1
  }

  /** `duration_since`, which is zero for a later instant. */
  function Since(now: Time, then_: Time): Time {
    if now >= then_ then now - then_ else 0
  }

  // ---------- The ideal limiter ----------

  datatype Event =
    | Answered(key: string, at: Time, verdict: Verdict)
    | Released(key: string, at: Time)

  function Admissions(history: seq<Event>, key: string): seq<Time> {
    if history == [] then [] else
    var e := history[|history| - 1];
    Admissions(history[..|history| - 1], key)
      + if e.Answered? && e.key == key && e.verdict.Admitted? then [e.at] else []
  }

  function Releases(history: seq<Event>, key: string): nat {
    if history == [] then 0 else
    var e := history[|history| - 1];
    Releases(history[..|history| - 1], key) + if e.Released? && e.key == key then 1 else 0
  }

  /** Permits of the key that are still held. */
  function Outstanding(history: seq<Event>, key: string): int {
    |Admissions(history, key)| - Releases(history, key)
  }

  /** The admissions less than a minute old. */
  function Recent(times: seq<Time>, now: Time): seq<Time> {
    if times == [] then []
    else if Since(now, times[0]) < WINDOW then [times[0]] + Recent(times[1..], now)
    else Recent(times[1..], now)
  }

  function RetryAfter(oldest: Time, now: Time): int {
    var left := 60 - Since(now, oldest) / SECOND;
    if left < 1 then 1 else left
  }

  /** The verdict on the whole history: the cap first, then the window. */
  function IdealVerdict(limits: Limits, history: seq<Event>, key: string, now: Time): Verdict
    requires Sane(limits)
  {
    if Outstanding(history, key) >= limits.maxConcurrency then ConcurrencyLimited else
    var recent := Recent(Admissions(history, key), now);
    if |recent| >= limits.requestsPerMinute then RateLimited(RetryAfter(recent[0], now)) else Admitted
  }

  predicate NotEarlier(now: Time, history: seq<Event>) {
    history != [] ==> now >= history[|history| - 1].at
  }

  /** Times do not decrease. */
  ghost predicate Ordered(history: seq<Event>) {
    history == [] ||
    var n := |history| - 1;
    Ordered(history[..n]) && NotEarlier(history[n].at, history[..n])
  }

  /** A permit is only released by its holder. */
  ghost predicate Held(history: seq<Event>) {
    history == [] ||
    var n := |history| - 1;
    && Held(history[..n])
    && (history[n].Released? ==> Outstanding(history[..n], history[n].key) > 0)
  }

  ghost predicate Legal(history: seq<Event>) {
    Ordered(history) && Held(history)
  }

  /** Every answer in the history is the ideal one. */
  ghost predicate IdeallyAnswered(limits: Limits, history: seq<Event>)
    requires Sane(limits)
  {
    history == [] ||
    var n := |history| - 1;
    && IdeallyAnswered(limits, history[..n])
    && (history[n].Answered? ==>
          history[n].verdict == IdealVerdict(limits, history[..n], history[n].key, history[n].at))
  }

  lemma Extended(history: seq<Event>, e: Event, key: string)
    ensures (history + [e])[..|history|] == history
    ensures Admissions(history + [e], key) == Admissions(history, key)
              + if e.Answered? && e.key == key && e.verdict.Admitted? then [e.at] else []
    ensures Releases(history + [e], key) == Releases(history, key) + if e.Released? && e.key == key then 1 else 0
  {
    assert (history + [e])[..|history|] == history;
  }

  ghost predicate Sorted(times: seq<Time>) {
    forall a, b | 0 <= a <= b < |times| :: times[a] <= times[b]
  }

  lemma {:induction false} AdmissionsSorted(history: seq<Event>, key: string)
    requires Legal(history)
    ensures Sorted(Admissions(history, key))
    ensures forall i | 0 <= i < |Admissions(history, key)| ::
              history != [] && Admissions(history, key)[i] <= history[|history| - 1].at
  {
    if history == [] {
    } else {
      var front := history[..|history| - 1];
      AdmissionsSorted(front, key);
      assert forall i | 0 <= i < |Admissions(front, key)| ::
        Admissions(front, key)[i] <= history[|history| - 1].at;
    }
  }

  /** In a sorted list the recent times are a suffix. */
  lemma {:induction false} RecentIsSuffix(times: seq<Time>, now: Time)
    requires Sorted(times)
    ensures |Recent(times, now)| <= |times|
    ensures Recent(times, now) == times[|times| - |Recent(times, now)|..]
    ensures forall i | 0 <= i < |times| :: Since(now, times[i]) < WINDOW <==> i >= |times| - |Recent(times, now)|
  {
    if times == [] {
    } else {
      RecentIsSuffix(times[1..], now);
      assert times == [times[0]] + times[1..];
      if Since(now, times[0]) < WINDOW {
        LaterIsRecent(times, now);
      }
    }
  }

  /** In a sorted list everything behind a recent time is recent. */
  lemma LaterIsRecent(times: seq<Time>, now: Time)
    requires Sorted(times) && times != [] && Since(now, times[0]) < WINDOW
    ensures forall i | 0 <= i < |times| :: Since(now, times[i]) < WINDOW
  {
    assert forall i | 0 <= i < |times| :: times[0] <= times[i];
  }

  // ---------- The steps of the implementation ----------

  type States = map<string, KeyState>

  predicate Keeps(state: KeyState, now: Time) {
    state.active > 0 || (state.lastSeen.Some? && Since(now, state.lastSeen.value) < IDLE)
  }

  /** Drop requests from the front while they are a minute old. */
  function Pruned(requests: seq<Time>, now: Time): seq<Time> {
    if requests != [] && Since(now, requests[0]) >= WINDOW then Pruned(requests[1..], now) else requests
  }

  /** The entry of a key holds a suffix of its admissions that covers the last minute, and its
      permits; unless it is new, it was last touched no earlier than the last admission. */
  ghost predicate EntryOk(entry: KeyState, all: seq<Time>, outstanding: int, now: Time) {
    && entry.active == outstanding
    && |entry.requests| <= |all| && entry.requests == all[|all| - |entry.requests|..]
    && (forall i | 0 <= i < |all| - |entry.requests| :: now - all[i] >= WINDOW)
  }

  /** How the table stands for a history; a key without an entry has no permit out and no
      admission within the last minute. */
  ghost predicate Agrees(states: States, history: seq<Event>, key: string, now: Time) {
    var all := Admissions(history, key);
    && EntryOk(EntryOf(states, key), all, Outstanding(history, key), now)
    && (key in states && all != [] ==>
          states[key].lastSeen.Some? && all[|all| - 1] <= states[key].lastSeen.value)
  }

  /** The entry of a key, a fresh one if there is none. */
  function EntryOf(states: States, key: string): KeyState {
    if key in states then states[key] else KeyState([], 0, None)
  }

  /** The decision on the entry of the key. */
  function Decide(limits: Limits, entry: KeyState, now: Time): (KeyState, Verdict) {
    var requests := Pruned(entry.requests, now);
    if entry.active >= limits.maxConcurrency then
      (entry.(requests := requests), ConcurrencyLimited)
    else if requests != [] && |requests| >= limits.requestsPerMinute then
      (entry.(requests := requests), RateLimited(RetryAfter(requests[0], now)))
    else
      (KeyState(requests + [now], entry.active + 1, Some(now)), Admitted)
  }

  function Kept(states: States, now: Time): States {
    map k | k in states && Keeps(states[k], now) :: states[k]
  }

  /** try_acquire on the table. */
  function AcquireStep(limits: Limits, states: States, key: string, now: Time): (States, Verdict) {
    var kept := Kept(states, now);
    var (entry, verdict) := Decide(limits, EntryOf(kept, key), now);
    (kept[key := entry], verdict)
  }

  /** `saturating_sub(1)` */
  function Decrement(n: nat): nat {
    if n > 0 then n - 1 else 0
  }

  /** Dropping a permit. */
  function DropStep(states: States, key: string, now: Time): States {
    if key !in states then states else
    var state := states[key];
    states[key := state.(active := Decrement(state.active), lastSeen := Some(now))]
  }

  // ---------- The implementation agrees with the ideal ----------

  /** `now` is not before any admission of the key. */
  ghost predicate Follows(history: seq<Event>, key: string, now: Time) {
    forall i | 0 <= i < |Admissions(history, key)| :: Admissions(history, key)[i] <= now
  }

  lemma {:induction false} PrunedIsRecent(requests: seq<Time>, now: Time)
    requires Sorted(requests)
    ensures Pruned(requests, now) == Recent(requests, now)
  {
    if requests == [] {
    } else {
      if Since(now, requests[0]) >= WINDOW {
        PrunedIsRecent(requests[1..], now);
      } else {
        RecentIsSuffix(requests, now);
      }
    }
  }

  /** Old times in front do not count. */
  lemma {:induction false} RecentOfSuffix(times: seq<Time>, k: nat, now: Time)
    requires k <= |times| && forall i | 0 <= i < k :: Since(now, times[i]) >= WINDOW
    ensures Recent(times, now) == Recent(times[k..], now)
  {
    if k == 0 {
    } else {
      RecentOfSuffix(times[1..], k - 1, now);
      assert times[1..][k - 1..] == times[k..];
    }
  }

  /** Eviction loses nothing: a key that is dropped is as good as one never seen. */
  lemma EvictionIsInvisible(states: States, history: seq<Event>, key: string, before: Time, now: Time)
    requires Agrees(states, history, key, before) && before <= now
    requires Legal(history) && Follows(history, key, now)
    ensures Agrees(Kept(states, now), history, key, now)
  {
    AdmissionsSorted(history, key);
    var all := Admissions(history, key);
    if key in states && !Keeps(states[key], now) && all != [] {
      assert forall i | 0 <= i < |all| :: all[i] <= all[|all| - 1];
    }
  }

  /** The pruned window of the entry is the ideal window, and a suffix of all admissions. */
  lemma WindowIsIdeal(entry: KeyState, all: seq<Time>, outstanding: int, now: Time)
    requires EntryOk(entry, all, outstanding, now)
    requires Sorted(all) && forall i | 0 <= i < |all| :: all[i] <= now
    ensures var recent := Pruned(entry.requests, now);
            && recent == Recent(all, now)
            && |recent| <= |all| && recent == all[|all| - |recent|..]
            && forall i | 0 <= i < |all| - |recent| :: now - all[i] >= WINDOW
  {
    RecentOfSuffix(all, |all| - |entry.requests|, now);
    PrunedIsRecent(entry.requests, now);
    RecentIsSuffix(all, now);
  }

  lemma DecisionIsIdeal(limits: Limits, entry: KeyState, history: seq<Event>, key: string, now: Time)
    requires Sane(limits) && Sorted(Admissions(history, key)) && Follows(history, key, now)
    requires EntryOk(entry, Admissions(history, key), Outstanding(history, key), now)
    ensures var (after, verdict) := Decide(limits, entry, now);
            && verdict == IdealVerdict(limits, history, key, now)
            && var history' := history + [Answered(key, now, verdict)];
               EntryOk(after, Admissions(history', key), Outstanding(history', key), now)
  {
    hide Recent, Pruned, RetryAfter, Admissions, Releases, EntryOk, Sorted;
    var all := Admissions(history, key);
    FollowsAll(history, key, now);
    WindowIsIdeal(entry, all, Outstanding(history, key), now);
    EntryAfter(entry, all, Outstanding(history, key), now);
    var (after, verdict) := Decide(limits, entry, now);
    Extended(history, Answered(key, now, verdict), key);
    NothingAdded(all);
  }

  lemma FollowsAll(history: seq<Event>, key: string, now: Time)
    requires Follows(history, key, now)
    ensures forall i | 0 <= i < |Admissions(history, key)| :: Admissions(history, key)[i] <= now
  {
  }

  /** The entry stays right when it is only pruned, and when an admission is added to it. */
  lemma EntryAfter(entry: KeyState, all: seq<Time>, outstanding: int, now: Time)
    requires EntryOk(entry, all, outstanding, now)
    requires Sorted(all) && forall i | 0 <= i < |all| :: all[i] <= now
    ensures var recent := Pruned(entry.requests, now);
            && EntryOk(entry.(requests := recent), all, outstanding, now)
            && EntryOk(KeyState(recent + [now], entry.active + 1, Some(now)), all + [now], outstanding + 1, now)
            && entry.active == outstanding
  {
    hide Recent, Pruned, Sorted;
    WindowIsIdeal(entry, all, outstanding, now);
    var recent := Pruned(entry.requests, now);
    SuffixGrows(all, |all| - |recent|, now);
  }

  lemma SuffixGrows(all: seq<Time>, k: nat, now: Time)
    requires k <= |all|
    ensures (all + [now])[k..] == all[k..] + [now]
    ensures forall i | 0 <= i < k :: (all + [now])[i] == all[i]
  {
  }

  lemma AcquireIsIdeal(limits: Limits, states: States, history: seq<Event>, key: string, before: Time, now: Time)
    requires Sane(limits) && Legal(history)
    requires Agrees(states, history, key, before) && before <= now && Follows(history, key, now)
    ensures AcquireStep(limits, states, key, now).1 == IdealVerdict(limits, history, key, now)
    ensures var (after, verdict) := AcquireStep(limits, states, key, now);
            Agrees(after, history + [Answered(key, now, verdict)], key, now)
  {
    hide EntryOk, IdealVerdict, Legal, Kept, Pruned;
    EvictionIsInvisible(states, history, key, before, now);
    AdmissionsSorted(history, key);
    var entry := EntryOf(Kept(states, now), key);
    DecisionIsIdeal(limits, entry, history, key, now);
    var (after, verdict) := Decide(limits, entry, now);
    Extended(history, Answered(key, now, verdict), key);
    NewEntryIsAdmitted(limits, now);
  }

  lemma NewEntryIsAdmitted(limits: Limits, now: Time)
    requires Sane(limits)
    ensures Decide(limits, KeyState([], 0, None), now).1 == Admitted
  {
  }

  /** Other keys do not notice. */
  lemma OtherKeysUnaffected(limits: Limits, states: States, history: seq<Event>, key: string, other: string,
                            before: Time, now: Time, verdict: Verdict)
    requires Legal(history) && key != other
    requires Agrees(states, history, other, before) && before <= now && Follows(history, other, now)
    ensures Agrees(AcquireStep(limits, states, key, now).0, history + [Answered(key, now, verdict)], other, now)
  {
    EvictionIsInvisible(states, history, other, before, now);
    Extended(history, Answered(key, now, verdict), other);
  }

  lemma DropAgrees(states: States, history: seq<Event>, key: string, other: string, before: Time, now: Time)
    requires Agrees(states, history, other, before) && before <= now
    requires Legal(history) && Follows(history, other, now) && Outstanding(history, key) > 0
    ensures Agrees(DropStep(states, key, now), history + [Released(key, now)], other, now)
  {
    hide Admissions, Releases, Legal, EntryOk;
    Extended(history, Released(key, now), other);
    NothingAdded(Admissions(history, other));
    EntryReleased(EntryOf(states, other), Admissions(history, other), Outstanding(history, other), before, now);
  }

  /** Time passing and a permit coming back leave the window of an entry right. */
  lemma EntryReleased(entry: KeyState, all: seq<Time>, outstanding: int, before: Time, now: Time)
    requires EntryOk(entry, all, outstanding, before) && before <= now
    ensures EntryOk(entry, all, outstanding, now)
    ensures outstanding > 0 ==>
              EntryOk(entry.(active := Decrement(entry.active), lastSeen := Some(now)), all, outstanding - 1, now)
    ensures entry.active == outstanding
  {
  }

  // ---------- What the ideal limiter guarantees ----------

  /** The answers to one key depend on the events of that key alone. */
  function Only(history: seq<Event>, key: string): seq<Event> {
    if history == [] then [] else
    Only(history[..|history| - 1], key)
      + if history[|history| - 1].key == key then [history[|history| - 1]] else []
  }

  lemma {:induction false} OnlyKeepsEvents(history: seq<Event>, key: string)
    ensures Admissions(Only(history, key), key) == Admissions(history, key)
    ensures Releases(Only(history, key), key) == Releases(history, key)
  {
    if history == [] {
    } else {
      var n := |history| - 1;
      OnlyKeepsEvents(history[..n], key);
      Extended(Only(history[..n], key), history[n], key);
      if history[n].key != key {
        assert Only(history, key) == Only(history[..n], key);
      }
    }
  }

  lemma KeysAreIndependent(limits: Limits, history: seq<Event>, key: string, now: Time)
    requires Sane(limits)
    ensures IdealVerdict(limits, history, key, now) == IdealVerdict(limits, Only(history, key), key, now)
  {
    OnlyKeepsEvents(history, key);
  }

  /** No window of a minute holds more admissions of a key than the limit allows: any admission
      is at least a minute after the one `requestsPerMinute` places before it. */
  lemma {:induction false} WindowsAreBounded(limits: Limits, history: seq<Event>, key: string, i: nat)
    requires Sane(limits) && Legal(history) && IdeallyAnswered(limits, history)
    requires i + limits.requestsPerMinute < |Admissions(history, key)|
    ensures Admissions(history, key)[i + limits.requestsPerMinute] - Admissions(history, key)[i] >= 60_000_000_000
  {
    var n := |history| - 1;
    var front, all := Admissions(history[..n], key), Admissions(history, key);
    if i + limits.requestsPerMinute < |front| {
      WindowsAreBounded(limits, history[..n], key, i);
    } else {
      AdmissionsSorted(history[..n], key);
      RecentIsSuffix(front, history[n].at);
      assert Since(history[n].at, front[i]) >= WINDOW;
    }
  }

  lemma RecentWithinLimit(limits: Limits, history: seq<Event>, key: string, now: Time)
    requires Sane(limits) && Legal(history) && IdeallyAnswered(limits, history) && Follows(history, key, now)
    ensures |Recent(Admissions(history, key), now)| <= limits.requestsPerMinute
  {
    var all := Admissions(history, key);
    AdmissionsSorted(history, key);
    RecentIsSuffix(all, now);
    if |Recent(all, now)| > limits.requestsPerMinute {
      WindowsAreBounded(limits, history, key, |all| - 1 - limits.requestsPerMinute);
    }
  }

  /** The ideal limiter in numbers: the cap counts the permits still held, and below it a request is refused
      exactly when the last admission but as many as a minute allows is less than a minute old. */
  lemma IdealVerdictIs(limits: Limits, history: seq<Event>, key: string, now: Time)
    requires Sane(limits) && Legal(history)
    ensures var (all, verdict) := (Admissions(history, key), IdealVerdict(limits, history, key, now));
            && (verdict.ConcurrencyLimited? <==> |all| - Releases(history, key) >= limits.maxConcurrency)
            && (verdict.RateLimited? <==>
                  && |all| - Releases(history, key) < limits.maxConcurrency
                  && |all| >= limits.requestsPerMinute
                  && now - all[|all| - limits.requestsPerMinute] < 60_000_000_000)
  {
    hide Admissions, Releases, Recent, RetryAfter;
    AdmissionsSorted(history, key);
    RecentIsSuffix(Admissions(history, key), now);
  }

  /** The answer to a refused key is the least number of seconds that is enough: r is between 1 and 60; r
      seconds later, with no admission in between, it is not rate limited, and any fewer seconds later it
      is not admitted. */
  lemma RetryAfterSuffices(limits: Limits, history: seq<Event>, between: seq<Event>, key: string, now: Time)
    requires Sane(limits) && Legal(history) && IdeallyAnswered(limits, history) && NotEarlier(now, history)
    requires IdealVerdict(limits, history, key, now).RateLimited?
    requires Admissions(history + between, key) == Admissions(history, key)
    ensures var r := IdealVerdict(limits, history, key, now).retryAfter;
            && 1 <= r <= 60
            && !IdealVerdict(limits, history + between, key, now + r * 1_000_000_000).RateLimited?
            && forall s | 0 <= s < r :: !IdealVerdict(limits, history + between, key, now + s * 1_000_000_000).Admitted?
  {
    hide Admissions, Releases, Recent, RetryAfter, Ordered, Held, IdeallyAnswered, Sorted;
    AdmissionsSorted(history, key);
    LatestIsLast(history, key, now);
    RecentWithinLimit(limits, history, key, now);
    RetryOnTimes(Admissions(history, key), now, limits.requestsPerMinute);
  }

  lemma LatestIsLast(history: seq<Event>, key: string, now: Time)
    requires Legal(history) && NotEarlier(now, history)
    ensures Follows(history, key, now)
    ensures forall i | 0 <= i < |Admissions(history, key)| :: Admissions(history, key)[i] <= now
  {
    hide Admissions;
    AdmissionsSorted(history, key);
  }

  /** When the oldest recent time has aged, one time less is recent. */
  lemma RetryOnTimes(all: seq<Time>, now: Time, limit: nat)
    requires Sorted(all) && (forall i | 0 <= i < |all| :: all[i] <= now)
    requires |Recent(all, now)| == limit > 0
    ensures var r := RetryAfter(Recent(all, now)[0], now);
            && 1 <= r <= 60 && |Recent(all, now + r * SECOND)| < limit
            && forall s | 0 <= s < r :: |Recent(all, now + s * SECOND)| >= limit
  {
    hide Recent, RetryAfter, Sorted;
    RecentIsSuffix(all, now);
    var oldest := all[|all| - limit];
    assert Recent(all, now)[0] == oldest;
    RetryCoversRest(now, oldest);
    RecentIsSuffix(all, now + RetryAfter(oldest, now) * SECOND);
    forall s | 0 <= s < RetryAfter(oldest, now) ensures |Recent(all, now + s * SECOND)| >= limit {
      LessIsTooEarly(now, oldest, s);
      RecentIsSuffix(all, now + s * SECOND);
    }
  }

  lemma LessIsTooEarly(now: Time, oldest: Time, s: nat)
    requires oldest <= now && now - oldest < WINDOW && s < RetryAfter(oldest, now)
    ensures now + s * SECOND - oldest < WINDOW
  {
    var age := now - oldest;
    assert age < age / SECOND * SECOND + SECOND;
  }

  lemma RetryCoversRest(now: Time, oldest: Time)
    requires oldest <= now && now - oldest < WINDOW
    ensures 1 <= RetryAfter(oldest, now) <= 60
    ensures now + RetryAfter(oldest, now) * SECOND - oldest >= WINDOW
  {
    var age := now - oldest;
    assert age / SECOND * SECOND <= age;
  }

  // ---------- Permits, whatever the clock says ----------

  /** The entry of a key counts its outstanding permits. */
  ghost predicate Counts(states: States, history: seq<Event>, key: string) {
    EntryOf(states, key).active == Outstanding(history, key)
  }

  /** Counting and the cap need no assumption on the clock. */
  lemma AcquireKeepsCount(limits: Limits, states: States, history: seq<Event>, key: string, other: string, now: Time)
    requires Counts(states, history, key) && Counts(states, history, other)
    ensures var (after, verdict) := AcquireStep(limits, states, key, now);
            && Counts(after, history + [Answered(key, now, verdict)], other)
            && (verdict.ConcurrencyLimited? <==> Outstanding(history, key) >= limits.maxConcurrency)
  {
    hide Pruned, RetryAfter;
    var (after, verdict) := AcquireStep(limits, states, key, now);
    Extended(history, Answered(key, now, verdict), other);
  }

  lemma DropKeepsCount(states: States, history: seq<Event>, key: string, other: string, now: Time)
    requires Counts(states, history, key) && Counts(states, history, other) && Outstanding(history, key) > 0
    ensures Counts(DropStep(states, key, now), history + [Released(key, now)], other)
  {
    Extended(history, Released(key, now), other);
  }

  // ---------- Clock readings that overtake each other ----------

  /** Pruning from the front leaves nothing old behind exactly when the times are in order. */
  lemma PruningIsIdealExactlyWhenSorted(requests: seq<Time>)
    ensures (forall now :: Pruned(requests, now) == Recent(requests, now)) <==> Sorted(requests)
  {
    if Sorted(requests) {
      forall now ensures Pruned(requests, now) == Recent(requests, now) {
        PrunedIsRecent(requests, now);
      }
    } else {
      var a, b :| 0 <= a < b < |requests| && requests[b] < requests[a];
      HiddenOldTime(requests, a, b);
    }
  }

  /** A time behind a later one stays although it is a minute old. */
  lemma HiddenOldTime(requests: seq<Time>, a: nat, b: nat)
    requires a < b < |requests| && requests[b] < requests[a]
    ensures var now := requests[b] + WINDOW; |Pruned(requests, now)| > |Recent(requests, now)|
  {
    var now := requests[b] + WINDOW;
    PrunedStopsAt(requests, a, now);
    var k := |requests| - |Pruned(requests, now)|;
    PrunedKeepsRecent(requests, now);
    RecentOmits(requests[k..], b - k, now);
  }

  lemma {:induction false} PrunedStopsAt(requests: seq<Time>, a: nat, now: Time)
    requires a < |requests| && Since(now, requests[a]) < WINDOW
    ensures |requests| - |Pruned(requests, now)| <= a && |Pruned(requests, now)| <= |requests|
    ensures Pruned(requests, now) == requests[|requests| - |Pruned(requests, now)|..]
    decreases |requests|
  {
    if Since(now, requests[0]) < WINDOW {
    } else {
      PrunedStopsAt(requests[1..], a - 1, now);
    }
  }

  lemma {:induction false} PrunedKeepsRecent(requests: seq<Time>, now: Time)
    ensures Recent(Pruned(requests, now), now) == Recent(requests, now)
  {
    if requests == [] || Since(now, requests[0]) < WINDOW {
    } else {
      PrunedKeepsRecent(requests[1..], now);
    }
  }

  lemma {:induction false} RecentOmits(times: seq<Time>, i: nat, now: Time)
    requires i < |times| && Since(now, times[i]) >= WINDOW
    ensures |Recent(times, now)| < |times|
  {
    if i == 0 {
      RecentIsShorter(times[1..], now);
    } else {
      RecentOmits(times[1..], i - 1, now);
    }
  }

  lemma {:induction false} RecentIsShorter(times: seq<Time>, now: Time)
    ensures |Recent(times, now)| <= |times|
  {
    if times == [] {
    } else {
      RecentIsShorter(times[1..], now);
    }
  }

  /** Whatever the limits, the entry gives the ideal answer at every time from `from` on. */
  ghost predicate IdealFrom(entry: KeyState, history: seq<Event>, key: string, from: Time) {
    forall limits, now | Sane(limits) && now >= from ::
      Decide(limits, entry, now).1 == IdealVerdict(limits, history, key, now)
  }

  /** An entry that still has all admissions of its key answers like the ideal limiter at all times
      exactly when the admissions were recorded in the order of their times. */
  lemma AnswersAreIdealExactlyWhenSorted(entry: KeyState, history: seq<Event>, key: string)
    requires entry.requests == Admissions(history, key) && entry.active == Outstanding(history, key)
    ensures (forall from :: IdealFrom(entry, history, key, from)) <==> Sorted(Admissions(history, key))
  {
    hide Pruned, Recent, Admissions, Releases;
    var all := Admissions(history, key);
    if Sorted(all) {
      forall limits, now | Sane(limits)
        ensures Decide(limits, entry, now).1 == IdealVerdict(limits, history, key, now)
      {
        PrunedIsRecent(all, now);
      }
    } else {
      var a, b :| 0 <= a < b < |all| && all[b] < all[a];
      var now := all[b] + WINDOW;
      HiddenOldTime(all, a, b);
      var limits := Limits(|Pruned(all, now)|, entry.active + 1);
      assert Decide(limits, entry, now).1.RateLimited?;
      assert IdealVerdict(limits, history, key, now) == Admitted;
      assert !IdealFrom(entry, history, key, now);
    }
  }

  /** An entry that dropped its first k admissions, all in order, answers like the ideal limiter from
      some time on exactly when what it dropped is a minute old then: a clock reading before the
      one that dropped an admission may admit too much. */
  lemma AnswersAreIdealExactlyWhenDroppedAreOld(entry: KeyState, history: seq<Event>, key: string, k: nat, from: Time)
    requires Sorted(Admissions(history, key)) && k <= |Admissions(history, key)|
    requires entry.requests == Admissions(history, key)[k..] && entry.active == Outstanding(history, key)
    ensures IdealFrom(entry, history, key, from)
            <==> forall i | 0 <= i < k :: Since(from, Admissions(history, key)[i]) >= WINDOW
  {
    hide Pruned, Recent, Admissions, Releases, Sorted, Decide, IdealVerdict;
    var all := Admissions(history, key);
    if forall i | 0 <= i < k :: Since(from, all[i]) >= WINDOW {
      forall limits, now | Sane(limits) && now >= from
        ensures Decide(limits, entry, now).1 == IdealVerdict(limits, history, key, now)
      {
        OldDropsDoNoHarm(limits, entry, history, key, k, now);
      }
    } else {
      var i :| 0 <= i < k && Since(from, all[i]) < WINDOW;
      RecentDropsHarm(entry, history, key, k, i, from);
      var limits := Limits(|Recent(all, from)|, entry.active + 1);
      assert Decide(limits, entry, from).1 != IdealVerdict(limits, history, key, from);
    }
  }

  lemma OldDropsDoNoHarm(limits: Limits, entry: KeyState, history: seq<Event>, key: string, k: nat, now: Time)
    requires Sane(limits) && Sorted(Admissions(history, key)) && k <= |Admissions(history, key)|
    requires entry.requests == Admissions(history, key)[k..] && entry.active == Outstanding(history, key)
    requires forall i | 0 <= i < k :: Since(now, Admissions(history, key)[i]) >= WINDOW
    ensures Decide(limits, entry, now).1 == IdealVerdict(limits, history, key, now)
  {
    hide Pruned, Recent, Admissions, Releases;
    var all := Admissions(history, key);
    RecentOfSuffix(all, k, now);
    PrunedIsRecent(all[k..], now);
  }

  /** A dropped admission that is still recent leaves room for one too many. */
  lemma RecentDropsHarm(entry: KeyState, history: seq<Event>, key: string, k: nat, i: nat, now: Time)
    requires Sorted(Admissions(history, key)) && i < k <= |Admissions(history, key)|
    requires entry.requests == Admissions(history, key)[k..] && entry.active == Outstanding(history, key)
    requires Since(now, Admissions(history, key)[i]) < WINDOW
    ensures var limits := Limits(|Recent(Admissions(history, key), now)|, entry.active + 1);
            && Sane(limits)
            && Decide(limits, entry, now).1 == Admitted
            && IdealVerdict(limits, history, key, now).RateLimited?
  {
    hide Pruned, Recent, Admissions, Releases;
    var all := Admissions(history, key);
    RecentIsSuffix(all, now);
    PrunedIsRecent(all[k..], now);
    RecentIsShorter(all[k..], now);
  }

  lemma TwoAdmissions(a: Time, b: Time)
    ensures var history := [Answered("k", a, Admitted), Answered("k", b, Admitted)];
            Admissions(history, "k") == [a, b] && Releases(history, "k") == 0
  {
    var e1, e2 := Answered("k", a, Admitted), Answered("k", b, Admitted);
    Extended([], e1, "k");
    Extended([e1], e2, "k");
    assert [] + [e1] == [e1] && [e1] + [e2] == [e1, e2];
  }

  /** try_acquire reads the clock before it takes the lock, so two calls can pass each other there.
      An old admission hidden behind a newer one then makes the limiter refuse too much ... */
  lemma OvertakingBreaksTheWindow()
    ensures var limits := Limits(2, 9);
            var late, early, now := 50 * SECOND, 0, 70 * SECOND;
            var history := [Answered("k", late, Admitted), Answered("k", early, Admitted)];
            var (first, v1) := AcquireStep(limits, map[], "k", late);
            var (second, v2) := AcquireStep(limits, first, "k", early);
            && !NotEarlier(early, history[..1])
            && v1 == v2 == Admitted
            && AcquireStep(limits, second, "k", now).1.RateLimited?
            && IdealVerdict(limits, history, "k", now) == Admitted
  {
    var limits := Limits(2, 9);
    var late, early, now := 50 * SECOND, 0, 70 * SECOND;
    TwoAdmissions(late, early);
    var (first, v1) := AcquireStep(limits, map[], "k", late);
    assert [] + [late] == [late];
    assert first == map["k" := KeyState([late], 1, Some(late))];
    var (second, v2) := AcquireStep(limits, first, "k", early);
    assert second == map["k" := KeyState([late, early], 2, Some(early))];
    assert [late, early][1..] == [early] && [early][1..] == [];
    assert Recent([early], now) == [];
    assert Recent([late, early], now) == [late];
    assert AcquireStep(limits, second, "k", now).1.RateLimited?;
  }

  /** ... and an admission dropped by a later reading makes it admit too much. */
  lemma OvertakingAdmitsTooMuch()
    ensures var limits := Limits(2, 9);
            var history := [Answered("k", 0, Admitted), Answered("k", 60 * SECOND, Admitted)];
            var (first, v1) := AcquireStep(limits, map[], "k", 0);
            var (second, v2) := AcquireStep(limits, first, "k", 60 * SECOND);
            && v1 == v2 == Admitted
            && !NotEarlier(59 * SECOND, history)
            && AcquireStep(limits, second, "k", 59 * SECOND).1 == Admitted
            && IdealVerdict(limits, history, "k", 59 * SECOND).RateLimited?
  {
    var limits := Limits(2, 9);
    TwoAdmissions(0, 60 * SECOND);
    var (first, v1) := AcquireStep(limits, map[], "k", 0);
    assert [] + [0] == [0];
    assert first == map["k" := KeyState([0], 1, Some(0))];
    var (second, v2) := AcquireStep(limits, first, "k", 60 * SECOND);
    assert [0][1..] == [] && [] + [60 * SECOND] == [60 * SECOND];
    assert Pruned([0], 60 * SECOND) == Pruned([0][1..], 60 * SECOND) == [];
    assert Kept(first, 60 * SECOND) == first && EntryOf(first, "k") == KeyState([0], 1, Some(0));
    assert second == map["k" := KeyState([60 * SECOND], 2, Some(60 * SECOND))];
    assert Recent([60 * SECOND], 59 * SECOND) == [60 * SECOND];
    assert Recent([0, 60 * SECOND], 59 * SECOND) == [0] + [60 * SECOND];
  }

  // ---------- What every call keeps ----------

  /** The time of the last event. */
  ghost function LastTime(history: seq<Event>): Time {
    if history == [] then 0 else history[|history| - 1].at
  }

  /** Permits are always counted; the windows are ideal as long as the times were in order. */
  ghost predicate Sound(limits: Limits, states: States, history: seq<Event>) {
    && Sane(limits) && Held(history)
    && (forall key :: Counts(states, history, key))
    && (Ordered(history) ==>
          IdeallyAnswered(limits, history) && forall key :: Agrees(states, history, key, LastTime(history)))
  }

  lemma EveryKeyAgrees(limits: Limits, states: States, history: seq<Event>, key: string, now: Time)
    requires Sound(limits, states, history) && Ordered(history) && NotEarlier(now, history)
    ensures exists before :: before <= now && Agrees(states, history, key, before)
    ensures Follows(history, key, now)
  {
    AdmissionsSorted(history, key);
    assert Agrees(states, history, key, LastTime(history));
    if history == [] {
      assert Agrees(states, history, key, now);
    }
  }

  /** With times in order the answer is ideal and every key agrees after it. */
  lemma AnswerKeepsAgreement(limits: Limits, states: States, history: seq<Event>, key: string, other: string, now: Time)
    requires Sound(limits, states, history) && Ordered(history) && NotEarlier(now, history)
    ensures var (after, verdict) := AcquireStep(limits, states, key, now);
            && verdict == IdealVerdict(limits, history, key, now)
            && Agrees(after, history + [Answered(key, now, verdict)], other, now)
  {
    hide AcquireStep, IdealVerdict, Agrees, Ordered, Held, Counts;
    var (after, verdict) := AcquireStep(limits, states, key, now);
    EveryKeyAgrees(limits, states, history, key, now);
    var t :| t <= now && Agrees(states, history, key, t);
    AcquireIsIdeal(limits, states, history, key, t, now);
    if other != key {
      EveryKeyAgrees(limits, states, history, other, now);
      var before :| before <= now && Agrees(states, history, other, before);
      OtherKeysUnaffected(limits, states, history, key, other, before, now, verdict);
    }
  }

  lemma OneMoreEvent(limits: Limits, history: seq<Event>, e: Event)
    requires Sane(limits) && Held(history) && (e.Released? ==> Outstanding(history, e.key) > 0)
    ensures Held(history + [e]) && LastTime(history + [e]) == e.at
    ensures Ordered(history + [e]) <==> Ordered(history) && NotEarlier(e.at, history)
    ensures IdeallyAnswered(limits, history + [e])
            <==> IdeallyAnswered(limits, history)
                 && (e.Answered? ==> e.verdict == IdealVerdict(limits, history, e.key, e.at))
  {
    assert (history + [e])[..|history|] == history;
  }

  /** An acquire keeps the limiter sound. The cap is exact whatever the clock says; with times in
      order the whole answer is that of the ideal limiter. */
  lemma AcquireKeepsSound(limits: Limits, states: States, history: seq<Event>, key: string, now: Time)
    requires Sound(limits, states, history)
    ensures var (after, verdict) := AcquireStep(limits, states, key, now);
            && Sound(limits, after, history + [Answered(key, now, verdict)])
            && (verdict.ConcurrencyLimited? <==> Outstanding(history, key) >= limits.maxConcurrency)
            && (Ordered(history) && NotEarlier(now, history) ==> verdict == IdealVerdict(limits, history, key, now))
  {
    hide AcquireStep, IdealVerdict, Agrees, Ordered, Held, Counts, IdeallyAnswered, NotEarlier, LastTime;
    var (after, verdict) := AcquireStep(limits, states, key, now);
    var e := Answered(key, now, verdict);
    OneMoreEvent(limits, history, e);
    AcquireKeepsCount(limits, states, history, key, key, now);
    forall other ensures Counts(after, history + [e], other) {
      AcquireKeepsCount(limits, states, history, key, other, now);
    }
    if Ordered(history) && NotEarlier(now, history) {
      forall other ensures Agrees(after, history + [e], other, now) {
        AnswerKeepsAgreement(limits, states, history, key, other, now);
      }
      AnswerKeepsAgreement(limits, states, history, key, key, now);
    }
  }

  lemma DropKeepsSound(limits: Limits, states: States, history: seq<Event>, key: string, now: Time)
    requires Sound(limits, states, history) && Outstanding(history, key) > 0
    ensures Sound(limits, DropStep(states, key, now), history + [Released(key, now)])
  {
    hide DropStep, IdealVerdict, Agrees, Ordered, Held, Counts, IdeallyAnswered, NotEarlier, LastTime;
    var after, e := DropStep(states, key, now), Released(key, now);
    OneMoreEvent(limits, history, e);
    forall other ensures Counts(after, history + [e], other) {
      DropKeepsCount(states, history, key, other, now);
    }
    if Ordered(history) && NotEarlier(now, history) {
      forall other ensures Agrees(after, history + [e], other, now) {
        EveryKeyAgrees(limits, states, history, other, now);
        var before :| before <= now && Agrees(states, history, other, before);
        DropAgrees(states, history, key, other, before, now);
      }
    }
  }

  // ---------- The limiter ----------

  class RateLimiter {
    var states: States
    const limits: Limits
    /** All that ever happened, for the specification only. */
    ghost var history: seq<Event>

    ghost predicate Valid()
      reads this
    {
      Sound(limits, states, history)
    }

    constructor (requestsPerMinute: nat, maxConcurrency: nat)
      ensures Valid() && history == [] && states == map[]
      ensures limits == Limits(if requestsPerMinute < 1 then 1 else requestsPerMinute,
                               if maxConcurrency < 1 then 1 else maxConcurrency)
    {
      states := map[];
      limits := Limits(if requestsPerMinute < 1 then 1 else requestsPerMinute,
                       if maxConcurrency < 1 then 1 else maxConcurrency);
      history := [];
    }

    /** The entry of a key counts the permits that are outstanding, whatever the clock said, so an
        entry with a live permit is never evicted. */
    lemma ActiveIsOutstanding(key: string)
      requires Valid()
      ensures key in states ==> states[key].active == Outstanding(history, key)
      ensures Outstanding(history, key) > 0 ==> key in states && states[key].active > 0
    {
      assert Counts(states, history, key);
    }

    /** Any clock reading is accepted, and the answer joins the history. The cap is exact in any
        case; while times are in order the whole answer is that of the ideal limiter. */
    method TryAcquire(key: string, now: Time) returns (verdict: Verdict)
      requires Valid()
      modifies this
      ensures Valid()
      ensures (states, verdict) == AcquireStep(limits, old(states), key, now)
      ensures forall other | other != key ::
                other in states <==>
                  && other in old(states)
                  && (|| old(states)[other].active > 0
                      || (old(states)[other].lastSeen.Some?
                          && now - old(states)[other].lastSeen.value < 300_000_000_000))
      ensures forall other | other != key && other in states :: states[other] == old(states)[other]
      ensures history == old(history) + [Answered(key, now, verdict)]
      ensures verdict.ConcurrencyLimited? <==> Outstanding(old(history), key) >= limits.maxConcurrency
      ensures Ordered(old(history)) && NotEarlier(now, old(history)) ==>
                verdict == IdealVerdict(limits, old(history), key, now)
    {
      hide Sound, Ordered, Outstanding;
      assert Sane(limits) by { SoundIsSane(limits, states, history); }
      AcquireKeepsSound(limits, states, history, key, now);
      states := Kept(states, now);
      var state := EntryOf(states, key);
      var requests := state.requests;
      while requests != [] && Since(now, requests[0]) >= WINDOW
        invariant Pruned(requests, now) == Pruned(state.requests, now)
        decreases |requests|
      {
        requests := requests[1..];
      }
      if state.active >= limits.maxConcurrency {
        verdict := ConcurrencyLimited;
        states := states[key := state.(requests := requests)];
      } else if |requests| >= limits.requestsPerMinute {
        verdict := RateLimited(RetryAfter(requests[0], now));
        states := states[key := state.(requests := requests)];
      } else {
        verdict := Admitted;
        states := states[key := KeyState(requests + [now], state.active + 1, Some(now))];
      }
      history := history + [Answered(key, now, verdict)];
    }

    /** Dropping a permit, which only its holder can do: the count never has to saturate. */
    method Release(key: string, now: Time)
      requires Valid() && Outstanding(history, key) > 0
      modifies this
      ensures Valid()
      ensures history == old(history) + [Released(key, now)]
      ensures key in old(states) && old(states)[key].active > 0
      ensures states == DropStep(old(states), key, now)
    {
      ActiveIsOutstanding(key);
      DropKeepsSound(limits, states, history, key, now);
      hide Sound;
      if key in states {
        var state := states[key];
        states := states[key := state.(active := Decrement(state.active), lastSeen := Some(now))];
      }
      history := history + [Released(key, now)];
    }
  }

  lemma SoundIsSane(limits: Limits, states: States, history: seq<Event>)
    requires Sound(limits, states, history)
    ensures Sane(limits)
  {
  }
}
