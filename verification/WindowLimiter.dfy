/** The per-key sliding-window limiter of the chat notification commands.

    Times are integers (nanoseconds, say).  A call reads its clock first and only then waits for
    the mutex, so calls are processed in an order that need not be the order of their readings. */
module WindowLimiter {
  import opened Base

  /** Limiter keys (user ids) are only ever compared. */
  type Key(==, !new)

  datatype Call = Call(key: Key, now: int)

  // ---------------------------------------------------------------------------------------------
  // Sequences of readings

  /** Of the first `n` readings, those strictly after `cutoff`, in their original order. */
  function RecentUpTo(s: seq<int>, n: nat, cutoff: int): (r: seq<int>)
    requires n <= |s|
    ensures |r| <= n
  {
    if n == 0 then [] else
      var r := RecentUpTo(s, n - 1, cutoff);
      if s[n - 1] > cutoff then r + [s[n - 1]] else r
  }

  function Recent(s: seq<int>, cutoff: int): seq<int> {
    RecentUpTo(s, |s|, cutoff)
  }

  /** How many of the first `n` readings lie in the half-open interval (lo, hi]. */
  function CountUpTo(s: seq<int>, n: nat, lo: int, hi: int): nat
    requires n <= |s|
  {
    if n == 0 then 0 else CountUpTo(s, n - 1, lo, hi) + if lo < s[n - 1] <= hi then 1 else 0
  }

  function CountIn(s: seq<int>, lo: int, hi: int): nat {
    CountUpTo(s, |s|, lo, hi)
  }

  lemma {:induction false} RecentPrefix(s: seq<int>, t: seq<int>, n: nat, cutoff: int)
    requires n <= |s| && n <= |t| && forall i :: 0 <= i < n ==> s[i] == t[i]
    ensures RecentUpTo(s, n, cutoff) == RecentUpTo(t, n, cutoff)
  {
    if n > 0 { RecentPrefix(s, t, n - 1, cutoff); }
  }

  lemma {:induction false} CountPrefix(s: seq<int>, t: seq<int>, n: nat, lo: int, hi: int)
    requires n <= |s| && n <= |t| && forall i :: 0 <= i < n ==> s[i] == t[i]
    ensures CountUpTo(s, n, lo, hi) == CountUpTo(t, n, lo, hi)
  {
    if n > 0 { CountPrefix(s, t, n - 1, lo, hi); }
  }

  lemma RecentSnoc(s: seq<int>, x: int, cutoff: int)
    ensures x > cutoff ==> Recent(s + [x], cutoff) == Recent(s, cutoff) + [x]
    ensures x <= cutoff ==> Recent(s + [x], cutoff) == Recent(s, cutoff)
  {
    RecentPrefix(s, s + [x], |s|, cutoff);
  }

  lemma CountSnoc(s: seq<int>, x: int, lo: int, hi: int)
    ensures CountIn(s + [x], lo, hi) == CountIn(s, lo, hi) + if lo < x <= hi then 1 else 0
  {
    CountPrefix(s, s + [x], |s|, lo, hi);
  }

  /** Filtering by a later cutoff, or by an earlier one, after a first filter. */
  lemma {:induction false} RecentRecent(s: seq<int>, n: nat, c: int, d: int)
    requires n <= |s|
    ensures c <= d ==> Recent(RecentUpTo(s, n, c), d) == RecentUpTo(s, n, d)
    ensures d <= c ==> Recent(RecentUpTo(s, n, c), d) == RecentUpTo(s, n, c)
  {
    if n > 0 {
      RecentRecent(s, n - 1, c, d);
      RecentSnoc(RecentUpTo(s, n - 1, c), s[n - 1], d);
    }
  }

  /** Counting an interval never sees more than what survives its lower end. */
  lemma {:induction false} CountAtMostRecent(s: seq<int>, n: nat, lo: int, hi: int)
    requires n <= |s|
    ensures CountUpTo(s, n, lo, hi) <= |RecentUpTo(s, n, lo)|
  {
    if n > 0 { CountAtMostRecent(s, n - 1, lo, hi); }
  }

  lemma {:induction false} CountIsRecent(s: seq<int>, n: nat, lo: int, hi: int)
    requires n <= |s| && forall i :: 0 <= i < |s| ==> s[i] <= hi
    ensures CountUpTo(s, n, lo, hi) == |RecentUpTo(s, n, lo)|
  {
    if n > 0 { CountIsRecent(s, n - 1, lo, hi); }
  }

  lemma {:induction false} RecentAntitone(s: seq<int>, n: nat, c: int, d: int)
    requires c <= d && n <= |s|
    ensures |RecentUpTo(s, n, d)| <= |RecentUpTo(s, n, c)|
  {
    if n > 0 { RecentAntitone(s, n - 1, c, d); }
  }

  // ---------------------------------------------------------------------------------------------
  // The limiter as a function of its stored readings

  type Calls = map<Key, seq<int>>

  function Stored(calls: Calls, key: Key): seq<int> {
    if key in calls then calls[key] else []
  }

  predicate Admits(limit: int, window: int, calls: Calls, c: Call) {
    |Recent(Stored(calls, c.key), c.now - window)| < limit
  }

  function After(limit: int, window: int, calls: Calls, c: Call): Calls {
    calls[c.key := Next(limit, Stored(calls, c.key), c.now - window, c.now)]
  }

  /** What one call stores: the pruned readings of its key, then its own if admitted. */
  function Next(limit: int, stored: seq<int>, cutoff: int, now: int): seq<int> {
    var kept := Recent(stored, cutoff);
    if |kept| < limit then kept + [now] else kept
  }

  type Run = History<Call>

  /** The stored readings after a run of calls, in processing order. */
  function Process(limit: int, window: int, run: Run): Calls {
    match run
    case Start => map[]
    case Then(before, c) => After(limit, window, Process(limit, window, before), c)
  }

  /** Every reading ever admitted for `key`, nothing forgotten, in processing order. */
  function Admitted(limit: int, window: int, run: Run, key: Key): seq<int> {
    match run
    case Start => []
    case Then(before, c) =>
      var past := Admitted(limit, window, before, key);
      if c.key == key && Admits(limit, window, Process(limit, window, before), c) then past + [c.now] else past
  }

  /** The reference limiter: it forgets nothing and counts admissions in (now - window, now]. */
  function FullHistory(limit: int, window: int, run: Run, key: Key): seq<int> {
    match run
    case Start => []
    case Then(before, c) =>
      var past := FullHistory(limit, window, before, key);
      if c.key == key && CountIn(past, c.now - window, c.now) < limit then past + [c.now] else past
  }

  function AtLeastZero(limit: int): (n: nat)
    ensures limit >= 0 ==> n == limit
    ensures limit < 0 ==> n == 0
  {
    if limit < 0 then 0 else limit
  }

  /** No reading for `key` is later than `bound`. */
  predicate ReadingsAtMost(run: Run, key: Key, bound: int) {
    run.Then? ==> ReadingsAtMost(run.before, key, bound) && (run.last.key == key ==> run.last.now <= bound)
  }

  /** Every reading for `key` is at most `d` behind all readings for `key` processed before it. */
  predicate SkewAtMost(run: Run, key: Key, d: int) {
    run.Then? ==>
      && SkewAtMost(run.before, key, d)
      && (run.last.key == key ==> ReadingsAtMost(run.before, key, run.last.now + d))
  }

  lemma {:induction false} ReadingsMonotone(run: Run, key: Key, b: int, c: int)
    requires ReadingsAtMost(run, key, b) && b <= c
    ensures ReadingsAtMost(run, key, c)
  {
    if run.Then? { ReadingsMonotone(run.before, key, b, c); }
  }

  /** Pruning at `cutoff` and admitting alike keeps two histories alike after any later instant. */
  lemma AgreeAfter(limit: int, stored: seq<int>, admitted: seq<int>, cutoff: int, now: int, c: int)
    requires cutoff <= c && Recent(stored, c) == Recent(admitted, c)
    ensures Recent(Next(limit, stored, cutoff, now), c) ==
            Recent(if |Recent(stored, cutoff)| < limit then admitted + [now] else admitted, c)
  {
    RecentRecent(stored, |stored|, cutoff, c);
    RecentSnoc(Recent(stored, cutoff), now, c);
    RecentSnoc(admitted, now, c);
  }

  /** Pruning loses nothing that is later than every cutoff used so far. */
  lemma {:induction false} StoredAgreesWithAdmitted(limit: int, window: int, run: Run, key: Key, c: int)
    requires ReadingsAtMost(run, key, c + window)
    ensures Recent(Stored(Process(limit, window, run), key), c) == Recent(Admitted(limit, window, run, key), c)
  {
    match run
    case Start =>
    case Then(before, last) =>
      StoredAgreesWithAdmitted(limit, window, before, key, c);
      var calls := Process(limit, window, before);
      if last.key == key {
        AgreeAfter(limit, Stored(calls, key), Admitted(limit, window, before, key), last.now - window, last.now, c);
      }
  }

  /** Fewer than the limit stored after the cutoff: fewer than the limit admitted after any later `lo`
      after which both histories are alike. */
  lemma RoomInWindow(limit: int, stored: seq<int>, admitted: seq<int>, cutoff: int, lo: int, t: int)
    requires cutoff <= lo && Recent(stored, lo) == Recent(admitted, lo) && |Recent(stored, cutoff)| < limit
    ensures CountIn(admitted, lo, t) < limit
  {
    CountAtMostRecent(admitted, |admitted|, lo, t);
    RecentAntitone(stored, |stored|, cutoff, lo);
  }

  /** Window safety: with clock skew at most `d`, every interval (t - (window - d), t] of every run
      holds at most max(limit, 0) admitted calls for the key.  With d == 0 it is the full window. */
  lemma {:induction false} WindowSafety(limit: int, window: int, run: Run, key: Key, d: nat, t: int)
    requires SkewAtMost(run, key, d)
    ensures CountIn(Admitted(limit, window, run, key), t - (window - d), t) <= AtLeastZero(limit)
  {
    match run
    case Start =>
    case Then(before, last) =>
      WindowSafety(limit, window, before, key, d, t);
      var calls, admitted := Process(limit, window, before), Admitted(limit, window, before, key);
      if last.key == key && Admits(limit, window, calls, last) {
        var lo := t - (window - d);
        CountSnoc(admitted, last.now, lo, t);
        if lo < last.now <= t {
          // Nothing after `lo` was ever pruned, so all of the interval is still stored.
          ReadingsMonotone(before, key, last.now + d, lo + window);
          StoredAgreesWithAdmitted(limit, window, before, key, lo);
          RoomInWindow(limit, Stored(calls, key), admitted, last.now - window, lo, t);
        }
      }
  }

  /** A call as the server sees it: the clock is read, then the mutex is obtained at `locked`. */
  datatype TimedCall = TimedCall(call: Call, locked: int)

  function Untimed(run: History<TimedCall>): Run {
    match run
    case Start => Start
    case Then(before, c) => Then(Untimed(before), c.call)
  }

  /** The mutex serves one call at a time, and no call waits for it longer than `wait`. */
  predicate WaitsAtMost(run: History<TimedCall>, wait: nat) {
    run.Then? ==>
      && WaitsAtMost(run.before, wait)
      && run.last.call.now <= run.last.locked <= run.last.call.now + wait
      && (run.before.Then? ==> run.before.last.locked <= run.last.locked)
  }

  lemma {:induction false} WaitBoundsReadings(run: History<TimedCall>, key: Key, wait: nat, bound: int)
    requires WaitsAtMost(run, wait) && (run.Then? ==> run.last.locked <= bound)
    ensures ReadingsAtMost(Untimed(run), key, bound)
  {
    if run.Then? { WaitBoundsReadings(run.before, key, wait, bound); }
  }

  lemma {:induction false} WaitBoundsSkew(run: History<TimedCall>, key: Key, wait: nat)
    requires WaitsAtMost(run, wait)
    ensures SkewAtMost(Untimed(run), key, wait)
  {
    if run.Then? {
      WaitBoundsSkew(run.before, key, wait);
      WaitBoundsReadings(run.before, key, wait, run.last.call.now + wait);
    }
  }

  /** Because the clock is read before the mutex is taken, the wait for the mutex is the skew:
      if no call waits longer than `wait`, windows shortened by `wait` are safe in every run. */
  lemma BoundedWaitWindowSafety(limit: int, window: int, run: History<TimedCall>, key: Key, wait: nat, t: int)
    requires WaitsAtMost(run, wait)
    ensures CountIn(Admitted(limit, window, Untimed(run), key), t - (window - wait), t) <= AtLeastZero(limit)
  {
    WaitBoundsSkew(run, key, wait);
    WindowSafety(limit, window, Untimed(run), key, wait, t);
  }

  // ---------------------------------------------------------------------------------------------
  // Exactly which windows are safe

  lemma {:induction false} SkewMonotone(run: Run, key: Key, d: int, e: int)
    requires SkewAtMost(run, key, d) && d <= e
    ensures SkewAtMost(run, key, e)
  {
    if run.Then? {
      SkewMonotone(run.before, key, d, e);
      if run.last.key == key { ReadingsMonotone(run.before, key, run.last.now + d, run.last.now + e); }
    }
  }

  function LastOf(s: seq<int>): seq<int> {
    if s == [] then [] else [s[|s| - 1]]
  }

  predicate Spaced(s: seq<int>, window: int) {
    forall i, j :: 0 <= i < j < |s| ==> s[i] + window <= s[j]
  }

  /** What is stored is the last admission, and admissions are a window apart. */
  predicate Single(stored: seq<int>, admitted: seq<int>, window: int) {
    stored == LastOf(admitted) && Spaced(admitted, window)
  }

  function Grown(limit: int, stored: seq<int>, admitted: seq<int>, cutoff: int, now: int): seq<int> {
    if |Recent(stored, cutoff)| < limit then admitted + [now] else admitted
  }

  lemma SingleNext(stored: seq<int>, admitted: seq<int>, window: int, now: int)
    requires window >= 0 && Single(stored, admitted, window)
    ensures Single(Next(1, stored, now - window, now), Grown(1, stored, admitted, now - window, now), window)
  {
    if admitted != [] { RecentSnoc([], admitted[|admitted| - 1], now - window); }
  }

  lemma OneCallStores(limit: int, window: int, run: Run, key: Key)
    requires run.Then? && run.last.key == key
    ensures Stored(Process(limit, window, run), key)
         == Next(limit, Stored(Process(limit, window, run.before), key), run.last.now - window, run.last.now)
  {
  }

  lemma OneCallAdmits(limit: int, window: int, run: Run, key: Key)
    requires run.Then? && run.last.key == key
    ensures Admitted(limit, window, run, key)
         == Grown(limit, Stored(Process(limit, window, run.before), key), Admitted(limit, window, run.before, key),
                  run.last.now - window, run.last.now)
  {
  }

  lemma {:induction false} SingleAdmissions(window: int, run: Run, key: Key)
    requires window >= 0
    ensures Single(Stored(Process(1, window, run), key), Admitted(1, window, run, key), window)
  {
    if run.Then? {
      SingleAdmissions(window, run.before, key);
      if run.last.key == key {
        OneCallStores(1, window, run, key);
        OneCallAdmits(1, window, run, key);
        SingleNext(Stored(Process(1, window, run.before), key), Admitted(1, window, run.before, key), window,
                   run.last.now);
      }
    }
  }

  lemma {:induction false} SpacedCount(s: seq<int>, n: nat, window: int, lo: int, hi: int)
    requires n <= |s| && hi <= lo + window && window >= 0 && Spaced(s, window)
    ensures CountUpTo(s, n, lo, hi) <= 1
    ensures CountUpTo(s, n, lo, hi) > 0 ==> exists i :: 0 <= i < n && lo < s[i]
  {
    if n > 0 { SpacedCount(s, n - 1, window, lo, hi); }
  }

  lemma {:induction false} EmptyInterval(s: seq<int>, n: nat, lo: int, hi: int)
    requires n <= |s| && hi <= lo
    ensures CountUpTo(s, n, lo, hi) == 0
  {
    if n > 0 { EmptyInterval(s, n - 1, lo, hi); }
  }

  lemma {:induction false} NothingAdmitted(limit: int, window: int, run: Run, key: Key)
    requires limit <= 0
    ensures Admitted(limit, window, run, key) == []
  {
    if run.Then? { NothingAdmitted(limit, window, run.before, key); }
  }

  /** `n` calls at time 0, each served at once. */
  function Burst(u: Key, n: nat): History<TimedCall> {
    if n == 0 then Start else Then(Burst(u, n - 1), TimedCall(Call(u, 0), 0))
  }

  function Zeros(n: nat): (s: seq<int>)
    ensures |s| == n
  {
    if n == 0 then [] else Zeros(n - 1) + [0]
  }

  lemma {:induction false} ZerosCount(n: nat, cutoff: int, lo: int, hi: int)
    ensures Recent(Zeros(n), cutoff) == if cutoff < 0 then Zeros(n) else []
    ensures CountIn(Zeros(n), lo, hi) == if lo < 0 <= hi then n else 0
  {
    if n > 0 {
      ZerosCount(n - 1, cutoff, lo, hi);
      RecentSnoc(Zeros(n - 1), 0, cutoff);
      CountSnoc(Zeros(n - 1), 0, lo, hi);
    }
  }

  lemma ZeroIsAdmitted(limit: int, window: int, n: nat)
    requires window > 0 && n < limit
    ensures Next(limit, Zeros(n), 0 - window, 0) == Zeros(n + 1)
    ensures Grown(limit, Zeros(n), Zeros(n), 0 - window, 0) == Zeros(n + 1)
  {
    ZerosCount(n, 0 - window, 0, 0);
  }

  lemma {:induction false} BurstIsStored(limit: int, window: int, u: Key, n: nat)
    requires window > 0 && n <= limit
    ensures Stored(Process(limit, window, Untimed(Burst(u, n))), u) == Zeros(n)
  {
    if n > 0 {
      BurstIsStored(limit, window, u, n - 1);
      ZeroIsAdmitted(limit, window, n - 1);
      OneCallStores(limit, window, Untimed(Burst(u, n)), u);
    }
  }

  lemma {:induction false} BurstIsAdmitted(limit: int, window: int, u: Key, n: nat)
    requires window > 0 && n <= limit
    ensures Admitted(limit, window, Untimed(Burst(u, n)), u) == Zeros(n)
  {
    if n > 0 {
      BurstIsAdmitted(limit, window, u, n - 1);
      BurstIsStored(limit, window, u, n - 1);
      ZeroIsAdmitted(limit, window, n - 1);
      OneCallAdmits(limit, window, Untimed(Burst(u, n)), u);
    }
  }

  /** A burst of `limit` calls, a call one window later, and a call whose clock was read `d` before
      that one but which is served after it. */
  function Overtaken(limit: nat, window: int, u: Key, d: int): History<TimedCall> {
    Then(Then(Burst(u, limit), TimedCall(Call(u, window), window)), TimedCall(Call(u, window - d), window))
  }

  lemma {:induction false} BurstWaits(u: Key, n: nat, wait: nat)
    ensures WaitsAtMost(Burst(u, n), wait)
  {
    if n > 0 { BurstWaits(u, n - 1, wait); }
  }

  lemma OvertakenWaits(limit: nat, window: int, u: Key, d: nat)
    requires window > 0
    ensures WaitsAtMost(Overtaken(limit, window, u, d), d)
  {
    BurstWaits(u, limit, d);
  }

  /** All of them are admitted. */
  lemma OvertakenIsAdmitted(limit: int, window: int, u: Key, d: int)
    requires limit >= 2 && 0 < d <= window
    ensures Admitted(limit, window, Untimed(Overtaken(limit, window, u, d)), u)
         == Zeros(limit) + [window] + [window - d]
  {
    var burst := Untimed(Burst(u, limit));
    BurstIsStored(limit, window, u, limit);
    BurstIsAdmitted(limit, window, u, limit);
    ZerosCount(limit, 0, 0, 0);
    var next := Then(burst, Call(u, window));
    assert Stored(Process(limit, window, next), u) == [] + [window];
    RecentSnoc([], window, -d);
  }

  /** The overtaken run puts limit + 1 admissions into a window shortened by less than `d`. */
  lemma OvertakenOverfills(limit: int, window: int, u: Key, d: int, e: nat)
    requires limit >= 2 && e < d <= window
    ensures
      var admitted := Admitted(limit, window, Untimed(Overtaken(limit, window, u, d)), u);
      CountIn(admitted, window - d - (window - e), window - d) == limit + 1
  {
    OvertakenIsAdmitted(limit, window, u, d);
    var lo, hi := window - d - (window - e), window - d;
    ZerosCount(limit, 0, lo, hi);
    CountSnoc(Zeros(limit), window, lo, hi);
    CountSnoc(Zeros(limit) + [window], window - d, lo, hi);
  }

  /** How many calls of the key are admitted in the window that ends at `t`, shortened by `e`. */
  function AdmittedIn(limit: int, window: int, run: Run, key: Key, e: int, t: int): nat {
    CountIn(Admitted(limit, window, run, key), t - (window - e), t)
  }

  /** In all runs with clock skew at most `d`, windows shortened by `e` hold no more than the limit. */
  ghost predicate SafeUnderSkew(limit: int, window: int, key: Key, d: int, e: int) {
    forall run: Run, t: int :: SkewAtMost(run, key, d) ==>
      AdmittedIn(limit, window, run, key, e, t) <= AtLeastZero(limit)
  }

  /** The same when no call waits longer than `wait` for the mutex. */
  ghost predicate SafeUnderWaits(limit: int, window: int, key: Key, wait: nat, e: int) {
    forall run: History<TimedCall>, t: int :: WaitsAtMost(run, wait) ==>
      AdmittedIn(limit, window, Untimed(run), key, e, t) <= AtLeastZero(limit)
  }

  lemma SmallLimitHolds(limit: int, window: int, run: Run, key: Key, e: nat, t: int)
    requires limit <= 1 && e < window
    ensures CountIn(Admitted(limit, window, run, key), t - (window - e), t) <= AtLeastZero(limit)
  {
    if limit <= 0 {
      NothingAdmitted(limit, window, run, key);
    } else {
      SingleAdmissions(window, run, key);
      var admitted := Admitted(1, window, run, key);
      SpacedCount(admitted, |admitted|, window, t - (window - e), t);
    }
  }

  lemma ShortenedWindowHolds(limit: int, window: int, run: Run, key: Key, d: nat, e: nat, t: int)
    requires SkewAtMost(run, key, d) && (limit <= 1 || d <= e || window <= e)
    ensures CountIn(Admitted(limit, window, run, key), t - (window - e), t) <= AtLeastZero(limit)
  {
    if window <= e {
      var admitted := Admitted(limit, window, run, key);
      EmptyInterval(admitted, |admitted|, t - (window - e), t);
    } else if d <= e {
      SkewMonotone(run, key, d, e);
      WindowSafety(limit, window, run, key, e, t);
    } else {
      SmallLimitHolds(limit, window, run, key, e, t);
    }
  }

  lemma OvertakenIsUnsafe(limit: int, window: int, u: Key, d: nat, e: nat) returns (run: History<TimedCall>, t: int)
    requires limit >= 2 && e < d && e < window
    ensures WaitsAtMost(run, d) && SkewAtMost(Untimed(run), u, d)
    ensures AdmittedIn(limit, window, Untimed(run), u, e, t) == limit + 1
  {
    var behind := if d <= window then d else window;
    run, t := Overtaken(limit, window, u, behind), window - behind;
    OvertakenWaits(limit, window, u, behind);
    WaitBoundsSkew(run, u, behind);
    SkewMonotone(Untimed(run), u, behind, d);
    BurstWaits(u, limit, d);
    OvertakenOverfills(limit, window, u, behind, e);
  }

  /** Exactly which windows are safe under skew: those shortened by the whole skew, empty ones, and,
      with a limit of at most one, all. */
  lemma ShortenedWindowSafeIff(limit: int, window: int, key: Key, d: nat, e: nat)
    ensures SafeUnderSkew(limit, window, key, d, e) <==> limit <= 1 || d <= e || window <= e
  {
    if limit <= 1 || d <= e || window <= e {
      forall run: Run, t: int | SkewAtMost(run, key, d)
        ensures AdmittedIn(limit, window, run, key, e, t) <= AtLeastZero(limit)
      {
        ShortenedWindowHolds(limit, window, run, key, d, e, t);
      }
    } else {
      var run, t := OvertakenIsUnsafe(limit, window, key, d, e);
    }
  }

  /** The full window is safe if and only if it admits at most one call, readings are processed in
      order, or it is empty. */
  lemma FullWindowSafeIff(limit: int, window: int, key: Key, d: nat)
    ensures SafeUnderSkew(limit, window, key, d, 0) <==> limit <= 1 || d == 0 || window <= 0
  {
    ShortenedWindowSafeIff(limit, window, key, d, 0);
  }

  /** The wait for the mutex is all that matters: windows shortened by `e` are safe in every run in
      which no call waits longer than `wait` under exactly the same condition. */
  lemma WaitingWindowSafeIff(limit: int, window: int, key: Key, wait: nat, e: nat)
    ensures SafeUnderWaits(limit, window, key, wait, e) <==> limit <= 1 || wait <= e || window <= e
  {
    if limit <= 1 || wait <= e || window <= e {
      forall run: History<TimedCall>, t: int | WaitsAtMost(run, wait)
        ensures AdmittedIn(limit, window, Untimed(run), key, e, t) <= AtLeastZero(limit)
      {
        WaitBoundsSkew(run, key, wait);
        ShortenedWindowHolds(limit, window, Untimed(run), key, wait, e, t);
      }
    } else {
      var run, t := OvertakenIsUnsafe(limit, window, key, wait, e);
    }
  }

  lemma {:induction false} AdmittedAtMost(limit: int, window: int, run: Run, key: Key, bound: int)
    requires ReadingsAtMost(run, key, bound)
    ensures forall i :: 0 <= i < |Admitted(limit, window, run, key)| ==> Admitted(limit, window, run, key)[i] <= bound
  {
    if run.Then? { AdmittedAtMost(limit, window, run.before, key, bound); }
  }

  /** Equal after the cutoff, and nothing later than now: the stored and the full history decide alike. */
  lemma SameDecision(stored: seq<int>, admitted: seq<int>, cutoff: int, now: int)
    requires Recent(stored, cutoff) == Recent(admitted, cutoff)
    requires forall i :: 0 <= i < |admitted| ==> admitted[i] <= now
    ensures |Recent(stored, cutoff)| == CountIn(admitted, cutoff, now)
  {
    CountIsRecent(admitted, |admitted|, cutoff, now);
  }

  /** With readings processed in order, forgetting pruned readings is invisible: the limiter admits
      exactly what the reference limiter admits. */
  lemma {:induction false} PruningRefinesFullHistory(limit: int, window: int, run: Run, key: Key)
    requires SkewAtMost(run, key, 0)
    ensures Admitted(limit, window, run, key) == FullHistory(limit, window, run, key)
  {
    match run
    case Start =>
    case Then(before, last) =>
      PruningRefinesFullHistory(limit, window, before, key);
      if last.key == key {
        var admitted, cutoff := Admitted(limit, window, before, key), last.now - window;
        StoredAgreesWithAdmitted(limit, window, before, key, cutoff);
        AdmittedAtMost(limit, window, before, key, last.now);
        SameDecision(Stored(Process(limit, window, before), key), admitted, cutoff, last.now);
        OneCallAdmits(limit, window, run, key);
      }
  }

  lemma WithinAfter(limit: int, stored: seq<int>, admitted: seq<int>, cutoff: int, now: int, c: int)
    requires |Recent(stored, c)| <= |Recent(admitted, c)|
    ensures |Recent(Next(limit, stored, cutoff, now), c)| <=
            |Recent(if |Recent(stored, cutoff)| < limit then admitted + [now] else admitted, c)|
  {
    RecentRecent(stored, |stored|, cutoff, c);
    if c <= cutoff { RecentAntitone(stored, |stored|, c, cutoff); }
    RecentSnoc(Recent(stored, cutoff), now, c);
    RecentSnoc(admitted, now, c);
  }

  /** Whatever the order of readings, whatever is still stored was admitted. */
  lemma {:induction false} StoredWithinAdmitted(limit: int, window: int, run: Run, key: Key, c: int)
    ensures |Recent(Stored(Process(limit, window, run), key), c)| <= |Recent(Admitted(limit, window, run, key), c)|
  {
    match run
    case Start =>
    case Then(before, last) =>
      StoredWithinAdmitted(limit, window, before, key, c);
      var calls := Process(limit, window, before);
      if last.key == key {
        WithinAfter(limit, Stored(calls, key), Admitted(limit, window, before, key), last.now - window, last.now, c);
      }
  }

  /** A denied call always finds `limit` admissions later than now - window in the full history. */
  lemma DenialIsJustified(limit: int, window: int, run: Run, c: Call)
    requires !Admits(limit, window, Process(limit, window, run), c)
    ensures |Recent(Admitted(limit, window, run, c.key), c.now - window)| >= limit
  {
    StoredWithinAdmitted(limit, window, run, c.key, c.now - window);
  }

  /** What is stored for a key never exceeds max(limit, 0) readings. */
  lemma {:induction false} StoredIsBounded(limit: int, window: int, run: Run, key: Key)
    ensures |Stored(Process(limit, window, run), key)| <= AtLeastZero(limit)
  {
    if run.Then? { StoredIsBounded(limit, window, run.before, key); }
  }

  // ---------------------------------------------------------------------------------------------
  // The limiter over slices that share their backing arrays with their own earlier contents

  /** One call, by its decision. */
  lemma AfterDecision(limit: int, window: int, calls: Calls, c: Call)
    ensures
      var kept := Recent(Stored(calls, c.key), c.now - window);
      && (Admits(limit, window, calls, c) <==> |kept| < limit)
      && After(limit, window, calls, c) == calls[c.key := if |kept| < limit then kept + [c.now] else kept]
  {
  }

  /** A slice: the first `len` elements of a backing array, whose length is the capacity. */
  datatype Slice = Slice(arr: array<int>, len: nat)

  /** Compaction through `timestamps[:0]`: the kept readings overwrite the array they are read from. */
  method Compact(s: Slice, cutoff: int) returns (kept: nat)
    requires s.len <= s.arr.Length
    modifies s.arr
    ensures kept <= s.len
    ensures s.arr[..kept] == Recent(old(s.arr[..s.len]), cutoff)
  {
    kept := 0;
    ghost var was := s.arr[..s.len];
    for i := 0 to s.len
      invariant kept <= i
      invariant s.arr[i..s.len] == was[i..]
      invariant s.arr[..kept] == RecentUpTo(was, i, cutoff)
    {
      assert s.arr[i] == s.arr[i..s.len][0] == was[i];
      assert s.arr[i + 1..s.len] == s.arr[i..s.len][1..];
      if s.arr[i] > cutoff {
        s.arr[kept] := s.arr[i];
        kept := kept + 1;
        assert s.arr[..kept] == s.arr[..kept - 1] + [was[i]];
      }
    }
  }

  class UserWindowLimiter {
    const limit: int
    const window: int
    var calls: map<Key, Slice>

    ghost function Arrays(): set<array<int>>
      reads this
    {
      set k | k in calls :: calls[k].arr
    }

    /** Every slice fits its array and no two keys share one. */
    ghost predicate Valid()
      reads this
    {
      && (forall k :: k in calls ==> calls[k].len <= calls[k].arr.Length)
      && (forall k, l :: k in calls && l in calls && k != l ==> calls[k].arr != calls[l].arr)
    }

    ghost function Contents(): Calls
      requires Valid()
      reads this, Arrays()
    {
      map k | k in calls :: calls[k].arr[..calls[k].len]
    }

    constructor (limit: int, window: int)
      ensures Valid() && Contents() == map[]
      ensures this.limit == limit && this.window == window
    {
      this.limit := limit;
      this.window := window;
      calls := map[];
    }

    /** Every key but `key` holds what `contents` says. */
    ghost predicate Elsewhere(contents: Calls, key: Key)
      requires Valid()
      reads this, Arrays()
    {
      forall k :: k != key ==>
        (k in calls <==> k in contents) && (k in calls ==> calls[k].arr[..calls[k].len] == contents[k])
    }

    /** The slice may be the key's own array or one that no key uses. */
    ghost predicate Usable(s: Slice, key: Key)
      reads this
    {
      s.len <= s.arr.Length && forall k :: k in calls && k != key ==> calls[k].arr != s.arr
    }

    /** `calls[key]` compacted in place; an absent key is the nil slice. */
    method Prune(key: Key, cutoff: int) returns (kept: Slice)
      requires Valid()
      modifies Arrays()
      ensures Valid() && calls == old(calls) && Elsewhere(old(Contents()), key)
      ensures Usable(kept, key) && (kept.arr in Arrays() || fresh(kept.arr))
      ensures kept.arr[..kept.len] == Recent(Stored(old(Contents()), key), cutoff)
    {
      ghost var before := Contents();
      var timestamps: Slice;
      if key in calls {
        timestamps := calls[key];
        assert timestamps.arr in Arrays();
      } else {
        var nil := new int[0];
        timestamps := Slice(nil, 0);
      }
      assert timestamps.arr[..timestamps.len] == Stored(before, key);
      var n := Compact(timestamps, cutoff);
      kept := Slice(timestamps.arr, n);
    }

    /** `append`: in place while the capacity allows, into a fresh larger array otherwise. */
    method Append(key: Key, s: Slice, now: int, ghost contents: Calls) returns (r: Slice)
      requires Valid() && Usable(s, key) && Elsewhere(contents, key)
      modifies s.arr
      ensures Valid() && Usable(r, key) && Elsewhere(contents, key)
      ensures r.arr == s.arr || fresh(r.arr)
      ensures r.arr[..r.len] == old(s.arr[..s.len]) + [now]
    {
      if s.len < s.arr.Length {
        s.arr[s.len] := now;
        r := Slice(s.arr, s.len + 1);
      } else {
        var grown := new int[2 * s.len + 1];
        forall i | 0 <= i < s.len { grown[i] := s.arr[i]; }
        grown[s.len] := now;
        r := Slice(grown, s.len + 1);
      }
    }

    /** `calls[key] = s`. */
    method Store(key: Key, s: Slice, ghost contents: Calls)
      requires Valid() && Usable(s, key) && Elsewhere(contents, key)
      modifies this
      ensures Valid() && calls == old(calls)[key := s]
      ensures Contents() == contents[key := s.arr[..s.len]]
      ensures Arrays() <= old(Arrays()) + {s.arr}
    {
      calls := calls[key := s];
    }

    /** Admit the call at `now`: append its reading to the pruned ones, and store them. */
    method Admit(key: Key, kept: Slice, now: int, ghost contents: Calls)
      requires Valid() && Usable(kept, key) && Elsewhere(contents, key)
      modifies this, kept.arr
      ensures fresh(Arrays() - old(Arrays()) - {kept.arr})
      ensures Valid() && Contents() == contents[key := old(kept.arr[..kept.len]) + [now]]
    {
      var grown := Append(key, kept, now, contents);
      Store(key, grown, contents);
    }

    /** Decide on the pruned readings, and store what follows. */
    method Decide(key: Key, kept: Slice, now: int, ghost contents: Calls) returns (allowed: bool)
      requires Valid() && Usable(kept, key) && Elsewhere(contents, key)
      requires kept.arr[..kept.len] == Recent(Stored(contents, key), now - window)
      modifies this, kept.arr
      ensures Valid() && fresh(Arrays() - old(Arrays()) - {kept.arr})
      ensures allowed == Admits(limit, window, contents, Call(key, now))
      ensures Contents() == After(limit, window, contents, Call(key, now))
    {
      AfterDecision(limit, window, contents, Call(key, now));
      if kept.len >= limit {
        Store(key, kept, contents);
        return false;
      }
      Admit(key, kept, now, contents);
      return true;
    }

    method Allow(key: Key, now: int) returns (allowed: bool)
      requires Valid()
      modifies this, Arrays()
      ensures Valid() && fresh(Arrays() - old(Arrays()))
      ensures allowed == Admits(limit, window, old(Contents()), Call(key, now))
      ensures Contents() == After(limit, window, old(Contents()), Call(key, now))
    {
      ghost var before := Contents();
      var cutoff := now - window;
      var kept := Prune(key, cutoff);
      allowed := Decide(key, kept, now, before);
    }
  }
}
