/** Confirming verification codes with the statements of different requests interleaved: a confirm
    reads the record, compares its guess with what it read, and only later counts the attempt. */
module AttemptBound {
  import opened Base
  import opened AuthStore
  import opened Auth

  /** The n-th code issued to a user; a confirm remembers which one it was compared with. */
  datatype Issue = Issue(user: UserId, nth: nat)

  type Requests = map<nat, Issue>

  /** `issued` counts the codes issued to each user, `pending` the wrong guesses not yet counted. */
  datatype State = State(codes: Codes, issued: map<UserId, nat>, pending: Requests)

  datatype Event =
    | Upserted(user: UserId, hash: CodeHash, expiresAt: int)
    | Read(request: nat, user: UserId, guess: Code, now: int)
    | Counted(request: nat, fails: bool)
    | Invalidated(user: UserId, now: int)

  type Run = History<Event>

  function IssuedTo(s: State, u: UserId): nat {
    if u in s.issued then s.issued[u] else 0
  }

  /** A guess that was compared with a live code and was wrong, so that it is to be counted. */
  predicate ComparedWrong(s: State, e: Event) {
    && e.Read? && e.request !in s.pending
    && e.user in s.codes && Live(s.codes[e.user], e.now) && s.codes[e.user].hash != CodeHash(e.guess)
  }

  function Next(s: State, e: Event): State {
    match e
    case Upserted(u, hash, expiresAt) =>
      s.(codes := UpsertCode(s.codes, u, hash, expiresAt), issued := s.issued[u := IssuedTo(s, u) + 1])
    case Read(request, u, _, _) =>
      if ComparedWrong(s, e) then s.(pending := s.pending[request := Issue(u, IssuedTo(s, u))]) else s
    case Counted(request, fails) =>
      if request !in s.pending then s
      else s.(pending := s.pending - {request},
              codes := if fails then s.codes else IncrementAttempts(s.codes, s.pending[request].user))
    case Invalidated(u, now) =>
      s.(codes := InvalidateCode(s.codes, u, now))
  }

  function After(run: Run): State {
    match run
    case Start => State(map[], map[], map[])
    case Then(before, e) => Next(After(before), e)
  }

  /** Wrong guesses compared with code `i` whose attempt was counted successfully. */
  function Wrong(run: Run, i: Issue): nat {
    match run
    case Start => 0
    case Then(before, e) =>
      var s := After(before);
      Wrong(before, i) + if Ends(s, e, i) && !e.fails then 1 else 0
  }

  function InFlight(s: State, i: Issue): set<nat> {
    set r | r in s.pending && s.pending[r] == i
  }

  /** Never more than `k` confirms of code `i` between their read and their count. */
  predicate AtMostInFlight(run: Run, i: Issue, k: nat) {
    |InFlight(After(run), i)| <= k && (run.Then? ==> AtMostInFlight(run.before, i, k))
  }

  /** The attempts of the code currently issued bound its counted wrong guesses; codes not yet
      issued have none. */
  predicate CountsInv(run: Run, i: Issue) {
    var s := After(run);
    && s.codes.Keys == s.issued.Keys
    && (forall r :: r in s.pending && s.pending[r].user == i.user ==>
          i.user in s.issued && s.pending[r].nth <= s.issued[i.user])
    && (i.nth > IssuedTo(s, i.user) ==> Wrong(run, i) == 0)
    && (i.user in s.codes ==> s.codes[i.user].attempts >= 0)
    && (i.user in s.codes && i.nth == IssuedTo(s, i.user) ==> Wrong(run, i) <= s.codes[i.user].attempts)
    && (i.user !in s.issued ==> Wrong(run, i) == 0)
  }

  lemma {:induction false} CountsHold(run: Run, i: Issue)
    ensures CountsInv(run, i)
  {
    match run
    case Start =>
    case Then(before, e) =>
      CountsHold(before, i);
  }

  predicate Starts(s: State, e: Event, i: Issue) {
    ComparedWrong(s, e) && Issue(e.user, IssuedTo(s, e.user)) == i
  }

  predicate Ends(s: State, e: Event, i: Issue) {
    e.Counted? && e.request in s.pending && s.pending[e.request] == i
  }

  lemma InFlightAfter(s: State, e: Event, i: Issue)
    ensures Ends(s, e, i) ==> e.request in InFlight(s, i) && InFlight(Next(s, e), i) == InFlight(s, i) - {e.request}
    ensures Starts(s, e, i) ==> InFlight(Next(s, e), i) == InFlight(s, i) + {e.request}
    ensures !Starts(s, e, i) && !Ends(s, e, i) ==> InFlight(Next(s, e), i) == InFlight(s, i)
  {
  }

  /** At most 4 + k wrong guesses are ever counted against one issued code when at most k confirms
      of it are in flight, even if every invalidation fails and new codes are issued in between. */
  lemma {:induction false} AttemptsAreBounded(run: Run, i: Issue, k: nat)
    requires AtMostInFlight(run, i, k)
    ensures Wrong(run, i) + |InFlight(After(run), i)| <= 4 + k
  {
    match run
    case Start =>
      assert InFlight(After(run), i) == {};
    case Then(before, e) =>
      AttemptsAreBounded(before, i, k);
      var s := After(before);
      InFlightAfter(s, e, i);
      if Starts(s, e, i) {
        // The record read still allows an attempt, and it counts every wrong guess counted so far.
        CountsHold(before, i);
      }
  }

  /** One confirm at a time: the cap is exactly the configured five. */
  lemma SequentialCap(run: Run, i: Issue)
    requires AtMostInFlight(run, i, 1)
    ensures Wrong(run, i) <= 5
  {
    AttemptsAreBounded(run, i, 1);
  }

  /** The service's confirm is such a pair of events, perhaps followed by an invalidation. */
  lemma ConfirmReadsThenCounts(db: Db, s: State, request: nat, id: UserId, code: Code, now: int, f: Faults)
    requires s.codes == db.codes && request !in s.pending && !f.read
    ensures var counted := Next(Next(s, Read(request, id, code, now)), Counted(request, f.write));
      && counted.pending == s.pending && counted.issued == s.issued
      && ConfirmCode(db, id, code, now, f).0.codes in {counted.codes, Next(counted, Invalidated(id, now)).codes}
  {
    var read := Next(s, Read(request, id, code, now));
    if request in read.pending {
      assert read.pending - {request} == s.pending;
    }
  }

  /** A request answered Sent is an upsert of a code that lives 300 seconds; any other changes no code. */
  lemma RequestUpserts(db: Db, s: State, id: UserId, code: Code, now: int, f: Faults)
    requires s.codes == db.codes
    ensures
      var (after, r) := RequestCode(db, id, code, now, f);
      after.codes == if r == Sent then Next(s, Upserted(id, CodeHash(code), now + 300)).codes else s.codes
  {
  }

  // ---------------------------------------------------------------------------------------------
  // The bound is reached for every k

  /** Requests m..n-1, all compared with code `i`. */
  function Flights(i: Issue, m: nat, n: nat): (f: Requests)
    ensures forall r: nat :: r in f <==> m <= r < n
    ensures forall r: nat :: r in f ==> f[r] == i
    decreases n - m
  {
    if m >= n then map[] else Flights(i, m + 1, n)[m := i]
  }

  lemma {:induction false} FlightSize(s: State, i: Issue, m: nat, n: nat)
    requires m <= n
    ensures |InFlight(s.(pending := Flights(i, m, n)), i)| == n - m
    decreases n - m
  {
    var flight := InFlight(s.(pending := Flights(i, m, n)), i);
    if m < n {
      FlightSize(s, i, m + 1, n);
      assert flight == InFlight(s.(pending := Flights(i, m + 1, n)), i) + {m};
    } else {
      assert flight == {};
    }
  }

  /** `n` requests read, one after the other. */
  function Reads(before: Run, u: UserId, guess: Code, n: nat): Run {
    if n == 0 then before else Then(Reads(before, u, guess, n - 1), Read(n - 1, u, guess, 0))
  }

  /** The first `m` of them count. */
  function Counts(before: Run, m: nat): Run {
    if m == 0 then before else Then(Counts(before, m - 1), Counted(m - 1, false))
  }

  /** `n` confirms read, then all of them count. */
  function Burst(before: Run, u: UserId, guess: Code, n: nat): Run {
    Counts(Reads(before, u, guess, n), n)
  }

  /** Nothing is pending, and the user's code can be tried with a wrong guess. */
  predicate Ready(s: State, u: UserId, guess: Code) {
    s.pending == map[] && u in s.codes && Live(s.codes[u], 0) && s.codes[u].hash != CodeHash(guess)
  }

  lemma ReadStep(s: State, u: UserId, guess: Code, n: nat)
    requires Ready(s, u, guess)
    ensures
      var i := Issue(u, IssuedTo(s, u));
      Next(s.(pending := Flights(i, 0, n)), Read(n, u, guess, 0)) == s.(pending := Flights(i, 0, n + 1))
  {
    var i := Issue(u, IssuedTo(s, u));
    assert Flights(i, 0, n + 1) == Flights(i, 0, n)[n := i];
  }

  /** After `n` reads the requests 0..n-1 are pending, and nothing else has changed. */
  lemma {:induction false} ReadsPend(before: Run, u: UserId, guess: Code, n: nat)
    requires Ready(After(before), u, guess)
    ensures
      var s := After(before);
      After(Reads(before, u, guess, n)) == s.(pending := Flights(Issue(u, IssuedTo(s, u)), 0, n))
  {
    var s := After(before);
    var i := Issue(u, IssuedTo(s, u));
    if n > 0 {
      ReadsPend(before, u, guess, n - 1);
      ReadStep(s, u, guess, n - 1);
    } else {
      assert Flights(i, 0, 0) == map[];
    }
  }

  lemma {:induction false} ReadsStayInFlight(before: Run, u: UserId, guess: Code, n: nat, i: Issue, k: nat)
    requires Ready(After(before), u, guess) && i == Issue(u, IssuedTo(After(before), u))
    requires n <= k && AtMostInFlight(before, i, k)
    ensures AtMostInFlight(Reads(before, u, guess, n), i, k)
    ensures Wrong(Reads(before, u, guess, n), i) == Wrong(before, i)
  {
    if n > 0 {
      ReadsStayInFlight(before, u, guess, n - 1, i, k);
      ReadsPend(before, u, guess, n);
      FlightSize(After(before), i, 0, n);
    }
  }

  function Attempted(codes: Codes, u: UserId, n: nat): Codes
    requires u in codes
  {
    codes[u := codes[u].(attempts := codes[u].attempts + n)]
  }

  lemma AttemptedMore(codes: Codes, u: UserId, n: nat, m: nat)
    requires u in codes
    ensures Attempted(Attempted(codes, u, n), u, m) == Attempted(codes, u, n + m)
    ensures IncrementAttempts(Attempted(codes, u, n), u) == Attempted(codes, u, n + 1)
  {
  }

  function Stored(s: State, pending: Requests, u: UserId, n: nat): State
    requires u in s.codes
  {
    State(Attempted(s.codes, u, n), s.issued, pending)
  }

  lemma CountStep(s: State, u: UserId, i: Issue, m: nat, n: nat)
    requires u in s.codes && i.user == u && m < n
    ensures Next(Stored(s, Flights(i, m, n), u, m), Counted(m, false)) == Stored(s, Flights(i, m + 1, n), u, m + 1)
  {
    AttemptedMore(s.codes, u, m, 1);
    assert Flights(i, m, n) - {m} == Flights(i, m + 1, n);
  }

  /** After `m` of the requests 0..n-1 have counted, the others are pending and `m` attempts are stored. */
  lemma {:induction false} CountsStore(before: Run, u: UserId, i: Issue, m: nat, n: nat)
    requires u in After(before).codes && i.user == u && m <= n && After(before).pending == Flights(i, 0, n)
    ensures After(Counts(before, m)) == Stored(After(before), Flights(i, m, n), u, m)
  {
    if m > 0 {
      CountsStore(before, u, i, m - 1, n);
      CountStep(After(before), u, i, m - 1, n);
    } else {
      assert Attempted(After(before).codes, u, 0) == After(before).codes;
    }
  }

  lemma {:induction false} CountsStayInFlight(before: Run, u: UserId, i: Issue, m: nat, n: nat, k: nat)
    requires u in After(before).codes && i.user == u && m <= n <= k && After(before).pending == Flights(i, 0, n)
    requires AtMostInFlight(before, i, k)
    ensures AtMostInFlight(Counts(before, m), i, k)
  {
    if m > 0 {
      CountsStayInFlight(before, u, i, m - 1, n, k);
      CountsStore(before, u, i, m, n);
      FlightSize(After(Counts(before, m)), i, m, n);
      assert After(Counts(before, m)) == After(Counts(before, m)).(pending := Flights(i, m, n));
    }
  }

  lemma {:induction false} CountsAdd(before: Run, u: UserId, i: Issue, m: nat, n: nat)
    requires u in After(before).codes && i.user == u && m <= n && After(before).pending == Flights(i, 0, n)
    ensures Wrong(Counts(before, m), i) == Wrong(before, i) + m
  {
    if m > 0 {
      CountsAdd(before, u, i, m - 1, n);
      CountsStore(before, u, i, m - 1, n);
    }
  }

  lemma BurstStores(before: Run, u: UserId, guess: Code, n: nat)
    requires Ready(After(before), u, guess)
    ensures After(Burst(before, u, guess, n)) == Stored(After(before), map[], u, n)
  {
    var i := Issue(u, IssuedTo(After(before), u));
    ReadsPend(before, u, guess, n);
    CountsStore(Reads(before, u, guess, n), u, i, n, n);
    assert Flights(i, n, n) == map[];
  }

  /** A burst of `n` wrong guesses counts all of them. */
  lemma BurstAdds(before: Run, u: UserId, guess: Code, n: nat, i: Issue, k: nat)
    requires Ready(After(before), u, guess) && i == Issue(u, IssuedTo(After(before), u))
    requires n <= k && AtMostInFlight(before, i, k)
    ensures Wrong(Burst(before, u, guess, n), i) == Wrong(before, i) + n
    ensures AtMostInFlight(Burst(before, u, guess, n), i, k)
  {
    var burst := Reads(before, u, guess, n);
    ReadsPend(before, u, guess, n);
    ReadsStayInFlight(before, u, guess, n, i, k);
    CountsStayInFlight(burst, u, i, n, n, k);
    CountsAdd(burst, u, i, n, n);
  }

  /** One wrong guess after the other, `n` of them. */
  function OneByOne(before: Run, u: UserId, guess: Code, n: nat): Run {
    if n == 0 then before else Burst(OneByOne(before, u, guess, n - 1), u, guess, 1)
  }

  lemma StoredIsReady(s: State, u: UserId, guess: Code, n: nat)
    requires Ready(s, u, guess) && s.codes[u].attempts + n < MAX_ATTEMPTS
    ensures Ready(Stored(s, map[], u, n), u, guess) && IssuedTo(Stored(s, map[], u, n), u) == IssuedTo(s, u)
    ensures Stored(Stored(s, map[], u, n), map[], u, 1) == Stored(s, map[], u, n + 1)
  {
    AttemptedMore(s.codes, u, n, 1);
  }

  lemma {:induction false} OneByOneStores(before: Run, u: UserId, guess: Code, n: nat)
    requires Ready(After(before), u, guess) && After(before).codes[u].attempts + n <= MAX_ATTEMPTS
    ensures After(OneByOne(before, u, guess, n)) == Stored(After(before), map[], u, n)
  {
    if n > 0 {
      OneByOneStores(before, u, guess, n - 1);
      StoredIsReady(After(before), u, guess, n - 1);
      BurstStores(OneByOne(before, u, guess, n - 1), u, guess, 1);
    } else {
      assert Attempted(After(before).codes, u, 0) == After(before).codes;
    }
  }

  lemma OneByOneIsReady(before: Run, u: UserId, guess: Code, n: nat)
    requires Ready(After(before), u, guess) && After(before).codes[u].attempts + n < MAX_ATTEMPTS
    ensures Ready(After(OneByOne(before, u, guess, n)), u, guess)
    ensures IssuedTo(After(OneByOne(before, u, guess, n)), u) == IssuedTo(After(before), u)
  {
    OneByOneStores(before, u, guess, n);
    StoredIsReady(After(before), u, guess, n);
  }

  lemma {:induction false} OneByOneAdds(before: Run, u: UserId, guess: Code, n: nat, i: Issue, k: nat)
    requires Ready(After(before), u, guess) && i == Issue(u, IssuedTo(After(before), u))
    requires k >= 1 && AtMostInFlight(before, i, k) && After(before).codes[u].attempts + n <= MAX_ATTEMPTS
    ensures Wrong(OneByOne(before, u, guess, n), i) == Wrong(before, i) + n
    ensures AtMostInFlight(OneByOne(before, u, guess, n), i, k)
  {
    if n > 0 {
      OneByOneAdds(before, u, guess, n - 1, i, k);
      OneByOneIsReady(before, u, guess, n - 1);
      BurstAdds(OneByOne(before, u, guess, n - 1), u, guess, 1, i, k);
    }
  }

  /** `n` codes issued, none tried. */
  function Issuing(u: UserId, code: Code, n: nat): Run {
    if n == 0 then Start else Then(Issuing(u, code, n - 1), Upserted(u, CodeHash(code), 0))
  }

  lemma {:induction false} IssuingIsReady(u: UserId, code: Code, n: nat, i: Issue, k: nat)
    ensures
      var s := After(Issuing(u, code, n));
      && s.pending == map[] && IssuedTo(s, u) == n
      && (n > 0 ==> u in s.codes && s.codes[u] == CodeRecord(CodeHash(code), 0, 0, None))
    ensures AtMostInFlight(Issuing(u, code, n), i, k)
  {
    if n > 0 { IssuingIsReady(u, code, n - 1, i, k); }
    assert InFlight(After(Issuing(u, code, n)), i) == {};
  }

  /** Four wrong guesses one after the other, then k at once: 4 + k are counted against any code. */
  lemma BoundIsReached(i: Issue, code: Code, guess: Code, k: nat) returns (run: Run)
    requires code != guess && k >= 1 && i.nth >= 1
    ensures AtMostInFlight(run, i, k) && Wrong(run, i) == 4 + k
  {
    var issued := Issuing(i.user, code, i.nth);
    IssuingIsReady(i.user, code, i.nth, i, k);
    CountsHold(issued, i);
    OneByOneAdds(issued, i.user, guess, MAX_ATTEMPTS - 1, i, k);
    OneByOneIsReady(issued, i.user, guess, MAX_ATTEMPTS - 1);
    var tried := OneByOne(issued, i.user, guess, MAX_ATTEMPTS - 1);
    BurstAdds(tried, i.user, guess, k, i, k);
    run := Burst(tried, i.user, guess, k);
  }

  /** The cap of five holds for all runs with at most k confirms of the code in flight if and only if k
      is at most one. */
  lemma CapHoldsIff(i: Issue, code: Code, guess: Code, k: nat)
    requires code != guess && i.nth >= 1
    ensures (forall run :: AtMostInFlight(run, i, k) ==> Wrong(run, i) <= 5) <==> k <= 1
  {
    if k <= 1 {
      forall run | AtMostInFlight(run, i, k) ensures Wrong(run, i) <= 5 {
        AttemptsAreBounded(run, i, k);
      }
    } else {
      var run := BoundIsReached(i, code, guess, k);
    }
  }
}
