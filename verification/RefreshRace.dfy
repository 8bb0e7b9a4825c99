/** Refreshing with the statements of different requests interleaved: a refresh reads the record of its
    token, revokes it without learning whether it was the first to do so, and only then mints. */
module RefreshRace {
  import opened Base
  import opened AuthStore
  import Auth

  /** A refresh between its read and its end: the token it consumes, and whether it has revoked it. */
  datatype Flight<K> = Flight(token: K, revoked: bool)

  type Requests<K> = map<nat, Flight<K>>

  /** `parents` has, for every token minted by a refresh, the token that refresh consumed. */
  datatype State<K(==)> = State(tokens: map<K, Token>, pending: Requests<K>, parents: map<K, K>)

  datatype Event<K> =
    | Read(request: nat, hash: K, now: int)
    | Revoke(request: nat, now: int, fails: bool)
    | Mint(request: nat, hash: K, token: Token, fails: bool)
    | LoggedIn(hash: K, token: Token)
    | LoggedOut(hash: K, now: int)
    | RevokedAll(user: UserId, now: int)

  type Run<K> = History<Event<K>>

  predicate Usable(t: Token, now: int) {
    t.revokedAt.None? && t.usedAt.None? && now <= t.expiresAt
  }

  /** Is the event the read of a refresh that goes on? */
  predicate Starts<K>(s: State<K>, e: Event<K>) {
    e.Read? && e.request !in s.pending && e.hash in s.tokens && Usable(s.tokens[e.hash], e.now)
  }

  /** Is the event the statement `revoked` of a refresh under way? */
  predicate Continues<K>(s: State<K>, request: nat, revoked: bool) {
    request in s.pending && s.pending[request].revoked == revoked
  }

  function RevokedIn<K>(tokens: map<K, Token>, hash: K, now: int): map<K, Token> {
    if hash in tokens then tokens[hash := Revoked(tokens[hash], now)] else tokens
  }

  function Next<K(!new)>(s: State<K>, e: Event<K>): State<K> {
    match e
    case Read(request, hash, now) =>
      if Starts(s, e) then s.(pending := s.pending[request := Flight(hash, false)]) else s
    case Revoke(request, now, fails) =>
      if !Continues(s, request, false) then s
      else if fails then s.(pending := s.pending - {request})
      else
        var h := s.pending[request].token;
        s.(tokens := RevokedIn(s.tokens, h, now), pending := s.pending[request := Flight(h, true)])
    case Mint(request, hash, token, fails) =>
      if !Continues(s, request, true) then s
      else if fails || hash in s.tokens then s.(pending := s.pending - {request})
      else State(s.tokens[hash := token], s.pending - {request}, s.parents[hash := s.pending[request].token])
    case LoggedIn(hash, token) => if hash in s.tokens then s else s.(tokens := s.tokens[hash := token])
    case LoggedOut(hash, now) => s.(tokens := RevokedIn(s.tokens, hash, now))
    case RevokedAll(user, now) =>
      s.(tokens := map h | h in s.tokens ::
           if s.tokens[h].userId == user then Revoked(s.tokens[h], now) else s.tokens[h])
  }

  function After<K(!new)>(run: Run<K>): State<K> {
    match run
    case Start => State(map[], map[], map[])
    case Then(before, e) => Next(After(before), e)
  }

  function InFlight<K>(s: State<K>, h: K): set<nat> {
    set r | r in s.pending && s.pending[r].token == h
  }

  function Successors<K(!new)>(s: State<K>, h: K): set<K> {
    set c | c in s.parents && s.parents[c] == h
  }

  /** Never more than `k` refreshes of the token between their read and their end. */
  predicate AtMostInFlight<K(==, !new)>(run: Run<K>, h: K, k: nat) {
    |InFlight(After(run), h)| <= k && (run.Then? ==> AtMostInFlight(run.before, h, k))
  }

  // ---------------------------------------------------------------------------------------------
  // No more successors than refreshes in flight

  /** What refers to a token refers to a stored one, and an unrevoked token has no successor and no
      refresh past its revocation. */
  predicate Sound<K(!new)>(s: State<K>) {
    && (forall r :: r in s.pending ==> s.pending[r].token in s.tokens)
    && (forall r :: r in s.pending && s.pending[r].revoked ==> s.tokens[s.pending[r].token].revokedAt.Some?)
    && (forall c :: c in s.parents ==> c in s.tokens && s.parents[c] in s.tokens)
    && (forall c :: c in s.parents ==> s.tokens[s.parents[c]].revokedAt.Some?)
  }

  lemma StepIsSound<K(!new)>(s: State<K>, e: Event<K>)
    requires Sound(s)
    ensures Sound(Next(s, e))
    ensures s.tokens.Keys <= Next(s, e).tokens.Keys
    ensures forall h :: h in s.tokens && s.tokens[h].revokedAt.Some? ==> Next(s, e).tokens[h].revokedAt.Some?
  {
  }

  lemma {:induction false} RunsAreSound<K(!new)>(run: Run<K>)
    ensures Sound(After(run))
  {
    if run.Then? {
      RunsAreSound(run.before);
      StepIsSound(After(run.before), run.last);
    }
  }

  predicate RevokedToken<K>(s: State<K>, h: K) {
    h in s.tokens && s.tokens[h].revokedAt.Some?
  }

  /** Does the event mint a successor of the token? */
  predicate Succeeds<K>(s: State<K>, e: Event<K>, h: K) {
    e.Mint? && Continues(s, e.request, true) && s.pending[e.request].token == h && !e.fails && e.hash !in s.tokens
  }

  lemma SuccessorsAfter<K(!new)>(s: State<K>, e: Event<K>, h: K)
    requires Sound(s)
    ensures Succeeds(s, e, h) ==>
      && Successors(Next(s, e), h) == Successors(s, h) + {e.hash} && e.hash !in Successors(s, h)
      && e.request in InFlight(s, h) && InFlight(Next(s, e), h) == InFlight(s, h) - {e.request}
    ensures !Succeeds(s, e, h) ==> Successors(Next(s, e), h) == Successors(s, h)
  {
  }

  lemma InFlightAfter<K(!new)>(s: State<K>, e: Event<K>, h: K)
    requires RevokedToken(s, h)
    ensures InFlight(Next(s, e), h) <= InFlight(s, h)
  {
  }

  /** In every interleaving a token has at most as many successors as refreshes of it were ever in
      flight at once. */
  lemma {:induction false} SuccessorsAreBounded<K(!new)>(run: Run<K>, h: K, k: nat)
    requires AtMostInFlight(run, h, k)
    ensures RevokedToken(After(run), h) ==> |Successors(After(run), h)| + |InFlight(After(run), h)| <= k
    ensures !RevokedToken(After(run), h) ==> Successors(After(run), h) == {}
  {
    RunsAreSound(run);
    if run.Then? {
      var s, e := After(run.before), run.last;
      SuccessorsAreBounded(run.before, h, k);
      RunsAreSound(run.before);
      SuccessorsAfter(s, e, h);
      if RevokedToken(s, h) {
        StepIsSound(s, e);
        InFlightAfter(s, e, h);
        SubsetSize(InFlight(Next(s, e), h), InFlight(s, h));
      }
    }
  }

  // ---------------------------------------------------------------------------------------------
  // The bound is reached for every k

  /** The token is stored, and `n` refreshes of it read. */
  function Reads<K>(h: K, t: Token, n: nat): Run<K> {
    if n == 0 then Then(Start, LoggedIn(h, t)) else Then(Reads(h, t, n - 1), Read(n - 1, h, t.expiresAt))
  }

  /** Then the first `m` of them revoke. */
  function Revokes<K>(h: K, t: Token, n: nat, m: nat): Run<K> {
    if m == 0 then Reads(h, t, n) else Then(Revokes(h, t, n, m - 1), Event.Revoke(m - 1, t.expiresAt, false))
  }

  /** When all have, the first `m` of them mint. */
  function Mints<K>(h: K, t: Token, n: nat, m: nat, hashes: nat -> K): Run<K> {
    if m == 0 then Revokes(h, t, n, n) else Then(Mints(h, t, n, m - 1, hashes), Mint(m - 1, hashes(m - 1), t, false))
  }

  /** Requests m..n-1 are under way with the token, those below `l` past their revocation. */
  ghost predicate UnderWay<K>(s: State<K>, h: K, m: nat, n: nat, l: nat) {
    && (forall r: nat :: r in s.pending <==> m <= r < n)
    && (forall r: nat :: r in s.pending ==> s.pending[r] == Flight(h, r < l))
  }

  function Range(m: nat, n: nat): (r: set<nat>)
    requires m <= n
    ensures forall k: nat :: k in r <==> m <= k < n
    ensures |r| == n - m
    decreases n - m
  {
    if m == n then {} else {m} + Range(m + 1, n)
  }

  lemma UnderWaySize<K(!new)>(s: State<K>, h: K, m: nat, n: nat, l: nat)
    requires UnderWay(s, h, m, n, l) && m <= n
    ensures |InFlight(s, h)| == n - m
  {
    assert InFlight(s, h) == Range(m, n);
  }

  lemma {:induction false} AfterReads<K(!new)>(h: K, t: Token, n: nat, k: nat)
    requires t.revokedAt.None? && t.usedAt.None? && n <= k
    ensures UnderWay(After(Reads(h, t, n)), h, 0, n, 0)
    ensures After(Reads(h, t, n)).tokens == map[h := t] && After(Reads(h, t, n)).parents == map[]
    ensures AtMostInFlight(Reads(h, t, n), h, k)
  {
    if n > 0 {
      AfterReads(h, t, n - 1, k);
    } else {
      UnderWaySize(After<K>(Start), h, 0, 0, 0);
    }
    UnderWaySize(After(Reads(h, t, n)), h, 0, n, 0);
  }

  /** One more of them revokes. */
  lemma RevokeStep<K(!new)>(s: State<K>, h: K, t: Token, n: nat, m: nat)
    requires UnderWay(s, h, 0, n, m) && m < n && s.tokens.Keys == {h}
    requires s.tokens[h] == t || s.tokens[h] == Revoked(t, t.expiresAt)
    ensures
      var after := Next(s, Event.Revoke(m, t.expiresAt, false));
      && UnderWay(after, h, 0, n, m + 1) && after.parents == s.parents
      && after.tokens.Keys == {h} && after.tokens[h] == Revoked(t, t.expiresAt)
  {
  }

  lemma {:induction false} AfterRevokes<K(!new)>(h: K, t: Token, n: nat, m: nat, k: nat)
    requires t.revokedAt.None? && t.usedAt.None? && m <= n <= k
    ensures
      var s := After(Revokes(h, t, n, m));
      && UnderWay(s, h, 0, n, m) && s.parents == map[] && s.tokens.Keys == {h}
      && s.tokens[h] == if m == 0 then t else Revoked(t, t.expiresAt)
    ensures AtMostInFlight(Revokes(h, t, n, m), h, k)
  {
    if m > 0 {
      AfterRevokes(h, t, n, m - 1, k);
      RevokeStep(After(Revokes(h, t, n, m - 1)), h, t, n, m - 1);
    } else {
      AfterReads(h, t, n, k);
    }
    UnderWaySize(After(Revokes(h, t, n, m)), h, 0, n, m);
  }

  /** One more of them mints. */
  lemma MintStep<K(!new)>(s: State<K>, h: K, t: Token, n: nat, m: nat, hash: K)
    requires Sound(s) && UnderWay(s, h, m, n, n) && m < n && hash !in s.tokens
    ensures
      var after := Next(s, Mint(m, hash, t, false));
      && UnderWay(after, h, m + 1, n, n) && after.tokens == s.tokens[hash := t]
      && |Successors(after, h)| == |Successors(s, h)| + 1
  {
    SuccessorsAfter(s, Mint(m, hash, t, false), h);
  }

  lemma {:induction false} AfterMints<K(!new)>(h: K, t: Token, n: nat, m: nat, hashes: nat -> K, k: nat)
    requires t.revokedAt.None? && t.usedAt.None? && m <= n <= k
    requires forall i: nat, j: nat :: hashes(i) == hashes(j) ==> i == j
    requires forall i: nat :: hashes(i) != h
    ensures
      var s := After(Mints(h, t, n, m, hashes));
      && UnderWay(s, h, m, n, n)
      && (forall c :: c in s.tokens ==> c == h || exists i: nat :: i < m && hashes(i) == c)
      && |Successors(s, h)| == m
    ensures AtMostInFlight(Mints(h, t, n, m, hashes), h, k)
  {
    if m > 0 {
      var before := Mints(h, t, n, m - 1, hashes);
      AfterMints(h, t, n, m - 1, hashes, k);
      RunsAreSound(before);
      MintStep(After(before), h, t, n, m - 1, hashes(m - 1));
    } else {
      AfterRevokes(h, t, n, n, k);
      assert Successors(After(Revokes(h, t, n, n)), h) == {};
    }
    UnderWaySize(After(Mints(h, t, n, m, hashes)), h, m, n, n);
  }

  /** At most `m` successors, in all runs with at most `k` refreshes of the token in flight, if and only
      if k <= m; one successor per token, exactly when refreshes of it never overlap. */
  lemma SuccessorsBoundedIff<K(!new)>(h: K, t: Token, hashes: nat -> K, k: nat, m: nat)
    requires t.revokedAt.None? && t.usedAt.None?
    requires forall i: nat, j: nat :: hashes(i) == hashes(j) ==> i == j
    requires forall i: nat :: hashes(i) != h
    ensures (forall run :: AtMostInFlight(run, h, k) ==> |Successors(After(run), h)| <= m) <==> k <= m
  {
    if k <= m {
      forall run | AtMostInFlight(run, h, k) ensures |Successors(After(run), h)| <= m {
        SuccessorsAreBounded(run, h, k);
      }
    } else {
      AfterMints(h, t, k, k, hashes, k);
    }
  }

  /** What the three statements of one refresh do together when nothing comes in between. */
  lemma ThreeStatements<K(!new)>(s: State<K>, request: nat, h: K, now: int, revokeFails: bool, minted: K, token: Token,
                                 mintFails: bool)
    requires request !in s.pending && h in s.tokens && Usable(s.tokens[h], now)
    ensures
      var revoked := Next(Next(s, Read(request, h, now)), Event.Revoke(request, now, revokeFails));
      var after := Next(revoked, Mint(request, minted, token, mintFails));
      && after.pending == s.pending
      && after.tokens == if revokeFails then s.tokens
                         else if mintFails || minted in s.tokens then s.tokens[h := Revoked(s.tokens[h], now)]
                         else s.tokens[h := Revoked(s.tokens[h], now)][minted := token]
  {
    var first := s.pending[request := Flight(h, false)];
    assert first - {request} == s.pending;
    assert first[request := Flight(h, true)] - {request} == s.pending;
  }

  /** The service's refresh of a usable token is these three statements in a row: run alone, it does to
      the tokens what they do, and ends. */
  lemma RefreshIsReadRevokeMint(db: Db, cfg: Auth.Config, s: State<Digest>, request: nat, token: string,
                                claims: Option<Auth.Claims>, random: seq<Auth.byte>, jti: Jti, now: int, f: Auth.Faults,
                                h: Digest)
    requires s.tokens == db.tokens && request !in s.pending && token != ""
    requires Auth.IsLikelyJwt(token) ==> claims.Some?
    requires Auth.Find(db.tokens, cfg, token, f) == Some(h) && !Auth.Unusable(db.tokens[h], token, claims, now)
    ensures
      var owner := db.tokens[h].userId;
      var minted := Token(owner, Some(jti), now + Auth.REFRESH_TOKEN_TTL, None, None);
      var mintFails := f.readUser || owner !in db.users || f.mint || f.insert;
      var revoked := Next(Next(s, Read(request, h, now)), Event.Revoke(request, now, f.write));
      var after := Next(revoked, Mint(request, Auth.Hash(cfg, Auth.Hex(random)), minted, mintFails));
      && after.tokens == Auth.Refresh(db, cfg, token, claims, random, jti, now, f).0.tokens
      && after.pending == s.pending
  {
    var owner := db.tokens[h].userId;
    var minted := Token(owner, Some(jti), now + Auth.REFRESH_TOKEN_TTL, None, None);
    var mintFails := f.readUser || owner !in db.users || f.mint || f.insert;
    ThreeStatements(s, request, h, now, f.write, Auth.Hash(cfg, Auth.Hex(random)), minted, mintFails);
  }

  /** A login that issues a token is an insert. */
  lemma LoginIsLoggedIn(db: Db, cfg: Auth.Config, s: State<Digest>, email: Email, password: Password,
                        random: seq<Auth.byte>, jti: Jti, now: int, f: Auth.Faults)
    requires s.tokens == db.tokens && forall e :: e in db.byEmail ==> db.byEmail[e] in db.users
    ensures
      var (after, r) := Auth.Login(db, cfg, email, password, random, jti, now, f);
      && (!r.Issued? ==> after.tokens == s.tokens)
      && (r.Issued? ==>
            && email in db.byEmail
            && var stored := Token(db.byEmail[email], Some(jti), now + 604800, None, None);
               after.tokens == Next(s, LoggedIn(Auth.Hash(cfg, r.refreshToken), stored)).tokens)
  {
  }

  /** A logout is a revocation of the record under one of its hashes, or changes nothing. */
  lemma LogoutIsLoggedOut(db: Db, cfg: Auth.Config, s: State<Digest>, token: string, now: int, f: Auth.Faults)
    requires s.tokens == db.tokens && token != ""
    ensures
      var after := Auth.Logout(db, cfg, token, now, f).0;
      var retries := Auth.IsLikelyJwt(token) && cfg.allowLegacyRefresh && !f.cleanup;
      after.tokens == if !f.write then Next(s, LoggedOut(Auth.Hash(cfg, token), now)).tokens
                      else if retries then Next(s, LoggedOut(Auth.LegacyHash(token), now)).tokens
                      else s.tokens
  {
  }

  /** A refresh with a record that must not be exchanged revokes all tokens of its user; for an opaque
      token its read is not one that goes on. */
  lemma RefusalIsRevokedAll(db: Db, cfg: Auth.Config, s: State<Digest>, request: nat, token: string,
                            claims: Option<Auth.Claims>, random: seq<Auth.byte>, jti: Jti, now: int, f: Auth.Faults,
                            h: Digest)
    requires s.tokens == db.tokens && token != "" && (Auth.IsLikelyJwt(token) ==> claims.Some?)
    requires Auth.Find(db.tokens, cfg, token, f) == Some(h) && Auth.Unusable(db.tokens[h], token, claims, now)
    ensures
      Auth.Refresh(db, cfg, token, claims, random, jti, now, f).0.tokens ==
        if f.cleanup then s.tokens else Next(s, RevokedAll(db.tokens[h].userId, now)).tokens
    ensures !Auth.IsLikelyJwt(token) ==> Next(s, Read(request, h, now)) == s
  {
  }
}
