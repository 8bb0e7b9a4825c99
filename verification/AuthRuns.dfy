/** What every run of the authentication service keeps, one operation at a time, any statement of
    any operation failing. */
module AuthRuns {
  import opened Base
  import opened AuthStore
  import opened Auth
  import opened TokenChains

  datatype Op =
    | DoRegister(id: UserId, email: Email, password: Password, code: Code)
    | DoRequest(id: UserId, code: Code)
    | DoConfirm(id: UserId, code: Code)
    | DoLogin(email: Email, password: Password, random: seq<byte>, jti: Jti)
    | DoRefresh(token: string, claims: Option<Claims>, random: seq<byte>, jti: Jti)
    | DoLogout(token: string)

  datatype Step = Step(op: Op, now: int, faults: Faults)

  type Run = History<Step>

  function Apply(cfg: Config, db: Db, s: Step): (Db, Reply) {
    match s.op
    case DoRegister(id, email, password, code) => Register(db, id, email, password, code, s.now, s.faults)
    case DoRequest(id, code) => RequestCode(db, id, code, s.now, s.faults)
    case DoConfirm(id, code) => ConfirmCode(db, id, code, s.now, s.faults)
    case DoLogin(email, password, random, jti) => Login(db, cfg, email, password, random, jti, s.now, s.faults)
    case DoRefresh(token, claims, random, jti) => Refresh(db, cfg, token, claims, random, jti, s.now, s.faults)
    case DoLogout(token) => Logout(db, cfg, token, s.now, s.faults)
  }

  function Exec(cfg: Config, db: Db, run: Run): Db {
    match run
    case Start => db
    case Then(before, s) => Apply(cfg, Exec(cfg, db, before), s).0
  }

  const EMPTY := Db(map[], map[], map[], map[])

  // ---------------------------------------------------------------------------------------------
  // What one step does to the refresh tokens

  predicate Mints(s: Step, r: Reply) {
    r.Issued? && (s.op.DoLogin? || s.op.DoRefresh?)
  }

  lemma RefreshMovesTokens(cfg: Config, db: Db, s: Step)
    requires s.op.DoRefresh? && !Apply(cfg, db, s).1.Issued?
    ensures OnlyRevokes(db.tokens, Apply(cfg, db, s).0.tokens)
  {
  }

  lemma LogoutMovesTokens(cfg: Config, db: Db, s: Step)
    requires s.op.DoLogout?
    ensures OnlyRevokes(db.tokens, Apply(cfg, db, s).0.tokens)
  {
  }

  lemma OthersKeepTokens(cfg: Config, db: Db, s: Step)
    requires !s.op.DoRefresh? && !s.op.DoLogout? && !Mints(s, Apply(cfg, db, s).1)
    ensures Apply(cfg, db, s).0.tokens == db.tokens
  {
  }

  lemma StepsThatDoNotMintOnlyRevoke(cfg: Config, db: Db, s: Step)
    requires !Mints(s, Apply(cfg, db, s).1)
    ensures OnlyRevokes(db.tokens, Apply(cfg, db, s).0.tokens)
  {
    if s.op.DoRefresh? {
      RefreshMovesTokens(cfg, db, s);
    } else if s.op.DoLogout? {
      LogoutMovesTokens(cfg, db, s);
    } else {
      OthersKeepTokens(cfg, db, s);
    }
  }

  function FreshToken(u: UserId, s: Step): Token
    requires s.op.DoLogin? || s.op.DoRefresh?
  {
    Token(u, Some(s.op.jti), s.now + REFRESH_TOKEN_TTL, None, None)
  }

  lemma LoginMints(cfg: Config, db: Db, s: Step)
    requires s.op.DoLogin? && Apply(cfg, db, s).1.Issued?
    ensures var (after, r) := Apply(cfg, db, s);
      && s.op.email in db.byEmail && db.byEmail[s.op.email] in db.users
      && r.refreshToken == Hex(s.op.random)
      && Hash(cfg, r.refreshToken) !in db.tokens
      && after == db.(tokens := db.tokens[Hash(cfg, r.refreshToken) := FreshToken(db.byEmail[s.op.email], s)])
  {
  }

  lemma RefreshMints(cfg: Config, db: Db, s: Step) returns (prev: Digest)
    requires s.op.DoRefresh? && Apply(cfg, db, s).1.Issued?
    ensures Find(db.tokens, cfg, s.op.token, s.faults) == Some(prev)
    ensures prev in db.tokens && s.now <= db.tokens[prev].expiresAt
    ensures db.tokens[prev].revokedAt.None? && db.tokens[prev].usedAt.None?
    ensures db.tokens[prev].userId in db.users
    ensures var (after, r) := Apply(cfg, db, s);
      && r.refreshToken == Hex(s.op.random)
      && Hash(cfg, r.refreshToken) !in db.tokens
      && after == db.(tokens := db.tokens[prev := Revoked(db.tokens[prev], s.now)]
                                         [Hash(cfg, r.refreshToken) := FreshToken(db.tokens[prev].userId, s)])
  {
    prev := Find(db.tokens, cfg, s.op.token, s.faults).value;
  }

  // ---------------------------------------------------------------------------------------------
  // Chains: each login starts one, each refresh extends the chain of the token it consumed

  function Mintings(cfg: Config, run: Run): nat {
    match run
    case Start => 0
    case Then(before, s) =>
      Mintings(cfg, before) + if Mints(s, Apply(cfg, Exec(cfg, EMPTY, before), s).1) then 1 else 0
  }

  function Lineage(cfg: Config, run: Run): Ledger<Digest> {
    match run
    case Start => map[]
    case Then(before, s) =>
      var db, l := Exec(cfg, EMPTY, before), Lineage(cfg, before);
      var r := Apply(cfg, db, s).1;
      if !Mints(s, r) then l
      else Enter(l, Mintings(cfg, before), Hash(cfg, r.refreshToken),
                 if s.op.DoRefresh? then Find(db.tokens, cfg, s.op.token, s.faults) else None)
  }

  lemma {:induction false} ChainsHold(cfg: Config, run: Run)
    ensures ChainsInv(Exec(cfg, EMPTY, run).tokens, Lineage(cfg, run), Mintings(cfg, run))
  {
    match run
    case Start =>
    case Then(before, s) =>
      ChainsHold(cfg, before);
      var db, l, n := Exec(cfg, EMPTY, before), Lineage(cfg, before), Mintings(cfg, before);
      var (after, r) := Apply(cfg, db, s);
      if !Mints(s, r) {
        StepsThatDoNotMintOnlyRevoke(cfg, db, s);
        RevokingKeepsChains(db.tokens, after.tokens, l, n);
        return;
      }
      var hash := Hash(cfg, r.refreshToken);
      if s.op.DoLogin? {
        LoginMints(cfg, db, s);
        EnterExtendsChains(db.tokens, l, n, hash, None, after.tokens[hash]);
      } else {
        var prev := RefreshMints(cfg, db, s);
        ExchangeExtendsChains(db.tokens, l, n, prev, hash, after.tokens[hash], s.now);
      }
  }

  /** One successor per token: in every run the stored tokens are exactly the minted ones, each login
      starts a chain, and along it a token has at most one child, which comes later. */
  lemma OneSuccessorPerToken(cfg: Config, run: Run, tokens: Tokens, l: Ledger<Digest>, a: Digest, b: Digest, c: Digest)
    requires tokens == Exec(cfg, EMPTY, run).tokens && l == Lineage(cfg, run)
    requires a in tokens && b in tokens && c in tokens
    ensures l.Keys == tokens.Keys
    ensures l[b].parent == Some(a) ==>
      l[a].pos < l[b].pos && l[a].chain == l[b].chain && (l[c].parent == Some(a) ==> b == c)
    ensures l[b].parent.None? ==> l[b].chain == l[b].pos
  {
    ChainsHold(cfg, run);
    assert Linked(l, b) && Linked(l, c);
  }

  /** One live token per login: all tokens of a chain belong to one user, and at most one of them is
      unrevoked, namely the last; none is ever marked used. */
  lemma OneLiveTokenPerLogin(cfg: Config, run: Run, tokens: Tokens, l: Ledger<Digest>, a: Digest, b: Digest)
    requires tokens == Exec(cfg, EMPTY, run).tokens && l == Lineage(cfg, run)
    requires a in tokens && b in tokens
    ensures l.Keys == tokens.Keys
    ensures l[a].chain == l[b].chain ==>
      && tokens[a].userId == tokens[b].userId
      && (tokens[a].revokedAt.None? ==> l[b].pos <= l[a].pos)
      && (tokens[a].revokedAt.None? && tokens[b].revokedAt.None? ==> a == b)
    ensures tokens[a].usedAt.None?
  {
    ChainsHold(cfg, run);
  }

  // ---------------------------------------------------------------------------------------------
  // Accounting

  /** The tokens of a user that could still be exchanged if unexpired. */
  function Active(tokens: Tokens, u: UserId): set<Digest> {
    set h | h in tokens && tokens[h].userId == u && tokens[h].revokedAt.None?
  }

  function LoginsOf(cfg: Config, run: Run, u: UserId): nat {
    match run
    case Start => 0
    case Then(before, s) =>
      var db := Exec(cfg, EMPTY, before);
      var own := s.op.DoLogin? && s.op.email in db.byEmail && db.byEmail[s.op.email] == u;
      LoginsOf(cfg, before, u) + if own && Apply(cfg, db, s).1.Issued? then 1 else 0
  }

  /** A successful refresh moves one active token of its user and leaves every other user alone. */
  lemma RefreshKeepsCount(cfg: Config, db: Db, s: Step, u: UserId)
    requires s.op.DoRefresh? && Apply(cfg, db, s).1.Issued?
    ensures |Active(Apply(cfg, db, s).0.tokens, u)| == |Active(db.tokens, u)|
  {
    var prev := RefreshMints(cfg, db, s);
    var (after, r) := Apply(cfg, db, s);
    var hash := Hash(cfg, r.refreshToken);
    if db.tokens[prev].userId == u {
      assert Active(after.tokens, u) == Active(db.tokens, u) - {prev} + {hash};
    } else {
      assert Active(after.tokens, u) == Active(db.tokens, u);
    }
  }

  /** The chains of a user are exactly their logins. */
  lemma {:induction false} RootsAreLogins(cfg: Config, run: Run, u: UserId)
    ensures |Roots(Exec(cfg, EMPTY, run).tokens, Lineage(cfg, run), u)| == LoginsOf(cfg, run, u)
  {
    match run
    case Start =>
    case Then(before, s) =>
      RootsAreLogins(cfg, before, u);
      ChainsHold(cfg, before);
      var db, l, n := Exec(cfg, EMPTY, before), Lineage(cfg, before), Mintings(cfg, before);
      var (after, r) := Apply(cfg, db, s);
      if !Mints(s, r) {
        StepsThatDoNotMintOnlyRevoke(cfg, db, s);
        RevokingKeepsRoots(db.tokens, after.tokens, l, u);
        return;
      }
      var hash := Hash(cfg, r.refreshToken);
      if s.op.DoLogin? {
        LoginMints(cfg, db, s);
        var token := after.tokens[hash];
        if token.userId == u {
          StartingAddsRoot(db.tokens, l, n, hash, token);
        } else {
          StartingKeepsOtherRoots(db.tokens, l, n, hash, token, u);
        }
      } else {
        var prev := RefreshMints(cfg, db, s);
        FollowingKeepsRoots(db.tokens, l, n, prev, hash, after.tokens[hash], s.now, u);
      }
  }

  /** A user never holds more unrevoked tokens than they have logged in. */
  lemma {:induction false} ActiveAtMostLogins(cfg: Config, run: Run, u: UserId)
    ensures |Active(Exec(cfg, EMPTY, run).tokens, u)| <= LoginsOf(cfg, run, u)
  {
    match run
    case Start =>
    case Then(before, s) =>
      ActiveAtMostLogins(cfg, before, u);
      var db := Exec(cfg, EMPTY, before);
      var (after, r) := Apply(cfg, db, s);
      if !Mints(s, r) {
        StepsThatDoNotMintOnlyRevoke(cfg, db, s);
        SubsetSize(Active(after.tokens, u), Active(db.tokens, u));
      } else if s.op.DoLogin? {
        LoginMints(cfg, db, s);
        var hash := Hash(cfg, r.refreshToken);
        if db.byEmail[s.op.email] == u {
          assert Active(after.tokens, u) == Active(db.tokens, u) + {hash};
        } else {
          assert Active(after.tokens, u) == Active(db.tokens, u);
        }
      } else {
        RefreshKeepsCount(cfg, db, s, u);
      }
  }

  /** Replay: presenting a stored token that is revoked, used or expired is refused, ends every
      session of its user (unless that very statement fails) and touches nobody else. */
  lemma ReplayEndsAllSessions(cfg: Config, db: Db, s: Step, h: Digest)
    requires s.op.DoRefresh? && s.op.token != "" && (IsLikelyJwt(s.op.token) ==> s.op.claims.Some?)
    requires Find(db.tokens, cfg, s.op.token, s.faults) == Some(h)
    requires db.tokens[h].revokedAt.Some? || db.tokens[h].usedAt.Some? || s.now > db.tokens[h].expiresAt
    ensures var (after, r) := Apply(cfg, db, s);
      && r == Failure(InvalidRefreshToken)
      && (s.faults.cleanup ==> after == db)
      && (!s.faults.cleanup ==> Active(after.tokens, db.tokens[h].userId) == {})
      && (forall k :: k in db.tokens && db.tokens[k].userId != db.tokens[h].userId ==>
            k in after.tokens && after.tokens[k] == db.tokens[k])
      && after == db.(tokens := after.tokens) && after.tokens.Keys == db.tokens.Keys
  {
  }

  lemma StepKeepsRevoked(cfg: Config, db: Db, s: Step, h: Digest)
    requires h in db.tokens && db.tokens[h].revokedAt.Some?
    ensures h in Apply(cfg, db, s).0.tokens && Apply(cfg, db, s).0.tokens[h] == db.tokens[h]
  {
    if !Mints(s, Apply(cfg, db, s).1) {
      StepsThatDoNotMintOnlyRevoke(cfg, db, s);
    } else if s.op.DoLogin? {
      LoginMints(cfg, db, s);
    } else {
      var prev := RefreshMints(cfg, db, s);
    }
  }

  lemma {:induction false} RevokedForever(cfg: Config, db: Db, run: Run, h: Digest)
    requires h in db.tokens && db.tokens[h].revokedAt.Some?
    ensures h in Exec(cfg, db, run).tokens && Exec(cfg, db, run).tokens[h] == db.tokens[h]
  {
    match run
    case Start =>
    case Then(before, s) =>
      RevokedForever(cfg, db, before, h);
      StepKeepsRevoked(cfg, Exec(cfg, db, before), s, h);
  }

  /** An opaque token stands for the record under its peppered hash, or for none. */
  lemma FindOpaque(tokens: Tokens, cfg: Config, token: string, f: Faults)
    requires !IsLikelyJwt(token)
    ensures Find(tokens, cfg, token, f) in {None, Some(Hash(cfg, token))}
  {
  }

  /** Rotation: once an opaque token, which is every token the service mints, has been exchanged, then
      whatever happens in between and whatever fails, presenting it again is refused for ever. */
  lemma ExchangedTokenNeverWorksAgain(cfg: Config, db: Db, first: Step, between: Run, later: Db, again: Step)
    requires first.op.DoRefresh? && again.op.DoRefresh? && first.op.token == again.op.token
    requires Apply(cfg, db, first).1.Issued? && !IsLikelyJwt(first.op.token)
    requires later == Exec(cfg, Apply(cfg, db, first).0, between)
    ensures Apply(cfg, later, again).1 == Failure(InvalidRefreshToken)
    ensures !again.faults.read && !again.faults.cleanup ==>
      Hash(cfg, first.op.token) in db.tokens
      && Active(Apply(cfg, later, again).0.tokens, db.tokens[Hash(cfg, first.op.token)].userId) == {}
  {
    var prev := RefreshMints(cfg, db, first);
    FindOpaque(db.tokens, cfg, first.op.token, first.faults);
    ExchangedRecordNeverWorksAgain(cfg, db, first, between, later, again, prev);
  }

  /** The same for any token, as long as a later lookup finds its record, if any: the record found is
      refused for ever, and ends every session of its user. */
  lemma ExchangedRecordNeverWorksAgain(cfg: Config, db: Db, first: Step, between: Run, later: Db, again: Step,
                                       h: Digest)
    requires first.op.DoRefresh? && again.op.DoRefresh? && first.op.token == again.op.token
    requires Apply(cfg, db, first).1.Issued? && Find(db.tokens, cfg, first.op.token, first.faults) == Some(h)
    requires later == Exec(cfg, Apply(cfg, db, first).0, between)
    requires IsLikelyJwt(first.op.token) ==> Find(later.tokens, cfg, again.op.token, again.faults) in {None, Some(h)}
    ensures Apply(cfg, later, again).1 == Failure(InvalidRefreshToken)
    ensures h in later.tokens && later.tokens[h].userId == db.tokens[h].userId
    ensures
      && Find(later.tokens, cfg, again.op.token, again.faults) == Some(h)
      && (IsLikelyJwt(again.op.token) ==> again.op.claims.Some?)
      && !again.faults.cleanup
      ==> Active(Apply(cfg, later, again).0.tokens, db.tokens[h].userId) == {}
  {
    var prev := RefreshMints(cfg, db, first);
    var token := again.op.token;
    RevokedForever(cfg, Apply(cfg, db, first).0, between, h);
    if !IsLikelyJwt(token) {
      FindOpaque(db.tokens, cfg, token, first.faults);
      FindOpaque(later.tokens, cfg, token, again.faults);
    }
    if Find(later.tokens, cfg, token, again.faults) == Some(h) && (IsLikelyJwt(token) ==> again.op.claims.Some?) {
      assert token != "";
      ReplayEndsAllSessions(cfg, later, again, h);
    }
  }

  /** Exactly when a refresh succeeds: the token is stored, unrevoked, unused, unexpired, fits its
      claims, its user exists, no statement fails and the new token is really new. */
  lemma RefreshSucceedsIff(cfg: Config, db: Db, s: Step)
    requires s.op.DoRefresh? && s.op.token != ""
    ensures
      var found := Find(db.tokens, cfg, s.op.token, s.faults);
      Apply(cfg, db, s).1.Issued? <==>
        && (IsLikelyJwt(s.op.token) ==> s.op.claims.Some?)
        && found.Some?
        && !Unusable(db.tokens[found.value], s.op.token, s.op.claims, s.now)
        && db.tokens[found.value].userId in db.users
        && Hash(cfg, Hex(s.op.random)) !in db.tokens
        && !s.faults.write && !s.faults.readUser && !s.faults.mint && !s.faults.insert
  {
  }

  /** Exactly when a login succeeds. */
  lemma LoginSucceedsIff(cfg: Config, db: Db, s: Step)
    requires s.op.DoLogin? && EmailsIndexUsers(db)
    ensures
      Apply(cfg, db, s).1.Issued? <==>
        && s.op.email in db.byEmail
        && (var u := db.users[db.byEmail[s.op.email]];
            u.password == s.op.password && u.emailVerified && u.isVerified && !u.isBanned)
        && Hash(cfg, Hex(s.op.random)) !in db.tokens
        && !s.faults.readUser && !s.faults.mint && !s.faults.insert
  {
  }

  /** Whatever fails, a logout that answers success has ended exactly the unrevoked record under the
      peppered hash, or, if that statement failed, the one under the legacy hash; any other answer means
      that nothing changed.  So success has ended the presented token only if it is stored under the
      hash that was reached. */
  lemma LogoutEndsTokenIff(cfg: Config, db: Db, s: Step, h: Digest)
    requires s.op.DoLogout? && s.op.token != ""
    requires h in db.tokens && db.tokens[h].revokedAt.None?
    ensures
      var (after, r) := Apply(cfg, db, s);
      var reached := if s.faults.write then LegacyHash(s.op.token) else Hash(cfg, s.op.token);
      && h in after.tokens
      && (r == Done ==> (after.tokens[h].revokedAt.Some? <==> h == reached))
      && (r != Done ==> after == db)
      && (r == Done <==> !s.faults.write
                         || (IsLikelyJwt(s.op.token) && cfg.allowLegacyRefresh && !s.faults.cleanup))
  {
  }

  /** One user's record, stored under the given hash, in an otherwise arbitrary database. */
  function OneToken(db: Db, h: Digest, user: UserId, expiresAt: int): Db {
    db.(tokens := map[h := Token(user, None, expiresAt, None, None)])
  }

  const PEPPERED := Config("p", true)
  const JWT := "a.b.c"

  lemma SampleToken()
    ensures IsLikelyJwt(JWT) && Hash(PEPPERED, JWT) != LegacyHash(JWT)
  {
    assert |JWT + "p"| == 6 && |JWT| == 5;
    assert Dots(JWT, 5) == 2 by {
      assert Dots(JWT, 1) == 0 && Dots(JWT, 2) == 1 && Dots(JWT, 3) == 1 && Dots(JWT, 4) == 2;
    }
  }

  /** An input at which logging out revokes nothing: a JWT stored under the legacy hash.  The service
      answers Done, the tables stay, and the token can still be found. */
  lemma LegacyLogoutRevokesNothing(db: Db, user: UserId, expiresAt: int, now: int, f: Faults)
    requires user in db.users && !f.write && !f.readLegacy
    ensures
      var stored := OneToken(db, LegacyHash(JWT), user, expiresAt);
      && Find(stored.tokens, PEPPERED, JWT, f) == Some(LegacyHash(JWT))
      && Logout(stored, PEPPERED, JWT, now, f) == (stored, Done)
  {
    SampleToken();
  }

  /** A second one: a JWT stored under the peppered hash, when the first statement fails.  The retry
      under the legacy hash matches no row and is answered Done. */
  lemma RetriedLogoutRevokesNothing(db: Db, user: UserId, expiresAt: int, now: int, f: Faults)
    requires user in db.users && f.write && !f.cleanup && !f.read
    ensures
      var stored := OneToken(db, Hash(PEPPERED, JWT), user, expiresAt);
      && Find(stored.tokens, PEPPERED, JWT, f) == Some(Hash(PEPPERED, JWT))
      && Logout(stored, PEPPERED, JWT, now, f) == (stored, Done)
  {
    SampleToken();
  }

  // ---------------------------------------------------------------------------------------------
  // Verification

  /** A confirm whose code matched one that could still be tried. */
  predicate Confirms(db: Db, s: Step, u: UserId) {
    && s.op.DoConfirm? && s.op.id == u
    && u in db.codes && Live(db.codes[u], s.now) && db.codes[u].hash == CodeHash(s.op.code)
  }

  predicate EverConfirmed(cfg: Config, run: Run, u: UserId) {
    run.Then? && (EverConfirmed(cfg, run.before, u) || Confirms(Exec(cfg, EMPTY, run.before), run.last, u))
  }

  predicate VerificationInv(cfg: Config, run: Run, db: Db) {
    && EmailsIndexUsers(db)
    && (forall u :: u in db.users ==>
          && db.users[u].emailVerified == db.users[u].isVerified
          && (db.users[u].emailVerified ==> EverConfirmed(cfg, run, u)))
    && (forall h :: h in db.tokens ==> db.tokens[h].userId in db.users && db.users[db.tokens[h].userId].emailVerified)
  }

  /** One step sets flags only for the user whose code it confirms, and never clears one. */
  lemma StepOnUsers(cfg: Config, db: Db, s: Step, u: UserId)
    requires u in Apply(cfg, db, s).0.users
    ensures var after := Apply(cfg, db, s).0.users[u];
      if u !in db.users then !after.emailVerified && !after.isVerified
      else
        || after == db.users[u]
        || (Confirms(db, s, u) && after == db.users[u].(emailVerified := true, isVerified := true))
  {
  }

  predicate EmailsIndexUsers(db: Db) {
    forall e :: e in db.byEmail ==> db.byEmail[e] in db.users && db.users[db.byEmail[e]].email == e
  }

  lemma RequestKeepsUsers(cfg: Config, db: Db, s: Step)
    requires s.op.DoRequest?
    ensures Apply(cfg, db, s).0 == db.(codes := Apply(cfg, db, s).0.codes)
  {
  }

  lemma LoginTouchesTokensOnly(cfg: Config, db: Db, s: Step)
    requires s.op.DoLogin? || s.op.DoLogout?
    ensures Apply(cfg, db, s).0 == db.(tokens := Apply(cfg, db, s).0.tokens)
  {
  }

  lemma RefreshTouchesTokensOnly(cfg: Config, db: Db, s: Step)
    requires s.op.DoRefresh?
    ensures Apply(cfg, db, s).0 == db.(tokens := Apply(cfg, db, s).0.tokens)
  {
  }

  lemma OnlyRegisterAndConfirmChangeUsers(cfg: Config, db: Db, s: Step)
    requires !s.op.DoRegister? && !s.op.DoConfirm?
    ensures var after := Apply(cfg, db, s).0;
      after.users == db.users && after.byEmail == db.byEmail && (!s.op.DoRequest? ==> after.codes == db.codes)
  {
    match s.op
    case DoRequest(_, _) => RequestKeepsUsers(cfg, db, s);
    case DoRefresh(_, _, _, _) => RefreshTouchesTokensOnly(cfg, db, s);
    case _ => LoginTouchesTokensOnly(cfg, db, s);
  }

  lemma RegisterInserts(cfg: Config, db: Db, s: Step)
    requires s.op.DoRegister?
    ensures var after, u := Apply(cfg, db, s).0, User(s.op.email, s.op.password, false, false, false);
      || after == db
      || (s.op.id !in db.users && s.op.email !in db.byEmail && after.tokens == db.tokens
          && after.byEmail == db.byEmail[s.op.email := s.op.id] && after.users == db.users[s.op.id := u])
  {
  }

  lemma ConfirmFlags(cfg: Config, db: Db, s: Step)
    requires s.op.DoConfirm?
    ensures var after := Apply(cfg, db, s).0;
      after.byEmail == db.byEmail && (after.users == db.users || after.users == SetFlags(db.users, s.op.id))
  {
  }

  /** Users are only ever added, each under an e-mail that had none. */
  lemma StepOnEmails(cfg: Config, db: Db, s: Step)
    requires EmailsIndexUsers(db)
    ensures EmailsIndexUsers(Apply(cfg, db, s).0)
    ensures db.users.Keys <= Apply(cfg, db, s).0.users.Keys
  {
    if s.op.DoRegister? {
      RegisterInserts(cfg, db, s);
    } else if s.op.DoConfirm? {
      ConfirmFlags(cfg, db, s);
    } else {
      OnlyRegisterAndConfirmChangeUsers(cfg, db, s);
    }
  }

  /** In every state the service reaches: the two flags of a user agree and are set only if some
      confirm matched a live code of that user, and every refresh token belongs to an existing,
      verified user. */
  lemma {:induction false} TokensBelongToConfirmedUsers(cfg: Config, run: Run)
    ensures VerificationInv(cfg, run, Exec(cfg, EMPTY, run))
    ensures
      var db := Exec(cfg, EMPTY, run);
      forall h :: h in db.tokens ==>
        && db.tokens[h].userId in db.users
        && db.users[db.tokens[h].userId].emailVerified && db.users[db.tokens[h].userId].isVerified
        && EverConfirmed(cfg, run, db.tokens[h].userId)
  {
    match run
    case Start =>
    case Then(before, s) =>
      TokensBelongToConfirmedUsers(cfg, before);
      var db := Exec(cfg, EMPTY, before);
      var (after, r) := Apply(cfg, db, s);
      StepOnEmails(cfg, db, s);
      forall u | u in after.users
        ensures after.users[u].emailVerified == after.users[u].isVerified
        ensures after.users[u].emailVerified ==> EverConfirmed(cfg, run, u)
        ensures u in db.users && db.users[u].emailVerified ==> after.users[u].emailVerified
      {
        StepOnUsers(cfg, db, s, u);
      }
      if !Mints(s, r) {
        StepsThatDoNotMintOnlyRevoke(cfg, db, s);
      } else if s.op.DoLogin? {
        LoginMints(cfg, db, s);
      } else {
        var prev := RefreshMints(cfg, db, s);
      }
  }

  /** What stays of a user's code: everything but its attempts and its first or later use. */
  predicate SameCode(before: Codes, after: Codes, u: UserId) {
    && (u in after <==> u in before)
    && (u in before ==>
          && after[u].hash == before[u].hash
          && after[u].expiresAt == before[u].expiresAt
          && (before[u].usedAt.Some? ==> after[u].usedAt.Some?))
  }

  lemma ConfirmIssuesNoCode(cfg: Config, db: Db, s: Step, u: UserId)
    requires s.op.DoConfirm?
    ensures SameCode(db.codes, Apply(cfg, db, s).0.codes, u)
  {
  }

  lemma RegisterIssuesNoOtherCode(cfg: Config, db: Db, s: Step, u: UserId)
    requires s.op.DoRegister? && u in db.users
    ensures SameCode(db.codes, Apply(cfg, db, s).0.codes, u)
  {
  }

  lemma RequestIssuesNoOtherCode(cfg: Config, db: Db, s: Step, u: UserId)
    requires s.op.DoRequest? && u in db.users && db.users[u].emailVerified
    ensures SameCode(db.codes, Apply(cfg, db, s).0.codes, u)
  {
  }

  lemma UsersStay(cfg: Config, db: Db, s: Step, u: UserId)
    requires u in db.users && db.users[u].emailVerified
    ensures u in Apply(cfg, db, s).0.users && Apply(cfg, db, s).0.users[u].emailVerified
  {
    if s.op.DoRegister? {
      RegisterInserts(cfg, db, s);
    } else if s.op.DoConfirm? {
      ConfirmFlags(cfg, db, s);
    } else {
      OnlyRegisterAndConfirmChangeUsers(cfg, db, s);
    }
  }

  lemma VerifiedUserGetsNoNewCode(cfg: Config, db: Db, s: Step, u: UserId)
    requires u in db.users && db.users[u].emailVerified
    ensures u in Apply(cfg, db, s).0.users && Apply(cfg, db, s).0.users[u].emailVerified
    ensures SameCode(db.codes, Apply(cfg, db, s).0.codes, u)
  {
    UsersStay(cfg, db, s, u);
    if s.op.DoRegister? {
      RegisterIssuesNoOtherCode(cfg, db, s, u);
    } else if s.op.DoConfirm? {
      ConfirmIssuesNoCode(cfg, db, s, u);
    } else if s.op.DoRequest? {
      RequestIssuesNoOtherCode(cfg, db, s, u);
    } else {
      OnlyRegisterAndConfirmChangeUsers(cfg, db, s);
    }
  }

  /** Once a user is verified, in every continuation they stay verified and are issued no new code. */
  lemma {:induction false} VerifiedUsersGetNoNewCode(cfg: Config, db: Db, run: Run, u: UserId)
    requires u in db.users && db.users[u].emailVerified
    ensures
      var after := Exec(cfg, db, run);
      && u in after.users && after.users[u].emailVerified && SameCode(db.codes, after.codes, u)
      && (u in after.codes <==> u in db.codes)
      && (u in db.codes ==>
            && after.codes[u].hash == db.codes[u].hash && after.codes[u].expiresAt == db.codes[u].expiresAt
            && (db.codes[u].usedAt.Some? ==> after.codes[u].usedAt.Some?))
  {
    match run
    case Start =>
    case Then(before, s) =>
      VerifiedUsersGetNoNewCode(cfg, db, before, u);
      VerifiedUserGetsNoNewCode(cfg, Exec(cfg, db, before), s, u);
  }

  /** Exactly when a confirm answers that the user is verified; the code is then used up. */
  lemma ConfirmSucceedsIff(cfg: Config, db: Db, s: Step)
    requires s.op.DoConfirm?
    ensures
      Apply(cfg, db, s).1 == Verified <==>
        Confirms(db, s, s.op.id) && !s.faults.read && !s.faults.write && !s.faults.cleanup
    ensures Apply(cfg, db, s).1 == Verified ==>
      var after := Apply(cfg, db, s).0;
      && after.codes[s.op.id].usedAt.Some?
      && (s.op.id in db.users ==> after.users[s.op.id].emailVerified && after.users[s.op.id].isVerified)
  {
  }

  /** A user is verified at most once: after that, no code is accepted from them in any run. */
  lemma VerifiedOnlyOnce(cfg: Config, db: Db, first: Step, between: Run, later: Db, again: Step)
    requires first.op.DoConfirm? && first.op.id in db.users && Apply(cfg, db, first).1 == Verified
    requires later == Exec(cfg, Apply(cfg, db, first).0, between)
    requires again.op.DoConfirm? && again.op.id == first.op.id
    ensures Apply(cfg, later, again).1 == Failure(if again.faults.read then Internal else InvalidVerificationCode)
  {
    ConfirmSucceedsIff(cfg, db, first);
    VerifiedUsersGetNoNewCode(cfg, Apply(cfg, db, first).0, between, first.op.id);
  }

  // ---------------------------------------------------------------------------------------------
  // Who gets in, in every run

  /** Some confirm matched a live code of the user, who existed, and set the flags. */
  predicate EverFlagged(cfg: Config, run: Run, u: UserId) {
    run.Then?
    && var db := Exec(cfg, EMPTY, run.before);
       EverFlagged(cfg, run.before, u)
       || (Confirms(db, run.last, u) && u in db.users && !run.last.faults.read && !run.last.faults.write)
  }

  lemma StepFlagsIff(cfg: Config, db: Db, s: Step, u: UserId)
    requires u in Apply(cfg, db, s).0.users
    ensures Apply(cfg, db, s).0.users[u].emailVerified <==>
      u in db.users && (db.users[u].emailVerified || (Confirms(db, s, u) && !s.faults.read && !s.faults.write))
    ensures !(u in db.users && db.users[u].isBanned) ==> !Apply(cfg, db, s).0.users[u].isBanned
  {
    if !s.op.DoRegister? && !s.op.DoConfirm? { OnlyRegisterAndConfirmChangeUsers(cfg, db, s); }
  }

  /** In every run a user's flags are set if and only if a confirm set them, and these operations ban
      nobody. */
  lemma {:induction false} FlaggedIff(cfg: Config, run: Run, u: UserId)
    ensures
      var db := Exec(cfg, EMPTY, run);
      && (EverFlagged(cfg, run, u) ==> u in db.users)
      && (u in db.users ==> !db.users[u].isBanned && (db.users[u].emailVerified <==> EverFlagged(cfg, run, u)))
  {
    match run
    case Start =>
    case Then(before, s) =>
      FlaggedIff(cfg, before, u);
      TokensBelongToConfirmedUsers(cfg, before);
      var db := Exec(cfg, EMPTY, before);
      StepOnEmails(cfg, db, s);
      if u in Apply(cfg, db, s).0.users { StepFlagsIff(cfg, db, s, u); }
  }

  /** In every run a login succeeds if and only if the password is that of the e-mail's user, some
      confirm verified them, no statement fails and the new token is really new. */
  lemma LoginInRunSucceedsIff(cfg: Config, run: Run, db: Db, s: Step)
    requires db == Exec(cfg, EMPTY, run) && s.op.DoLogin?
    ensures EmailsIndexUsers(db)
    ensures
      Apply(cfg, db, s).1.Issued? <==>
        && s.op.email in db.byEmail && db.users[db.byEmail[s.op.email]].password == s.op.password
        && EverFlagged(cfg, run, db.byEmail[s.op.email])
        && Hash(cfg, Hex(s.op.random)) !in db.tokens
        && !s.faults.readUser && !s.faults.mint && !s.faults.insert
  {
    TokensBelongToConfirmedUsers(cfg, run);
    LoginSucceedsIff(cfg, db, s);
    if s.op.email in db.byEmail { FlaggedIff(cfg, run, db.byEmail[s.op.email]); }
  }

  /** In every run an opaque token can be exchanged if and only if its record is there, unrevoked and
      unexpired, no statement fails and the new token is really new: its user always exists. */
  lemma RefreshInRunSucceedsIff(cfg: Config, run: Run, db: Db, s: Step)
    requires db == Exec(cfg, EMPTY, run) && s.op.DoRefresh? && s.op.token != "" && !IsLikelyJwt(s.op.token)
    ensures
      var h := Hash(cfg, s.op.token);
      Apply(cfg, db, s).1.Issued? <==>
        && h in db.tokens && db.tokens[h].revokedAt.None? && s.now <= db.tokens[h].expiresAt
        && Hash(cfg, Hex(s.op.random)) !in db.tokens
        && !s.faults.read && !s.faults.write && !s.faults.readUser && !s.faults.mint && !s.faults.insert
  {
    TokensBelongToConfirmedUsers(cfg, run);
    ChainsHold(cfg, run);
    RefreshSucceedsIff(cfg, db, s);
  }
}
