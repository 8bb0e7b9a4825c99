/** How long tokens and codes live, in seconds, and that the service as a whole lets people in. */
module AuthLifetimes {
  import opened Base
  import opened AuthStore
  import opened Auth
  import opened AuthRuns
  import opened TokenChains

  /** No statement of the operation fails. */
  predicate NoFault(f: Faults) {
    !f.read && !f.readLegacy && !f.write && !f.cleanup && !f.readUser && !f.mint && !f.insert && !f.duplicate
  }

  // ---------------------------------------------------------------------------------------------
  // Refresh tokens live a week

  /** Some login or refresh of the run answered, at time `t`, with the token stored under `h`. */
  predicate IssuedAt(cfg: Config, run: Run, h: Digest, t: int) {
    run.Then?
    && var r := Apply(cfg, Exec(cfg, EMPTY, run.before), run.last).1;
       IssuedAt(cfg, run.before, h, t) || (Mints(run.last, r) && Hash(cfg, r.refreshToken) == h && run.last.now == t)
  }

  lemma StepKeepsRecord(cfg: Config, db: Db, s: Step, h: Digest)
    requires h in db.tokens
    ensures
      var after := Apply(cfg, db, s).0.tokens;
      h in after && after[h].(revokedAt := None) == db.tokens[h].(revokedAt := None)
  {
    if !Mints(s, Apply(cfg, db, s).1) {
      StepsThatDoNotMintOnlyRevoke(cfg, db, s);
    } else if s.op.DoLogin? {
      LoginMints(cfg, db, s);
    } else {
      var prev := RefreshMints(cfg, db, s);
    }
  }

  /** A token that was issued at `t` is stored, and expires 604800 seconds later, whatever happens. */
  lemma {:induction false} TokensExpireAfterAWeek(cfg: Config, run: Run, h: Digest, t: int)
    requires IssuedAt(cfg, run, h, t)
    ensures h in Exec(cfg, EMPTY, run).tokens && Exec(cfg, EMPTY, run).tokens[h].expiresAt == t + 604800
  {
    var before, s := Exec(cfg, EMPTY, run.before), run.last;
    if IssuedAt(cfg, run.before, h, t) {
      TokensExpireAfterAWeek(cfg, run.before, h, t);
      StepKeepsRecord(cfg, before, s, h);
    } else if s.op.DoLogin? {
      LoginMints(cfg, before, s);
    } else {
      var prev := RefreshMints(cfg, before, s);
    }
  }

  /** In every run: a token issued at `t` is exchanged, when nothing fails and the new token is new, if
      and only if it was not revoked and at most 604800 seconds have passed. */
  lemma IssuedTokenIsExchangedIff(cfg: Config, run: Run, db: Db, s: Step, t: int)
    requires db == Exec(cfg, EMPTY, run) && s.op.DoRefresh? && s.op.token != "" && !IsLikelyJwt(s.op.token)
    requires IssuedAt(cfg, run, Hash(cfg, s.op.token), t)
    requires NoFault(s.faults) && Hash(cfg, Hex(s.op.random)) !in db.tokens
    ensures Hash(cfg, s.op.token) in db.tokens
    ensures Apply(cfg, db, s).1.Issued? <==>
      db.tokens[Hash(cfg, s.op.token)].revokedAt.None? && s.now <= t + 604800
  {
    TokensExpireAfterAWeek(cfg, run, Hash(cfg, s.op.token), t);
    RefreshInRunSucceedsIff(cfg, run, db, s);
  }

  /** Exactly which operation revokes a token: exchanging it, presenting another one of its user's that
      must not be exchanged, or logging out with it. */
  predicate Ends(cfg: Config, db: Db, s: Step, h: Digest)
    requires h in db.tokens
  {
    match s.op
    case DoRefresh(token, claims, _, _) =>
      token != "" && (IsLikelyJwt(token) ==> claims.Some?)
      && var found := Find(db.tokens, cfg, token, s.faults);
         found.Some?
         && if Unusable(db.tokens[found.value], token, claims, s.now)
            then !s.faults.cleanup && db.tokens[found.value].userId == db.tokens[h].userId
            else !s.faults.write && found.value == h
    case DoLogout(token) =>
      token != ""
      && if !s.faults.write then h == Hash(cfg, token)
         else IsLikelyJwt(token) && cfg.allowLegacyRefresh && !s.faults.cleanup && h == LegacyHash(token)
    case _ => false
  }

  lemma RefreshEndsIff(cfg: Config, db: Db, s: Step, h: Digest)
    requires s.op.DoRefresh? && h in db.tokens && db.tokens[h].revokedAt.None?
    ensures h in Apply(cfg, db, s).0.tokens
    ensures Apply(cfg, db, s).0.tokens[h].revokedAt.Some? <==> Ends(cfg, db, s, h)
  {
  }

  lemma StepEndsIff(cfg: Config, db: Db, s: Step, h: Digest)
    requires h in db.tokens && db.tokens[h].revokedAt.None?
    ensures h in Apply(cfg, db, s).0.tokens
    ensures Apply(cfg, db, s).0.tokens[h].revokedAt.Some? <==> Ends(cfg, db, s, h)
  {
    if s.op.DoRefresh? {
      RefreshEndsIff(cfg, db, s, h);
    } else if s.op.DoLogin? && Apply(cfg, db, s).1.Issued? {
      LoginMints(cfg, db, s);
    } else if !s.op.DoLogout? {
      OthersKeepTokens(cfg, db, s);
    }
  }

  /** Since it was issued at `t`, no operation ended the token. */
  predicate AliveSince(cfg: Config, run: Run, h: Digest, t: int) {
    run.Then?
    && var db, r := Exec(cfg, EMPTY, run.before), Apply(cfg, Exec(cfg, EMPTY, run.before), run.last).1;
       || (Mints(run.last, r) && Hash(cfg, r.refreshToken) == h && run.last.now == t)
       || (AliveSince(cfg, run.before, h, t) && (h in db.tokens ==> !Ends(cfg, db, run.last, h)))
  }

  lemma {:induction false} AliveIsUnrevoked(cfg: Config, run: Run, h: Digest, t: int)
    requires AliveSince(cfg, run, h, t)
    ensures IssuedAt(cfg, run, h, t)
    ensures h in Exec(cfg, EMPTY, run).tokens && Exec(cfg, EMPTY, run).tokens[h].revokedAt.None?
  {
    var before, s := Exec(cfg, EMPTY, run.before), run.last;
    var r := Apply(cfg, before, s).1;
    if Mints(s, r) && Hash(cfg, r.refreshToken) == h && s.now == t {
      if s.op.DoLogin? {
        LoginMints(cfg, before, s);
      } else {
        var prev := RefreshMints(cfg, before, s);
      }
    } else {
      AliveIsUnrevoked(cfg, run.before, h, t);
      StepEndsIff(cfg, before, s, h);
    }
  }

  /** In every run that has not ended it, a token issued at `t` by a login or a refresh is exchanged,
      when nothing fails and the new token is new, if and only if at most 604800 seconds have passed. */
  lemma AliveTokenIsExchangedIff(cfg: Config, run: Run, db: Db, s: Step, t: int)
    requires db == Exec(cfg, EMPTY, run) && s.op.DoRefresh? && s.op.token != "" && !IsLikelyJwt(s.op.token)
    requires AliveSince(cfg, run, Hash(cfg, s.op.token), t)
    requires NoFault(s.faults) && Hash(cfg, Hex(s.op.random)) !in db.tokens
    ensures Apply(cfg, db, s).1.Issued? <==> s.now <= t + 604800
  {
    AliveIsUnrevoked(cfg, run, Hash(cfg, s.op.token), t);
    IssuedTokenIsExchangedIff(cfg, run, db, s, t);
  }

  /** In particular the token an operation just answered with. */
  lemma FreshTokenIsExchangedIff(cfg: Config, run: Run, db: Db, s: Step)
    requires run.Then? && db == Exec(cfg, EMPTY, run) && (run.last.op.DoLogin? || run.last.op.DoRefresh?)
    requires s.op.DoRefresh? && s.op.token != ""
    requires Apply(cfg, Exec(cfg, EMPTY, run.before), run.last).1 == Issued(s.op.token)
    requires NoFault(s.faults) && Hash(cfg, Hex(s.op.random)) !in db.tokens
    ensures Apply(cfg, db, s).1.Issued? <==> s.now <= run.last.now + 604800
  {
    var before := Exec(cfg, EMPTY, run.before);
    if run.last.op.DoLogin? {
      LoginMints(cfg, before, run.last);
    } else {
      var prev := RefreshMints(cfg, before, run.last);
    }
    MintedTokensAreOpaque(run.last.op.random);
    AliveTokenIsExchangedIff(cfg, run, db, s, run.last.now);
  }

  // ---------------------------------------------------------------------------------------------
  // Codes live five minutes

  /** After a request answered Sent at `t`, a confirm in which nothing fails verifies the user if and
      only if it has the code that was issued and comes within 300 seconds. */
  lemma SentCodeVerifiesIff(db: Db, id: UserId, code: Code, t: int, f: Faults, guess: Code, now: int, g: Faults)
    requires RequestCode(db, id, code, t, f).1 == Sent && NoFault(g)
    ensures
      var (after, r) := ConfirmCode(RequestCode(db, id, code, t, f).0, id, guess, now, g);
      && (r == Verified <==> guess == code && now <= t + 300)
      && (r == Verified ==> id in after.users && after.users[id].emailVerified && after.users[id].isVerified)
  {
  }

  /** A request for an existing, unverified user in which nothing fails is answered Sent, and leaves
      users and tokens alone. */
  lemma RequestIsSentIff(db: Db, id: UserId, code: Code, t: int, f: Faults)
    requires NoFault(f)
    ensures
      var (after, r) := RequestCode(db, id, code, t, f);
      && (r == Sent <==> id in db.users && !db.users[id].emailVerified)
      && (r == AlreadyVerified <==> id in db.users && db.users[id].emailVerified)
      && after == db.(codes := after.codes)
      && forall u :: u != id ==>
           (u in after.codes <==> u in db.codes) && (u in db.codes ==> after.codes[u] == db.codes[u])
  {
  }

  /** Up to four wrong guesses cost attempts, and nothing else: the right code still verifies. */
  lemma WrongGuessLeavesCode(db: Db, id: UserId, code: Code, t: int, wrong: nat, guess: Code, now: int, g: Faults)
    requires id in db.codes && id in db.users && NoFault(g) && guess != code && now <= t + 300 && wrong < 5
    requires db.codes[id] == CodeRecord(CodeHash(code), wrong, t + 300, None)
    ensures
      var (after, r) := ConfirmCode(db, id, guess, now, g);
      && after.users == db.users && id in after.codes
      && r == Failure(if wrong == 4 then TooManyAttempts else InvalidVerificationCode)
      && after.codes[id].hash == CodeHash(code) && after.codes[id].attempts == wrong + 1
      && (after.codes[id].usedAt.None? <==> wrong < 4)
  {
  }

  /** A registration in which nothing fails succeeds if and only if the e-mail is new (ids are), and
      then stores the user, unverified and not banned, with a code. */
  lemma RegisterSucceedsIff(db: Db, id: UserId, email: Email, password: Password, code: Code, t: int, f: Faults)
    requires NoFault(f) && id !in db.users
    ensures
      var (after, r) := Register(db, id, email, password, code, t, f);
      && (r == Done <==> email !in db.byEmail)
      && (r != Done ==> after == db && r == Failure(EmailAlreadyExists))
      && (r == Done ==>
            && after.users == db.users[id := User(email, password, false, false, false)]
            && after.byEmail == db.byEmail[email := id] && after.tokens == db.tokens)
  {
  }

  /** After a registration answered Done at `t`, the code it sent verifies within 300 seconds. */
  lemma RegisteredCodeVerifiesIff(db: Db, id: UserId, email: Email, password: Password, code: Code, t: int, f: Faults,
                                  guess: Code, now: int, g: Faults)
    requires Register(db, id, email, password, code, t, f).1 == Done && NoFault(g)
    ensures ConfirmCode(Register(db, id, email, password, code, t, f).0, id, guess, now, g).1 == Verified <==>
      guess == code && now <= t + 300
  {
  }

  // ---------------------------------------------------------------------------------------------
  // From registration to a session

  /** Register, confirm in time and log in with the password, nothing failing: the service answers with
      a token that can be exchanged for a week. */
  lemma NewUserGetsIn(cfg: Config, db: Db, id: UserId, email: Email, password: Password, code: Code, random: seq<byte>,
                      jti: Jti, t: int, confirmed: int, login: int, f: Faults)
    requires NoFault(f) && id !in db.users && email !in db.byEmail && confirmed <= t + 300
    requires Hash(cfg, Hex(random)) !in db.tokens
    ensures
      var registered := Register(db, id, email, password, code, t, f).0;
      var verified := ConfirmCode(registered, id, code, confirmed, f).0;
      var (after, r) := Login(verified, cfg, email, password, random, jti, login, f);
      && r == Issued(Hex(random)) && Hash(cfg, Hex(random)) in after.tokens
      && after.tokens[Hash(cfg, Hex(random))] == Token(id, Some(jti), login + 604800, None, None)
  {
    var registered := Register(db, id, email, password, code, t, f).0;
    RegisterSucceedsIff(db, id, email, password, code, t, f);
    assert registered.users[id] == User(email, password, false, false, false);
  }
}
