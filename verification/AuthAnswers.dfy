/** What each operation of the authentication service answers, and when, for every failing statement. */
module AuthAnswers {
  import opened Base
  import opened AuthStore
  import opened Auth

  lemma RequestAnswers(db: Db, id: UserId, code: Code, now: int, f: Faults)
    ensures
      var (after, r) := RequestCode(db, id, code, now, f);
      var found := id in db.users && !f.read;
      && (r == Failure(UserNotFound) <==> !found)
      && (r == AlreadyVerified <==> found && db.users[id].emailVerified)
      && (r == Failure(Internal) <==> found && !db.users[id].emailVerified && f.write)
      && (r == Sent <==> found && !db.users[id].emailVerified && !f.write)
      && after == (if r != Sent then db
                   else db.(codes := db.codes[id := CodeRecord(CodeHash(code), 0, now + 300, None)]))
  {
  }

  /** A registration may store the user and still fail to send the code. */
  lemma RegisterAnswers(db: Db, id: UserId, email: Email, password: Password, code: Code, now: int, f: Faults)
    ensures
      var (after, r) := Register(db, id, email, password, code, now, f);
      var looked := !f.readUser && email !in db.byEmail;
      var inserted := looked && !f.mint && !f.insert && id !in db.users && !f.duplicate;
      var user := User(email, password, false, false, false);
      && (r == Failure(EmailAlreadyExists) <==>
            (!f.readUser && email in db.byEmail) || (looked && !f.mint && !f.insert && id !in db.users && f.duplicate))
      && (r == Failure(UserNotFound) <==> inserted && f.read)
      && (r == Done <==> inserted && !f.read && !f.write)
      && (!(r in {Done, Failure(EmailAlreadyExists), Failure(UserNotFound)}) ==> r == Failure(Internal))
      && (!inserted ==> after == db)
      && (inserted ==>
            && after.users == db.users[id := user] && after.byEmail == db.byEmail[email := id]
            && after.tokens == db.tokens
            && after.codes == if r != Done then db.codes
                              else db.codes[id := CodeRecord(CodeHash(code), 0, now + 300, None)])
  {
  }

  /** The record of a code: nothing to try, expired or used, exhausted, or open. */
  lemma ConfirmAnswers(db: Db, id: UserId, guess: Code, now: int, f: Faults)
    ensures
      var (after, r) := ConfirmCode(db, id, guess, now, f);
      var stored := id in db.codes && !f.read;
      var stale := stored && (db.codes[id].usedAt.Some? || now > db.codes[id].expiresAt);
      var spent := stored && !stale && db.codes[id].attempts >= 5;
      var open := stored && !stale && !spent;
      var right := open && db.codes[id].hash == CodeHash(guess);
      && (r == Failure(TooManyAttempts) <==> spent || (open && !right && !f.write && db.codes[id].attempts == 4))
      && (r == Failure(InvalidVerificationCode) <==>
            (!f.read && id !in db.codes) || stale || (open && !right && !f.write && db.codes[id].attempts < 4))
      && (r == Verified <==> right && !f.write && !f.cleanup)
      && (r == Failure(Internal) <==> f.read || (open && f.write) || (right && f.cleanup))
      && after.byEmail == db.byEmail && after.tokens == db.tokens
      && after.users == (if right && !f.write && id in db.users
                         then db.users[id := db.users[id].(emailVerified := true, isVerified := true)] else db.users)
  {
  }

  /** What a confirm leaves of the record it read, and that it touches no other. */
  lemma ConfirmLeaves(db: Db, id: UserId, guess: Code, now: int, f: Faults, u: UserId)
    requires u in db.codes
    ensures
      var (after, r) := ConfirmCode(db, id, guess, now, f);
      var was := db.codes[u];
      var live := was.usedAt.None? && now <= was.expiresAt && was.attempts < 5;
      var counted := u == id && !f.read && live && was.hash != CodeHash(guess) && !f.write;
      var closed := u == id && !f.read && !f.cleanup
                    && (!live || (counted && was.attempts == 4) || (was.hash == CodeHash(guess) && !f.write));
      && u in after.codes
      && after.codes[u] == was.(attempts := was.attempts + (if counted then 1 else 0),
                                usedAt := if closed then Some(now) else was.usedAt)
  {
  }

  lemma LoginAnswers(db: Db, cfg: Config, email: Email, password: Password, random: seq<byte>, jti: Jti, now: int,
                     f: Faults)
    requires forall e :: e in db.byEmail ==> db.byEmail[e] in db.users
    ensures
      var (after, r) := Login(db, cfg, email, password, random, jti, now, f);
      var known := !f.readUser && email in db.byEmail && db.users[db.byEmail[email]].password == password;
      var user := if known then db.users[db.byEmail[email]] else User(email, password, false, false, false);
      var verified := user.emailVerified && user.isVerified;
      var hash := Hash(cfg, Hex(random));
      && (r == Failure(InvalidCredentials) <==> !known)
      && (r == Failure(EmailNotVerified) <==> known && !verified)
      && (r == Failure(UserBanned) <==> known && verified && user.isBanned)
      && (r == Issued(Hex(random)) <==>
            known && verified && !user.isBanned && !f.mint && !f.insert && hash !in db.tokens)
      && (!r.Issued? ==> after == db)
      && (r.Issued? ==>
            after == db.(tokens := db.tokens[hash := Token(db.byEmail[email], Some(jti), now + 604800, None, None)]))
      && (known && verified && !user.isBanned && !r.Issued? ==> r == Failure(Internal))
  {
  }

  /** The record a token is looked up as: under the peppered hash, or, for a JWT where that is allowed
      and the first lookup had no result, under the plain one. */
  lemma FindMeans(tokens: Tokens, cfg: Config, token: string, f: Faults, h: Digest)
    ensures
      var first := Sha256(token + cfg.pepper) in tokens && !f.read;
      var second := IsLikelyJwt(token) && cfg.allowLegacyRefresh && !f.readLegacy && Sha256(token) in tokens;
      && (Find(tokens, cfg, token, f) == Some(h) <==>
            (first && h == Sha256(token + cfg.pepper)) || (!first && second && h == Sha256(token)))
      && (Find(tokens, cfg, token, f) == None <==> !first && !second)
  {
  }

  /** A refresh, by the record that was found. */
  lemma RefreshAnswers(db: Db, cfg: Config, token: string, claims: Option<Claims>, random: seq<byte>, jti: Jti,
                       now: int, f: Faults, h: Digest)
    requires token != "" && (IsLikelyJwt(token) ==> claims.Some?) && Find(db.tokens, cfg, token, f) == Some(h)
    ensures
      var (after, r) := Refresh(db, cfg, token, claims, random, jti, now, f);
      var t := db.tokens[h];
      var fits := IsLikelyJwt(token) ==>
        claims.value.userId == t.userId && (t.jti.None? || t.jti == Some(claims.value.id));
      var usable := t.revokedAt.None? && t.usedAt.None? && now <= t.expiresAt && fits;
      var hash := Hash(cfg, Hex(random));
      && (!usable ==> r == Failure(InvalidRefreshToken))
      && (usable && f.write ==> r == Failure(InvalidRefreshToken) && after == db)
      && (usable && !f.write && (f.readUser || t.userId !in db.users) ==> r == Failure(UserNotFound))
      && (usable && !f.write && !f.readUser && t.userId in db.users ==>
            r == if f.mint || f.insert || hash in db.tokens then Failure(Internal) else Issued(Hex(random)))
      && (!usable && f.cleanup ==> after == db)
  {
    assert db.tokens[h := Revoked(db.tokens[h], now)].Keys == db.tokens.Keys;
  }

  /** A token that cannot be looked up, or whose signature does not hold, is refused and changes nothing. */
  lemma RefreshRefusals(db: Db, cfg: Config, token: string, claims: Option<Claims>, random: seq<byte>, jti: Jti,
                        now: int, f: Faults)
    ensures
      var (after, r) := Refresh(db, cfg, token, claims, random, jti, now, f);
      && (r == Failure(RefreshTokenRequired) <==> token == "")
      && (token == "" ==> after == db)
      && (token != "" && ((IsLikelyJwt(token) && claims.None?) || Find(db.tokens, cfg, token, f).None?) ==>
            r == Failure(InvalidRefreshToken) && after == db)
  {
  }

  /** What a refresh does to a stored record: exchanging it revokes it, and presenting a record that must
      not be exchanged revokes every unrevoked one of its user. */
  lemma RefreshLeaves(db: Db, cfg: Config, token: string, claims: Option<Claims>, random: seq<byte>, jti: Jti, now: int,
                      f: Faults, h: Digest, k: Digest)
    requires token != "" && (IsLikelyJwt(token) ==> claims.Some?) && Find(db.tokens, cfg, token, f) == Some(h)
    requires k in db.tokens
    ensures
      var after := Refresh(db, cfg, token, claims, random, jti, now, f).0;
      var t, was := db.tokens[h], db.tokens[k];
      var fits := IsLikelyJwt(token) ==>
        claims.value.userId == t.userId && (t.jti.None? || t.jti == Some(claims.value.id));
      var usable := t.revokedAt.None? && t.usedAt.None? && now <= t.expiresAt && fits;
      var ended := if usable then k == h && !f.write else was.userId == t.userId && !f.cleanup;
      && k in after.tokens
      && after.tokens[k] == was.(revokedAt := if ended && was.revokedAt.None? then Some(now) else was.revokedAt)
      && after.users == db.users && after.byEmail == db.byEmail && after.codes == db.codes
  {
  }

  /** A new record is for the same user and a week. */
  lemma RefreshStores(db: Db, cfg: Config, token: string, claims: Option<Claims>, random: seq<byte>, jti: Jti, now: int,
                      f: Faults, h: Digest)
    requires Find(db.tokens, cfg, token, f) == Some(h)
    ensures
      var (after, r) := Refresh(db, cfg, token, claims, random, jti, now, f);
      var hash := Hash(cfg, Hex(random));
      && (r.Issued? ==>
            && r == Issued(Hex(random)) && hash !in db.tokens && after.tokens.Keys == db.tokens.Keys + {hash}
            && after.tokens[hash] == Token(db.tokens[h].userId, Some(jti), now + 604800, None, None))
      && (!r.Issued? ==> after.tokens.Keys == db.tokens.Keys)
  {
  }

  lemma LogoutAnswers(db: Db, cfg: Config, token: string, now: int, f: Faults)
    ensures
      var (after, r) := Logout(db, cfg, token, now, f);
      && (token == "" ==> r == Done && after == db)
      && (token != "" && f.write ==>
            r == if !IsLikelyJwt(token) then Failure(Internal)
                 else if !cfg.allowLegacyRefresh then Failure(InvalidRefreshToken)
                 else if f.cleanup then Failure(Internal)
                 else Done)
      && (token != "" && !f.write ==> r == Done)
      && after.users == db.users && after.byEmail == db.byEmail && after.codes == db.codes
      && after.tokens.Keys == db.tokens.Keys
  {
  }
}
