/** Register, request and confirm a code, log in, refresh, log out: each as a function of the
    tables, and the service methods that run those steps statement by statement.

    One operation reads one instant.  `Faults` says which of its statements fail. */
module Auth {
  import opened Base
  import opened AuthStore

  const VERIFICATION_CODE_TTL := 5 * 60
  const REFRESH_TOKEN_TTL := 7 * 24 * 60 * 60
  const MAX_ATTEMPTS := 5

  datatype Error =
    | EmailAlreadyExists
    | InvalidCredentials
    | EmailNotVerified
    | UserBanned
    | UserNotFound
    | InvalidVerificationCode
    | TooManyAttempts
    | RefreshTokenRequired
    | InvalidRefreshToken
    | Internal

  datatype Reply = Done | Sent | AlreadyVerified | Verified | Issued(refreshToken: string) | Failure(error: Error)

  datatype Faults = Faults(read: bool, readLegacy: bool, write: bool, cleanup: bool, readUser: bool, mint: bool,
                           insert: bool, duplicate: bool)

  datatype Config = Config(pepper: string, allowLegacyRefresh: bool)

  /** The claims of a well-signed refresh JWT. */
  datatype Claims = Claims(userId: UserId, id: Jti)

  // ---------------------------------------------------------------------------------------------
  // Tokens as text

  function Dots(token: string, n: nat): nat
    requires n <= |token|
  {
    if n == 0 then 0 else Dots(token, n - 1) + if token[n - 1] == '.' then 1 else 0
  }

  predicate IsLikelyJwt(token: string) {
    Dots(token, |token|) == 2
  }

  newtype byte = b: int | 0 <= b < 256

  const HEX_DIGITS := "0123456789abcdef"

  function HexDigit(b: byte): (c: char)
    requires b < 16
    ensures c == HEX_DIGITS[b] && c != '.'
  {
    if b < 10 then '0' + b as char else 'a' + (b - 10) as char
  }

  function HexChar(bytes: seq<byte>, i: nat): char
    requires i < 2 * |bytes|
  {
    if i % 2 == 0 then HexDigit(bytes[i / 2] / 16) else HexDigit(bytes[i / 2] % 16)
  }

  /** hex.EncodeToString */
  function Hex(bytes: seq<byte>): (s: string)
    ensures |s| == 2 * |bytes|
    ensures forall i :: 0 <= i < |s| ==> s[i] == HexChar(bytes, i)
  {
    seq(2 * |bytes|, i requires 0 <= i < 2 * |bytes| => HexChar(bytes, i))
  }

  /** Two digits a byte, the high one first. */
  lemma HexOfByte(bytes: seq<byte>, i: nat)
    requires i < |bytes|
    ensures Hex(bytes)[2 * i] == "0123456789abcdef"[bytes[i] / 16]
    ensures Hex(bytes)[2 * i + 1] == "0123456789abcdef"[bytes[i] % 16]
  {
    assert Hex(bytes)[2 * i] == HexChar(bytes, 2 * i);
    assert Hex(bytes)[2 * i + 1] == HexChar(bytes, 2 * i + 1);
    assert (2 * i + 1) / 2 == i;
  }

  lemma {:induction false} NoDots(token: string, n: nat)
    requires n <= |token| && forall i :: 0 <= i < |token| ==> token[i] != '.'
    ensures Dots(token, n) == 0
  {
    if n > 0 { NoDots(token, n - 1); }
  }

  /** Every token the service mints is opaque: Refresh and Logout never mistake it for a JWT. */
  lemma MintedTokensAreOpaque(random: seq<byte>)
    ensures !IsLikelyJwt(Hex(random))
  {
    NoDots(Hex(random), |Hex(random)|);
  }

  lemma SameByte(a: byte, b: byte)
    requires HexDigit(a / 16) == HexDigit(b / 16) && HexDigit(a % 16) == HexDigit(b % 16)
    ensures a == b
  {
  }

  /** Different random bytes give different tokens, and different tokens different stored hashes. */
  lemma MintedTokensAreDistinct(cfg: Config, a: seq<byte>, b: seq<byte>)
    requires Hash(cfg, Hex(a)) == Hash(cfg, Hex(b))
    ensures a == b
  {
    var s, t := Hex(a), Hex(b);
    assert |s + cfg.pepper| == |t + cfg.pepper|;
    assert s == (s + cfg.pepper)[..|s|] == (t + cfg.pepper)[..|t|] == t;
    assert |a| == |b|;
    forall i | 0 <= i < |a| ensures a[i] == b[i] {
      assert HexChar(a, 2 * i) == s[2 * i] == HexChar(b, 2 * i);
      assert HexChar(a, 2 * i + 1) == s[2 * i + 1] == HexChar(b, 2 * i + 1);
      assert (2 * i + 1) / 2 == i;
      SameByte(a[i], b[i]);
    }
  }

  function Hash(cfg: Config, token: string): Digest {
    Sha256(token + cfg.pepper)
  }

  function LegacyHash(token: string): Digest {
    Sha256(token)
  }

  // ---------------------------------------------------------------------------------------------
  // The operations as functions of the tables

  function RequestCode(db: Db, id: UserId, code: Code, now: int, f: Faults): (Db, Reply) {
    if f.read || id !in db.users then (db, Failure(UserNotFound))
    else if db.users[id].emailVerified then (db, AlreadyVerified)
    else if f.write then (db, Failure(Internal))
    else (db.(codes := UpsertCode(db.codes, id, CodeHash(code), now + VERIFICATION_CODE_TTL)), Sent)
  }

  function Register(db: Db, id: UserId, email: Email, password: Password, code: Code, now: int,
                    f: Faults): (Db, Reply) {
    if f.readUser then (db, Failure(Internal))
    else if email in db.byEmail then (db, Failure(EmailAlreadyExists))
    else if f.mint then (db, Failure(Internal))
    else
      var inserted := InsertUser(db, id, User(email, password, false, false, false));
      if f.insert || inserted.None? then (db, Failure(Internal))
      else if f.duplicate then (db, Failure(EmailAlreadyExists))
      else
        var (after, reply) := RequestCode(inserted.value, id, code, now, f);
        (after, if reply.Failure? then reply else Done)
  }

  /** A code that can still be tried. */
  predicate Live(r: CodeRecord, now: int) {
    r.usedAt.None? && now <= r.expiresAt && r.attempts < MAX_ATTEMPTS
  }

  function Cleanup(db: Db, id: UserId, now: int, f: Faults): Db {
    if f.cleanup then db else db.(codes := InvalidateCode(db.codes, id, now))
  }

  function ConfirmCode(db: Db, id: UserId, code: Code, now: int, f: Faults): (Db, Reply) {
    if f.read then (db, Failure(Internal))
    else if id !in db.codes then (db, Failure(InvalidVerificationCode))
    else
      var r := db.codes[id];
      if r.usedAt.Some? || now > r.expiresAt then (Cleanup(db, id, now, f), Failure(InvalidVerificationCode))
      else if r.attempts >= MAX_ATTEMPTS then (Cleanup(db, id, now, f), Failure(TooManyAttempts))
      else if r.hash != CodeHash(code) then
        if f.write then (db, Failure(Internal))
        else
          var counted := db.(codes := IncrementAttempts(db.codes, id));
          if r.attempts + 1 >= MAX_ATTEMPTS then (Cleanup(counted, id, now, f), Failure(TooManyAttempts))
          else (counted, Failure(InvalidVerificationCode))
      else if f.write then (db, Failure(Internal))
      else
        var flagged := db.(users := SetFlags(db.users, id));
        if f.cleanup then (flagged, Failure(Internal))
        else (flagged.(codes := InvalidateCode(db.codes, id, now)), Verified)
  }

  /** generateTokens: a failure to sign, to draw randomness or to insert leaves the tables alone. */
  function Mint(db: Db, cfg: Config, id: UserId, random: seq<byte>, jti: Jti, now: int, f: Faults): (Db, Reply) {
    var token := Token(id, Some(jti), now + REFRESH_TOKEN_TTL, None, None);
    var inserted := InsertToken(db.tokens, Hash(cfg, Hex(random)), token);
    if f.mint || f.insert || inserted.None? then (db, Failure(Internal))
    else (db.(tokens := inserted.value), Issued(Hex(random)))
  }

  function Login(db: Db, cfg: Config, email: Email, password: Password, random: seq<byte>, jti: Jti, now: int,
                 f: Faults): (Db, Reply) {
    if f.readUser || email !in db.byEmail || db.byEmail[email] !in db.users then (db, Failure(InvalidCredentials))
    else
      var id := db.byEmail[email];
      var u := db.users[id];
      if u.password != password then (db, Failure(InvalidCredentials))
      else if !u.emailVerified || !u.isVerified then (db, Failure(EmailNotVerified))
      else if u.isBanned then (db, Failure(UserBanned))
      else Mint(db, cfg, id, random, jti, now, f)
  }

  /** The stored record a presented token stands for, through the legacy hash if that is allowed. */
  function Find(tokens: Tokens, cfg: Config, token: string, f: Faults): (r: Option<Digest>)
    ensures r.Some? ==> r.value in tokens
  {
    if !f.read && Hash(cfg, token) in tokens then Some(Hash(cfg, token))
    else if IsLikelyJwt(token) && cfg.allowLegacyRefresh && !f.readLegacy && LegacyHash(token) in tokens then
      Some(LegacyHash(token))
    else None
  }

  /** A record that must not be exchanged any more, or not for these claims. */
  predicate Unusable(t: Token, token: string, claims: Option<Claims>, now: int) {
    || t.revokedAt.Some? || t.usedAt.Some? || now > t.expiresAt
    || (IsLikelyJwt(token) && claims.Some?
        && (t.userId != claims.value.userId || (t.jti.Some? && t.jti.value != claims.value.id)))
  }

  function Refresh(db: Db, cfg: Config, token: string, claims: Option<Claims>, random: seq<byte>, jti: Jti, now: int,
                   f: Faults): (Db, Reply) {
    if token == "" then (db, Failure(RefreshTokenRequired))
    else if IsLikelyJwt(token) && claims.None? then (db, Failure(InvalidRefreshToken))
    else
      var found := Find(db.tokens, cfg, token, f);
      if found.None? then (db, Failure(InvalidRefreshToken))
      else
        var t := db.tokens[found.value];
        if Unusable(t, token, claims, now) then
          (if f.cleanup then db else db.(tokens := RevokeAll(db.tokens, t.userId, now)), Failure(InvalidRefreshToken))
        else if f.write then (db, Failure(InvalidRefreshToken))
        else
          var revoked := db.(tokens := RevokeToken(db.tokens, found.value, now));
          if f.readUser || t.userId !in db.users then (revoked, Failure(UserNotFound))
          else Mint(revoked, cfg, t.userId, random, jti, now, f)
  }

  function Logout(db: Db, cfg: Config, token: string, now: int, f: Faults): (Db, Reply) {
    if token == "" then (db, Done)
    else if !f.write then (db.(tokens := RevokeToken(db.tokens, Hash(cfg, token), now)), Done)
    else if !IsLikelyJwt(token) then (db, Failure(Internal))
    else if !cfg.allowLegacyRefresh then (db, Failure(InvalidRefreshToken))
    else if f.cleanup then (db, Failure(Internal))
    else (db.(tokens := RevokeToken(db.tokens, LegacyHash(token), now)), Done)
  }

  // ---------------------------------------------------------------------------------------------
  // The service

  class Service {
    const store: Store
    const cfg: Config

    constructor (store: Store, cfg: Config)
      ensures this.store == store && this.cfg == cfg
    {
      this.store := store;
      this.cfg := cfg;
    }

    method RequestVerificationCode(id: UserId, code: Code, now: int, f: Faults) returns (reply: Reply)
      modifies store
      ensures (store.View(), reply) == RequestCode(old(store.View()), id, code, now, f)
    {
      if f.read || id !in store.users { return Failure(UserNotFound); }
      if store.users[id].emailVerified { return AlreadyVerified; }
      var ok := store.Upsert(id, CodeHash(code), now + VERIFICATION_CODE_TTL, f.write);
      if !ok { return Failure(Internal); }
      return Sent;
    }

    method RegisterUser(id: UserId, email: Email, password: Password, code: Code, now: int, f: Faults)
      returns (reply: Reply)
      modifies store
      ensures (store.View(), reply) == Register(old(store.View()), id, email, password, code, now, f)
    {
      if f.readUser { return Failure(Internal); }
      if email in store.byEmail { return Failure(EmailAlreadyExists); }
      if f.mint { return Failure(Internal); }
      var r := store.CreateUser(id, User(email, password, false, false, false), f.insert, f.duplicate);
      if r == DuplicateEmail { return Failure(EmailAlreadyExists); }
      if r == InsertFailed { return Failure(Internal); }
      reply := RequestVerificationCode(id, code, now, f);
      if !reply.Failure? { reply := Done; }
    }

    method ConfirmVerificationCode(id: UserId, code: Code, now: int, f: Faults) returns (reply: Reply)
      modifies store
      ensures (store.View(), reply) == ConfirmCode(old(store.View()), id, code, now, f)
    {
      if f.read { return Failure(Internal); }
      if id !in store.codes { return Failure(InvalidVerificationCode); }
      var rec := store.codes[id];
      if rec.usedAt.Some? || now > rec.expiresAt {
        var _ := store.Invalidate(id, now, f.cleanup);
        return Failure(InvalidVerificationCode);
      }
      if rec.attempts >= MAX_ATTEMPTS {
        var _ := store.Invalidate(id, now, f.cleanup);
        return Failure(TooManyAttempts);
      }
      if rec.hash != CodeHash(code) {
        var attempts := store.Increment(id, f.write);
        if attempts.None? { return Failure(Internal); }
        if attempts.value >= MAX_ATTEMPTS {
          var _ := store.Invalidate(id, now, f.cleanup);
          return Failure(TooManyAttempts);
        }
        return Failure(InvalidVerificationCode);
      }
      var ok := store.UpdateVerificationFlags(id, f.write);
      if !ok { return Failure(Internal); }
      ok := store.Invalidate(id, now, f.cleanup);
      if !ok { return Failure(Internal); }
      return Verified;
    }

    method GenerateTokens(id: UserId, random: seq<byte>, jti: Jti, now: int, f: Faults) returns (reply: Reply)
      modifies store
      ensures (store.View(), reply) == Mint(old(store.View()), cfg, id, random, jti, now, f)
    {
      if f.mint { return Failure(Internal); }
      var token := Hex(random);
      var ok := store.CreateToken(Hash(cfg, token), Token(id, Some(jti), now + REFRESH_TOKEN_TTL, None, None),
                                  f.insert);
      if !ok { return Failure(Internal); }
      return Issued(token);
    }

    method LoginUser(email: Email, password: Password, random: seq<byte>, jti: Jti, now: int, f: Faults)
      returns (reply: Reply)
      modifies store
      ensures (store.View(), reply) == Login(old(store.View()), cfg, email, password, random, jti, now, f)
    {
      if f.readUser || email !in store.byEmail || store.byEmail[email] !in store.users {
        return Failure(InvalidCredentials);
      }
      var id := store.byEmail[email];
      var u := store.users[id];
      if u.password != password { return Failure(InvalidCredentials); }
      if !u.emailVerified || !u.isVerified { return Failure(EmailNotVerified); }
      if u.isBanned { return Failure(UserBanned); }
      reply := GenerateTokens(id, random, jti, now, f);
    }

    method RefreshToken(token: string, claims: Option<Claims>, random: seq<byte>, jti: Jti, now: int, f: Faults)
      returns (reply: Reply)
      modifies store
      ensures (store.View(), reply) == Refresh(old(store.View()), cfg, token, claims, random, jti, now, f)
    {
      if token == "" { return Failure(RefreshTokenRequired); }
      var hash := Hash(cfg, token);
      var rec: Token;
      if IsLikelyJwt(token) {
        if claims.None? { return Failure(InvalidRefreshToken); }
        if f.read || hash !in store.tokens {
          if !cfg.allowLegacyRefresh { return Failure(InvalidRefreshToken); }
          hash := LegacyHash(token);
          if f.readLegacy || hash !in store.tokens { return Failure(InvalidRefreshToken); }
        }
        rec := store.tokens[hash];
        if rec.userId != claims.value.userId || (rec.jti.Some? && rec.jti.value != claims.value.id)
          || rec.revokedAt.Some? || rec.usedAt.Some? || now > rec.expiresAt
        {
          var _ := store.RevokeAllByUserId(rec.userId, now, f.cleanup);
          return Failure(InvalidRefreshToken);
        }
      } else {
        if f.read || hash !in store.tokens { return Failure(InvalidRefreshToken); }
        rec := store.tokens[hash];
        if rec.revokedAt.Some? || rec.usedAt.Some? || now > rec.expiresAt {
          var _ := store.RevokeAllByUserId(rec.userId, now, f.cleanup);
          return Failure(InvalidRefreshToken);
        }
      }
      var ok := store.RevokeByTokenHash(hash, now, f.write);
      if !ok { return Failure(InvalidRefreshToken); }
      if f.readUser || rec.userId !in store.users { return Failure(UserNotFound); }
      reply := GenerateTokens(rec.userId, random, jti, now, f);
    }

    method LogoutUser(token: string, now: int, f: Faults) returns (reply: Reply)
      modifies store
      ensures (store.View(), reply) == Logout(old(store.View()), cfg, token, now, f)
    {
      if token == "" { return Done; }
      var ok := store.RevokeByTokenHash(Hash(cfg, token), now, f.write);
      if IsLikelyJwt(token) {
        if ok { return Done; }
        if !cfg.allowLegacyRefresh { return Failure(InvalidRefreshToken); }
        ok := store.RevokeByTokenHash(LegacyHash(token), now, f.cleanup);
      }
      return if ok then Done else Failure(Internal);
    }
  }
}
