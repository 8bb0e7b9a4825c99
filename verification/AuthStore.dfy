/** The three tables of the authentication service, one SQL statement at a time.

    Digests are values of a free constructor over the hashed text, so hashing is injective; user
    ids, e-mail addresses, passwords and codes are only ever compared. */
module AuthStore {
  import opened Base

  type UserId(==, !new)
  type Email(==, !new)
  type Password(==, !new)
  type Code(==, !new)
  type Jti(==, !new)

  datatype Digest = Sha256(text: string)
  datatype CodeHash = CodeHash(code: Code)

  datatype User = User(email: Email, password: Password, emailVerified: bool, isVerified: bool, isBanned: bool)

  datatype CodeRecord = CodeRecord(hash: CodeHash, attempts: int, expiresAt: int, usedAt: Option<int>)

  datatype Token = Token(userId: UserId, jti: Option<Jti>, expiresAt: int, usedAt: Option<int>, revokedAt: Option<int>)

  type Users = map<UserId, User>
  type Codes = map<UserId, CodeRecord>
  type Tokens = map<Digest, Token>

  /** `byEmail` is the unique index on users.email. */
  datatype Db = Db(users: Users, byEmail: map<Email, UserId>, codes: Codes, tokens: Tokens)

  // users

  function InsertUser(db: Db, id: UserId, u: User): Option<Db> {
    if id in db.users || u.email in db.byEmail then None
    else Some(db.(users := db.users[id := u], byEmail := db.byEmail[u.email := id]))
  }

  function SetFlags(users: Users, id: UserId): Users {
    if id in users then users[id := users[id].(emailVerified := true, isVerified := true)] else users
  }

  /** The driver tells a violation of the unique e-mail from every other error of an insert. */
  datatype Insertion = Inserted | DuplicateEmail | InsertFailed

  // user_verification_codes

  function UpsertCode(codes: Codes, id: UserId, hash: CodeHash, expiresAt: int): Codes {
    codes[id := CodeRecord(hash, 0, expiresAt, None)]
  }

  function IncrementAttempts(codes: Codes, id: UserId): Codes {
    if id in codes then codes[id := codes[id].(attempts := codes[id].attempts + 1)] else codes
  }

  function InvalidateCode(codes: Codes, id: UserId, now: int): Codes {
    if id in codes then codes[id := codes[id].(usedAt := Some(now))] else codes
  }

  // user_refresh_tokens

  function InsertToken(tokens: Tokens, hash: Digest, t: Token): Option<Tokens> {
    if hash in tokens then None else Some(tokens[hash := t.(usedAt := None, revokedAt := None)])
  }

  function Revoked(t: Token, now: int): Token {
    if t.revokedAt.None? then t.(revokedAt := Some(now)) else t
  }

  function RevokeToken(tokens: Tokens, hash: Digest, now: int): Tokens {
    if hash in tokens then tokens[hash := Revoked(tokens[hash], now)] else tokens
  }

  function RevokeAll(tokens: Tokens, id: UserId, now: int): Tokens {
    map h | h in tokens :: if tokens[h].userId == id then Revoked(tokens[h], now) else tokens[h]
  }

  /** The database connection.  Every statement may fail, and then changes nothing. */
  class Store {
    var users: Users
    var byEmail: map<Email, UserId>
    var codes: Codes
    var tokens: Tokens

    function View(): Db
      reads this
    {
      Db(users, byEmail, codes, tokens)
    }

    constructor ()
      ensures View() == Db(map[], map[], map[], map[])
    {
      users, byEmail, codes, tokens := map[], map[], map[], map[];
    }

    /** `duplicate`: another registration of the e-mail got in between. */
    method CreateUser(id: UserId, u: User, fail: bool, duplicate: bool) returns (r: Insertion)
      modifies this
      ensures r == if fail || id in old(users) then InsertFailed
                   else if duplicate || u.email in old(byEmail) then DuplicateEmail
                   else Inserted
      ensures r == Inserted ==> Some(View()) == InsertUser(old(View()), id, u)
      ensures r != Inserted ==> View() == old(View())
    {
      if fail || id in users { return InsertFailed; }
      if duplicate || u.email in byEmail { return DuplicateEmail; }
      users := users[id := u];
      byEmail := byEmail[u.email := id];
      return Inserted;
    }

    method UpdateVerificationFlags(id: UserId, fail: bool) returns (ok: bool)
      modifies this`users
      ensures ok == !fail && users == if ok then SetFlags(old(users), id) else old(users)
    {
      if fail { return false; }
      if id in users {
        users := users[id := users[id].(emailVerified := true, isVerified := true)];
      }
      return true;
    }

    method Upsert(id: UserId, hash: CodeHash, expiresAt: int, fail: bool) returns (ok: bool)
      modifies this`codes
      ensures ok == !fail && codes == if ok then UpsertCode(old(codes), id, hash, expiresAt) else old(codes)
    {
      if fail { return false; }
      codes := codes[id := CodeRecord(hash, 0, expiresAt, None)];
      return true;
    }

    /** No row is sql.ErrNoRows, an error like any other. */
    method Increment(id: UserId, fail: bool) returns (attempts: Option<int>)
      modifies this`codes
      ensures attempts == if fail || id !in old(codes) then None else Some(old(codes)[id].attempts + 1)
      ensures codes == if fail then old(codes) else IncrementAttempts(old(codes), id)
    {
      if fail || id !in codes { return None; }
      codes := codes[id := codes[id].(attempts := codes[id].attempts + 1)];
      return Some(codes[id].attempts);
    }

    method Invalidate(id: UserId, now: int, fail: bool) returns (ok: bool)
      modifies this`codes
      ensures ok == !fail && codes == if ok then InvalidateCode(old(codes), id, now) else old(codes)
    {
      if fail { return false; }
      if id in codes { codes := codes[id := codes[id].(usedAt := Some(now))]; }
      return true;
    }

    method CreateToken(hash: Digest, t: Token, fail: bool) returns (ok: bool)
      modifies this`tokens
      ensures ok == (!fail && InsertToken(old(tokens), hash, t).Some?)
      ensures tokens == if ok then InsertToken(old(tokens), hash, t).value else old(tokens)
      ensures ok ==> hash !in old(tokens) && tokens[hash] == Token(t.userId, t.jti, t.expiresAt, None, None)
    {
      if fail || hash in tokens { return false; }
      tokens := tokens[hash := t.(usedAt := None, revokedAt := None)];
      return true;
    }

    method RevokeByTokenHash(hash: Digest, now: int, fail: bool) returns (ok: bool)
      modifies this`tokens
      ensures ok == !fail && tokens == if ok then RevokeToken(old(tokens), hash, now) else old(tokens)
    {
      if fail { return false; }
      if hash in tokens && tokens[hash].revokedAt.None? {
        tokens := tokens[hash := tokens[hash].(revokedAt := Some(now))];
      }
      return true;
    }

    method RevokeAllByUserId(id: UserId, now: int, fail: bool) returns (ok: bool)
      modifies this`tokens
      ensures ok == !fail && tokens == if ok then RevokeAll(old(tokens), id, now) else old(tokens)
    {
      if fail { return false; }
      tokens := map h | h in tokens ::
        if tokens[h].userId == id && tokens[h].revokedAt.None? then tokens[h].(revokedAt := Some(now)) else tokens[h];
      return true;
    }
  }

  // ---------------------------------------------------------------------------------------------
  // Any interleaving of statements on user_refresh_tokens

  datatype Statement =
    | Insert(hash: Digest, token: Token)
    | Revoke(hash: Digest, at: int)
    | RevokeEvery(user: UserId, at: int)
    | Failed

  function Execute(tokens: Tokens, s: Statement): Tokens {
    match s
    case Insert(hash, t) => OrElse(InsertToken(tokens, hash, t), tokens)
    case Revoke(hash, at) => RevokeToken(tokens, hash, at)
    case RevokeEvery(user, at) => RevokeAll(tokens, user, at)
    case Failed => tokens
  }

  function ExecuteAll(tokens: Tokens, statements: History<Statement>): Tokens {
    match statements
    case Start => tokens
    case Then(before, s) => Execute(ExecuteAll(tokens, before), s)
  }

  /** In every interleaving of the statements the service issues, a record is never dropped, never
      changes owner or expiry, is never marked used, and its revocation time is written once. */
  lemma {:induction false} RecordsAreWriteOnce(tokens: Tokens, statements: History<Statement>, h: Digest)
    requires h in tokens
    ensures var after := ExecuteAll(tokens, statements);
      && h in after
      && after[h] == tokens[h].(revokedAt := after[h].revokedAt)
      && (tokens[h].revokedAt.Some? ==> after[h].revokedAt == tokens[h].revokedAt)
  {
    match statements
    case Start =>
    case Then(before, s) => RecordsAreWriteOnce(tokens, before, h);
  }
}
