/** Access tokens (internal/auth/jwt.go), the bearer check (internal/middleware/jwt.go) and the
  * authentication service (internal/service/auth.go).
  * Random draws (token ids, refresh and reset tokens, salts) are parameters.
  */
module Auth {
  import opened Base
  import opened Model
  import opened Redis
  import opened Keyspace
  import opened UserTable
  import opened Sessions
  import opened Users

  const LOGIN_LOCKOUT_WINDOW := 15 * MINUTE
  const MIN_PASSWORD_BYTES := 8

  datatype JwtConfig = JwtConfig(accessTtl: int, refreshDays: int) {
    /** time.Duration(refreshDays) * 24 * time.Hour, in 64-bit arithmetic. */
    function RefreshTtl(): int {
      Wrap64(refreshDays * DAY)
    }
  }

  /** The claims of a signed access token; times in a JWT are whole seconds. */
  datatype AccessToken = AccessToken(subject: Uuid, role: string, jti: string, notBefore: int, expiresAt: int) {
    predicate ValidAt(now: int) {
      notBefore <= now < expiresAt
    }
  }

  function TruncateToSecond(ns: int): int {
    ns / SECOND * SECOND
  }

  function IssueAccessToken(cfg: JwtConfig, userId: Uuid, role: string, jti: string, now: int): AccessToken {
    AccessToken(userId, role, jti, TruncateToSecond(now), TruncateToSecond(now + cfg.accessTtl))
  }

  /** An access token of this user and role, with the times in whole seconds. */
  ghost predicate TokenFor(a: AccessToken, id: Uuid, role: string, jti: string, ttl: int, now: int) {
    && a.subject == id && a.role == role && a.jti == jti
    && a.notBefore % SECOND == 0 && a.notBefore <= now < a.notBefore + SECOND
    && a.expiresAt % SECOND == 0 && a.expiresAt <= now + ttl < a.expiresAt + SECOND
  }

  /** The bearer check: signature, times, then the blocklist; it fails open when Redis is down.
    * `minted` are the tokens that were ever signed, so that no other token verifies.
    */
  predicate Accepts(minted: set<AccessToken>, db: Db, token: AccessToken, net: Net, now: int) {
    token in minted && token.ValidAt(now) && !(net.Up? && Blocked(db, token.jti, now))
  }

  datatype TokenPair = TokenPair(access: AccessToken, refresh: string)

  // ---- Login --------------------------------------------------------------------------------------

  datatype LoginFaults = LoginFaults(check: Net, find: bool, incr: Net, clear: Net, store: Net)
  const LOGS_IN_WELL := LoginFaults(Up, true, Up, Up, Up)

  datatype LoginOutcome =
    | Locked
    | UnknownEmail
    | WrongPassword
    | LoginBroken
    | LoginOk(pair: TokenPair)
  {
    function Reply(): Result<TokenPair, AppError> {
      match this
      case Locked => Err(TooManyRequests)
      case UnknownEmail => Err(Unauthorized)
      case WrongPassword => Err(Unauthorized)
      case LoginBroken => Err(Internal)
      case LoginOk(pair) => Ok(pair)
    }
  }

  /** The lock as a login sees it: ten failures counted, and Redis there to say so. */
  ghost predicate SeesLock(db: Db, email: string, check: Net, now: int) {
    check.Up? && FailuresAt(db, email, now).Ok? && FailuresAt(db, email, now).value >= 10
  }

  ghost function LoginCall(
    cfg: JwtConfig, db: Db, rows: Table, email: string, password: Bytes, jti: string, token: string,
    f: LoginFaults, now: int)
    : (Db, LoginOutcome)
  {
    if f.check.Up? && LockedOut(db, email, now) then (db, Locked)
    else
      var found := SelectByEmail(rows, email, f.find);
      if found.Err? then (db, UnknownEmail)
      else if !found.value.passwordHash.Accepts(password) then
        (CountFailure(db, email, LOGIN_LOCKOUT_WINDOW, f.incr, now), WrongPassword)
      else
        var user := found.value;
        var pair := TokenPair(IssueAccessToken(cfg, user.id, user.role, jti, now), token);
        var cleared := ForgetFailures(db, email, f.clear, now);
        (StoreRefresh(cleared, token, user.id, cfg.RefreshTtl(), f.store, now),
         if f.store.Up? then LoginOk(pair) else LoginBroken)
  }

  // ---- Refresh ------------------------------------------------------------------------------------

  datatype RefreshFaults = RefreshFaults(validate: Net, read: ReadFaults, rotate: Net)
  const REFRESHES_WELL := RefreshFaults(Up, READS_WELL, Up)

  datatype RefreshOutcome =
    | RefreshDenied
    | RefreshBroken
    | RotationFailed(user: Uuid) // whatever the pipeline did, the caller is told nothing of it
    | RefreshOk(pair: TokenPair)
  {
    function Reply(): Result<TokenPair, AppError> {
      match this
      case RefreshDenied => Err(Unauthorized)
      case RefreshBroken => Err(Internal)
      case RotationFailed(_) => Err(Internal)
      case RefreshOk(pair) => Ok(pair)
    }
  }

  function RefreshCall(
    cfg: JwtConfig, db: Db, rows: Table, cached: bool, oldToken: string, jti: string, token: string,
    f: RefreshFaults, now: int)
    : (Db, RefreshOutcome)
  {
    var stored := if f.validate.Up? then TextAt(db, Refresh(oldToken), now) else Err(Internal);
    if stored.Err? then (db, RefreshDenied)
    else
      var id := ParseUuid(stored.value);
      if id.None? then (db, RefreshBroken)
      else
        var fetched := FetchById(db, rows, cached, id.value, f.read, now);
        if fetched.reply.Err? then (fetched.db, RefreshDenied)
        else
          var user := fetched.reply.value;
          var pair := TokenPair(IssueAccessToken(cfg, user.id, user.role, jti, now), token);
          (Rotate(fetched.db, oldToken, token, user.id, cfg.RefreshTtl(), f.rotate, now),
           if f.rotate.Up? then RefreshOk(pair) else RotationFailed(user.id))
  }

  // ---- Logout -------------------------------------------------------------------------------------

  datatype LogoutFaults = LogoutFaults(block: Net, revoke: Net)
  const LOGS_OUT_WELL := LogoutFaults(Up, Up)

  function LogoutCall(
    cfg: JwtConfig, db: Db, jti: string, token: string, f: LogoutFaults, now: int): (Db, Result<(), AppError>)
  {
    var blocked := Block(db, jti, cfg.RefreshTtl(), f.block, now);
    if f.block.Down? then (blocked, Err(Internal))
    else (Revoke(blocked, token, f.revoke, now), if f.revoke.Up? then Ok(()) else Err(Internal))
  }

  // ---- Password reset -----------------------------------------------------------------------------

  datatype ForgotFaults = ForgotFaults(find: bool, store: Net)
  const FORGETS_WELL := ForgotFaults(true, Up)

  datatype ForgotOutcome = NoSuchUser | ResetStored(user: Uuid) | ForgotBroken {
    /** Unknown addresses are answered like known ones. */
    function Reply(): Result<(), AppError> {
      if ForgotBroken? then Err(Internal) else Ok(())
    }
  }

  ghost function ForgotCall(
    db: Db, rows: Table, email: string, token: string, f: ForgotFaults, now: int): (Db, ForgotOutcome)
  {
    var found := SelectByEmail(rows, email, f.find);
    if found.Err? then (db, NoSuchUser)
    else
      (StoreReset(db, token, found.value.id, f.store, now),
       if f.store.Up? then ResetStored(found.value.id) else ForgotBroken)
  }

  datatype ResetFaults = ResetFaults(consume: Net, write: WriteFaults)
  const RESETS_WELL := ResetFaults(Up, WRITES_WELL)

  datatype ResetOutcome =
    | TooShort
    | NoSuchToken
    | TokenSpent // the token is gone and the password not known to have changed
    | PasswordSet(user: Uuid)
  {
    function Reply(): Result<(), AppError> {
      match this
      case TooShort => Err(BadRequest)
      case NoSuchToken => Err(BadRequest)
      case TokenSpent => Err(Internal)
      case PasswordSet(_) => Ok(())
    }
  }

  datatype AfterReset = AfterReset(db: Db, rows: Table, outcome: ResetOutcome)

  function ResetCall(
    db: Db, rows: Table, cached: bool, token: string, password: Bytes, salt: nat, f: ResetFaults, now: int): AfterReset
  {
    if |password| < MIN_PASSWORD_BYTES then AfterReset(db, rows, TooShort)
    else
      var consumed := ConsumeReset(db, token, f.consume, now);
      var stored := if f.consume.Up? then TextAt(db, Reset(token), now) else Err(Internal);
      if stored.Err? then AfterReset(consumed, rows, NoSuchToken)
      else
        var id, hash := ParseUuid(stored.value), HashPassword(password, salt);
        if id.None? || hash.None? then AfterReset(consumed, rows, TokenSpent)
        else
          var changed := ChangePassword(consumed, rows, cached, id.value, hash.value, f.write, now);
          AfterReset(changed.db, changed.rows, if changed.reply.Ok? then PasswordSet(id.value) else TokenSpent)
  }

  class AuthService {
    const users: UserService
    const sessions: SessionRepo
    const jwt: JwtConfig

    ghost predicate Valid()
      reads users, users.repo
    {
      users.Valid() && sessions.rdb == users.rdb && Consistent(users.repo.rows)
    }

    constructor (users: UserService, sessions: SessionRepo, jwt: JwtConfig)
      requires users.Valid() && sessions.rdb == users.rdb && Consistent(users.repo.rows)
      ensures Valid() && this.users == users && this.sessions == sessions && this.jwt == jwt
    {
      this.users := users;
      this.sessions := sessions;
      this.jwt := jwt;
    }

    method Register(email: string, password: Bytes, id: Uuid, salt: nat, sql: Statement)
      returns (r: Result<User, AppError>)
      requires Valid()
      modifies users.repo
      ensures Valid()
      ensures
        After(users.rdb.db, users.repo.rows, r)
        == CreateUser(users.rdb.db, old(users.repo.rows), email, password, "user", id, salt, sql)
      ensures r.Ok? ==> r.value.isActive && r.value.role == "user" && r.value.email == email && r.value.id == id
      ensures r.Ok? ==> id in users.repo.rows && users.repo.rows[id] == r.value
    {
      r := users.Create(email, password, "user", id, salt, sql);
    }

    method Login(email: string, password: Bytes, jti: string, token: string, f: LoginFaults, now: int)
      returns (r: Result<TokenPair, AppError>)
      requires Valid()
      modifies users.rdb
      ensures
        var (db, outcome) := LoginCall(jwt, old(users.rdb.db), users.repo.rows, email, password, jti, token, f, now);
        users.rdb.db == db && r == outcome.Reply()
      ensures r.Ok? ==> TextAt(users.rdb.db, Key.Refresh(token), now) == Ok(r.value.access.subject)
      ensures r.Ok? ==> r.value.refresh == token && (f.clear.Up? ==> FailuresAt(users.rdb.db, email, now) == Ok(0))
      ensures r == Err(TooManyRequests) <==> SeesLock(old(users.rdb.db), email, f.check, now)
      ensures
        r.Ok? ==> exists id ::
          && id in users.repo.rows && users.repo.rows[id].email == email
          && users.repo.rows[id].passwordHash.Accepts(password)
          && TokenFor(r.value.access, id, users.repo.rows[id].role, jti, jwt.accessTtl, now)
      ensures r.Err? && f.find && f.store.Up? ==> r.error == TooManyRequests || r.error == Unauthorized
    {
      // A lockout check that fails does not stop the login.
      var locked := sessions.IsLockedOut(email, f.check, now);
      if locked.Ok? && locked.value {
        return Err(TooManyRequests);
      }
      var found := users.GetByEmail(email, f.find);
      if found.Err? {
        return Err(Unauthorized);
      }
      var user := found.value;
      if !user.passwordHash.Accepts(password) {
        var _ := sessions.IncrLoginFailure(email, LOGIN_LOCKOUT_WINDOW, f.incr, now);
        return Err(Unauthorized);
      }
      var _ := sessions.ClearLoginFailures(email, f.clear, now);
      var access := IssueAccessToken(jwt, user.id, user.role, jti, now);
      var stored := sessions.StoreRefreshToken(token, user.id, jwt.RefreshTtl(), f.store, now);
      r := if stored.Err? then Err(Internal) else Ok(TokenPair(access, token));
    }

    method Refresh(oldToken: string, jti: string, token: string, f: RefreshFaults, now: int)
      returns (r: Result<TokenPair, AppError>)
      requires Valid()
      modifies users.rdb
      ensures
        var (db, outcome) :=
          RefreshCall(jwt, old(users.rdb.db), users.repo.rows, users.cache != null, oldToken, jti, token, f, now);
        users.rdb.db == db && r == outcome.Reply()
      ensures r.Ok? ==> r.value.refresh == token
      ensures r.Ok? ==> TextAt(users.rdb.db, Key.Refresh(token), now) == Ok(r.value.access.subject)
      ensures r.Ok? && oldToken != token ==> TextAt(users.rdb.db, Key.Refresh(oldToken), now) == Err(Unauthorized)
      ensures f.validate.Up? && TextAt(old(users.rdb.db), Key.Refresh(oldToken), now).Err? ==> r == Err(Unauthorized)
      ensures r.Ok? ==> TokenFor(r.value.access, r.value.access.subject, r.value.access.role, jti, jwt.accessTtl, now)
    {
      var stored := sessions.ValidateRefreshToken(oldToken, f.validate, now);
      if stored.Err? {
        return Err(Unauthorized);
      }
      var id := ParseUuid(stored.value);
      if id.None? {
        return Err(Internal);
      }
      var fetched := users.GetById(id.value, f.read, now);
      if fetched.Err? {
        return Err(Unauthorized);
      }
      var user := fetched.value;
      var access := IssueAccessToken(jwt, user.id, user.role, jti, now);
      var rotated := sessions.RotateRefreshToken(oldToken, token, user.id, jwt.RefreshTtl(), f.rotate, now);
      r := if rotated.Err? then Err(Internal) else Ok(TokenPair(access, token));
    }

    method Logout(jti: string, token: string, f: LogoutFaults, now: int) returns (r: Result<(), AppError>)
      requires Valid()
      modifies users.rdb
      ensures (users.rdb.db, r) == LogoutCall(jwt, old(users.rdb.db), jti, token, f, now)
      ensures r.Ok? ==> Blocked(users.rdb.db, jti, now)
      ensures r.Ok? ==> TextAt(users.rdb.db, Key.Refresh(token), now) == Err(Unauthorized)
      ensures r == if f.block.Up? && f.revoke.Up? then Ok(()) else Err(Internal)
    {
      r := sessions.BlocklistJti(jti, jwt.RefreshTtl(), f.block, now);
      if r.Err? {
        return;
      }
      r := sessions.RevokeRefreshToken(token, f.revoke, now);
    }

    method ForgotPassword(email: string, token: string, f: ForgotFaults, now: int) returns (r: Result<(), AppError>)
      requires Valid()
      modifies users.rdb
      ensures
        var (db, outcome) := ForgotCall(old(users.rdb.db), users.repo.rows, email, token, f, now);
        users.rdb.db == db && r == outcome.Reply()
      ensures f.store.Up? ==> r == Ok(())
      ensures r.Err? ==> r == Err(Internal)
    {
      var found := users.GetByEmail(email, f.find);
      if found.Err? {
        return Ok(());
      }
      var stored := sessions.StorePasswordResetToken(token, found.value.id, f.store, now);
      r := if stored.Err? then Err(Internal) else Ok(());
    }

    method ResetPassword(token: string, password: Bytes, salt: nat, f: ResetFaults, now: int)
      returns (r: Result<(), AppError>)
      requires Valid()
      modifies users.repo, users.rdb
      ensures Valid()
      ensures
        var after :=
          ResetCall(old(users.rdb.db), old(users.repo.rows), users.cache != null, token, password, salt, f, now);
        users.rdb.db == after.db && users.repo.rows == after.rows && r == after.outcome.Reply()
      ensures r.Ok? || r == Err(Internal) ==> TextAt(users.rdb.db, Key.Reset(token), now) == Err(Unauthorized)
      ensures r.Err? && !f.write.write.ReplyLost? ==> users.repo.rows == old(users.repo.rows)
      ensures |password| < 8 ==> r == Err(BadRequest)
    {
      if |password| < MIN_PASSWORD_BYTES {
        return Err(BadRequest);
      }
      var stored := sessions.ConsumePasswordResetToken(token, f.consume, now);
      if stored.Err? {
        return Err(BadRequest);
      }
      var id := ParseUuid(stored.value);
      if id.None? {
        return Err(Internal);
      }
      var hash := HashPassword(password, salt);
      if hash.None? {
        return Err(Internal);
      }
      var changed := users.UpdatePassword(id.value, hash.value, f.write, now);
      r := if changed.Err? then Err(Internal) else Ok(());
    }
  }
}
