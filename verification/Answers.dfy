/** What each operation answers, for every input and every mixture of failures, in terms of the rows and
  * keys it finds.
  */
module Answers {
  import opened Base
  import opened Model
  import opened Redis
  import opened Keyspace
  import opened UserTable
  import opened Sessions
  import opened Users
  import opened Auth
  import opened Handlers
  import opened Protocol
  import RateLimit

  // ---- Values -------------------------------------------------------------------------------------

  lemma ResponseShowsUser(user: User)
    ensures Shows(user.ToResponse(), user)
  {
  }

  /** Through JSON and back a user loses the password hash and nothing else. */
  lemma JsonKeepsAllButHash(user: User)
    ensures user.ToJson().FromJson() == user.(passwordHash := NoHash)
  {
  }

  lemma IssuedTokenIsFor(cfg: JwtConfig, id: Uuid, role: string, jti: string, now: int)
    ensures TokenFor(IssueAccessToken(cfg, id, role, jti, now), id, role, jti, cfg.accessTtl, now)
  {
  }

  /** The same hexadecimal digits and dashes, letters in either case. */
  ghost predicate SameDigits(s: string, u: string) {
    |s| == |u| && forall i :: 0 <= i < |s| ==> s[i] == u[i] || ('A' <= s[i] <= 'F' && s[i] as int + 32 == u[i] as int)
  }

  lemma SameDigitsLower(s: string, u: Uuid)
    requires SameDigits(s, u)
    ensures LowerAll(s) == u
  {
    forall i | 0 <= i < |s| ensures Lower(s[i]) == u[i] {
      assert u[i] == '-' || HexDigit(u[i]);
    }
  }

  lemma UuidBetween(u: Uuid, s: string, l: char, r: char)
    requires SameDigits(s, u)
    ensures ParseUuid(s) == Some(u) && ParseUuid([l] + s + [r]) == Some(u)
  {
    SameDigitsLower(s, u);
    assert ([l] + s + [r])[1..37] == s;
  }

  lemma UuidAfter(u: Uuid, s: string, urn: string)
    requires SameDigits(s, u) && (urn == "urn:uuid:" || urn == "URN:UUID:")
    ensures ParseUuid(urn + s) == Some(u)
  {
    SameDigitsLower(s, u);
    assert (urn + s)[9..] == s && (urn + s)[..9] == urn;
    assert LowerAll(urn) == "urn:uuid:";
  }

  function WithoutDashes(s: string): string
    requires |s| == 36
  {
    s[..8] + s[9..13] + s[14..18] + s[19..23] + s[24..]
  }

  lemma DashesComeBack(s: string)
    requires |s| == 36 && s[8] == s[13] == s[18] == s[23] == '-'
    ensures
      var d := WithoutDashes(s);
      |d| == 32 && d[..8] + "-" + d[8..12] + "-" + d[12..16] + "-" + d[16..20] + "-" + d[20..] == s
  {
    var d := WithoutDashes(s);
    assert d[..8] == s[..8] && d[8..12] == s[9..13] && d[12..16] == s[14..18];
    assert d[16..20] == s[19..23] && d[20..] == s[24..];
    assert s == s[..8] + "-" + s[9..13] + "-" + s[14..18] + "-" + s[19..23] + "-" + s[24..];
  }

  /** A UUID is read in four forms: plain, between any two characters, as a URN, without dashes. */
  lemma UuidForms(u: Uuid, s: string, l: char, r: char)
    requires SameDigits(s, u)
    ensures ParseUuid(s) == Some(u)
    ensures ParseUuid([l] + s + [r]) == Some(u)
    ensures ParseUuid("urn:uuid:" + s) == Some(u) && ParseUuid("URN:UUID:" + s) == Some(u)
    ensures ParseUuid(WithoutDashes(s)) == Some(u)
  {
    UuidBetween(u, s, l, r);
    UuidAfter(u, s, "urn:uuid:");
    UuidAfter(u, s, "URN:UUID:");
    UuidPacked(u, s);
  }

  lemma UuidPacked(u: Uuid, s: string)
    requires SameDigits(s, u)
    ensures ParseUuid(WithoutDashes(s)) == Some(u)
  {
    SameDigitsLower(s, u);
    assert u[8] == u[13] == u[18] == u[23] == '-';
    DashesComeBack(s);
  }

  /** Nothing of another length is read. */
  lemma NoOtherUuid(s: string)
    ensures ParseUuid(s).Some? ==> |s| == 32 || |s| == 36 || |s| == 38 || |s| == 45
  {
  }

  /** SET keeps whole milliseconds and EXPIRE whole seconds of what it is given, and at least one. */
  lemma LifetimesAreRounded(ttl: int)
    requires ttl > 0
    ensures SetLifetime(ttl) % 1_000_000 == 0 && ExpireSeconds(ttl) >= 1
    ensures if ttl < 1_000_000 then SetLifetime(ttl) == 1_000_000
            else SetLifetime(ttl) <= ttl < SetLifetime(ttl) + 1_000_000
    ensures if ttl < 1_000_000_000 then ExpireSeconds(ttl) == 1
            else ExpireSeconds(ttl) * 1_000_000_000 <= ttl < ExpireSeconds(ttl) * 1_000_000_000 + 1_000_000_000
  {
  }

  lemma StampsAreMilliseconds(ns: int)
    ensures UnixMilli(ns) * 1_000_000 <= ns < UnixMilli(ns) * 1_000_000 + 1_000_000
  {
  }

  /** Bcrypt does not tell a byte from the same byte, a zero, and the byte again. */
  lemma ZeroBytesRepeat(b: Byte)
    ensures BcryptKey([b]) == BcryptKey([b, 0, b])
  {
  }

  // ---- Login --------------------------------------------------------------------------------------

  lemma LoginAnswers(
    cfg: JwtConfig, db: Db, rows: Table, id: Uuid, password: Bytes, jti: string, token: string,
    f: LoginFaults, now: int)
    requires Consistent(rows) && id in rows
    ensures
      var email := rows[id].email;
      var reply := LoginCall(cfg, db, rows, email, password, jti, token, f, now).1.Reply();
      var locked := SeesLock(db, email, f.check, now);
      var right := rows[id].passwordHash.Accepts(password);
      && (reply == Err(TooManyRequests) <==> locked)
      && (reply == Err(Unauthorized) <==> !locked && (!f.find || !right))
      && (reply == Err(Internal) <==> !locked && f.find && right && !f.store.Up?)
      && (reply.Ok? <==> !locked && f.find && right && f.store.Up?)
      && (reply.Ok? ==>
            && reply.value.refresh == token
            && TokenFor(reply.value.access, id, rows[id].role, jti, cfg.accessTtl, now))
  {
    assert SelectByEmail(rows, rows[id].email, true) == Ok(rows[id]);
    IssuedTokenIsFor(cfg, id, rows[id].role, jti, now);
  }

  /** What a login leaves behind: the counter of its address and the token's key, nothing else. */
  lemma LoginEffects(
    cfg: JwtConfig, db: Db, rows: Table, id: Uuid, password: Bytes, jti: string, token: string,
    f: LoginFaults, now: int)
    requires Consistent(rows) && id in rows
    ensures
      var email := rows[id].email;
      var (db', outcome) := LoginCall(cfg, db, rows, email, password, jti, token, f, now);
      && OnlyTouches(db, db', {Lockout(email), Refresh(token)})
      && (outcome.Reply() == Err(TooManyRequests) ==> db' == db)
      && (outcome.WrongPassword? && f.incr.Up? && FailuresAt(db, email, now).Ok? ==>
            && FailuresAt(db', email, now) == Ok(FailuresAt(db, email, now).value + 1)
            && FailuresAt(db', email, now + 15 * MINUTE - 1) == FailuresAt(db', email, now)
            && FailuresAt(db', email, now + 15 * MINUTE) == Ok(0))
      && (outcome.LoginOk? ==>
            && TextAt(db', Refresh(token), now) == Ok(id)
            && (f.clear.Up? ==> FailuresAt(db', email, now) == Ok(0)))
  {
    assert SelectByEmail(rows, rows[id].email, true) == Ok(rows[id]);
  }

  /** An address that no row has is answered like a wrong password, and its failures are not counted. */
  lemma LoginWithoutAccount(
    cfg: JwtConfig, db: Db, rows: Table, email: string, password: Bytes, jti: string, token: string,
    f: LoginFaults, now: int)
    requires forall id :: id in rows ==> rows[id].email != email
    ensures
      var (db', outcome) := LoginCall(cfg, db, rows, email, password, jti, token, f, now);
      && db' == db
      && outcome.Reply() == Err(if SeesLock(db, email, f.check, now) then TooManyRequests else Unauthorized)
  {
  }

  // ---- Refresh ------------------------------------------------------------------------------------

  lemma RefreshAnswers(
    cfg: JwtConfig, db: Db, rows: Table, cached: bool, oldToken: string, jti: string, token: string,
    f: RefreshFaults, now: int)
    ensures
      var reply := RefreshCall(cfg, db, rows, cached, oldToken, jti, token, f, now).1.Reply();
      var stored := TextAt(db, Refresh(oldToken), now);
      var id := if f.validate.Up? && stored.Ok? then ParseUuid(stored.value) else None;
      var read := if id.Some? then FetchById(db, rows, cached, id.value, f.read, now).reply else Err(NotFound);
      && (reply == Err(Unauthorized) <==> !f.validate.Up? || stored.Err? || (id.Some? && read.Err?))
      && (reply.Ok? <==> read.Ok? && f.rotate.Up?)
      && (reply.Err? ==> reply.error == Unauthorized || reply.error == Internal)
      && (reply.Ok? ==>
            && reply.value.refresh == token
            && TokenFor(reply.value.access, read.value.id, read.value.role, jti, cfg.accessTtl, now))
  {
  }

  // ---- Reading a user -----------------------------------------------------------------------------

  /** A hit answers with the image; anything else asks the table for an active row. */
  lemma ReadAnswers(db: Db, rows: Table, cached: bool, id: Uuid, f: ReadFaults, now: int)
    ensures
      var after := FetchById(db, rows, cached, id, f, now);
      var hit := cached && f.lookup.Up? && CachedImage(db, id, now).Some?;
      && after.rows == rows && OnlyTouches(db, after.db, {CacheUser(id)})
      && (hit ==> after.db == db && after.reply.Ok? && after.reply.value.ToJson() == CachedImage(db, id, now).value
                  && after.reply.value.passwordHash == NoHash)
      && (!hit ==>
            && (after.reply == Err(Internal) <==> !f.find)
            && (after.reply == Err(NotFound) <==> f.find && !(id in rows && rows[id].isActive))
            && (after.reply.Ok? <==> f.find && id in rows && rows[id].isActive)
            && (after.reply.Ok? ==> after.reply.value == rows[id]))
      && (!cached ==> after.db == db)
  {
  }

  /** A row read from the table is served from the cache for five minutes and not longer. */
  lemma ReadThenRead(db: Db, rows: Table, id: Uuid, f: ReadFaults, g: ReadFaults, now: int, later: int)
    requires !(f.lookup.Up? && CachedImage(db, id, now).Some?) && f.fill.Up? && g.lookup.Up?
    requires FetchById(db, rows, true, id, f, now).reply.Ok? && now <= later
    ensures
      var first := FetchById(db, rows, true, id, f, now);
      var second := FetchById(first.db, rows, true, id, g.(find := false), later);
      second.reply == if later < now + 5 * MINUTE then Ok(rows[id].(passwordHash := NoHash)) else Err(Internal)
  {
    JsonKeepsAllButHash(rows[id]);
    SendOnKey(db, CacheUser(id), Set(Image(rows[id].ToJson()), USER_CACHE_TTL), f.fill, 0, now);
  }

  // ---- Registration -------------------------------------------------------------------------------

  ghost predicate Taken(rows: Table, id: Uuid, email: string) {
    id in rows || exists jd :: jd in rows && rows[jd].email == email
  }

  lemma RegisterAnswers(
    db: Db, rows: Table, email: string, password: Bytes, role: string, id: Uuid, salt: nat, sql: Statement)
    ensures
      var after := CreateUser(db, rows, email, password, role, id, salt, sql);
      var legal := |password| <= 72 && RoleAllowed(role);
      && after.db == db
      && (after.reply.Ok? <==> legal && sql.Works? && !Taken(rows, id, email))
      && (after.reply == Err(Conflict) <==> legal && sql.Works? && Taken(rows, id, email))
      && (after.reply.Err? ==> after.reply.error == Conflict || after.reply.error == Internal)
      && (legal && !sql.Fails? && !Taken(rows, id, email) ==>
            && after.rows.Keys == rows.Keys + {id} && (forall jd :: jd in rows ==> after.rows[jd] == rows[jd])
            && IsNewRow(after.rows[id], id, email, password, role, salt))
      && (!(legal && !sql.Fails? && !Taken(rows, id, email)) ==> after.rows == rows)
      && (after.reply.Ok? ==> after.reply.value == after.rows[id])
  {
    assert EmailTaken(rows, email, id) ==> Taken(rows, id, email);
  }

  ghost predicate IsNewRow(user: User, id: Uuid, email: string, password: Bytes, role: string, salt: nat) {
    && user.id == id && user.tenantId == None && user.email == email && user.role == role && user.isActive
    && user.passwordHash == Bcrypt(salt, password) && user.createdAt == 0 && user.updatedAt == 0
  }

  /** An account can be registered if nothing stands against it, and then reads as it was answered. */
  lemma RegisterThenRead(
    db: Db, rows: Table, cached: bool, email: string, password: Bytes, role: string, id: Uuid, salt: nat,
    f: ReadFaults, now: int)
    requires Consistent(rows) && |password| <= 72 && RoleAllowed(role) && !Taken(rows, id, email)
    requires f.find && CachedImage(db, id, now).None?
    ensures
      var after := CreateUser(db, rows, email, password, role, id, salt, Works);
      && after.reply.Ok? && IsNewRow(after.reply.value, id, email, password, role, salt)
      && FetchById(after.db, after.rows, cached, id, f, now).reply == after.reply
  {
    RegisterAnswers(db, rows, email, password, role, id, salt, Works);
  }

  // ---- Updates and deletions ----------------------------------------------------------------------

  /** What stands in the row after the update, if it is made. */
  ghost function Wanted(user: User, req: UpdateUserRequest, callerRole: string): (string, string, bool) {
    (if req.email.Some? then req.email.value else user.email,
     if req.role.Some? && callerRole == "admin" then req.role.value else user.role,
     if req.isActive.Some? then req.isActive.value else user.isActive)
  }

  ghost predicate Active(rows: Table, id: Uuid) {
    id in rows && rows[id].isActive
  }

  /** The wanted e-mail is free and the wanted role is one of the three. */
  ghost predicate Possible(rows: Table, id: Uuid, req: UpdateUserRequest, callerRole: string)
    requires id in rows
  {
    var (email, role, _) := Wanted(rows[id], req, callerRole);
    && (role == "user" || role == "admin" || role == "moderator")
    && forall jd :: jd in rows && rows[jd].email == email ==> jd == id
  }

  lemma UpdateAnswers(
    db: Db, rows: Table, cached: bool, id: Uuid, req: UpdateUserRequest, callerRole: string, f: WriteFaults, now: int)
    requires Consistent(rows)
    ensures
      var after := UpdateUser(db, rows, cached, id, req, callerRole, f, now);
      && (after.reply == Err(NotFound) <==> f.find && !Active(rows, id))
      && (after.reply.Ok? <==>
            f.find && Active(rows, id) && Possible(rows, id, req, callerRole) && f.write.Works?)
      && (after.reply.Err? ==> after.reply.error == NotFound || after.reply.error == Internal)
      && (after.reply.Ok? ==>
            && id in after.rows && after.rows[id] == after.reply.value.(updatedAt := now)
            && (after.reply.value.email, after.reply.value.role, after.reply.value.isActive)
               == Wanted(rows[id], req, callerRole)
            && after.reply.value.updatedAt == rows[id].updatedAt)
      && OnlyTouches(db, after.db, {CacheUser(id)}) && (!cached ==> after.db == db)
      && (forall jd :: jd in rows && jd != id ==> jd in after.rows && after.rows[jd] == rows[jd])
  {
  }

  /** The endpoint: a bad id, a stranger, a bad body, and then what the update came to. */
  lemma UpdateEndpointAnswers(
    db: Db, rows: Table, cached: bool, rawId: string, callerId: string, callerRole: string,
    body: Option<UpdateUserRequest>, f: WriteFaults, now: int)
    requires Consistent(rows)
    ensures
      var after := UpdateAnswer(db, rows, cached, rawId, callerId, callerRole, body, f, now);
      var id := ParseUuid(rawId);
      var stranger := id.Some? && callerRole != "admin" && callerId != id.value;
      && (after.reply == Err(BadRequest) <==> id.None? || (!stranger && body.None?))
      && (after.reply == Err(Forbidden) <==> stranger)
      && (id.None? || stranger || body.None? ==> after.db == db && after.rows == rows)
      && (after.reply.Ok? ==>
            && id.Some? && id.value in after.rows && Shows(after.reply.value, after.rows[id.value])
            && body.Some? && Active(rows, id.value)
            && (after.reply.value.email, after.reply.value.role, after.reply.value.isActive)
               == Wanted(rows[id.value], body.value, callerRole))
      && (id.Some? && !stranger && body.Some? ==>
            (after.reply.Ok? <==>
              && f.find && Active(rows, id.value) && Possible(rows, id.value, body.value, callerRole)
              && f.write.Works?))
  {
    if ParseUuid(rawId).Some? && body.Some? {
      UpdateAnswers(db, rows, cached, ParseUuid(rawId).value, body.value, callerRole, f, now);
    }
  }

  lemma DeleteAnswers(db: Db, rows: Table, cached: bool, id: Uuid, f: WriteFaults, now: int)
    ensures
      var after := DeleteUser(db, rows, cached, id, f, now);
      && (after.reply == Err(NotFound) <==> f.find && !Active(rows, id))
      && (after.reply.Ok? <==> f.find && Active(rows, id) && f.write.Works?)
      && (after.reply.Err? ==> after.reply.error == NotFound || after.reply.error == Internal)
      && (after.rows == rows
          || (Active(rows, id) && after.rows == rows[id := rows[id].(isActive := false, updatedAt := now)]))
      && (after.reply.Ok? ==> after.rows != rows)
      && OnlyTouches(db, after.db, {CacheUser(id)}) && (!cached ==> after.db == db)
  {
  }

  /** The endpoints that read and delete one user: who may, and what they then get. */
  lemma ReadEndpointAnswers(
    db: Db, rows: Table, cached: bool, rawId: string, callerId: string, callerRole: string, f: ReadFaults, now: int)
    ensures
      var reply := GetAnswer(db, rows, cached, rawId, callerId, callerRole, f, now).reply;
      var id := ParseUuid(rawId);
      && (reply == Err(BadRequest) <==> id.None?)
      && (reply == Err(Forbidden) <==> id.Some? && callerRole != "admin" && callerId != id.value)
      && (id.Some? && (callerRole == "admin" || callerId == id.value) ==>
            var read := FetchById(db, rows, cached, id.value, f, now).reply;
            && (reply.Ok? <==> read.Ok?)
            && (reply.Ok? ==> Shows(reply.value, read.value))
            && (reply.Err? ==> reply.error == read.error))
  {
  }

  lemma DeleteEndpointAnswers(
    db: Db, rows: Table, cached: bool, rawId: string, callerRole: string, f: WriteFaults, now: int)
    ensures
      var after := DeleteAnswer(db, rows, cached, rawId, callerRole, f, now);
      var id := ParseUuid(rawId);
      && (after.reply == Err(Forbidden) <==> callerRole != "admin")
      && (after.reply == Err(BadRequest) <==> callerRole == "admin" && id.None?)
      && (after.reply.Ok? <==>
            callerRole == "admin" && id.Some? && f.find && Active(rows, id.value) && f.write.Works?)
      && (after.reply.Err? && !f.write.ReplyLost? ==> after.db == db && after.rows == rows)
  {
  }

  /** A password is changed by id alone, active or not; an unknown id is no error. */
  lemma PasswordAnswers(
    db: Db, rows: Table, cached: bool, id: Uuid, hash: PasswordHash, f: WriteFaults, now: int)
    ensures
      var after := ChangePassword(db, rows, cached, id, hash, f, now);
      && after.reply == (if f.write.Works? then Ok(()) else Err(Internal))
      && after.rows.Keys == rows.Keys
      && (forall jd :: jd in rows && jd != id ==> after.rows[jd] == rows[jd])
      && (id in rows ==>
            after.rows[id]
            == if f.write.Fails? then rows[id] else rows[id].(passwordHash := hash, updatedAt := now))
      && OnlyTouches(db, after.db, {CacheUser(id)}) && (!cached ==> after.db == db)
      && (after.reply.Ok? && cached && f.drop.Reaches(0) ==> CachedImage(after.db, id, now) == None)
  {
  }

  // ---- Reset, logout, bearer ----------------------------------------------------------------------

  /** While Redis takes the token, known and unknown addresses are answered alike. */
  lemma ForgotAnswers(db: Db, rows: Table, email: string, token: string, f: ForgotFaults, now: int)
    requires Consistent(rows)
    ensures
      var (db', outcome) := ForgotCall(db, rows, email, token, f, now);
      var known := f.find && exists id :: id in rows && rows[id].email == email;
      && (f.store.Up? ==> outcome.Reply() == Ok(()))
      && outcome.Reply() == (if known && !f.store.Up? then Err(Internal) else Ok(()))
      && (known && f.store.Up? ==>
            exists id :: id in rows && rows[id].email == email && TextAt(db', Reset(token), now) == Ok(id))
      && (!known ==> db' == db)
      && OnlyTouches(db, db', {Reset(token)})
  {
  }

  lemma ResetAnswers(
    db: Db, rows: Table, cached: bool, token: string, password: Bytes, salt: nat, f: ResetFaults, now: int)
    ensures
      var reset := ResetCall(db, rows, cached, token, password, salt, f, now);
      var found := f.consume.Up? && TextAt(db, Reset(token), now).Ok?;
      var reply := reset.outcome.Reply();
      && (reply == Err(BadRequest) <==> |password| < 8 || !found)
      && (reply.Ok? <==>
            && 8 <= |password| <= 72 && found && f.write.write.Works?
            && ParseUuid(TextAt(db, Reset(token), now).value).Some?)
      && (reply.Err? ==> reply.error == BadRequest || reply.error == Internal)
      && (|password| < 8 ==> reset.db == db && reset.rows == rows)
  {
  }

  lemma LogoutAnswers(cfg: JwtConfig, db: Db, jti: string, token: string, f: LogoutFaults, now: int)
    ensures
      var (db', reply) := LogoutCall(cfg, db, jti, token, f, now);
      && reply == (if f.block.Up? && f.revoke.Up? then Ok(()) else Err(Internal))
      && OnlyTouches(db, db', {Blocklist(jti), Refresh(token)})
      && (f.block.Up? ==> Blocked(db', jti, now))
      && (f.block.Up? && f.revoke.Reaches(0) ==> TextAt(db', Refresh(token), now) == Err(Unauthorized))
      && (f.block.Down? ==> At(db', Refresh(token)) == At(db, Refresh(token)))
  {
  }

  /** With Redis down the bearer check lets a valid token through, blocklisted or not; with Redis up it
    * does not let a blocklisted one through.
    */
  lemma BearerAnswers(minted: set<AccessToken>, db: Db, token: AccessToken, net: Net, now: int)
    ensures
      Accepts(minted, db, token, net, now)
      <==> token in minted && token.notBefore <= now < token.expiresAt
           && (net.Down? || Read(db, Blocklist(token.jti), now).None?)
  {
  }

  /** The limiter fails open: without an answer from Redis every request is let through with the whole
    * limit left. With one, it is let through exactly if no more than `limit` members are counted.
    */
  lemma LimiterAnswers(c: Cell, limit: int, window: int, net: Net, now: int)
    requires Live(c, now).Some? ==> c.value.value.Members?
    ensures
      var d := RateLimit.LimitDecision(c, limit, window, net, now);
      var counted := RateLimit.CountedCell(c, window, Up, now);
      && d.resetAt == now + window
      && (net.Down? ==> d.allowed && d.remaining == limit)
      && (net.Up? ==> counted.Some? && counted.value.value.Members?)
      && (net.Up? && Alive(counted.value, now) ==>
            var n := |counted.value.value.z|;
            && (d.allowed <==> n <= limit)
            && d.remaining == (if n <= limit then limit - n else 0))
  {
  }

  /** A round trip of which nothing arrives changes nothing. */
  lemma NothingArrivesNothingChanges(
    db: Db, token: string, next: string, userId: string, id: Uuid, image: UserImage, ttl: int, now: int)
    ensures
      var net := Down({});
      && StoreRefresh(db, token, userId, ttl, net, now) == db
      && Revoke(db, token, net, now) == db
      && Rotate(db, token, next, userId, ttl, net, now) == db
      && Block(db, token, ttl, net, now) == db
      && CountFailure(db, token, ttl, net, now) == db
      && ForgetFailures(db, token, net, now) == db
      && StoreReset(db, token, userId, net, now) == db
      && ConsumeReset(db, token, net, now) == db
      && CountRequest(db, RateIp(token), ttl, net, now) == db
      && StoreImage(db, id, image, ttl, net, now) == db
      && DropImage(db, id, net, now) == db
  {
    forall key: Key, op: Op, i: nat {
      UnsentChangesNothing(db, key, op, i, now);
    }
  }

  lemma UnsentChangesNothing(db: Db, key: Key, op: Op, i: nat, now: int)
    ensures Send(db, key, op, Down({}), i, now) == db
  {
  }

  /** Of a round trip that fails after its only command arrived the effect is there all the same. */
  lemma EffectWithoutReply(
    db: Db, token: string, userId: string, id: Uuid, image: UserImage, ttl: int, now: int)
    ensures
      var net := Down({0});
      && StoreRefresh(db, token, userId, ttl, net, now) == StoreRefresh(db, token, userId, ttl, Up, now)
      && Revoke(db, token, net, now) == Revoke(db, token, Up, now)
      && Block(db, token, ttl, net, now) == Block(db, token, ttl, Up, now)
      && ForgetFailures(db, token, net, now) == ForgetFailures(db, token, Up, now)
      && StoreReset(db, token, userId, net, now) == StoreReset(db, token, userId, Up, now)
      && StoreImage(db, id, image, ttl, net, now) == StoreImage(db, id, image, ttl, Up, now)
      && DropImage(db, id, net, now) == DropImage(db, id, Up, now)
  {
  }

  /** A failure half counted. Without its EXPIRE a first failure is counted for ever, and a later one
    * until the earlier deadline; without its INCR the deadline moves and the count stays.
    */
  lemma HalfCountedFailure(db: Db, email: string, now: int)
    requires FailuresAt(db, email, now).Ok?
    ensures
      var before := FailuresAt(db, email, now).value;
      var c := Read(db, Lockout(email), now);
      var counted := At(CountFailure(db, email, 15 * MINUTE, Down({0}), now), Lockout(email));
      var moved := At(CountFailure(db, email, 15 * MINUTE, Down({1}), now), Lockout(email));
      && counted == Some(Entry(Counter(before + 1), if c.None? then None else c.value.deadline))
      && (c.Some? ==> moved == Some(Entry(Counter(before), Some(now + 15 * MINUTE))))
      && (c.None? ==> moved == None)
  {
  }

  // ---- The log of a run -----------------------------------------------------------------------------

  /** What a run logs of a refresh is what its caller was answered. */
  lemma LogTellsRefresh(cfg: Config, w: World, at: int, call: Call)
    requires call.RefreshSession?
    ensures
      var f := REFRESHES_WELL.(rotate := call.rotate);
      var outcome :=
        RefreshCall(cfg.jwt, w.db, w.rows, cfg.cached, call.oldToken, call.jti, call.token, f, at).1;
      var w' := DoRefresh(cfg, w, at, call);
      && |w'.log| == |w.log| + 1 && var e := w'.log[|w.log|];
      && (e.Refreshed? <==> outcome.Reply().Ok?)
      && (e == Refused(at, Unauthorized) <==> outcome.Reply() == Err(Unauthorized))
      && (e == Refused(at, Internal) || e.RotationLost? <==> outcome.Reply() == Err(Internal))
  {
  }

  /** What a run logs of a request for a reset tells known addresses from unknown ones. */
  lemma LogTellsForgot(cfg: Config, w: World, at: int, call: Call)
    requires call.ForgotPassword? && Consistent(w.rows)
    ensures
      var w' := DoForgot(cfg, w, at, call);
      && |w'.log| == |w.log| + 1 && var e := w'.log[|w.log|];
      && (e == ResetUnknown(at, call.email) <==> forall id :: id in w.rows ==> w.rows[id].email != call.email)
      && (forall id :: id in w.rows && w.rows[id].email == call.email ==> e == ResetRequested(at, id, call.token))
  {
  }

  // ---- Endpoints of the user list -----------------------------------------------------------------

  /** The list is for admins and for no one else. */
  lemma ListAnswers(ordered: seq<User>, role: string, rawPage: string, rawSize: string, up: bool)
    ensures
      var reply := ListAnswer(ordered, role, rawPage, rawSize, up);
      && (reply == Err(Forbidden) <==> role != "admin")
      && (role == "admin" && !up ==> reply == Err(Internal))
      && (reply.Err? ==> reply.error == Forbidden || reply.error == Internal)
      && (reply.Ok? ==>
            && reply.value.total == |ordered|
            && |reply.value.data| <= reply.value.perPage <= 100 && 1 <= reply.value.perPage && 1 <= reply.value.page)
  {
  }

  lemma UnreadQueries(raw: string)
    requires raw == "" || Atoi(raw).None?
    ensures PageNumber(raw) == 1 && PageSize(raw) == 20
  {
  }

  lemma FirstPageOfTwenty(ordered: seq<User>)
    ensures
      var page := ListPage(ordered, 1, 20, Offset(1, 20), true);
      && page.Ok? && page.value.page == 1 && page.value.perPage == 20
      && |page.value.data| == (if |ordered| < 20 then |ordered| else 20)
      && forall i :: 0 <= i < |page.value.data| ==> Shows(page.value.data[i], ordered[i])
  {
    assert Offset(1, 20) == 0;
  }

  /** Without a query string, or with one that is no number, an admin gets the first twenty rows. */
  lemma ListByDefault(ordered: seq<User>, rawPage: string, rawSize: string)
    requires rawPage == "" || Atoi(rawPage).None?
    requires rawSize == "" || Atoi(rawSize).None?
    ensures
      var reply := ListAnswer(ordered, "admin", rawPage, rawSize, true);
      && reply.Ok? && reply.value.page == 1 && reply.value.perPage == 20
      && |reply.value.data| == (if |ordered| < 20 then |ordered| else 20)
      && forall i :: 0 <= i < |reply.value.data| ==> Shows(reply.value.data[i], ordered[i])
  {
    UnreadQueries(rawPage);
    UnreadQueries(rawSize);
    FirstPageOfTwenty(ordered);
    assert ListAnswer(ordered, "admin", rawPage, rawSize, true) == ListPage(ordered, 1, 20, Offset(1, 20), true);
  }

  /** Pages and sizes out of range are moved to the nearest end. */
  lemma ListClamps(ordered: seq<User>, page: nat, size: nat)
    requires page <= MAX_INT64 && size <= MAX_INT64
    ensures
      var (p, s) := (PageNumber(Decimal(page)), PageSize(Decimal(size)));
      && p == (if page == 0 then 1 else page)
      && s == (if size == 0 then 1 else if size > 100 then 100 else size)
      && PageNumber("-" + Decimal(page)) == 1 && PageSize("-" + Decimal(size)) == 1
      && PageNumber("+" + Decimal(page)) == p && PageSize("+" + Decimal(size)) == s
  {
    NumbersAreRead(page, 1);
    NumbersAreRead(size, 20);
    SignsAreRead(page, 1);
    SignsAreRead(size, 20);
  }
}
