/** What one call stores, a later call finds: pairs of calls with nothing in between.
  * Runs with other calls in between are the subject of the modules on whole runs.
  */
module RoundTrips {
  import opened Base
  import opened Model
  import opened Redis
  import opened Keyspace
  import opened UserTable
  import opened Sessions
  import opened Users
  import opened Auth

  // ---- Users --------------------------------------------------------------------------------------

  /** The row as a partial update should leave it: named fields as asked, the role only for admins,
    * everything else as it was.
    */
  ghost predicate UpdatedAsAsked(before: User, user: User, req: UpdateUserRequest, callerRole: string, now: int) {
    && user.email == (if req.email.Some? then req.email.value else before.email)
    && user.role == (if req.role.Some? && callerRole == "admin" then req.role.value else before.role)
    && user.isActive == (if req.isActive.Some? then req.isActive.value else before.isActive)
    && user.updatedAt == now
    && (user.id, user.tenantId, user.passwordHash, user.createdAt)
       == (before.id, before.tenantId, before.passwordHash, before.createdAt)
  }

  /** After an update whose invalidation went through, a read shows what was asked for, whatever was
    * cached before.
    */
  lemma UpdateThenRead(
    db: Db, rows: Table, cached: bool, id: Uuid, req: UpdateUserRequest, callerRole: string,
    f: WriteFaults, g: ReadFaults, now: int, later: int)
    requires Consistent(rows) && f.drop.Reaches(0) && g.find
    requires UpdateUser(db, rows, cached, id, req, callerRole, f, now).reply.Ok?
    ensures
      var after := UpdateUser(db, rows, cached, id, req, callerRole, f, now);
      var read := FetchById(after.db, after.rows, cached, id, g, later).reply;
      && id in rows && id in after.rows && rows[id].isActive
      && UpdatedAsAsked(rows[id], after.rows[id], req, callerRole, now)
      && read == (if after.rows[id].isActive then Ok(after.rows[id]) else Err(NotFound))
  {
  }

  /** A read by id looks at one row and one key. */
  lemma ReadLooksAtOne(
    a: Db, b: Db, rowsA: Table, rowsB: Table, cached: bool, id: Uuid, g: ReadFaults, now: int)
    requires At(a, CacheUser(id)) == At(b, CacheUser(id))
    requires (id in rowsA <==> id in rowsB) && (id in rowsA ==> rowsA[id] == rowsB[id])
    ensures FetchById(a, rowsA, cached, id, g, now).reply == FetchById(b, rowsB, cached, id, g, now).reply
  {
  }

  /** An update of one user is not seen in reads of another. */
  lemma UpdateThenReadAnother(
    db: Db, rows: Table, cached: bool, id: Uuid, other: Uuid, req: UpdateUserRequest, callerRole: string,
    f: WriteFaults, g: ReadFaults, now: int, later: int)
    requires Consistent(rows) && other != id
    ensures
      var after := UpdateUser(db, rows, cached, id, req, callerRole, f, now);
      FetchById(after.db, after.rows, cached, other, g, later).reply
      == FetchById(db, rows, cached, other, g, later).reply
  {
    var after := UpdateUser(db, rows, cached, id, req, callerRole, f, now);
    assert At(after.db, CacheUser(other)) == At(db, CacheUser(other));
    ReadLooksAtOne(after.db, db, after.rows, rows, cached, other, g, later);
  }

  /** Asking for the e-mail of someone else is an internal error, not a conflict, and changes nothing. */
  lemma UpdateToTakenEmail(
    db: Db, rows: Table, cached: bool, id: Uuid, owner: Uuid, req: UpdateUserRequest, callerRole: string,
    f: WriteFaults, now: int)
    requires Consistent(rows) && id in rows && rows[id].isActive && f.find
    requires owner in rows && owner != id && req.email == Some(rows[owner].email)
    ensures UpdateUser(db, rows, cached, id, req, callerRole, f, now) == After(db, rows, Err(Internal))
  {
    assert EmailTaken(rows, rows[owner].email, id);
  }

  /** An update that fails changes neither rows nor keys, if the reply of its UPDATE was not lost. */
  lemma FailedUpdateChangesNothing(
    db: Db, rows: Table, cached: bool, id: Uuid, req: UpdateUserRequest, callerRole: string, f: WriteFaults, now: int)
    requires UpdateUser(db, rows, cached, id, req, callerRole, f, now).reply.Err? && !f.write.ReplyLost?
    ensures
      var after := UpdateUser(db, rows, cached, id, req, callerRole, f, now);
      after.db == db && after.rows == rows
  {
  }

  /** With its reply lost, the update is answered with an error and yet made, and a cached image of the
    * user as it was before goes on being served.
    */
  lemma LostReplyLeavesStale(
    db: Db, rows: Table, id: Uuid, req: UpdateUserRequest, callerRole: string, f: WriteFaults, g: ReadFaults,
    now: int, later: int)
    requires Consistent(rows) && f.write.ReplyLost? && g.lookup.Up? && CachedImage(db, id, later).Some?
    requires UpdateUser(db, rows, true, id, req, callerRole, f.(write := Works), now).reply.Ok?
    ensures
      var after := UpdateUser(db, rows, true, id, req, callerRole, f, now);
      && after.reply == Err(Internal) && id in rows && id in after.rows
      && UpdatedAsAsked(rows[id], after.rows[id], req, callerRole, now)
      && FetchById(after.db, after.rows, true, id, g, later).reply == Ok(CachedImage(db, id, later).value.FromJson())
  {
  }

  /** A deleted user cannot be read, updated or deleted again, but the row stays. */
  lemma DeleteThenAnything(
    db: Db, rows: Table, cached: bool, id: Uuid, req: UpdateUserRequest, callerRole: string,
    f: WriteFaults, g: ReadFaults, now: int, later: int)
    requires f.find && f.drop.Reaches(0) && g.find
    requires DeleteUser(db, rows, cached, id, f, now).reply.Ok?
    ensures
      var after := DeleteUser(db, rows, cached, id, f, now);
      && id in rows && after.rows.Keys == rows.Keys
      && after.rows[id] == rows[id].(isActive := false, updatedAt := now)
      && FetchById(after.db, after.rows, cached, id, g, later).reply == Err(NotFound)
      && UpdateUser(after.db, after.rows, cached, id, req, callerRole, f, later).reply == Err(NotFound)
      && DeleteUser(after.db, after.rows, cached, id, f, later).reply == Err(NotFound)
  {
  }

  // ---- Credentials --------------------------------------------------------------------------------

  lemma RegisteredRow(
    db: Db, rows: Table, email: string, password: Bytes, id: Uuid, salt: nat)
    requires Consistent(rows) && CreateUser(db, rows, email, password, "user", id, salt, Works).reply.Ok?
    ensures
      var after := CreateUser(db, rows, email, password, "user", id, salt, Works);
      && after.db == db && Consistent(after.rows) && id in after.rows && after.rows[id].id == id
      && after.rows[id].email == email && after.rows[id].passwordHash == Bcrypt(salt, password)
      && after.rows[id].role == "user" && after.rows[id].isActive
      && SelectByEmail(after.rows, email, true) == Ok(after.rows[id])
  {
  }

  /** A new account takes its own password, and exactly those candidates that bcrypt does not tell from
    * it, as its own user with the role "user".
    */
  lemma RegisterThenLogin(
    cfg: JwtConfig, db: Db, rows: Table, email: string, password: Bytes, id: Uuid, salt: nat,
    candidate: Bytes, jti: string, token: string, now: int)
    requires Consistent(rows) && CreateUser(db, rows, email, password, "user", id, salt, Works).reply.Ok?
    requires !LockedOut(db, email, now)
    ensures
      var after := CreateUser(db, rows, email, password, "user", id, salt, Works);
      var outcome := LoginCall(cfg, after.db, after.rows, email, candidate, jti, token, LOGS_IN_WELL, now).1;
      if BcryptKey(candidate) == BcryptKey(password) then
        && outcome.LoginOk? && outcome.pair.refresh == token
        && TokenFor(outcome.pair.access, id, "user", jti, cfg.accessTtl, now)
      else outcome == WrongPassword
  {
    RegisteredRow(db, rows, email, password, id, salt);
  }

  /** A registered address cannot be registered again. */
  lemma RegisterTwice(
    db: Db, rows: Table, email: string, password: Bytes, id: Uuid, salt: nat, other: Bytes, again: Uuid, role: string)
    requires Consistent(rows) && CreateUser(db, rows, email, password, "user", id, salt, Works).reply.Ok?
    requires |other| <= 72 && RoleAllowed(role)
    ensures
      var after := CreateUser(db, rows, email, password, "user", id, salt, Works);
      CreateUser(after.db, after.rows, email, other, role, again, salt, Works)
        == After(after.db, after.rows, Err(Conflict))
  {
    RegisteredRow(db, rows, email, password, id, salt);
    var after := CreateUser(db, rows, email, password, "user", id, salt, Works);
    assert again in after.rows || EmailTaken(after.rows, email, again);
  }

  /** Deactivation does not hide a row from a look-up by e-mail. */
  lemma EmailFindsDeactivated(rows: Table, id: Uuid, email: string, up: bool, at: int)
    requires Consistent(rows)
    ensures
      var rows' := Deactivate(rows, id, true, at).value;
      var before, after := SelectByEmail(rows, email, up), SelectByEmail(rows', email, up);
      if before.Ok? then
        var row := before.value;
        after == Ok(if row.id == id then row.(isActive := false, updatedAt := at) else row)
      else after == before
  {
    DeactivateKeepsConstraints(rows, id, true, at);
    var rows' := Deactivate(rows, id, true, at).value;
    assert forall jd :: jd in rows <==> jd in rows';
    assert forall jd :: jd in rows ==> rows'[jd].email == rows[jd].email;
  }

  /** Logging in does not look at is_active: deactivation changes nothing about it. */
  lemma LoginIgnoresDeactivation(
    cfg: JwtConfig, db: Db, rows: Table, id: Uuid, email: string, password: Bytes, jti: string, token: string,
    f: LoginFaults, now: int, at: int)
    requires Consistent(rows)
    ensures
      LoginCall(cfg, db, Deactivate(rows, id, true, at).value, email, password, jti, token, f, now)
      == LoginCall(cfg, db, rows, email, password, jti, token, f, now)
  {
    EmailFindsDeactivated(rows, id, email, f.find, at);
  }

  // ---- Sessions -----------------------------------------------------------------------------------

  /** A user as read back from the table or from an image of it. */
  ghost predicate ReadsAs(db: Db, rows: Table, cached: bool, id: Uuid, role: string, g: ReadFaults, now: int) {
    var read := FetchById(db, rows, cached, id, g, now).reply;
    read.Ok? && read.value.id == id && read.value.role == role
  }

  /** A refresh token of a readable user works until its lifetime is over and not from then on. A
    * refresh hands out a token for the same user with the user's present role; the old token is
    * then refused and the new one works in its place.
    */
  lemma StoreThenRefresh(
    cfg: JwtConfig, db: Db, rows: Table, cached: bool, id: Uuid, role: string,
    token: string, jti: string, next: string, at: int, now: int)
    requires cfg.RefreshTtl() > 0 && next != token
    requires
      var stored := StoreRefresh(db, token, id, cfg.RefreshTtl(), Up, at);
      ReadsAs(stored, rows, cached, id, role, READS_WELL, now)
    ensures
      var stored := StoreRefresh(db, token, id, cfg.RefreshTtl(), Up, at);
      var (rotated, outcome) := RefreshCall(cfg, stored, rows, cached, token, jti, next, REFRESHES_WELL, now);
      if now < at + SetLifetime(cfg.RefreshTtl()) then
        && outcome.RefreshOk? && outcome.pair.refresh == next
        && TokenFor(outcome.pair.access, id, role, jti, cfg.accessTtl, now)
        && TextAt(rotated, Refresh(token), now) == Err(Unauthorized)
        && TextAt(rotated, Refresh(next), now) == Ok(id)
        && (forall later, again ::
              RefreshCall(cfg, rotated, rows, cached, token, jti, again, REFRESHES_WELL, later).1 == RefreshDenied)
      else outcome == RefreshDenied && rotated == stored
  {
    var stored := StoreRefresh(db, token, id, cfg.RefreshTtl(), Up, at);
    SendOnKey(db, Refresh(token), Set(Text(id), cfg.RefreshTtl()), Up, 0, at);
    assert At(stored, Refresh(token)) == Some(Entry(Text(id), Some(at + SetLifetime(cfg.RefreshTtl()))));
    var fetched := FetchById(stored, rows, cached, id, READS_WELL, now);
    assert At(fetched.db, Refresh(token)) == At(stored, Refresh(token));
    var rotated := RefreshCall(cfg, stored, rows, cached, token, jti, next, REFRESHES_WELL, now).0;
    assert now < at + SetLifetime(cfg.RefreshTtl()) ==> At(rotated, Refresh(token)) == None;
  }

  /** A reset token works for one hour, sets the password of the user it was asked for and of no
    * one else, and is gone afterwards.
    */
  lemma ForgotThenReset(
    db: Db, rows: Table, cached: bool, email: string, id: Uuid, token: string, password: Bytes, salt: nat,
    at: int, now: int)
    requires Consistent(rows) && id in rows && rows[id].email == email
    requires 8 <= |password| <= 72
    ensures
      var (asked, forgot) := ForgotCall(db, rows, email, token, FORGETS_WELL, at);
      var reset := ResetCall(asked, rows, cached, token, password, salt, RESETS_WELL, now);
      && forgot == ResetStored(id)
      && At(reset.db, Reset(token)) == None
      && (if now < at + 1 * HOUR
          then reset.outcome == PasswordSet(id)
            && reset.rows == rows[id := rows[id].(passwordHash := Bcrypt(salt, password), updatedAt := now)]
          else reset.outcome == NoSuchToken && reset.rows == rows)
  {
  }

  /** The table with this password set for the user that the stored text names. */
  function PasswordWritten(rows: Table, stored: string, password: Bytes, salt: nat, now: int): Table {
    var id := ParseUuid(stored);
    if id.None? || id.value !in rows then rows
    else rows[id.value := rows[id.value].(passwordHash := Bcrypt(salt, password), updatedAt := now)]
  }

  /** What the reply of a reset tells, whatever failed. Success: the token was live, it is gone, and its
    * user has the new password. Internal error: the token is gone, and the password changed only if
    * the reply of the UPDATE was lost. Bad request: no password changed.
    */
  lemma ResetReplyTells(
    db: Db, rows: Table, cached: bool, token: string, password: Bytes, salt: nat, f: ResetFaults, now: int)
    ensures
      var reset := ResetCall(db, rows, cached, token, password, salt, f, now);
      var held := TextAt(db, Reset(token), now);
      match reset.outcome.Reply()
      case Ok(_) =>
        && held.Ok? && ParseUuid(held.value).Some? && At(reset.db, Reset(token)) == None
        && reset.rows == PasswordWritten(rows, held.value, password, salt, now)
      case Err(error) =>
        && (error == Internal ==>
              && held.Ok? && At(reset.db, Reset(token)) == None
              && (reset.rows == rows
                  || (&& f.write.write.ReplyLost?
                      && reset.rows == PasswordWritten(rows, held.value, password, salt, now))))
        && (error == BadRequest ==>
              reset.rows == rows && (|password| < MIN_PASSWORD_BYTES || held.Err? || f.consume.Down?))
        && (error == Internal || error == BadRequest)
  {
  }

  /** A bad request does not tell whether the token still works: when the consuming round trip fails
    * either may be the case.
    */
  lemma BadRequestHidesToken(
    db: Db, rows: Table, cached: bool, token: string, password: Bytes, salt: nat, write: WriteFaults,
    now: int, works: bool)
    returns (f: ResetFaults)
    requires |password| >= MIN_PASSWORD_BYTES && TextAt(db, Reset(token), now).Ok?
    ensures
      var reset := ResetCall(db, rows, cached, token, password, salt, f, now);
      && reset.outcome.Reply() == Err(BadRequest)
      && (TextAt(reset.db, Reset(token), now).Ok? <==> works)
  {
    f := ResetFaults(Down(if works then {} else {1}), write);
    SendOnKey(db, Reset(token), Del, f.consume, 1, now);
  }

  /** A reset whose UPDATE fails has spent its token: no later reset with it gets anywhere, whatever
    * fails then.
    */
  lemma FailedResetSpendsToken(
    db: Db, rows: Table, cached: bool, token: string, password: Bytes, salt: nat, f: ResetFaults, now: int,
    again: Bytes, g: ResetFaults, later: int)
    requires f.consume.Up? && f.write.write.Fails? && |password| >= 8 && |again| >= 8
    ensures
      var first := ResetCall(db, rows, cached, token, password, salt, f, now);
      var second := ResetCall(first.db, first.rows, cached, token, again, salt, g, later);
      && first.rows == rows && second.rows == rows && second.outcome == NoSuchToken
  {
    SendOnKey(db, Reset(token), Del, Up, 1, now);
  }
}
