/** The machines of single commands and the functions of whole calls describe one system: a task whose
  * commands run without interruption does what the call does.
  */
module Granularity {
  import opened Base
  import opened Model
  import opened Redis
  import opened Keyspace
  import opened UserTable
  import opened Sessions
  import opened Users
  import opened Auth
  import RateLimit
  import Limiter = RateLimitInterleaved
  import Tokens = AuthInterleaved
  import Cache = CacheStaleness
  import Races = UpdateRaces

  // ---- Logins, refreshes, logouts -----------------------------------------------------------------

  /** The next n commands of one task. */
  function Alone(
    cfg: JwtConfig, s: Tokens.System, t: Tokens.Task, c: Tokens.Choice, n: nat): (Tokens.System, Tokens.Task)
    decreases n
  {
    if n == 0 then (s, t)
    else
      var (s', t') := Tokens.AdvanceTask(cfg, s, t, c);
      Alone(cfg, s', t', c, n - 1)
  }

  /** What the table has to say to a login. */
  ghost function LoginChoice(rows: Table, email: string, password: Bytes, token: string): Tokens.Choice {
    var found := SelectByEmail(rows, email, true);
    if found.Err? then Tokens.Choice(Tokens.Unknown, Tokens.SOMEONE, token)
    else Tokens.Choice(
      if found.value.passwordHash.Accepts(password) then Tokens.Right else Tokens.Wrong, found.value.id, token)
  }

  lemma LoginAlone(
    cfg: JwtConfig, s: Tokens.System, rows: Table, email: string, password: Bytes, jti: string, token: string)
    ensures
      var c := LoginChoice(rows, email, password, token);
      var (s', t') := Alone(cfg, s, Tokens.LoginTask(email, Tokens.CheckLock), c, 5);
      && t' == Tokens.LoginTask(email, Tokens.LoginEnded)
      && s'.db == LoginCall(cfg, s.db, rows, email, password, jti, token, LOGS_IN_WELL, s.clock).0
  {
    var c := LoginChoice(rows, email, password, token);
    var (s1, t1) := Tokens.AdvanceTask(cfg, s, Tokens.LoginTask(email, Tokens.CheckLock), c);
    var (s2, t2) := Tokens.AdvanceTask(cfg, s1, t1, c);
    var (s3, t3) := Tokens.AdvanceTask(cfg, s2, t2, c);
    var (s4, t4) := Tokens.AdvanceTask(cfg, s3, t3, c);
    var (s5, t5) := Tokens.AdvanceTask(cfg, s4, t4, c);
    assert Alone(cfg, s4, t4, c, 1) == (s5, t5);
    assert Alone(cfg, s3, t3, c, 2) == (s5, t5);
    assert Alone(cfg, s2, t2, c, 3) == (s5, t5);
    assert Alone(cfg, s1, t1, c, 4) == (s5, t5);
  }

  /** A refresh of a token that holds the id of a user in canonical form. */
  lemma RefreshAlone(
    cfg: JwtConfig, s: Tokens.System, rows: Table, oldToken: string, jti: string, token: string)
    requires Consistent(rows)
    requires
      var stored := TextAt(s.db, Refresh(oldToken), s.clock);
      stored.Ok? ==> CanonicalUuid(stored.value)
    ensures
      var (db, outcome) := RefreshCall(cfg, s.db, rows, false, oldToken, jti, token, REFRESHES_WELL, s.clock);
      var stored := TextAt(s.db, Refresh(oldToken), s.clock);
      var found := stored.Ok? && stored.value in rows && rows[stored.value].isActive;
      var c := Tokens.Choice(if found then Tokens.Right else Tokens.Unknown, Tokens.SOMEONE, token);
      var (s', t') := Alone(cfg, s, Tokens.RefreshTask(oldToken, Tokens.Validate), c, 4);
      s'.db == db && t' == Tokens.RefreshTask(oldToken, Tokens.RefreshEnded(outcome.RefreshOk?))
  {
    var stored := TextAt(s.db, Refresh(oldToken), s.clock);
    var found := stored.Ok? && stored.value in rows && rows[stored.value].isActive;
    var c := Tokens.Choice(if found then Tokens.Right else Tokens.Unknown, Tokens.SOMEONE, token);
    var (s1, t1) := Tokens.AdvanceTask(cfg, s, Tokens.RefreshTask(oldToken, Tokens.Validate), c);
    var (s2, t2) := Tokens.AdvanceTask(cfg, s1, t1, c);
    var (s3, t3) := Tokens.AdvanceTask(cfg, s2, t2, c);
    var (s4, t4) := Tokens.AdvanceTask(cfg, s3, t3, c);
    assert Alone(cfg, s3, t3, c, 1) == (s4, t4);
    assert Alone(cfg, s2, t2, c, 2) == (s4, t4);
    assert Alone(cfg, s1, t1, c, 3) == (s4, t4);
  }

  lemma LogoutAlone(cfg: JwtConfig, s: Tokens.System, jti: string, token: string, c: Tokens.Choice)
    ensures
      var (s', t') := Alone(cfg, s, Tokens.LogoutTask(jti, token, Tokens.BlockJti), c, 2);
      && s'.db == LogoutCall(cfg, s.db, jti, token, LOGS_OUT_WELL, s.clock).0
      && t' == Tokens.LogoutTask(jti, token, Tokens.LogoutEnded)
  {
    var (s1, t1) := Tokens.AdvanceTask(cfg, s, Tokens.LogoutTask(jti, token, Tokens.BlockJti), c);
    var (s2, t2) := Tokens.AdvanceTask(cfg, s1, t1, c);
    assert Alone(cfg, s1, t1, c, 1) == (s2, t2);
  }

  // ---- The limiter --------------------------------------------------------------------------------

  lemma LimiterAlone(m: Limiter.Machine, pid: nat, limit: int, window: int)
    requires pid in m.requests && m.requests[pid].phase.Pruning? && m.requests[pid].stamp == m.clock
    requires Live(m.cell, m.clock).Some? ==> m.cell.value.value.Members?
    ensures
      var m1 := Limiter.AdvanceRequest(m, pid, window);
      var m2 := Limiter.AdvanceRequest(m1, pid, window);
      var m3 := Limiter.AdvanceRequest(m2, pid, window);
      var m4 := Limiter.AdvanceRequest(m3, pid, window);
      && m4.cell == RateLimit.LimitCell(m.cell, window, Up, m.clock)
      && m4.requests[pid].phase.Finished? && m4.requests[pid].countedAt == m.clock
      && RateLimit.LimitDecision(m.cell, limit, window, Up, m.clock).allowed == (m4.requests[pid].count <= limit)
  {
  }

  // ---- The cache and the table --------------------------------------------------------------------

  /** A read that misses is a SELECT and a fill. */
  lemma ReadAlone(s: Cache.Snapshot, pid: nat, id: Uuid, f: ReadFaults)
    requires pid !in s.readings && SelectById(s.rows, id, true).Ok? && CachedImage(s.db, id, s.clock).None?
    requires f.find && f.fill.Up?
    ensures
      var after := FetchById(s.db, s.rows, true, id, f, s.clock);
      var filled := Cache.Do(Cache.Do(s, Cache.Select(pid, id)), Cache.Fill(pid));
      filled.db == after.db && filled.rows == after.rows && filled.readings == s.readings
  {
  }

  /** An update that is made is a write of the table and an invalidation. */
  lemma InvalidationAlone(
    s: Cache.Snapshot, id: Uuid, req: UpdateUserRequest, callerRole: string, f: WriteFaults)
    requires f.drop.Up?
    ensures
      var after := UpdateUser(s.db, s.rows, true, id, req, callerRole, f, s.clock);
      after.reply.Ok? ==>
        var written := Cache.Do(Cache.Do(s, Cache.Write(after.rows)), Cache.Invalidate(id));
        written.db == after.db && written.rows == after.rows && written.readings == s.readings
  {
  }

  lemma UpdateAlone(rows: Table, id: Uuid, req: UpdateUserRequest, callerRole: string, db: Db, cached: bool, now: int)
    ensures
      var (_, reading) := Races.AdvanceTask(rows, Races.Updating(id, req, callerRole, Races.Selecting), now);
      var (rows', t) := Races.AdvanceTask(rows, reading, now);
      rows' == UpdateUser(db, rows, cached, id, req, callerRole, WRITES_WELL, now).rows && t.phase.Ended?
  {
  }

  lemma DeletionAlone(rows: Table, id: Uuid, db: Db, cached: bool, now: int)
    ensures
      var (_, reading) := Races.AdvanceTask(rows, Races.Deleting(id, Races.Selecting), now);
      var (rows', t) := Races.AdvanceTask(rows, reading, now);
      rows' == DeleteUser(db, rows, cached, id, WRITES_WELL, now).rows && t.phase.Ended?
  {
  }
}
