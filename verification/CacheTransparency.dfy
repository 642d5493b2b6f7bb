/** The user cache cannot be noticed: a run with the cache and the same run without it log the
  * same events, down to every answer and every token. The cached image lacks the password hash,
  * so the two systems agree in what they show rather than in what they hold.
  */
module CacheTransparency {
  import opened Base
  import opened Model
  import opened Redis
  import opened Keyspace
  import opened UserTable
  import opened Sessions
  import opened Users
  import opened Auth
  import opened Protocol
  import opened TableHistory

  /** Whatever is cached is the image of a current, active row. */
  ghost predicate Coherent(db: Db, rows: Table) {
    forall id: Uuid :: CacheUser(id) in db ==>
      id in rows && rows[id].isActive && db[CacheUser(id)].value == Image(rows[id].ToJson())
  }

  ghost predicate SameSessions(a: Db, b: Db) {
    forall k: Key :: !k.CacheUser? ==> At(a, k) == At(b, k)
  }

  /** The world with the cache and the world without it show the same. */
  ghost predicate Mirrors(c: World, u: World) {
    && c.rows == u.rows && c.minted == u.minted && c.drawn == u.drawn && c.clock == u.clock && c.log == u.log
    && SameSessions(c.db, u.db)
    && Coherent(c.db, c.rows)
  }

  /** A cached read answers like a read of the table. */
  lemma FetchAgrees(c: Db, u: Db, rows: Table, id: Uuid, now: int)
    requires SameSessions(c, u) && Coherent(c, rows)
    ensures
      var a, b := FetchById(c, rows, true, id, READS_WELL, now), FetchById(u, rows, false, id, READS_WELL, now);
      && a.rows == b.rows == rows
      && SameSessions(a.db, b.db) && Coherent(a.db, rows)
      && (a.reply.Ok? <==> b.reply.Ok?)
      && (a.reply.Ok? ==> a.reply.value.ToJson() == b.reply.value.ToJson())
      && (a.reply.Err? ==> a.reply.error == b.reply.error)
  {
  }

  lemma RegisterMirrors(jwt: JwtConfig, c: World, u: World, at: int, call: Call)
    requires Mirrors(c, u) && call.Register?
    ensures Mirrors(DoRegister(Config(jwt, true), c, at, call), DoRegister(Config(jwt, false), u, at, call))
  {
  }

  lemma SendAgrees(c: Db, u: Db, rows: Table, key: Key, op: Op, i: nat, now: int)
    requires SameSessions(c, u) && Coherent(c, rows) && !key.CacheUser?
    ensures SameSessions(Send(c, key, op, Up, i, now), Send(u, key, op, Up, i, now))
    ensures Coherent(Send(c, key, op, Up, i, now), rows)
  {
  }

  lemma LoginMirrors(jwt: JwtConfig, c: World, u: World, at: int, call: Call)
    requires Mirrors(c, u) && call.Login?
    ensures Mirrors(DoLogin(Config(jwt, true), c, at, call), DoLogin(Config(jwt, false), u, at, call))
  {
    var key := Lockout(call.email);
    assert At(c.db, key) == At(u.db, key);
    assert LockedOut(c.db, call.email, at) == LockedOut(u.db, call.email, at);
    var found := SelectByEmail(c.rows, call.email, true);
    if found.Ok? && found.value.passwordHash.Accepts(call.password) {
      SendAgrees(c.db, u.db, c.rows, key, Del, 0, at);
      var store := Set(Text(found.value.id), jwt.RefreshTtl());
      SendAgrees(
        Send(c.db, key, Del, Up, 0, at), Send(u.db, key, Del, Up, 0, at), c.rows, Refresh(call.token), store, 0, at);
    } else if found.Ok? {
      SendAgrees(c.db, u.db, c.rows, key, Incr, 0, at);
      SendAgrees(Send(c.db, key, Incr, Up, 0, at), Send(u.db, key, Incr, Up, 0, at), c.rows, key,
        Expire(LOGIN_LOCKOUT_WINDOW), 1, at);
    }
  }

  lemma RotateAgrees(
    c: Db, u: Db, rows: Table, oldToken: string, token: string, id: Uuid, ttl: int, net: Net, now: int)
    requires SameSessions(c, u) && Coherent(c, rows)
    ensures SameSessions(Rotate(c, oldToken, token, id, ttl, net, now), Rotate(u, oldToken, token, id, ttl, net, now))
    ensures Coherent(Rotate(c, oldToken, token, id, ttl, net, now), rows)
  {
  }

  lemma RefreshMirrors(jwt: JwtConfig, c: World, u: World, at: int, call: Call)
    requires Mirrors(c, u) && call.RefreshSession?
    ensures Mirrors(DoRefresh(Config(jwt, true), c, at, call), DoRefresh(Config(jwt, false), u, at, call))
  {
    assert At(c.db, Refresh(call.oldToken)) == At(u.db, Refresh(call.oldToken));
    var stored := TextAt(c.db, Refresh(call.oldToken), at);
    if stored.Ok? && ParseUuid(stored.value).Some? {
      var id := ParseUuid(stored.value).value;
      FetchAgrees(c.db, u.db, c.rows, id, at);
      var a, b := FetchById(c.db, c.rows, true, id, READS_WELL, at), FetchById(u.db, u.rows, false, id, READS_WELL, at);
      if a.reply.Ok? {
        RotateAgrees(
          a.db, b.db, c.rows, call.oldToken, call.token, a.reply.value.id, jwt.RefreshTtl(), call.rotate, at);
      }
    }
  }

  lemma LogoutMirrors(jwt: JwtConfig, c: World, u: World, at: int, call: Call)
    requires Mirrors(c, u) && call.Logout?
    ensures Mirrors(DoLogout(Config(jwt, true), c, at, call), DoLogout(Config(jwt, false), u, at, call))
  {
    SameBearers(c, u, call.bearer, at);
  }

  lemma ForgotMirrors(jwt: JwtConfig, c: World, u: World, at: int, call: Call)
    requires Mirrors(c, u) && call.ForgotPassword?
    ensures Mirrors(DoForgot(Config(jwt, true), c, at, call), DoForgot(Config(jwt, false), u, at, call))
  {
  }

  ghost predicate SameOutcome<T(!new)>(a: After<T>, b: After<T>) {
    a.rows == b.rows && a.reply == b.reply && SameSessions(a.db, b.db) && Coherent(a.db, a.rows)
  }

  lemma UpdateAgrees(
    c: Db, u: Db, rows: Table, id: Uuid, req: UpdateUserRequest, role: string, f: WriteFaults, now: int)
    requires SameSessions(c, u) && Coherent(c, rows) && Consistent(rows) && f.drop.Up? && !f.write.ReplyLost?
    ensures
      SameOutcome(UpdateUser(c, rows, true, id, req, role, f, now), UpdateUser(u, rows, false, id, req, role, f, now))
  {
  }

  lemma DeleteAgrees(c: Db, u: Db, rows: Table, id: Uuid, now: int)
    requires SameSessions(c, u) && Coherent(c, rows)
    ensures
      SameOutcome(DeleteUser(c, rows, true, id, WRITES_WELL, now), DeleteUser(u, rows, false, id, WRITES_WELL, now))
  {
  }

  lemma ChangeAgrees(c: Db, u: Db, rows: Table, id: Uuid, hash: PasswordHash, f: WriteFaults, now: int)
    requires SameSessions(c, u) && Coherent(c, rows) && f.drop.Up? && !f.write.ReplyLost?
    ensures
      SameOutcome(ChangePassword(c, rows, true, id, hash, f, now), ChangePassword(u, rows, false, id, hash, f, now))
  {
  }

  lemma ConsumeAgrees(c: Db, u: Db, rows: Table, token: string, now: int)
    requires SameSessions(c, u) && Coherent(c, rows)
    ensures TextAt(c, Reset(token), now) == TextAt(u, Reset(token), now)
    ensures SameSessions(ConsumeReset(c, token, Up, now), ConsumeReset(u, token, Up, now))
    ensures Coherent(ConsumeReset(c, token, Up, now), rows)
  {
  }

  lemma ResetMirrors(jwt: JwtConfig, c: World, u: World, at: int, call: Call)
    requires Mirrors(c, u) && call.ResetPassword?
    ensures Mirrors(DoReset(Config(jwt, true), c, at, call), DoReset(Config(jwt, false), u, at, call))
  {
    ConsumeAgrees(c.db, u.db, c.rows, call.token, at);
    var stored, hash := TextAt(c.db, Reset(call.token), at), HashPassword(call.password, call.salt);
    if stored.Ok? && ParseUuid(stored.value).Some? && hash.Some? {
      ChangeAgrees(ConsumeReset(c.db, call.token, Up, at), ConsumeReset(u.db, call.token, Up, at), c.rows,
        ParseUuid(stored.value).value, hash.value, Writes(call.up), at);
    }
  }

  /** The bearer check sees the same tokens and the same blocklist. */
  lemma SameBearers(c: World, u: World, bearer: AccessToken, at: int)
    requires Mirrors(c, u)
    ensures Authenticated(c, bearer, at) == Authenticated(u, bearer, at)
  {
  }

  lemma GetMirrors(jwt: JwtConfig, c: World, u: World, at: int, call: Call)
    requires Mirrors(c, u) && call.GetUser?
    ensures Mirrors(DoGet(Config(jwt, true), c, at, call), DoGet(Config(jwt, false), u, at, call))
  {
    SameBearers(c, u, call.bearer, at);
    FetchAgrees(c.db, u.db, c.rows, call.id, at);
  }

  lemma UpdateMirrors(jwt: JwtConfig, c: World, u: World, at: int, call: Call)
    requires Mirrors(c, u) && call.UpdateProfile? && Consistent(c.rows)
    ensures Mirrors(DoUpdate(Config(jwt, true), c, at, call), DoUpdate(Config(jwt, false), u, at, call))
  {
    SameBearers(c, u, call.bearer, at);
    UpdateAgrees(c.db, u.db, c.rows, call.id, call.req, call.bearer.role, Writes(call.up), at);
  }

  lemma DeleteMirrors(jwt: JwtConfig, c: World, u: World, at: int, call: Call)
    requires Mirrors(c, u) && call.DeleteAccount?
    ensures Mirrors(DoDelete(Config(jwt, true), c, at, call), DoDelete(Config(jwt, false), u, at, call))
  {
    SameBearers(c, u, call.bearer, at);
    DeleteAgrees(c.db, u.db, c.rows, call.id, at);
  }

  lemma StepMirrors(jwt: JwtConfig, c: World, u: World, at: int, call: Call)
    requires Mirrors(c, u) && Consistent(c.rows)
    ensures Mirrors(Do(Config(jwt, true), c, at, call), Do(Config(jwt, false), u, at, call))
  {
    match call
    case Register(_, _, _, _) => RegisterMirrors(jwt, c, u, at, call);
    case Login(_, _, _, _) => LoginMirrors(jwt, c, u, at, call);
    case RefreshSession(_, _, _, _) => RefreshMirrors(jwt, c, u, at, call);
    case Logout(_, _) => LogoutMirrors(jwt, c, u, at, call);
    case ForgotPassword(_, _) => ForgotMirrors(jwt, c, u, at, call);
    case ResetPassword(_, _, _, _) => ResetMirrors(jwt, c, u, at, call);
    case GetUser(_, _) => GetMirrors(jwt, c, u, at, call);
    case UpdateProfile(_, _, _, _) => UpdateMirrors(jwt, c, u, at, call);
    case DeleteAccount(_, _) => DeleteMirrors(jwt, c, u, at, call);
  }

  /** Every world of the run, log included, is the same with the cache and without it. */
  lemma {:induction false} CacheIsInvisible(
    jwt: JwtConfig, cached: seq<World>, plain: seq<World>, requests: seq<Request>, n: nat)
    requires IsRun(Config(jwt, true), cached, requests) && IsRun(Config(jwt, false), plain, requests)
    requires cached[0].rows == plain[0].rows && n < |cached|
    ensures Mirrors(cached[n], plain[n])
    decreases n
  {
    if n > 0 {
      CacheIsInvisible(jwt, cached, plain, requests, n - 1);
      ConstraintsHold(Config(jwt, true), cached, requests, n - 1);
      StepMirrors(jwt, cached[n - 1], plain[n - 1], requests[n - 1].at, requests[n - 1].call);
    }
  }

  /** The world as it would be had nothing been cached. */
  ghost function Uncached(w: World): World {
    w.(db := map k | k in w.db && !k.CacheUser? :: w.db[k])
  }

  lemma {:induction false} CacheStaysCoherent(cfg: Config, worlds: seq<World>, requests: seq<Request>, n: nat)
    requires IsRun(cfg, worlds, requests) && n < |worlds| && cfg.cached
    ensures Coherent(worlds[n].db, worlds[n].rows)
    decreases n
  {
    if n > 0 {
      CacheStaysCoherent(cfg, worlds, requests, n - 1);
      ConstraintsHold(cfg, worlds, requests, n - 1);
      assert Mirrors(worlds[n - 1], Uncached(worlds[n - 1]));
      StepMirrors(cfg.jwt, worlds[n - 1], Uncached(worlds[n - 1]), requests[n - 1].at, requests[n - 1].call);
    }
  }

  /** A user fetched by id, from the cache or from the table, has that id. */
  lemma FetchedHasId(cfg: Config, worlds: seq<World>, requests: seq<Request>, n: nat, id: Uuid, now: int)
    requires IsRun(cfg, worlds, requests) && n < |worlds|
    ensures
      var fetched := FetchById(worlds[n].db, worlds[n].rows, cfg.cached, id, READS_WELL, now).reply;
      fetched.Ok? ==> fetched.value.id == id
  {
    ConstraintsHold(cfg, worlds, requests, n);
    if cfg.cached {
      CacheStaysCoherent(cfg, worlds, requests, n);
    }
  }
}
