/** The service as one timed machine: keys, rows, the tokens ever signed, and the log of what
  * each call came to. Every call is one step. Calls carry the random values that they draw,
  * whether their UPDATE of the table succeeds, and how the rotation of a refresh token goes; every
  * other round trip succeeds.
  */
module Protocol {
  import opened Base
  import opened Model
  import opened Redis
  import opened Keyspace
  import opened UserTable
  import opened Sessions
  import opened Users
  import opened Auth

  datatype Config = Config(jwt: JwtConfig, cached: bool)

  datatype Call =
    | Register(email: string, password: Bytes, id: Uuid, salt: nat)
    | Login(email: string, password: Bytes, jti: string, token: string)
    | RefreshSession(oldToken: string, jti: string, token: string, rotate: Net)
    | Logout(bearer: AccessToken, cookie: string)
    | ForgotPassword(email: string, token: string)
    | ResetPassword(token: string, password: Bytes, salt: nat, up: bool)
    | GetUser(bearer: AccessToken, id: Uuid)
    | UpdateProfile(bearer: AccessToken, id: Uuid, req: UpdateUserRequest, up: bool)
    | DeleteAccount(bearer: AccessToken, id: Uuid)

  /** What a call came to. */
  datatype Event =
    | Registered(at: int, user: Uuid)
    | LoginFailed(at: int, email: string)
    | LoginRefused(at: int, email: string)
    | LoggedIn(at: int, email: string, access: AccessToken, token: string)
    | Refreshed(at: int, oldToken: string, access: AccessToken, token: string)
    // The rotation's pipeline failed; its DEL or its SET may have taken effect.
    | RotationLost(at: int, oldToken: string, user: Uuid, token: string, deleted: bool, stored: bool)
    | LoggedOut(at: int, jti: string, token: string)
    | ResetUnknown(at: int, email: string)
    | ResetRequested(at: int, user: Uuid, token: string)
    | ResetSpent(at: int, token: string)
    | PasswordReset(at: int, user: Uuid, token: string)
    | Deleted(at: int, user: Uuid)
    | Answered(at: int, reply: Result<UserResponse, AppError>)
    | Refused(at: int, error: AppError)

  datatype World = World(db: Db, rows: Table, minted: set<AccessToken>, drawn: set<string>, clock: int, log: seq<Event>)

  /** The random values that a call draws, in order. */
  function Draws(call: Call): seq<string> {
    match call
    case Register(_, _, id, _) => [id]
    case Login(_, _, jti, token) => [jti, token]
    case RefreshSession(_, jti, token, _) => [jti, token]
    case ForgotPassword(_, token) => [token]
    case _ => []
  }

  /** Drawn values were never drawn before. */
  predicate Fresh(w: World, call: Call) {
    var drawn := Draws(call);
    && (forall i :: 0 <= i < |drawn| ==> drawn[i] !in w.drawn)
    && (|drawn| == 2 ==> drawn[0] != drawn[1])
  }

  ghost predicate Enabled(w: World, at: int, call: Call) {
    0 <= w.clock <= at && Fresh(w, call)
  }

  function Authenticated(w: World, bearer: AccessToken, at: int): bool {
    Accepts(w.minted, w.db, bearer, Up, at)
  }

  /** The next world, given what the call did to keys and rows, and what is to be logged. */
  function Next(w: World, at: int, call: Call, db: Db, rows: Table, minted: set<AccessToken>, event: Event): World {
    World(db, rows, minted, w.drawn + (set s | s in Draws(call)), at, w.log + [event])
  }

  function DoRegister(cfg: Config, w: World, at: int, call: Call): World
    requires call.Register?
  {
    var after := CreateUser(w.db, w.rows, call.email, call.password, "user", call.id, call.salt, Works);
    Next(w, at, call, after.db, after.rows, w.minted,
      if after.reply.Ok? then Registered(at, call.id) else Refused(at, after.reply.error))
  }

  ghost function DoLogin(cfg: Config, w: World, at: int, call: Call): World
    requires call.Login?
  {
    var (db, outcome) :=
      LoginCall(cfg.jwt, w.db, w.rows, call.email, call.password, call.jti, call.token, LOGS_IN_WELL, at);
    match outcome
    case LoginOk(pair) =>
      Next(w, at, call, db, w.rows, w.minted + {pair.access}, LoggedIn(at, call.email, pair.access, pair.refresh))
    case WrongPassword => Next(w, at, call, db, w.rows, w.minted, LoginFailed(at, call.email))
    case Locked => Next(w, at, call, db, w.rows, w.minted, LoginRefused(at, call.email))
    case _ => Next(w, at, call, db, w.rows, w.minted, Refused(at, Unauthorized))
  }

  function DoRefresh(cfg: Config, w: World, at: int, call: Call): World
    requires call.RefreshSession?
  {
    var f := REFRESHES_WELL.(rotate := call.rotate);
    var (db, outcome) := RefreshCall(cfg.jwt, w.db, w.rows, cfg.cached, call.oldToken, call.jti, call.token, f, at);
    match outcome
    case RefreshOk(pair) =>
      Next(w, at, call, db, w.rows, w.minted + {pair.access}, Refreshed(at, call.oldToken, pair.access, pair.refresh))
    case RefreshDenied => Next(w, at, call, db, w.rows, w.minted, Refused(at, Unauthorized))
    case RefreshBroken => Next(w, at, call, db, w.rows, w.minted, Refused(at, Internal))
    case RotationFailed(user) =>
      Next(w, at, call, db, w.rows, w.minted,
        RotationLost(at, call.oldToken, user, call.token, call.rotate.Reaches(0), call.rotate.Reaches(1)))
  }

  function DoLogout(cfg: Config, w: World, at: int, call: Call): World
    requires call.Logout?
  {
    if !Authenticated(w, call.bearer, at) then Next(w, at, call, w.db, w.rows, w.minted, Refused(at, Unauthorized))
    else
      var (db, _) := LogoutCall(cfg.jwt, w.db, call.bearer.jti, call.cookie, LOGS_OUT_WELL, at);
      Next(w, at, call, db, w.rows, w.minted, LoggedOut(at, call.bearer.jti, call.cookie))
  }

  ghost function DoForgot(cfg: Config, w: World, at: int, call: Call): World
    requires call.ForgotPassword?
  {
    var (db, outcome) := ForgotCall(w.db, w.rows, call.email, call.token, FORGETS_WELL, at);
    Next(w, at, call, db, w.rows, w.minted,
      if outcome.ResetStored? then ResetRequested(at, outcome.user, call.token) else ResetUnknown(at, call.email))
  }

  function DoReset(cfg: Config, w: World, at: int, call: Call): World
    requires call.ResetPassword?
  {
    var f := RESETS_WELL.(write := Writes(call.up));
    var after := ResetCall(w.db, w.rows, cfg.cached, call.token, call.password, call.salt, f, at);
    Next(w, at, call, after.db, after.rows, w.minted,
      match after.outcome
      case PasswordSet(user) => PasswordReset(at, user, call.token)
      case TokenSpent => ResetSpent(at, call.token)
      case _ => Refused(at, BadRequest))
  }

  /** Admins may read anyone, others only themselves. */
  function DoGet(cfg: Config, w: World, at: int, call: Call): World
    requires call.GetUser?
  {
    if !Authenticated(w, call.bearer, at) then Next(w, at, call, w.db, w.rows, w.minted, Refused(at, Unauthorized))
    else if call.bearer.role != "admin" && call.bearer.subject != call.id then
      Next(w, at, call, w.db, w.rows, w.minted, Refused(at, Forbidden))
    else
      var after := FetchById(w.db, w.rows, cfg.cached, call.id, READS_WELL, at);
      Next(w, at, call, after.db, after.rows, w.minted,
        Answered(at, if after.reply.Ok? then Ok(after.reply.value.ToResponse()) else Err(after.reply.error)))
  }

  /** Admins may change anyone, others only themselves. */
  function DoUpdate(cfg: Config, w: World, at: int, call: Call): World
    requires call.UpdateProfile?
  {
    if !Authenticated(w, call.bearer, at) then Next(w, at, call, w.db, w.rows, w.minted, Refused(at, Unauthorized))
    else if call.bearer.role != "admin" && call.bearer.subject != call.id then
      Next(w, at, call, w.db, w.rows, w.minted, Refused(at, Forbidden))
    else
      var after :=
        UpdateUser(w.db, w.rows, cfg.cached, call.id, call.req, call.bearer.role, Writes(call.up), at);
      Next(w, at, call, after.db, after.rows, w.minted,
        Answered(at, if after.reply.Ok? then Ok(after.reply.value.ToResponse()) else Err(after.reply.error)))
  }

  function DoDelete(cfg: Config, w: World, at: int, call: Call): World
    requires call.DeleteAccount?
  {
    if !Authenticated(w, call.bearer, at) then Next(w, at, call, w.db, w.rows, w.minted, Refused(at, Unauthorized))
    else if call.bearer.role != "admin" then Next(w, at, call, w.db, w.rows, w.minted, Refused(at, Forbidden))
    else
      var after := DeleteUser(w.db, w.rows, cfg.cached, call.id, WRITES_WELL, at);
      Next(w, at, call, after.db, after.rows, w.minted,
        if after.reply.Ok? then Deleted(at, call.id) else Refused(at, after.reply.error))
  }

  ghost function Do(cfg: Config, w: World, at: int, call: Call): World {
    match call
    case Register(_, _, _, _) => DoRegister(cfg, w, at, call)
    case Login(_, _, _, _) => DoLogin(cfg, w, at, call)
    case RefreshSession(_, _, _, _) => DoRefresh(cfg, w, at, call)
    case Logout(_, _) => DoLogout(cfg, w, at, call)
    case ForgotPassword(_, _) => DoForgot(cfg, w, at, call)
    case ResetPassword(_, _, _, _) => DoReset(cfg, w, at, call)
    case GetUser(_, _) => DoGet(cfg, w, at, call)
    case UpdateProfile(_, _, _, _) => DoUpdate(cfg, w, at, call)
    case DeleteAccount(_, _) => DoDelete(cfg, w, at, call)
  }

  datatype Request = Request(at: int, call: Call)

  /** Before any call: no keys, no tokens, any consistent table. */
  function Start(rows: Table): World {
    World(map[], rows, {}, rows.Keys, 0, [])
  }

  /** The worlds of a run, one more than its requests. */
  ghost predicate IsRun(cfg: Config, worlds: seq<World>, requests: seq<Request>) {
    && |worlds| == |requests| + 1
    && Consistent(worlds[0].rows)
    && worlds[0] == Start(worlds[0].rows)
    && forall i :: 0 <= i < |requests| ==>
        && Enabled(worlds[i], requests[i].at, requests[i].call)
        && worlds[i + 1] == Do(cfg, worlds[i], requests[i].at, requests[i].call)
  }

  // ---- What a call leaves alone -------------------------------------------------------------------

  function Touches(call: Call): set<Purpose> {
    match call
    case Register(_, _, _, _) => {}
    case Login(_, _, _, _) => {Failures, RefreshTokens}
    case RefreshSession(_, _, _, _) => {RefreshTokens, UserCache}
    case Logout(_, _) => {Revocations, RefreshTokens}
    case ForgotPassword(_, _) => {Resets}
    case ResetPassword(_, _, _, _) => {Resets, UserCache}
    case GetUser(_, _) => {UserCache}
    case UpdateProfile(_, _, _, _) => {UserCache}
    case DeleteAccount(_, _) => {UserCache}
  }

  predicate Signs(e: Event) {
    e.LoggedIn? || e.Refreshed?
  }

  predicate WritesRows(call: Call) {
    call.Register? || call.ResetPassword? || call.UpdateProfile? || call.DeleteAccount?
  }

  /** One event is added, of a kind that goes with the call, and what it says was signed is signed. */
  ghost predicate LogsOne(w: World, w': World, at: int, call: Call) {
    && |w'.log| == |w.log| + 1 && w'.log[..|w.log|] == w.log
    && w'.clock == at && w'.drawn == w.drawn + (set s | s in Draws(call))
    && (!WritesRows(call) ==> w'.rows == w.rows)
    && var e := w'.log[|w.log|];
    && e.at == at
    && (e.LoginFailed? || e.LoginRefused? || e.LoggedIn? ==> call.Login?)
    && (e.Refreshed? || e.RotationLost? ==> call.RefreshSession?)
    && (e.LoggedOut? <==> call.Logout? && Authenticated(w, call.bearer, at))
    && (e.ResetRequested? ==> call.ForgotPassword?)
    && (e.ResetSpent? || e.PasswordReset? ==> call.ResetPassword?)
    && w'.minted == (if Signs(e) then w.minted + {e.access} else w.minted)
  }

  /** Keys of purposes that the call does not touch hold what they held. */
  ghost predicate Leaves(w: World, w': World, call: Call, k: Key) {
    PurposeOf(k) !in Touches(call) ==> At(w'.db, k) == At(w.db, k)
  }

  lemma RegisterFrame(cfg: Config, w: World, at: int, call: Call, k: Key)
    requires call.Register?
    ensures LogsOne(w, DoRegister(cfg, w, at, call), at, call) && Leaves(w, DoRegister(cfg, w, at, call), call, k)
  {
  }

  lemma LoginFrame(cfg: Config, w: World, at: int, call: Call, k: Key)
    requires call.Login?
    ensures LogsOne(w, DoLogin(cfg, w, at, call), at, call) && Leaves(w, DoLogin(cfg, w, at, call), call, k)
  {
  }

  lemma RefreshFrame(cfg: Config, w: World, at: int, call: Call, k: Key)
    requires call.RefreshSession?
    ensures LogsOne(w, DoRefresh(cfg, w, at, call), at, call) && Leaves(w, DoRefresh(cfg, w, at, call), call, k)
  {
  }

  lemma LogoutFrame(cfg: Config, w: World, at: int, call: Call, k: Key)
    requires call.Logout?
    ensures LogsOne(w, DoLogout(cfg, w, at, call), at, call) && Leaves(w, DoLogout(cfg, w, at, call), call, k)
  {
  }

  lemma ForgotFrame(cfg: Config, w: World, at: int, call: Call, k: Key)
    requires call.ForgotPassword?
    ensures LogsOne(w, DoForgot(cfg, w, at, call), at, call) && Leaves(w, DoForgot(cfg, w, at, call), call, k)
  {
  }

  lemma ResetFrame(cfg: Config, w: World, at: int, call: Call, k: Key)
    requires call.ResetPassword?
    ensures LogsOne(w, DoReset(cfg, w, at, call), at, call) && Leaves(w, DoReset(cfg, w, at, call), call, k)
  {
  }

  lemma GetFrame(cfg: Config, w: World, at: int, call: Call, k: Key)
    requires call.GetUser?
    ensures LogsOne(w, DoGet(cfg, w, at, call), at, call) && Leaves(w, DoGet(cfg, w, at, call), call, k)
  {
  }

  lemma UpdateFrame(cfg: Config, w: World, at: int, call: Call, k: Key)
    requires call.UpdateProfile?
    ensures LogsOne(w, DoUpdate(cfg, w, at, call), at, call) && Leaves(w, DoUpdate(cfg, w, at, call), call, k)
  {
  }

  lemma DeleteFrame(cfg: Config, w: World, at: int, call: Call, k: Key)
    requires call.DeleteAccount?
    ensures LogsOne(w, DoDelete(cfg, w, at, call), at, call) && Leaves(w, DoDelete(cfg, w, at, call), call, k)
  {
  }

  lemma CallFrame(cfg: Config, w: World, at: int, call: Call, k: Key)
    ensures LogsOne(w, Do(cfg, w, at, call), at, call) && Leaves(w, Do(cfg, w, at, call), call, k)
  {
    match call
    case Register(_, _, _, _) => RegisterFrame(cfg, w, at, call, k);
    case Login(_, _, _, _) => LoginFrame(cfg, w, at, call, k);
    case RefreshSession(_, _, _, _) => RefreshFrame(cfg, w, at, call, k);
    case Logout(_, _) => LogoutFrame(cfg, w, at, call, k);
    case ForgotPassword(_, _) => ForgotFrame(cfg, w, at, call, k);
    case ResetPassword(_, _, _, _) => ResetFrame(cfg, w, at, call, k);
    case GetUser(_, _) => GetFrame(cfg, w, at, call, k);
    case UpdateProfile(_, _, _, _) => UpdateFrame(cfg, w, at, call, k);
    case DeleteAccount(_, _) => DeleteFrame(cfg, w, at, call, k);
  }
}
