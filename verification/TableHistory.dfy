/** What any run of calls can do to the users table. */
module TableHistory {
  import opened Base
  import opened Model
  import opened Keyspace
  import opened UserTable
  import opened Sessions
  import opened Users
  import opened Auth
  import opened Protocol

  lemma RegisterKeepsConstraints(cfg: Config, w: World, at: int, call: Call)
    requires Consistent(w.rows) && call.Register?
    ensures Consistent(DoRegister(cfg, w, at, call).rows)
  {
  }

  lemma ResetKeepsConstraints(cfg: Config, w: World, at: int, call: Call)
    requires Consistent(w.rows) && call.ResetPassword?
    ensures Consistent(DoReset(cfg, w, at, call).rows)
  {
    var stored, hash := TextAt(w.db, Reset(call.token), at), HashPassword(call.password, call.salt);
    if stored.Ok? && ParseUuid(stored.value).Some? && hash.Some? && call.up {
      UpdateHashKeepsConstraints(w.rows, ParseUuid(stored.value).value, hash.value, true, at);
    }
  }

  lemma UpdateKeepsConstraints(cfg: Config, w: World, at: int, call: Call)
    requires Consistent(w.rows) && call.UpdateProfile?
    ensures Consistent(DoUpdate(cfg, w, at, call).rows)
  {
    if SelectById(w.rows, call.id, true).Ok? {
      var user := Patch(w.rows[call.id], call.req, call.bearer.role);
      if UpdateRow(w.rows, user, call.up, at).Ok? {
        UpdateRowKeepsConstraints(w.rows, user, call.up, at);
      }
    }
  }

  lemma DeleteKeepsConstraints(cfg: Config, w: World, at: int, call: Call)
    requires Consistent(w.rows) && call.DeleteAccount?
    ensures Consistent(DoDelete(cfg, w, at, call).rows)
  {
  }

  lemma StepKeepsConstraints(cfg: Config, w: World, at: int, call: Call)
    requires Consistent(w.rows)
    ensures Consistent(Do(cfg, w, at, call).rows)
  {
    match call
    case Register(_, _, _, _) => RegisterKeepsConstraints(cfg, w, at, call);
    case ResetPassword(_, _, _, _) => ResetKeepsConstraints(cfg, w, at, call);
    case UpdateProfile(_, _, _, _) => UpdateKeepsConstraints(cfg, w, at, call);
    case DeleteAccount(_, _) => DeleteKeepsConstraints(cfg, w, at, call);
    case _ => CallFrame(cfg, w, at, call, Blocklist(""));
  }

  /** In every world of every run the schema's constraints hold; above all, e-mails are distinct. */
  lemma {:induction false} ConstraintsHold(cfg: Config, worlds: seq<World>, requests: seq<Request>, n: nat)
    requires IsRun(cfg, worlds, requests) && n < |worlds|
    ensures Consistent(worlds[n].rows)
    decreases n
  {
    if n > 0 {
      ConstraintsHold(cfg, worlds, requests, n - 1);
      StepKeepsConstraints(cfg, worlds[n - 1], requests[n - 1].at, requests[n - 1].call);
    }
  }

  // ---- Who may change what ------------------------------------------------------------------------

  /** An admin's accepted token was used to change this row. */
  ghost predicate ByAdmin(w: World, r: Request, id: Uuid) {
    && (r.call.UpdateProfile? || r.call.DeleteAccount?) && r.call.id == id
    && Authenticated(w, r.call.bearer, r.at) && r.call.bearer.role == "admin"
  }

  /** The row's own user changed it with an accepted token. */
  ghost predicate BySelf(w: World, r: Request, id: Uuid) {
    && r.call.UpdateProfile? && r.call.id == id
    && Authenticated(w, r.call.bearer, r.at) && r.call.bearer.subject == id
  }

  /** The request spent a reset token of this user on a new password. */
  ghost predicate ByReset(w: World, w': World, r: Request, id: Uuid) {
    && r.call.ResetPassword?
    && |w'.log| == |w.log| + 1
    && w'.log[|w.log|] == PasswordReset(r.at, id, r.call.token)
  }

  ghost predicate MayChange(w: World, w': World, r: Request, id: Uuid) {
    ByAdmin(w, r, id) || BySelf(w, r, id) || ByReset(w, w', r, id)
  }

  /** Nothing about the row changes except as its new state's cause allows. */
  ghost predicate RowStep(w: World, w': World, r: Request, id: Uuid) {
    id in w.rows ==>
      && id in w'.rows
      && (w'.rows[id].isActive ==> w.rows[id].isActive)
      && w'.rows[id].createdAt == w.rows[id].createdAt
      && (w'.rows[id] != w.rows[id] ==> MayChange(w, w', r, id))
      && (w'.rows[id].role != w.rows[id].role ==> ByAdmin(w, r, id))
      && (w'.rows[id].passwordHash != w.rows[id].passwordHash ==> ByReset(w, w', r, id))
  }

  lemma RegisterRowStep(cfg: Config, w: World, r: Request, id: Uuid)
    requires Consistent(w.rows) && r.call.Register?
    ensures RowStep(w, DoRegister(cfg, w, r.at, r.call), r, id)
  {
  }

  lemma ResetRowStep(cfg: Config, w: World, r: Request, id: Uuid)
    requires Consistent(w.rows) && r.call.ResetPassword?
    ensures RowStep(w, DoReset(cfg, w, r.at, r.call), r, id)
  {
  }

  lemma UpdateRowStep(cfg: Config, w: World, r: Request, id: Uuid)
    requires Consistent(w.rows) && r.call.UpdateProfile?
    ensures RowStep(w, DoUpdate(cfg, w, r.at, r.call), r, id)
  {
  }

  lemma DeleteRowStep(cfg: Config, w: World, r: Request, id: Uuid)
    requires Consistent(w.rows) && r.call.DeleteAccount?
    ensures RowStep(w, DoDelete(cfg, w, r.at, r.call), r, id)
  {
  }

  lemma RowsStep(cfg: Config, w: World, r: Request, id: Uuid)
    requires Consistent(w.rows)
    ensures RowStep(w, Do(cfg, w, r.at, r.call), r, id)
  {
    match r.call
    case ResetPassword(_, _, _, _) => ResetRowStep(cfg, w, r, id);
    case UpdateProfile(_, _, _, _) => UpdateRowStep(cfg, w, r, id);
    case DeleteAccount(_, _) => DeleteRowStep(cfg, w, r, id);
    case Register(_, _, _, _) => RegisterRowStep(cfg, w, r, id);
    case _ => CallFrame(cfg, w, r.at, r.call, Blocklist(""));
  }

  /** Requests i, i+1, ..., j-1 of a run, as far as one row is concerned. */
  ghost predicate RowHistory(worlds: seq<World>, requests: seq<Request>, i: nat, j: nat, id: Uuid)
    requires i <= j < |worlds| && |worlds| == |requests| + 1
  {
    id in worlds[i].rows ==>
      && id in worlds[j].rows
      && (worlds[j].rows[id].isActive ==> worlds[i].rows[id].isActive)
      && worlds[j].rows[id].createdAt == worlds[i].rows[id].createdAt
      && (worlds[j].rows[id] != worlds[i].rows[id] ==>
           exists k :: i <= k < j && MayChange(worlds[k], worlds[k + 1], requests[k], id))
      && (worlds[j].rows[id].role != worlds[i].rows[id].role ==>
        exists k :: i <= k < j && ByAdmin(worlds[k], requests[k], id))
      && (worlds[j].rows[id].passwordHash != worlds[i].rows[id].passwordHash ==>
           exists k :: i <= k < j && ByReset(worlds[k], worlds[k + 1], requests[k], id))
  }

  /** Over any stretch of any run: no row is removed, no inactive row comes back, every change of
    * a row traces to an admin, its own user or a reset token, every change of a role to an admin,
    * and every change of a password to a spent reset token.
    */
  lemma {:induction false} TableNeverForgets(
    cfg: Config, worlds: seq<World>, requests: seq<Request>, i: nat, j: nat, id: Uuid)
    requires IsRun(cfg, worlds, requests) && i <= j < |worlds|
    ensures RowHistory(worlds, requests, i, j, id)
    decreases j - i
  {
    if i < j {
      var k := j - 1;
      TableNeverForgets(cfg, worlds, requests, i, k, id);
      ConstraintsHold(cfg, worlds, requests, k);
      RowsStep(cfg, worlds[k], requests[k], id);
    }
  }

  /** The row is new, made by a registration, active and of role "user". */
  ghost predicate Enrolled(w: World, w': World, r: Request, id: Uuid) {
    && r.call.Register? && r.call.id == id && id !in w.rows && id in w'.rows
    && w'.rows[id].role == "user" && w'.rows[id].isActive && w'.rows[id].email == r.call.email
    && w'.rows[id].passwordHash == Bcrypt(r.call.salt, r.call.password)
    && w'.log == w.log + [Registered(r.at, id)]
  }

  lemma NewRowStep(cfg: Config, w: World, r: Request, id: Uuid)
    requires Consistent(w.rows)
    ensures
      var w' := Do(cfg, w, r.at, r.call);
      && |w'.log| == |w.log| + 1
      && (id !in w.rows && id in w'.rows ==> Enrolled(w, w', r, id))
      && (w'.log[|w.log|] == Registered(r.at, id) ==> Enrolled(w, w', r, id))
  {
    CallFrame(cfg, w, r.at, r.call, Blocklist(""));
    match r.call
    case Register(_, _, _, _) => RegisterEnrols(cfg, w, r, id);
    case ResetPassword(_, _, _, _) => ResetEnrolsNoOne(cfg, w, r);
    case UpdateProfile(_, _, _, _) => UpdateEnrolsNoOne(cfg, w, r);
    case DeleteAccount(_, _) => DeleteEnrolsNoOne(cfg, w, r);
    case _ => OthersRegisterNoOne(cfg, w, r);
  }

  lemma RegisterEnrols(cfg: Config, w: World, r: Request, id: Uuid)
    requires r.call.Register?
    ensures
      var w' := DoRegister(cfg, w, r.at, r.call);
      && |w'.log| == |w.log| + 1
      && (id !in w.rows && id in w'.rows ==> Enrolled(w, w', r, id))
      && (w'.log[|w.log|] == Registered(r.at, id) ==> Enrolled(w, w', r, id))
  {
  }

  lemma ResetEnrolsNoOne(cfg: Config, w: World, r: Request)
    requires r.call.ResetPassword?
    ensures
      var w' := DoReset(cfg, w, r.at, r.call);
      w'.rows.Keys == w.rows.Keys && |w'.log| == |w.log| + 1 && !w'.log[|w.log|].Registered?
  {
  }

  lemma UpdateEnrolsNoOne(cfg: Config, w: World, r: Request)
    requires r.call.UpdateProfile?
    ensures
      var w' := DoUpdate(cfg, w, r.at, r.call);
      w'.rows.Keys == w.rows.Keys && |w'.log| == |w.log| + 1 && !w'.log[|w.log|].Registered?
  {
  }

  lemma DeleteEnrolsNoOne(cfg: Config, w: World, r: Request)
    requires r.call.DeleteAccount?
    ensures
      var w' := DoDelete(cfg, w, r.at, r.call);
      w'.rows.Keys == w.rows.Keys && |w'.log| == |w.log| + 1 && !w'.log[|w.log|].Registered?
  {
  }

  lemma OthersRegisterNoOne(cfg: Config, w: World, r: Request)
    requires !WritesRows(r.call)
    ensures var w' := Do(cfg, w, r.at, r.call); |w'.log| == |w.log| + 1 && !w'.log[|w.log|].Registered?
  {
    match r.call
    case Login(_, _, _, _) => assert Do(cfg, w, r.at, r.call) == DoLogin(cfg, w, r.at, r.call);
    case RefreshSession(_, _, _, _) => assert Do(cfg, w, r.at, r.call) == DoRefresh(cfg, w, r.at, r.call);
    case Logout(_, _) => assert Do(cfg, w, r.at, r.call) == DoLogout(cfg, w, r.at, r.call);
    case ForgotPassword(_, _) => assert Do(cfg, w, r.at, r.call) == DoForgot(cfg, w, r.at, r.call);
    case GetUser(_, _) => assert Do(cfg, w, r.at, r.call) == DoGet(cfg, w, r.at, r.call);
  }

  /** Every row that was not there at the start was made by a registration, as an active user of role
    * "user" with the e-mail and password asked for.
    */
  lemma {:induction false} NewRowsAreRegistered(
    cfg: Config, worlds: seq<World>, requests: seq<Request>, n: nat, id: Uuid) returns (k: nat)
    requires IsRun(cfg, worlds, requests) && n < |worlds| && id !in worlds[0].rows && id in worlds[n].rows
    ensures k < n && Enrolled(worlds[k], worlds[k + 1], requests[k], id)
    decreases n
  {
    if id in worlds[n - 1].rows {
      k := NewRowsAreRegistered(cfg, worlds, requests, n - 1, id);
    } else {
      k := n - 1;
      ConstraintsHold(cfg, worlds, requests, k);
      NewRowStep(cfg, worlds[k], requests[k], id);
    }
  }

  /** Without an accepted token nothing behind the bearer check is read, changed or signed. */
  lemma NoEntryWithoutToken(cfg: Config, w: World, at: int, call: Call)
    requires call.Logout? || call.GetUser? || call.UpdateProfile? || call.DeleteAccount?
    requires !Authenticated(w, call.bearer, at)
    ensures
      var w' := Do(cfg, w, at, call);
      && w'.db == w.db && w'.rows == w.rows && w'.minted == w.minted
      && w'.log == w.log + [Refused(at, Unauthorized)]
  {
  }

  /** A stretch of profile updates with tokens of non-admins changes no role, no password and no
    * row but the callers' own.
    */
  lemma NonAdminsChangeOnlyThemselves(cfg: Config, worlds: seq<World>, requests: seq<Request>, i: nat, j: nat, id: Uuid)
    requires IsRun(cfg, worlds, requests) && i <= j < |worlds| && id in worlds[i].rows
    requires forall k :: i <= k < j ==> requests[k].call.UpdateProfile? && requests[k].call.bearer.role != "admin"
    ensures id in worlds[j].rows && worlds[j].rows[id].role == worlds[i].rows[id].role
    ensures worlds[j].rows[id].passwordHash == worlds[i].rows[id].passwordHash
    ensures (forall k :: i <= k < j ==> requests[k].call.bearer.subject != id) ==>
      worlds[j].rows[id] == worlds[i].rows[id]
  {
    TableNeverForgets(cfg, worlds, requests, i, j, id);
  }
}
