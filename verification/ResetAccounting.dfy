/** Password-reset tokens: each successful reset spends its own recent request, and no token is
  * spent twice.
  */
module ResetAccounting {
  import opened Base
  import opened Model
  import opened Redis
  import opened Keyspace
  import opened UserTable
  import opened Sessions
  import opened Users
  import opened Auth
  import opened Protocol
  import opened TableHistory

  /** A reset token was taken, whether or not the password changed in the end. */
  predicate Consumes(e: Event, token: string) {
    (e.ResetSpent? || e.PasswordReset?) && e.token == token
  }

  /** What the log says a reset token's key holds. */
  function ResetCell(log: seq<Event>, token: string): Cell
    decreases |log|
  {
    if log == [] then None
    else
      var e := log[|log| - 1];
      if e.ResetRequested? && e.token == token then Some(Entry(Text(e.user), Some(e.at + PASSWORD_RESET_TTL)))
      else if Consumes(e, token) then None
      else ResetCell(log[..|log| - 1], token)
  }

  ghost predicate RequestedOnce(log: seq<Event>) {
    forall i, j :: 0 <= i < j < |log| && log[i].ResetRequested? && log[j].ResetRequested? ==>
      log[i].token != log[j].token
  }

  /** Each consumption found its token live, and a successful one was for the token's user. */
  ghost predicate ConsumesLive(log: seq<Event>) {
    forall j :: 0 <= j < |log| && (log[j].ResetSpent? || log[j].PasswordReset?) ==>
      var c := Live(ResetCell(log[..j], log[j].token), log[j].at);
      c.Some? && (log[j].PasswordReset? ==> c.value.value == Text(log[j].user))
  }

  ghost predicate Inv(w: World) {
    && (forall token, now :: w.clock <= now ==> Read(w.db, Reset(token), now) == Live(ResetCell(w.log, token), now))
    && RequestedOnce(w.log)
    && (forall i :: 0 <= i < |w.log| && w.log[i].ResetRequested? ==> w.log[i].token in w.drawn)
    && ConsumesLive(w.log)
  }

  /** One event's effect on a reset token's key. */
  ghost predicate CellFollows(w: World, w': World, e: Event, token: string) {
    forall now :: w'.clock <= now ==>
      Read(w'.db, Reset(token), now)
      == if e.ResetRequested? && e.token == token then
           Live(Some(Entry(Text(e.user), Some(e.at + PASSWORD_RESET_TTL))), now)
         else if Consumes(e, token) then None
         else Read(w.db, Reset(token), now)
  }

  predicate HoldsUuid(c: Cell) {
    c.Some? ==> c.value.value.Text? && CanonicalUuid(c.value.value.text)
  }

  lemma ForgotCell(cfg: Config, w: World, at: int, call: Call, token: string)
    requires call.ForgotPassword?
    ensures
      var w' := DoForgot(cfg, w, at, call);
      && |w'.log| == |w.log| + 1 && var e := w'.log[|w.log|];
      && CellFollows(w, w', e, token) && (e.ResetRequested? ==> e.token == call.token)
  {
  }

  lemma ConsumeCell(cfg: Config, w: World, at: int, call: Call, token: string)
    requires call.ResetPassword?
    requires HoldsUuid(Read(w.db, Reset(call.token), at))
    ensures
      var w' := DoReset(cfg, w, at, call);
      && |w'.log| == |w.log| + 1 && var e := w'.log[|w.log|];
      && CellFollows(w, w', e, token)
      && (e.ResetSpent? || e.PasswordReset? ==>
            && e.token == call.token && e.at == at
            && Read(w.db, Reset(e.token), at).Some?
            && (e.PasswordReset? ==> Read(w.db, Reset(e.token), at).value.value == Text(e.user)))
  {
  }

  lemma OtherCell(w: World, w': World, at: int, call: Call, token: string)
    requires !call.ForgotPassword? && !call.ResetPassword?
    requires LogsOne(w, w', at, call) && Leaves(w, w', call, Reset(token))
    ensures CellFollows(w, w', w'.log[|w.log|], token)
  {
  }

  lemma {:induction false} CellHoldsUuid(log: seq<Event>, token: string)
    ensures HoldsUuid(ResetCell(log, token))
    decreases |log|
  {
    if log != [] {
      CellHoldsUuid(log[..|log| - 1], token);
    }
  }

  lemma StepCell(cfg: Config, w: World, at: int, call: Call, token: string)
    requires Enabled(w, at, call) && Inv(w)
    ensures
      var w' := Do(cfg, w, at, call);
      && |w'.log| == |w.log| + 1 && var e := w'.log[|w.log|];
      && CellFollows(w, w', e, token)
      && (e.ResetRequested? ==> e.token !in w.drawn && e.token in w'.drawn)
      && (e.ResetSpent? || e.PasswordReset? ==>
            && e.at == at
            && Read(w.db, Reset(e.token), at).Some?
            && (e.PasswordReset? ==> Read(w.db, Reset(e.token), at).value.value == Text(e.user)))
  {
    var w' := Do(cfg, w, at, call);
    CallFrame(cfg, w, at, call, Reset(token));
    match call
    case ForgotPassword(_, _) =>
      assert Draws(call)[0] == call.token;
      ForgotCell(cfg, w, at, call, token);
    case ResetPassword(_, _, _, _) =>
      CellHoldsUuid(w.log, call.token);
      ConsumeCell(cfg, w, at, call, token);
    case _ => OtherCell(w, w', at, call, token);
  }

  /** What one more event may be, for the invariant to survive it. */
  ghost predicate GoodStep(w: World, w': World, e: Event) {
    && w'.log == w.log + [e] && w.drawn <= w'.drawn && w.clock <= w'.clock
    && (forall token :: CellFollows(w, w', e, token))
    && (e.ResetRequested? ==> e.token !in w.drawn && e.token in w'.drawn)
    && (e.ResetSpent? || e.PasswordReset? ==>
          && e.at == w'.clock
          && Read(w.db, Reset(e.token), e.at).Some?
          && (e.PasswordReset? ==> Read(w.db, Reset(e.token), e.at).value.value == Text(e.user)))
  }

  lemma StepIsGood(cfg: Config, w: World, at: int, call: Call) returns (e: Event)
    requires Enabled(w, at, call) && Inv(w)
    ensures GoodStep(w, Do(cfg, w, at, call), e)
  {
    var w' := Do(cfg, w, at, call);
    CallFrame(cfg, w, at, call, Reset(""));
    e := w'.log[|w.log|];
    assert w'.log == w.log + [e];
    StepCell(cfg, w, at, call, "");
    forall token ensures CellFollows(w, w', e, token) {
      StepCell(cfg, w, at, call, token);
    }
  }

  lemma GoodStepKeepsInv(w: World, w': World, e: Event)
    requires Inv(w) && GoodStep(w, w', e)
    ensures Inv(w')
  {
    forall token, now | w'.clock <= now ensures Read(w'.db, Reset(token), now) == Live(ResetCell(w'.log, token), now) {
      assert CellFollows(w, w', e, token);
      assert w'.log[..|w.log|] == w.log;
      assert Read(w.db, Reset(token), now) == Live(ResetCell(w.log, token), now);
    }
    forall j | 0 <= j < |w'.log| && (w'.log[j].ResetSpent? || w'.log[j].PasswordReset?)
      ensures
        var c := Live(ResetCell(w'.log[..j], w'.log[j].token), w'.log[j].at);
        c.Some? && (w'.log[j].PasswordReset? ==> c.value.value == Text(w'.log[j].user))
    {
      assert w'.log[..j] == w.log[..j];
      if j < |w.log| {
        assert w.log[j] == w'.log[j];
      } else {
        assert w.log[..j] == w.log;
        assert Read(w.db, Reset(e.token), e.at) == Live(ResetCell(w.log, e.token), e.at);
      }
    }
  }

  lemma {:induction false} InvHolds(cfg: Config, worlds: seq<World>, requests: seq<Request>, n: nat)
    requires IsRun(cfg, worlds, requests) && n < |worlds|
    ensures Inv(worlds[n])
    decreases n
  {
    if n > 0 {
      InvHolds(cfg, worlds, requests, n - 1);
      var e := StepIsGood(cfg, worlds[n - 1], requests[n - 1].at, requests[n - 1].call);
      GoodStepKeepsInv(worlds[n - 1], worlds[n], e);
    }
  }

  // ---- Reading the log ----------------------------------------------------------------------------

  /** The token was requested at event i and has not been taken since. */
  ghost predicate Outstanding(log: seq<Event>, i: nat, token: string) {
    && i < |log| && log[i].ResetRequested? && log[i].token == token
    && forall j :: i < j < |log| ==> !Consumes(log[j], token)
  }

  lemma {:induction false} HeldWasRequested(log: seq<Event>, token: string) returns (i: nat)
    requires ResetCell(log, token).Some?
    ensures Outstanding(log, i, token)
    ensures ResetCell(log, token) == Some(Entry(Text(log[i].user), Some(log[i].at + PASSWORD_RESET_TTL)))
    decreases |log|
  {
    var n := |log| - 1;
    if log[n].ResetRequested? && log[n].token == token {
      i := n;
    } else {
      i := HeldWasRequested(log[..n], token);
      assert log[..n][i] == log[i];
      forall j | i < j < |log| ensures !Consumes(log[j], token) {
        if j < n {
          assert log[..n][j] == log[j];
        }
      }
    }
  }

  lemma {:induction false} OutstandingIsHeld(log: seq<Event>, i: nat, token: string)
    requires RequestedOnce(log) && Outstanding(log, i, token)
    ensures ResetCell(log, token) == Some(Entry(Text(log[i].user), Some(log[i].at + PASSWORD_RESET_TTL)))
    decreases |log|
  {
    var n := |log| - 1;
    if i < n {
      assert log[..n][i] == log[i];
      assert forall j :: i < j < n ==> log[..n][j] == log[j];
      OutstandingIsHeld(log[..n], i, token);
    }
  }

  lemma {:induction false} TakenIsGone(log: seq<Event>, i: nat, j: nat, token: string)
    requires RequestedOnce(log) && i < j < |log| && Consumes(log[j], token)
    requires log[i].ResetRequested? && log[i].token == token
    ensures ResetCell(log, token).None?
    decreases |log|
  {
    var n := |log| - 1;
    assert log[..n][i] == log[i];
    if j < n {
      assert log[..n][j] == log[j];
      TakenIsGone(log[..n], i, j, token);
    }
  }

  // ---- Theorems about every run -------------------------------------------------------------------

  /** Live reset tokens are those requested, less those taken, less those an hour old; and each
    * resolves to the user it was requested for.
    */
  lemma LiveTokensAreOutstanding(
    cfg: Config, worlds: seq<World>, requests: seq<Request>, n: nat, token: string, now: int)
    requires IsRun(cfg, worlds, requests) && n < |worlds| && worlds[n].clock <= now
    ensures
      Read(worlds[n].db, Reset(token), now).Some?
      <==> exists i :: 0 <= i < |worlds[n].log| && Outstanding(worlds[n].log, i, token)
                       && now < worlds[n].log[i].at + 1 * HOUR
    ensures forall i :: 0 <= i < |worlds[n].log| && Outstanding(worlds[n].log, i, token)
                        && now < worlds[n].log[i].at + 1 * HOUR ==>
              TextAt(worlds[n].db, Reset(token), now) == Ok(worlds[n].log[i].user)
  {
    var log := worlds[n].log;
    InvHolds(cfg, worlds, requests, n);
    assert Read(worlds[n].db, Reset(token), now) == Live(ResetCell(log, token), now);
    if ResetCell(log, token).Some? {
      var i := HeldWasRequested(log, token);
    }
    forall i | 0 <= i < |log| && Outstanding(log, i, token)
      ensures ResetCell(log, token) == Some(Entry(Text(log[i].user), Some(log[i].at + PASSWORD_RESET_TTL)))
    {
      OutstandingIsHeld(log, i, token);
    }
  }

  /** Event i is the request whose token event j took, less than an hour later. */
  ghost predicate Pays(log: seq<Event>, i: nat, j: nat) {
    && i < j < |log| && log[i].ResetRequested? && Consumes(log[j], log[i].token)
    && log[j].at < log[i].at + 1 * HOUR
    && (log[j].PasswordReset? ==> log[j].user == log[i].user)
  }

  lemma ConsumptionHasRequest(log: seq<Event>, j: nat) returns (i: nat)
    requires ConsumesLive(log) && j < |log| && (log[j].ResetSpent? || log[j].PasswordReset?)
    ensures Pays(log, i, j)
  {
    i := HeldWasRequested(log[..j], log[j].token);
    assert log[..j][i] == log[i];
  }

  /** One request pays for one consumption. */
  lemma RequestPaysOnce(log: seq<Event>, i: nat, j: nat, k: nat)
    requires RequestedOnce(log) && ConsumesLive(log) && Pays(log, i, j) && Pays(log, i, k)
    ensures j == k
  {
    var first, second := if j < k then j else k, if j < k then k else j;
    if first < second {
      var prefix := log[..second];
      assert prefix[i] == log[i] && prefix[first] == log[first];
      TakenIsGone(prefix, i, first, log[i].token);
    }
  }

  ghost function RequestFor(log: seq<Event>, j: nat): nat
    requires exists i: nat :: Pays(log, i, j)
  {
    var i: nat :| Pays(log, i, j);
    i
  }

  /** Consumptions map one-to-one to earlier requests less than an hour old, and a successful reset
    * to a request for the same user: as many passwords are reset as requests were paid, never more.
    */
  lemma ResetsMapToRequests(cfg: Config, worlds: seq<World>, requests: seq<Request>, n: nat)
    returns (payer: map<nat, nat>)
    requires IsRun(cfg, worlds, requests) && n < |worlds|
    ensures forall j: nat :: j in payer <==>
      j < |worlds[n].log| && (worlds[n].log[j].ResetSpent? || worlds[n].log[j].PasswordReset?)
    ensures forall j :: j in payer ==> Pays(worlds[n].log, payer[j], j)
    ensures forall j, k :: j in payer && k in payer && payer[j] == payer[k] ==> j == k
  {
    var log := worlds[n].log;
    InvHolds(cfg, worlds, requests, n);
    forall j: nat | j < |log| && (log[j].ResetSpent? || log[j].PasswordReset?)
      ensures exists i: nat :: Pays(log, i, j) {
      var i := ConsumptionHasRequest(log, j);
    }
    payer := map j: nat | j < |log| && (log[j].ResetSpent? || log[j].PasswordReset?) :: RequestFor(log, j);
    forall j, k | j in payer && k in payer && payer[j] == payer[k] ensures j == k {
      RequestPaysOnce(log, payer[j], j, k);
    }
  }

  /** No token is taken twice, even when the first taking failed to change the password. */
  lemma NoTokenTwice(cfg: Config, worlds: seq<World>, requests: seq<Request>, n: nat, j: nat, k: nat, token: string)
    requires IsRun(cfg, worlds, requests) && n < |worlds| && j < k < |worlds[n].log|
    requires Consumes(worlds[n].log[j], token)
    ensures !Consumes(worlds[n].log[k], token)
  {
    var log := worlds[n].log;
    InvHolds(cfg, worlds, requests, n);
    if Consumes(log[k], token) {
      var i := ConsumptionHasRequest(log, j);
      var i' := ConsumptionHasRequest(log, k);
      assert i == i';
      RequestPaysOnce(log, i, j, k);
    }
  }

  /** A password of fewer than eight bytes is refused before the token is looked at. */
  lemma ShortPasswordTakesNothing(cfg: Config, w: World, at: int, call: Call)
    requires call.ResetPassword? && |call.password| < 8
    ensures
      var w' := Do(cfg, w, at, call);
      w'.db == w.db && w'.rows == w.rows && w'.log == w.log + [Refused(at, BadRequest)]
  {
  }

  lemma LoginTriesPassword(cfg: Config, w: World, at: int, login: Call, id: Uuid)
    requires Consistent(w.rows) && login.Login? && !LockedOut(w.db, login.email, at)
    requires id in w.rows && w.rows[id].email == login.email
    ensures
      var w' := Do(cfg, w, at, login);
      && |w'.log| == |w.log| + 1
      && (w'.log[|w.log|].LoggedIn? <==> w.rows[id].passwordHash.Accepts(login.password))
  {
    assert SelectByEmail(w.rows, login.email, true) == Ok(w.rows[id]);
    assert Do(cfg, w, at, login) == DoLogin(cfg, w, at, login);
  }

  lemma ResetWritesHash(cfg: Config, w: World, at: int, reset: Call, user: Uuid)
    requires reset.ResetPassword? && user in w.rows
    requires DoReset(cfg, w, at, reset).log == w.log + [PasswordReset(at, user, reset.token)]
    ensures
      DoReset(cfg, w, at, reset).rows
      == w.rows[user := w.rows[user].(passwordHash := Bcrypt(reset.salt, reset.password), updatedAt := at)]
  {
    assert DoReset(cfg, w, at, reset).log[|w.log|] == PasswordReset(at, user, reset.token);
  }

  /** After a successful reset the account's login, unless it is locked, accepts the new password:
    * exactly those candidates that bcrypt does not tell from it.
    */
  lemma ResetSetsPassword(cfg: Config, w: World, at: int, reset: Call, user: Uuid, later: int, login: Call)
    requires Consistent(w.rows) && reset.ResetPassword? && login.Login?
    requires user in w.rows && login.email == w.rows[user].email
    requires Do(cfg, w, at, reset).log == w.log + [PasswordReset(at, user, reset.token)]
    requires !LockedOut(Do(cfg, w, at, reset).db, login.email, later)
    ensures
      var w' := Do(cfg, w, at, reset);
      var w'' := Do(cfg, w', later, login);
      && |w''.log| == |w'.log| + 1
      && (w''.log[|w'.log|].LoggedIn? <==> BcryptKey(login.password) == BcryptKey(reset.password))
  {
    var w' := Do(cfg, w, at, reset);
    assert w' == DoReset(cfg, w, at, reset);
    ResetWritesHash(cfg, w, at, reset, user);
    StepKeepsConstraints(cfg, w, at, reset);
    LoginTriesPassword(cfg, w', later, login, user);
  }

  /** A reset whose UPDATE fails spends its token and changes no row. */
  lemma FailedWriteSpendsToken(cfg: Config, w: World, at: int, reset: Call)
    requires reset.ResetPassword? && !reset.up && 8 <= |reset.password| <= 72
    requires TextAt(w.db, Reset(reset.token), at).Ok?
    ensures
      var w' := Do(cfg, w, at, reset);
      && w'.log == w.log + [ResetSpent(at, reset.token)] && w'.rows == w.rows
      && At(w'.db, Reset(reset.token)) == None
  {
    assert Do(cfg, w, at, reset) == DoReset(cfg, w, at, reset);
  }

  /** Once a token was taken, by a reset that succeeded or by one that failed, every later reset with
    * it is refused and changes nothing that can be read.
    */
  lemma TakenTokenIsRefused(cfg: Config, worlds: seq<World>, requests: seq<Request>, n: nat, j: nat, token: string)
    requires IsRun(cfg, worlds, requests) && n < |requests| && j < |worlds[n].log| && Consumes(worlds[n].log[j], token)
    requires requests[n].call.ResetPassword? && requests[n].call.token == token
    ensures
      var w, w' := worlds[n], worlds[n + 1];
      && w'.log == w.log + [Refused(requests[n].at, BadRequest)] && w'.rows == w.rows
      && forall k :: Read(w'.db, k, requests[n].at) == Read(w.db, k, requests[n].at)
  {
    var log, at := worlds[n].log, requests[n].at;
    InvHolds(cfg, worlds, requests, n);
    var i := ConsumptionHasRequest(log, j);
    TakenIsGone(log, i, j, token);
    assert Read(worlds[n].db, Reset(token), at) == Live(ResetCell(log, token), at);
    assert worlds[n + 1] == DoReset(cfg, worlds[n], at, requests[n].call);
  }
}
