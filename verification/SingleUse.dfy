/** When refresh tokens are single-use although validating and rotating one are separate commands. */
module SingleUse {
  import opened Base
  import opened Redis
  import opened Keyspace
  import opened Sessions
  import opened Auth
  import opened AuthInterleaved

  /** A refresh that has validated its token and not yet deleted it. */
  predicate Holding(s: System, pid: nat, token: string) {
    && pid in s.tasks && s.tasks[pid].RefreshTask? && s.tasks[pid].oldToken == token
    && (s.tasks[pid].refresh.FetchUser? || s.tasks[pid].refresh.DeleteOld?)
  }

  /** A refresh that has deleted its token. */
  predicate Committed(s: System, pid: nat, token: string) {
    && pid in s.tasks && s.tasks[pid].RefreshTask? && s.tasks[pid].oldToken == token
    && (s.tasks[pid].refresh.StoreNew? || s.tasks[pid].refresh == RefreshEnded(true))
  }

  predicate Ended(s: System, pid: nat, token: string) {
    pid in s.tasks && s.tasks[pid].RefreshTask? && s.tasks[pid].oldToken == token && s.tasks[pid].refresh.RefreshEnded?
  }

  predicate Succeeded(s: System, pid: nat, token: string) {
    pid in s.tasks && s.tasks[pid] == RefreshTask(token, RefreshEnded(true))
  }

  /** The action validates the token for this task. */
  ghost predicate Validates(s: System, a: Action, pid: nat, token: string) {
    a.Advance? && a.pid == pid && pid in s.tasks && s.tasks[pid] == RefreshTask(token, Validate)
  }

  /** The action deletes the token for this task. */
  ghost predicate Deletes(s: System, a: Action, pid: nat, token: string) {
    && a.Advance? && a.pid == pid && pid in s.tasks
    && s.tasks[pid].RefreshTask? && s.tasks[pid].oldToken == token && s.tasks[pid].refresh.DeleteOld?
  }

  // ---- What a task did before -----------------------------------------------------------------------

  /** A task that holds a token validated it, and has held it since. */
  lemma {:induction false} HoldingWasValidated(
    cfg: JwtConfig, states: seq<System>, actions: seq<Action>, n: nat, pid: nat, token: string) returns (v: nat)
    requires IsRun(cfg, states, actions) && n < |states| && Holding(states[n], pid, token)
    ensures v < n && Validates(states[v], actions[v], pid, token)
    ensures TextAt(states[v].db, Refresh(token), states[v].clock).Ok?
    ensures forall k :: v < k <= n ==> Holding(states[k], pid, token)
    decreases n
  {
    assert n > 0;
    if Holding(states[n - 1], pid, token) {
      v := HoldingWasValidated(cfg, states, actions, n - 1, pid, token);
    } else {
      v := n - 1;
    }
  }

  /** A task that is past its deletion made it, and held the token just before. */
  lemma {:induction false} CommittedHasDeleted(
    cfg: JwtConfig, states: seq<System>, actions: seq<Action>, n: nat, pid: nat, token: string) returns (d: nat)
    requires IsRun(cfg, states, actions) && n < |states| && Committed(states[n], pid, token)
    ensures d < n && Deletes(states[d], actions[d], pid, token)
    decreases n
  {
    assert n > 0;
    if Committed(states[n - 1], pid, token) {
      d := CommittedHasDeleted(cfg, states, actions, n - 1, pid, token);
    } else {
      d := n - 1;
    }
  }

  /** One deletes before the other validates: then the other fails. */
  lemma NoValidationAfterDeletion(
    cfg: JwtConfig, states: seq<System>, actions: seq<Action>, v: nat, d: nat, w: nat, p: nat, q: nat, token: string)
    requires IsRun(cfg, states, actions) && v < d < |actions| && w < |actions|
    requires Validates(states[v], actions[v], p, token) && TextAt(states[v].db, Refresh(token), states[v].clock).Ok?
    requires Deletes(states[d], actions[d], p, token)
    requires Validates(states[w], actions[w], q, token) && TextAt(states[w].db, Refresh(token), states[w].clock).Ok?
    requires p != q
    ensures w < d
  {
    TokenInvHolds(cfg, states, actions, v, d);
    TokenInvHolds(cfg, states, actions, v, v);
    assert Refresh(token) in states[v].db;
    assert Revokes(states[d], actions[d], token);
    if d < w {
      RevocationIsPermanent(cfg, states, actions, d, w, token);
    }
  }

  /** Two refreshes with one token that both succeed held it at the same time. */
  lemma BothSucceededHeldTogether(
    cfg: JwtConfig, states: seq<System>, actions: seq<Action>, n: nat, p: nat, q: nat, token: string) returns (i: nat)
    requires IsRun(cfg, states, actions) && n < |states| && p != q
    requires Succeeded(states[n], p, token) && Succeeded(states[n], q, token)
    ensures i < n && Holding(states[i], p, token) && Holding(states[i], q, token)
  {
    var dp := CommittedHasDeleted(cfg, states, actions, n, p, token);
    var dq := CommittedHasDeleted(cfg, states, actions, n, q, token);
    var vp := HoldingWasValidated(cfg, states, actions, dp, p, token);
    var vq := HoldingWasValidated(cfg, states, actions, dq, q, token);
    NoValidationAfterDeletion(cfg, states, actions, vp, dp, vq, p, q, token);
    NoValidationAfterDeletion(cfg, states, actions, vq, dq, vp, q, p, token);
    i := if vp < vq then vq + 1 else vp + 1;
  }

  // ---- What a task does next ------------------------------------------------------------------------

  /** The table knows the user whenever this task asks. */
  ghost predicate FindsUser(states: seq<System>, actions: seq<Action>, pid: nat)
    requires |states| == |actions| + 1
  {
    forall i :: 0 <= i < |actions| && actions[i].Advance? && actions[i].pid == pid && pid in states[i].tasks
      && states[i].tasks[pid].RefreshTask? && states[i].tasks[pid].refresh.FetchUser?
      ==> actions[i].choice.verdict.Right?
  }

  lemma {:induction false} HoldingGoesOn(
    cfg: JwtConfig, states: seq<System>, actions: seq<Action>, i: nat, n: nat, pid: nat, token: string)
    requires IsRun(cfg, states, actions) && i <= n < |states| && FindsUser(states, actions, pid)
    requires Holding(states[i], pid, token)
    ensures Holding(states[n], pid, token) || Committed(states[n], pid, token)
    decreases n
  {
    if i < n {
      HoldingGoesOn(cfg, states, actions, i, n - 1, pid, token);
    }
  }

  /** Two refreshes with one token, both run to their end and both finding their user, both succeed if
    * and only if at some moment both had validated the token and neither had deleted it.
    */
  lemma BothSucceedExactlyWhen(
    cfg: JwtConfig, states: seq<System>, actions: seq<Action>, n: nat, p: nat, q: nat, token: string)
    requires IsRun(cfg, states, actions) && n < |states| && p != q
    requires FindsUser(states, actions, p) && FindsUser(states, actions, q)
    requires Ended(states[n], p, token) && Ended(states[n], q, token)
    ensures
      Succeeded(states[n], p, token) && Succeeded(states[n], q, token)
      <==> exists i :: 0 <= i < n && Holding(states[i], p, token) && Holding(states[i], q, token)
  {
    if Succeeded(states[n], p, token) && Succeeded(states[n], q, token) {
      var i := BothSucceededHeldTogether(cfg, states, actions, n, p, q, token);
    }
    forall i | 0 <= i < n && Holding(states[i], p, token) && Holding(states[i], q, token)
      ensures Succeeded(states[n], p, token) && Succeeded(states[n], q, token)
    {
      HoldingGoesOn(cfg, states, actions, i, n, p, token);
      HoldingGoesOn(cfg, states, actions, i, n, q, token);
    }
  }

  // ---- A run that loses it --------------------------------------------------------------------------

  predicate Holds(s: System, token: string) {
    TextAt(s.db, Refresh(token), s.clock) == Ok(SOMEONE)
  }

  /** One login, which stores the token "a". */
  lemma OneLogin(cfg: JwtConfig) returns (states: seq<System>, actions: seq<Action>, s: System)
    ensures Reaches(cfg, states, actions, s) && Holds(s, "a") && s.drawn == {"a"}
    ensures s.tasks == map[0 := LoginTask("e", LoginEnded)]
  {
    s := System(0, map[], map[], {}, {}, {});
    states, actions := [s], [];
    states, actions, s := Play(cfg, states, actions, s, Begin(0, LoginTask("e", CheckLock)));
    states, actions, s := Play(cfg, states, actions, s, Advance(0, Yes("unused")));
    states, actions, s := Play(cfg, states, actions, s, Advance(0, Yes("unused")));
    states, actions, s := Play(cfg, states, actions, s, Advance(0, Yes("unused")));
    states, actions, s := Play(cfg, states, actions, s, Advance(0, Yes("a")));
    states, actions, s := Play(cfg, states, actions, s, Advance(0, Yes("unused")));
    assert At(s.db, Refresh("a")).Some?;
  }

  /** Two refreshes with "a" that both validate it before either deletes it. */
  lemma BothValidate(cfg: JwtConfig) returns (states: seq<System>, actions: seq<Action>, s: System)
    ensures Reaches(cfg, states, actions, s) && s.drawn == {"a", "b", "c"} && s.tasks.Keys == {0, 1, 2}
      && s.tasks[0].LoginTask?
    ensures 1 in s.tasks && s.tasks[1] == RefreshTask("a", DeleteOld(SOMEONE, "b"))
    ensures 2 in s.tasks && s.tasks[2] == RefreshTask("a", DeleteOld(SOMEONE, "c"))
  {
    states, actions, s := OneLogin(cfg);
    states, actions, s := Play(cfg, states, actions, s, Begin(1, RefreshTask("a", Validate)));
    states, actions, s := Play(cfg, states, actions, s, Begin(2, RefreshTask("a", Validate)));
    states, actions, s := Play(cfg, states, actions, s, Advance(1, Yes("unused")));
    states, actions, s := Play(cfg, states, actions, s, Advance(2, Yes("unused")));
    states, actions, s := Play(cfg, states, actions, s, Advance(1, Yes("b")));
    states, actions, s := Play(cfg, states, actions, s, Advance(2, Yes("c")));
  }

  /** A token is single-use only call by call: validation and rotation are separate commands, so two
    * refreshes at once both succeed and one login ends up with two live tokens.
    */
  lemma OneLoginTwoTokens(cfg: JwtConfig) returns (states: seq<System>, actions: seq<Action>)
    ensures IsRun(cfg, states, actions)
    ensures
      var s := states[|actions|];
      && (forall pid :: pid in s.tasks && s.tasks[pid].LoginTask? ==> pid == 0)
      && 1 in s.tasks && s.tasks[1] == RefreshTask("a", RefreshEnded(true))
      && 2 in s.tasks && s.tasks[2] == RefreshTask("a", RefreshEnded(true))
      && Holds(s, "b") && Holds(s, "c")
  {
    var s;
    states, actions, s := BothValidate(cfg);
    states, actions, s := Play(cfg, states, actions, s, Advance(1, Yes("unused")));
    states, actions, s := Play(cfg, states, actions, s, Advance(2, Yes("unused")));
    states, actions, s := Play(cfg, states, actions, s, Advance(1, Yes("unused")));
    assert At(s.db, Refresh("b")).Some?;
    states, actions, s := Play(cfg, states, actions, s, Advance(2, Yes("unused")));
  }
}
