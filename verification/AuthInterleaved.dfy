/** Logins, refreshes and logouts whose Redis commands interleave in any way. Looking up a user
  * and comparing a password are choices of the environment; drawn tokens are new.
  */
module AuthInterleaved {
  import opened Base
  import opened Model
  import opened Redis
  import opened Keyspace
  import opened Sessions
  import opened Auth

  datatype LoginPhase =
    | CheckLock
    | FindUser
    | CountFailed
    | ArmExpiry
    | ClearFailed(user: Uuid)
    | DrawToken(user: Uuid)
    | StoreToken(user: Uuid, token: string)
    | LoginEnded

  datatype RefreshPhase =
    | Validate
    | FetchUser(user: string)
    | DeleteOld(user: string, token: string)
    | StoreNew(user: string, token: string)
    | RefreshEnded(ok: bool)

  datatype LogoutPhase = BlockJti | DeleteToken | LogoutEnded

  datatype Task =
    | LoginTask(email: string, login: LoginPhase)
    | RefreshTask(oldToken: string, refresh: RefreshPhase)
    | LogoutTask(jti: string, token: string, logout: LogoutPhase)

  /** `drawn` are the tokens ever drawn, `stored` those ever written under their key, and `revoked`
    * those whose key was deleted after that.
    */
  datatype System = System(
    clock: int, db: Db, tasks: map<nat, Task>, drawn: set<string>, stored: set<string>, revoked: set<string>)

  datatype Verdict = Unknown | Wrong | Right

  /** What the table says and which token is drawn, where the step asks for it. */
  datatype Choice = Choice(verdict: Verdict, user: Uuid, token: string)

  datatype Action =
    | Tick(to: int)
    | Begin(pid: nat, task: Task)
    | Advance(pid: nat, choice: Choice)

  predicate AtBeginning(t: Task) {
    match t
    case LoginTask(_, p) => p.CheckLock?
    case RefreshTask(_, p) => p.Validate?
    case LogoutTask(_, _, p) => p.BlockJti?
  }

  predicate Enabled(s: System, a: Action) {
    match a
    case Tick(to) => s.clock <= to
    case Begin(pid, task) => pid !in s.tasks && AtBeginning(task)
    case Advance(pid, choice) => pid in s.tasks && choice.token !in s.drawn
  }

  /** SET of a refresh token's key. */
  function StoreKey(s: System, token: string, user: string, ttl: int): System {
    s.(db := StoreRefresh(s.db, token, user, ttl, Up, s.clock), stored := s.stored + {token})
  }

  /** DEL of a refresh token's key. */
  function DeleteKey(s: System, token: string): System {
    s.(db := Revoke(s.db, token, Up, s.clock), revoked := if token in s.stored then s.revoked + {token} else s.revoked)
  }

  function AdvanceLogin(cfg: JwtConfig, s: System, email: string, p: LoginPhase, c: Choice): (System, LoginPhase) {
    match p
    case CheckLock => (s, if LockedOut(s.db, email, s.clock) then LoginEnded else FindUser)
    case FindUser =>
      (s, match c.verdict case Unknown => LoginEnded case Wrong => CountFailed case Right => ClearFailed(c.user))
    case CountFailed => (s.(db := Send(s.db, Lockout(email), Incr, Up, 0, s.clock)), ArmExpiry)
    case ArmExpiry => (s.(db := Send(s.db, Lockout(email), Expire(LOGIN_LOCKOUT_WINDOW), Up, 1, s.clock)), LoginEnded)
    case ClearFailed(user) => (s.(db := ForgetFailures(s.db, email, Up, s.clock)), DrawToken(user))
    case DrawToken(user) => (s.(drawn := s.drawn + {c.token}), StoreToken(user, c.token))
    case StoreToken(user, token) => (StoreKey(s, token, user, cfg.RefreshTtl()), LoginEnded)
    case LoginEnded => (s, LoginEnded)
  }

  function AdvanceRefresh(
    cfg: JwtConfig, s: System, oldToken: string, p: RefreshPhase, c: Choice): (System, RefreshPhase)
  {
    match p
    case Validate =>
      var stored := TextAt(s.db, Refresh(oldToken), s.clock);
      (s, if stored.Ok? then FetchUser(stored.value) else RefreshEnded(false))
    case FetchUser(user) =>
      if c.verdict.Right? then (s.(drawn := s.drawn + {c.token}), DeleteOld(user, c.token))
      else (s, RefreshEnded(false))
    case DeleteOld(user, token) => (DeleteKey(s, oldToken), StoreNew(user, token))
    case StoreNew(user, token) => (StoreKey(s, token, user, cfg.RefreshTtl()), RefreshEnded(true))
    case RefreshEnded(ok) => (s, p)
  }

  function AdvanceLogout(cfg: JwtConfig, s: System, jti: string, token: string, p: LogoutPhase): (System, LogoutPhase) {
    match p
    case BlockJti => (s.(db := Block(s.db, jti, cfg.RefreshTtl(), Up, s.clock)), DeleteToken)
    case DeleteToken => (DeleteKey(s, token), LogoutEnded)
    case LogoutEnded => (s, p)
  }

  function AdvanceTask(cfg: JwtConfig, s: System, t: Task, c: Choice): (System, Task) {
    match t
    case LoginTask(email, p) => var (s', p') := AdvanceLogin(cfg, s, email, p, c); (s', LoginTask(email, p'))
    case RefreshTask(oldToken, p) =>
      var (s', p') := AdvanceRefresh(cfg, s, oldToken, p, c);
      (s', RefreshTask(oldToken, p'))
    case LogoutTask(jti, token, p) =>
      var (s', p') := AdvanceLogout(cfg, s, jti, token, p);
      (s', LogoutTask(jti, token, p'))
  }

  function Do(cfg: JwtConfig, s: System, a: Action): System
    requires Enabled(s, a)
  {
    match a
    case Tick(to) => s.(clock := to)
    case Begin(pid, task) => s.(tasks := s.tasks[pid := task])
    case Advance(pid, choice) =>
      var (s', t') := AdvanceTask(cfg, s, s.tasks[pid], choice);
      s'.(tasks := s.tasks[pid := t'])
  }

  ghost predicate IsRun(cfg: JwtConfig, states: seq<System>, actions: seq<Action>) {
    && |states| == |actions| + 1
    && states[0] == System(states[0].clock, map[], map[], {}, {}, {})
    && forall i :: 0 <= i < |actions| ==>
      Enabled(states[i], actions[i]) && states[i + 1] == Do(cfg, states[i], actions[i])
  }

  // ---- Lockout ------------------------------------------------------------------------------------

  predicate InFlight(t: Task, email: string) {
    t.LoginTask? && t.email == email && !t.login.LoginEnded?
  }

  /** Past the lock check, and not yet counted or cleared of failure. */
  predicate PastCheck(t: Task, email: string) {
    t.LoginTask? && t.email == email && (t.login.FindUser? || t.login.CountFailed?)
  }

  ghost function InFlightFor(s: System, email: string): set<nat> {
    set pid | pid in s.tasks && InFlight(s.tasks[pid], email)
  }

  ghost function PastCheckFor(s: System, email: string): set<nat> {
    set pid | pid in s.tasks && PastCheck(s.tasks[pid], email)
  }

  /** The failure counter as any command would see it. */
  function Count(db: Db, email: string, now: int): int {
    var c := Read(db, Lockout(email), now);
    if c.Some? && c.value.value.Counter? then c.value.value.n else 0
  }

  ghost predicate CountersCount(db: Db) {
    forall email :: Lockout(email) in db ==> db[Lockout(email)].value.Counter? && db[Lockout(email)].value.n > 0
  }

  ghost predicate LockInv(s: System, email: string, k: nat) {
    CountersCount(s.db) && Count(s.db, email, s.clock) + |PastCheckFor(s, email)| <= LOCKOUT_THRESHOLD - 1 + k
  }

  lemma PastCheckAreInFlight(s: System, email: string)
    ensures |PastCheckFor(s, email)| <= |InFlightFor(s, email)|
  {
    SubsetCardinality(PastCheckFor(s, email), InFlightFor(s, email));
  }

  /** What a step on one task may do to an address's counter. */
  ghost predicate CounterMoves(s: System, s': System, t: Task, t': Task, email: string) {
    var before, after := Count(s.db, email, s.clock), Count(s'.db, email, s.clock);
    && s'.clock == s.clock && s'.tasks == s.tasks && CountersCount(s'.db)
    && (PastCheck(t', email) && !PastCheck(t, email) ==> after == before <= LOCKOUT_THRESHOLD - 1)
    && after <= before + (if PastCheck(t, email) && !PastCheck(t', email) then 1 else 0)
  }

  lemma OwnLoginMovesCounter(cfg: JwtConfig, s: System, email: string, p: LoginPhase, c: Choice)
    requires CountersCount(s.db)
    ensures
      var (s', p') := AdvanceLogin(cfg, s, email, p, c);
      CounterMoves(s, s', LoginTask(email, p), LoginTask(email, p'), email)
  {
  }

  lemma OtherLoginLeavesCounter(cfg: JwtConfig, s: System, email: string, p: LoginPhase, c: Choice, other: string)
    requires CountersCount(s.db) && other != email
    ensures
      var (s', p') := AdvanceLogin(cfg, s, email, p, c);
      CounterMoves(s, s', LoginTask(email, p), LoginTask(email, p'), other)
  {
  }

  lemma OthersLeaveCounter(cfg: JwtConfig, s: System, t: Task, c: Choice, email: string)
    requires CountersCount(s.db) && !t.LoginTask?
    ensures var (s', t') := AdvanceTask(cfg, s, t, c); CounterMoves(s, s', t, t', email)
  {
  }

  lemma PastCheckAfter(s: System, s': System, pid: nat, email: string)
    requires pid in s.tasks && pid in s'.tasks && s'.tasks == s.tasks[pid := s'.tasks[pid]]
    ensures
      var before, after := PastCheck(s.tasks[pid], email), PastCheck(s'.tasks[pid], email);
      |PastCheckFor(s', email)|
      == |PastCheckFor(s, email)| + (if after && !before then 1 else if before && !after then -1 else 0)
  {
    var before, after := PastCheckFor(s, email), PastCheckFor(s', email);
    assert forall q :: q != pid ==> (q in after <==> q in before);
    assert after - {pid} == before - {pid};
    assert pid in before <==> PastCheck(s.tasks[pid], email);
    assert pid in after <==> PastCheck(s'.tasks[pid], email);
    assert |before| == |before - {pid}| + (if pid in before then 1 else 0);
    assert |after| == |after - {pid}| + (if pid in after then 1 else 0);
  }

  lemma StepKeepsLockInv(cfg: JwtConfig, s: System, a: Action, email: string, k: nat)
    requires LockInv(s, email, k) && Enabled(s, a)
    requires |InFlightFor(Do(cfg, s, a), email)| <= k
    ensures LockInv(Do(cfg, s, a), email, k)
  {
    var s' := Do(cfg, s, a);
    PastCheckAreInFlight(s', email);
    match a
    case Tick(to) => assert PastCheckFor(s', email) == PastCheckFor(s, email);
    case Begin(pid, task) => assert PastCheckFor(s', email) == PastCheckFor(s, email);
    case Advance(pid, choice) =>
      if s.tasks[pid].LoginTask? && s.tasks[pid].email == email {
        OwnLoginMovesCounter(cfg, s, email, s.tasks[pid].login, choice);
      } else if s.tasks[pid].LoginTask? {
        OtherLoginLeavesCounter(cfg, s, s.tasks[pid].email, s.tasks[pid].login, choice, email);
      } else {
        OthersLeaveCounter(cfg, s, s.tasks[pid], choice, email);
      }
      PastCheckAfter(s, s', pid, email);
  }

  lemma {:induction false} LockInvHolds(
    cfg: JwtConfig, states: seq<System>, actions: seq<Action>, n: nat, email: string, k: nat)
    requires IsRun(cfg, states, actions) && n < |states|
    requires forall i :: 0 <= i < |states| ==> |InFlightFor(states[i], email)| <= k
    ensures LockInv(states[n], email, k)
    decreases n
  {
    if n == 0 {
      assert PastCheckFor(states[0], email) == {};
    } else {
      LockInvHolds(cfg, states, actions, n - 1, email, k);
      assert states[n] == Do(cfg, states[n - 1], actions[n - 1]);
      assert |InFlightFor(states[n], email)| <= k;
      StepKeepsLockInv(cfg, states[n - 1], actions[n - 1], email, k);
    }
  }

  /** With at most k logins for an address in flight at any time, its counter never exceeds 9 + k. */
  lemma InterleavedLoginsOvershootByAtMostK(
    cfg: JwtConfig, states: seq<System>, actions: seq<Action>, n: nat, email: string, k: nat)
    requires IsRun(cfg, states, actions) && n < |states|
    requires forall i :: 0 <= i < |states| ==> |InFlightFor(states[i], email)| <= k
    ensures Count(states[n].db, email, states[n].clock) <= 9 + k
  {
    LockInvHolds(cfg, states, actions, n, email, k);
  }

  // ---- Revocation ---------------------------------------------------------------------------------

  /** The token a task has drawn and will still store. */
  function Pending(t: Task): Option<string> {
    match t
    case LoginTask(_, p) => if p.StoreToken? then Some(p.token) else None
    case RefreshTask(_, p) =>
      if p.DeleteOld? then Some(p.token) else if p.StoreNew? then Some(p.token) else None
    case LogoutTask(_, _, _) => None
  }

  ghost predicate TokenInv(s: System) {
    && s.revoked <= s.stored <= s.drawn
    && (forall token :: Refresh(token) in s.db ==> token in s.stored && token !in s.revoked)
    && (forall pid :: pid in s.tasks && Pending(s.tasks[pid]).Some? ==>
          Pending(s.tasks[pid]).value in s.drawn && Pending(s.tasks[pid]).value !in s.stored)
    && (forall p, q :: p in s.tasks && q in s.tasks && p != q && Pending(s.tasks[p]).Some? ==>
          Pending(s.tasks[p]) != Pending(s.tasks[q]))
  }

  /** A step on one task: which keys appear, and what it still holds in hand. */
  lemma TokenStep(cfg: JwtConfig, s: System, t: Task, c: Choice)
    requires c.token !in s.drawn
    requires Pending(t).Some? ==> Pending(t).value !in s.revoked
    ensures
      var (s', t') := AdvanceTask(cfg, s, t, c);
      && s'.tasks == s.tasks
      && s.drawn <= s'.drawn <= s.drawn + {c.token}
      && s.stored <= s'.stored && s.revoked <= s'.revoked
      && (forall x :: x in s'.stored && x !in s.stored ==> Pending(t) == Some(x) && Pending(t') == None)
      && (forall x :: x in s'.revoked && x !in s.revoked ==> x in s.stored && Refresh(x) !in s'.db)
      && (forall x :: Refresh(x) in s'.db ==> Refresh(x) in s.db || (Pending(t) == Some(x) && x in s'.stored))
      && (Pending(t').Some? ==> Pending(t') == Pending(t) || (Pending(t') == Some(c.token) && c.token in s'.drawn))
  {
  }

  lemma StepKeepsTokenInv(cfg: JwtConfig, s: System, a: Action)
    requires TokenInv(s) && Enabled(s, a)
    ensures TokenInv(Do(cfg, s, a)) && s.revoked <= Do(cfg, s, a).revoked && s.stored <= Do(cfg, s, a).stored
  {
    if a.Advance? {
      TokenStep(cfg, s, s.tasks[a.pid], a.choice);
    }
  }

  lemma {:induction false} TokenInvHolds(cfg: JwtConfig, states: seq<System>, actions: seq<Action>, i: nat, j: nat)
    requires IsRun(cfg, states, actions) && i <= j < |states|
    ensures TokenInv(states[j]) && states[i].revoked <= states[j].revoked && states[i].stored <= states[j].stored
    decreases j
  {
    if j > 0 {
      TokenInvHolds(cfg, states, actions, if i < j then i else j - 1, j - 1);
      StepKeepsTokenInv(cfg, states[j - 1], actions[j - 1]);
    }
  }

  /** The step deletes the key of a token that was stored before: a rotation or a logout. */
  predicate Revokes(s: System, a: Action, token: string) {
    && a.Advance? && a.pid in s.tasks && token in s.stored
    && match s.tasks[a.pid]
       case LoginTask(_, _) => false
       case RefreshTask(oldToken, p) => p.DeleteOld? && oldToken == token
       case LogoutTask(_, cookie, p) => p.DeleteToken? && cookie == token
  }

  /** However commands interleave: after a rotation or a logout has deleted a token, every refresh
    * that validates it later fails.
    */
  lemma RevocationIsPermanent(
    cfg: JwtConfig, states: seq<System>, actions: seq<Action>, i: nat, j: nat, token: string)
    requires IsRun(cfg, states, actions) && i < j < |actions| && Revokes(states[i], actions[i], token)
    requires actions[j].Advance? && states[j].tasks[actions[j].pid] == RefreshTask(token, Validate)
    ensures states[j + 1].tasks[actions[j].pid] == RefreshTask(token, RefreshEnded(false))
  {
    TokenInvHolds(cfg, states, actions, i + 1, j);
    assert token in states[i + 1].revoked;
    assert Refresh(token) !in states[j].db;
  }

  // ---- Building runs ------------------------------------------------------------------------------

  /** The run ends in this state. */
  ghost predicate Reaches(cfg: JwtConfig, states: seq<System>, actions: seq<Action>, s: System) {
    IsRun(cfg, states, actions) && states[|actions|] == s
  }

  lemma Play(cfg: JwtConfig, states: seq<System>, actions: seq<Action>, s: System, a: Action)
    returns (states': seq<System>, actions': seq<Action>, s': System)
    requires Reaches(cfg, states, actions, s) && Enabled(s, a)
    ensures s' == Do(cfg, s, a) && Reaches(cfg, states', actions', s')
  {
    s' := Do(cfg, s, a);
    states', actions' := states + [s'], actions + [a];
  }

  const SOMEONE: Uuid := "00000000-0000-0000-0000-000000000000"

  /** The password is right or the user exists; "unused" where no token is drawn. */
  function Yes(token: string): Choice {
    Choice(Right, SOMEONE, token)
  }
}
