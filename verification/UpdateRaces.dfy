/** Updating and deleting users when their statements interleave: a SELECT reads the row, and a later
  * UPDATE writes e-mail, role and status back as they were read.
  */
module UpdateRaces {
  import opened Base
  import opened Model
  import opened UserTable
  import opened Users

  datatype Phase = Selecting | Writing(user: User) | Ended

  datatype Task =
    | Updating(id: Uuid, req: UpdateUserRequest, callerRole: string, phase: Phase)
    | Deleting(id: Uuid, phase: Phase)

  datatype System = System(clock: int, rows: Table, tasks: map<nat, Task>)

  datatype Action = Tick(to: int) | Begin(pid: nat, task: Task) | Advance(pid: nat)

  predicate Enabled(s: System, a: Action) {
    match a
    case Tick(to) => s.clock <= to
    case Begin(pid, task) => pid !in s.tasks && task.phase.Selecting?
    case Advance(pid) => pid in s.tasks
  }

  function Written(rows: Table, result: Result<Table, AppError>): Table {
    if result.Ok? then result.value else rows
  }

  function AdvanceTask(rows: Table, t: Task, now: int): (Table, Task) {
    match t
    case Updating(id, req, callerRole, phase) =>
      if phase.Selecting? then
        var found := SelectById(rows, id, true);
        (rows, t.(phase := if found.Ok? then Writing(Patch(found.value, req, callerRole)) else Ended))
      else if phase.Writing? then (Written(rows, UpdateRow(rows, phase.user, true, now)), t.(phase := Ended))
      else (rows, t)
    case Deleting(id, phase) =>
      if phase.Selecting? then
        var found := SelectById(rows, id, true);
        (rows, t.(phase := if found.Ok? then Writing(found.value) else Ended))
      else if phase.Writing? then (Written(rows, Deactivate(rows, id, true, now)), t.(phase := Ended))
      else (rows, t)
  }

  function Do(s: System, a: Action): System
    requires Enabled(s, a)
  {
    match a
    case Tick(to) => s.(clock := to)
    case Begin(pid, task) => s.(tasks := s.tasks[pid := task])
    case Advance(pid) =>
      var (rows, t) := AdvanceTask(s.rows, s.tasks[pid], s.clock);
      s.(rows := rows, tasks := s.tasks[pid := t])
  }

  ghost predicate IsRun(states: seq<System>, actions: seq<Action>) {
    && |states| == |actions| + 1
    && Consistent(states[0].rows) && states[0].tasks == map[]
    && forall i :: 0 <= i < |actions| ==> Enabled(states[i], actions[i]) && states[i + 1] == Do(states[i], actions[i])
  }

  // ---- Without overlap --------------------------------------------------------------------------------

  /** The action writes this row. */
  predicate WritesRow(s: System, a: Action, id: Uuid) {
    a.Advance? && a.pid in s.tasks && s.tasks[a.pid].id == id && s.tasks[a.pid].phase.Writing?
  }

  /** While an update of the row is between its SELECT and its UPDATE no one else writes the row. */
  ghost predicate NoOverlap(states: seq<System>, actions: seq<Action>, id: Uuid)
    requires |states| == |actions| + 1
  {
    forall i, pid ::
      && 0 <= i < |actions| && WritesRow(states[i], actions[i], id)
      && pid in states[i].tasks && pid != actions[i].pid && states[i].tasks[pid].Updating?
        && states[i].tasks[pid].id == id
      ==> !states[i].tasks[pid].phase.Writing?
  }

  /** An update about to be written still starts from the row as it is. */
  ghost predicate UpToDate(s: System, id: Uuid) {
    && Consistent(s.rows)
    && forall pid ::
        pid in s.tasks && s.tasks[pid].Updating? && s.tasks[pid].id == id && s.tasks[pid].phase.Writing? ==>
        && id in s.rows && s.rows[id].isActive
        && s.tasks[pid].phase.user == Patch(s.rows[id], s.tasks[pid].req, s.tasks[pid].callerRole)
  }

  lemma WriteKeepsConstraints(rows: Table, t: Task, now: int)
    requires Consistent(rows)
    ensures Consistent(AdvanceTask(rows, t, now).0)
  {
    if t.phase.Writing? {
      if t.Updating? && UpdateRow(rows, t.phase.user, true, now).Ok? {
        UpdateRowKeepsConstraints(rows, t.phase.user, true, now);
      }
      if t.Deleting? {
        DeactivateKeepsConstraints(rows, t.id, true, now);
      }
    }
  }

  /** Tasks of other rows leave this row alone. */
  ghost predicate OwnRowOnly(s: System) {
    forall pid :: pid in s.tasks && s.tasks[pid].Updating? && s.tasks[pid].phase.Writing? ==>
      s.tasks[pid].phase.user.id == s.tasks[pid].id
  }

  ghost predicate Inv(s: System, id: Uuid) {
    UpToDate(s, id) && OwnRowOnly(s)
  }

  /** What one step may do to the row. */
  ghost predicate RowStep(s: System, s': System, a: Action, id: Uuid) {
    id in s.rows ==>
      && id in s'.rows
      && (s'.rows[id].isActive ==> s.rows[id].isActive)
      && (s'.rows[id].role != s.rows[id].role ==> ByAdmin(s, a, id))
  }

  /** The action is an admin's update of the row. */
  ghost predicate ByAdmin(s: System, a: Action, id: Uuid) {
    WritesRow(s, a, id) && s.tasks[a.pid].Updating? && s.tasks[a.pid].callerRole == "admin"
  }

  lemma OtherRowStays(s: System, a: Action, id: Uuid)
    requires OwnRowOnly(s) && Enabled(s, a) && !WritesRow(s, a, id)
    ensures var rows' := Do(s, a).rows; (id in rows' <==> id in s.rows) && (id in s.rows ==> rows'[id] == s.rows[id])
  {
  }

  lemma StepIsRowStep(s: System, a: Action, id: Uuid)
    requires Inv(s, id) && Enabled(s, a)
    ensures RowStep(s, Do(s, a), a, id)
  {
    if !WritesRow(s, a, id) {
      OtherRowStays(s, a, id);
    }
  }

  lemma StepKeepsInv(s: System, a: Action, id: Uuid)
    requires Inv(s, id) && Enabled(s, a)
    requires
      WritesRow(s, a, id) ==> forall pid ::
        pid in s.tasks && pid != a.pid && s.tasks[pid].Updating? && s.tasks[pid].id == id ==>
          !s.tasks[pid].phase.Writing?
    ensures Inv(Do(s, a), id)
  {
    if a.Advance? {
      WriteKeepsConstraints(s.rows, s.tasks[a.pid], s.clock);
      if !WritesRow(s, a, id) {
        OtherRowStays(s, a, id);
      }
    }
  }

  lemma {:induction false} InvHolds(states: seq<System>, actions: seq<Action>, n: nat, id: Uuid)
    requires IsRun(states, actions) && NoOverlap(states, actions, id) && n < |states|
    ensures Inv(states[n], id)
    decreases n
  {
    if n > 0 {
      InvHolds(states, actions, n - 1, id);
      StepKeepsInv(states[n - 1], actions[n - 1], id);
    }
  }

  lemma RunStepIsRowStep(states: seq<System>, actions: seq<Action>, k: nat, id: Uuid)
    requires IsRun(states, actions) && NoOverlap(states, actions, id) && k < |actions|
    ensures RowStep(states[k], states[k + 1], actions[k], id)
  {
    InvHolds(states, actions, k, id);
    StepIsRowStep(states[k], actions[k], id);
  }

  /** If no one writes the row under an update of it, then however statements interleave the row stays,
    * once inactive it stays inactive, and only admins change its role.
    */
  lemma {:induction false} RowNeverForgets(states: seq<System>, actions: seq<Action>, i: nat, j: nat, id: Uuid)
    requires IsRun(states, actions) && NoOverlap(states, actions, id) && i <= j < |states| && id in states[i].rows
    ensures id in states[j].rows
    ensures states[j].rows[id].isActive ==> states[i].rows[id].isActive
    ensures states[j].rows[id].role != states[i].rows[id].role ==>
              exists k :: i <= k < j && ByAdmin(states[k], actions[k], id)
    decreases j
  {
    if i < j {
      RowNeverForgets(states, actions, i, j - 1, id);
      RunStepIsRowStep(states, actions, j - 1, id);
    }
  }

  // ---- With overlap ------------------------------------------------------------------------------------

  ghost predicate Reaches(states: seq<System>, actions: seq<Action>, s: System) {
    IsRun(states, actions) && states[|actions|] == s
  }

  lemma Play(states: seq<System>, actions: seq<Action>, s: System, a: Action)
    returns (states': seq<System>, actions': seq<Action>, s': System)
    requires Reaches(states, actions, s) && Enabled(s, a)
    ensures s' == Do(s, a) && Reaches(states', actions', s')
    ensures |actions'| == |actions| + 1 && states'[|actions|] == s && actions'[|actions|] == a
    ensures states'[..|states|] == states && actions'[..|actions|] == actions
  {
    s' := Do(s, a);
    states', actions' := states + [s'], actions + [a];
  }

  /** A user's change of e-mail has read the row, and another task has begun. */
  lemma RowIsRead(rows: Table, id: Uuid, email: string, other: Task)
    returns (states: seq<System>, actions: seq<Action>, s: System)
    requires Consistent(rows) && id in rows && rows[id].isActive && other.phase.Selecting?
    ensures Reaches(states, actions, s) && |actions| == 3
    ensures
      var req := UpdateUserRequest(Some(email), None, None);
      s == System(0, rows, map[0 := Updating(id, req, "user", Writing(rows[id].(email := email))), 1 := other])
  {
    var req := UpdateUserRequest(Some(email), None, None);
    s := System(0, rows, map[]);
    states, actions := [s], [];
    states, actions, s := Play(states, actions, s, Begin(0, Updating(id, req, "user", Selecting)));
    states, actions, s := Play(states, actions, s, Begin(1, other));
    states, actions, s := Play(states, actions, s, Advance(0));
  }

  /** Then the other task reads and writes the row, and the change is written last. */
  lemma WrittenUnderUpdate(rows: Table, id: Uuid, email: string, other: Task)
    returns (states: seq<System>, actions: seq<Action>)
    requires Consistent(rows) && id in rows && rows[id].isActive && other.id == id && other.phase.Selecting?
    requires forall jd :: jd in rows && rows[jd].email == email ==> jd == id
    requires other.Updating? ==> other.req.email.None?
    ensures IsRun(states, actions) && |actions| == 6
    ensures states[5].rows == AdvanceTask(rows, AdvanceTask(rows, other, 0).1, 0).0
    ensures !ByAdmin(states[5], actions[5], id)
    ensures
      id in states[6].rows
      && (states[6].rows[id].email, states[6].rows[id].isActive, states[6].rows[id].role)
        == (email, true, rows[id].role)
  {
    var s;
    states, actions, s := RowIsRead(rows, id, email, other);
    states, actions, s := Play(states, actions, s, Advance(1));
    states, actions, s := Play(states, actions, s, Advance(1));
    WriteKeepsConstraints(rows, AdvanceTask(rows, other, 0).1, 0);
    states, actions, s := Play(states, actions, s, Advance(0));
  }

  /** Any active account whose deletion falls between the SELECT and the UPDATE of its user's own
    * profile change is active again afterwards.
    */
  lemma DeletionIsUndone(rows: Table, id: Uuid, email: string) returns (states: seq<System>, actions: seq<Action>)
    requires Consistent(rows) && id in rows && rows[id].isActive
    requires forall jd :: jd in rows && rows[jd].email == email ==> jd == id
    ensures IsRun(states, actions) && |actions| == 6 && !NoOverlap(states, actions, id)
    ensures id in states[5].rows && !states[5].rows[id].isActive
    ensures id in states[6].rows && states[6].rows[id].isActive
  {
    states, actions := WrittenUnderUpdate(rows, id, email, Deleting(id, Selecting));
    if NoOverlap(states, actions, id) {
      RowNeverForgets(states, actions, 5, 6, id);
    }
  }

  /** An admin demoted in that gap is an admin again afterwards. */
  lemma DemotionIsUndone(rows: Table, id: Uuid, email: string) returns (states: seq<System>, actions: seq<Action>)
    requires Consistent(rows) && id in rows && rows[id].isActive && rows[id].role == "admin"
    requires forall jd :: jd in rows && rows[jd].email == email ==> jd == id
    ensures IsRun(states, actions) && |actions| == 6 && !NoOverlap(states, actions, id)
    ensures id in states[5].rows && states[5].rows[id].role == "user"
    ensures id in states[6].rows && states[6].rows[id].role == "admin" && !ByAdmin(states[5], actions[5], id)
  {
    var demote := UpdateUserRequest(None, Some("user"), None);
    states, actions := WrittenUnderUpdate(rows, id, email, Updating(id, demote, "admin", Selecting));
    if NoOverlap(states, actions, id) {
      RowNeverForgets(states, actions, 5, 6, id);
    }
  }
}
