/** The limiter with its four commands as separate steps: a pipeline is not a transaction, so
  * the commands of concurrent requests for one key may interleave in any way.
  */
module RateLimitInterleaved {
  import opened Base
  import opened Redis
  import opened RateLimit
  import opened RateLimitBounds

  datatype Phase = Pruning | Adding | Counting | Expiring | Finished

  /** One call of rateLimitByKey in flight; `count` is ZCARD's reply and `countedAt` when it ran. */
  datatype Request = Request(stamp: int, phase: Phase, count: int, countedAt: int) {
    predicate HasAdded() {
      phase.Counting? || HasCounted()
    }

    predicate HasCounted() {
      phase.Expiring? || phase.Finished?
    }
  }

  datatype Machine = Machine(clock: int, cell: Cell, requests: map<nat, Request>)

  /** Time passes, a request takes its stamp, or a request's next command runs. */
  datatype Action = Tick(to: int) | Arrive(pid: nat) | Advance(pid: nat)

  predicate Enabled(m: Machine, a: Action) {
    match a
    case Tick(to) => m.clock <= to
    case Arrive(pid) => pid !in m.requests
    case Advance(pid) => pid in m.requests && !m.requests[pid].phase.Finished?
  }

  function CardOf(c: Cell, now: int): int {
    var reply := Step(ZCard, c, now).1;
    if reply.Number? then reply.n else 0
  }

  function AdvanceRequest(m: Machine, pid: nat, window: int): Machine
    requires pid in m.requests
  {
    var r := m.requests[pid];
    match r.phase
    case Pruning =>
      m.(cell := Step(PruneOp(r.stamp, window), m.cell, m.clock).0, requests := m.requests[pid := r.(phase := Adding)])
    case Adding =>
      m.(cell := Step(AddOp(r.stamp), m.cell, m.clock).0, requests := m.requests[pid := r.(phase := Counting)])
    case Counting =>
      m.(requests := m.requests[pid := r.(phase := Expiring, count := CardOf(m.cell, m.clock), countedAt := m.clock)])
    case Expiring =>
      m.(cell := Step(Expire(window), m.cell, m.clock).0, requests := m.requests[pid := r.(phase := Finished)])
    case Finished => m
  }

  function Do(m: Machine, a: Action, window: int): Machine
    requires Enabled(m, a)
  {
    match a
    case Tick(to) => m.(clock := to)
    case Arrive(pid) => m.(requests := m.requests[pid := Request(m.clock, Pruning, 0, 0)])
    case Advance(pid) => AdvanceRequest(m, pid, window)
  }

  /** Machine states of a run, one more than its actions. */
  ghost predicate IsRun(states: seq<Machine>, actions: seq<Action>, window: int) {
    && |states| == |actions| + 1
    && states[0].clock >= 0 && states[0].cell == None && states[0].requests == map[]
    && forall i :: 0 <= i < |actions| ==>
      Enabled(states[i], actions[i]) && states[i + 1] == Do(states[i], actions[i], window)
  }

  ghost predicate SomeAddedSince(m: Machine, from: int) {
    exists pid :: pid in m.requests && m.requests[pid].HasAdded() && from <= m.requests[pid].stamp
  }

  /** Once a request stamped in [from, from + window) was added, the key is not lost to its deadline
    * while the clock is in that interval. What a silence before it did to the key does not matter.
    */
  ghost predicate KeySurvives(m: Machine, window: int, from: int) {
    from <= m.clock < from + window && SomeAddedSince(m, from) && m.cell.Some? ==> Alive(m.cell.value, m.clock)
  }

  /** Requests stamped from `from` on, counted before from + window, and admitted. */
  ghost predicate AdmittedInTime(r: Request, limit: int, window: int, from: int) {
    r.HasCounted() && r.count <= limit && from <= r.stamp && r.countedAt < from + window
  }

  ghost function AdmittedRequests(m: Machine, limit: int, window: int, from: int): set<nat> {
    set pid | pid in m.requests && AdmittedInTime(m.requests[pid], limit, window, from)
  }

  /** No two requests share a nanosecond, which would make them one member of the sorted set. */
  ghost predicate DistinctStamps(m: Machine) {
    forall p, q :: p in m.requests && q in m.requests && p != q ==> m.requests[p].stamp != m.requests[q].stamp
  }

  ghost function AdmittedStamps(m: Machine, limit: int, window: int, from: int): set<int> {
    set pid | pid in m.requests && AdmittedInTime(m.requests[pid], limit, window, from) :: m.requests[pid].stamp
  }

  ghost predicate HoldsStamps(m: Machine) {
    && (m.cell.Some? ==> m.cell.value.value.Members?)
    && (m.cell.Some? ==> forall a :: a in m.cell.value.value.z ==> m.cell.value.value.z[a] == UnixMilli(a))
    && (forall pid :: pid in m.requests ==> 0 <= m.requests[pid].stamp <= m.clock)
    && (forall pid :: pid in m.requests && m.requests[pid].HasCounted() ==> m.requests[pid].countedAt <= m.clock)
  }

  /** Until from + window, what was added since `from` is still in the set. */
  ghost predicate KeepsRecent(m: Machine, window: int, from: int) {
    m.clock < from + window ==>
      forall pid :: pid in m.requests && m.requests[pid].HasAdded() && from <= m.requests[pid].stamp ==>
        m.cell.Some? && m.cell.value.value.Members? && m.requests[pid].stamp in m.cell.value.value.z
  }

  ghost predicate Inv(m: Machine, limit: int, window: int, from: int) {
    && HoldsStamps(m)
    && KeepsRecent(m, window, from)
    && |AdmittedStamps(m, limit, window, from)| <= Max(limit, 0)
  }

  lemma StepHoldsStamps(m: Machine, a: Action, window: int)
    requires HoldsStamps(m) && m.clock >= 0 && Enabled(m, a)
    ensures HoldsStamps(Do(m, a, window)) && m.clock <= Do(m, a, window).clock
  {
  }

  lemma StepKeepsRecent(m: Machine, a: Action, window: int, from: int)
    requires HoldsStamps(m) && KeepsRecent(m, window, from) && Enabled(m, a)
    requires KeySurvives(m, window, from) && from % MILLISECOND == 0
    ensures KeepsRecent(Do(m, a, window), window, from)
  {
    var m' := Do(m, a, window);
    if a.Advance? && m'.clock < from + window {
      var r := m.requests[a.pid];
      // A prune that runs before from + window cuts below `from`.
      assert UnixMilli(r.stamp - window) < from / MILLISECOND;
      forall pid | pid in m'.requests && m'.requests[pid].HasAdded() && from <= m'.requests[pid].stamp
        ensures m'.cell.Some? && m'.cell.value.value.Members? && m'.requests[pid].stamp in m'.cell.value.value.z
      {
        var stamp := m'.requests[pid].stamp;
        assert stamp == m.requests[pid].stamp;
        UnixMilliMonotone(from, stamp);
        if pid != a.pid || !r.phase.Adding? {
          assert m.requests[pid].HasAdded();
          assert stamp in m.cell.value.value.z && Live(m.cell, m.clock) == m.cell;
          if r.phase.Pruning? {
            assert stamp in WithoutScores(m.cell.value.value.z, 0, UnixMilli(r.stamp - window));
          }
        }
      }
    }
  }

  lemma StepKeepsBound(m: Machine, a: Action, limit: int, window: int, from: int)
    requires Inv(m, limit, window, from) && Enabled(m, a) && KeySurvives(m, window, from)
    ensures |AdmittedStamps(Do(m, a, window), limit, window, from)| <= Max(limit, 0)
  {
    var m' := Do(m, a, window);
    var before, after := AdmittedStamps(m, limit, window, from), AdmittedStamps(m', limit, window, from);
    if a.Advance? && m.requests[a.pid].phase.Counting? && AdmittedInTime(m'.requests[a.pid], limit, window, from) {
      forall s | s in after ensures s in m.cell.value.value.z {
        var pid :| pid in m'.requests && AdmittedInTime(m'.requests[pid], limit, window, from)
          && m'.requests[pid].stamp == s;
        assert m.requests[pid].HasAdded();
      }
      assert m.requests[a.pid].stamp in after;
      SubsetCardinality(after, m.cell.value.value.z.Keys);
    } else {
      forall s | s in after ensures s in before {
        var pid :| pid in m'.requests && AdmittedInTime(m'.requests[pid], limit, window, from)
          && m'.requests[pid].stamp == s;
        assert pid in m.requests && AdmittedInTime(m.requests[pid], limit, window, from);
      }
      SubsetCardinality(after, before);
    }
  }

  lemma {:induction false} InvAlongRun(
    states: seq<Machine>, actions: seq<Action>, n: nat, limit: int, window: int, from: int)
    requires IsRun(states, actions, window) && n < |states| && from % MILLISECOND == 0
    requires forall i :: 0 <= i < |states| ==> KeySurvives(states[i], window, from)
    ensures Inv(states[n], limit, window, from) && states[n].clock >= 0
    decreases n
  {
    if n == 0 {
      assert AdmittedStamps(states[0], limit, window, from) == {};
    } else {
      InvAlongRun(states, actions, n - 1, limit, window, from);
      var m, a := states[n - 1], actions[n - 1];
      StepHoldsStamps(m, a, window);
      StepKeepsRecent(m, a, window, from);
      StepKeepsBound(m, a, limit, window, from);
    }
  }

  lemma RequestsAsStamps(m: Machine, limit: int, window: int, from: int)
    requires DistinctStamps(m)
    ensures |AdmittedRequests(m, limit, window, from)| == |AdmittedStamps(m, limit, window, from)|
  {
    var pids := AdmittedRequests(m, limit, window, from);
    var stamp := map pid | pid in m.requests :: m.requests[pid].stamp;
    InjectiveImage(pids, stamp);
    forall s ensures s in AdmittedStamps(m, limit, window, from) <==> s in ImageOf(pids, stamp) {
      if s in AdmittedStamps(m, limit, window, from) {
        var pid :| pid in m.requests && AdmittedInTime(m.requests[pid], limit, window, from)
          && m.requests[pid].stamp == s;
        assert pid in pids && stamp[pid] == s;
      }
    }
    assert AdmittedStamps(m, limit, window, from) == ImageOf(pids, stamp);
  }

  /** However the commands interleave: among the requests stamped in [from, from + window) and
    * counted before from + window, at most `limit` are admitted, if `from` is a whole millisecond,
    * no two requests share a nanosecond, and a key added to meanwhile is not lost to its deadline.
    */
  lemma InterleavedBound(states: seq<Machine>, actions: seq<Action>, limit: int, window: int, from: int)
    requires IsRun(states, actions, window) && from % MILLISECOND == 0 && DistinctStamps(states[|actions|])
    requires forall i :: 0 <= i < |states| ==> KeySurvives(states[i], window, from)
    ensures |AdmittedRequests(states[|actions|], limit, window, from)| <= Max(limit, 0)
  {
    InvAlongRun(states, actions, |actions|, limit, window, from);
    RequestsAsStamps(states[|actions|], limit, window, from);
  }

  // ---- When the key survives ----------------------------------------------------------------------

  predicate BetweenAddAndExpire(r: Request) {
    r.phase.Counting? || r.phase.Expiring?
  }

  /** The clock stands still between a request's ZADD and its EXPIRE. */
  ghost predicate Prompt(states: seq<Machine>, actions: seq<Action>)
    requires |states| == |actions| + 1
  {
    forall i, pid ::
      && 0 <= i < |actions| && actions[i].Tick? && actions[i].to > states[i].clock && pid in states[i].requests
      ==> !BetweenAddAndExpire(states[i].requests[pid])
  }

  ghost predicate KeyInv(m: Machine, window: int) {
    && (forall pid :: pid in m.requests ==> m.requests[pid].stamp <= m.clock)
    && (forall pid :: pid in m.requests && BetweenAddAndExpire(m.requests[pid]) && m.cell.Some? ==>
          Alive(m.cell.value, m.clock))
    && (forall pid :: pid in m.requests && m.requests[pid].phase.Finished? && m.cell.Some? ==>
          m.cell.value.deadline.None? || m.requests[pid].stamp + window <= m.cell.value.deadline.value)
  }

  lemma StepKeepsKeyInv(m: Machine, a: Action, window: int)
    requires KeyInv(m, window) && Enabled(m, a) && Covers(window) && window > 0
    requires a.Tick? && a.to > m.clock ==> forall pid :: pid in m.requests ==> !BetweenAddAndExpire(m.requests[pid])
    ensures KeyInv(Do(m, a, window), window)
  {
  }

  lemma {:induction false} KeyInvAlongRun(states: seq<Machine>, actions: seq<Action>, window: int, n: nat)
    requires IsRun(states, actions, window) && Prompt(states, actions) && n < |states| && Covers(window) && window > 0
    ensures KeyInv(states[n], window)
    decreases n
  {
    if n > 0 {
      KeyInvAlongRun(states, actions, window, n - 1);
      StepKeepsKeyInv(states[n - 1], actions[n - 1], window);
    }
  }

  /** If the clock stands still between each request's ZADD and its EXPIRE, and the seconds that EXPIRE
    * gets cover the window, the bound needs to assume nothing about the key.
    */
  lemma InterleavedBoundWhenPrompt(states: seq<Machine>, actions: seq<Action>, limit: int, window: int, from: int)
    requires IsRun(states, actions, window) && from % MILLISECOND == 0 && DistinctStamps(states[|actions|])
    requires Prompt(states, actions) && Covers(window)
    ensures |AdmittedRequests(states[|actions|], limit, window, from)| <= Max(limit, 0)
  {
    forall i | 0 <= i < |states| ensures KeySurvives(states[i], window, from) {
      if window > 0 {
        KeyInvAlongRun(states, actions, window, i);
      }
    }
    InterleavedBound(states, actions, limit, window, from);
  }

  // ---- Without EXPIRE the key always survives -----------------------------------------------------

  ghost predicate SendsNoExpire(states: seq<Machine>, actions: seq<Action>)
    requires |states| == |actions| + 1
  {
    forall i :: 0 <= i < |actions| && actions[i].Advance? && actions[i].pid in states[i].requests ==>
      !states[i].requests[actions[i].pid].phase.Expiring?
  }

  lemma {:induction false} NoDeadlineWithoutExpire(states: seq<Machine>, actions: seq<Action>, window: int, n: nat)
    requires IsRun(states, actions, window) && SendsNoExpire(states, actions) && n < |states|
    ensures states[n].cell.Some? ==> states[n].cell.value.deadline.None?
    decreases n
  {
    if n > 0 {
      NoDeadlineWithoutExpire(states, actions, window, n - 1);
      assert states[n] == Do(states[n - 1], actions[n - 1], window);
    }
  }

  /** With EXPIRE set aside the bound needs no condition on the key. */
  lemma InterleavedBoundWithoutExpire(states: seq<Machine>, actions: seq<Action>, limit: int, window: int, from: int)
    requires IsRun(states, actions, window) && SendsNoExpire(states, actions)
    requires from % MILLISECOND == 0 && DistinctStamps(states[|actions|])
    ensures |AdmittedRequests(states[|actions|], limit, window, from)| <= Max(limit, 0)
  {
    forall i | 0 <= i < |states| ensures KeySurvives(states[i], window, from) {
      NoDeadlineWithoutExpire(states, actions, window, i);
    }
    InterleavedBound(states, actions, limit, window, from);
  }

  // ---- When the key is lost ------------------------------------------------------------------------

  /** The run ends in this machine. */
  ghost predicate Reaches(states: seq<Machine>, actions: seq<Action>, window: int, m: Machine) {
    IsRun(states, actions, window) && states[|actions|] == m
  }

  lemma Play(states: seq<Machine>, actions: seq<Action>, window: int, m: Machine, a: Action)
    returns (states': seq<Machine>, actions': seq<Action>, m': Machine)
    requires Reaches(states, actions, window, m) && Enabled(m, a)
    ensures m' == Do(m, a, window) && Reaches(states', actions', window, m')
  {
    m' := Do(m, a, window);
    states', actions' := states + [m'], actions + [a];
  }

  const LATE := 900 * MILLISECOND

  /** One whole call at time 0, which leaves a key that dies at one second. */
  lemma OneWholeCall() returns (states: seq<Machine>, actions: seq<Action>)
    ensures
      var cell := Some(Entry(Members(map[0 := 0]), Some(SECOND)));
      Reaches(states, actions, SECOND, Machine(0, cell, map[0 := Request(0, Finished, 1, 0)]))
  {
    var m := Machine(0, None, map[]);
    states, actions := [m], [];
    states, actions, m := Play(states, actions, SECOND, m, Arrive(0));
    states, actions, m := Play(states, actions, SECOND, m, Advance(0));
    states, actions, m := Play(states, actions, SECOND, m, Advance(0));
    states, actions, m := Play(states, actions, SECOND, m, Advance(0));
    states, actions, m := Play(states, actions, SECOND, m, Advance(0));
  }

  /** A second call adds itself late in the window, and the key dies before it counts. */
  lemma LateCallCountsNothing() returns (states: seq<Machine>, actions: seq<Action>, m: Machine)
    ensures Reaches(states, actions, SECOND, m) && m.clock == SECOND && Live(m.cell, SECOND) == None
    ensures m.requests.Keys == {0, 1} && m.requests[0].stamp == 0 && m.requests[1] == Request(LATE, Expiring, 0, SECOND)
  {
    states, actions := OneWholeCall();
    m := states[|actions|];
    states, actions, m := Play(states, actions, SECOND, m, Tick(LATE));
    states, actions, m := Play(states, actions, SECOND, m, Arrive(1));
    states, actions, m := Play(states, actions, SECOND, m, Advance(1));
    states, actions, m := Play(states, actions, SECOND, m, Advance(1));
    states, actions, m := Play(states, actions, SECOND, m, Tick(SECOND));
    states, actions, m := Play(states, actions, SECOND, m, Advance(1));
  }

  /** Standing still is needed: with a limit of one, a clock that moves between a request's ZADD and its
    * ZCARD lets the key die and two requests of one window through, all else being as it should.
    */
  lemma LostKeyAdmitsTooMany() returns (states: seq<Machine>, actions: seq<Action>)
    ensures IsRun(states, actions, SECOND) && LATE % MILLISECOND == 0 && Covers(SECOND)
    ensures DistinctStamps(states[|actions|]) && |AdmittedRequests(states[|actions|], 1, SECOND, LATE)| == 2
    ensures !Prompt(states, actions)
  {
    var m;
    states, actions, m := LateCallCountsNothing();
    states, actions, m := Play(states, actions, SECOND, m, Arrive(2));
    states, actions, m := Play(states, actions, SECOND, m, Advance(2));
    states, actions, m := Play(states, actions, SECOND, m, Advance(2));
    states, actions, m := Play(states, actions, SECOND, m, Advance(2));
    assert m.requests[2] == Request(SECOND, Expiring, 1, SECOND);
    assert AdmittedInTime(m.requests[1], 1, SECOND, LATE) && AdmittedInTime(m.requests[2], 1, SECOND, LATE);
    assert AdmittedRequests(m, 1, SECOND, LATE) == {1, 2};
    if Prompt(states, actions) {
      InterleavedBoundWhenPrompt(states, actions, 1, SECOND, LATE);
    }
  }
}
