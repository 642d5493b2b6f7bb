/** The bound on the failure counter is attained: with k logins in flight it can reach 9 + k. */
module LockoutOvershoot {
  import opened Base
  import opened Redis
  import opened Keyspace
  import opened Sessions
  import opened Auth
  import opened AuthInterleaved

  const E := "e"

  /** At no time more than k logins are in flight. */
  ghost predicate AtMost(states: seq<System>, k: nat) {
    forall i :: 0 <= i < |states| ==> |InFlightFor(states[i], E)| <= k
  }

  /** Logins 0 to ended - 1 are over, those up to counted - 1 have counted their failure, and those up to
    * total - 1 are past the lock check; the counter stands at `count`.
    */
  ghost predicate Shape(s: System, ended: nat, counted: nat, total: nat, count: nat, deadline: Option<int>) {
    && ended <= counted <= total && s.clock == 0 && s.drawn == {}
    && (forall pid: nat :: pid in s.tasks <==> pid < total)
    && (forall pid :: 0 <= pid < total ==>
          s.tasks[pid]
          == LoginTask(E, if pid < ended then LoginEnded else if pid < counted then ArmExpiry else FindUser))
    && At(s.db, Lockout(E)) == (if count == 0 then None else Some(Entry(Counter(count), deadline)))
    && (deadline == None || deadline == ARMED)
  }

  function Range(lo: nat, hi: nat): set<nat>
    requires lo <= hi
    decreases hi
  {
    if lo == hi then {} else Range(lo, hi - 1) + {hi - 1}
  }

  lemma {:induction false} RangeCount(lo: nat, hi: nat)
    requires lo <= hi
    ensures |Range(lo, hi)| == hi - lo && forall i: nat :: i in Range(lo, hi) <==> lo <= i < hi
    decreases hi
  {
    if lo < hi {
      RangeCount(lo, hi - 1);
    }
  }

  lemma FewInFlight(s: System, lo: nat, hi: nat)
    requires lo <= hi && forall pid :: pid in s.tasks && InFlight(s.tasks[pid], E) ==> lo <= pid < hi
    ensures |InFlightFor(s, E)| <= hi - lo
  {
    RangeCount(lo, hi);
    SubsetCardinality(InFlightFor(s, E), Range(lo, hi));
  }

  /** One more action, after which only logins lo to hi - 1 are in flight. */
  lemma PlayOn(
    cfg: JwtConfig, states: seq<System>, actions: seq<Action>, s: System, a: Action, lo: nat, hi: nat, k: nat)
    returns (states': seq<System>, actions': seq<Action>, s': System)
    requires Reaches(cfg, states, actions, s) && Enabled(s, a) && AtMost(states, k)
    requires lo <= hi <= lo + k
    requires forall pid :: pid in Do(cfg, s, a).tasks && InFlight(Do(cfg, s, a).tasks[pid], E) ==> lo <= pid < hi
    ensures s' == Do(cfg, s, a) && Reaches(cfg, states', actions', s') && AtMost(states', k)
  {
    s' := Do(cfg, s, a);
    FewInFlight(s', lo, hi);
    states', actions' := states + [s'], actions + [a];
  }

  const ARMED := Some(LOGIN_LOCKOUT_WINDOW)
  const NO := Choice(Wrong, SOMEONE, "unused")

  /** One more login passes the lock check. */
  lemma PassCheck(
    cfg: JwtConfig, states: seq<System>, actions: seq<Action>, s: System, e: nat, c: nat, t: nat, n: nat,
    d: Option<int>, k: nat)
    returns (states': seq<System>, actions': seq<Action>, s': System)
    requires Reaches(cfg, states, actions, s) && AtMost(states, k) && Shape(s, e, c, t, n, d)
    requires t < e + k && n < LOCKOUT_THRESHOLD
    ensures Reaches(cfg, states', actions', s') && AtMost(states', k) && Shape(s', e, c, t + 1, n, d)
  {
    states', actions', s' := PlayOn(cfg, states, actions, s, Begin(t, LoginTask(E, CheckLock)), e, t + 1, k);
    states', actions', s' := PlayOn(cfg, states', actions', s', Advance(t, NO), e, t + 1, k);
  }

  /** One more login past the lock check counts its failure. */
  lemma CountOne(
    cfg: JwtConfig, states: seq<System>, actions: seq<Action>, s: System, e: nat, c: nat, t: nat, n: nat,
    d: Option<int>, k: nat)
    returns (states': seq<System>, actions': seq<Action>, s': System)
    requires Reaches(cfg, states, actions, s) && AtMost(states, k) && Shape(s, e, c, t, n, d)
    requires t <= e + k && c < t
    ensures Reaches(cfg, states', actions', s') && AtMost(states', k)
    ensures Shape(s', e, c + 1, t, n + 1, if n == 0 then None else d)
  {
    states', actions', s' := PlayOn(cfg, states, actions, s, Advance(c, NO), e, t, k);
    states', actions', s' := PlayOn(cfg, states', actions', s', Advance(c, NO), e, t, k);
  }

  /** One login that has counted its failure sends EXPIRE and is over. */
  lemma ArmOne(
    cfg: JwtConfig, states: seq<System>, actions: seq<Action>, s: System, e: nat, c: nat, t: nat, n: nat,
    d: Option<int>, k: nat)
    returns (states': seq<System>, actions': seq<Action>, s': System)
    requires Reaches(cfg, states, actions, s) && AtMost(states, k) && Shape(s, e, c, t, n, d)
    requires t <= e + k && e < c && n > 0
    ensures Reaches(cfg, states', actions', s') && AtMost(states', k) && Shape(s', e + 1, c, t, n, ARMED)
  {
    states', actions', s' := PlayOn(cfg, states, actions, s, Advance(e, NO), e, t, k);
  }

  /** m logins that fail one after the other. */
  lemma {:induction false} FailuresInTurn(cfg: JwtConfig, m: nat, k: nat)
    returns (states: seq<System>, actions: seq<Action>, s: System)
    requires m < LOCKOUT_THRESHOLD && k >= 1
    ensures Reaches(cfg, states, actions, s) && AtMost(states, k) && Shape(s, m, m, m, m, ARMED)
  {
    if m == 0 {
      s := System(0, map[], map[], {}, {}, {});
      assert InFlightFor(s, E) == {};
      states, actions := [s], [];
    } else {
      var b := m - 1;
      states, actions, s := FailuresInTurn(cfg, b, k);
      states, actions, s := PassCheck(cfg, states, actions, s, b, b, b, b, ARMED, k);
      states, actions, s := CountOne(cfg, states, actions, s, b, b, m, b, ARMED, k);
      states, actions, s := ArmOne(cfg, states, actions, s, b, m, m, m, if b == 0 then None else ARMED, k);
    }
  }

  /** After nine failures j logins pass the lock check. */
  lemma {:induction false} ManyPassCheck(cfg: JwtConfig, j: nat, k: nat)
    returns (states: seq<System>, actions: seq<Action>, s: System)
    requires j <= k && k >= 1
    ensures Reaches(cfg, states, actions, s) && AtMost(states, k) && Shape(s, 9, 9, 9 + j, 9, ARMED)
    decreases j
  {
    if j == 0 {
      states, actions, s := FailuresInTurn(cfg, 9, k);
    } else {
      states, actions, s := ManyPassCheck(cfg, j - 1, k);
      states, actions, s := PassCheck(cfg, states, actions, s, 9, 9, 9 + j - 1, 9, ARMED, k);
    }
  }

  /** Then i of them fail. */
  lemma {:induction false} ManyFail(cfg: JwtConfig, i: nat, k: nat)
    returns (states: seq<System>, actions: seq<Action>, s: System)
    requires i <= k && k >= 1
    ensures Reaches(cfg, states, actions, s) && AtMost(states, k) && Shape(s, 9, 9 + i, 9 + k, 9 + i, ARMED)
    decreases i
  {
    if i == 0 {
      states, actions, s := ManyPassCheck(cfg, k, k);
    } else {
      states, actions, s := ManyFail(cfg, i - 1, k);
      states, actions, s := CountOne(cfg, states, actions, s, 9, 9 + i - 1, 9 + k, 9 + i - 1, ARMED, k);
    }
  }

  /** For every k there is a run with at most k logins in flight whose counter reaches 9 + k. */
  lemma OvershootIsAttained(cfg: JwtConfig, k: nat) returns (states: seq<System>, actions: seq<Action>)
    requires k >= 1
    ensures IsRun(cfg, states, actions) && forall i :: 0 <= i < |states| ==> |InFlightFor(states[i], E)| <= k
    ensures Count(states[|actions|].db, E, states[|actions|].clock) == 9 + k
  {
    var s;
    states, actions, s := ManyFail(cfg, k, k);
  }
}
