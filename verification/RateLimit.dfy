/** The sliding-window limiter on one sorted set (rateLimitByKey), each call taken as one step.
  * Its reference is the log of requests: CellIsLog and DecisionIsLogCount show that the sorted
  * set carries exactly the log's window, and everything else is read off the log.
  */
module RateLimit {
  import opened Base
  import opened Redis

  datatype Decision = Decision(allowed: bool, remaining: int, resetAt: int)

  /** Everything scored 0 up to and including the start of the window. */
  function PruneOp(now: int, window: int): Op {
    ZRemRangeByScore(0, UnixMilli(now - window))
  }

  function AddOp(now: int): Op {
    ZAdd(UnixMilli(now), now)
  }

  /** The sorted set at the moment it is counted. */
  function CountedCell(c: Cell, window: int, net: Net, now: int): Cell {
    StepIf(net, 1, AddOp(now), StepIf(net, 0, PruneOp(now, window), c, now), now)
  }

  function LimitCell(c: Cell, window: int, net: Net, now: int): Cell {
    StepIf(net, 3, Expire(window), CountedCell(c, window, net, now), now)
  }

  function LimitDecision(c: Cell, limit: int, window: int, net: Net, now: int): Decision {
    var reply := Step(ZCard, CountedCell(c, window, net, now), now).1;
    if net.Down? || !reply.Number? then Decision(true, limit, now + window)
    else if reply.n > limit then Decision(false, 0, now + window)
    else Decision(true, limit - reply.n, now + window)
  }

  // ---- Runs --------------------------------------------------------------------------------

  /** The sorted set after requests at these times, EXPIRE sent or left out. */
  function CellAfter(times: seq<int>, window: int, expires: bool): Cell
    decreases |times|
  {
    if times == [] then None
    else
      var now := times[|times| - 1];
      var before := CellAfter(times[..|times| - 1], window, expires);
      if expires then LimitCell(before, window, Up, now) else CountedCell(before, window, Up, now)
  }

  function DecisionAt(times: seq<int>, i: nat, limit: int, window: int, expires: bool): Decision
    requires i < |times|
  {
    LimitDecision(CellAfter(times[..i], window, expires), limit, window, Up, times[i])
  }

  ghost predicate Clocked(times: seq<int>) {
    Ordered(times) && forall i :: 0 <= i < |times| ==> 0 <= times[i]
  }

  ghost predicate Distinct(times: seq<int>) {
    forall i, j :: 0 <= i < j < |times| ==> times[i] != times[j]
  }

  // ---- The log --------------------------------------------------------------------------------

  /** Logged requests younger than the window when request i arrives, and request i itself. */
  ghost function Window(times: seq<int>, i: nat, window: int): set<int>
    requires i < |times|
  {
    set j | 0 <= j <= i && (j == i || UnixMilli(times[j]) > UnixMilli(times[i] - window)) :: times[j]
  }

  ghost function Stamped(stamps: set<int>): map<int, int> {
    map a | a in stamps :: UnixMilli(a)
  }

  /** The whole seconds given to EXPIRE last at least as long as the window. */
  predicate Covers(window: int) {
    ExpireSeconds(window) * SECOND >= window
  }

  lemma CoversExactly(window: int)
    ensures Covers(window) <==> window < SECOND || window % SECOND == 0
  {
  }

  /** What the sorted set must hold after the last request of the log. */
  ghost function LogCell(times: seq<int>, window: int, expires: bool): Cell
    requires |times| > 0
  {
    var last := |times| - 1;
    if expires && ExpireSeconds(window) <= 0 then None
    else Some(Entry(
      Members(Stamped(Window(times, last, window))),
      if expires then Some(times[last] + ExpireSeconds(window) * SECOND) else None))
  }

  lemma UnixMilliMonotone(a: int, b: int)
    requires a <= b
    ensures UnixMilli(a) <= UnixMilli(b)
  {
  }

  /** Requests before the last one that are still in the window when request i arrives. */
  ghost function Survivors(times: seq<int>, i: nat, window: int): set<int>
    requires i < |times|
  {
    set j | 0 <= j < i && UnixMilli(times[j]) > UnixMilli(times[i] - window) :: times[j]
  }

  /** Pruning what the log held at request i - 1 leaves the survivors at request i. */
  lemma PruneLeavesSurvivors(times: seq<int>, i: nat, window: int)
    requires Clocked(times) && 0 < i < |times|
    ensures
      WithoutScores(Stamped(Window(times, i - 1, window)), 0, UnixMilli(times[i] - window))
      == Stamped(Survivors(times, i, window))
  {
  }

  /** Once the key's deadline has passed nothing could have survived. */
  lemma ExpiredMeansNoSurvivors(times: seq<int>, i: nat, window: int)
    requires Clocked(times) && 0 < i < |times| && times[i - 1] + window <= times[i]
    ensures Survivors(times, i, window) == {}
  {
  }

  function LiveMembers(c: Cell, now: int): map<int, int> {
    if Live(c, now).Some? && c.value.value.Members? then c.value.value.z else map[]
  }

  /** Pruning and adding, spelled out for a key that holds a sorted set or nothing. */
  lemma PruneThenAdd(c: Cell, window: int, now: int)
    requires Live(c, now).Some? ==> c.value.value.Members?
    ensures
      var kept := WithoutScores(LiveMembers(c, now), 0, UnixMilli(now - window));
      CountedCell(c, window, Up, now)
      == Some(Entry(Members(kept[now := UnixMilli(now)]), if kept == map[] then None else c.value.deadline))
  {
  }

  /** What pruning leaves of the log's cell at request i are the survivors, expired or not. */
  lemma LogCellPruned(times: seq<int>, i: nat, window: int, expires: bool)
    requires Clocked(times) && 0 < i < |times| && (expires ==> Covers(window))
    ensures
      WithoutScores(LiveMembers(LogCell(times[..i], window, expires), times[i]), 0, UnixMilli(times[i] - window))
      == Stamped(Survivors(times, i, window))
  {
    assert Window(times[..i], i - 1, window) == Window(times, i - 1, window);
    PruneLeavesSurvivors(times, i, window);
    if Live(LogCell(times[..i], window, expires), times[i]).None? {
      ExpiredMeansNoSurvivors(times, i, window);
    }
  }

  lemma CountedFromSurvivors(c: Cell, times: seq<int>, i: nat, window: int)
    requires i < |times|
    requires Live(c, times[i]).Some? ==> c.value.value.Members?
    requires
      WithoutScores(LiveMembers(c, times[i]), 0, UnixMilli(times[i] - window)) == Stamped(Survivors(times, i, window))
    ensures CountedCell(c, window, Up, times[i]).Some?
    ensures
      var e := CountedCell(c, window, Up, times[i]).value;
      && e.value == Members(Stamped(Window(times, i, window)))
      && (e.deadline.None? || (Live(c, times[i]).Some? && e.deadline == c.value.deadline))
  {
  }

  /** The cell that request i counts, when the cell before it is the log's. */
  lemma CountedIsWindow(times: seq<int>, i: nat, window: int, expires: bool)
    requires Clocked(times) && i < |times| && (expires ==> Covers(window))
    requires i > 0 ==> CellAfter(times[..i], window, expires) == LogCell(times[..i], window, expires)
    ensures CountedCell(CellAfter(times[..i], window, expires), window, Up, times[i]).Some?
    ensures
      var e := CountedCell(CellAfter(times[..i], window, expires), window, Up, times[i]).value;
      && e.value == Members(Stamped(Window(times, i, window)))
      && Alive(e, times[i]) && (!expires ==> e.deadline.None?)
  {
    if i > 0 {
      LogCellPruned(times, i, window, expires);
    } else {
      assert Survivors(times, i, window) == {};
    }
    CountedFromSurvivors(CellAfter(times[..i], window, expires), times, i, window);
  }

  /** The sorted set is exactly the log's current window, admitted and denied requests alike. */
  lemma {:induction false} CellIsLog(times: seq<int>, window: int, expires: bool)
    requires Clocked(times) && |times| > 0 && (expires ==> Covers(window))
    ensures CellAfter(times, window, expires) == LogCell(times, window, expires)
    decreases |times|
  {
    var last := |times| - 1;
    if last > 0 {
      CellIsLog(times[..last], window, expires);
    }
    CountedIsWindow(times, last, window, expires);
  }

  lemma DecisionFromMembers(c: Cell, limit: int, window: int, now: int, stamps: set<int>)
    requires
      var counted := CountedCell(c, window, Up, now);
      counted.Some? && counted.value.value == Members(Stamped(stamps)) && Alive(counted.value, now)
    ensures
      LimitDecision(c, limit, window, Up, now)
      == if |stamps| > limit then Decision(false, 0, now + window) else Decision(true, limit - |stamps|, now + window)
  {
    assert Stamped(stamps).Keys == stamps;
  }

  /** A request is admitted iff the window, itself included, holds at most `limit` requests, and
    * what remains is the difference.
    */
  lemma DecisionIsLogCount(times: seq<int>, i: nat, limit: int, window: int, expires: bool)
    requires Clocked(times) && i < |times| && (expires ==> Covers(window))
    ensures
      var d := DecisionAt(times, i, limit, window, expires);
      var count := |Window(times, i, window)|;
      && (d.allowed <==> count <= limit)
      && d.remaining == (if count <= limit then limit - count else 0)
      && d.resetAt == times[i] + window
  {
    if i > 0 {
      CellIsLog(times[..i], window, expires);
    }
    CountedIsWindow(times, i, window, expires);
    DecisionFromMembers(CellAfter(times[..i], window, expires), limit, window, times[i], Window(times, i, window));
  }
}
