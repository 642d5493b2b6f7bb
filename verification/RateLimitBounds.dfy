/** What the sliding window guarantees, read off the log. */
module RateLimitBounds {
  import opened Base
  import opened Redis
  import opened RateLimit

  function Max(a: int, b: int): int {
    if a > b then a else b
  }

  /** At most as many stamps as requests; exactly as many when no two share a nanosecond. */
  lemma {:induction false} StampCount(times: seq<int>, lo: nat, hi: nat)
    requires lo <= hi <= |times|
    ensures |set j | lo <= j < hi :: times[j]| <= hi - lo
    ensures Distinct(times) ==> |set j | lo <= j < hi :: times[j]| == hi - lo
    decreases hi
  {
    var stamps := set j | lo <= j < hi :: times[j];
    if lo == hi {
      assert stamps == {};
    } else {
      StampCount(times, lo, hi - 1);
      assert stamps == (set j | lo <= j < hi - 1 :: times[j]) + {times[hi - 1]};
    }
  }

  // ---- The sliding-window bound ------------------------------------------------------------------

  /** Which requests were admitted. */
  function Verdicts(times: seq<int>, limit: int, window: int): (admitted: seq<bool>)
  {
    seq(|times|, i requires 0 <= i < |times| => DecisionAt(times, i, limit, window, true).allowed)
  }

  /** The admitted requests in the half-open interval [from, upto), as positions in the log. */
  ghost function Admitted(times: seq<int>, admitted: seq<bool>, from: int, upto: int): set<int>
    requires |admitted| == |times|
  {
    set i | 0 <= i < |times| && admitted[i] && from <= times[i] < upto
  }

  /** Requests that share no nanosecond are as many as their stamps. */
  lemma RequestsAsStamps(times: seq<int>, requests: set<int>)
    requires Distinct(times) && forall i :: i in requests ==> 0 <= i < |times|
    ensures |set i | i in requests :: times[i]| == |requests|
  {
    var stamp := map i | 0 <= i < |times| :: times[i];
    InjectiveImage(requests, stamp);
    assert (set i | i in requests :: times[i]) == ImageOf(requests, stamp);
  }

  lemma {:induction false} Largest(indices: set<int>) returns (i: int)
    requires |indices| > 0
    ensures i in indices && forall j :: j in indices ==> j <= i
    decreases |indices|
  {
    var some := Pick(indices);
    var others := indices - {some};
    i := some;
    if |others| > 0 {
      var k := Largest(others);
      i := if k > some then k else some;
    }
    forall j | j in indices ensures j <= i {
      assert j == some || j in others;
    }
  }

  /** A request admitted in [from, from + window) has in its window every earlier one logged since `from`. */
  lemma WindowReachesBack(times: seq<int>, i: nat, j: nat, window: int, from: int)
    requires Clocked(times) && j <= i < |times|
    requires from % MILLISECOND == 0 && from <= times[j] && times[i] < from + window
    ensures times[j] in Window(times, i, window)
  {
  }

  lemma CountsBoundAdmissions(times: seq<int>, admitted: seq<bool>, limit: int, window: int, from: int)
    requires Clocked(times) && Distinct(times) && |admitted| == |times| && from % MILLISECOND == 0
    requires forall i :: 0 <= i < |times| && admitted[i] ==> |Window(times, i, window)| <= limit
    ensures |Admitted(times, admitted, from, from + window)| <= Max(limit, 0)
  {
    var requests := Admitted(times, admitted, from, from + window);
    if |requests| > 0 {
      var i := Largest(requests);
      var stamps := set j | j in requests :: times[j];
      forall b | b in stamps ensures b in Window(times, i, window) {
        var j :| j in requests && times[j] == b;
        WindowReachesBack(times, i, j, window, from);
      }
      SubsetCardinality(stamps, Window(times, i, window));
      RequestsAsStamps(times, requests);
    }
  }

  /** Every interval of one window that begins on a whole millisecond admits at most `limit` requests. */
  lemma SlidingWindowBound(times: seq<int>, limit: int, window: int, from: int)
    requires Clocked(times) && Distinct(times) && Covers(window) && from % MILLISECOND == 0
    ensures |Admitted(times, Verdicts(times, limit, window), from, from + window)| <= Max(limit, 0)
  {
    forall i | 0 <= i < |times| && Verdicts(times, limit, window)[i] ensures |Window(times, i, window)| <= limit {
      DecisionIsLogCount(times, i, limit, window, true);
    }
    CountsBoundAdmissions(times, Verdicts(times, limit, window), limit, window, from);
  }

  /** In nanoseconds, from any instant: a closed interval one millisecond short of the window. */
  lemma ClosedIntervalBound(times: seq<int>, limit: int, window: int, from: int)
    requires Clocked(times) && Distinct(times) && Covers(window)
    ensures |Admitted(times, Verdicts(times, limit, window), from, from + window - MILLISECOND + 1)| <= Max(limit, 0)
  {
    var aligned := from / MILLISECOND * MILLISECOND;
    var admitted := Verdicts(times, limit, window);
    SlidingWindowBound(times, limit, window, aligned);
    SubsetCardinality(
      Admitted(times, admitted, from, from + window - MILLISECOND + 1),
      Admitted(times, admitted, aligned, aligned + window));
  }

  /** Without distinct stamps there is no bound: requests in one nanosecond are one member of the set,
    * so that any number of them is admitted under a limit of one.
    */
  lemma SharedNanosecondsAreFree(times: seq<int>, window: int)
    requires Covers(window) && window > 0 && forall i :: 0 <= i < |times| ==> times[i] == 0
    ensures Clocked(times) && |Admitted(times, Verdicts(times, 1, window), 0, window)| == |times|
  {
    forall i | 0 <= i < |times| ensures Verdicts(times, 1, window)[i] {
      assert Window(times, i, window) <= {0};
      SubsetCardinality(Window(times, i, window), {0});
      DecisionIsLogCount(times, i, 1, window, true);
    }
    AllAreAdmitted(times, Verdicts(times, 1, window), 0, window);
  }

  function Positions(n: nat): set<int> {
    if n == 0 then {} else Positions(n - 1) + {n - 1}
  }

  lemma {:induction false} PositionsUpTo(n: nat)
    ensures |Positions(n)| == n && forall i :: i in Positions(n) <==> 0 <= i < n
  {
    if n > 0 {
      PositionsUpTo(n - 1);
    }
  }

  /** `limit` requests packed behind the last nanosecond of a millisecond, and one a whole window later. */
  function Packed(limit: int, window: int): (times: seq<int>)
    requires limit >= 1
    ensures |times| == limit + 1
  {
    seq(limit, i requires 0 <= i < limit => MILLISECOND - 1 + i) + [window]
  }

  lemma PackedInOrder(limit: int, window: int)
    requires 1 <= limit <= window - MILLISECOND + 1
    ensures
      var times := Packed(limit, window);
      && Clocked(times) && Distinct(times)
      && forall i :: 0 <= i <= limit ==> MILLISECOND - 1 <= times[i] <= window
  {
  }

  lemma PackedIsAdmitted(limit: int, window: int, i: nat)
    requires Covers(window) && window % MILLISECOND == 0 && 1 <= limit <= window - MILLISECOND + 1 && i <= limit
    ensures DecisionAt(Packed(limit, window), i, limit, window, true).allowed
  {
    var times := Packed(limit, window);
    PackedInOrder(limit, window);
    DecisionIsLogCount(times, i, limit, window, true);
    // The last request finds the first one pruned.
    var first := if i < limit then 0 else 1;
    assert UnixMilli(times[0]) == 0 == UnixMilli(window - window);
    StampCount(times, first, i + 1);
    SubsetCardinality(Window(times, i, window), set j | first <= j < i + 1 :: times[j]);
  }

  lemma PackedVerdicts(limit: int, window: int)
    requires Covers(window) && window % MILLISECOND == 0 && 1 <= limit <= window - MILLISECOND + 1
    ensures forall i :: 0 <= i <= limit ==> Verdicts(Packed(limit, window), limit, window)[i]
  {
    forall i | 0 <= i <= limit ensures Verdicts(Packed(limit, window), limit, window)[i] {
      PackedIsAdmitted(limit, window, i);
    }
  }

  /** One nanosecond more is too much: for every window of whole milliseconds that EXPIRE covers and
    * every limit that fits into it, limit + 1 requests are admitted in a closed interval of length
    * window - 1ms + 1ns.
    */
  lemma RoundingIsTight(limit: int, window: int) returns (times: seq<int>, from: int, upto: int)
    requires Covers(window) && window % MILLISECOND == 0 && 1 <= limit <= window - MILLISECOND + 1
    ensures Clocked(times) && Distinct(times) && upto == from + window - MILLISECOND + 2
    ensures |Admitted(times, Verdicts(times, limit, window), from, upto)| == limit + 1
  {
    times, from, upto := Packed(limit, window), MILLISECOND - 1, window + 1;
    PackedInOrder(limit, window);
    PackedVerdicts(limit, window);
    AllAreAdmitted(times, Verdicts(times, limit, window), from, upto);
  }

  lemma AllAreAdmitted(times: seq<int>, admitted: seq<bool>, from: int, upto: int)
    requires |admitted| == |times|
    requires forall i :: 0 <= i < |times| ==> admitted[i] && from <= times[i] < upto
    ensures |Admitted(times, admitted, from, upto)| == |times|
  {
    PositionsUpTo(|times|);
    assert Admitted(times, admitted, from, upto) == Positions(|times|);
  }

  /** A request aged one window or more is never counted against a later one. */
  lemma OldRequestsAreNotCounted(times: seq<int>, i: nat, j: nat, window: int)
    requires Distinct(times) && j < i < |times| && times[j] <= times[i] - window
    ensures times[j] !in Window(times, i, window)
  {
  }

  // ---- Key expiry ------------------------------------------------------------------------------------

  /** EXPIRE changes no answer. */
  ghost predicate ExpiryInvisible(window: int) {
    forall times: seq<int>, i: nat, limit: int :: Clocked(times) && i < |times| ==>
      DecisionAt(times, i, limit, window, true) == DecisionAt(times, i, limit, window, false)
  }

  lemma FirstRequest(window: int)
    requires window >= SECOND
    ensures CellAfter([0], window, true) == Some(Entry(Members(map[0 := 0]), Some(ExpireSeconds(window) * SECOND)))
  {
  }

  lemma AloneIsAdmitted(c: Cell, window: int, now: int)
    requires Live(c, now).None?
    ensures LimitDecision(c, 1, window, Up, now).allowed
  {
  }

  /** A window of k whole seconds and a bit: the key is gone before its members are. */
  lemma EarlyExpiryShows(window: int)
    requires !Covers(window)
    ensures
      var times := [0, ExpireSeconds(window) * SECOND];
      && Clocked(times)
      && DecisionAt(times, 1, 1, window, true).allowed && !DecisionAt(times, 1, 1, window, false).allowed
  {
    CoversExactly(window);
    var times := [0, ExpireSeconds(window) * SECOND];
    assert times[..1] == [0];
    FirstRequest(window);
    AloneIsAdmitted(CellAfter([0], window, true), window, times[1]);
    DecisionIsLogCount(times, 1, 1, window, false);
    assert UnixMilli(times[1] - window) < 0 == UnixMilli(times[0]);
    assert Window(times, 1, window) == {times[0], times[1]};
  }

  /** EXPIRE is invisible exactly for windows below a second or of whole seconds. */
  lemma ExpiryInvisibleIff(window: int)
    ensures ExpiryInvisible(window) <==> window < SECOND || window % SECOND == 0
  {
    CoversExactly(window);
    if Covers(window) {
      forall times: seq<int>, i: nat, limit: int | Clocked(times) && i < |times|
        ensures DecisionAt(times, i, limit, window, true) == DecisionAt(times, i, limit, window, false)
      {
        DecisionIsLogCount(times, i, limit, window, true);
        DecisionIsLogCount(times, i, limit, window, false);
      }
    } else {
      EarlyExpiryShows(window);
      var times := [0, ExpireSeconds(window) * SECOND];
      assert DecisionAt(times, 1, 1, window, true) != DecisionAt(times, 1, 1, window, false);
    }
  }

  ghost predicate BoundedFrom(times: seq<int>, limit: int, window: int, from: int) {
    |Admitted(times, Verdicts(times, limit, window), from, from + window)| <= Max(limit, 0)
  }

  /** The sliding-window bound holds in all runs exactly for the windows whose keys live long enough. */
  lemma SlidingWindowBoundIff(window: int)
    ensures
      (forall times: seq<int>, limit: int, from: int ::
        Clocked(times) && Distinct(times) && from % MILLISECOND == 0 ==> BoundedFrom(times, limit, window, from))
      <==> window < SECOND || window % SECOND == 0
  {
    CoversExactly(window);
    if Covers(window) {
      forall times: seq<int>, limit: int, from: int | Clocked(times) && Distinct(times) && from % MILLISECOND == 0
        ensures BoundedFrom(times, limit, window, from)
      {
        SlidingWindowBound(times, limit, window, from);
      }
    } else {
      var times := [0, ExpireSeconds(window) * SECOND];
      EarlyExpiryShows(window);
      AloneIsAdmitted(CellAfter(times[..0], window, true), window, 0);
      var verdicts := Verdicts(times, 1, window);
      assert verdicts[0] && verdicts[1];
      assert Admitted(times, verdicts, 0, 0 + window) == {0, 1};
      assert !BoundedFrom(times, 1, window, 0);
    }
  }

  // ---- Recovery ----------------------------------------------------------------------------------------

  lemma SilenceEmptiesWindow(times: seq<int>, i: nat, k: nat, window: int)
    requires Clocked(times) && i + k < |times|
    requires i > 0 ==> times[i] - times[i - 1] >= window
    ensures Window(times, i + k, window) <= set j | i <= j < i + k + 1 :: times[j]
  {
  }

  /** After a silence of one window the next `limit` requests are admitted, whatever came before. */
  lemma SilenceRecovers(times: seq<int>, i: nat, k: nat, limit: int, window: int)
    requires Clocked(times) && Covers(window) && i + k < |times|
    requires i > 0 ==> times[i] - times[i - 1] >= window
    requires k < limit
    ensures DecisionAt(times, i + k, limit, window, true).allowed
  {
    SilenceEmptiesWindow(times, i, k, window);
    StampCount(times, i, i + k + 1);
    SubsetCardinality(Window(times, i + k, window), set j | i <= j < i + k + 1 :: times[j]);
    DecisionIsLogCount(times, i + k, limit, window, true);
  }

  /** Denied requests count too: while more than `limit` lie in the window nothing is admitted. */
  lemma HammeringNeverRecovers(times: seq<int>, i: nat, first: nat, limit: int, window: int)
    requires Clocked(times) && Distinct(times) && Covers(window) && first <= i < |times| && i - first >= limit
    requires UnixMilli(times[first]) > UnixMilli(times[i] - window)
    ensures !DecisionAt(times, i, limit, window, true).allowed
  {
    var recent := set j | first <= j < i + 1 :: times[j];
    forall j | first <= j < i + 1 ensures times[j] in Window(times, i, window) {
      UnixMilliMonotone(times[first], times[j]);
    }
    StampCount(times, first, i + 1);
    SubsetCardinality(recent, Window(times, i, window));
    DecisionIsLogCount(times, i, limit, window, true);
  }

  // ---- Failing round trips -------------------------------------------------------------------------------

  /** The sorted set when round trip i of request i went as nets[i] tells. */
  function CellAfterFaults(times: seq<int>, nets: seq<Net>, window: int): Cell
    requires |nets| == |times|
    decreases |times|
  {
    if times == [] then None
    else
      var last := |times| - 1;
      LimitCell(CellAfterFaults(times[..last], nets[..last], window), window, nets[last], times[last])
  }

  /** Whatever was lost, the set only ever holds requests that arrived, under their own stamps. */
  ghost predicate OnlyArrivals(c: Cell, times: seq<int>) {
    c.Some? ==>
      && c.value.value.Members?
      && forall a :: a in c.value.value.z ==> a in times && c.value.value.z[a] == UnixMilli(a)
  }

  lemma CountedKeepsArrivals(c: Cell, times: seq<int>, window: int, net: Net, now: int)
    requires OnlyArrivals(c, times)
    ensures OnlyArrivals(CountedCell(c, window, net, now), times + [now])
  {
  }

  lemma {:induction false} FaultyCellHoldsArrivals(times: seq<int>, nets: seq<Net>, window: int)
    requires |nets| == |times|
    ensures OnlyArrivals(CellAfterFaults(times, nets, window), times)
    decreases |times|
  {
    if times != [] {
      var last := |times| - 1;
      FaultyCellHoldsArrivals(times[..last], nets[..last], window);
      var before := CellAfterFaults(times[..last], nets[..last], window);
      CountedKeepsArrivals(before, times[..last], window, nets[last], times[last]);
      assert times[..last] + [times[last]] == times;
    }
  }

  /** Whichever round trips failed, wholly or partly, a denied request really had more than `limit`
    * requests in its window, itself included.
    */
  lemma FailuresOnlyLoosen(times: seq<int>, nets: seq<Net>, i: nat, limit: int, window: int)
    requires Clocked(times) && |nets| == |times| && i < |times|
    requires !LimitDecision(CellAfterFaults(times[..i], nets[..i], window), limit, window, nets[i], times[i]).allowed
    ensures |Window(times, i, window)| > limit
  {
    var c, now := CellAfterFaults(times[..i], nets[..i], window), times[i];
    FaultyCellHoldsArrivals(times[..i], nets[..i], window);
    PruneThenAdd(c, window, now);
    var kept := WithoutScores(LiveMembers(c, now), 0, UnixMilli(now - window));
    var counted := kept[now := UnixMilli(now)];
    forall a | a in counted ensures a in Window(times, i, window) {
      if a != now {
        assert a in times[..i];
        var j :| 0 <= j < i && times[..i][j] == a;
        assert 0 <= UnixMilli(times[j]);
      }
    }
    SubsetCardinality(counted.Keys, Window(times, i, window));
  }
}
