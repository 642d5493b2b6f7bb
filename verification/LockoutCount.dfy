/** The login lockout, call by call: the expiring counter is the length of the current streak of
  * wrong passwords in the log.
  */
module LockoutCount {
  import opened Base
  import opened Redis
  import opened Keyspace
  import opened Sessions
  import opened Users
  import opened Auth
  import opened Protocol

  /** When this address failed with a wrong password, since its last success. */
  function FailureTimes(log: seq<Event>, email: string): seq<int>
    decreases |log|
  {
    if log == [] then []
    else
      var e, before := log[|log| - 1], FailureTimes(log[..|log| - 1], email);
      if e.LoginFailed? && e.email == email then before + [e.at]
      else if e.LoggedIn? && e.email == email then []
      else before
  }

  /** Length of the last stretch of times less than one lockout window apart. */
  function Streak(times: seq<int>): nat
    decreases |times|
  {
    if times == [] then 0
    else
      var n := |times|;
      if n > 1 && times[n - 1] - times[n - 2] < LOGIN_LOCKOUT_WINDOW then Streak(times[..n - 1]) + 1 else 1
  }

  /** The streak is the longest suffix without a gap of a whole window. */
  lemma {:induction false} StreakIsLongest(times: seq<int>)
    ensures var n, k := |times|, Streak(times);
      && k <= n && (n > 0 ==> k > 0)
      && (forall i :: n - k < i < n ==> times[i] - times[i - 1] < LOGIN_LOCKOUT_WINDOW)
      && (k < n ==> times[n - k] - times[n - k - 1] >= LOGIN_LOCKOUT_WINDOW)
    decreases |times|
  {
    if |times| > 1 {
      StreakIsLongest(times[..|times| - 1]);
    }
  }

  /** Failures never a whole window apart all count. */
  lemma {:induction false} StreakOfCloseFailures(times: seq<int>)
    requires forall i :: 0 < i < |times| ==> times[i] - times[i - 1] < LOGIN_LOCKOUT_WINDOW
    ensures Streak(times) == |times|
    decreases |times|
  {
    if times != [] {
      StreakOfCloseFailures(times[..|times| - 1]);
    }
  }

  /** What the counter's key must hold, given the log. */
  function CounterCell(times: seq<int>): Cell {
    if times == [] then None
    else Some(Entry(Counter(Streak(times)), Some(times[|times| - 1] + LOGIN_LOCKOUT_WINDOW)))
  }

  ghost predicate Inv(w: World, email: string) {
    var times := FailureTimes(w.log, email);
    && At(w.db, Lockout(email)) == CounterCell(times)
    && Streak(times) <= LOCKOUT_THRESHOLD
    && (times != [] ==> times[|times| - 1] <= w.clock)
  }

  lemma CountFailureCell(db: Db, email: string, at: int)
    requires FailuresAt(db, email, at).Ok?
    ensures
      At(CountFailure(db, email, LOGIN_LOCKOUT_WINDOW, Up, at), Lockout(email))
      == Some(Entry(Counter(FailuresAt(db, email, at).value + 1), Some(at + LOGIN_LOCKOUT_WINDOW)))
  {
  }

  lemma FailuresFromLog(w: World, email: string, now: int)
    requires Inv(w, email)
    ensures
      var times := FailureTimes(w.log, email);
      FailuresAt(w.db, email, now)
      == Ok(if times != [] && now < times[|times| - 1] + LOGIN_LOCKOUT_WINDOW then Streak(times) else 0)
  {
  }

  lemma FailureTimesStep(log: seq<Event>, e: Event, email: string)
    ensures
      FailureTimes(log + [e], email)
      == if e.LoginFailed? && e.email == email then FailureTimes(log, email) + [e.at]
         else if e.LoggedIn? && e.email == email then []
         else FailureTimes(log, email)
  {
  }

  /** The three things that can happen to a counter and its log. */
  ghost predicate CounterStep(w: World, w': World, e: Event, email: string) {
    var c, c' := At(w.db, Lockout(email)), At(w'.db, Lockout(email));
    || (c' == c && !((e.LoginFailed? || e.LoggedIn?) && e.email == email))
    || (c' == None && e.LoggedIn? && e.email == email)
    || (&& e == LoginFailed(w'.clock, email)
        && !LockedOut(w.db, email, w'.clock) && FailuresAt(w.db, email, w'.clock).Ok?
        && c' == Some(Entry(
             Counter(FailuresAt(w.db, email, w'.clock).value + 1), Some(w'.clock + LOGIN_LOCKOUT_WINDOW))))
  }

  lemma CounterStepKeepsInv(w: World, w': World, e: Event, email: string)
    requires Inv(w, email) && w'.log == w.log + [e] && w.clock <= w'.clock && CounterStep(w, w', e, email)
    ensures Inv(w', email)
  {
    FailureTimesStep(w.log, e, email);
    FailuresFromLog(w, email, w'.clock);
    var times := FailureTimes(w.log, email);
    assert (times + [w'.clock])[..|times|] == times;
  }

  lemma LoginLeavesOthers(cfg: Config, w: World, at: int, call: Call, email: string)
    requires call.Login? && call.email != email
    ensures
      var w' := DoLogin(cfg, w, at, call);
      |w'.log| == |w.log| + 1 && CounterStep(w, w', w'.log[|w.log|], email)
  {
  }

  lemma LoginCounts(cfg: Config, w: World, at: int, call: Call)
    requires call.Login? && FailuresAt(w.db, call.email, at).Ok? && !LockedOut(w.db, call.email, at)
    ensures
      var w' := DoLogin(cfg, w, at, call);
      |w'.log| == |w.log| + 1 && CounterStep(w, w', w'.log[|w.log|], call.email)
  {
    CountFailureCell(w.db, call.email, at);
  }

  lemma LoginCounterStep(cfg: Config, w: World, at: int, call: Call, email: string)
    requires call.Login? && Inv(w, email)
    ensures
      var w' := Do(cfg, w, at, call);
      |w'.log| == |w.log| + 1 && CounterStep(w, w', w'.log[|w.log|], email)
  {
    FailuresFromLog(w, email, at);
    if call.email != email {
      LoginLeavesOthers(cfg, w, at, call, email);
    } else if LockedOut(w.db, email, at) {
      LockedLoginsChangeNothing(cfg, w, at, call);
    } else {
      LoginCounts(cfg, w, at, call);
    }
  }

  lemma OtherCounterStep(w: World, w': World, at: int, call: Call, email: string)
    requires !call.Login? && LogsOne(w, w', at, call) && Leaves(w, w', call, Lockout(email))
    ensures CounterStep(w, w', w'.log[|w.log|], email)
  {
  }

  lemma StepKeepsInv(cfg: Config, w: World, at: int, call: Call, email: string)
    requires Inv(w, email) && Enabled(w, at, call)
    ensures Inv(Do(cfg, w, at, call), email)
  {
    var w' := Do(cfg, w, at, call);
    CallFrame(cfg, w, at, call, Lockout(email));
    if call.Login? {
      LoginCounterStep(cfg, w, at, call, email);
    } else {
      OtherCounterStep(w, w', at, call, email);
    }
    assert w'.log == w.log + [w'.log[|w.log|]];
    CounterStepKeepsInv(w, w', w'.log[|w.log|], email);
  }

  lemma {:induction false} InvHolds(cfg: Config, worlds: seq<World>, requests: seq<Request>, n: nat, email: string)
    requires IsRun(cfg, worlds, requests) && n < |worlds|
    ensures Inv(worlds[n], email)
    decreases n
  {
    if n > 0 {
      InvHolds(cfg, worlds, requests, n - 1, email);
      StepKeepsInv(cfg, worlds[n - 1], requests[n - 1].at, requests[n - 1].call, email);
    }
  }

  /** In every run: the counter is the current streak of wrong passwords, up to one window after
    * the last of them; it never exceeds ten; and the address is locked exactly while it is ten.
    */
  lemma CounterIsStreak(cfg: Config, worlds: seq<World>, requests: seq<Request>, n: nat, email: string, now: int)
    requires IsRun(cfg, worlds, requests) && n < |worlds|
    ensures
      var times := FailureTimes(worlds[n].log, email);
      var recent := times != [] && now < times[|times| - 1] + 15 * MINUTE;
      && FailuresAt(worlds[n].db, email, now) == Ok(if recent then Streak(times) else 0)
      && Streak(times) <= 10
      && (LockedOut(worlds[n].db, email, now) <==> recent && Streak(times) == 10)
  {
    InvHolds(cfg, worlds, requests, n, email);
    FailuresFromLog(worlds[n], email, now);
  }

  /** When no two failures in a row are a whole window apart, the counter is their number. */
  lemma CloseFailuresAllCount(
    cfg: Config, worlds: seq<World>, requests: seq<Request>, n: nat, email: string, now: int)
    requires IsRun(cfg, worlds, requests) && n < |worlds|
    requires
      var times := FailureTimes(worlds[n].log, email);
      && (forall i :: 0 < i < |times| ==> times[i] - times[i - 1] < 15 * MINUTE)
      && (times != [] ==> now < times[|times| - 1] + 15 * MINUTE)
    ensures FailuresAt(worlds[n].db, email, now) == Ok(|FailureTimes(worlds[n].log, email)|)
    ensures |FailureTimes(worlds[n].log, email)| <= 10
  {
    CounterIsStreak(cfg, worlds, requests, n, email, now);
    StreakOfCloseFailures(FailureTimes(worlds[n].log, email));
  }

  /** While an address is locked its logins are refused, whatever the password, and change nothing:
    * neither keys nor rows nor signed tokens, so they do not prolong the lock.
    */
  lemma LockedLoginsChangeNothing(cfg: Config, w: World, at: int, call: Call)
    requires call.Login? && LockedOut(w.db, call.email, at)
    ensures
      var w' := Do(cfg, w, at, call);
      && w'.db == w.db && w'.rows == w.rows && w'.minted == w.minted
      && w'.log == w.log + [LoginRefused(at, call.email)]
  {
  }

  /** A login that meets no lock is not refused for one. */
  lemma UnlockedLoginsAreTried(cfg: Config, w: World, at: int, call: Call)
    requires call.Login? && !LockedOut(w.db, call.email, at)
    ensures var w' := Do(cfg, w, at, call); |w'.log| == |w.log| + 1 && !w'.log[|w.log|].LoginRefused?
  {
  }

  /** The lock ends exactly one window after the tenth failure: a login is refused before that
    * moment and is not refused from it on.
    */
  lemma LockEndsExactly(cfg: Config, worlds: seq<World>, requests: seq<Request>, n: nat, call: Call, now: int)
    requires IsRun(cfg, worlds, requests) && n < |worlds| && call.Login?
    requires Streak(FailureTimes(worlds[n].log, call.email)) == 10
    ensures
      var times := FailureTimes(worlds[n].log, call.email);
      var w' := Do(cfg, worlds[n], now, call);
      && times != [] && w'.log != []
      && (w'.log[|w'.log| - 1].LoginRefused? <==> now < times[|times| - 1] + 15 * MINUTE)
  {
    CounterIsStreak(cfg, worlds, requests, n, call.email, now);
    if LockedOut(worlds[n].db, call.email, now) {
      LockedLoginsChangeNothing(cfg, worlds[n], now, call);
    } else {
      UnlockedLoginsAreTried(cfg, worlds[n], now, call);
    }
  }
}
