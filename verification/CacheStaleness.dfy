/** How old a cached user can be when the table changes under a read, or when an invalidation is
  * late, fails or never comes: the steps of GetByID and of the writers interleave in any way.
  */
module CacheStaleness {
  import opened Base
  import opened Model
  import opened Redis
  import opened Keyspace
  import opened UserTable
  import opened Sessions
  import opened Users

  /** A GetByID between its SELECT, made at `at`, and its cache SET. */
  datatype Reading = Reading(id: Uuid, image: UserImage, at: int)

  datatype Snapshot = Snapshot(clock: int, rows: Table, db: Db, readings: map<nat, Reading>)

  datatype Action =
    | Tick(to: int)
    | Write(rows: Table)          // any statement that changes the table
    | Invalidate(id: Uuid)        // a cache DEL; a failed one is no step at all
    | Select(pid: nat, id: Uuid)  // after a miss or a failed GET
    | Fill(pid: nat)              // the cache SET
    | Abandon(pid: nat)           // the cache SET was lost

  predicate Enabled(s: Snapshot, a: Action, gap: int) {
    match a
    case Tick(to) => s.clock <= to
    case Write(_) => true
    case Invalidate(_) => true
    case Select(pid, id) => pid !in s.readings && SelectById(s.rows, id, true).Ok?
    case Fill(pid) => pid in s.readings && s.clock - s.readings[pid].at <= gap
    case Abandon(pid) => pid in s.readings
  }

  function Do(s: Snapshot, a: Action): Snapshot
    requires a.Select? ==> SelectById(s.rows, a.id, true).Ok?
    requires a.Fill? ==> a.pid in s.readings
  {
    match a
    case Tick(to) => s.(clock := to)
    case Write(rows) => s.(rows := rows)
    case Invalidate(id) => s.(db := DropImage(s.db, id, Up, s.clock))
    case Select(pid, id) =>
      s.(readings := s.readings[pid := Reading(id, SelectById(s.rows, id, true).value.ToJson(), s.clock)])
    case Fill(pid) =>
      var r := s.readings[pid];
      s.(db := StoreImage(s.db, r.id, r.image, USER_CACHE_TTL, Up, s.clock), readings := s.readings - {pid})
    case Abandon(pid) => s.(readings := s.readings - {pid})
  }

  /** A run in which no cache SET comes more than `gap` after its SELECT. */
  ghost predicate IsRun(states: seq<Snapshot>, actions: seq<Action>, gap: int) {
    && |states| == |actions| + 1
    && states[0].db == map[] && states[0].readings == map[]
    && forall i :: 0 <= i < |actions| ==>
      Enabled(states[i], actions[i], gap) && states[i + 1] == Do(states[i], actions[i])
  }

  /** In snapshot j the row was active and looked like this. */
  ghost predicate Showed(states: seq<Snapshot>, j: nat, id: Uuid, image: UserImage) {
    && j < |states|
    && id in states[j].rows && states[j].rows[id].isActive && states[j].rows[id].ToJson() == image
  }

  /** A past snapshot accounts for an image read at time `at`. */
  ghost predicate Explained(states: seq<Snapshot>, n: nat, id: Uuid, image: UserImage, at: int) {
    exists j: nat :: j <= n && Showed(states, j, id, image) && states[j].clock == at
  }

  /** The cached image was read within `gap` before it was stored. */
  ghost predicate CachedExplained(states: seq<Snapshot>, n: nat, id: Uuid, e: Entry, gap: int)
    requires n < |states|
  {
    && e.value.Image? && e.deadline.Some?
    && exists at: int :: e.deadline.value - USER_CACHE_TTL - gap <= at <= states[n].clock
         && Explained(states, n, id, e.value.user, at)
  }

  ghost predicate Inv(states: seq<Snapshot>, n: nat, gap: int)
    requires n < |states|
  {
    var s := states[n];
    && (forall pid :: pid in s.readings ==>
          s.readings[pid].at <= s.clock
            && Explained(states, n, s.readings[pid].id, s.readings[pid].image, s.readings[pid].at))
    && (forall id: Uuid :: CacheUser(id) in s.db ==> CachedExplained(states, n, id, s.db[CacheUser(id)], gap))
  }

  lemma ExplainedLater(states: seq<Snapshot>, n: nat, id: Uuid, image: UserImage, at: int)
    requires Explained(states, n, id, image, at)
    ensures Explained(states, n + 1, id, image, at)
  {
  }

  lemma CachedExplainedLater(states: seq<Snapshot>, n: nat, id: Uuid, e: Entry, gap: int)
    requires n + 1 < |states| && states[n].clock <= states[n + 1].clock && CachedExplained(states, n, id, e, gap)
    ensures CachedExplained(states, n + 1, id, e, gap)
  {
    var at: int :| e.deadline.value - USER_CACHE_TTL - gap <= at <= states[n].clock
      && Explained(states, n, id, e.value.user, at);
    ExplainedLater(states, n, id, e.value.user, at);
  }

  lemma ReadingsStayExplained(states: seq<Snapshot>, actions: seq<Action>, gap: int, n: nat, pid: nat)
    requires IsRun(states, actions, gap) && n < |actions| && Inv(states, n, gap) && pid in states[n + 1].readings
    ensures
      var r := states[n + 1].readings[pid];
      r.at <= states[n + 1].clock && Explained(states, n + 1, r.id, r.image, r.at)
  {
    var s, s', a := states[n], states[n + 1], actions[n];
    var r := s'.readings[pid];
    if a.Select? && a.pid == pid {
      assert Showed(states, n, r.id, r.image);
      assert Explained(states, n, r.id, r.image, r.at);
    }
    ExplainedLater(states, n, r.id, r.image, r.at);
  }

  lemma CacheStaysExplained(states: seq<Snapshot>, actions: seq<Action>, gap: int, n: nat, id: Uuid)
    requires IsRun(states, actions, gap) && n < |actions| && Inv(states, n, gap) && CacheUser(id) in states[n + 1].db
    ensures CachedExplained(states, n + 1, id, states[n + 1].db[CacheUser(id)], gap)
  {
    var s, s', a := states[n], states[n + 1], actions[n];
    if a.Fill? && s.readings[a.pid].id == id {
      var r := s.readings[a.pid];
      ExplainedLater(states, n, id, r.image, r.at);
      assert s'.db[CacheUser(id)] == Entry(Image(r.image), Some(s.clock + USER_CACHE_TTL));
    } else {
      assert CacheUser(id) in s.db && s'.db[CacheUser(id)] == s.db[CacheUser(id)];
      CachedExplainedLater(states, n, id, s.db[CacheUser(id)], gap);
    }
  }

  lemma {:induction false} InvHolds(states: seq<Snapshot>, actions: seq<Action>, gap: int, n: nat)
    requires IsRun(states, actions, gap) && n < |states|
    ensures Inv(states, n, gap)
    decreases n
  {
    if n > 0 {
      InvHolds(states, actions, gap, n - 1);
      forall pid | pid in states[n].readings
        ensures
          var r := states[n].readings[pid];
          r.at <= states[n].clock && Explained(states, n, r.id, r.image, r.at)
      {
        ReadingsStayExplained(states, actions, gap, n - 1, pid);
      }
      forall id: Uuid | CacheUser(id) in states[n].db
        ensures CachedExplained(states, n, id, states[n].db[CacheUser(id)], gap) {
        CacheStaysExplained(states, actions, gap, n - 1, id);
      }
    }
  }

  /** Whatever invalidations fail and however reads and writes interleave, a cache hit shows the
    * user as the active row was at some moment less than five minutes and one read gap ago.
    */
  lemma HitsAreRecent(states: seq<Snapshot>, actions: seq<Action>, gap: int, n: nat, id: Uuid) returns (j: nat)
    requires IsRun(states, actions, gap) && n < |states|
    requires CachedImage(states[n].db, id, states[n].clock).Some?
    ensures j <= n && Showed(states, j, id, CachedImage(states[n].db, id, states[n].clock).value)
    ensures states[n].clock - 5 * MINUTE - gap < states[j].clock <= states[n].clock
  {
    InvHolds(states, actions, gap, n);
    var e := states[n].db[CacheUser(id)];
    assert CachedExplained(states, n, id, e, gap);
    var at: int :| e.deadline.value - USER_CACHE_TTL - gap <= at <= states[n].clock
      && Explained(states, n, id, e.value.user, at);
    j :| j <= n && Showed(states, j, id, e.value.user) && states[j].clock == at;
  }
}
