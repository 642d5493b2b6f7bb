/** The part of the Redis server that the session and cache repositories rely on:
  * values under keys with deadlines, and commands that act on one key each.
  * A key whose deadline has passed is treated as absent whether or not the server has
  * removed it yet; LazyExpiryIsInvisible shows that the moment of removal cannot be observed.
  */
module Redis {
  import opened Base
  import opened Model

  datatype Value =
    | Text(text: string)
    | Counter(n: int)
    | Members(z: map<int, int>) // sorted set: member -> score
    | Image(user: UserImage)    // JSON text of a user

  datatype Entry = Entry(value: Value, deadline: Option<int>)

  /** What one key holds. */
  type Cell = Option<Entry>

  type Store<K> = map<K, Entry>

  predicate Alive(e: Entry, now: int) {
    e.deadline.None? || now < e.deadline.value
  }

  function Live(c: Cell, now: int): Cell {
    if c.Some? && Alive(c.value, now) then c else None
  }

  datatype Op =
    | Get
    | Exists
    | Set(value: Value, ttl: int)
    | Del
    | Incr
    | Expire(ttl: int)
    | ZRemRangeByScore(lo: int, hi: int)
    | ZAdd(score: int, member: int)
    | ZCard

  datatype Reply = Nil | Done | Bulk(value: Value) | Number(n: int) | WrongType

  /** SET takes whole milliseconds; the client rounds down, but up to 1 below a millisecond. */
  function SetLifetime(ttl: int): int {
    if 0 < ttl < MILLISECOND then MILLISECOND else ttl / MILLISECOND * MILLISECOND
  }

  /** SET without a positive lifetime stores a key that never expires. */
  function Deadline(ttl: int, now: int): Option<int> {
    if ttl > 0 then Some(now + SetLifetime(ttl)) else None
  }

  /** EXPIRE takes whole seconds; the client rounds towards zero, but up to 1 below a second. */
  function ExpireSeconds(ttl: int): int {
    if 0 < ttl < SECOND then 1
    else if ttl >= 0 then ttl / SECOND
    else -((-ttl) / SECOND)
  }

  function WithoutScores(z: map<int, int>, lo: int, hi: int): map<int, int> {
    map m | m in z && !(lo <= z[m] <= hi) :: z[m]
  }

  /** One command on one key: what the key then holds, and the reply. */
  function Step(op: Op, c: Cell, now: int): (Cell, Reply) {
    var live := Live(c, now);
    match op
    case Get =>
      (c, if live.None? then Nil else if live.value.value.Members? then WrongType else Bulk(live.value.value))
    case Exists => (c, Number(if live.Some? then 1 else 0))
    case Set(v, ttl) => (Some(Entry(v, Deadline(ttl, now))), Done)
    case Del => (None, Number(if live.Some? then 1 else 0))
    case Incr =>
      if live.None? then (Some(Entry(Counter(1), None)), Number(1))
      else if live.value.value.Counter? then
        var n := live.value.value.n + 1;
        (Some(Entry(Counter(n), live.value.deadline)), Number(n))
      else (c, WrongType)
    case Expire(ttl) =>
      if live.None? then (None, Number(0))
      else if ExpireSeconds(ttl) <= 0 then (None, Number(1))
      else (Some(live.value.(deadline := Some(now + ExpireSeconds(ttl) * SECOND))), Number(1))
    case ZRemRangeByScore(lo, hi) =>
      if live.None? then (None, Number(0))
      else if !live.value.value.Members? then (c, WrongType)
      else
        var z := live.value.value.z;
        var kept := WithoutScores(z, lo, hi);
        // A sorted set that becomes empty is removed together with its deadline.
        (if kept == map[] then None else Some(Entry(Members(kept), live.value.deadline)), Number(|z| - |kept|))
    case ZAdd(score, member) =>
      if live.None? then (Some(Entry(Members(map[member := score]), None)), Number(1))
      else if !live.value.value.Members? then (c, WrongType)
      else
        var z := live.value.value.z;
        (Some(Entry(Members(z[member := score]), live.value.deadline)), Number(if member in z then 0 else 1))
    case ZCard =>
      if live.None? then (c, Number(0))
      else if !live.value.value.Members? then (c, WrongType)
      else (c, Number(|live.value.value.z|))
  }

  datatype Cmd<+K> = Cmd(key: K, op: Op)

  function At<K(==)>(db: Store<K>, key: K): Cell {
    if key in db then Some(db[key]) else None
  }

  function Put<K(==)>(db: Store<K>, key: K, c: Cell): Store<K> {
    if c.Some? then db[key := c.value] else db - {key}
  }

  /** What the key holds as far as any command can tell. */
  function Read<K(==)>(db: Store<K>, key: K, now: int): Cell {
    Live(At(db, key), now)
  }

  function Exec<K(==)>(db: Store<K>, cmd: Cmd<K>, now: int): (Store<K>, Reply) {
    var (c, reply) := Step(cmd.op, At(db, cmd.key), now);
    (Put(db, cmd.key, c), reply)
  }

  // ---- A network that can fail ------------------------------------------------------------

  /** One round trip to Redis. When it fails the caller gets an error, and `applied` tells which
    * of the commands sent together took effect all the same: a pipeline is not a transaction.
    */
  datatype Net = Up | Down(applied: set<nat>) {
    predicate Reaches(i: nat) {
      Up? || i in applied
    }
  }

  function StepIf(net: Net, i: nat, op: Op, c: Cell, now: int): Cell {
    if net.Reaches(i) then Step(op, c, now).0 else c
  }

  /** The store after the i-th command of a round trip. */
  function Send<K(==)>(db: Store<K>, key: K, op: Op, net: Net, i: nat, now: int): Store<K> {
    Put(db, key, StepIf(net, i, op, At(db, key), now))
  }

  lemma SendOnKey<K>(db: Store<K>, key: K, op: Op, net: Net, i: nat, now: int)
    ensures At(Send(db, key, op, net, i, now), key) == StepIf(net, i, op, At(db, key), now)
  {
  }

  // ---- Traces -------------------------------------------------------------------------

  datatype Timed<+K> = Timed(at: int, cmd: Cmd<K>)

  function Replies<K(==)>(db: Store<K>, trace: seq<Timed<K>>): seq<Reply>
    decreases |trace|
  {
    if trace == [] then []
    else
      var (next, reply) := Exec(db, trace[0].cmd, trace[0].at);
      [reply] + Replies(next, trace[1..])
  }

  // ---- Lazy and eager expiry agree ------------------------------------------------------

  /** A schedule of commands in which the server may also drop expired keys at any point. */
  datatype ServerEvent<+K> = Command(at: int, cmd: Cmd<K>) | Evict(at: int, key: K)

  function EvictExpired<K(==)>(db: Store<K>, key: K, now: int): Store<K> {
    Put(db, key, Read(db, key, now))
  }

  function RepliesWithEviction<K(==)>(db: Store<K>, events: seq<ServerEvent<K>>): seq<Reply>
    decreases |events|
  {
    if events == [] then []
    else match events[0]
      case Command(at, cmd) =>
        var (next, reply) := Exec(db, cmd, at);
        [reply] + RepliesWithEviction(next, events[1..])
      case Evict(at, key) => RepliesWithEviction(EvictExpired(db, key, at), events[1..])
  }

  function CommandsOf<K>(events: seq<ServerEvent<K>>): seq<Timed<K>> {
    if events == [] then []
    else (if events[0].Command? then [Timed(events[0].at, events[0].cmd)] else []) + CommandsOf(events[1..])
  }

  ghost predicate EventsInOrder<K>(events: seq<ServerEvent<K>>, start: int)
    decreases |events|
  {
    events == [] || (start <= events[0].at && EventsInOrder(events[1..], events[0].at))
  }

  /** No command issued at `now` or later can tell the two stores apart. */
  ghost predicate SameFrom<K(!new)>(a: Store<K>, b: Store<K>, now: int) {
    forall k :: Read(a, k, now) == Read(b, k, now)
  }

  lemma ExecKeepsSame<K(!new)>(a: Store<K>, b: Store<K>, cmd: Cmd<K>, start: int, now: int)
    requires SameFrom(a, b, start) && start <= now
    ensures Exec(a, cmd, now).1 == Exec(b, cmd, now).1
    ensures SameFrom(Exec(a, cmd, now).0, Exec(b, cmd, now).0, now)
  {
    var a', b' := Exec(a, cmd, now).0, Exec(b, cmd, now).0;
    forall k ensures Read(a', k, now) == Read(b', k, now) {
      assert Read(a, k, start) == Read(b, k, start);
      assert Read(a, k, now) == Read(b, k, now);
    }
    assert Read(a, cmd.key, start) == Read(b, cmd.key, start);
  }

  /** Every schedule of evictions gives the replies of the server that never evicts. */
  lemma {:induction false} LazyExpiryIsInvisible<K(!new)>(
    a: Store<K>, b: Store<K>, events: seq<ServerEvent<K>>, start: int)
    requires SameFrom(a, b, start) && EventsInOrder(events, start)
    ensures RepliesWithEviction(a, events) == Replies(b, CommandsOf(events))
    decreases |events|
  {
    if events != [] {
      var e := events[0];
      var rest := CommandsOf(events[1..]);
      match e
      case Command(at, cmd) =>
        ExecKeepsSame(a, b, cmd, start, at);
        LazyExpiryIsInvisible(Exec(a, cmd, at).0, Exec(b, cmd, at).0, events[1..], at);
        var trace := CommandsOf(events);
        assert trace[0] == Timed(at, cmd) && trace[1..] == rest;
      case Evict(at, key) =>
        var a' := EvictExpired(a, key, at);
        forall k ensures Read(a', k, at) == Read(b, k, at) {
          assert Read(a, k, start) == Read(b, k, start);
        }
        LazyExpiryIsInvisible(a', b, events[1..], at);
        assert CommandsOf(events) == rest;
    }
  }
}
