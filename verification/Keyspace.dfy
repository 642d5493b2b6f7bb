/** The flat Redis keyspace. Services address Redis by purpose (Key); the repositories render
  * each purpose to one string. Rendering loses nothing, so one map of strings behaves as seven
  * stores that know nothing of each other.
  */
module Keyspace {
  import opened Base
  import opened Redis

  datatype Key =
    | Refresh(token: string)
    | Blocklist(jti: string)
    | Lockout(email: string)
    | Reset(token: string)
    | RateIp(ip: string)
    | RateUser(userId: string, endpoint: string)
    | CacheUser(id: string)

  datatype Purpose = RefreshTokens | Revocations | Failures | Resets | IpWindows | UserWindows | UserCache

  function PurposeOf(k: Key): Purpose {
    match k
    case Refresh(_) => RefreshTokens
    case Blocklist(_) => Revocations
    case Lockout(_) => Failures
    case Reset(_) => Resets
    case RateIp(_) => IpWindows
    case RateUser(_, _) => UserWindows
    case CacheUser(_) => UserCache
  }

  /** hashToken is SHA-256 in hexadecimal; here any string function. */
  type Hash = string -> string

  function Prefix(p: Purpose): string {
    match p
    case RefreshTokens => "auth:refresh:"
    case Revocations => "auth:blocklist:"
    case Failures => "auth:lockout:"
    case Resets => "auth:reset:"
    case IpWindows => "rate:limit:ip:"
    case UserWindows => "rate:user:"
    case UserCache => "cache:user:"
  }

  function Suffix(h: Hash, k: Key): string {
    match k
    case Refresh(token) => h(token)
    case Blocklist(jti) => jti
    case Lockout(email) => h(email)
    case Reset(token) => h(token)
    case RateIp(ip) => ip
    case RateUser(userId, endpoint) => userId + ":" + endpoint
    case CacheUser(id) => id
  }

  function Render(h: Hash, k: Key): string {
    Prefix(PurposeOf(k)) + Suffix(h, k)
  }

  /** No two of the given strings share a hash. */
  ghost predicate CollisionFree(h: Hash, inputs: set<string>) {
    forall a, b :: a in inputs && b in inputs && h(a) == h(b) ==> a == b
  }

  /** The string a key hashes, if it hashes one. */
  function Hashed(k: Key): Option<string> {
    match k
    case Refresh(token) => Some(token)
    case Lockout(email) => Some(email)
    case Reset(token) => Some(token)
    case _ => None
  }

  /** User ids in rate-limit keys are UUIDs taken from a verified token, so they hold no colon. */
  ghost predicate Addressable(h: Hash, inputs: set<string>, k: Key) {
    && (Hashed(k).Some? ==> Hashed(k).value in inputs)
    && (k.RateUser? ==> ':' !in k.userId)
  }

  // ---- Rendering is injective ----------------------------------------------------------------

  /** No prefix begins another one. */
  lemma PrefixesDiverge(p: Purpose, q: Purpose) returns (i: nat)
    requires p != q
    ensures i < |Prefix(p)| && i < |Prefix(q)| && Prefix(p)[i] != Prefix(q)[i]
  {
    var a, b := Prefix(p), Prefix(q);
    i :| 0 <= i < 8 && a[i] != b[i];
  }

  lemma PurposesDisjoint(h: Hash, k: Key, l: Key)
    requires PurposeOf(k) != PurposeOf(l)
    ensures Render(h, k) != Render(h, l)
  {
    var i := PrefixesDiverge(PurposeOf(k), PurposeOf(l));
    assert Render(h, k)[i] == Prefix(PurposeOf(k))[i];
    assert Render(h, l)[i] == Prefix(PurposeOf(l))[i];
  }

  lemma ShorterIdDiffers(u: string, e: string, v: string, f: string)
    requires ':' !in v && |u| < |v|
    ensures u + ":" + e != v + ":" + f
  {
    assert (u + ":" + e)[|u|] == ':';
    assert (v + ":" + f)[|u|] == v[|u|];
  }

  /** The first colon of `userId:endpoint` ends the user id when the id holds none. */
  lemma SplitAtFirstColon(u: string, e: string, v: string, f: string)
    requires ':' !in u && ':' !in v
    requires u + ":" + e == v + ":" + f
    ensures u == v && e == f
  {
    if |u| < |v| {
      ShorterIdDiffers(u, e, v, f);
    } else if |v| < |u| {
      ShorterIdDiffers(v, f, u, e);
    } else {
      var s := u + ":" + e;
      assert u == s[..|u|] && v == s[..|u|];
      assert e == s[|u| + 1..] && f == s[|u| + 1..];
    }
  }

  lemma RenderIsInjective(h: Hash, inputs: set<string>, k: Key, l: Key)
    requires CollisionFree(h, inputs)
    requires Addressable(h, inputs, k) && Addressable(h, inputs, l)
    requires Render(h, k) == Render(h, l)
    ensures k == l
  {
    if PurposeOf(k) != PurposeOf(l) {
      PurposesDisjoint(h, k, l);
    }
    var p := Prefix(PurposeOf(k));
    assert Suffix(h, k) == Render(h, k)[|p|..];
    assert Suffix(h, l) == Render(h, l)[|p|..];
    if k.RateUser? {
      SplitAtFirstColon(k.userId, k.endpoint, l.userId, l.endpoint);
    }
  }

  /** Without the condition on user ids two keys can meet. */
  lemma ColonInUserIdCollides(h: Hash)
    ensures RateUser("a:b", "c") != RateUser("a", "b:c")
    ensures Render(h, RateUser("a:b", "c")) == Render(h, RateUser("a", "b:c"))
  {
  }

  /** A string stored as one kind of token is never found as another kind. */
  lemma TokensDoNotCross(h: Hash, stored: string, presented: string)
    ensures Render(h, Refresh(stored)) != Render(h, Reset(presented))
    ensures Render(h, Refresh(stored)) != Render(h, Blocklist(presented))
    ensures Render(h, Reset(stored)) != Render(h, Blocklist(presented))
  {
    PurposesDisjoint(h, Refresh(stored), Reset(presented));
    PurposesDisjoint(h, Refresh(stored), Blocklist(presented));
    PurposesDisjoint(h, Reset(stored), Blocklist(presented));
  }

  /** The text of each key. */
  lemma KeysAreSpelled(h: Hash, a: string, b: string)
    ensures Render(h, Refresh(a)) == "auth:refresh:" + h(a)
    ensures Render(h, Blocklist(a)) == "auth:blocklist:" + a
    ensures Render(h, Lockout(a)) == "auth:lockout:" + h(a)
    ensures Render(h, Reset(a)) == "auth:reset:" + h(a)
    ensures Render(h, RateIp(a)) == "rate:limit:ip:" + a
    ensures Render(h, RateUser(a, b)) == "rate:user:" + a + ":" + b
    ensures Render(h, CacheUser(a)) == "cache:user:" + a
  {
  }

  /** Tokens and e-mails get into key names through their hash alone. */
  lemma SecretsOnlyHashed(h: Hash, a: string, b: string)
    requires h(a) == h(b)
    ensures Render(h, Refresh(a)) == Render(h, Refresh(b))
    ensures Render(h, Lockout(a)) == Render(h, Lockout(b))
    ensures Render(h, Reset(a)) == Render(h, Reset(b))
  {
  }

  // ---- One flat map, seven independent stores --------------------------------------------------

  function Flatten(h: Hash, trace: seq<Timed<Key>>): seq<Timed<string>> {
    seq(|trace|, i requires 0 <= i < |trace| => Timed(trace[i].at, Cmd(Render(h, trace[i].cmd.key), trace[i].cmd.op)))
  }

  /** The commands of one purpose, in order. */
  function OfPurpose(trace: seq<Timed<Key>>, p: Purpose): seq<Timed<Key>>
    decreases |trace|
  {
    if trace == [] then []
    else (if PurposeOf(trace[0].cmd.key) == p then [trace[0]] else []) + OfPurpose(trace[1..], p)
  }

  /** The replies that the commands of one purpose got. */
  function RepliesTo(trace: seq<Timed<Key>>, replies: seq<Reply>, p: Purpose): seq<Reply>
    requires |replies| == |trace|
    decreases |trace|
  {
    if trace == [] then []
    else (if PurposeOf(trace[0].cmd.key) == p then [replies[0]] else []) + RepliesTo(trace[1..], replies[1..], p)
  }

  ghost predicate AllAddressable(h: Hash, inputs: set<string>, trace: seq<Timed<Key>>) {
    forall i :: 0 <= i < |trace| ==> Addressable(h, inputs, trace[i].cmd.key)
  }

  /** The flat map holds under each rendered key of this purpose what the purpose's own store holds. */
  ghost predicate Holds(h: Hash, inputs: set<string>, flat: Store<string>, own: Store<Key>, p: Purpose) {
    forall k :: PurposeOf(k) == p && Addressable(h, inputs, k) ==> At(flat, Render(h, k)) == At(own, k)
  }

  lemma ReplyCount<K>(db: Store<K>, trace: seq<Timed<K>>)
    ensures |Replies(db, trace)| == |trace|
    decreases |trace|
  {
    if trace != [] {
      ReplyCount(Exec(db, trace[0].cmd, trace[0].at).0, trace[1..]);
    }
  }

  lemma ExecHolds(
    h: Hash, inputs: set<string>, flat: Store<string>, own: Store<Key>, p: Purpose, cmd: Cmd<Key>, now: int)
    requires CollisionFree(h, inputs) && Addressable(h, inputs, cmd.key) && Holds(h, inputs, flat, own, p)
    ensures
      var flat' := Exec(flat, Cmd(Render(h, cmd.key), cmd.op), now);
      if PurposeOf(cmd.key) == p
      then flat'.1 == Exec(own, cmd, now).1 && Holds(h, inputs, flat'.0, Exec(own, cmd, now).0, p)
      else Holds(h, inputs, flat'.0, own, p)
  {
    var flat' := Exec(flat, Cmd(Render(h, cmd.key), cmd.op), now).0;
    var own' := if PurposeOf(cmd.key) == p then Exec(own, cmd, now).0 else own;
    forall k | PurposeOf(k) == p && Addressable(h, inputs, k)
      ensures At(flat', Render(h, k)) == At(own', k)
    {
      if k != cmd.key && Render(h, k) == Render(h, cmd.key) {
        RenderIsInjective(h, inputs, k, cmd.key);
      }
    }
  }

  /** Any interleaved trace over the one flat map answers each purpose exactly as a store of its
    * own would answer that purpose's commands alone.
    */
  lemma {:induction false} FlatMapIsSevenStores(
    h: Hash, inputs: set<string>, flat: Store<string>, own: Store<Key>, trace: seq<Timed<Key>>, p: Purpose)
    requires CollisionFree(h, inputs) && AllAddressable(h, inputs, trace) && Holds(h, inputs, flat, own, p)
    ensures |Replies(flat, Flatten(h, trace))| == |trace|
    ensures RepliesTo(trace, Replies(flat, Flatten(h, trace)), p) == Replies(own, OfPurpose(trace, p))
    decreases |trace|
  {
    ReplyCount(flat, Flatten(h, trace));
    if trace != [] {
      var head, rest := trace[0], trace[1..];
      var flatHead := Flatten(h, trace)[0];
      assert Flatten(h, trace)[1..] == Flatten(h, rest);
      var flat' := Exec(flat, flatHead.cmd, head.at).0;
      ExecHolds(h, inputs, flat, own, p, head.cmd, head.at);
      ReplyCount(flat', Flatten(h, rest));
      var replies := Replies(flat, Flatten(h, trace));
      assert replies[1..] == Replies(flat', Flatten(h, rest));
      if PurposeOf(head.cmd.key) == p {
        var own' := Exec(own, head.cmd, head.at).0;
        FlatMapIsSevenStores(h, inputs, flat', own', rest, p);
        assert OfPurpose(trace, p)[0] == head && OfPurpose(trace, p)[1..] == OfPurpose(rest, p);
      } else {
        FlatMapIsSevenStores(h, inputs, flat', own, rest, p);
        assert OfPurpose(trace, p) == OfPurpose(rest, p);
      }
    }
  }
}
