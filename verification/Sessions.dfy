/** The session and cache repositories (internal/repository/redis/session.go and cache.go).
  * Every method that reaches Redis is told how its round trip goes (`net`) and when (`now`).
  */
module Sessions {
  import opened Base
  import opened Model
  import opened Redis
  import opened Keyspace
  import RateLimit

  type Db = Store<Key>

  const LOCKOUT_THRESHOLD := 10
  const PASSWORD_RESET_TTL := 1 * HOUR

  /** Removes only expired keys and writes nothing: no later command can tell. */
  predicate IsQuery(op: Op) {
    op.Get? || op.Exists? || op.ZCard?
  }

  /** A connection to the server, and the server's keys. */
  class Client {
    var db: Db

    constructor ()
      ensures db == map[]
    {
      db := map[];
    }

    /** The i-th command of a round trip, its reply not looked at. */
    method Tell(key: Key, op: Op, net: Net, i: nat, now: int)
      modifies this
      ensures db == Send(old(db), key, op, net, i, now)
    {
      db := Send(db, key, op, net, i, now);
    }

    /** The i-th command of a round trip. The caller learns the reply only when `net` is up. */
    method Ask(key: Key, op: Op, net: Net, i: nat, now: int) returns (reply: Reply)
      modifies this
      ensures db == Send(old(db), key, op, net, i, now)
      ensures net.Reaches(i) ==> reply == Step(op, At(old(db), key), now).1
      ensures IsQuery(op) ==> db == old(db)
    {
      var (c, answer) := Step(op, At(db, key), now);
      if net.Reaches(i) {
        db := Put(db, key, c);
      }
      reply := answer;
    }
  }

  // ---- What each repository call does to the keys ------------------------------------------------

  function StoreRefresh(db: Db, token: string, userId: string, ttl: int, net: Net, now: int): Db {
    Send(db, Refresh(token), Set(Text(userId), ttl), net, 0, now)
  }

  /** The text stored under a key; anything else there is an error the service never causes. */
  function TextAt(db: Db, key: Key, now: int): Result<string, AppError> {
    var c := Read(db, key, now);
    if c.None? then Err(Unauthorized)
    else if c.value.value.Text? then Ok(c.value.value.text)
    else Err(Internal)
  }

  function Revoke(db: Db, token: string, net: Net, now: int): Db {
    Send(db, Refresh(token), Del, net, 0, now)
  }

  /** DEL and SET in one pipeline. */
  function Rotate(db: Db, oldToken: string, token: string, userId: string, ttl: int, net: Net, now: int): Db {
    Send(Send(db, Refresh(oldToken), Del, net, 0, now), Refresh(token), Set(Text(userId), ttl), net, 1, now)
  }

  /** The old token dies by the DEL alone and the new one lives by the SET alone. */
  lemma RotationEffect(db: Db, oldToken: string, token: string, userId: string, ttl: int, net: Net, now: int)
    requires TextAt(db, Refresh(oldToken), now).Ok? && TextAt(db, Refresh(token), now).Err?
    ensures
      var db' := Rotate(db, oldToken, token, userId, ttl, net, now);
      && (TextAt(db', Refresh(oldToken), now).Ok? <==> !net.Reaches(0))
      && (TextAt(db', Refresh(token), now).Ok? <==> net.Reaches(1))
  {
  }

  /** A rotation answered with success is complete: the new token resolves to the user and the old
    * one is refused, whatever either held before.
    */
  lemma SuccessMeansRotated(db: Db, oldToken: string, token: string, userId: string, ttl: int, now: int)
    ensures
      var db' := Rotate(db, oldToken, token, userId, ttl, Up, now);
      && TextAt(db', Refresh(token), now) == Ok(userId)
      && (oldToken != token ==> TextAt(db', Refresh(oldToken), now) == Err(Unauthorized))
  {
  }

  /** A rotation answered with an error tells the caller nothing: a live old token and a fresh new one
    * can each be live or dead afterwards, in any of the four combinations.
    */
  lemma ErrorTellsNothing(
    db: Db, oldToken: string, token: string, userId: string, ttl: int, now: int, oldLives: bool, newLives: bool)
    returns (net: Net)
    requires TextAt(db, Refresh(oldToken), now).Ok? && TextAt(db, Refresh(token), now).Err?
    ensures net.Down?
    ensures
      var db' := Rotate(db, oldToken, token, userId, ttl, net, now);
      && (TextAt(db', Refresh(oldToken), now).Ok? <==> oldLives)
      && (TextAt(db', Refresh(token), now).Ok? <==> newLives)
  {
    net := Down((if oldLives then {} else {0}) + (if newLives then {1} else {}));
    RotationEffect(db, oldToken, token, userId, ttl, net, now);
  }

  function Block(db: Db, jti: string, ttl: int, net: Net, now: int): Db {
    Send(db, Blocklist(jti), Set(Text("1"), ttl), net, 0, now)
  }

  predicate Blocked(db: Db, jti: string, now: int) {
    Read(db, Blocklist(jti), now).Some?
  }

  /** INCR and EXPIRE in one pipeline. */
  function CountFailure(db: Db, email: string, ttl: int, net: Net, now: int): Db {
    Send(Send(db, Lockout(email), Incr, net, 0, now), Lockout(email), Expire(ttl), net, 1, now)
  }

  function ForgetFailures(db: Db, email: string, net: Net, now: int): Db {
    Send(db, Lockout(email), Del, net, 0, now)
  }

  /** No key but these holds anything else than before. */
  ghost predicate OnlyTouches(before: Db, after: Db, keys: set<Key>) {
    forall k: Key :: k !in keys ==> At(after, k) == At(before, k)
  }

  /** The failure counter; an absent key counts as zero. */
  function FailuresAt(db: Db, email: string, now: int): Result<int, AppError> {
    var c := Read(db, Lockout(email), now);
    if c.None? then Ok(0)
    else if c.value.value.Counter? then Ok(c.value.value.n)
    else Err(Internal)
  }

  predicate LockedOut(db: Db, email: string, now: int) {
    var count := FailuresAt(db, email, now);
    count.Ok? && count.value >= LOCKOUT_THRESHOLD
  }

  function StoreReset(db: Db, token: string, userId: string, net: Net, now: int): Db {
    Send(db, Reset(token), Set(Text(userId), PASSWORD_RESET_TTL), net, 0, now)
  }

  /** GET and DEL in one pipeline; only the DEL changes the store. */
  function ConsumeReset(db: Db, token: string, net: Net, now: int): Db {
    Send(db, Reset(token), Del, net, 1, now)
  }

  /** The limiter's pipeline on one key; its third command, ZCARD, changes nothing. */
  function CountRequest(db: Db, key: Key, window: int, net: Net, now: int): Db {
    var counted := AddRequest(db, key, window, net, now);
    Send(counted, key, Expire(window), net, 3, now)
  }

  function AddRequest(db: Db, key: Key, window: int, net: Net, now: int): Db {
    var pruned := Send(db, key, RateLimit.PruneOp(now, window), net, 0, now);
    Send(pruned, key, RateLimit.AddOp(now), net, 1, now)
  }

  lemma AddRequestCell(db: Db, key: Key, window: int, net: Net, now: int)
    ensures At(AddRequest(db, key, window, net, now), key) == RateLimit.CountedCell(At(db, key), window, net, now)
  {
  }

  /** On its own key the pipeline is the limiter's step, and it touches no other key. */
  lemma CountRequestCell(db: Db, key: Key, other: Key, window: int, net: Net, now: int)
    ensures At(CountRequest(db, key, window, net, now), key) == RateLimit.LimitCell(At(db, key), window, net, now)
    ensures other != key ==> At(CountRequest(db, key, window, net, now), other) == At(db, other)
  {
  }

  class SessionRepo {
    const rdb: Client

    constructor (rdb: Client)
      ensures this.rdb == rdb
    {
      this.rdb := rdb;
    }

    method StoreRefreshToken(token: string, userId: string, ttl: int, net: Net, now: int)
      returns (r: Result<(), AppError>)
      modifies rdb
      ensures rdb.db == StoreRefresh(old(rdb.db), token, userId, ttl, net, now)
      ensures r == if net.Up? then Ok(()) else Err(Internal)
      ensures OnlyTouches(old(rdb.db), rdb.db, {Refresh(token)})
      ensures r.Ok? ==> TextAt(rdb.db, Refresh(token), now) == Ok(userId)
    {
      rdb.Tell(Refresh(token), Set(Text(userId), ttl), net, 0, now);
      r := if net.Up? then Ok(()) else Err(Internal);
    }

    method ValidateRefreshToken(token: string, net: Net, now: int) returns (r: Result<string, AppError>)
      modifies rdb
      ensures rdb.db == old(rdb.db)
      ensures r == if net.Up? then TextAt(old(rdb.db), Refresh(token), now) else Err(Internal)
    {
      var reply := rdb.Ask(Refresh(token), Get, net, 0, now);
      if !net.Up? {
        return Err(Internal);
      }
      match reply {
        case Nil => r := Err(Unauthorized);
        case Bulk(value) => r := if value.Text? then Ok(value.text) else Err(Internal);
        case _ => r := Err(Internal);
      }
    }

    method RevokeRefreshToken(token: string, net: Net, now: int) returns (r: Result<(), AppError>)
      modifies rdb
      ensures rdb.db == Revoke(old(rdb.db), token, net, now)
      ensures r == if net.Up? then Ok(()) else Err(Internal)
      ensures OnlyTouches(old(rdb.db), rdb.db, {Refresh(token)})
      ensures r.Ok? ==> TextAt(rdb.db, Refresh(token), now) == Err(Unauthorized)
    {
      rdb.Tell(Refresh(token), Del, net, 0, now);
      r := if net.Up? then Ok(()) else Err(Internal);
    }

    method BlocklistJti(jti: string, ttl: int, net: Net, now: int) returns (r: Result<(), AppError>)
      modifies rdb
      ensures rdb.db == Block(old(rdb.db), jti, ttl, net, now)
      ensures r == if net.Up? then Ok(()) else Err(Internal)
      ensures OnlyTouches(old(rdb.db), rdb.db, {Blocklist(jti)})
      ensures r.Ok? ==> Blocked(rdb.db, jti, now)
    {
      rdb.Tell(Blocklist(jti), Set(Text("1"), ttl), net, 0, now);
      r := if net.Up? then Ok(()) else Err(Internal);
    }

    method IsBlocklisted(jti: string, net: Net, now: int) returns (r: Result<bool, AppError>)
      modifies rdb
      ensures rdb.db == old(rdb.db)
      ensures r == if net.Up? then Ok(Blocked(old(rdb.db), jti, now)) else Err(Internal)
    {
      var reply := rdb.Ask(Blocklist(jti), Exists, net, 0, now);
      r := if net.Up? && reply.Number? then Ok(reply.n > 0) else Err(Internal);
    }

    method RotateRefreshToken(oldToken: string, newToken: string, userId: string, ttl: int, net: Net, now: int)
      returns (r: Result<(), AppError>)
      modifies rdb
      ensures rdb.db == Rotate(old(rdb.db), oldToken, newToken, userId, ttl, net, now)
      ensures r == if net.Up? then Ok(()) else Err(Internal)
      ensures OnlyTouches(old(rdb.db), rdb.db, {Refresh(oldToken), Refresh(newToken)})
      ensures r.Ok? ==> TextAt(rdb.db, Refresh(newToken), now) == Ok(userId)
      ensures r.Ok? && oldToken != newToken ==> TextAt(rdb.db, Refresh(oldToken), now) == Err(Unauthorized)
    {
      rdb.Tell(Refresh(oldToken), Del, net, 0, now);
      rdb.Tell(Refresh(newToken), Set(Text(userId), ttl), net, 1, now);
      r := if net.Up? then Ok(()) else Err(Internal);
    }

    method IncrLoginFailure(email: string, ttl: int, net: Net, now: int) returns (r: Result<int, AppError>)
      modifies rdb
      ensures rdb.db == CountFailure(old(rdb.db), email, ttl, net, now)
      ensures
        r == if net.Up? && FailuresAt(old(rdb.db), email, now).Ok?
             then Ok(FailuresAt(old(rdb.db), email, now).value + 1)
             else Err(Internal)
      ensures OnlyTouches(old(rdb.db), rdb.db, {Lockout(email)})
      ensures r.Ok? && ttl > 0 ==> FailuresAt(rdb.db, email, now) == r
    {
      var reply := rdb.Ask(Lockout(email), Incr, net, 0, now);
      rdb.Tell(Lockout(email), Expire(ttl), net, 1, now);
      r := if net.Up? && reply.Number? then Ok(reply.n) else Err(Internal);
    }

    method GetLoginFailures(email: string, net: Net, now: int) returns (r: Result<int, AppError>)
      modifies rdb
      ensures rdb.db == old(rdb.db)
      ensures r == if net.Up? then FailuresAt(old(rdb.db), email, now) else Err(Internal)
    {
      var reply := rdb.Ask(Lockout(email), Get, net, 0, now);
      if !net.Up? {
        return Err(Internal);
      }
      match reply {
        case Nil => r := Ok(0);
        case Bulk(value) => r := if value.Counter? then Ok(value.n) else Err(Internal);
        case _ => r := Err(Internal);
      }
    }

    method ClearLoginFailures(email: string, net: Net, now: int) returns (r: Result<(), AppError>)
      modifies rdb
      ensures rdb.db == ForgetFailures(old(rdb.db), email, net, now)
      ensures r == if net.Up? then Ok(()) else Err(Internal)
      ensures OnlyTouches(old(rdb.db), rdb.db, {Lockout(email)})
      ensures r.Ok? ==> FailuresAt(rdb.db, email, now) == Ok(0)
    {
      rdb.Tell(Lockout(email), Del, net, 0, now);
      r := if net.Up? then Ok(()) else Err(Internal);
    }

    method IsLockedOut(email: string, net: Net, now: int) returns (r: Result<bool, AppError>)
      modifies rdb
      ensures rdb.db == old(rdb.db)
      ensures r.Ok? <==> net.Up? && FailuresAt(old(rdb.db), email, now).Ok?
      ensures r.Ok? ==> r.value == LockedOut(old(rdb.db), email, now)
    {
      var count := GetLoginFailures(email, net, now);
      if count.Err? {
        return Err(count.error);
      }
      r := Ok(count.value >= LOCKOUT_THRESHOLD);
    }

    method RateLimitAllowUser(userId: string, endpoint: string, limit: int, window: int, net: Net, now: int)
      returns (d: RateLimit.Decision)
      modifies rdb
      ensures rdb.db == CountRequest(old(rdb.db), RateUser(userId, endpoint), window, net, now)
      ensures d == RateLimit.LimitDecision(At(old(rdb.db), RateUser(userId, endpoint)), limit, window, net, now)
      ensures OnlyTouches(old(rdb.db), rdb.db, {RateUser(userId, endpoint)})
    {
      d := RateLimitByKey(RateUser(userId, endpoint), limit, window, net, now);
    }

    method RateLimitAllow(ip: string, limit: int, window: int, net: Net, now: int) returns (d: RateLimit.Decision)
      modifies rdb
      ensures rdb.db == CountRequest(old(rdb.db), RateIp(ip), window, net, now)
      ensures d == RateLimit.LimitDecision(At(old(rdb.db), RateIp(ip)), limit, window, net, now)
      ensures OnlyTouches(old(rdb.db), rdb.db, {RateIp(ip)})
    {
      d := RateLimitByKey(RateIp(ip), limit, window, net, now);
    }

    /** The first three commands of the limiter's pipeline, and what ZCARD answered. */
    method AddAndCount(key: Key, window: int, net: Net, now: int) returns (reply: Reply)
      modifies rdb
      ensures rdb.db == AddRequest(old(rdb.db), key, window, net, now)
      ensures net.Up? ==> reply == Step(ZCard, RateLimit.CountedCell(At(old(rdb.db), key), window, net, now), now).1
    {
      AddRequestCell(rdb.db, key, window, net, now);
      rdb.Tell(key, RateLimit.PruneOp(now, window), net, 0, now);
      rdb.Tell(key, RateLimit.AddOp(now), net, 1, now);
      reply := rdb.Ask(key, ZCard, net, 2, now);
    }

    method RateLimitByKey(key: Key, limit: int, window: int, net: Net, now: int) returns (d: RateLimit.Decision)
      modifies rdb
      ensures rdb.db == CountRequest(old(rdb.db), key, window, net, now)
      ensures d == RateLimit.LimitDecision(At(old(rdb.db), key), limit, window, net, now)
      ensures OnlyTouches(old(rdb.db), rdb.db, {key})
    {
      var resetAt := now + window;
      var reply := AddAndCount(key, window, net, now);
      rdb.Tell(key, Expire(window), net, 3, now);
      if net.Down? || !reply.Number? {
        return RateLimit.Decision(true, limit, resetAt);
      }
      if reply.n > limit {
        return RateLimit.Decision(false, 0, resetAt);
      }
      d := RateLimit.Decision(true, limit - reply.n, resetAt);
    }

    method StorePasswordResetToken(token: string, userId: string, net: Net, now: int) returns (r: Result<(), AppError>)
      modifies rdb
      ensures rdb.db == StoreReset(old(rdb.db), token, userId, net, now)
      ensures r == if net.Up? then Ok(()) else Err(Internal)
      ensures OnlyTouches(old(rdb.db), rdb.db, {Reset(token)})
      ensures r.Ok? ==> TextAt(rdb.db, Reset(token), now) == Ok(userId)
    {
      rdb.Tell(Reset(token), Set(Text(userId), PASSWORD_RESET_TTL), net, 0, now);
      r := if net.Up? then Ok(()) else Err(Internal);
    }

    method ConsumePasswordResetToken(token: string, net: Net, now: int) returns (r: Result<string, AppError>)
      modifies rdb
      ensures rdb.db == ConsumeReset(old(rdb.db), token, net, now)
      ensures r == if net.Up? && TextAt(old(rdb.db), Reset(token), now).Ok? then TextAt(old(rdb.db), Reset(token), now)
                   else Err(Internal)
      ensures OnlyTouches(old(rdb.db), rdb.db, {Reset(token)})
      ensures r.Ok? ==> TextAt(rdb.db, Reset(token), now) == Err(Unauthorized)
    {
      var reply := rdb.Ask(Reset(token), Get, net, 0, now);
      rdb.Tell(Reset(token), Del, net, 1, now);
      if !net.Up? {
        return Err(Internal);
      }
      match reply {
        case Nil => r := Err(Internal);
        case Bulk(value) => r := if value.Text? then Ok(value.text) else Err(Internal);
        case _ => r := Err(Internal);
      }
    }
  }

  // ---- The JSON cache ------------------------------------------------------------------------------

  function StoreImage(db: Db, id: Uuid, image: UserImage, ttl: int, net: Net, now: int): Db {
    Send(db, CacheUser(id), Set(Image(image), ttl), net, 0, now)
  }

  function DropImage(db: Db, id: Uuid, net: Net, now: int): Db {
    Send(db, CacheUser(id), Del, net, 0, now)
  }

  function CachedImage(db: Db, id: Uuid, now: int): Option<UserImage> {
    var c := Read(db, CacheUser(id), now);
    if c.Some? && c.value.value.Image? then Some(c.value.value.user) else None
  }

  class CacheRepo {
    const rdb: Client

    constructor (rdb: Client)
      ensures this.rdb == rdb
    {
      this.rdb := rdb;
    }

    method SetJson(id: Uuid, user: User, ttl: int, net: Net, now: int) returns (r: Result<(), AppError>)
      modifies rdb
      ensures rdb.db == StoreImage(old(rdb.db), id, user.ToJson(), ttl, net, now)
      ensures r == if net.Up? then Ok(()) else Err(Internal)
      ensures OnlyTouches(old(rdb.db), rdb.db, {CacheUser(id)})
      ensures r.Ok? ==> CachedImage(rdb.db, id, now) == Some(user.ToJson())
    {
      rdb.Tell(CacheUser(id), Set(Image(user.ToJson()), ttl), net, 0, now);
      r := if net.Up? then Ok(()) else Err(Internal);
    }

    /** A missing key, a failed round trip and text that is not a user's all miss. */
    method GetJson(id: Uuid, net: Net, now: int) returns (r: Result<User, AppError>)
      modifies rdb
      ensures rdb.db == old(rdb.db)
      ensures r.Ok? <==> net.Up? && CachedImage(old(rdb.db), id, now).Some?
      ensures r.Ok? ==> r.value == CachedImage(old(rdb.db), id, now).value.FromJson()
    {
      var reply := rdb.Ask(CacheUser(id), Get, net, 0, now);
      if !net.Up? {
        return Err(Internal);
      }
      match reply {
        case Nil => r := Err(NotFound);
        case Bulk(value) => r := if value.Image? then Ok(value.user.FromJson()) else Err(Internal);
        case _ => r := Err(Internal);
      }
    }

    method Delete(id: Uuid, net: Net, now: int) returns (r: Result<(), AppError>)
      modifies rdb
      ensures rdb.db == DropImage(old(rdb.db), id, net, now)
      ensures r == if net.Up? then Ok(()) else Err(Internal)
      ensures OnlyTouches(old(rdb.db), rdb.db, {CacheUser(id)})
      ensures r.Ok? ==> CachedImage(rdb.db, id, now) == None
    {
      rdb.Tell(CacheUser(id), Del, net, 0, now);
      r := if net.Up? then Ok(()) else Err(Internal);
    }
  }
}
