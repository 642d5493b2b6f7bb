/** The user service (internal/service/user.go): the table behind a read-through cache.
  * `cached` says whether the service was given a cache.
  */
module Users {
  import opened Base
  import opened Model
  import opened Redis
  import opened UserTable
  import opened Sessions

  const USER_CACHE_TTL := 5 * MINUTE

  /** How the round trips of a read go: cache GET, table SELECT, cache SET. */
  datatype ReadFaults = ReadFaults(lookup: Net, find: bool, fill: Net)

  /** How the round trips of a write go: table SELECT, table UPDATE, cache DEL. */
  datatype WriteFaults = WriteFaults(find: bool, write: Statement, drop: Net)

  const READS_WELL := ReadFaults(Up, true, Up)
  const WRITES_WELL := WriteFaults(true, Works, Up)

  function Writes(up: bool): WriteFaults {
    WRITES_WELL.(write := if up then Works else Fails)
  }

  /** Keys, rows and answer after a call. */
  datatype After<+T> = After(db: Db, rows: Table, reply: Result<T, AppError>)

  function FetchById(db: Db, rows: Table, cached: bool, id: Uuid, f: ReadFaults, now: int): After<User> {
    if cached && f.lookup.Up? && CachedImage(db, id, now).Some? then
      After(db, rows, Ok(CachedImage(db, id, now).value.FromJson()))
    else
      var found := SelectById(rows, id, f.find);
      if found.Err? then After(db, rows, found)
      else
        var filled := StoreImage(db, id, found.value.ToJson(), USER_CACHE_TTL, f.fill, now);
        After(if cached then filled else db, rows, found)
  }

  function CreateUser(
    db: Db, rows: Table, email: string, password: Bytes, role: string, id: Uuid, salt: nat, sql: Statement): After<User>
  {
    var hash := HashPassword(password, salt);
    if hash.None? then After(db, rows, Err(Internal))
    else
      // The creation times are left at Go's zero time.
      var user := User(id, None, email, hash.value, role, true, 0, 0);
      var inserted := Insert(rows, user, !sql.Fails?);
      if inserted.Err? then After(db, rows, Err(if sql.Works? then inserted.error else Internal))
      else After(db, inserted.value, if sql.Works? then Ok(user) else Err(Internal))
  }

  /** A role change by anyone but an admin is silently dropped. */
  function Patch(user: User, req: UpdateUserRequest, callerRole: string): User {
    user.(
      email := if req.email.Some? then req.email.value else user.email,
      isActive := if req.isActive.Some? then req.isActive.value else user.isActive,
      role := if req.role.Some? && callerRole == "admin" then req.role.value else user.role)
  }

  function UpdateUser(
    db: Db, rows: Table, cached: bool, id: Uuid, req: UpdateUserRequest, callerRole: string,
    f: WriteFaults, now: int): After<User>
  {
    var found := SelectById(rows, id, f.find);
    if found.Err? then After(db, rows, found)
    else
      var user := Patch(found.value, req, callerRole);
      var written := UpdateRow(rows, user, !f.write.Fails?, now);
      if written.Err? then After(db, rows, Err(written.error))
      else if f.write.ReplyLost? then After(db, written.value, Err(Internal))
      else After(if cached then DropImage(db, id, f.drop, now) else db, written.value, Ok(user))
  }

  /** The answer of an update is the row as written, but for the time that the database puts in. */
  lemma AnswerIsRow(
    db: Db, rows: Table, cached: bool, id: Uuid, req: UpdateUserRequest, callerRole: string, f: WriteFaults, now: int)
    requires Consistent(rows) && UpdateUser(db, rows, cached, id, req, callerRole, f, now).reply.Ok?
    ensures
      var after := UpdateUser(db, rows, cached, id, req, callerRole, f, now);
      id in after.rows && after.rows[id] == after.reply.value.(updatedAt := now)
  {
  }

  function DeleteUser(db: Db, rows: Table, cached: bool, id: Uuid, f: WriteFaults, now: int): After<()> {
    var found := SelectById(rows, id, f.find);
    if found.Err? then After(db, rows, Err(found.error))
    else
      var written := Deactivate(rows, id, !f.write.Fails?, now);
      if written.Err? then After(db, rows, Err(written.error))
      else if f.write.ReplyLost? then After(db, written.value, Err(Internal))
      else After(if cached then DropImage(db, id, f.drop, now) else db, written.value, Ok(()))
  }

  function ChangePassword(
    db: Db, rows: Table, cached: bool, id: Uuid, hash: PasswordHash, f: WriteFaults, now: int): After<()>
  {
    var written := UpdateHash(rows, id, hash, !f.write.Fails?, now);
    if written.Err? then After(db, rows, Err(written.error))
    else if f.write.ReplyLost? then After(db, written.value, Err(Internal))
    else After(if cached then DropImage(db, id, f.drop, now) else db, written.value, Ok(()))
  }

  function Responses(users: seq<User>): seq<UserResponse> {
    seq(|users|, i requires 0 <= i < |users| => users[i].ToResponse())
  }

  class UserService {
    const repo: UserRepository
    const cache: CacheRepo?
    /** The keys the cache lives among; the session repository may share them. */
    const rdb: Client

    ghost predicate Valid() {
      cache != null ==> cache.rdb == rdb
    }

    constructor (repo: UserRepository, cache: CacheRepo?, rdb: Client)
      requires cache != null ==> cache.rdb == rdb
      ensures Valid() && this.repo == repo && this.cache == cache && this.rdb == rdb
    {
      this.repo := repo;
      this.cache := cache;
      this.rdb := rdb;
    }

    method GetById(id: Uuid, f: ReadFaults, now: int) returns (r: Result<User, AppError>)
      requires Valid()
      modifies rdb
      ensures After(rdb.db, repo.rows, r) == FetchById(old(rdb.db), repo.rows, cache != null, id, f, now)
    {
      if cache != null {
        var hit := cache.GetJson(id, f.lookup, now);
        if hit.Ok? {
          return hit;
        }
      }
      r := repo.FindById(id, f.find);
      if r.Err? {
        return;
      }
      if cache != null {
        var _ := cache.SetJson(id, r.value, USER_CACHE_TTL, f.fill, now);
      }
    }

    method GetByEmail(email: string, up: bool) returns (r: Result<User, AppError>)
      requires Consistent(repo.rows)
      ensures r == SelectByEmail(repo.rows, email, up)
    {
      r := repo.FindByEmail(email, up);
    }

    method Create(email: string, password: Bytes, role: string, id: Uuid, salt: nat, sql: Statement)
      returns (r: Result<User, AppError>)
      modifies repo
      ensures After(rdb.db, repo.rows, r) == CreateUser(rdb.db, old(repo.rows), email, password, role, id, salt, sql)
      ensures Consistent(old(repo.rows)) ==> Consistent(repo.rows)
      ensures r.Ok? ==> r.value.isActive && r.value.role == role && r.value.email == email && r.value.id == id
      ensures r.Ok? ==> id in repo.rows && repo.rows[id] == r.value
    {
      var hash := HashPassword(password, salt);
      if hash.None? {
        return Err(Internal);
      }
      var user := User(id, None, email, hash.value, role, true, 0, 0);
      var inserted := repo.Create(user, sql);
      r := if inserted.Err? then Err(inserted.error) else Ok(user);
    }

    /** The fields that the request names, assigned one after the other. */
    method Patched(found: User, req: UpdateUserRequest, callerRole: string) returns (user: User)
      ensures user == Patch(found, req, callerRole)
    {
      user := found;
      if req.email.Some? {
        user := user.(email := req.email.value);
      }
      if req.isActive.Some? {
        user := user.(isActive := req.isActive.value);
      }
      if req.role.Some? {
        if callerRole == "admin" {
          user := user.(role := req.role.value);
        }
      }
    }

    method Update(id: Uuid, req: UpdateUserRequest, callerRole: string, f: WriteFaults, now: int)
      returns (r: Result<User, AppError>)
      requires Valid()
      modifies repo, rdb
      ensures
        After(rdb.db, repo.rows, r)
        == UpdateUser(old(rdb.db), old(repo.rows), cache != null, id, req, callerRole, f, now)
      ensures Consistent(old(repo.rows)) ==> Consistent(repo.rows)
    {
      var found := repo.FindById(id, f.find);
      if found.Err? {
        return found;
      }
      var user := Patched(found.value, req, callerRole);
      var written := repo.Update(user, f.write, now);
      if written.Err? {
        return Err(written.error);
      }
      if cache != null {
        var _ := cache.Delete(id, f.drop, now);
      }
      r := Ok(user);
    }

    method Delete(id: Uuid, f: WriteFaults, now: int) returns (r: Result<(), AppError>)
      requires Valid()
      modifies repo, rdb
      ensures After(rdb.db, repo.rows, r) == DeleteUser(old(rdb.db), old(repo.rows), cache != null, id, f, now)
      ensures Consistent(old(repo.rows)) ==> Consistent(repo.rows)
      ensures r.Ok? ==> id in repo.rows && !repo.rows[id].isActive
    {
      var found := repo.FindById(id, f.find);
      if found.Err? {
        return Err(found.error);
      }
      var written := repo.Delete(id, f.write, now);
      if written.Err? {
        return Err(written.error);
      }
      if cache != null {
        var _ := cache.Delete(id, f.drop, now);
      }
      r := Ok(());
    }

    method UpdatePassword(id: Uuid, hash: PasswordHash, f: WriteFaults, now: int) returns (r: Result<(), AppError>)
      requires Valid()
      modifies repo, rdb
      ensures After(rdb.db, repo.rows, r)
        == ChangePassword(old(rdb.db), old(repo.rows), cache != null, id, hash, f, now)
      ensures Consistent(old(repo.rows)) ==> Consistent(repo.rows)
    {
      var written := repo.UpdatePassword(id, hash, f.write, now);
      if written.Err? {
        return Err(written.error);
      }
      if cache != null {
        var _ := cache.Delete(id, f.drop, now);
      }
      r := Ok(());
    }

    method List(limit: int, offset: int, ordered: seq<User>, up: bool)
      returns (r: Result<(seq<UserResponse>, int), AppError>)
      requires Listing(repo.rows, ordered)
      ensures
        if up && 0 <= offset && 0 <= limit then r == Ok((Responses(Page(ordered, limit, offset)), |repo.rows|))
        else r == Err(Internal)
    {
      var listed := repo.List(limit, offset, ordered, up);
      if listed.Err? {
        return Err(listed.error);
      }
      var (users, total) := listed.value;
      var responses: seq<UserResponse> := [];
      for i := 0 to |users|
        invariant |responses| == i
        invariant forall j :: 0 <= j < i ==> responses[j] == users[j].ToResponse()
      {
        responses := responses + [users[i].ToResponse()];
      }
      assert responses == Responses(users);
      r := Ok((responses, total));
    }
  }
}
