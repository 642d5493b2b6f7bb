/** The users table and its repository (internal/repository/postgres/user.go). */
module UserTable {
  import opened Base
  import opened Model

  type Table = map<Uuid, User>

  /** How an INSERT or UPDATE goes. With its reply lost it takes effect, but the caller gets an error.
    * A bool `up` below says only whether a statement reached the database.
    */
  datatype Statement = Works | Fails | ReplyLost

  /** The CHECK constraint on users.role. */
  predicate RoleAllowed(role: string) {
    role == "user" || role == "admin" || role == "moderator"
  }

  /** The constraints that the schema declares. */
  ghost predicate Consistent(rows: Table) {
    && (forall id :: id in rows ==> rows[id].id == id && RoleAllowed(rows[id].role))
    && (forall id, jd :: id in rows && jd in rows && rows[id].email == rows[jd].email ==> id == jd)
  }

  predicate EmailTaken(rows: Table, email: string, owner: Uuid) {
    exists id :: id in rows && id != owner && rows[id].email == email
  }

  function Insert(rows: Table, user: User, up: bool): Result<Table, AppError> {
    if !up || !RoleAllowed(user.role) then Err(Internal)
    else if user.id in rows || EmailTaken(rows, user.email, user.id) then Err(Conflict)
    else Ok(rows[user.id := user])
  }

  /** Active rows only. */
  function SelectById(rows: Table, id: Uuid, up: bool): Result<User, AppError> {
    if !up then Err(Internal)
    else if id in rows && rows[id].isActive then Ok(rows[id])
    else Err(NotFound)
  }

  /** Rows of any status. */
  ghost function SelectByEmail(rows: Table, email: string, up: bool): Result<User, AppError> {
    if !up then Err(Internal)
    else if id :| id in rows && rows[id].email == email then Ok(rows[id])
    else Err(NotFound)
  }

  /** A violated constraint is reported as an internal error, not as a conflict. */
  function UpdateRow(rows: Table, user: User, up: bool, now: int): Result<Table, AppError> {
    if !up then Err(Internal)
    else if user.id !in rows then Ok(rows)
    else if !RoleAllowed(user.role) || EmailTaken(rows, user.email, user.id) then Err(Internal)
    else
      var row := rows[user.id].(email := user.email, role := user.role, isActive := user.isActive, updatedAt := now);
      Ok(rows[user.id := row])
  }

  function UpdateHash(rows: Table, id: Uuid, hash: PasswordHash, up: bool, now: int): Result<Table, AppError> {
    if !up then Err(Internal)
    else if id !in rows then Ok(rows)
    else Ok(rows[id := rows[id].(passwordHash := hash, updatedAt := now)])
  }

  function Deactivate(rows: Table, id: Uuid, up: bool, now: int): Result<Table, AppError> {
    if !up then Err(Internal)
    else if id !in rows then Ok(rows)
    else Ok(rows[id := rows[id].(isActive := false, updatedAt := now)])
  }

  // ---- Every statement keeps the constraints ----------------------------------------------------

  lemma InsertKeepsConstraints(rows: Table, user: User, up: bool)
    requires Consistent(rows) && Insert(rows, user, up).Ok?
    ensures Consistent(Insert(rows, user, up).value)
  {
  }

  lemma UpdateRowKeepsConstraints(rows: Table, user: User, up: bool, now: int)
    requires Consistent(rows) && UpdateRow(rows, user, up, now).Ok?
    ensures Consistent(UpdateRow(rows, user, up, now).value)
  {
  }

  lemma UpdateHashKeepsConstraints(rows: Table, id: Uuid, hash: PasswordHash, up: bool, now: int)
    requires Consistent(rows) && UpdateHash(rows, id, hash, up, now).Ok?
    ensures Consistent(UpdateHash(rows, id, hash, up, now).value)
  {
  }

  lemma DeactivateKeepsConstraints(rows: Table, id: Uuid, up: bool, now: int)
    requires Consistent(rows) && Deactivate(rows, id, up, now).Ok?
    ensures Consistent(Deactivate(rows, id, up, now).value)
  {
  }

  /** `ordered` is an answer that ORDER BY created_at DESC may give; ties fall in any order. */
  ghost predicate Listing(rows: Table, ordered: seq<User>) {
    && (forall i :: 0 <= i < |ordered| ==> ordered[i].id in rows && rows[ordered[i].id] == ordered[i])
    && (forall id :: id in rows ==> rows[id] in ordered)
    && (forall i, j :: 0 <= i < j < |ordered| ==>
      ordered[i].id != ordered[j].id && ordered[i].createdAt >= ordered[j].createdAt)
  }

  function Ids(ordered: seq<User>): (ids: seq<Uuid>)
    ensures |ids| == |ordered|
  {
    seq(|ordered|, i requires 0 <= i < |ordered| => ordered[i].id)
  }

  /** The listing has as many rows as COUNT(*) says. */
  lemma ListingCountsRows(rows: Table, ordered: seq<User>)
    requires Consistent(rows) && Listing(rows, ordered)
    ensures |ordered| == |rows|
  {
    var ids := Ids(ordered);
    DistinctCount(ids);
    forall id | id in rows ensures id in ids {
      var i :| 0 <= i < |ordered| && ordered[i] == rows[id];
      assert ids[i] == id;
    }
    assert (set id | id in ids) == rows.Keys;
  }

  /** Up to `count` rows from position `lo`, every column but the password hash. */
  function Stripped(ordered: seq<User>, lo: nat, count: nat): seq<User>
    requires count == 0 || lo + count <= |ordered|
  {
    seq(count, i requires 0 <= i < count => ordered[lo + i].(passwordHash := NoHash))
  }

  /** LIMIT and OFFSET on the ordered rows. */
  function Page(ordered: seq<User>, limit: nat, offset: nat): seq<User> {
    var rest := if offset < |ordered| then |ordered| - offset else 0;
    Stripped(ordered, offset, if limit < rest then limit else rest)
  }

  class UserRepository {
    var rows: Table

    constructor ()
      ensures rows == map[]
    {
      rows := map[];
    }

    /** Refuses a taken id or e-mail as a conflict; anything else that goes wrong is internal. */
    method Create(user: User, sql: Statement) returns (r: Result<(), AppError>)
      modifies this
      ensures
        var taken := user.id in old(rows) || exists id :: id in old(rows) && old(rows)[id].email == user.email;
        && (r.Ok? <==> sql.Works? && RoleAllowed(user.role) && !taken)
        && (r == Err(Conflict) <==> sql.Works? && RoleAllowed(user.role) && taken)
        && (r.Err? ==> r.error == Conflict || r.error == Internal)
        && rows == if !sql.Fails? && RoleAllowed(user.role) && !taken then old(rows)[user.id := user] else old(rows)
      ensures Consistent(old(rows)) ==> Consistent(rows)
    {
      if sql.Fails? || !RoleAllowed(user.role) {
        return Err(Internal);
      }
      if user.id in rows || exists id :: id in rows && rows[id].email == user.email {
        return Err(if sql.Works? then Conflict else Internal);
      }
      rows := rows[user.id := user];
      r := if sql.Works? then Ok(()) else Err(Internal);
    }

    method FindById(id: Uuid, up: bool) returns (r: Result<User, AppError>)
      ensures r == SelectById(rows, id, up)
    {
      if !up {
        return Err(Internal);
      }
      r := if id in rows && rows[id].isActive then Ok(rows[id]) else Err(NotFound);
    }

    method FindByEmail(email: string, up: bool) returns (r: Result<User, AppError>)
      requires Consistent(rows)
      ensures r == SelectByEmail(rows, email, up)
    {
      if !up {
        return Err(Internal);
      }
      if id :| id in rows && rows[id].email == email {
        r := Ok(rows[id]);
      } else {
        r := Err(NotFound);
      }
    }

    /** Any violated constraint is an internal error here, a taken e-mail too. */
    method Update(user: User, sql: Statement, now: int) returns (r: Result<(), AppError>)
      modifies this
      ensures
        var taken := exists id :: id in old(rows) && id != user.id && old(rows)[id].email == user.email;
        var refused := user.id in old(rows) && (!RoleAllowed(user.role) || taken);
        && r == (if sql.Works? && !refused then Ok(()) else Err(Internal))
        && (sql.Fails? || refused || user.id !in old(rows) ==> rows == old(rows))
        && (!sql.Fails? && !refused && user.id in old(rows) ==>
              rows == old(rows)[user.id := old(rows)[user.id].(
                email := user.email, role := user.role, isActive := user.isActive, updatedAt := now)])
      ensures
        var written := UpdateRow(old(rows), user, !sql.Fails?, now);
        && (r.Ok? <==> sql.Works? && written.Ok?)
        && rows == if written.Ok? then written.value else old(rows)
      ensures Consistent(old(rows)) ==> Consistent(rows)
    {
      if sql.Fails? {
        return Err(Internal);
      }
      if user.id in rows {
        if !RoleAllowed(user.role) || exists id :: id in rows && id != user.id && rows[id].email == user.email {
          return Err(Internal);
        }
        var row := rows[user.id];
        rows := rows[
          user.id := row.(email := user.email, role := user.role, isActive := user.isActive, updatedAt := now)];
      }
      r := if sql.Works? then Ok(()) else Err(Internal);
    }

    method UpdatePassword(id: Uuid, hash: PasswordHash, sql: Statement, now: int) returns (r: Result<(), AppError>)
      modifies this
      ensures r == if sql.Works? then Ok(()) else Err(Internal)
      ensures
        rows == if !sql.Fails? && id in old(rows)
                then old(rows)[id := old(rows)[id].(passwordHash := hash, updatedAt := now)]
                else old(rows)
      ensures Consistent(old(rows)) ==> Consistent(rows)
    {
      if sql.Fails? {
        return Err(Internal);
      }
      if id in rows {
        rows := rows[id := rows[id].(passwordHash := hash, updatedAt := now)];
      }
      r := if sql.Works? then Ok(()) else Err(Internal);
    }

    method Delete(id: Uuid, sql: Statement, now: int) returns (r: Result<(), AppError>)
      modifies this
      ensures r == if sql.Works? then Ok(()) else Err(Internal)
      ensures
        rows == if !sql.Fails? && id in old(rows)
                then old(rows)[id := old(rows)[id].(isActive := false, updatedAt := now)]
                else old(rows)
      ensures Consistent(old(rows)) ==> Consistent(rows)
    {
      if sql.Fails? {
        return Err(Internal);
      }
      if id in rows {
        rows := rows[id := rows[id].(isActive := false, updatedAt := now)];
      }
      r := if sql.Works? then Ok(()) else Err(Internal);
    }

    /** Appends the selected rows one by one; PostgreSQL refuses a negative OFFSET or LIMIT. */
    method List(limit: int, offset: int, ordered: seq<User>, up: bool)
      returns (r: Result<(seq<User>, int), AppError>)
      requires Listing(rows, ordered)
      ensures
        if up && 0 <= offset && 0 <= limit then r == Ok((Page(ordered, limit, offset), |rows|)) else r == Err(Internal)
    {
      if !up || offset < 0 || limit < 0 {
        return Err(Internal);
      }
      var users: seq<User> := [];
      var next := offset;
      while next < |ordered| && |users| < limit
        invariant offset <= next && |users| == next - offset <= limit
        invariant offset < |ordered| ==> next <= |ordered|
        invariant offset >= |ordered| ==> next == offset
        invariant users == Stripped(ordered, offset, next - offset)
      {
        users := users + [ordered[next].(passwordHash := NoHash)];
        next := next + 1;
      }
      r := Ok((users, |rows|));
    }
  }
}
