/** The user endpoints (internal/handler/user.go). Query parameters and path segments are text;
  * the caller's id and role are the claims of a token that the bearer check let through.
  */
module Handlers {
  import opened Base
  import opened Model
  import opened Redis
  import opened UserTable
  import opened Sessions
  import opened Users
  import opened Auth
  import opened Protocol

  // ---- Query parameters ---------------------------------------------------------------------------

  predicate IsDigit(c: char) {
    '0' <= c <= '9'
  }

  function DigitValue(c: char): (d: nat)
    requires IsDigit(c)
    ensures d < 10 && [c] == [d as char + '0']
  {
    c as int - '0' as int
  }

  predicate IsNumeral(s: string) {
    s != "" && forall i :: 0 <= i < |s| ==> IsDigit(s[i])
  }

  function NumeralValue(s: string): nat
    requires forall i :: 0 <= i < |s| ==> IsDigit(s[i])
  {
    if s == "" then 0 else 10 * NumeralValue(s[..|s| - 1]) + DigitValue(s[|s| - 1])
  }

  /** strconv.Atoi: an optional sign, decimal digits, and a value that fits 64 bits. */
  function Atoi(s: string): Option<int> {
    var signed := s != "" && (s[0] == '-' || s[0] == '+');
    var digits := if signed then s[1..] else s;
    if !IsNumeral(digits) then None
    else
      var n: int := (if signed && s[0] == '-' then -1 else 1) * NumeralValue(digits);
      if MIN_INT64 <= n <= MAX_INT64 then Some(n) else None
  }

  function ParseIntQuery(raw: string, defaultValue: int): int {
    if raw == "" || Atoi(raw).None? then defaultValue else Atoi(raw).value
  }

  /** How a client writes a number. */
  function Decimal(n: nat): string {
    (if n < 10 then "" else Decimal(n / 10)) + [(n % 10) as char + '0']
  }

  lemma {:induction false} DecimalIsNumeral(n: nat)
    ensures IsNumeral(Decimal(n)) && NumeralValue(Decimal(n)) == n
  {
    if n >= 10 {
      DecimalIsNumeral(n / 10);
      assert Decimal(n)[..|Decimal(n)| - 1] == Decimal(n / 10);
    }
  }

  /** A number that fits is read as it was written, whatever the default. */
  lemma NumbersAreRead(n: nat, defaultValue: int)
    requires n <= MAX_INT64
    ensures ParseIntQuery(Decimal(n), defaultValue) == n
  {
    DecimalIsNumeral(n);
    assert IsDigit(Decimal(n)[0]);
  }

  lemma SignsAreRead(n: nat, defaultValue: int)
    requires n <= MAX_INT64
    ensures ParseIntQuery("-" + Decimal(n), defaultValue) == 0 - n
    ensures ParseIntQuery("+" + Decimal(n), defaultValue) == n
  {
    DecimalIsNumeral(n);
    var minus, plus := "-" + Decimal(n), "+" + Decimal(n);
    assert minus[0] == '-' && minus[1..] == Decimal(n);
    assert plus[0] == '+' && plus[1..] == Decimal(n);
    assert Atoi(minus) == Some(0 - n) && Atoi(plus) == Some(n);
  }

  // ---- Listing users ------------------------------------------------------------------------------

  datatype UserPage = UserPage(data: seq<UserResponse>, total: int, page: int, perPage: int)

  function PageNumber(raw: string): (page: int)
    ensures 1 <= page <= MAX_INT64
  {
    var page := ParseIntQuery(raw, 1);
    if page < 1 then 1 else page
  }

  function PageSize(raw: string): (size: int)
    ensures 1 <= size <= 100
  {
    var size := ParseIntQuery(raw, 20);
    if size < 1 then 1 else if size > 100 then 100 else size
  }

  /** The offset that 64-bit arithmetic comes to. */
  function Offset(page: int, size: int): int {
    Wrap64((page - 1) * size)
  }

  /** The rows at that offset; a negative one is refused by the database. */
  function ListPage(ordered: seq<User>, page: int, size: nat, offset: int, up: bool): Result<UserPage, AppError> {
    if !up || offset < 0 then Err(Internal)
    else Ok(UserPage(Responses(Page(ordered, size, offset)), |ordered|, page, size))
  }

  function ListAnswer(
    ordered: seq<User>, role: string, rawPage: string, rawSize: string, up: bool): Result<UserPage, AppError>
  {
    var page, size := PageNumber(rawPage), PageSize(rawSize);
    if role != "admin" then Err(Forbidden) else ListPage(ordered, page, size, Offset(page, size), up)
  }

  lemma WhatFitsStays(x: int)
    requires MIN_INT64 <= x <= MAX_INT64
    ensures Wrap64(x) == x
  {
  }

  lemma OffsetThatFits(page: int, size: int)
    requires page >= 1 && size >= 1
    ensures (page - 1) * size >= 0
    ensures (page - 1) * size <= MAX_INT64 ==> Offset(page, size) == (page - 1) * size
  {
    var offset := (page - 1) * size;
    assert offset >= 0;
    if offset <= MAX_INT64 {
      WhatFitsStays(offset);
    }
  }

  lemma PageLength(ordered: seq<User>, size: nat, offset: nat)
    ensures offset >= |ordered| ==> Page(ordered, size, offset) == []
    ensures offset < |ordered| && size > 0 ==> |Page(ordered, size, offset)| > 0
  {
  }

  lemma ListPageIsRightExactlyWhen(ordered: seq<User>, page: int, size: int, offset: nat, wrapped: int)
    requires |ordered| <= MAX_INT64 && 1 <= size
    requires wrapped != offset ==> offset > MAX_INT64
    ensures
      ListPage(ordered, page, size, wrapped, true) == ListPage(ordered, page, size, offset, true)
      <==> wrapped == offset || wrapped >= |ordered|
  {
    if wrapped != offset && wrapped >= 0 {
      PageLength(ordered, size, offset);
      PageLength(ordered, size, wrapped);
      assert |Responses(Page(ordered, size, offset))| == 0;
      assert |Responses(Page(ordered, size, wrapped))| == |Page(ordered, size, wrapped)|;
    }
  }

  /** An answer shows the page asked for exactly when the offset does not overflow, or overflows to
    * a place past the last row.
    */
  lemma PageIsRightExactlyWhen(ordered: seq<User>, rawPage: string, rawSize: string)
    requires |ordered| <= MAX_INT64
    ensures
      var page, size := PageNumber(rawPage), PageSize(rawSize);
      var offset := (page - 1) * size;
      ListAnswer(ordered, "admin", rawPage, rawSize, true) == ListPage(ordered, page, size, offset, true)
      <==> Offset(page, size) == offset || Offset(page, size) >= |ordered|
  {
    var page, size := PageNumber(rawPage), PageSize(rawSize);
    var offset := (page - 1) * size;
    OffsetThatFits(page, size);
    ListPageIsRightExactlyWhen(ordered, page, size, offset, Offset(page, size));
  }

  /** Far enough out the pages start over: this one shows the first rows again. */
  lemma OverflowShowsFirstPage(ordered: seq<User>, rawPage: string, rawSize: string)
    requires PageNumber(rawPage) == 0x400_0000_0000_0001 && PageSize(rawSize) == 64
    ensures
      ListAnswer(ordered, "admin", rawPage, rawSize, true)
      == Ok(UserPage(Responses(Page(ordered, 64, 0)), |ordered|, 0x400_0000_0000_0001, 64))
  {
  }

  // ---- The pages partition the list ---------------------------------------------------------------

  /** Ceiling of rows / size. */
  function PageCount(rows: nat, size: int): nat
    requires size >= 1
  {
    (rows + size - 1) / size
  }

  /** Rows that the first k pages should cover. */
  function Covered(rows: nat, size: int, k: nat): nat
    requires size >= 1
  {
    if k * size <= rows then k * size else rows
  }

  /** The data of pages 1 to k, one after the other. */
  function Joined(ordered: seq<User>, rawSize: string, k: nat): seq<UserResponse> {
    if k == 0 then []
    else
      var answer := ListAnswer(ordered, "admin", Decimal(k), rawSize, true);
      Joined(ordered, rawSize, k - 1) + (if answer.Ok? then answer.value.data else [])
  }

  lemma MulMono(a: int, b: int, c: nat)
    requires a <= b
    ensures a * c <= b * c
  {
  }

  lemma PagesBeforeTheLast(rows: nat, size: int, k: nat)
    requires size >= 1 && 1 <= k <= PageCount(rows, size)
    ensures (k - 1) * size < rows && k <= rows
  {
    var pages := PageCount(rows, size);
    assert rows + size - 1 == pages * size + (rows + size - 1) % size;
    MulMono(k - 1, pages - 1, size);
    assert (pages - 1) * size == pages * size - size;
    MulMono(1, size, k - 1);
  }

  lemma AllPagesCover(rows: nat, size: int)
    requires size >= 1
    ensures Covered(rows, size, PageCount(rows, size)) == rows
  {
    var pages := PageCount(rows, size);
    assert rows + size - 1 == pages * size + (rows + size - 1) % size;
  }

  lemma CoveredStep(rows: nat, size: int, k: nat)
    requires size >= 1 && 1 <= k <= PageCount(rows, size)
    ensures Covered(rows, size, k - 1) == (k - 1) * size
    ensures
      var lo := Covered(rows, size, k - 1);
      Covered(rows, size, k) == if lo + size <= rows then lo + size else rows
  {
    PagesBeforeTheLast(rows, size, k);
    assert k * size == (k - 1) * size + size;
  }

  lemma PageAnswer(ordered: seq<User>, rawSize: string, k: nat)
    requires |ordered| <= MAX_INT64 && 1 <= k <= PageCount(|ordered|, PageSize(rawSize))
    ensures
      var size := PageSize(rawSize);
      ListAnswer(ordered, "admin", Decimal(k), rawSize, true)
      == ListPage(ordered, k, size, Covered(|ordered|, size, k - 1), true)
  {
    CoveredStep(|ordered|, PageSize(rawSize), k);
    PagesBeforeTheLast(|ordered|, PageSize(rawSize), k);
    NumbersAreRead(k, 1);
    OffsetThatFits(k, PageSize(rawSize));
  }

  lemma JoinedStep(ordered: seq<User>, rawSize: string, k: nat)
    requires |ordered| <= MAX_INT64 && 1 <= k <= PageCount(|ordered|, PageSize(rawSize))
    ensures
      var size := PageSize(rawSize);
      Joined(ordered, rawSize, k)
      == Joined(ordered, rawSize, k - 1) + Responses(Page(ordered, size, Covered(|ordered|, size, k - 1)))
  {
    PageAnswer(ordered, rawSize, k);
  }

  lemma PageIsSlice(ordered: seq<User>, size: nat, lo: nat, hi: nat)
    requires lo <= hi <= |ordered| && hi == (if lo + size <= |ordered| then lo + size else |ordered|)
    ensures Responses(ordered[..lo]) + Responses(Page(ordered, size, lo)) == Responses(ordered[..hi])
  {
  }

  lemma {:induction false} FirstPagesJoin(ordered: seq<User>, rawSize: string, k: nat)
    requires |ordered| <= MAX_INT64 && k <= PageCount(|ordered|, PageSize(rawSize))
    ensures Joined(ordered, rawSize, k) == Responses(ordered[..Covered(|ordered|, PageSize(rawSize), k)])
    decreases k
  {
    if k > 0 {
      var size := PageSize(rawSize);
      FirstPagesJoin(ordered, rawSize, k - 1);
      JoinedStep(ordered, rawSize, k);
      CoveredStep(|ordered|, size, k);
      PageIsSlice(ordered, size, Covered(|ordered|, size, k - 1), Covered(|ordered|, size, k));
    }
  }

  /** Pages 1 to ceil(n / size), for whatever size was asked for, are all served; put together they
    * show every row of the table exactly once, in the order of the listing.
    */
  lemma PagesPartitionTheList(rows: Table, ordered: seq<User>, rawSize: string, id: Uuid)
    requires Consistent(rows) && Listing(rows, ordered) && |ordered| <= MAX_INT64
    ensures
      var pages := PageCount(|ordered|, PageSize(rawSize));
      var shown := Joined(ordered, rawSize, pages);
      && (forall p: nat :: 1 <= p <= pages ==> ListAnswer(ordered, "admin", Decimal(p), rawSize, true).Ok?)
      && shown == Responses(ordered)
      && (id in rows <==> exists i :: 0 <= i < |shown| && shown[i] == ordered[i].ToResponse() && shown[i].id == id)
      && (forall i, j :: 0 <= i < |shown| && 0 <= j < |shown| && shown[i].id == id && shown[j].id == id ==> i == j)
  {
    var size := PageSize(rawSize);
    var pages := PageCount(|ordered|, size);
    FirstPagesJoin(ordered, rawSize, pages);
    AllPagesCover(|ordered|, size);
    forall p: nat | 1 <= p <= pages ensures ListAnswer(ordered, "admin", Decimal(p), rawSize, true).Ok? {
      PageAnswer(ordered, rawSize, p);
    }
    assert ordered[..|ordered|] == ordered;
    var shown := Responses(ordered);
    if id in rows {
      var i :| 0 <= i < |ordered| && ordered[i] == rows[id];
      assert shown[i].id == id;
    }
  }

  // ---- Reading and deleting a user -----------------------------------------------------------------

  function GetAnswer(
    db: Db, rows: Table, cached: bool, rawId: string, callerId: string, callerRole: string,
    f: ReadFaults, now: int): After<UserResponse>
  {
    var id := ParseUuid(rawId);
    if id.None? then After(db, rows, Err(BadRequest))
    else if callerRole != "admin" && callerId != id.value then After(db, rows, Err(Forbidden))
    else
      var after := FetchById(db, rows, cached, id.value, f, now);
      var reply := if after.reply.Ok? then Ok(after.reply.value.ToResponse()) else Err(after.reply.error);
      After(after.db, after.rows, reply)
  }

  /** The route asks for the role before the handler looks at the id. */
  function DeleteAnswer(
    db: Db, rows: Table, cached: bool, rawId: string, callerRole: string, f: WriteFaults, now: int): After<()>
  {
    var id := ParseUuid(rawId);
    if callerRole != "admin" then After(db, rows, Err(Forbidden))
    else if id.None? then After(db, rows, Err(BadRequest))
    else DeleteUser(db, rows, cached, id.value, f, now)
  }

  /** Behind the bearer check, reads and deletions of the protocol are these endpoints. */
  lemma ReadsAndDeletionsAreHandlers(cfg: Config, w: World, at: int, call: Call)
    requires (call.GetUser? || call.DeleteAccount?) && Authenticated(w, call.bearer, at)
    ensures call.GetUser? ==>
      var w' := DoGet(cfg, w, at, call);
      var answer := GetAnswer(w.db, w.rows, cfg.cached, call.id, call.bearer.subject, call.bearer.role, READS_WELL, at);
      && w'.db == answer.db && w'.rows == answer.rows
      && w'.log
         == w.log + [if answer.reply == Err(Forbidden) then Refused(at, Forbidden) else Answered(at, answer.reply)]
    ensures call.DeleteAccount? ==>
      var w' := DoDelete(cfg, w, at, call);
      var answer := DeleteAnswer(w.db, w.rows, cfg.cached, call.id, call.bearer.role, WRITES_WELL, at);
      && w'.db == answer.db && w'.rows == answer.rows
      && w'.log == w.log + [if answer.reply.Ok? then Deleted(at, call.id) else Refused(at, answer.reply.error)]
  {
  }

  // ---- Changing a user ----------------------------------------------------------------------------

  /** `body` is None when the request body is not JSON of the right shape. */
  function UpdateAnswer(
    db: Db, rows: Table, cached: bool, rawId: string, callerId: string, callerRole: string,
    body: Option<UpdateUserRequest>, f: WriteFaults, now: int): After<UserResponse>
  {
    var id := ParseUuid(rawId);
    if id.None? then After(db, rows, Err(BadRequest))
    else if callerRole != "admin" && callerId != id.value then After(db, rows, Err(Forbidden))
    else if body.None? then After(db, rows, Err(BadRequest))
    else
      var after := UpdateUser(db, rows, cached, id.value, body.value, callerRole, f, now);
      var reply := if after.reply.Ok? then Ok(after.reply.value.ToResponse()) else Err(after.reply.error);
      After(after.db, after.rows, reply)
  }

  /** Behind the bearer check, a profile update of the protocol is this endpoint with the token's claims. */
  lemma ProfileUpdateIsHandler(cfg: Config, w: World, at: int, call: Call)
    requires call.UpdateProfile? && Authenticated(w, call.bearer, at)
    ensures
      var w' := DoUpdate(cfg, w, at, call);
      var answer := UpdateAnswer(w.db, w.rows, cfg.cached, call.id, call.bearer.subject, call.bearer.role,
        Some(call.req), Writes(call.up), at);
      && w'.db == answer.db && w'.rows == answer.rows
      && w'.log
         == w.log + [if answer.reply == Err(Forbidden) then Refused(at, Forbidden) else Answered(at, answer.reply)]
  {
  }

  class UserHandler {
    const svc: UserService

    constructor (svc: UserService)
      ensures this.svc == svc
    {
      this.svc := svc;
    }

    method ListUsers(role: string, rawPage: string, rawSize: string, ordered: seq<User>, up: bool)
      returns (r: Result<UserPage, AppError>)
      requires Consistent(svc.repo.rows) && Listing(svc.repo.rows, ordered)
      ensures r == ListAnswer(ordered, role, rawPage, rawSize, up)
      ensures r == Err(Forbidden) <==> role != "admin"
    {
      if role != "admin" {
        return Err(Forbidden);
      }
      var page := ParseIntQuery(rawPage, 1);
      var perPage := ParseIntQuery(rawSize, 20);
      if page < 1 {
        page := 1;
      }
      if perPage < 1 {
        perPage := 1;
      }
      if perPage > 100 {
        perPage := 100;
      }
      var offset := Wrap64((page - 1) * perPage);
      var listed := svc.List(perPage, offset, ordered, up);
      if listed.Err? {
        return Err(listed.error);
      }
      ListingCountsRows(svc.repo.rows, ordered);
      r := Ok(UserPage(listed.value.0, listed.value.1, page, perPage));
    }

    method GetUser(rawId: string, callerId: string, callerRole: string, f: ReadFaults, now: int)
      returns (r: Result<UserResponse, AppError>)
      requires svc.Valid()
      modifies svc.rdb
      ensures
        After(svc.rdb.db, svc.repo.rows, r)
        == GetAnswer(old(svc.rdb.db), svc.repo.rows, svc.cache != null, rawId, callerId, callerRole, f, now)
      ensures
        r == Err(Forbidden) <==>
          ParseUuid(rawId).Some? && callerRole != "admin" && callerId != ParseUuid(rawId).value
    {
      var id := ParseUuid(rawId);
      if id.None? {
        return Err(BadRequest);
      }
      if callerRole != "admin" && callerId != id.value {
        return Err(Forbidden);
      }
      var user := svc.GetById(id.value, f, now);
      r := if user.Ok? then Ok(user.value.ToResponse()) else Err(user.error);
    }

    /** The role check of the route, then the handler. */
    method DeleteUser(rawId: string, callerRole: string, f: WriteFaults, now: int) returns (r: Result<(), AppError>)
      requires svc.Valid()
      modifies svc.repo, svc.rdb
      ensures
        After(svc.rdb.db, svc.repo.rows, r)
        == DeleteAnswer(old(svc.rdb.db), old(svc.repo.rows), svc.cache != null, rawId, callerRole, f, now)
      ensures r == Err(Forbidden) <==> callerRole != "admin"
    {
      if callerRole != "admin" {
        return Err(Forbidden);
      }
      var id := ParseUuid(rawId);
      if id.None? {
        return Err(BadRequest);
      }
      r := svc.Delete(id.value, f, now);
    }

    method UpdateUser(
      rawId: string, callerId: string, callerRole: string, body: Option<UpdateUserRequest>, f: WriteFaults, now: int)
      returns (r: Result<UserResponse, AppError>)
      requires svc.Valid()
      modifies svc.repo, svc.rdb
      ensures
        After(svc.rdb.db, svc.repo.rows, r)
        == UpdateAnswer(
             old(svc.rdb.db), old(svc.repo.rows), svc.cache != null, rawId, callerId, callerRole, body, f, now)
      ensures
        var id := ParseUuid(rawId);
        r.Ok? && Consistent(old(svc.repo.rows)) ==>
          id.Some? && id.value in svc.repo.rows && Shows(r.value, svc.repo.rows[id.value])
      ensures
        r == Err(Forbidden) <==>
          ParseUuid(rawId).Some? && callerRole != "admin" && callerId != ParseUuid(rawId).value
    {
      var id := ParseUuid(rawId);
      if id.None? {
        return Err(BadRequest);
      }
      if callerRole != "admin" && callerId != id.value {
        return Err(Forbidden);
      }
      if body.None? {
        return Err(BadRequest);
      }
      ghost var db, rows := svc.rdb.db, svc.repo.rows;
      var updated := svc.Update(id.value, body.value, callerRole, f, now);
      if updated.Ok? && Consistent(rows) {
        AnswerIsRow(db, rows, svc.cache != null, id.value, body.value, callerRole, f, now);
      }
      r := if updated.Ok? then Ok(updated.value.ToResponse()) else Err(updated.error);
    }
  }
}
