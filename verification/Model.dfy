/** Domain types of internal/model/user.go and the errors of pkg/apperror. */
module Model {
  import opened Base

  newtype Byte = x: int | 0 <= x < 256
  type Bytes = seq<Byte>

  /** The text form of a UUID: 36 characters with dashes at 8, 13, 18 and 23. */
  type Uuid = s: string | CanonicalUuid(s)
    witness seq(36, i => if i in {8, 13, 18, 23} then '-' else '0')

  predicate HexDigit(c: char) {
    '0' <= c <= '9' || 'a' <= c <= 'f'
  }

  predicate CanonicalUuid(s: string) {
    |s| == 36 && forall i :: 0 <= i < 36 ==> if i in {8, 13, 18, 23} then s[i] == '-' else HexDigit(s[i])
  }

  function Lower(c: char): char {
    if 'A' <= c <= 'Z' then c + ' ' else c
  }

  function LowerAll(s: string): string {
    seq(|s|, i requires 0 <= i < |s| => Lower(s[i]))
  }

  function Canonical(s: string): Option<Uuid> {
    if CanonicalUuid(LowerAll(s)) then Some(LowerAll(s)) else None
  }

  /** uuid.Parse: digits of either case, with or without dashes, in braces (which are not looked at)
    * or after "urn:uuid:".
    */
  function ParseUuid(s: string): (r: Option<Uuid>)
    ensures CanonicalUuid(s) ==> r == Some(s)
  {
    if |s| == 36 then
      assert CanonicalUuid(s) ==> LowerAll(s) == s;
      Canonical(s)
    else if |s| == 45 then (if LowerAll(s[..9]) == "urn:uuid:" then Canonical(s[9..]) else None)
    else if |s| == 38 then Canonical(s[1..37])
    else if |s| == 32 then Canonical(s[..8] + "-" + s[8..12] + "-" + s[12..16] + "-" + s[16..20] + "-" + s[20..])
    else None
  }

  /** The 72 bytes that bcrypt reads: the password and a zero byte, over and over. */
  function BcryptKey(password: Bytes): Bytes {
    seq(72, i requires 0 <= i < 72 => (password + [0])[i % (|password| + 1)])
  }

  /** bcrypt, idealised beyond those bytes: a hash remembers its salt and password; NoHash is Go's empty string. */
  datatype PasswordHash = NoHash | Bcrypt(salt: nat, password: Bytes) {
    /** bcrypt.CompareHashAndPassword succeeds. */
    predicate Accepts(candidate: Bytes) {
      Bcrypt? && BcryptKey(password) == BcryptKey(candidate)
    }
  }

  lemma KeyStartsWithPassword(p: Bytes, i: nat)
    requires i < 72 && i <= |p|
    ensures BcryptKey(p)[i] == if i < |p| then p[i] else 0
  {
    assert i % (|p| + 1) == i;
  }

  lemma KeyTellsLength(p: Bytes, q: Bytes)
    requires |p| <= 72 && |q| <= 72 && 0 !in q && BcryptKey(p) == BcryptKey(q)
    ensures |q| <= |p|
  {
    if |p| < |q| {
      assert q[|p|] in q;
      KeyStartsWithPassword(p, |p|);
      KeyStartsWithPassword(q, |p|);
    }
  }

  /** Bcrypt tells apart passwords of at most 72 bytes without zeros. */
  lemma BcryptReadsShort(p: Bytes, q: Bytes)
    requires |p| <= 72 && |q| <= 72 && 0 !in p && 0 !in q
    ensures BcryptKey(p) == BcryptKey(q) <==> p == q
  {
    if BcryptKey(p) == BcryptKey(q) {
      KeyTellsLength(p, q);
      KeyTellsLength(q, p);
      forall i | 0 <= i < |p| ensures p[i] == q[i] {
        KeyStartsWithPassword(p, i);
        KeyStartsWithPassword(q, i);
      }
    }
  }

  /** Of longer ones it reads the first 72 bytes. */
  lemma BcryptReadsLong(p: Bytes, q: Bytes)
    requires |p| >= 72 && |q| >= 72
    ensures BcryptKey(p) == BcryptKey(q) <==> p[..72] == q[..72]
  {
    forall i | 0 <= i < 72 ensures BcryptKey(p)[i] == p[i] && BcryptKey(q)[i] == q[i] {
      KeyStartsWithPassword(p, i);
      KeyStartsWithPassword(q, i);
    }
    assert p[..72] == q[..72] <==> forall i :: 0 <= i < 72 ==> p[i] == q[i];
  }

  /** bcrypt.GenerateFromPassword refuses passwords longer than 72 bytes. */
  function HashPassword(password: Bytes, salt: nat): Option<PasswordHash> {
    if |password| > 72 then None else Some(Bcrypt(salt, password))
  }

  datatype User = User(
    id: Uuid, tenantId: Option<Uuid>, email: string, passwordHash: PasswordHash,
    role: string, isActive: bool, createdAt: int, updatedAt: int)
  {
    function ToResponse(): UserResponse {
      UserResponse(id, email, role, isActive, createdAt)
    }

    /** The JSON image of a user: the password hash is tagged "-" and is not written. */
    function ToJson(): UserImage {
      UserImage(id, tenantId, email, role, isActive, createdAt, updatedAt)
    }
  }

  datatype UserImage = UserImage(
    id: Uuid, tenantId: Option<Uuid>, email: string,
    role: string, isActive: bool, createdAt: int, updatedAt: int)
  {
    /** json.Unmarshal into a zero User: the hash field keeps its zero value. */
    function FromJson(): User {
      User(id, tenantId, email, NoHash, role, isActive, createdAt, updatedAt)
    }
  }

  datatype UserResponse = UserResponse(id: Uuid, email: string, role: string, isActive: bool, createdAt: int)

  /** What the outside sees of a user. */
  ghost predicate Shows(r: UserResponse, user: User) {
    && r.id == user.id && r.email == user.email && r.role == user.role
    && r.isActive == user.isActive && r.createdAt == user.createdAt
  }

  datatype UpdateUserRequest = UpdateUserRequest(email: Option<string>, role: Option<string>, isActive: Option<bool>)

  datatype AppError =
    | BadRequest | Unauthorized | Forbidden | NotFound | Conflict | TooManyRequests | Internal
}
