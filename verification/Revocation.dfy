/** The blocklist forgets (its entries expire) and yet works as a set that never forgets:
  * BlocklistIsRevokedSet says so for every run, and SoundExactlyWhen says for which lifetimes.
  * Token times follow sections 4.1.4, 4.1.5 and 4.1.7 of RFC 7519.
  */
module Revocation {
  import opened Base
  import opened Model
  import opened Redis
  import opened Keyspace
  import opened UserTable
  import opened Sessions
  import opened Users
  import opened Auth
  import opened Protocol

  /** The token id was logged out at some time. */
  ghost predicate EverLoggedOut(log: seq<Event>, jti: string) {
    exists i :: 0 <= i < |log| && log[i].LoggedOut? && log[i].jti == jti
  }

  /** An entry that lasts until the token is dead anyway. */
  ghost predicate BlockedForLife(db: Db, token: AccessToken, clock: int) {
    || token.expiresAt <= clock
    || (Blocklist(token.jti) in db
        && (db[Blocklist(token.jti)].deadline.None? || token.expiresAt <= db[Blocklist(token.jti)].deadline.value))
  }

  ghost predicate Inv(jwt: JwtConfig, w: World) {
    && (forall a :: a in w.minted ==> a.jti in w.drawn && a.expiresAt <= w.clock + Longest(jwt))
    && (forall a, b :: a in w.minted && b in w.minted && a.jti == b.jti ==> a == b)
    && (forall i :: 0 <= i < |w.log| && w.log[i].LoggedOut? ==> w.log[i].jti in w.drawn)
    && (forall jti :: Blocklist(jti) in w.db ==> EverLoggedOut(w.log, jti))
    && (forall a :: a in w.minted && EverLoggedOut(w.log, a.jti) ==> BlockedForLife(w.db, a, w.clock))
  }

  /** Lifetimes of zero or less give tokens that are never valid. */
  function Longest(jwt: JwtConfig): int {
    if jwt.accessTtl > 0 then jwt.accessTtl else 0
  }

  /** The lifetime given to blocklist entries is unlimited or no shorter than a token's. */
  predicate BlocksLongEnough(jwt: JwtConfig) {
    jwt.RefreshTtl() <= 0 || SetLifetime(jwt.RefreshTtl()) >= jwt.accessTtl
  }

  lemma EverLoggedOutStep(w: World, w': World, jti: string)
    requires |w'.log| == |w.log| + 1 && w'.log[..|w.log|] == w.log
    ensures
      EverLoggedOut(w'.log, jti)
      <==> EverLoggedOut(w.log, jti) || (w'.log[|w.log|].LoggedOut? && w'.log[|w.log|].jti == jti)
  {
  }

  /** What a signed token looks like. */
  lemma SignedTokenShape(cfg: Config, w: World, at: int, call: Call)
    requires Enabled(w, at, call)
    ensures
      var w' := Do(cfg, w, at, call);
      && |w'.log| == |w.log| + 1
      && var e := w'.log[|w.log|];
      Signs(e) ==> e.access.jti !in w.drawn && e.access.jti in w'.drawn && e.access.expiresAt <= at + cfg.jwt.accessTtl
  {
    CallFrame(cfg, w, at, call, Blocklist(""));
    var w' := Do(cfg, w, at, call);
    if Signs(w'.log[|w.log|]) {
      assert call.Login? || call.RefreshSession?;
      assert Draws(call) == [call.jti, call.token];
      assert call.jti !in w.drawn && call.jti in (set s | s in Draws(call));
      if call.Login? {
        assert w' == DoLogin(cfg, w, at, call);
        assert w'.log[|w.log|].access.jti == call.jti;
      } else {
        assert w' == DoRefresh(cfg, w, at, call);
        assert w'.log[|w.log|].access.jti == call.jti;
      }
    }
  }

  lemma LogoutBlocks(cfg: Config, w: World, at: int, call: Call, jti: string)
    requires call.Logout?
    ensures
      var w' := DoLogout(cfg, w, at, call);
      if Authenticated(w, call.bearer, at) && jti == call.bearer.jti
      then At(w'.db, Blocklist(jti)) == Some(Entry(Text("1"), Deadline(cfg.jwt.RefreshTtl(), at)))
      else At(w'.db, Blocklist(jti)) == At(w.db, Blocklist(jti))
  {
  }

  /** What becomes of one blocklist entry in one call. */
  lemma EntryStep(cfg: Config, w: World, at: int, call: Call, jti: string)
    ensures
      var w' := Do(cfg, w, at, call);
      if call.Logout? && Authenticated(w, call.bearer, at) && jti == call.bearer.jti
      then At(w'.db, Blocklist(jti)) == Some(Entry(Text("1"), Deadline(cfg.jwt.RefreshTtl(), at)))
      else At(w'.db, Blocklist(jti)) == At(w.db, Blocklist(jti))
  {
    if call.Logout? {
      LogoutBlocks(cfg, w, at, call, jti);
    } else {
      CallFrame(cfg, w, at, call, Blocklist(jti));
    }
  }

  lemma StepKeepsBlocked(cfg: Config, w: World, at: int, call: Call, a: AccessToken)
    requires Inv(cfg.jwt, w) && Enabled(w, at, call) && BlocksLongEnough(cfg.jwt)
    requires a in Do(cfg, w, at, call).minted && EverLoggedOut(Do(cfg, w, at, call).log, a.jti)
    ensures BlockedForLife(Do(cfg, w, at, call).db, a, at)
  {
    var w' := Do(cfg, w, at, call);
    CallFrame(cfg, w, at, call, Blocklist(a.jti));
    SignedTokenShape(cfg, w, at, call);
    EverLoggedOutStep(w, w', a.jti);
    EntryStep(cfg, w, at, call, a.jti);
    // A token signed by this very call cannot have been logged out before it.
    assert EverLoggedOut(w.log, a.jti) ==> a.jti in w.drawn;
    assert a in w.minted;
  }

  lemma EntriesAreOfLoggedOut(cfg: Config, w: World, at: int, call: Call, jti: string)
    requires Inv(cfg.jwt, w) && Blocklist(jti) in Do(cfg, w, at, call).db
    ensures EverLoggedOut(Do(cfg, w, at, call).log, jti)
  {
    var w' := Do(cfg, w, at, call);
    CallFrame(cfg, w, at, call, Blocklist(jti));
    EntryStep(cfg, w, at, call, jti);
    EverLoggedOutStep(w, w', jti);
    LogoutLogsBearer(cfg, w, at, call);
    assert At(w'.db, Blocklist(jti)).Some?;
    assert At(w.db, Blocklist(jti)).Some? ==> Blocklist(jti) in w.db;
  }

  lemma LogoutLogsBearer(cfg: Config, w: World, at: int, call: Call)
    ensures
      var w' := Do(cfg, w, at, call);
      && |w'.log| == |w.log| + 1
      && (w'.log[|w.log|].LoggedOut? <==> call.Logout? && Authenticated(w, call.bearer, at))
      && (w'.log[|w.log|].LoggedOut? ==> w'.log[|w.log|].jti == call.bearer.jti && call.bearer in w.minted)
  {
    CallFrame(cfg, w, at, call, Blocklist(""));
    if call.Logout? {
      assert Do(cfg, w, at, call) == DoLogout(cfg, w, at, call);
    }
  }

  /** The invariant's clauses that do not speak of the keys. */
  lemma LogStep(w: World, w': World, at: int, call: Call, jwt: JwtConfig)
    requires Inv(jwt, w) && w.clock <= at && LogsOne(w, w', at, call)
    requires var e := w'.log[|w.log|];
      && (Signs(e) ==> e.access.jti !in w.drawn && e.access.jti in w'.drawn && e.access.expiresAt <= at + jwt.accessTtl)
      && (e.LoggedOut? ==> e.jti in w.drawn)
    ensures forall a :: a in w'.minted ==> a.jti in w'.drawn && a.expiresAt <= w'.clock + Longest(jwt)
    ensures forall a, b :: a in w'.minted && b in w'.minted && a.jti == b.jti ==> a == b
    ensures forall i :: 0 <= i < |w'.log| && w'.log[i].LoggedOut? ==> w'.log[i].jti in w'.drawn
  {
  }

  lemma StepKeepsInv(cfg: Config, w: World, at: int, call: Call)
    requires Inv(cfg.jwt, w) && Enabled(w, at, call) && BlocksLongEnough(cfg.jwt)
    ensures Inv(cfg.jwt, Do(cfg, w, at, call))
  {
    var w' := Do(cfg, w, at, call);
    CallFrame(cfg, w, at, call, Blocklist(""));
    SignedTokenShape(cfg, w, at, call);
    LogoutLogsBearer(cfg, w, at, call);
    LogStep(w, w', at, call, cfg.jwt);
    forall jti | Blocklist(jti) in w'.db ensures EverLoggedOut(w'.log, jti) {
      EntriesAreOfLoggedOut(cfg, w, at, call, jti);
    }
    forall a | a in w'.minted && EverLoggedOut(w'.log, a.jti) ensures BlockedForLife(w'.db, a, w'.clock) {
      StepKeepsBlocked(cfg, w, at, call, a);
    }
  }

  lemma {:induction false} InvHolds(cfg: Config, worlds: seq<World>, requests: seq<Request>, n: nat)
    requires IsRun(cfg, worlds, requests) && n < |worlds| && BlocksLongEnough(cfg.jwt)
    ensures Inv(cfg.jwt, worlds[n])
    decreases n
  {
    if n > 0 {
      InvHolds(cfg, worlds, requests, n - 1);
      StepKeepsInv(cfg, worlds[n - 1], requests[n - 1].at, requests[n - 1].call);
    }
  }

  /** In every world of every run, from then on: a bearer token is accepted exactly if it was
    * signed, is within its times, and was never logged out.
    */
  lemma BlocklistIsRevokedSet(
    cfg: Config, worlds: seq<World>, requests: seq<Request>, n: nat, token: AccessToken, now: int)
    requires IsRun(cfg, worlds, requests) && n < |worlds| && BlocksLongEnough(cfg.jwt) && worlds[n].clock <= now
    ensures
      Accepts(worlds[n].minted, worlds[n].db, token, Up, now)
      <==> token in worlds[n].minted && token.ValidAt(now) && !EverLoggedOut(worlds[n].log, token.jti)
  {
    InvHolds(cfg, worlds, requests, n);
  }

  // ---- Exactly when -------------------------------------------------------------------------------

  /** The bearer check agrees with the set of all logged-out tokens, in every run, at every time. */
  ghost predicate AlwaysSound(cfg: Config) {
    forall worlds: seq<World>, requests: seq<Request>, n: nat, token: AccessToken, now: int ::
      IsRun(cfg, worlds, requests) && n < |worlds| && worlds[n].clock <= now ==>
        (Accepts(worlds[n].minted, worlds[n].db, token, Up, now)
         <==> token in worlds[n].minted && token.ValidAt(now) && !EverLoggedOut(worlds[n].log, token.jti))
  }

  const SOMEONE: Uuid := "00000000-0000-0000-0000-000000000000"

  /** A first instant from which the access lifetime ends on a whole second. */
  function Moment(cfg: Config): int {
    (-cfg.jwt.accessTtl) % SECOND
  }

  function OneUser(): Table {
    map[SOMEONE := User(SOMEONE, None, "e", Bcrypt(0, []), "user", true, 0, 0)]
  }

  function LoginRequest(cfg: Config): Request {
    Request(Moment(cfg), Login("e", [], "jti", "token"))
  }

  function SomeoneToken(cfg: Config): AccessToken {
    IssueAccessToken(cfg.jwt, SOMEONE, "user", "jti", Moment(cfg))
  }

  lemma AfterLogin(cfg: Config)
    ensures
      var r := LoginRequest(cfg);
      var w := Do(cfg, Start(OneUser()), r.at, r.call);
      && w.minted == {SomeoneToken(cfg)} && w.clock == r.at && Read(w.db, Blocklist("jti"), r.at).None?
      && Enabled(Start(OneUser()), r.at, r.call)
  {
    var w0, r := Start(OneUser()), LoginRequest(cfg);
    assert Do(cfg, w0, r.at, r.call) == DoLogin(cfg, w0, r.at, r.call);
    assert SOMEONE in w0.rows && w0.rows[SOMEONE].email == "e";
    assert SelectByEmail(w0.rows, "e", true) == Ok(w0.rows[SOMEONE]);
    CallFrame(cfg, w0, r.at, r.call, Blocklist("jti"));
    assert w0.minted + {SomeoneToken(cfg)} == {SomeoneToken(cfg)};
  }

  function LogoutRequest(cfg: Config): Request {
    Request(Moment(cfg), Logout(SomeoneToken(cfg), ""))
  }

  lemma AfterLogout(cfg: Config, w: World)
    requires !BlocksLongEnough(cfg.jwt) && Authenticated(w, SomeoneToken(cfg), Moment(cfg))
    ensures
      var w' := Do(cfg, w, Moment(cfg), LogoutRequest(cfg).call);
      && w'.minted == w.minted && w'.clock == Moment(cfg) && EverLoggedOut(w'.log, "jti")
      && Read(w'.db, Blocklist("jti"), Moment(cfg) + SetLifetime(cfg.jwt.RefreshTtl())).None?
  {
    var call := LogoutRequest(cfg).call;
    var w' := DoLogout(cfg, w, Moment(cfg), call);
    assert Do(cfg, w, Moment(cfg), call) == w';
    LogoutFrame(cfg, w, Moment(cfg), call, Blocklist("jti"));
    LogoutBlocks(cfg, w, Moment(cfg), call, "jti");
    assert w'.log[|w.log|] == LoggedOut(Moment(cfg), "jti", "");
  }

  lemma MomentIsWhole(cfg: Config)
    ensures 0 <= Moment(cfg) && TruncateToSecond(Moment(cfg) + cfg.jwt.accessTtl) == Moment(cfg) + cfg.jwt.accessTtl
    ensures TruncateToSecond(Moment(cfg)) <= Moment(cfg)
  {
  }

  lemma TwoCallsAreARun(cfg: Config, rows: Table, w1: World, w2: World, r1: Request, r2: Request)
    requires Consistent(rows)
    requires Enabled(Start(rows), r1.at, r1.call) && w1 == Do(cfg, Start(rows), r1.at, r1.call)
    requires Enabled(w1, r2.at, r2.call) && w2 == Do(cfg, w1, r2.at, r2.call)
    ensures IsRun(cfg, [Start(rows), w1, w2], [r1, r2])
  {
  }

  /** Log in at a chosen moment and log out at once. */
  lemma LoginThenLogout(cfg: Config) returns (worlds: seq<World>, requests: seq<Request>)
    requires !BlocksLongEnough(cfg.jwt)
    ensures |worlds| == 3 && IsRun(cfg, worlds, requests)
    ensures SomeoneToken(cfg) in worlds[2].minted && worlds[2].clock == Moment(cfg)
      && EverLoggedOut(worlds[2].log, "jti")
    ensures Read(worlds[2].db, Blocklist("jti"), Moment(cfg) + SetLifetime(cfg.jwt.RefreshTtl())).None?
  {
    var login, logout := LoginRequest(cfg), LogoutRequest(cfg);
    var w1 := Do(cfg, Start(OneUser()), login.at, login.call);
    var w2 := Do(cfg, w1, logout.at, logout.call);
    MomentIsWhole(cfg);
    AfterLogin(cfg);
    AfterLogout(cfg, w1);
    TwoCallsAreARun(cfg, OneUser(), w1, w2, login, logout);
    worlds, requests := [Start(OneUser()), w1, w2], [login, logout];
  }

  /** With a positive entry lifetime below the access lifetime: the logged-out token is accepted
    * again when its entry expires.
    */
  lemma ShortEntriesForget(cfg: Config)
    requires !BlocksLongEnough(cfg.jwt)
    ensures !AlwaysSound(cfg)
  {
    var worlds, requests := LoginThenLogout(cfg);
    MomentIsWhole(cfg);
    var now := Moment(cfg) + SetLifetime(cfg.jwt.RefreshTtl());
    assert Accepts(worlds[2].minted, worlds[2].db, SomeoneToken(cfg), Up, now);
  }

  lemma SoundExactlyWhen(cfg: Config)
    ensures AlwaysSound(cfg) <==> cfg.jwt.RefreshTtl() <= 0 || SetLifetime(cfg.jwt.RefreshTtl()) >= cfg.jwt.accessTtl
  {
    if BlocksLongEnough(cfg.jwt) {
      forall worlds: seq<World>, requests: seq<Request>, n: nat, token: AccessToken, now: int
        | IsRun(cfg, worlds, requests) && n < |worlds| && worlds[n].clock <= now
        ensures Accepts(worlds[n].minted, worlds[n].db, token, Up, now)
          <==> token in worlds[n].minted && token.ValidAt(now) && !EverLoggedOut(worlds[n].log, token.jti)
      {
        BlocklistIsRevokedSet(cfg, worlds, requests, n, token, now);
      }
    } else {
      ShortEntriesForget(cfg);
    }
  }

  lemma DaysThatFit(days: int)
    requires 1 <= days <= MAX_INT64 / DAY
    ensures Wrap64(days * DAY) == days * DAY > 0 && SetLifetime(days * DAY) == days * DAY
  {
    assert days * DAY % MILLISECOND == 0;
  }

  /** For any number of days that fits a Duration: sound exactly when they cover an access token. */
  lemma SoundForWholeDays(cfg: Config)
    requires 1 <= cfg.jwt.refreshDays <= MAX_INT64 / DAY
    ensures AlwaysSound(cfg) <==> cfg.jwt.refreshDays * DAY >= cfg.jwt.accessTtl
  {
    SoundExactlyWhen(cfg);
    DaysThatFit(cfg.jwt.refreshDays);
  }
}
