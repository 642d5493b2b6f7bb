/** Where refresh and access tokens come from: every live token ends exactly one chain of
  * rotations that begins at a successful login, and no login has two live tokens.
  */
module Lineage {
  import opened Base
  import opened Model
  import opened Redis
  import opened Keyspace
  import opened Sessions
  import opened Users
  import opened Auth
  import opened Protocol
  import opened CacheTransparency

  /** The event put a new token under its key. */
  predicate Issues(e: Event) {
    Signs(e) || (e.RotationLost? && e.stored)
  }

  /** The event is a rotation, completed or not. */
  predicate Rotates(e: Event) {
    e.Refreshed? || e.RotationLost?
  }

  /** The user whose token was issued or rotated. */
  function Holder(e: Event): Uuid
    requires Issues(e) || Rotates(e)
  {
    if e.RotationLost? then e.user else e.access.subject
  }

  predicate Spends(e: Event, token: string) {
    || (e.Refreshed? && e.oldToken == token)
    || (e.RotationLost? && e.deleted && e.oldToken == token)
    || (e.LoggedOut? && e.token == token)
  }

  /** What the log says a refresh token's key must hold. */
  function TokenCell(log: seq<Event>, token: string, ttl: int): Cell
    decreases |log|
  {
    if log == [] then None
    else
      var e := log[|log| - 1];
      if Issues(e) && e.token == token then Some(Entry(Text(Holder(e)), Deadline(ttl, e.at)))
      else if Spends(e, token) then None
      else TokenCell(log[..|log| - 1], token, ttl)
  }

  /** The key of the token held this user's id, unexpired, before event j. */
  ghost predicate HeldBy(log: seq<Event>, j: nat, token: string, user: string, ttl: int)
    requires j < |log|
  {
    var c := Live(TokenCell(log[..j], token, ttl), log[j].at);
    c.Some? && c.value.value == Text(user)
  }

  lemma {:induction false} CellHoldsUuid(log: seq<Event>, token: string, ttl: int)
    ensures
      var c := TokenCell(log, token, ttl);
      c.Some? ==> c.value.value.Text? && CanonicalUuid(c.value.value.text)
    decreases |log|
  {
    if log != [] {
      CellHoldsUuid(log[..|log| - 1], token, ttl);
    }
  }

  // ---- The invariant ------------------------------------------------------------------------------

  /** No token is ever issued twice. */
  ghost predicate IssuedOnce(log: seq<Event>) {
    forall i, j :: 0 <= i < j < |log| && Issues(log[i]) && Issues(log[j]) ==> log[i].token != log[j].token
  }

  /** Each rotation spends a token that was live and belonged to the same user. */
  ghost predicate RotatesLive(log: seq<Event>, ttl: int) {
    forall j :: 0 <= j < |log| && Rotates(log[j]) ==> HeldBy(log, j, log[j].oldToken, Holder(log[j]), ttl)
  }

  ghost predicate Inv(jwt: JwtConfig, w: World) {
    && (forall token :: At(w.db, Refresh(token)) == TokenCell(w.log, token, jwt.RefreshTtl()))
    && IssuedOnce(w.log)
    && (forall i :: 0 <= i < |w.log| && Issues(w.log[i]) ==> w.log[i].token in w.drawn)
    && RotatesLive(w.log, jwt.RefreshTtl())
    && (forall a :: a in w.minted <==> exists i :: 0 <= i < |w.log| && Signs(w.log[i]) && w.log[i].access == a)
  }

  /** One event's effect on a refresh token's key. */
  ghost predicate CellFollows(w: World, w': World, e: Event, token: string, ttl: int) {
    At(w'.db, Refresh(token))
    == if Issues(e) && e.token == token then Some(Entry(Text(Holder(e)), Deadline(ttl, e.at)))
       else if Spends(e, token) then None
       else At(w.db, Refresh(token))
  }

  lemma LoginCell(cfg: Config, w: World, at: int, call: Call, token: string)
    requires call.Login?
    ensures
      var w' := DoLogin(cfg, w, at, call);
      && |w'.log| == |w.log| + 1 && var e := w'.log[|w.log|];
      && CellFollows(w, w', e, token, cfg.jwt.RefreshTtl()) && (Issues(e) ==> e.token == call.token)
  {
  }

  lemma RotateCell(
    db: Db, oldToken: string, token: string, userId: string, ttl: int, net: Net, now: int, other: string)
    ensures
      At(Rotate(db, oldToken, token, userId, ttl, net, now), Refresh(other))
      == if net.Reaches(1) && other == token then Some(Entry(Text(userId), Deadline(ttl, now)))
         else if net.Reaches(0) && other == oldToken then None
         else At(db, Refresh(other))
  {
  }

  lemma RefreshCell(cfg: Config, w: World, at: int, call: Call, token: string)
    requires call.RefreshSession?
    ensures
      var w' := DoRefresh(cfg, w, at, call);
      && |w'.log| == |w.log| + 1 && var e := w'.log[|w.log|];
      && CellFollows(w, w', e, token, cfg.jwt.RefreshTtl()) && (Issues(e) ==> e.token == call.token)
  {
    var ttl := cfg.jwt.RefreshTtl();
    var stored := TextAt(w.db, Refresh(call.oldToken), at);
    if stored.Ok? && ParseUuid(stored.value).Some? {
      var fetched := FetchById(w.db, w.rows, cfg.cached, ParseUuid(stored.value).value, READS_WELL, at);
      assert At(fetched.db, Refresh(token)) == At(w.db, Refresh(token));
      if fetched.reply.Ok? {
        RotateCell(fetched.db, call.oldToken, call.token, fetched.reply.value.id, ttl, call.rotate, at, token);
      }
    }
  }

  lemma LogoutCell(cfg: Config, w: World, at: int, call: Call, token: string)
    requires call.Logout?
    ensures
      var w' := DoLogout(cfg, w, at, call);
      |w'.log| == |w.log| + 1 && CellFollows(w, w', w'.log[|w.log|], token, cfg.jwt.RefreshTtl())
  {
  }

  lemma OtherCell(w: World, w': World, at: int, call: Call, token: string, ttl: int)
    requires !call.Login? && !call.RefreshSession? && !call.Logout?
    requires LogsOne(w, w', at, call) && Leaves(w, w', call, Refresh(token))
    ensures CellFollows(w, w', w'.log[|w.log|], token, ttl) && !Issues(w'.log[|w.log|])
  {
  }

  lemma StepCell(cfg: Config, w: World, at: int, call: Call, token: string)
    requires Enabled(w, at, call)
    ensures
      var w' := Do(cfg, w, at, call);
      && |w'.log| == |w.log| + 1 && var e := w'.log[|w.log|];
      && CellFollows(w, w', e, token, cfg.jwt.RefreshTtl())
      && (Issues(e) ==> e.token !in w.drawn && e.token in w'.drawn)
  {
    var w' := Do(cfg, w, at, call);
    CallFrame(cfg, w, at, call, Refresh(token));
    if call.Login? || call.RefreshSession? {
      assert Draws(call)[1] == call.token;
    }
    match call
    case Login(_, _, _, _) => LoginCell(cfg, w, at, call, token);
    case RefreshSession(_, _, _, _) => RefreshCell(cfg, w, at, call, token);
    case Logout(_, _) => LogoutCell(cfg, w, at, call, token);
    case _ => OtherCell(w, w', at, call, token, cfg.jwt.RefreshTtl());
  }

  /** A rotation was asked for with a live token of the user it was made for. */
  lemma RotationIsOfLiveToken(cfg: Config, worlds: seq<World>, requests: seq<Request>, n: nat, at: int, call: Call)
    requires IsRun(cfg, worlds, requests) && n < |worlds| && call.RefreshSession? && Inv(cfg.jwt, worlds[n])
    ensures
      var w' := DoRefresh(cfg, worlds[n], at, call);
      && |w'.log| == |worlds[n].log| + 1 && var e := w'.log[|worlds[n].log|];
      var held := Read(worlds[n].db, Refresh(call.oldToken), at);
      Rotates(e) ==> e.at == at && e.oldToken == call.oldToken && held.Some? && held.value.value == Text(Holder(e))
  {
    CellHoldsUuid(worlds[n].log, call.oldToken, cfg.jwt.RefreshTtl());
    var stored := TextAt(worlds[n].db, Refresh(call.oldToken), at);
    if stored.Ok? && ParseUuid(stored.value).Some? {
      FetchedHasId(cfg, worlds, requests, n, ParseUuid(stored.value).value, at);
    }
  }

  /** What one more event may be, for the invariant to survive it. */
  ghost predicate GoodStep(w: World, w': World, e: Event, ttl: int) {
    && w'.log == w.log + [e] && w.drawn <= w'.drawn
    && (forall token :: CellFollows(w, w', e, token, ttl))
    && (Issues(e) ==> e.token !in w.drawn && e.token in w'.drawn)
    && (Rotates(e) ==>
          var held := Read(w.db, Refresh(e.oldToken), e.at);
          held.Some? && held.value.value == Text(Holder(e)))
    && w'.minted == (if Signs(e) then w.minted + {e.access} else w.minted)
  }

  lemma RotationsStayLive(w: World, w': World, e: Event, jwt: JwtConfig)
    requires Inv(jwt, w) && GoodStep(w, w', e, jwt.RefreshTtl())
    ensures RotatesLive(w'.log, jwt.RefreshTtl())
  {
    var ttl := jwt.RefreshTtl();
    forall j | 0 <= j < |w'.log| && Rotates(w'.log[j])
      ensures HeldBy(w'.log, j, w'.log[j].oldToken, Holder(w'.log[j]), ttl)
    {
      assert w'.log[..j] == w.log[..j];
      if j < |w.log| {
        assert HeldBy(w.log, j, w.log[j].oldToken, Holder(w.log[j]), ttl);
      } else {
        assert w.log[..j] == w.log;
        assert At(w.db, Refresh(e.oldToken)) == TokenCell(w.log, e.oldToken, ttl);
      }
    }
  }

  lemma MintedStaysLogged(w: World, w': World, e: Event, jwt: JwtConfig, a: AccessToken)
    requires Inv(jwt, w) && GoodStep(w, w', e, jwt.RefreshTtl())
    ensures a in w'.minted <==> exists i :: 0 <= i < |w'.log| && Signs(w'.log[i]) && w'.log[i].access == a
  {
    var m := |w.log|;
    if a in w.minted {
      var i :| 0 <= i < m && Signs(w.log[i]) && w.log[i].access == a;
      assert w'.log[i] == w.log[i];
    } else if a in w'.minted {
      assert w'.log[m].access == a;
    }
  }

  lemma GoodStepKeepsInv(w: World, w': World, e: Event, jwt: JwtConfig)
    requires Inv(jwt, w) && GoodStep(w, w', e, jwt.RefreshTtl())
    ensures Inv(jwt, w')
  {
    forall token ensures At(w'.db, Refresh(token)) == TokenCell(w'.log, token, jwt.RefreshTtl()) {
      assert CellFollows(w, w', e, token, jwt.RefreshTtl());
      assert w'.log[..|w.log|] == w.log;
    }
    RotationsStayLive(w, w', e, jwt);
    forall a {
      MintedStaysLogged(w, w', e, jwt, a);
    }
  }

  lemma StepIsGood(cfg: Config, worlds: seq<World>, requests: seq<Request>, n: nat) returns (e: Event)
    requires IsRun(cfg, worlds, requests) && n < |requests| && Inv(cfg.jwt, worlds[n])
    ensures GoodStep(worlds[n], worlds[n + 1], e, cfg.jwt.RefreshTtl())
  {
    var w, w', r := worlds[n], worlds[n + 1], requests[n];
    CallFrame(cfg, w, r.at, r.call, Refresh(""));
    e := w'.log[|w.log|];
    assert w'.log == w.log + [e];
    forall token {
      StepCell(cfg, w, r.at, r.call, token);
    }
    if r.call.RefreshSession? {
      RotationIsOfLiveToken(cfg, worlds, requests, n, r.at, r.call);
    }
  }

  lemma {:induction false} InvHolds(cfg: Config, worlds: seq<World>, requests: seq<Request>, n: nat)
    requires IsRun(cfg, worlds, requests) && n < |worlds|
    ensures Inv(cfg.jwt, worlds[n])
    decreases n
  {
    if n > 0 {
      InvHolds(cfg, worlds, requests, n - 1);
      var e := StepIsGood(cfg, worlds, requests, n - 1);
      GoodStepKeepsInv(worlds[n - 1], worlds[n], e, cfg.jwt);
    }
  }
}
