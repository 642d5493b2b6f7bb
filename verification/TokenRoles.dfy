/** Which role every signed access token carries. */
module TokenRoles {
  import opened Base
  import opened Model
  import opened Redis
  import opened Keyspace
  import opened UserTable
  import opened Sessions
  import opened Users
  import opened Auth
  import opened Protocol
  import opened TableHistory
  import opened CacheTransparency
  import opened Answers

  /** The token was made out at this time to this row as it stood. */
  ghost predicate MadeOutTo(a: AccessToken, rows: Table, ttl: int, at: int) {
    a.subject in rows && TokenFor(a, a.subject, rows[a.subject].role, a.jti, ttl, at)
  }

  lemma LoginMakesOut(cfg: Config, w: World, at: int, call: Call)
    requires call.Login? && Consistent(w.rows)
    ensures
      var w' := DoLogin(cfg, w, at, call);
      && |w'.log| == |w.log| + 1 && var e := w'.log[|w.log|];
      Signs(e) ==>
        && MadeOutTo(e.access, w.rows, cfg.jwt.accessTtl, at)
        && e.access.jti == call.jti && e.token == call.token && e.LoggedIn? && e.email == call.email
        && w.rows[e.access.subject].email == call.email
        && w.rows[e.access.subject].passwordHash.Accepts(call.password)
  {
    var found := SelectByEmail(w.rows, call.email, true);
    if found.Ok? {
      IssuedTokenIsFor(cfg.jwt, found.value.id, found.value.role, call.jti, at);
    }
  }

  lemma RefreshMakesOut(cfg: Config, w: World, at: int, call: Call)
    requires call.RefreshSession? && Consistent(w.rows) && (cfg.cached ==> Coherent(w.db, w.rows))
    ensures
      var w' := DoRefresh(cfg, w, at, call);
      && |w'.log| == |w.log| + 1 && var e := w'.log[|w.log|];
      Signs(e) ==>
        && MadeOutTo(e.access, w.rows, cfg.jwt.accessTtl, at) && w.rows[e.access.subject].isActive
        && e.access.jti == call.jti && e.token == call.token && e.Refreshed? && e.oldToken == call.oldToken
  {
    var stored := TextAt(w.db, Refresh(call.oldToken), at);
    if stored.Ok? && ParseUuid(stored.value).Some? {
      var read := FetchById(w.db, w.rows, cfg.cached, ParseUuid(stored.value).value, READS_WELL, at).reply;
      if read.Ok? {
        IssuedTokenIsFor(cfg.jwt, read.value.id, read.value.role, call.jti, at);
      }
    }
  }

  /** A token that a step signs is made out to a row as it stands at that step. */
  lemma StepMakesOut(cfg: Config, worlds: seq<World>, requests: seq<Request>, i: nat, a: AccessToken)
    requires IsRun(cfg, worlds, requests) && i < |requests| && a !in worlds[i].minted && a in worlds[i + 1].minted
    ensures MadeOutTo(a, worlds[i].rows, cfg.jwt.accessTtl, requests[i].at)
    ensures requests[i].call.RefreshSession? ==> worlds[i].rows[a.subject].isActive
    ensures requests[i].call.Login? || requests[i].call.RefreshSession?
  {
    var w, at, call := worlds[i], requests[i].at, requests[i].call;
    ConstraintsHold(cfg, worlds, requests, i);
    if cfg.cached {
      CacheStaysCoherent(cfg, worlds, requests, i);
    }
    CallFrame(cfg, w, at, call, Blocklist(""));
    if call.Login? {
      LoginMakesOut(cfg, w, at, call);
    } else if call.RefreshSession? {
      RefreshMakesOut(cfg, w, at, call);
    }
  }

  /** Every access token of every run was signed by a login or a refresh, for a row of that moment, with
    * that row's role and the configured lifetime; by a refresh only for an active row.
    */
  lemma {:induction false} TokensCarryTheirRole(
    cfg: Config, worlds: seq<World>, requests: seq<Request>, n: nat, a: AccessToken) returns (i: nat)
    requires IsRun(cfg, worlds, requests) && n < |worlds| && a in worlds[n].minted
    ensures i < n && a !in worlds[i].minted && a in worlds[i + 1].minted
    ensures requests[i].call.Login? || requests[i].call.RefreshSession?
    ensures MadeOutTo(a, worlds[i].rows, cfg.jwt.accessTtl, requests[i].at)
    ensures requests[i].call.RefreshSession? ==> worlds[i].rows[a.subject].isActive
    decreases n
  {
    if a in worlds[n - 1].minted {
      i := TokensCarryTheirRole(cfg, worlds, requests, n - 1, a);
    } else {
      i := n - 1;
      StepMakesOut(cfg, worlds, requests, i, a);
    }
  }
}
