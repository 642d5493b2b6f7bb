/** Chains of rotations in a log, and the theorems about every run. */
module Ancestry {
  import opened Base
  import opened Redis
  import opened Keyspace
  import opened Sessions
  import opened Auth
  import opened Protocol
  import opened Lineage

  ghost predicate IssuedAt(log: seq<Event>, i: nat, token: string) {
    i < |log| && Issues(log[i]) && log[i].token == token
  }

  /** Event j rotates the token of event i, for the same user and within the token's lifetime. */
  ghost predicate Link(log: seq<Event>, i: nat, j: nat, ttl: int) {
    && i < j < |log| && Issues(log[i])
    && Rotates(log[j]) && Issues(log[j]) && log[j].oldToken == log[i].token
    && Holder(log[j]) == Holder(log[i])
    && (ttl > 0 ==> log[j].at < log[i].at + SetLifetime(ttl))
  }

  /** A login and the rotations that follow from it, as positions in the log. */
  ghost predicate IsChain(log: seq<Event>, chain: seq<nat>, ttl: int) {
    && |chain| > 0
    && chain[0] < |log| && log[chain[0]].LoggedIn?
    && forall k :: 0 < k < |chain| ==> Link(log, chain[k - 1], chain[k], ttl)
  }

  function Tip(chain: seq<nat>): nat
    requires |chain| > 0
  {
    chain[|chain| - 1]
  }

  // ---- Reading the log ------------------------------------------------------------------------------

  /** A held token was issued at some point of the log, and not spent since. */
  lemma {:induction false} HeldTokenWasIssued(log: seq<Event>, token: string, ttl: int) returns (i: nat)
    requires TokenCell(log, token, ttl).Some?
    ensures IssuedAt(log, i, token)
    ensures TokenCell(log, token, ttl) == Some(Entry(Text(Holder(log[i])), Deadline(ttl, log[i].at)))
    ensures forall j :: i < j < |log| ==> !Spends(log[j], token)
    decreases |log|
  {
    var n := |log| - 1;
    if Issues(log[n]) && log[n].token == token {
      i := n;
    } else {
      i := HeldTokenWasIssued(log[..n], token, ttl);
      assert log[..n][i] == log[i];
      forall j | i < j < |log| ensures !Spends(log[j], token) {
        if j < n {
          assert log[..n][j] == log[j];
        }
      }
    }
  }

  /** A token issued once and spent later is not held. */
  lemma {:induction false} SpentTokenIsGone(log: seq<Event>, i: nat, j: nat, token: string, ttl: int)
    requires IssuedOnce(log) && IssuedAt(log, i, token) && i < j < |log| && Spends(log[j], token)
    ensures TokenCell(log, token, ttl).None?
    decreases |log|
  {
    var n := |log| - 1;
    assert log[..n][i] == log[i];
    if j < n {
      assert log[..n][j] == log[j];
      SpentTokenIsGone(log[..n], i, j, token, ttl);
    }
  }

  lemma PrefixIssuedOnce(log: seq<Event>, n: nat)
    requires IssuedOnce(log) && n <= |log|
    ensures IssuedOnce(log[..n])
  {
  }

  /** Every rotation links back to the issue of the token it spent. */
  lemma RotationHasParent(log: seq<Event>, j: nat, ttl: int) returns (i: nat)
    requires RotatesLive(log, ttl) && j < |log| && Rotates(log[j])
    ensures IssuedAt(log, i, log[j].oldToken) && i < j && (Issues(log[j]) ==> Link(log, i, j, ttl))
  {
    var oldToken := log[j].oldToken;
    assert HeldBy(log, j, oldToken, Holder(log[j]), ttl);
    i := HeldTokenWasIssued(log[..j], oldToken, ttl);
    assert log[..j][i] == log[i];
  }

  lemma {:induction false} EveryIssueHasChain(log: seq<Event>, i: nat, ttl: int) returns (chain: seq<nat>)
    requires RotatesLive(log, ttl) && i < |log| && Issues(log[i])
    ensures IsChain(log, chain, ttl) && Tip(chain) == i
    decreases i
  {
    if log[i].LoggedIn? {
      chain := [i];
    } else {
      var parent := RotationHasParent(log, i, ttl);
      var before := EveryIssueHasChain(log, parent, ttl);
      chain := before + [i];
    }
  }

  lemma TipTellsLength(log: seq<Event>, chain: seq<nat>, ttl: int)
    requires IsChain(log, chain, ttl)
    ensures Tip(chain) < |log| && (Rotates(log[Tip(chain)]) <==> |chain| > 1)
  {
    if |chain| > 1 {
      assert Link(log, chain[|chain| - 2], Tip(chain), ttl);
    }
  }

  /** Two chains that end at the same event are the same chain. */
  lemma {:induction false} ChainIsUnique(log: seq<Event>, a: seq<nat>, b: seq<nat>, ttl: int)
    requires IssuedOnce(log) && IsChain(log, a, ttl) && IsChain(log, b, ttl) && Tip(a) == Tip(b)
    ensures a == b
    decreases |a|
  {
    TipTellsLength(log, a, ttl);
    TipTellsLength(log, b, ttl);
    if |a| > 1 && |b| > 1 {
      var a', b' := a[..|a| - 1], b[..|b| - 1];
      assert Link(log, Tip(a'), Tip(a), ttl) && Link(log, Tip(b'), Tip(b), ttl);
      assert IsChain(log, a', ttl) && IsChain(log, b', ttl);
      ChainIsUnique(log, a', b', ttl);
      assert a == a' + [Tip(a)] && b == b' + [Tip(b)];
    }
  }

  /** No failed rotation stored its new token and left the old one. */
  ghost predicate NeverDoubled(log: seq<Event>) {
    forall j :: 0 <= j < |log| && log[j].RotationLost? && log[j].stored ==> log[j].deleted
  }

  /** No rotation of a token is tried after the token was spent. */
  lemma NoneAfterSpending(log: seq<Event>, first: nat, second: nat, token: string, ttl: int)
    requires IssuedOnce(log) && RotatesLive(log, ttl) && first < |log| && second < |log| && first != second
    requires Rotates(log[first]) && Spends(log[first], token) && Rotates(log[second]) && log[second].oldToken == token
    ensures second < first
  {
    if first < second {
      var i := RotationHasParent(log, first, ttl);
      assert HeldBy(log, second, token, Holder(log[second]), ttl);
      PrefixIssuedOnce(log, second);
      assert log[..second][i] == log[i] && log[..second][first] == log[first];
      SpentTokenIsGone(log[..second], i, first, token, ttl);
    }
  }

  /** A token is rotated at most once, unless a failed rotation left it in place. */
  lemma RotatedOnce(log: seq<Event>, i: nat, j: nat, k: nat, ttl: int)
    requires IssuedOnce(log) && RotatesLive(log, ttl) && NeverDoubled(log) && Link(log, i, j, ttl)
      && Link(log, i, k, ttl)
    ensures j == k
  {
    if j != k {
      NoneAfterSpending(log, j, k, log[i].token, ttl);
      NoneAfterSpending(log, k, j, log[i].token, ttl);
    }
  }

  /** Chains from the same login agree as far as both go. */
  lemma {:induction false} ChainsAgree(log: seq<Event>, a: seq<nat>, b: seq<nat>, k: nat, ttl: int)
    requires IssuedOnce(log) && RotatesLive(log, ttl) && NeverDoubled(log) && IsChain(log, a, ttl)
      && IsChain(log, b, ttl)
    requires a[0] == b[0] && k < |a| && k < |b|
    ensures a[k] == b[k]
    decreases k
  {
    if k > 0 {
      ChainsAgree(log, a, b, k - 1, ttl);
      RotatedOnce(log, a[k - 1], a[k], b[k], ttl);
    }
  }

  /** A chain whose last token is still held cannot be a proper part of another one. */
  lemma HeldTipEndsChain(log: seq<Event>, a: seq<nat>, b: seq<nat>, ttl: int)
    requires IssuedOnce(log) && RotatesLive(log, ttl) && NeverDoubled(log) && IsChain(log, a, ttl)
      && IsChain(log, b, ttl)
    requires a[0] == b[0] && Tip(a) < |log| && Issues(log[Tip(a)]) && TokenCell(log, log[Tip(a)].token, ttl).Some?
    ensures |b| <= |a|
  {
    if |a| < |b| {
      ChainsAgree(log, a, b, |a| - 1, ttl);
      assert Link(log, b[|a| - 1], b[|a|], ttl);
      SpentTokenIsGone(log, Tip(a), b[|a|], log[Tip(a)].token, ttl);
    }
  }

  lemma {:induction false} ChainHasOneUser(log: seq<Event>, chain: seq<nat>, k: nat, ttl: int)
    requires IsChain(log, chain, ttl) && k < |chain|
    ensures chain[k] < |log| && Issues(log[chain[k]]) && Holder(log[chain[k]]) == Holder(log[chain[0]])
    decreases k
  {
    if k > 0 {
      ChainHasOneUser(log, chain, k - 1, ttl);
      assert Link(log, chain[k - 1], chain[k], ttl);
    }
  }

  // ---- Theorems about every run -----------------------------------------------------------------------

  ghost predicate LiveRefreshToken(w: World, token: string, now: int) {
    Read(w.db, Refresh(token), now).Some?
  }

  /** The chain starts at a login and ends where the token was issued. */
  ghost predicate Descent(log: seq<Event>, chain: seq<nat>, token: string, ttl: int) {
    IsChain(log, chain, ttl) && IssuedAt(log, Tip(chain), token)
  }

  /** A live refresh token ends exactly one chain of rotations, each made before its predecessor's
    * lifetime ran out; the chain starts at a successful login; and the token resolves to the user
    * of that login.
    */
  lemma LiveTokenDescendsFromOneLogin(
    cfg: Config, worlds: seq<World>, requests: seq<Request>, n: nat, token: string, now: int) returns (chain: seq<nat>)
    requires IsRun(cfg, worlds, requests) && n < |worlds| && LiveRefreshToken(worlds[n], token, now)
    ensures Descent(worlds[n].log, chain, token, cfg.jwt.RefreshTtl())
    ensures forall other :: Descent(worlds[n].log, other, token, cfg.jwt.RefreshTtl()) ==> other == chain
    ensures TextAt(worlds[n].db, Refresh(token), now) == Ok(worlds[n].log[chain[0]].access.subject)
  {
    var w, ttl := worlds[n], cfg.jwt.RefreshTtl();
    InvHolds(cfg, worlds, requests, n);
    var i := HeldTokenWasIssued(w.log, token, ttl);
    chain := EveryIssueHasChain(w.log, i, ttl);
    ChainHasOneUser(w.log, chain, |chain| - 1, ttl);
    forall other | Descent(w.log, other, token, ttl) ensures other == chain {
      assert Tip(other) == Tip(chain);
      ChainIsUnique(w.log, other, chain, ttl);
    }
  }

  /** The tokens of two chains from the same login are not both live unless they are one token. */
  ghost predicate OneLiveTokenPerLogin(cfg: Config, w: World) {
    forall a: seq<nat>, b: seq<nat>, s: string, t: string ::
      && Descent(w.log, a, s, cfg.jwt.RefreshTtl()) && Descent(w.log, b, t, cfg.jwt.RefreshTtl()) && a[0] == b[0]
      && LiveRefreshToken(w, s, w.clock) && LiveRefreshToken(w, t, w.clock)
      ==> s == t
  }

  lemma LoginsHaveOneToken(
    cfg: Config, worlds: seq<World>, requests: seq<Request>, n: nat,
    a: seq<nat>, b: seq<nat>, s: string, t: string, now: int)
    requires IsRun(cfg, worlds, requests) && n < |worlds| && NeverDoubled(worlds[n].log)
    requires Descent(worlds[n].log, a, s, cfg.jwt.RefreshTtl()) && Descent(worlds[n].log, b, t, cfg.jwt.RefreshTtl())
    requires a[0] == b[0] && LiveRefreshToken(worlds[n], s, now) && LiveRefreshToken(worlds[n], t, now)
    ensures s == t
  {
    var log, ttl := worlds[n].log, cfg.jwt.RefreshTtl();
    InvHolds(cfg, worlds, requests, n);
    HeldTipEndsChain(log, a, b, ttl);
    HeldTipEndsChain(log, b, a, ttl);
    ChainsAgree(log, a, b, |a| - 1, ttl);
  }

  ghost predicate GrowsByOne(w: World, w': World) {
    |w'.log| == |w.log| + 1 && w'.log[..|w.log|] == w.log
  }

  lemma {:induction false} PrefixesOfLogs(worlds: seq<World>, m: nat, n: nat)
    requires m <= n < |worlds| && worlds[0].log == []
    requires forall k :: 0 <= k < |worlds| - 1 ==> GrowsByOne(worlds[k], worlds[k + 1])
    ensures |worlds[n].log| == n && worlds[n].log[..m] == worlds[m].log
    decreases n
  {
    if n > 0 {
      assert GrowsByOne(worlds[n - 1], worlds[n - 1 + 1]);
      PrefixesOfLogs(worlds, if m < n then m else n - 1, n - 1);
      if m < n {
        assert worlds[n].log[..m] == worlds[n].log[..n - 1][..m];
      }
    }
  }

  lemma LogsGrow(cfg: Config, worlds: seq<World>, requests: seq<Request>, m: nat, n: nat)
    requires IsRun(cfg, worlds, requests) && m <= n < |worlds|
    ensures |worlds[n].log| == n && worlds[n].log[..m] == worlds[m].log
  {
    forall k | 0 <= k < |worlds| - 1 ensures GrowsByOne(worlds[k], worlds[k + 1]) {
      CallFrame(cfg, worlds[k], requests[k].at, requests[k].call, Refresh(""));
    }
    PrefixesOfLogs(worlds, m, n);
  }

  /** A failed rotation that stored the new token and left the old one leaves both live. */
  lemma DoubledTokensLive(w: World, w': World, e: Event, jwt: JwtConfig)
    requires Inv(jwt, w) && GoodStep(w, w', e, jwt.RefreshTtl()) && e.at == w'.clock
    requires e.RotationLost? && e.stored && !e.deleted
    ensures LiveRefreshToken(w', e.oldToken, w'.clock) && LiveRefreshToken(w', e.token, w'.clock)
    ensures e.token != e.oldToken && TokenCell(w.log, e.oldToken, jwt.RefreshTtl()).Some?
  {
    var ttl := jwt.RefreshTtl();
    assert CellFollows(w, w', e, e.token, ttl) && CellFollows(w, w', e, e.oldToken, ttl);
    var i := HeldTokenWasIssued(w.log, e.oldToken, ttl);
    assert w.log[i].token in w.drawn;
  }

  /** The tokens of the two ends of a link descend from one login. */
  lemma LinkedTokensShareLogin(log: seq<Event>, i: nat, j: nat, ttl: int) returns (a: seq<nat>, b: seq<nat>)
    requires RotatesLive(log, ttl) && Link(log, i, j, ttl)
    ensures Descent(log, a, log[i].token, ttl) && Descent(log, b, log[j].token, ttl) && a[0] == b[0]
  {
    a := EveryIssueHasChain(log, i, ttl);
    b := a + [j];
  }

  /** Right after it, two live tokens descend from one login. */
  lemma DoubledRotationShows(cfg: Config, worlds: seq<World>, requests: seq<Request>, n: nat)
    requires IsRun(cfg, worlds, requests) && n < |requests| && |worlds[n + 1].log| == n + 1
    requires var e := worlds[n + 1].log[n]; e.RotationLost? && e.stored && !e.deleted
    ensures !OneLiveTokenPerLogin(cfg, worlds[n + 1])
  {
    var w, w', ttl := worlds[n], worlds[n + 1], cfg.jwt.RefreshTtl();
    InvHolds(cfg, worlds, requests, n);
    InvHolds(cfg, worlds, requests, n + 1);
    var e := StepIsGood(cfg, worlds, requests, n);
    CallFrame(cfg, w, requests[n].at, requests[n].call, Refresh(""));
    DoubledTokensLive(w, w', e, cfg.jwt);
    var i := RotationHasParent(w'.log, n, ttl);
    var a, b := LinkedTokensShareLogin(w'.log, i, n, ttl);
  }

  /** In the worlds of a run no login ever has two live tokens if and only if no failed rotation
    * stored its new token and left the old one. The caller was told of an error either way.
    */
  lemma SingleUseExactlyWhen(cfg: Config, worlds: seq<World>, requests: seq<Request>)
    requires IsRun(cfg, worlds, requests)
    ensures
      (forall n :: 0 <= n < |worlds| ==> OneLiveTokenPerLogin(cfg, worlds[n]))
      <==> NeverDoubled(worlds[|requests|].log)
  {
    var last := |requests|;
    if NeverDoubled(worlds[last].log) {
      forall n | 0 <= n < |worlds| ensures OneLiveTokenPerLogin(cfg, worlds[n]) {
        LogsGrow(cfg, worlds, requests, n, last);
        forall j | 0 <= j < |worlds[n].log| ensures worlds[n].log[j] == worlds[last].log[j] {
          assert worlds[last].log[..n][j] == worlds[last].log[j];
        }
        forall a: seq<nat>, b: seq<nat>, s: string, t: string
          | Descent(worlds[n].log, a, s, cfg.jwt.RefreshTtl()) && Descent(worlds[n].log, b, t, cfg.jwt.RefreshTtl())
            && a[0] == b[0] && LiveRefreshToken(worlds[n], s, worlds[n].clock)
            && LiveRefreshToken(worlds[n], t, worlds[n].clock)
          ensures s == t
        {
          LoginsHaveOneToken(cfg, worlds, requests, n, a, b, s, t, worlds[n].clock);
        }
      }
    } else {
      LogsGrow(cfg, worlds, requests, last, last);
      var j :| 0 <= j < last && worlds[last].log[j].RotationLost? && worlds[last].log[j].stored
        && !worlds[last].log[j].deleted;
      LogsGrow(cfg, worlds, requests, j + 1, last);
      assert worlds[last].log[..j + 1][j] == worlds[last].log[j];
      LogsGrow(cfg, worlds, requests, j + 1, j + 1);
      DoubledRotationShows(cfg, worlds, requests, j);
    }
  }

  /** A failed rotation that deleted the old token and stored no new one ends the session: from then
    * on no token of that login is live.
    */
  lemma LostStoreEndsSession(
    cfg: Config, worlds: seq<World>, requests: seq<Request>, n: nat, j: nat, a: seq<nat>, b: seq<nat>, t: string)
    requires IsRun(cfg, worlds, requests) && n < |worlds| && j < |worlds[n].log| && NeverDoubled(worlds[n].log)
    requires var e := worlds[n].log[j]; e.RotationLost? && e.deleted && !e.stored
    requires Descent(worlds[n].log, a, worlds[n].log[j].oldToken, cfg.jwt.RefreshTtl())
    requires Descent(worlds[n].log, b, t, cfg.jwt.RefreshTtl()) && a[0] == b[0]
    ensures forall now :: !LiveRefreshToken(worlds[n], t, now)
  {
    var log, ttl := worlds[n].log, cfg.jwt.RefreshTtl();
    InvHolds(cfg, worlds, requests, n);
    var i := RotationHasParent(log, j, ttl);
    SpentTokenIsGone(log, i, j, log[j].oldToken, ttl);
    if TokenCell(log, t, ttl).Some? {
      HeldTipEndsChain(log, b, a, ttl);
      ChainsAgree(log, a, b, |a| - 1, ttl);
      if |a| < |b| {
        assert Link(log, b[|a| - 1], b[|a|], ttl);
        NoneAfterSpending(log, j, b[|a|], log[j].oldToken, ttl);
        RotationSpends(log, b[|a|]);
        NoneAfterSpending(log, b[|a|], j, log[j].oldToken, ttl);
      }
    }
  }

  lemma RotationSpends(log: seq<Event>, j: nat)
    requires NeverDoubled(log) && j < |log| && Rotates(log[j]) && Issues(log[j])
    ensures Spends(log[j], log[j].oldToken)
  {
  }

  /** Every access token ever signed was issued along a chain that starts at a successful login of
    * the user it names.
    */
  lemma AccessTokensNameTheirLogin(
    cfg: Config, worlds: seq<World>, requests: seq<Request>, n: nat, access: AccessToken) returns (chain: seq<nat>)
    requires IsRun(cfg, worlds, requests) && n < |worlds| && access in worlds[n].minted
    ensures IsChain(worlds[n].log, chain, cfg.jwt.RefreshTtl())
    ensures
      var log := worlds[n].log;
      && Tip(chain) < |log| && Signs(log[Tip(chain)]) && log[Tip(chain)].access == access
      && access.subject == log[chain[0]].access.subject
  {
    var log, ttl := worlds[n].log, cfg.jwt.RefreshTtl();
    InvHolds(cfg, worlds, requests, n);
    var i :| 0 <= i < |log| && Signs(log[i]) && log[i].access == access;
    chain := EveryIssueHasChain(log, i, ttl);
    ChainHasOneUser(log, chain, |chain| - 1, ttl);
  }
}
