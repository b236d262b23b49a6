/** What holds over whole runs of the session service, and for exactly which lifetimes. */
module JwtSafety {
  import opened Wrappers
  import opened JwtSessions

  lemma {:induction false} RunSnoc(cfg: Config, w: World, ops: seq<Op>, op: Op)
    requires ValidRun(cfg, w, ops) && Enabled(Run(cfg, w, ops), op)
    ensures ValidRun(cfg, w, ops + [op])
    ensures Run(cfg, w, ops + [op]) == Step(cfg, Run(cfg, w, ops), op)
    decreases |ops|
  {
    if ops == [] {
      assert ops + [op] == [op] && [op][1..] == [];
    } else {
      RunSnoc(cfg, Step(cfg, w, ops[0]), ops[1..], op);
      assert (ops + [op])[1..] == ops[1..] + [op];
    }
  }

  // ----- a revoked token stays rejected -----

  /** In every run, no token whose identifier was ever revoked is accepted. */
  ghost predicate RevocationIsPermanent(cfg: Config) {
    forall start: int, ops: seq<Op>, t: Token :: ValidRun(cfg, Init(start), ops) ==>
      var w := Run(cfg, Init(start), ops);
      t.jti in w.hist.revokedAt ==> !Accepted(w, t)
  }

  /** Wait out the retention period, clean up, restart. */
  function Forget(d: nat): seq<Op> { [Tick(d), Cleanup, Restart] }

  /** After that, no revocation is remembered, and nothing else of the history is lost. */
  lemma ForgetRun(cfg: Config, start: World, ops: seq<Op>, d: nat)
    requires ValidRun(cfg, start, ops)
    requires var w := Run(cfg, start, ops);
      forall j :: j in w.db.revoked ==> w.db.revoked[j] + RETENTION < w.now + d
    ensures ValidRun(cfg, start, ops + Forget(d))
    ensures var w := Run(cfg, start, ops);
      var w' := Run(cfg, start, ops + Forget(d));
      && w'.now == w.now + d && w'.hist == w.hist
      && w'.db.revoked == map[] && w'.db.cache == {}
      && w'.db.sessions.Keys <= w.db.sessions.Keys
  {
    var l1 := ops + [Tick(d)];
    var l2 := l1 + [Cleanup];
    RunSnoc(cfg, start, ops, Tick(d));
    RunSnoc(cfg, start, l1, Cleanup);
    RunSnoc(cfg, start, l2, Restart);
    assert l2 + [Restart] == ops + Forget(d);
    assert Run(cfg, start, l1).db.revoked - StaleRevocations(Run(cfg, start, l1).now, Run(cfg, start, l1).db) == map[];
  }

  const SOMEONE := Subject("u", 0, "", [], None)

  /** Login, revoke, forget: the revoked token is accepted again. */
  lemma ForgottenRevocation(cfg: Config, access: bool) returns (ops: seq<Op>, t: Token)
    requires RETENTION_SECONDS <= if access then cfg.AccessLife() else cfg.RefreshLife()
    ensures ValidRun(cfg, Init(0), ops)
    ensures var w := Run(cfg, Init(0), ops);
      t.jti in w.hist.revokedAt && t.Access? == access && Accepted(w, t)
  {
    var login := Login(SOMEONE, Ids("a", "r", "s"));
    var j := if access then "a" else "r";
    RunSnoc(cfg, Init(0), [], login);
    var l1 := [] + [login];
    RunSnoc(cfg, Init(0), l1, RevokeOne(j));
    var l2 := l1 + [RevokeOne(j)];
    ForgetRun(cfg, Init(0), l2, RETENTION + 1);
    ops := l2 + Forget(RETENTION + 1);
    t := Run(cfg, Init(0), ops).hist.issued[j].token;
  }

  /**
    Revocation is permanent exactly when both lifetimes are shorter than the 90 days
    after which cleanup forgets a revocation; 90 days sharp is already too long.
   */
  lemma RevocationPermanence(cfg: Config)
    ensures RevocationIsPermanent(cfg) <==> cfg.accessTtlMinutes < 90 * 24 * 60 && cfg.refreshTtlDays < 90
  {
    if cfg.AccessLife() < RETENTION_SECONDS && cfg.RefreshLife() < RETENTION_SECONDS {
      forall start: int, ops: seq<Op>, t: Token | ValidRun(cfg, Init(start), ops)
        ensures var w := Run(cfg, Init(start), ops);
          t.jti in w.hist.revokedAt ==> !Accepted(w, t)
      {
        var w := Run(cfg, Init(start), ops);
        InvInit(cfg, start);
        InvRun(cfg, Init(start), ops);
        if t.jti in w.hist.revokedAt {
          RevokedIsRejected(cfg, w, t);
        }
      }
    } else {
      var ops, t := ForgottenRevocation(cfg, cfg.AccessLife() >= RETENTION_SECONDS);
    }
  }

  /** The same, told as a story: revoke, let anything happen, present the token again. */
  lemma RevokedStaysRejected(cfg: Config, start: int, before: seq<Op>, j: Jti, later: seq<Op>, t: Token)
    requires cfg.AccessLife() < RETENTION_SECONDS && cfg.RefreshLife() < RETENTION_SECONDS
    requires ValidRun(cfg, Init(start), before)
    requires ValidRun(cfg, Step(cfg, Run(cfg, Init(start), before), RevokeOne(j)), later)
    requires t.jti == j
    ensures !Accepted(Run(cfg, Step(cfg, Run(cfg, Init(start), before), RevokeOne(j)), later), t)
  {
    hide SessionsOk;
    var w := Run(cfg, Init(start), before);
    var w1 := Step(cfg, w, RevokeOne(j));
    InvInit(cfg, start);
    InvRun(cfg, Init(start), before);
    InvRevoke(cfg, w, {j});
    InvRun(cfg, w1, later);
    RunExtends(cfg, w1, later);
    RevokedIsRejected(cfg, Run(cfg, w1, later), t);
  }

  /** The identifiers a revoke-all revokes. */
  function RevokedBy(w: World, u: string, n: int): set<Jti> {
    JtisOf(w.db, RowsOf(w.db, u, n))
  }

  lemma RevokedByMeans(w: World, u: string, n: int, j: Jti)
    ensures j in RevokedBy(w, u, n) <==>
      exists id :: id in w.db.sessions && w.db.sessions[id].userId == u && w.db.sessions[id].tenantId == n
        && (w.db.sessions[id].accessJti == j || w.db.sessions[id].refreshJti == j)
  {
    var rows := RowsOf(w.db, u, n);
    if id :| id in rows && w.db.sessions[id].accessJti == j {
      assert j in JtisOf(w.db, rows);
    } else if id :| id in rows && w.db.sessions[id].refreshJti == j {
      assert j in JtisOf(w.db, rows);
    }
  }

  /** Cleanup forgets exactly the revocations older than 90 days and the session rows past their expiry. */
  lemma CleanupForgetsExactly(cfg: Config, w: World, j: Jti, id: string)
    ensures var db := Step(cfg, w, Cleanup).db;
      && db.cache == w.db.cache
      && (j in db.revoked <==> j in w.db.revoked && w.now - w.db.revoked[j] <= 90 * 86_400 * 1_000_000)
      && (id in db.sessions <==> id in w.db.sessions && w.db.sessions[id].expiresAt >= w.now)
  {
  }

  /** An operation revokes just the identifiers it is given, and a restart, cleanup or the clock revokes none. */
  function RevokedNow(w: World, op: Op): set<Jti> {
    match op
    case RevokeOne(j) => {j}
    case Rotate(t, _, _, _) => if t.Refresh? && Accepted(w, t) then {t.jti, t.accessJti} else {}
    case AbortedRotate(t) => if t.Refresh? && Accepted(w, t) then {t.jti, t.accessJti} else {}
    case RevokeUser(u, n) => RevokedBy(w, u, n)
    case _ => {}
  }

  /**
    What one operation does to a token that was issued before.  As long as no cleanup or restart
    forgets anything, it is accepted afterwards exactly if it was before, has not expired by then,
    and is not among the identifiers revoked.
   */
  lemma AcceptanceAfter(cfg: Config, w: World, op: Op, u: Token)
    requires Inv(cfg, w) && Enabled(w, op) && Issued(w.hist, u) && !op.Cleanup? && !op.Restart?
    ensures Accepted(Step(cfg, w, op), u)
      <==> Accepted(w, u) && !Expired(Step(cfg, w, op).now, u) && u.jti !in RevokedNow(w, op)
  {
    hide SessionsOk, LineageOk, Covered, RevocationOk, Seconds;
    assert IssueOk(cfg, w, u.jti);
    SecondsGrow(w.now, Step(cfg, w, op).now);
  }

  lemma SecondsGrow(a: int, b: int)
    ensures a <= b ==> Seconds(a) <= Seconds(b)
  {
  }

  /** In memory a revocation lasts until the process restarts, whatever the lifetimes. */
  lemma {:induction false} RevokedUntilRestart(cfg: Config, w: World, ops: seq<Op>, t: Token)
    requires t.jti in w.db.cache && ValidRun(cfg, w, ops)
    requires forall i :: 0 <= i < |ops| ==> !ops[i].Restart?
    ensures t.jti in Run(cfg, w, ops).db.cache && !Accepted(Run(cfg, w, ops), t)
    decreases |ops|
  {
    if ops != [] {
      hide Seconds;
      RevokedUntilRestart(cfg, Step(cfg, w, ops[0]), ops[1..], t);
    }
  }

  /** Each revoking operation puts what it revokes into table and cache; a row that stays keeps its instant. */
  lemma RevocationIsRecorded(cfg: Config, w: World, op: Op, j: Jti)
    requires Enabled(w, op)
    ensures var w' := Step(cfg, w, op);
      && (j in RevokedNow(w, op) ==> j in w'.db.cache && j in w'.db.revoked)
      && (j in w.db.revoked && j in w'.db.revoked ==> w'.db.revoked[j] == w.db.revoked[j])
      && (j !in w.db.revoked && j in w'.db.revoked ==> w'.db.revoked[j] == w.now && j in RevokedNow(w, op))
  {
    hide Seconds;
  }

  // ----- rotation -----

  /** In every run, no refresh token is exchanged twice. */
  ghost predicate ExchangeIsSingleUse(cfg: Config) {
    forall start: int, ops: seq<Op>, i: int, k: int :: ValidRun(cfg, Init(start), ops) ==>
      var h := Run(cfg, Init(start), ops).hist;
      0 <= i < k < |h.exchanges| ==> h.exchanges[i] != h.exchanges[k]
  }

  predicate SameLineage(h: History, t: Token, u: Token) {
    && t.Refresh? && u.Refresh? && Issued(h, t) && Issued(h, u)
    && h.issued[t.jti].lineage == h.issued[u.jti].lineage
  }

  /** In every run, a login and its rotations have at most one usable refresh token. */
  ghost predicate OneLiveRefreshPerLogin(cfg: Config) {
    forall start: int, ops: seq<Op>, t: Token, u: Token :: ValidRun(cfg, Init(start), ops) ==>
      var w := Run(cfg, Init(start), ops);
      SameLineage(w.hist, t, u) && Accepted(w, t) && Accepted(w, u) ==> t == u
  }

  /** Login and one exchange, at the same instant. */
  lemma OneExchange(cfg: Config) returns (ops: seq<Op>, exchanged: Token, renewed: Token)
    requires cfg.RefreshLife() >= RETENTION_SECONDS
    ensures ValidRun(cfg, Init(0), ops)
    ensures var w := Run(cfg, Init(0), ops);
      && SameLineage(w.hist, exchanged, renewed) && exchanged.jti == "r1" && renewed.jti == "r2"
      && exchanged.exp == renewed.exp == cfg.RefreshLife()
      && w.now == 0 && (forall j :: j in w.db.revoked ==> w.db.revoked[j] == 0)
      && w.hist.exchanges == ["r1"]
      && w.hist.issued.Keys == {"a1", "r1", "a2", "r2"} && w.hist.revokedAt.Keys == {"r1", "a1"}
      && w.db.sessions.Keys == {"s1", "s2"}
  {
    var w0 := Init(0);
    var login := Login(SOMEONE, Ids("a1", "r1", "s1"));
    RunSnoc(cfg, w0, [], login);
    var w1 := Step(cfg, w0, login);
    exchanged := RefreshClaims(cfg, 0, SOMEONE, Ids("a1", "r1", "s1"));
    assert w1.hist.issued["r1"].token == exchanged;
    assert Accepted(w1, exchanged);
    var rotate := Rotate(exchanged, "", [], Ids("a2", "r2", "s2"));
    assert Unused(w1, Ids("a2", "r2", "s2"));
    RunSnoc(cfg, w0, [] + [login], rotate);
    ops := [] + [login] + [rotate];
    renewed := RefreshClaims(cfg, 0, RotatedSubject(exchanged, "", []), Ids("a2", "r2", "s2"));
    assert Step(cfg, w1, rotate) == Rotated(cfg, w1, exchanged, "", [], Ids("a2", "r2", "s2"));
  }

  /** Exchange once, let cleanup and a restart forget it, and the old token is usable again. */
  lemma ReplayedExchange(cfg: Config) returns (ops: seq<Op>, exchanged: Token, renewed: Token)
    requires cfg.RefreshLife() >= RETENTION_SECONDS
    ensures ValidRun(cfg, Init(0), ops)
    ensures var w := Run(cfg, Init(0), ops);
      && SameLineage(w.hist, exchanged, renewed) && exchanged != renewed && Accepted(w, exchanged) && Accepted(w, renewed)
      && w.hist.exchanges == [exchanged.jti]
      && Unused(w, Ids("a3", "r3", "s3"))
  {
    var l2;
    l2, exchanged, renewed := OneExchange(cfg);
    ForgetRun(cfg, Init(0), l2, RETENTION + 1);
    ops := l2 + Forget(RETENTION + 1);
  }

  /** Both rotation guarantees hold exactly when a refresh token lives less than 90 days. */
  lemma RotationGuarantees(cfg: Config)
    ensures ExchangeIsSingleUse(cfg) <==> cfg.refreshTtlDays < 90
    ensures OneLiveRefreshPerLogin(cfg) <==> cfg.refreshTtlDays < 90
  {
    if cfg.RefreshLife() < RETENTION_SECONDS {
      forall start: int, ops: seq<Op> | ValidRun(cfg, Init(start), ops)
        ensures LineageOk(Run(cfg, Init(start), ops).hist)
      {
        InvInit(cfg, start);
        InvRun(cfg, Init(start), ops);
      }
      forall start: int, ops: seq<Op>, t: Token, u: Token | ValidRun(cfg, Init(start), ops)
        ensures var w := Run(cfg, Init(start), ops);
          SameLineage(w.hist, t, u) && Accepted(w, t) && Accepted(w, u) ==> t == u
      {
        var w := Run(cfg, Init(start), ops);
        if SameLineage(w.hist, t, u) && Accepted(w, t) && Accepted(w, u) {
          AcceptedIsLive(cfg, start, ops, t);
          AcceptedIsLive(cfg, start, ops, u);
        }
      }
    } else {
      var ops, exchanged, renewed := ReplayedExchange(cfg);
      var w := Run(cfg, Init(0), ops);
      var again := Rotate(exchanged, "", [], Ids("a3", "r3", "s3"));
      RunSnoc(cfg, Init(0), ops, again);
      var h := Run(cfg, Init(0), ops + [again]).hist;
      assert h.exchanges[0] == h.exchanges[1];
    }
  }

  lemma AcceptedIsLive(cfg: Config, start: int, ops: seq<Op>, t: Token)
    requires cfg.RefreshLife() < RETENTION_SECONDS && ValidRun(cfg, Init(start), ops)
    requires t.Refresh? && Accepted(Run(cfg, Init(start), ops), t)
    ensures var h := Run(cfg, Init(start), ops).hist;
      LiveRefresh(h, t.jti, h.issued[t.jti].lineage)
  {
    hide SessionsOk;
    var w := Run(cfg, Init(start), ops);
    InvInit(cfg, start);
    InvRun(cfg, Init(start), ops);
    if t.jti in w.hist.revokedAt {
      RevokedIsRejected(cfg, w, t);
    }
  }

  /** A new pair is usable at once, exactly as far as its lifetimes are not negative. */
  lemma FreshPairIsAccepted(cfg: Config, w: World, s: Subject, ids: Ids)
    requires Inv(cfg, w) && Unused(w, ids)
    ensures var w' := Step(cfg, w, Login(s, ids));
      && ids.access in w'.hist.issued && ids.refresh in w'.hist.issued
      && (Accepted(w', w'.hist.issued[ids.access].token) <==> cfg.accessTtlMinutes >= 0)
      && (Accepted(w', w'.hist.issued[ids.refresh].token) <==> cfg.refreshTtlDays >= 0)
  {
    assert ids.access !in w.db.revoked && ids.refresh !in w.db.revoked;
  }

  /** Once exchanged, a refresh token and the access token issued with it are never accepted again. */
  lemma RotationRetiresThePair(cfg: Config, w: World, t: Token, email: string, roles: seq<string>, ids: Ids,
                               later: seq<Op>, u: Token)
    requires cfg.AccessLife() < RETENTION_SECONDS && cfg.RefreshLife() < RETENTION_SECONDS
    requires Inv(cfg, w) && Unused(w, ids) && t.Refresh? && Accepted(w, t)
    requires ValidRun(cfg, Rotated(cfg, w, t, email, roles, ids), later)
    requires u.jti == t.jti || u.jti == t.accessJti
    ensures !Accepted(Run(cfg, Rotated(cfg, w, t, email, roles, ids), later), u)
  {
    hide SessionsOk;
    var w1 := Rotated(cfg, w, t, email, roles, ids);
    InvRotate(cfg, w, t, email, roles, ids);
    InvRun(cfg, w1, later);
    RunExtends(cfg, w1, later);
    assert u.jti in w1.hist.revokedAt;
    RevokedIsRejected(cfg, Run(cfg, w1, later), u);
  }

  // ----- a rotation that fails halfway -----

  lemma LiveBefore(cfg: Config, w: World, op: Op, j: Jti, n: nat)
    requires Inv(cfg, w) && Enabled(w, op) && cfg.RefreshLife() < RETENTION_SECONDS && n < w.hist.lineages
    requires LiveRefresh(Step(cfg, w, op).hist, j, n)
    ensures exists i :: LiveRefresh(w.hist, i, n)
  {
    hide SessionsOk, LineageOk, Covered;
    if !LiveRefresh(w.hist, j, n) {
      assert op.Rotate? && op.token.Refresh? && Accepted(w, op.token);
      if op.token.jti in w.hist.revokedAt { RevokedIsRejected(cfg, w, op.token); }
      assert LiveRefresh(w.hist, op.token.jti, n);
    }
  }

  /** A login without a live refresh token never gets one again. */
  lemma {:induction false} EndedLoginStaysEnded(cfg: Config, w: World, ops: seq<Op>, n: nat)
    requires Inv(cfg, w) && ValidRun(cfg, w, ops) && cfg.RefreshLife() < RETENTION_SECONDS && n < w.hist.lineages
    requires forall j :: !LiveRefresh(w.hist, j, n)
    ensures forall j :: !LiveRefresh(Run(cfg, w, ops).hist, j, n)
    decreases |ops|
  {
    if ops != [] {
      hide Inv, LiveRefresh;
      var w1 := Step(cfg, w, ops[0]);
      forall j ensures !LiveRefresh(w1.hist, j, n) {
        if LiveRefresh(w1.hist, j, n) { LiveBefore(cfg, w, ops[0], j, n); }
      }
      InvStep(cfg, w, ops[0]);
      LineagesGrow(cfg, w, ops[0]);
      EndedLoginStaysEnded(cfg, w1, ops[1..], n);
    }
  }

  lemma LineagesGrow(cfg: Config, w: World, op: Op)
    ensures w.hist.lineages <= Step(cfg, w, op).hist.lineages
  {
  }

  /**
    If the user's row cannot be read, the pair is revoked all the same and the login is over: no
    continuation accepts any refresh token of its lineage.
   */
  lemma AbortedRotationEndsTheLogin(cfg: Config, w: World, t: Token, later: seq<Op>, u: Token)
    requires Inv(cfg, w) && cfg.RefreshLife() < RETENTION_SECONDS && t.Refresh? && Accepted(w, t)
    requires ValidRun(cfg, Step(cfg, w, AbortedRotate(t)), later)
    ensures var end := Run(cfg, Step(cfg, w, AbortedRotate(t)), later);
      u.Refresh? && Accepted(end, u) ==> end.hist.issued[u.jti].lineage != w.hist.issued[t.jti].lineage
  {
    hide SessionsOk, Covered;
    var n := w.hist.issued[t.jti].lineage;
    var w1 := Step(cfg, w, AbortedRotate(t));
    assert IssueOk(cfg, w, t.jti);
    InvStep(cfg, w, AbortedRotate(t));
    if t.jti in w.hist.revokedAt { RevokedIsRejected(cfg, w, t); }
    assert LiveRefresh(w.hist, t.jti, n);
    forall j ensures !LiveRefresh(w1.hist, j, n) {
      assert LiveRefresh(w1.hist, j, n) ==> LiveRefresh(w.hist, j, n);
    }
    EndedLoginStaysEnded(cfg, w1, later, n);
    var end := Run(cfg, w1, later);
    InvRun(cfg, w1, later);
    if u.Refresh? && Accepted(end, u) {
      if u.jti in end.hist.revokedAt { RevokedIsRejected(cfg, end, u); }
      assert LiveRefresh(end.hist, u.jti, end.hist.issued[u.jti].lineage);
    }
  }

  /** Neither token of the pair is accepted again after a rotation that failed halfway. */
  lemma AbortedRotationRetiresThePair(cfg: Config, w: World, t: Token, later: seq<Op>, u: Token)
    requires cfg.AccessLife() < RETENTION_SECONDS && cfg.RefreshLife() < RETENTION_SECONDS
    requires Inv(cfg, w) && t.Refresh? && Accepted(w, t) && (u.jti == t.jti || u.jti == t.accessJti)
    requires ValidRun(cfg, Step(cfg, w, AbortedRotate(t)), later)
    ensures !Accepted(Run(cfg, Step(cfg, w, AbortedRotate(t)), later), u)
  {
    hide SessionsOk, LineageOk, Covered;
    var w1 := Step(cfg, w, AbortedRotate(t));
    InvStep(cfg, w, AbortedRotate(t));
    InvRun(cfg, w1, later);
    RunExtends(cfg, w1, later);
    assert u.jti in w1.hist.revokedAt;
    RevokedIsRejected(cfg, Run(cfg, w1, later), u);
  }

  // ----- revoke-all -----

  /** Revoke-all touches nobody else's tokens. */
  lemma RevokeAllSparesOthers(cfg: Config, w: World, u: string, n: int, t: Token)
    requires Inv(cfg, w) && Issued(w.hist, t) && !(t.sub == u && t.tenantId == n)
    ensures Accepted(Step(cfg, w, RevokeUser(u, n)), t) <==> Accepted(w, t)
  {
    hide IssueOk, Covered, RevocationOk, LineageOk;
    forall id | id in RowsOf(w.db, u, n)
      ensures w.db.sessions[id].accessJti != t.jti && w.db.sessions[id].refreshJti != t.jti
    {
      assert SessionOk(w, id);
    }
  }

  /** `t` was issued to the user before the revoke-all and is accepted after `later`. */
  predicate Survives(cfg: Config, w: World, u: string, n: int, later: seq<Op>, t: Token) {
    && Issued(w.hist, t) && t.sub == u && t.tenantId == n
    && Accepted(Run(cfg, Step(cfg, w, RevokeUser(u, n)), later), t)
  }

  /**
    A token that survives a revoke-all had outlived its session row before the call:
    its session's exact expiry was already past, and only the flooring of `exp` to whole
    seconds (or an access lifetime as long as the refresh lifetime) keeps it acceptable.
   */
  lemma SurvivorOutlivedItsSession(cfg: Config, w: World, u: string, n: int, later: seq<Op>, t: Token)
    requires Inv(cfg, w) && ValidRun(cfg, Step(cfg, w, RevokeUser(u, n)), later)
    requires cfg.Life(t) < RETENTION_SECONDS
    ensures Survives(cfg, w, u, n, later, t) ==>
      var at := w.hist.issued[t.jti].at;
      var w2 := Run(cfg, Step(cfg, w, RevokeUser(u, n)), later);
      && at <= w.now <= w2.now
      && at + cfg.RefreshLife() * TICKS_PER_SECOND < w.now
      && Seconds(w2.now) <= Seconds(at) + cfg.Life(t)
      && w2.now < at + (cfg.Life(t) + 1) * TICKS_PER_SECOND
      && t.jti !in RevokedBy(w, u, n)
  {
    hide SessionsOk;
    var w1 := Step(cfg, w, RevokeUser(u, n));
    var w2 := Run(cfg, w1, later);
    InvRevokeUser(cfg, w, u, n);
    InvRun(cfg, w1, later);
    RunExtends(cfg, w1, later);
    if Survives(cfg, w, u, n, later, t) {
      assert IssueOk(cfg, w, t.jti) && IssueOk(cfg, w2, t.jti) && Covered(cfg, w, t.jti);
      if t.jti in w1.hist.revokedAt {
        RevokedIsRejected(cfg, w2, t);
      }
      var id := w.hist.issued[t.jti].session;
      if id in w.db.sessions && id in RowsOf(w.db, u, n) {
        assert {w.db.sessions[id].accessJti, w.db.sessions[id].refreshJti} <= RevokedBy(w, u, n);
      }
    }
  }

  /**
    Call by call: of the user's tokens, a revoke-all misses exactly those that are accepted at the
    call and named by no session row; all others are never accepted again.
   */
  lemma RevokeAllMissesExactly(cfg: Config, w: World, u: string, n: int, t: Token)
    requires Inv(cfg, w) && Issued(w.hist, t) && t.sub == u && t.tenantId == n
    requires cfg.AccessLife() < RETENTION_SECONDS && cfg.RefreshLife() < RETENTION_SECONDS
    ensures (exists later :: ValidRun(cfg, Step(cfg, w, RevokeUser(u, n)), later) && Survives(cfg, w, u, n, later, t))
      <==> Accepted(w, t) && t.jti !in RevokedBy(w, u, n)
  {
    hide SessionsOk;
    var w1 := Step(cfg, w, RevokeUser(u, n));
    InvRevokeUser(cfg, w, u, n);
    forall later | ValidRun(cfg, w1, later) && Survives(cfg, w, u, n, later, t)
      ensures Accepted(w, t) && t.jti !in RevokedBy(w, u, n)
    {
      InvRun(cfg, w1, later);
      RunExtends(cfg, w1, later);
      if t.jti in w1.hist.revokedAt { RevokedIsRejected(cfg, Run(cfg, w1, later), t); }
    }
    if Accepted(w, t) && t.jti !in RevokedBy(w, u, n) {
      assert ValidRun(cfg, w1, []) && Survives(cfg, w, u, n, [], t);
    }
  }

  /** No access (or refresh) token issued before a revoke-all is ever accepted after it. */
  ghost predicate RevokeAllIsComplete(cfg: Config, access: bool) {
    forall start: int, before: seq<Op>, u: string, n: int, later: seq<Op>, t: Token ::
      && ValidRun(cfg, Init(start), before)
      && ValidRun(cfg, Step(cfg, Run(cfg, Init(start), before), RevokeUser(u, n)), later)
      && t.Access? == access
      ==> !Survives(cfg, Run(cfg, Init(start), before), u, n, later, t)
  }

  /** Login, and cleanup some time after the session row has expired. */
  lemma LoginThenCleanup(cfg: Config, d: nat) returns (ops: seq<Op>)
    requires cfg.RefreshLife() * TICKS_PER_SECOND < d
    ensures ValidRun(cfg, Init(0), ops)
    ensures var w := Run(cfg, Init(0), ops);
      && w.now == d && w.db == Tables(map[], {}, map[])
      && w.hist == Step(cfg, Init(0), Login(SOMEONE, Ids("a", "r", "s"))).hist
  {
    var w0 := Init(0);
    var login := Login(SOMEONE, Ids("a", "r", "s"));
    RunSnoc(cfg, w0, [], login);
    var l1 := [] + [login];
    RunSnoc(cfg, w0, l1, Tick(d));
    var l2 := l1 + [Tick(d)];
    RunSnoc(cfg, w0, l2, Cleanup);
    ops := l2 + [Cleanup];
    assert Run(cfg, w0, ops).db.sessions == map[];
  }

  lemma OneTickLater(life: int)
    ensures Seconds(life * TICKS_PER_SECOND) == Seconds(life * TICKS_PER_SECOND + 1) == life
  {
  }

  /** The two tokens of a login at the instant zero. */
  lemma FirstTokens(cfg: Config, access: bool)
    ensures var h := Step(cfg, Init(0), Login(SOMEONE, Ids("a", "r", "s"))).hist;
      var j := if access then "a" else "r";
      && j in h.issued && Issued(h, h.issued[j].token)
      && var t := h.issued[j].token;
         && t.jti == j && t.Access? == access && t.sub == "u" && t.tenantId == 0
         && t.exp == if access then cfg.AccessLife() else cfg.RefreshLife()
  {
    OneTickLater(cfg.AccessLife());
    OneTickLater(cfg.RefreshLife());
  }

  /** Cleanup drops the session row of a token that is still accepted; revoke-all then misses it. */
  lemma MissedByRevokeAll(cfg: Config, access: bool) returns (before: seq<Op>, t: Token)
    requires 0 <= if access then cfg.AccessLife() else cfg.RefreshLife()
    requires access ==> cfg.AccessLife() >= cfg.RefreshLife()
    ensures ValidRun(cfg, Init(0), before) && t.Access? == access
    ensures Survives(cfg, Run(cfg, Init(0), before), "u", 0, [], t)
  {
    hide ValidRun, Run, Step, Seconds;
    var life := if cfg.RefreshLife() < 0 then 0 else cfg.RefreshLife();
    before := LoginThenCleanup(cfg, life * TICKS_PER_SECOND + 1);
    var w := Run(cfg, Init(0), before);
    FirstTokens(cfg, access);
    t := w.hist.issued[if access then "a" else "r"].token;
    OneTickLater(life);
    NoRowsNothingRevoked(cfg, w, "u", 0);
  }

  lemma NoRowsNothingRevoked(cfg: Config, w: World, u: string, n: int)
    requires w.db == Tables(map[], {}, map[])
    ensures Run(cfg, Step(cfg, w, RevokeUser(u, n)), []) == w
  {
    assert RowsOf(w.db, u, n) == {} && JtisOf(w.db, {}) == {};
    assert Stamped(map[], {}, w.now) == map[] && Stamped(w.hist.revokedAt, {}, w.now) == w.hist.revokedAt;
  }

  /**
    For access tokens, revoke-all is complete exactly when they live shorter than the session
    row and than the retention of revocations (or never live at all).  For refresh tokens, the
    session row expires at the exact instant but the claim only at the end of that second, so
    revoke-all is never complete for a refresh lifetime of zero or more days.
   */
  lemma RevokeAllCompleteness(cfg: Config)
    ensures RevokeAllIsComplete(cfg, true) <==>
      cfg.accessTtlMinutes < 0
      || (cfg.accessTtlMinutes < cfg.refreshTtlDays * 24 * 60 && cfg.accessTtlMinutes < 90 * 24 * 60)
    ensures RevokeAllIsComplete(cfg, false) <==> cfg.refreshTtlDays < 0
  {
    RevokeAllCompletenessFor(cfg, true);
    RevokeAllCompletenessFor(cfg, false);
  }

  lemma RevokeAllCompletenessFor(cfg: Config, access: bool)
    ensures var life := if access then cfg.AccessLife() else cfg.RefreshLife();
      RevokeAllIsComplete(cfg, access) <==>
        life < 0 || (life < cfg.RefreshLife() && life < RETENTION_SECONDS)
  {
    var life := if access then cfg.AccessLife() else cfg.RefreshLife();
    if life < 0 || (life < cfg.RefreshLife() && life < RETENTION_SECONDS) {
      forall start: int, before: seq<Op>, u: string, n: int, later: seq<Op>, t: Token |
        && ValidRun(cfg, Init(start), before)
        && ValidRun(cfg, Step(cfg, Run(cfg, Init(start), before), RevokeUser(u, n)), later)
        && t.Access? == access
        ensures !Survives(cfg, Run(cfg, Init(start), before), u, n, later, t)
      {
        var w := Run(cfg, Init(start), before);
        InvInit(cfg, start);
        InvRun(cfg, Init(start), before);
        if Survives(cfg, w, u, n, later, t) {
          SurvivorOutlivedItsSession(cfg, w, u, n, later, t);
        }
      }
    } else if !access || life >= cfg.RefreshLife() {
      var before, t := MissedByRevokeAll(cfg, access);
      assert ValidRun(cfg, Step(cfg, Run(cfg, Init(0), before), RevokeUser("u", 0)), []);
    } else {
      ForgottenRevokeAll(cfg);
    }
  }

  /** An access token of 90 days or more outlives the memory of its own revoke-all. */
  lemma ForgottenRevokeAll(cfg: Config)
    requires RETENTION_SECONDS <= cfg.AccessLife()
    ensures !RevokeAllIsComplete(cfg, true)
  {
    var w0 := Init(0);
    var login := Login(SOMEONE, Ids("a", "r", "s"));
    RunSnoc(cfg, w0, [], login);
    var before := [] + [login];
    var w := Run(cfg, w0, before);
    var t := w.hist.issued["a"].token;
    var w1 := Step(cfg, w, RevokeUser("u", 0));
    assert forall j :: j in w1.db.revoked ==> w1.db.revoked[j] == 0;
    ForgetRun(cfg, w1, [], RETENTION + 1);
    assert Survives(cfg, w, "u", 0, [] + Forget(RETENTION + 1), t);
  }
}
