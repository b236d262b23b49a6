/** Whom tokens are issued for: what a pair says, and what stays the same along a login's rotations. */
module JwtSubjects {
  import opened Wrappers
  import opened JwtSessions

  // ----- one pair -----

  /** The pair issued under `ids` at `now` for the given user, tenant, device, e-mail and roles. */
  predicate PairSays(cfg: Config, h: History, now: int, ids: Ids, userId: string, tenantId: int,
                     deviceId: Option<string>, email: string, roles: seq<string>)
  {
    && ids.access in h.issued && ids.refresh in h.issued
    && var a, r := h.issued[ids.access].token, h.issued[ids.refresh].token;
    && a.Access? && a.jti == ids.access && a.sub == userId && a.tenantId == tenantId
    && a.email == email && a.roles == roles
    && a.iat == now / 1_000_000 && a.exp == now / 1_000_000 + cfg.accessTtlMinutes * 60
    && r.Refresh? && r.jti == ids.refresh && r.sub == userId && r.tenantId == tenantId
    && r.deviceId == deviceId && r.accessJti == ids.access
    && r.iat == now / 1_000_000 && r.exp == now / 1_000_000 + cfg.refreshTtlDays * 86_400
  }

  /** The session row of the pair: its user, its tokens, and the instant the refresh token was asked to expire at. */
  predicate RowSays(cfg: Config, db: Tables, now: int, ids: Ids, userId: string, tenantId: int, deviceId: Option<string>) {
    && ids.session in db.sessions
    && var row := db.sessions[ids.session];
    && row.userId == userId && row.tenantId == tenantId && row.deviceId == deviceId
    && row.accessJti == ids.access && row.refreshJti == ids.refresh
    && row.expiresAt == now + cfg.refreshTtlDays * 86_400 * 1_000_000
  }

  lemma WholeSeconds(now: int, seconds: int)
    ensures Seconds(now + seconds * TICKS_PER_SECOND) == now / 1_000_000 + seconds
  {
  }

  /** A login issues a pair for its subject. */
  lemma LoginIssuesForTheSubject(cfg: Config, w: World, s: Subject, ids: Ids)
    requires Unused(w, ids)
    ensures var w' := Step(cfg, w, Login(s, ids));
      && PairSays(cfg, w'.hist, w.now, ids, s.userId, s.tenantId, s.deviceId, s.email, s.roles)
      && RowSays(cfg, w'.db, w.now, ids, s.userId, s.tenantId, s.deviceId)
  {
    hide Seconds;
    WholeSeconds(w.now, cfg.accessTtlMinutes * 60);
    WholeSeconds(w.now, cfg.refreshTtlDays * 86_400);
    WholeSeconds(w.now, 0);
  }

  /** A rotation issues a pair for the user, tenant and device of the exchanged token, with the e-mail and roles read anew. */
  lemma RotationIssuesForTheSameUser(cfg: Config, w: World, t: Token, email: string, roles: seq<string>, ids: Ids)
    requires Unused(w, ids) && t.Refresh? && Accepted(w, t)
    ensures var w' := Step(cfg, w, Rotate(t, email, roles, ids));
      && PairSays(cfg, w'.hist, w.now, ids, t.sub, t.tenantId, t.deviceId, email, roles)
      && RowSays(cfg, w'.db, w.now, ids, t.sub, t.tenantId, t.deviceId)
      && w'.hist.issued[ids.refresh].lineage == w.hist.issued[t.jti].lineage
  {
    hide Seconds;
    WholeSeconds(w.now, cfg.accessTtlMinutes * 60);
    WholeSeconds(w.now, cfg.refreshTtlDays * 86_400);
    WholeSeconds(w.now, 0);
  }

  /** No operation rewrites a session row or a token's claims. */
  lemma NothingIsRewritten(cfg: Config, w: World, op: Op, id: string, j: Jti)
    requires Enabled(w, op)
    ensures var w' := Step(cfg, w, op);
      && (id in w.db.sessions && id in w'.db.sessions ==> w'.db.sessions[id] == w.db.sessions[id])
      && (j in w.hist.issued ==> j in w'.hist.issued && w'.hist.issued[j] == w.hist.issued[j])
  {
    hide Seconds;
  }

  // ----- a login and its rotations -----

  predicate SameUser(t: Token, u: Token) {
    && t.sub == u.sub && t.tenantId == u.tenantId
    && (t.Refresh? && u.Refresh? ==> t.deviceId == u.deviceId)
  }

  /** A refresh token names the access token issued together with it. */
  predicate Paired(h: History, j: Jti)
    requires j in h.issued
  {
    var i := h.issued[j];
    i.token.Refresh? ==>
      && i.token.accessJti in h.issued
      && var a := h.issued[i.token.accessJti];
      && a.token.Access? && a.lineage == i.lineage && a.session == i.session && a.at == i.at
  }

  predicate Numbered(h: History, j: Jti)
    requires j in h.issued
  {
    h.issued[j].lineage < h.lineages && h.issued[j].token.jti == j && h.issued[j].token.iat == Seconds(h.issued[j].at)
  }

  ghost predicate Pedigree(h: History) {
    && (forall j :: j in h.issued ==> Numbered(h, j) && Paired(h, j))
    && (forall j, k :: j in h.issued && k in h.issued && h.issued[j].lineage == h.issued[k].lineage ==>
          SameUser(h.issued[j].token, h.issued[k].token))
  }

  /** Whom a lineage belongs to, as far as it has tokens. */
  ghost predicate LineageIsOf(h: History, lineage: nat, s: Subject) {
    forall j :: j in h.issued && h.issued[j].lineage == lineage ==>
      var t := h.issued[j].token;
      t.sub == s.userId && t.tenantId == s.tenantId && (t.Refresh? ==> t.deviceId == s.deviceId)
  }

  lemma IssueKeepsPedigree(cfg: Config, w: World, s: Subject, ids: Ids, lineage: nat)
    requires Pedigree(w.hist) && Unused(w, ids) && lineage < w.hist.lineages && LineageIsOf(w.hist, lineage, s)
    ensures Pedigree(IssuePair(cfg, w, s, ids, lineage).hist)
  {
    hide Seconds, SameUser;
    var h, h' := w.hist, IssuePair(cfg, w, s, ids, lineage).hist;
    forall j | j in h'.issued ensures Numbered(h', j) && Paired(h', j) {
      if j in h.issued { assert Numbered(h, j) && Paired(h, j); }
    }
    forall j, k | j in h'.issued && k in h'.issued && h'.issued[j].lineage == h'.issued[k].lineage
      ensures SameUser(h'.issued[j].token, h'.issued[k].token)
    {
      SameUserAfterIssue(cfg, w, s, ids, lineage, j, k);
    }
  }

  lemma SameUserAfterIssue(cfg: Config, w: World, s: Subject, ids: Ids, lineage: nat, j: Jti, k: Jti)
    requires Pedigree(w.hist) && LineageIsOf(w.hist, lineage, s)
    requires var h' := IssuePair(cfg, w, s, ids, lineage).hist;
      j in h'.issued && k in h'.issued && h'.issued[j].lineage == h'.issued[k].lineage
    ensures var h' := IssuePair(cfg, w, s, ids, lineage).hist;
      SameUser(h'.issued[j].token, h'.issued[k].token)
  {
    hide Seconds;
  }

  lemma PedigreeStep(cfg: Config, w: World, op: Op)
    requires Pedigree(w.hist) && Enabled(w, op)
    ensures Pedigree(Step(cfg, w, op).hist)
  {
    hide Seconds, SameUser;
    match op
    case Login(s, ids) =>
      var h0 := w.hist.(lineages := w.hist.lineages + 1);
      var w0 := w.(hist := h0);
      forall j | j in h0.issued ensures Numbered(h0, j) && Paired(h0, j) { assert Numbered(w.hist, j) && Paired(w.hist, j); }
      IssueKeepsPedigree(cfg, w0, s, ids, w.hist.lineages);
      assert Step(cfg, w, op).hist == IssuePair(cfg, w0, s, ids, w.hist.lineages).hist;
    case Rotate(t, email, roles, ids) =>
      if t.Refresh? && Accepted(w, t) { RotateKeepsPedigree(cfg, w, t, email, roles, ids); }
    case _ =>
      SameTokensSamePedigree(w.hist, Step(cfg, w, op).hist);
  }

  lemma SameTokensSamePedigree(h: History, h': History)
    requires Pedigree(h) && h'.issued == h.issued && h'.lineages == h.lineages
    ensures Pedigree(h')
  {
    forall j | j in h'.issued ensures Numbered(h', j) && Paired(h', j) { assert Numbered(h, j) && Paired(h, j); }
  }

  lemma RotateKeepsPedigree(cfg: Config, w: World, t: Token, email: string, roles: seq<string>, ids: Ids)
    requires Pedigree(w.hist) && Unused(w, ids) && t.Refresh? && Accepted(w, t)
    ensures Pedigree(Rotated(cfg, w, t, email, roles, ids).hist)
  {
    hide Seconds, SameUser;
    var n := w.hist.issued[t.jti].lineage;
    var s := RotatedSubject(t, email, roles);
    var w1 := PairRevoked(w, t);
    assert Numbered(w.hist, t.jti) && Paired(w.hist, t.jti);
    SameTokensSamePedigree(w.hist, w1.hist);
    forall j | j in w.hist.issued && w.hist.issued[j].lineage == n ensures SameUser(w.hist.issued[j].token, t) {
    }
    OwnLineage(w.hist, n, t, s);
    StillUnused(w, t, ids);
    IssueKeepsPedigree(cfg, w1, s, ids, n);
    SameTokensSamePedigree(IssuePair(cfg, w1, s, ids, n).hist, Rotated(cfg, w, t, email, roles, ids).hist);
  }

  lemma OwnLineage(h: History, n: nat, t: Token, s: Subject)
    requires t.Refresh? && s.userId == t.sub && s.tenantId == t.tenantId && s.deviceId == t.deviceId
    requires forall j :: j in h.issued && h.issued[j].lineage == n ==> SameUser(h.issued[j].token, t)
    ensures LineageIsOf(h, n, s)
  {
  }

  lemma StillUnused(w: World, t: Token, ids: Ids)
    requires Unused(w, ids) && t.Refresh? && Pedigree(w.hist) && Issued(w.hist, t)
    ensures Unused(PairRevoked(w, t), ids)
  {
    assert Paired(w.hist, t.jti);
  }

  lemma {:induction false} PedigreeRun(cfg: Config, w: World, ops: seq<Op>)
    requires Pedigree(w.hist) && ValidRun(cfg, w, ops)
    ensures Pedigree(Run(cfg, w, ops).hist)
    decreases |ops|
  {
    if ops != [] {
      PedigreeStep(cfg, w, ops[0]);
      PedigreeRun(cfg, Step(cfg, w, ops[0]), ops[1..]);
    }
  }

  /** In every run, all tokens of one login and its rotations are for the same user, tenant and device. */
  lemma LoginKeepsItsUser(cfg: Config, start: int, ops: seq<Op>, j: Jti, k: Jti)
    requires ValidRun(cfg, Init(start), ops)
    ensures var h := Run(cfg, Init(start), ops).hist;
      j in h.issued && k in h.issued && h.issued[j].lineage == h.issued[k].lineage ==>
        var t, u := h.issued[j].token, h.issued[k].token;
        && t.sub == u.sub && t.tenantId == u.tenantId
        && (t.Refresh? && u.Refresh? ==> t.deviceId == u.deviceId)
  {
    PedigreeRun(cfg, Init(start), ops);
  }

  /** In every run, a refresh token names an access token that was issued together with it, for the same user. */
  lemma RefreshNamesItsAccessToken(cfg: Config, start: int, ops: seq<Op>, j: Jti)
    requires ValidRun(cfg, Init(start), ops)
    ensures var h := Run(cfg, Init(start), ops).hist;
      j in h.issued && h.issued[j].token.Refresh? ==>
        && h.issued[j].token.accessJti in h.issued
        && var a := h.issued[h.issued[j].token.accessJti];
        && a.token.Access? && a.at == h.issued[j].at && a.session == h.issued[j].session
        && a.token.sub == h.issued[j].token.sub && a.token.tenantId == h.issued[j].token.tenantId
  {
    PedigreeRun(cfg, Init(start), ops);
    var h := Run(cfg, Init(start), ops).hist;
    if j in h.issued { assert Paired(h, j); }
  }
}
