/**
  The token life cycle as a transition system: the tables the session service
  keeps, the claims it signs, and a history that the service itself never sees
  (every token issued, the first instant each identifier was revoked, and every
  exchange of a refresh token).

  Time is counted in microseconds.  Claims carry whole seconds (`timestamp()`
  floors), while `revoked_at` and `expires_at` keep the full resolution.
 */
module JwtSessions {
  import opened Wrappers

  type Jti = string

  const TICKS_PER_SECOND: int := 1_000_000
  const DAY: int := 86_400
  const RETENTION_SECONDS: int := 90 * DAY
  const RETENTION: int := RETENTION_SECONDS * TICKS_PER_SECOND

  /** The two lifetimes read from the environment; neither is range-checked. */
  datatype Config = Config(accessTtlMinutes: int, refreshTtlDays: int) {
    function AccessLife(): int { accessTtlMinutes * 60 }

    function RefreshLife(): int { refreshTtlDays * DAY }

    function Life(t: Token): int { if t.Access? then AccessLife() else RefreshLife() }
  }

  datatype Token =
    | Access(jti: Jti, sub: string, tenantId: int, exp: int, iat: int, roles: seq<string>, email: string)
    | Refresh(jti: Jti, sub: string, tenantId: int, exp: int, iat: int, accessJti: Jti, deviceId: Option<string>)

  datatype Session = Session(userId: string, tenantId: int, deviceId: Option<string>,
                             accessJti: Jti, refreshJti: Jti, expiresAt: int)

  datatype Tables = Tables(revoked: map<Jti, int>, cache: set<Jti>, sessions: map<string, Session>)

  /** One issued token: when, in which login lineage, and under which session row. */
  datatype Issue = Issue(token: Token, at: int, lineage: nat, session: string)

  datatype History = History(issued: map<Jti, Issue>, revokedAt: map<Jti, int>,
                             exchanges: seq<Jti>, lineages: nat)

  datatype World = World(now: int, db: Tables, hist: History)

  /** The three random UUIDs one login or rotation draws. */
  datatype Ids = Ids(access: Jti, refresh: Jti, session: string)

  /** What a token pair is issued for. */
  datatype Subject = Subject(userId: string, tenantId: int, email: string,
                             roles: seq<string>, deviceId: Option<string>)

  datatype Op =
    | Tick(ticks: nat)
    | Login(subject: Subject, ids: Ids)
    | Verify(token: Token)
    | Rotate(token: Token, email: string, roles: seq<string>, ids: Ids)
    | AbortedRotate(token: Token) // the user's row could not be read
    | RevokeOne(jti: Jti)
    | RevokeUser(userId: string, tenantId: int)
    | Cleanup
    | Restart

  function Seconds(t: int): int { t / TICKS_PER_SECOND }

  function Init(start: int): World {
    World(start, Tables(map[], {}, map[]), History(map[], map[], [], 0))
  }

  // ----- what the service computes -----

  predicate IsRevoked(db: Tables, jti: Jti) {
    jti in db.cache || jti in db.revoked
  }

  predicate Expired(now: int, t: Token) { Seconds(now) > t.exp }

  /** A signature verifies exactly for the claims the service once signed. */
  predicate Issued(h: History, t: Token) {
    t.jti in h.issued && h.issued[t.jti].token == t
  }

  /** `verify_access` (for access tokens) and `refresh` (for refresh tokens) let `t` through. */
  predicate Accepted(w: World, t: Token) {
    Issued(w.hist, t) && !Expired(w.now, t) && !IsRevoked(w.db, t.jti)
  }

  function AccessClaims(cfg: Config, now: int, s: Subject, ids: Ids): Token {
    Access(ids.access, s.userId, s.tenantId,
           Seconds(now + cfg.accessTtlMinutes * 60 * TICKS_PER_SECOND), Seconds(now), s.roles, s.email)
  }

  function RefreshClaims(cfg: Config, now: int, s: Subject, ids: Ids): Token {
    Refresh(ids.refresh, s.userId, s.tenantId,
            Seconds(now + cfg.refreshTtlDays * DAY * TICKS_PER_SECOND), Seconds(now), ids.access, s.deviceId)
  }

  function SessionRow(cfg: Config, now: int, s: Subject, ids: Ids): Session {
    Session(s.userId, s.tenantId, s.deviceId, ids.access, ids.refresh,
            now + cfg.refreshTtlDays * DAY * TICKS_PER_SECOND)
  }

  function IssuePair(cfg: Config, w: World, s: Subject, ids: Ids, lineage: nat): World {
    var a := Issue(AccessClaims(cfg, w.now, s, ids), w.now, lineage, ids.session);
    var r := Issue(RefreshClaims(cfg, w.now, s, ids), w.now, lineage, ids.session);
    w.(db := w.db.(sessions := w.db.sessions[ids.session := SessionRow(cfg, w.now, s, ids)]),
       hist := w.hist.(issued := w.hist.issued[ids.access := a][ids.refresh := r]))
  }

  /** Insert a row per identifier at `now`; a conflict keeps the old row. */
  function Stamped(m: map<Jti, int>, js: set<Jti>, now: int): map<Jti, int> {
    map j | j in js + m.Keys :: if j in m then m[j] else now
  }

  /** Insert revocation rows and fill the cache. */
  function Revoke(w: World, js: set<Jti>): World {
    w.(db := w.db.(revoked := Stamped(w.db.revoked, js, w.now), cache := w.db.cache + js),
       hist := w.hist.(revokedAt := Stamped(w.hist.revokedAt, js, w.now)))
  }

  function RowsOf(db: Tables, userId: string, tenantId: int): set<string> {
    set id | id in db.sessions && db.sessions[id].userId == userId && db.sessions[id].tenantId == tenantId
  }

  function JtisOf(db: Tables, rows: set<string>): set<Jti> {
    (set id | id in rows && id in db.sessions :: db.sessions[id].accessJti) +
    (set id | id in rows && id in db.sessions :: db.sessions[id].refreshJti)
  }

  function DropSessions(w: World, rows: set<string>): World {
    w.(db := w.db.(sessions := w.db.sessions - rows))
  }

  /** Revoke both tokens of every session row of the user, then delete the rows. */
  function UserRevoked(w: World, userId: string, tenantId: int): World {
    var rows := RowsOf(w.db, userId, tenantId);
    DropSessions(Revoke(w, JtisOf(w.db, rows)), rows)
  }

  function StaleRevocations(now: int, db: Tables): set<Jti> {
    set j | j in db.revoked && db.revoked[j] < now - RETENTION
  }

  function StaleSessions(now: int, db: Tables): set<string> {
    set id | id in db.sessions && db.sessions[id].expiresAt < now
  }

  function CleanedUp(w: World): World {
    w.(db := w.db.(revoked := w.db.revoked - StaleRevocations(w.now, w.db),
                   sessions := w.db.sessions - StaleSessions(w.now, w.db)))
  }

  function RotatedSubject(t: Token, email: string, roles: seq<string>): Subject
    requires t.Refresh?
  {
    Subject(t.sub, t.tenantId, email, roles, t.deviceId)
  }

  /** The first half of a rotation: both tokens of the pair are revoked. */
  function PairRevoked(w: World, t: Token): World
    requires t.Refresh?
  {
    Revoke(Revoke(w, {t.jti}), {t.accessJti})
  }

  function Rotated(cfg: Config, w: World, t: Token, email: string, roles: seq<string>, ids: Ids): World
    requires t.Refresh? && Accepted(w, t)
  {
    var w1 := PairRevoked(w, t);
    var w2 := IssuePair(cfg, w1, RotatedSubject(t, email, roles), ids, w.hist.issued[t.jti].lineage);
    w2.(hist := w2.hist.(exchanges := w2.hist.exchanges + [t.jti]))
  }

  function Step(cfg: Config, w: World, op: Op): World {
    match op
    case Tick(d) => w.(now := w.now + d)
    case Login(s, ids) =>
      var w1 := IssuePair(cfg, w, s, ids, w.hist.lineages);
      w1.(hist := w1.hist.(lineages := w1.hist.lineages + 1))
    case Verify(_) => w
    case Rotate(t, email, roles, ids) =>
      if t.Refresh? && Accepted(w, t) then Rotated(cfg, w, t, email, roles, ids) else w
    case AbortedRotate(t) => if t.Refresh? && Accepted(w, t) then PairRevoked(w, t) else w
    case RevokeOne(jti) => Revoke(w, {jti})
    case RevokeUser(u, n) => UserRevoked(w, u, n)
    case Cleanup => CleanedUp(w)
    case Restart => w.(db := w.db.(cache := {}))
  }

  /** Version-4 UUIDs never collide with an identifier that was seen before. */
  predicate Unused(w: World, ids: Ids) {
    && ids.access != ids.refresh
    && ids.access !in w.hist.issued && ids.refresh !in w.hist.issued
    && ids.access !in w.hist.revokedAt && ids.refresh !in w.hist.revokedAt
    && ids.session !in w.db.sessions
  }

  predicate Enabled(w: World, op: Op) {
    match op
    case Login(_, ids) => Unused(w, ids)
    case Rotate(_, _, _, ids) => Unused(w, ids)
    case _ => true
  }

  // ----- runs -----

  predicate ValidRun(cfg: Config, w: World, ops: seq<Op>)
    decreases |ops|
  {
    ops == [] || (Enabled(w, ops[0]) && ValidRun(cfg, Step(cfg, w, ops[0]), ops[1..]))
  }

  function Run(cfg: Config, w: World, ops: seq<Op>): World
    decreases |ops|
  {
    if ops == [] then w else Run(cfg, Step(cfg, w, ops[0]), ops[1..])
  }

  // ----- the invariant -----

  predicate IssueOk(cfg: Config, w: World, j: Jti)
    requires j in w.hist.issued
  {
    var i := w.hist.issued[j];
    && i.token.jti == j
    && i.at <= w.now
    && i.token.exp == Seconds(i.at) + cfg.Life(i.token)
    && i.lineage < w.hist.lineages
    && (i.token.Refresh? ==> i.token.accessJti in w.hist.issued)
    && (j in w.hist.revokedAt ==> i.at <= w.hist.revokedAt[j])
  }

  /** A dropped revocation row is older than the retention period. */
  predicate RevocationOk(w: World, j: Jti)
    requires j in w.hist.revokedAt
  {
    && w.hist.revokedAt[j] <= w.now
    && (j in w.db.revoked || w.hist.revokedAt[j] < w.now - RETENTION)
  }

  predicate TablesOk(w: World) {
    && w.db.cache <= w.hist.revokedAt.Keys
    && forall j :: j in w.db.revoked ==>
         j in w.hist.revokedAt && w.hist.revokedAt[j] <= w.db.revoked[j]
  }

  /** A token that is neither revoked nor past its session's exact expiry has its session row. */
  predicate Covered(cfg: Config, w: World, j: Jti)
    requires j in w.hist.issued
  {
    var i := w.hist.issued[j];
    var expiry := i.at + cfg.RefreshLife() * TICKS_PER_SECOND;
    j !in w.hist.revokedAt && w.now <= expiry ==>
      && i.session in w.db.sessions
      && var row := w.db.sessions[i.session];
         && row.userId == i.token.sub && row.tenantId == i.token.tenantId
         && row.expiresAt == expiry
         && (row.accessJti == j || row.refreshJti == j)
  }

  /** A session row names two tokens of its own user. */
  predicate SessionOk(w: World, id: string)
    requires id in w.db.sessions
  {
    var row := w.db.sessions[id];
    && row.accessJti in w.hist.issued && row.refreshJti in w.hist.issued
    && var a, r := w.hist.issued[row.accessJti].token, w.hist.issued[row.refreshJti].token;
       && a.sub == r.sub == row.userId && a.tenantId == r.tenantId == row.tenantId
  }

  ghost predicate SessionsOk(w: World) {
    forall id :: id in w.db.sessions ==> SessionOk(w, id)
  }

  predicate LiveRefresh(h: History, j: Jti, lineage: nat) {
    j in h.issued && h.issued[j].token.Refresh? && h.issued[j].lineage == lineage && j !in h.revokedAt
  }

  ghost predicate LineageOk(h: History) {
    && (forall i, k, n :: LiveRefresh(h, i, n) && LiveRefresh(h, k, n) ==> i == k)
    && (forall j :: j in h.exchanges ==> j in h.revokedAt)
    && (forall i, k :: 0 <= i < k < |h.exchanges| ==> h.exchanges[i] != h.exchanges[k])
  }

  ghost predicate Inv(cfg: Config, w: World) {
    && (forall j :: j in w.hist.issued ==> IssueOk(cfg, w, j))
    && (forall j :: j in w.hist.revokedAt ==> RevocationOk(w, j))
    && TablesOk(w)
    && (forall j :: j in w.hist.issued ==> Covered(cfg, w, j))
    && SessionsOk(w)
    && (cfg.RefreshLife() < RETENTION_SECONDS ==> LineageOk(w.hist))
  }

  lemma SessionsStayOk(w: World, w': World)
    requires SessionsOk(w) && w'.hist.issued == w.hist.issued
    requires forall id :: id in w'.db.sessions ==> id in w.db.sessions && w'.db.sessions[id] == w.db.sessions[id]
    ensures SessionsOk(w')
  {
    forall id | id in w'.db.sessions ensures SessionOk(w', id) {
      assert SessionOk(w, id);
    }
  }

  lemma SessionsIssued(cfg: Config, w: World, s: Subject, ids: Ids, lineage: nat)
    requires SessionsOk(w) && Unused(w, ids)
    ensures SessionsOk(IssuePair(cfg, w, s, ids, lineage))
  {
    var w' := IssuePair(cfg, w, s, ids, lineage);
    forall id | id in w'.db.sessions ensures SessionOk(w', id) {
      if id != ids.session { assert SessionOk(w, id); }
    }
  }

  lemma InvInit(cfg: Config, start: int)
    ensures Inv(cfg, Init(start))
  {
  }

  lemma LineageIssued(cfg: Config, w: World, s: Subject, ids: Ids, lineage: nat)
    requires LineageOk(w.hist) && Unused(w, ids) && forall j :: !LiveRefresh(w.hist, j, lineage)
    ensures LineageOk(IssuePair(cfg, w, s, ids, lineage).hist)
  {
    var h' := IssuePair(cfg, w, s, ids, lineage).hist;
    forall i, k, n | LiveRefresh(h', i, n) && LiveRefresh(h', k, n) ensures i == k {
      assert i != ids.refresh ==> LiveRefresh(w.hist, i, n);
      assert k != ids.refresh ==> LiveRefresh(w.hist, k, n);
    }
  }

  lemma InvIssuePair(cfg: Config, w: World, s: Subject, ids: Ids, lineage: nat)
    requires Inv(cfg, w) && Unused(w, ids) && lineage < w.hist.lineages
    requires cfg.RefreshLife() < RETENTION_SECONDS ==> forall j :: !LiveRefresh(w.hist, j, lineage)
    ensures Inv(cfg, IssuePair(cfg, w, s, ids, lineage))
  {
    hide SessionsOk, LineageOk;
    SessionsIssued(cfg, w, s, ids, lineage);
    var w' := IssuePair(cfg, w, s, ids, lineage);
    forall j | j in w'.hist.issued
      ensures IssueOk(cfg, w', j) && Covered(cfg, w', j)
    {
      if j in w.hist.issued {
        assert IssueOk(cfg, w, j) && Covered(cfg, w, j);
        assert w'.hist.issued[j] == w.hist.issued[j];
      }
    }
    forall j | j in w'.hist.revokedAt ensures RevocationOk(w', j) {
      assert RevocationOk(w, j);
    }
    if cfg.RefreshLife() < RETENTION_SECONDS {
      LineageIssued(cfg, w, s, ids, lineage);
    }
  }

  lemma InvRevoke(cfg: Config, w: World, js: set<Jti>)
    requires Inv(cfg, w)
    ensures Inv(cfg, Revoke(w, js))
  {
    hide SessionsOk;
    SessionsStayOk(w, Revoke(w, js));
    var w' := Revoke(w, js);
    forall j | j in w'.hist.issued
      ensures IssueOk(cfg, w', j) && Covered(cfg, w', j)
    {
      assert IssueOk(cfg, w, j) && Covered(cfg, w, j);
    }
    forall j | j in w'.hist.revokedAt ensures RevocationOk(w', j) {
      if j in w.hist.revokedAt {
        assert RevocationOk(w, j);
      }
    }
    if cfg.RefreshLife() < RETENTION_SECONDS {
      forall i, k, n | LiveRefresh(w'.hist, i, n) && LiveRefresh(w'.hist, k, n)
        ensures i == k
      {
        assert LiveRefresh(w.hist, i, n) && LiveRefresh(w.hist, k, n);
      }
    }
  }

  /** Dropping the user's rows is harmless because their tokens have just been revoked. */
  lemma InvRevokeUser(cfg: Config, w: World, u: string, n: int)
    requires Inv(cfg, w)
    ensures Inv(cfg, Step(cfg, w, RevokeUser(u, n)))
  {
    hide SessionsOk, LineageOk;
    var rows := RowsOf(w.db, u, n);
    var w1 := Revoke(w, JtisOf(w.db, rows));
    InvRevoke(cfg, w, JtisOf(w.db, rows));
    var w' := DropSessions(w1, rows);
    SessionsStayOk(w1, w');
    forall j | j in w'.hist.issued
      ensures IssueOk(cfg, w', j) && Covered(cfg, w', j)
    {
      assert IssueOk(cfg, w1, j) && Covered(cfg, w1, j);
      var id := w.hist.issued[j].session;
      if id in rows {
        assert w.db.sessions[id].accessJti in JtisOf(w.db, rows);
        assert w.db.sessions[id].refreshJti in JtisOf(w.db, rows);
      }
    }
    forall j | j in w'.hist.revokedAt ensures RevocationOk(w', j) {
      assert RevocationOk(w1, j);
    }
  }

  lemma InvCleanup(cfg: Config, w: World)
    requires Inv(cfg, w)
    ensures Inv(cfg, CleanedUp(w))
  {
    hide SessionsOk;
    SessionsStayOk(w, CleanedUp(w));
    var w' := CleanedUp(w);
    forall j | j in w'.hist.issued
      ensures IssueOk(cfg, w', j) && Covered(cfg, w', j)
    {
      assert IssueOk(cfg, w, j) && Covered(cfg, w, j);
    }
    forall j | j in w'.hist.revokedAt ensures RevocationOk(w', j) {
      assert RevocationOk(w, j);
    }
  }

  /** The clock and a restart change nothing the invariant could lose. */
  lemma InvTickRestart(cfg: Config, w: World, d: nat, cache: set<Jti>)
    requires Inv(cfg, w) && cache <= w.db.cache
    ensures Inv(cfg, w.(now := w.now + d, db := w.db.(cache := cache)))
  {
    hide SessionsOk;
    SessionsStayOk(w, w.(now := w.now + d, db := w.db.(cache := cache)));
    var w' := w.(now := w.now + d, db := w.db.(cache := cache));
    forall j | j in w'.hist.issued
      ensures IssueOk(cfg, w', j) && Covered(cfg, w', j)
    {
      assert IssueOk(cfg, w, j) && Covered(cfg, w, j);
    }
    forall j | j in w'.hist.revokedAt ensures RevocationOk(w', j) {
      assert RevocationOk(w, j);
    }
  }

  /** The heart of the matter: a dropped revocation belongs to an expired token. */
  lemma RevokedIsRejected(cfg: Config, w: World, t: Token)
    requires Inv(cfg, w) && t.jti in w.hist.revokedAt
    requires cfg.Life(t) < RETENTION_SECONDS
    ensures !Accepted(w, t)
  {
  }

  lemma InvRotate(cfg: Config, w: World, t: Token, email: string, roles: seq<string>, ids: Ids)
    requires Inv(cfg, w) && t.Refresh? && Accepted(w, t) && Unused(w, ids)
    ensures Inv(cfg, Rotated(cfg, w, t, email, roles, ids))
  {
    hide SessionsOk, Covered, RevocationOk, TablesOk;
    var lineage := w.hist.issued[t.jti].lineage;
    var w1 := Revoke(w, {t.jti});
    var w2 := Revoke(w1, {t.accessJti});
    InvRevoke(cfg, w, {t.jti});
    InvRevoke(cfg, w1, {t.accessJti});
    assert IssueOk(cfg, w, t.jti);
    if cfg.RefreshLife() < RETENTION_SECONDS {
      if t.jti in w.hist.revokedAt {
        RevokedIsRejected(cfg, w, t);
      }
      assert LiveRefresh(w.hist, t.jti, lineage);
      forall j ensures !LiveRefresh(w2.hist, j, lineage) {
        assert LiveRefresh(w2.hist, j, lineage) ==> LiveRefresh(w.hist, j, lineage);
      }
    }
    var s := RotatedSubject(t, email, roles);
    InvIssuePair(cfg, w2, s, ids, lineage);
    InvExchange(cfg, IssuePair(cfg, w2, s, ids, lineage), t.jti);
  }

  lemma InvExchange(cfg: Config, w: World, j: Jti)
    requires Inv(cfg, w) && j in w.hist.revokedAt
    requires cfg.RefreshLife() < RETENTION_SECONDS ==> j !in w.hist.exchanges
    ensures Inv(cfg, w.(hist := w.hist.(exchanges := w.hist.exchanges + [j])))
  {
    hide SessionsOk;
    SessionsStayOk(w, w.(hist := w.hist.(exchanges := w.hist.exchanges + [j])));
    var w' := w.(hist := w.hist.(exchanges := w.hist.exchanges + [j]));
    forall k | k in w'.hist.issued
      ensures IssueOk(cfg, w', k) && Covered(cfg, w', k)
    {
      assert IssueOk(cfg, w, k) && Covered(cfg, w, k);
    }
    forall k | k in w'.hist.revokedAt ensures RevocationOk(w', k) {
      assert RevocationOk(w, k);
    }
    if cfg.RefreshLife() < RETENTION_SECONDS {
      forall i, k, n | LiveRefresh(w'.hist, i, n) && LiveRefresh(w'.hist, k, n)
        ensures i == k
      {
        assert LiveRefresh(w.hist, i, n) && LiveRefresh(w.hist, k, n);
      }
    }
  }

  lemma InvLogin(cfg: Config, w: World, s: Subject, ids: Ids)
    requires Inv(cfg, w) && Unused(w, ids)
    ensures Inv(cfg, Step(cfg, w, Login(s, ids)))
  {
    hide SessionsOk;
    SessionsStayOk(w, w.(hist := w.hist.(lineages := w.hist.lineages + 1)));
    var w0 := w.(hist := w.hist.(lineages := w.hist.lineages + 1));
    forall j | j in w0.hist.issued
      ensures IssueOk(cfg, w0, j) && Covered(cfg, w0, j)
    {
      assert IssueOk(cfg, w, j) && Covered(cfg, w, j);
    }
    forall j | j in w0.hist.revokedAt ensures RevocationOk(w0, j) {
      assert RevocationOk(w, j);
    }
    forall j, n ensures LiveRefresh(w0.hist, j, n) == LiveRefresh(w.hist, j, n) {
    }
    forall j ensures !LiveRefresh(w0.hist, j, w.hist.lineages) {
      if j in w.hist.issued { assert IssueOk(cfg, w, j); }
    }
    InvIssuePair(cfg, w0, s, ids, w.hist.lineages);
    assert Step(cfg, w, Login(s, ids)) == IssuePair(cfg, w0, s, ids, w.hist.lineages);
  }

  /** Every operation, accepted or refused, keeps the invariant. */
  lemma InvStep(cfg: Config, w: World, op: Op)
    requires Inv(cfg, w) && Enabled(w, op)
    ensures Inv(cfg, Step(cfg, w, op))
  {
    hide SessionsOk;
    match op
    case Tick(d) => InvTickRestart(cfg, w, d, w.db.cache);
    case Login(s, ids) => InvLogin(cfg, w, s, ids);
    case Verify(_) =>
    case Rotate(t, email, roles, ids) =>
      if t.Refresh? && Accepted(w, t) { InvRotate(cfg, w, t, email, roles, ids); }
    case AbortedRotate(t) =>
      if t.Refresh? && Accepted(w, t) {
        InvRevoke(cfg, w, {t.jti});
        InvRevoke(cfg, Revoke(w, {t.jti}), {t.accessJti});
      }
    case RevokeOne(jti) => InvRevoke(cfg, w, {jti});
    case RevokeUser(u, n) => InvRevokeUser(cfg, w, u, n);
    case Cleanup => InvCleanup(cfg, w);
    case Restart => InvTickRestart(cfg, w, 0, {});
  }

  lemma {:induction false} InvRun(cfg: Config, w: World, ops: seq<Op>)
    requires Inv(cfg, w) && ValidRun(cfg, w, ops)
    ensures Inv(cfg, Run(cfg, w, ops))
    decreases |ops|
  {
    if ops != [] {
      InvStep(cfg, w, ops[0]);
      InvRun(cfg, Step(cfg, w, ops[0]), ops[1..]);
    }
  }

  // ----- what a run can only add to -----

  predicate Extends(h: History, h': History) {
    && h.issued.Keys <= h'.issued.Keys
    && (forall j :: j in h.issued ==> h'.issued[j] == h.issued[j])
    && h.revokedAt.Keys <= h'.revokedAt.Keys
    && (forall j :: j in h.revokedAt ==> h'.revokedAt[j] == h.revokedAt[j])
    && h.exchanges <= h'.exchanges
  }

  lemma StepExtends(cfg: Config, w: World, op: Op)
    requires Enabled(w, op)
    ensures Extends(w.hist, Step(cfg, w, op).hist)
    ensures w.now <= Step(cfg, w, op).now
  {
    hide Seconds;
  }

  lemma {:induction false} RunExtends(cfg: Config, w: World, ops: seq<Op>)
    requires ValidRun(cfg, w, ops)
    ensures Extends(w.hist, Run(cfg, w, ops).hist)
    ensures w.now <= Run(cfg, w, ops).now
    decreases |ops|
  {
    if ops != [] {
      hide Step, Enabled;
      StepExtends(cfg, w, ops[0]);
      RunExtends(cfg, Step(cfg, w, ops[0]), ops[1..]);
    }
  }
}
