/** The session service itself: its methods update the tables and the cache in place. */
module JwtService {
  import opened Wrappers
  import opened JwtSessions

  datatype AuthError = InvalidToken | TokenExpired | TokenRevoked | UserUnreadable

  datatype TokenPair = TokenPair(accessToken: Token, refreshToken: Token,
                                 accessExpiresIn: int, refreshExpiresIn: int)

  lemma StampedTwice(m: map<Jti, int>, js: set<Jti>, ks: set<Jti>, now: int)
    ensures Stamped(Stamped(m, js, now), ks, now) == Stamped(m, js + ks, now)
  {
  }

  /** Revoking a batch and then another is revoking their union. */
  lemma RevokeTwice(w: World, js: set<Jti>, ks: set<Jti>)
    ensures Revoke(Revoke(w, js), ks) == Revoke(w, js + ks)
  {
    StampedTwice(w.db.revoked, js, ks, w.now);
    StampedTwice(w.hist.revokedAt, js, ks, w.now);
    assert w.db.cache + js + ks == w.db.cache + (js + ks);
  }

  lemma RevokeNothing(w: World)
    ensures Revoke(w, {}) == w
  {
    assert Stamped(w.db.revoked, {}, w.now) == w.db.revoked;
    assert Stamped(w.hist.revokedAt, {}, w.now) == w.hist.revokedAt;
    assert w.db.cache + {} == w.db.cache;
  }

  lemma JtisOfNone(db: Tables, rows: set<string>)
    ensures JtisOf(db, rows - rows) == {}
  {
  }

  /** Revoking one more session row. */
  lemma NextRow(w: World, rows: set<string>, todo: set<string>, id: string)
    requires id in todo && todo <= rows && id in w.db.sessions
    ensures var row := w.db.sessions[id];
      Revoke(Revoke(w, JtisOf(w.db, rows - todo)), {row.accessJti, row.refreshJti})
      == Revoke(w, JtisOf(w.db, rows - (todo - {id})))
  {
    var row := w.db.sessions[id];
    RevokeTwice(w, JtisOf(w.db, rows - todo), {row.accessJti, row.refreshJti});
    assert JtisOf(w.db, rows - (todo - {id})) == JtisOf(w.db, rows - todo) + {row.accessJti, row.refreshJti};
  }

  class JwtSessionService {
    const cfg: Config
    var revokedTable: map<Jti, int>
    var revokedCache: set<Jti>
    var sessions: map<string, Session>
    ghost var hist: History

    constructor (cfg: Config)
      ensures this.cfg == cfg
      ensures forall now :: World(now) == Init(now)
    {
      this.cfg := cfg;
      revokedTable, revokedCache, sessions := map[], {}, map[];
      hist := History(map[], map[], [], 0);
    }

    function Db(): Tables
      reads this
    {
      Tables(revokedTable, revokedCache, sessions)
    }

    /** The abstract state, seen at the instant a method reads the clock. */
    ghost function World(now: int): World
      reads this
    {
      JwtSessions.World(now, Db(), hist)
    }

    method CreateTokens(now: int, s: Subject, ids: Ids, ghost lineage: nat) returns (pair: TokenPair)
      modifies this
      ensures World(now) == IssuePair(cfg, old(World(now)), s, ids, lineage)
      ensures pair == TokenPair(AccessClaims(cfg, now, s, ids), RefreshClaims(cfg, now, s, ids),
                                cfg.AccessLife(), cfg.RefreshLife())
    {
      var accessClaims := AccessClaims(cfg, now, s, ids);
      var refreshClaims := RefreshClaims(cfg, now, s, ids);
      sessions := sessions[ids.session := SessionRow(cfg, now, s, ids)];
      hist := hist.(issued := hist.issued[ids.access := Issue(accessClaims, now, lineage, ids.session)]
                                         [ids.refresh := Issue(refreshClaims, now, lineage, ids.session)]);
      pair := TokenPair(accessClaims, refreshClaims, cfg.accessTtlMinutes * 60, cfg.refreshTtlDays * 86400);
    }

    /** A login opens a new lineage. */
    method Login(now: int, s: Subject, ids: Ids) returns (pair: TokenPair)
      modifies this
      ensures World(now) == Step(cfg, old(World(now)), Op.Login(s, ids))
      ensures pair.accessToken == AccessClaims(cfg, now, s, ids)
      ensures pair.refreshToken == RefreshClaims(cfg, now, s, ids)
    {
      pair := CreateTokens(now, s, ids, hist.lineages);
      hist := hist.(lineages := hist.lineages + 1);
    }

    method IsTokenRevoked(jti: Jti) returns (r: bool)
      ensures r == IsRevoked(Db(), jti)
    {
      if jti in revokedCache {
        return true;
      }
      return jti in revokedTable;
    }

    /** `decoded` is the outcome of the signature check: only issued claims decode. */
    method VerifyAccess(now: int, decoded: Option<Token>) returns (r: Result<Token, AuthError>)
      requires decoded.Some? ==> Issued(hist, decoded.value)
      ensures r.Ok? <==> decoded.Some? && decoded.value.Access? && Accepted(World(now), decoded.value)
      ensures r.Ok? ==> decoded == Some(r.value)
      ensures r == Err(InvalidToken) <==> decoded.None? || !decoded.value.Access?
      ensures r == Err(TokenExpired) <==> decoded.Some? && decoded.value.Access? && Expired(now, decoded.value)
    {
      if decoded.None? || !decoded.value.Access? {
        return Err(InvalidToken);
      }
      if now / TICKS_PER_SECOND > decoded.value.exp {
        return Err(TokenExpired);
      }
      var revoked := IsTokenRevoked(decoded.value.jti);
      if revoked {
        return Err(TokenRevoked);
      }
      return Ok(decoded.value);
    }

    method RevokeToken(now: int, jti: Jti)
      modifies this
      ensures World(now) == Revoke(old(World(now)), {jti})
    {
      if jti !in revokedTable {
        revokedTable := revokedTable[jti := now];
      }
      revokedCache := revokedCache + {jti};
      if jti !in hist.revokedAt {
        hist := hist.(revokedAt := hist.revokedAt[jti := now]);
      }
      assert revokedTable == Stamped(old(revokedTable), {jti}, now);
      assert hist.revokedAt == Stamped(old(hist).revokedAt, {jti}, now);
    }

    /**
      `user` is what the query of the user table gives after both tokens have been revoked: e-mail
      and roles, or nothing if it fails.
     */
    method RefreshTokens(now: int, decoded: Option<Token>, user: Option<(string, seq<string>)>, ids: Ids)
      returns (r: Result<TokenPair, AuthError>)
      requires decoded.Some? ==> Issued(hist, decoded.value)
      modifies this
      ensures var accepted := decoded.Some? && decoded.value.Refresh? && Accepted(old(World(now)), decoded.value);
        (r.Ok? <==> accepted && user.Some?) && (r == Err(UserUnreadable) <==> accepted && user.None?)
      ensures World(now) ==
        if decoded.None? then old(World(now))
        else if user.None? then Step(cfg, old(World(now)), AbortedRotate(decoded.value))
        else Step(cfg, old(World(now)), Rotate(decoded.value, user.value.0, user.value.1, ids))
      ensures r.Ok? ==> var s := RotatedSubject(decoded.value, user.value.0, user.value.1);
        && r.value.accessToken == AccessClaims(cfg, now, s, ids)
        && r.value.refreshToken == RefreshClaims(cfg, now, s, ids)
    {
      if decoded.None? || !decoded.value.Refresh? {
        return Err(InvalidToken);
      }
      var claims := decoded.value;
      if now / TICKS_PER_SECOND > claims.exp {
        return Err(TokenExpired);
      }
      var revoked := IsTokenRevoked(claims.jti);
      if revoked {
        return Err(TokenRevoked);
      }
      ghost var lineage := hist.issued[claims.jti].lineage;
      RevokeToken(now, claims.jti);
      RevokeToken(now, claims.accessJti);
      if user.None? {
        return Err(UserUnreadable);
      }
      var pair := CreateTokens(now, RotatedSubject(claims, user.value.0, user.value.1), ids, lineage);
      hist := hist.(exchanges := hist.exchanges + [claims.jti]);
      return Ok(pair);
    }

    method RevokeRow(now: int, row: Session)
      modifies this
      ensures World(now) == Revoke(old(World(now)), {row.accessJti, row.refreshJti})
    {
      RevokeToken(now, row.accessJti);
      RevokeToken(now, row.refreshJti);
      RevokeTwice(old(World(now)), {row.accessJti}, {row.refreshJti});
      assert {row.accessJti} + {row.refreshJti} == {row.accessJti, row.refreshJti};
    }

    /** Walks the rows in any order, counting two revocations a row. */
    method RevokeRows(now: int, rows: set<string>) returns (count: nat)
      requires rows <= sessions.Keys
      modifies this
      ensures World(now) == Revoke(old(World(now)), JtisOf(old(Db()), rows))
      ensures count == 2 * |rows|
    {
      ghost var w := World(now);
      var todo := rows;
      count := 0;
      RevokeNothing(w);
      JtisOfNone(w.db, rows);
      while todo != {}
        invariant todo <= rows
        invariant World(now) == Revoke(w, JtisOf(w.db, rows - todo))
        invariant count == 2 * (|rows| - |todo|)
        decreases |todo|
      {
        var id :| id in todo;
        RevokeRow(now, sessions[id]);
        count := count + 2;
        NextRow(w, rows, todo, id);
        todo := todo - {id};
      }
      assert rows - todo == rows;
    }

    method RevokeAllForUser(now: int, userId: string, tenantId: int) returns (count: nat)
      modifies this
      ensures World(now) == UserRevoked(old(World(now)), userId, tenantId)
      ensures count == 2 * |RowsOf(old(Db()), userId, tenantId)|
    {
      var rows := RowsOf(Db(), userId, tenantId);
      count := RevokeRows(now, rows);
      sessions := sessions - rows;
    }

    method CleanupExpired(now: int) returns (removed: nat)
      modifies this
      ensures World(now) == Step(cfg, old(World(now)), Cleanup)
      ensures removed == |StaleRevocations(now, old(Db()))| + |StaleSessions(now, old(Db()))|
    {
      var stale := StaleRevocations(now, Db());
      var gone := StaleSessions(now, Db());
      revokedTable := revokedTable - stale;
      sessions := sessions - gone;
      removed := |stale| + |gone|;
    }

    /** A new process starts with an empty cache and the same tables. */
    method RestartProcess(ghost now: int)
      modifies this
      ensures World(now) == Step(cfg, old(World(now)), Restart)
    {
      revokedCache := {};
    }
  }
}
