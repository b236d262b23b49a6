/** Roles with inheritance: depth-bounded permission collection, and the access decision on decoded rows. */
module Rbac {
  import opened RbacCells

  datatype Role = Role(id: string, tenantId: int, name: string, permissions: seq<Permission>,
                       inheritsFrom: seq<string>, isSystem: bool)

  type Roles = map<string, Role>

  /** An assignment as decoded: the role ids one row lists. */
  datatype Assignment = Assignment(userId: string, tenantId: int, roleIds: seq<string>)

  /** The recursion stops below this many inheritance edges. */
  const MAX_DEPTH: nat := 5

  function Own(role: Role): set<Permission> { set p | p in role.permissions }

  // ----- the recursion, as a function -----

  /** Permissions found from `role` when `edges` more inheritance edges may be followed. */
  function Gathered(cache: Roles, role: Role, edges: nat): set<Permission>
    decreases edges, 0
  {
    Own(role) + if edges == 0 then {} else GatheredFrom(cache, role.inheritsFrom, edges - 1)
  }

  function GatheredFrom(cache: Roles, ids: seq<string>, edges: nat): set<Permission>
    decreases edges, |ids|
  {
    if ids == [] then {}
    else
      var id := ids[|ids| - 1];
      GatheredFrom(cache, ids[..|ids| - 1], edges)
      + if id in cache then Gathered(cache, cache[id], edges) else {}
  }

  // ----- what it is to compute: inheritance as a graph -----

  predicate Inherits(cache: Roles, child: Role, parent: Role) {
    exists i :: 0 <= i < |child.inheritsFrom| && child.inheritsFrom[i] in cache
      && cache[child.inheritsFrom[i]] == parent
  }

  /** The roles at most `edges` inheritance edges away, breadth first. */
  ghost function Within(cache: Roles, role: Role, edges: nat): set<Role> {
    if edges == 0 then {role}
    else
      var near := Within(cache, role, edges - 1);
      near + set parent | parent in cache.Values && exists child :: child in near && Inherits(cache, child, parent)
  }

  lemma {:induction false} WithinGrows(cache: Roles, role: Role, m: nat, n: nat)
    requires m <= n
    ensures Within(cache, role, m) <= Within(cache, role, n)
    ensures role in Within(cache, role, n)
    decreases n
  {
    if m < n {
      WithinGrows(cache, role, m, n - 1);
    } else if n > 0 {
      WithinGrows(cache, role, n - 1, n - 1);
    }
  }

  lemma ParentIsCached(cache: Roles, child: Role, parent: Role)
    requires Inherits(cache, child, parent)
    ensures parent in cache.Values
  {
    var i :| 0 <= i < |child.inheritsFrom| && child.inheritsFrom[i] in cache
      && cache[child.inheritsFrom[i]] == parent;
  }

  /** Taking the first edge first: what a parent reaches, the child reaches with one edge more. */
  lemma {:induction false} WithinParent(cache: Roles, role: Role, parent: Role, edges: nat)
    requires Inherits(cache, role, parent)
    ensures Within(cache, parent, edges) <= Within(cache, role, edges + 1)
    decreases edges
  {
    ParentIsCached(cache, role, parent);
    if edges == 0 {
      assert role in Within(cache, role, 0);
    } else {
      WithinParent(cache, role, parent, edges - 1);
      assert Within(cache, parent, edges - 1) <= Within(cache, role, edges);
    }
  }

  /** `far` is the role itself or is reached from one of its parents with the given edges. */
  ghost predicate ViaParent(cache: Roles, role: Role, edges: nat, far: Role) {
    far == role || exists parent :: Inherits(cache, role, parent) && far in Within(cache, parent, edges)
  }

  lemma WithinSplits(cache: Roles, role: Role, edges: nat, far: Role)
    requires edges > 0 && far in Within(cache, role, edges)
    ensures far in Within(cache, role, edges - 1)
      || exists child :: child in Within(cache, role, edges - 1) && Inherits(cache, child, far)
  {
  }

  lemma WithinNext(cache: Roles, role: Role, edges: nat, child: Role, far: Role)
    requires child in Within(cache, role, edges) && Inherits(cache, child, far)
    ensures far in Within(cache, role, edges + 1)
  {
    ParentIsCached(cache, child, far);
  }

  lemma ViaParentGrows(cache: Roles, role: Role, edges: nat, far: Role)
    requires ViaParent(cache, role, edges, far)
    ensures ViaParent(cache, role, edges + 1, far)
  {
    hide Within;
    if far != role {
      var parent :| Inherits(cache, role, parent) && far in Within(cache, parent, edges);
      WithinGrows(cache, parent, edges, edges + 1);
    }
  }

  /** And conversely, whatever is reached beyond the role itself is reached through a parent. */
  lemma {:induction false} WithinUnfolds(cache: Roles, role: Role, edges: nat, far: Role)
    requires far in Within(cache, role, edges + 1)
    ensures ViaParent(cache, role, edges, far)
    decreases edges
  {
    hide Within;
    WithinSplits(cache, role, edges + 1, far);
    if edges == 0 {
      WithinItself(cache, role);
      WithinItself(cache, far);
    } else if far in Within(cache, role, edges) {
      WithinUnfolds(cache, role, edges - 1, far);
      ViaParentGrows(cache, role, edges - 1, far);
    } else {
      var child :| child in Within(cache, role, edges) && Inherits(cache, child, far);
      WithinUnfolds(cache, role, edges - 1, child);
      if child == role {
        WithinGrows(cache, far, 0, edges);
      } else {
        var parent :| Inherits(cache, role, parent) && child in Within(cache, parent, edges - 1);
        WithinNext(cache, parent, edges - 1, child, far);
      }
    }
  }

  lemma WithinItself(cache: Roles, role: Role)
    ensures Within(cache, role, 0) == {role}
  {
  }

  /** Some role within the given edges has the permission. */
  ghost predicate FoundWithin(cache: Roles, role: Role, edges: nat, p: Permission) {
    exists r :: r in Within(cache, role, edges) && p in r.permissions
  }

  /** Some cached parent in the list finds it. */
  ghost predicate FoundFrom(cache: Roles, ids: seq<string>, edges: nat, p: Permission) {
    exists i :: 0 <= i < |ids| && ids[i] in cache && FoundWithin(cache, cache[ids[i]], edges, p)
  }

  /** A permission is the role's own or found through a parent with one edge less. */
  lemma FoundUnfolds(cache: Roles, role: Role, edges: nat, p: Permission)
    requires edges > 0
    ensures FoundWithin(cache, role, edges, p) <==>
      p in role.permissions || FoundFrom(cache, role.inheritsFrom, edges - 1, p)
  {
    hide Within;
    WithinGrows(cache, role, 0, edges);
    if FoundFrom(cache, role.inheritsFrom, edges - 1, p) {
      var i :| 0 <= i < |role.inheritsFrom| && role.inheritsFrom[i] in cache
        && FoundWithin(cache, cache[role.inheritsFrom[i]], edges - 1, p);
      assert Inherits(cache, role, cache[role.inheritsFrom[i]]);
      WithinParent(cache, role, cache[role.inheritsFrom[i]], edges - 1);
    }
    if FoundWithin(cache, role, edges, p) && p !in role.permissions {
      var r :| r in Within(cache, role, edges) && p in r.permissions;
      WithinUnfolds(cache, role, edges - 1, r);
      var parent :| Inherits(cache, role, parent) && r in Within(cache, parent, edges - 1);
      var i :| 0 <= i < |role.inheritsFrom| && role.inheritsFrom[i] in cache
        && cache[role.inheritsFrom[i]] == parent;
      assert FoundWithin(cache, cache[role.inheritsFrom[i]], edges - 1, p);
    }
  }

  /** The recursion finds exactly the permissions of the roles within that many edges. */
  lemma {:induction false} GatheredMeans(cache: Roles, role: Role, edges: nat, p: Permission)
    ensures p in Gathered(cache, role, edges) <==> FoundWithin(cache, role, edges, p)
    decreases edges, 0
  {
    if edges > 0 {
      hide FoundWithin, FoundFrom, GatheredFrom;
      GatheredFromMeans(cache, role.inheritsFrom, edges - 1, p);
      FoundUnfolds(cache, role, edges, p);
    }
  }

  lemma {:induction false} GatheredFromMeans(cache: Roles, ids: seq<string>, edges: nat, p: Permission)
    ensures p in GatheredFrom(cache, ids, edges) <==> FoundFrom(cache, ids, edges, p)
    decreases edges, |ids| + 1
  {
    if ids != [] {
      hide FoundWithin;
      var k := |ids| - 1;
      GatheredFromMeans(cache, ids[..k], edges, p);
      if ids[k] in cache { GatheredMeans(cache, cache[ids[k]], edges, p); }
      assert forall i :: 0 <= i < k ==> ids[..k][i] == ids[i];
    }
  }

  // ----- five edges are enough for six roles -----

  lemma {:induction false} WithinStops(cache: Roles, role: Role, m: nat, n: nat)
    requires Within(cache, role, m + 1) == Within(cache, role, m) && m <= n
    ensures Within(cache, role, n) == Within(cache, role, m)
    decreases n
  {
    if m < n { WithinStops(cache, role, m, n - 1); }
  }

  lemma StrictSubsetIsSmaller(near: set<Role>, far: set<Role>)
    requires near <= far
    ensures near == far || |near| < |far|
  {
    assert far == near + (far - near);
  }

  /** Some number of edges below `m` already reaches all that one edge more reaches. */
  ghost predicate StopsBelow(cache: Roles, role: Role, m: nat) {
    m > 0 && (Within(cache, role, m) == Within(cache, role, m - 1) || StopsBelow(cache, role, m - 1))
  }

  lemma {:induction false} WhereItStops(cache: Roles, role: Role, m: nat) returns (k: nat)
    requires StopsBelow(cache, role, m)
    ensures k < m && Within(cache, role, k + 1) == Within(cache, role, k)
    decreases m
  {
    hide Within;
    if Within(cache, role, m) == Within(cache, role, m - 1) { k := m - 1; } else { k := WhereItStops(cache, role, m - 1); }
  }

  /** As long as new roles keep turning up, there are more roles than edges. */
  lemma {:induction false} WithinFills(cache: Roles, role: Role, m: nat)
    ensures |Within(cache, role, m)| > m || StopsBelow(cache, role, m)
    decreases m
  {
    hide Within;
    if m == 0 {
      WithinItself(cache, role);
    } else {
      WithinFills(cache, role, m - 1);
      WithinGrows(cache, role, m - 1, m);
      StrictSubsetIsSmaller(Within(cache, role, m - 1), Within(cache, role, m));
    }
  }

  /** Five edges reach every role that any number of edges reaches exactly if a sixth edge adds none. */
  lemma FiveEdgesSuffice(cache: Roles, role: Role)
    ensures (forall n :: Within(cache, role, n) <= Within(cache, role, 5))
      <==> Within(cache, role, 6) == Within(cache, role, 5)
  {
    hide Within;
    WithinGrows(cache, role, MAX_DEPTH, MAX_DEPTH + 1);
    if Within(cache, role, MAX_DEPTH + 1) == Within(cache, role, MAX_DEPTH) {
      forall n: nat ensures Within(cache, role, n) <= Within(cache, role, MAX_DEPTH) {
        if n <= MAX_DEPTH { WithinGrows(cache, role, n, MAX_DEPTH); } else { WithinStops(cache, role, MAX_DEPTH, n); }
      }
    }
  }

  /**
    If no more than six roles are reachable at all, cyclic or not, then five edges reach them all
    and the permissions collected are those of the full transitive closure.
   */
  lemma SixRolesAreCovered(cache: Roles, role: Role, n: nat)
    requires forall m: nat :: |Within(cache, role, m)| <= 6
    ensures Within(cache, role, n) <= Within(cache, role, 5)
    ensures Gathered(cache, role, n) <= Gathered(cache, role, 5)
  {
    hide Within, Gathered;
    WithinFills(cache, role, MAX_DEPTH + 1);
    assert |Within(cache, role, MAX_DEPTH + 1)| <= MAX_DEPTH + 1;
    var k := WhereItStops(cache, role, MAX_DEPTH + 1);
    WithinStops(cache, role, k, MAX_DEPTH);
    WithinStops(cache, role, k, MAX_DEPTH + 1);
    FiveEdgesSuffice(cache, role);
    assert Within(cache, role, n) <= Within(cache, role, MAX_DEPTH);
    forall p | p in Gathered(cache, role, n) ensures p in Gathered(cache, role, MAX_DEPTH) {
      GatheredMeans(cache, role, n, p);
      GatheredMeans(cache, role, MAX_DEPTH, p);
    }
  }

  /** Each role of the chain has no permission and the next role as its only parent; the last one has `p`. */
  predicate IsChain(cache: Roles, chain: seq<string>, p: Permission) {
    && chain != [] && (forall i :: 0 <= i < |chain| ==> chain[i] in cache)
    && (forall i :: 0 <= i < |chain| - 1 ==>
          cache[chain[i]].permissions == [] && cache[chain[i]].inheritsFrom == [chain[i + 1]])
    && cache[chain[|chain| - 1]].permissions == [p] && cache[chain[|chain| - 1]].inheritsFrom == []
  }

  /**
    The depth bound bites: along a chain the last role's permission is collected exactly when the
    chain has no more links than edges may be followed.  With five edges the seventh role is missed.
   */
  lemma {:induction false} ChainIsCutOff(cache: Roles, chain: seq<string>, p: Permission, edges: nat)
    requires IsChain(cache, chain, p)
    ensures p in Gathered(cache, cache[chain[0]], edges) <==> |chain| - 1 <= edges
    decreases |chain|
  {
    if |chain| > 1 {
      assert IsChain(cache, chain[1..], p);
      if edges > 0 {
        OneParent(cache, chain[0], chain[1], edges);
        ChainIsCutOff(cache, chain[1..], p, edges - 1);
      }
    }
  }

  lemma OneParent(cache: Roles, child: string, parent: string, edges: nat)
    requires child in cache && parent in cache && edges > 0
    requires cache[child].permissions == [] && cache[child].inheritsFrom == [parent]
    ensures Gathered(cache, cache[child], edges) == Gathered(cache, cache[parent], edges - 1)
  {
    assert GatheredFrom(cache, [], edges - 1) == {};
    assert [parent][..0] == [];
  }

  // ----- the access decision -----

  predicate Permits(perms: set<Permission>, resource: string, action: string) {
    (resource, action) in perms || ("*", action) in perms || (resource, "*") in perms
  }

  /** The permissions of every role the rows assign, unknown role ids being skipped. */
  function AssignedTo(cache: Roles, rows: seq<Assignment>, userId: string, tenantId: int): set<Permission> {
    if rows == [] then {}
    else
      var row := rows[|rows| - 1];
      AssignedTo(cache, rows[..|rows| - 1], userId, tenantId)
      + if row.userId == userId && row.tenantId == tenantId
        then GatheredFrom(cache, row.roleIds, MAX_DEPTH) else {}
  }

  /** Some row of the user and tenant lists the role id. */
  ghost predicate Listed(rows: seq<Assignment>, userId: string, tenantId: int, id: string) {
    exists k :: 0 <= k < |rows| && rows[k].userId == userId && rows[k].tenantId == tenantId && id in rows[k].roleIds
  }

  /** The user is assigned a cached role from which `r` is at most five inheritance edges away. */
  ghost predicate Holds(cache: Roles, rows: seq<Assignment>, userId: string, tenantId: int, r: Role) {
    exists id :: id in cache && Listed(rows, userId, tenantId, id) && r in Within(cache, cache[id], 5)
  }

  /** Some listed, cached role finds the permission. */
  ghost predicate FoundByListed(cache: Roles, rows: seq<Assignment>, userId: string, tenantId: int, p: Permission) {
    exists id :: id in cache && Listed(rows, userId, tenantId, id) && FoundWithin(cache, cache[id], MAX_DEPTH, p)
  }

  lemma ListedSnoc(rows: seq<Assignment>, userId: string, tenantId: int, id: string)
    requires rows != []
    ensures var row := rows[|rows| - 1];
      Listed(rows, userId, tenantId, id) <==>
        Listed(rows[..|rows| - 1], userId, tenantId, id)
        || (row.userId == userId && row.tenantId == tenantId && id in row.roleIds)
  {
    var n := |rows| - 1;
    assert forall k :: 0 <= k < n ==> rows[..n][k] == rows[k];
  }

  lemma {:induction false} AssignedMeans(cache: Roles, rows: seq<Assignment>, userId: string, tenantId: int, p: Permission)
    ensures p in AssignedTo(cache, rows, userId, tenantId) <==> FoundByListed(cache, rows, userId, tenantId, p)
    decreases |rows|
  {
    if rows != [] {
      hide GatheredFrom, Listed, FoundWithin;
      var row := rows[|rows| - 1];
      AssignedMeans(cache, rows[..|rows| - 1], userId, tenantId, p);
      GatheredFromMeans(cache, row.roleIds, MAX_DEPTH, p);
      forall id ensures Listed(rows, userId, tenantId, id) <==>
        Listed(rows[..|rows| - 1], userId, tenantId, id)
        || (row.userId == userId && row.tenantId == tenantId && id in row.roleIds)
      {
        ListedSnoc(rows, userId, tenantId, id);
      }
    } else {
      hide FoundWithin;
    }
  }

  lemma AssignedHolds(cache: Roles, rows: seq<Assignment>, userId: string, tenantId: int, p: Permission)
    ensures p in AssignedTo(cache, rows, userId, tenantId) <==>
      exists r :: Holds(cache, rows, userId, tenantId, r) && p in r.permissions
  {
    hide AssignedTo, Listed, Within;
    AssignedMeans(cache, rows, userId, tenantId, p);
  }

  /** On decoded rows, access is granted exactly when a held role has the permission in one of the three forms. */
  lemma AccessMeans(cache: Roles, rows: seq<Assignment>, userId: string, tenantId: int, resource: string, action: string)
    ensures Permits(AssignedTo(cache, rows, userId, tenantId), resource, action) <==>
      exists r :: Holds(cache, rows, userId, tenantId, r)
        && ((resource, action) in r.permissions || ("*", action) in r.permissions || (resource, "*") in r.permissions)
  {
    hide AssignedTo, Holds;
    AssignedHolds(cache, rows, userId, tenantId, (resource, action));
    AssignedHolds(cache, rows, userId, tenantId, ("*", action));
    AssignedHolds(cache, rows, userId, tenantId, (resource, "*"));
  }

  /** The pair of two stars is no master key: it opens only requests that contain a star themselves. */
  lemma DoubleStar(perms: set<Permission>, resource: string, action: string)
    ensures Permits(perms + {("*", "*")}, resource, action)
      <==> Permits(perms, resource, action) || resource == "*" || action == "*"
  {
  }
}
