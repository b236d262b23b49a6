/** The role service: its tables, its cache, and the methods over them. */
module RoleService {
  import opened Wrappers
  import opened RbacCells
  import opened Rbac
  import opened RbacRows

  datatype RbacError = DuplicateName

  class RbacService {
    const parse: Parser
    var table: seq<RoleRow>
    var assignments: seq<AssignmentRow>
    var roleCache: Roles

    ghost predicate Valid()
      reads this
    {
      ReadsJson(parse) && UniqueIds(table)
    }

    /** The cache says what the table says. */
    predicate Coherent()
      reads this
    {
      roleCache == Keyed(StoredRoles(parse, table))
    }

    /** Starting the process loads the cache, row by row. */
    constructor (parse: Parser, table: seq<RoleRow>, assignments: seq<AssignmentRow>)
      requires ReadsJson(parse) && UniqueIds(table)
      ensures Valid() && this.parse == parse && this.table == table && this.assignments == assignments
      ensures roleCache == Keyed(LoadedRoles(parse, table))
      ensures Coherent() <==> forall i :: 0 <= i < |table| ==> Legible(parse, table[i])
    {
      this.parse, this.table, this.assignments := parse, table, assignments;
      roleCache := map[];
      new;
      LoadRoles();
      LoadedCacheIsTheTable(parse, table);
    }

    method LoadRoles()
      requires roleCache == map[]
      modifies this`roleCache
      ensures roleCache == Keyed(LoadedRoles(parse, table))
    {
      ghost var roles := LoadedRoles(parse, table);
      for i := 0 to |table|
        invariant roleCache == Keyed(roles[..i])
      {
        var row := table[i];
        var id := Or(AsStr(TextCell(parse, row.id)), "");
        var name := Or(AsStr(TextCell(parse, row.name)), "");
        var permissions := ReadList(parse, row.permissions, AsPermissions);
        var inheritsFrom := ReadList(parse, row.inheritsFrom, AsStrings);
        var isSystem := Or(AsStr(BoolCell(row.isSystem)), "") in {"true", "t"};
        roleCache := roleCache[id := Role(id, row.tenantId, name, permissions, inheritsFrom, isSystem)];
        assert roles[..i + 1][..i] == roles[..i];
      }
      assert roles[..|table|] == roles;
    }

    predicate NameTaken(tenantId: int, name: string)
      reads this
    {
      exists i :: 0 <= i < |table| && table[i].tenantId == tenantId && table[i].name == name
    }

    /** `id` is a new UUID. */
    method CreateRole(id: string, tenantId: int, name: string, permissions: seq<Permission>, inheritsFrom: seq<string>)
      returns (r: Result<Role, RbacError>)
      requires Valid() && forall i :: 0 <= i < |table| ==> table[i].id != id
      modifies this`table, this`roleCache
      ensures Valid()
      ensures r.Err? <==> exists i :: 0 <= i < |old(table)| && old(table)[i].tenantId == tenantId && old(table)[i].name == name
      ensures r.Err? ==> table == old(table) && roleCache == old(roleCache)
      ensures r.Ok? ==>
        && r.value == Role(id, tenantId, name, permissions, inheritsFrom, false)
        && table == old(table) + [NewRow(r.value)] && roleCache == old(roleCache)[id := r.value]
      ensures old(Coherent()) ==> Coherent()
    {
      if NameTaken(tenantId, name) {
        return Err(DuplicateName);
      }
      var role := Role(id, tenantId, name, permissions, inheritsFrom, false);
      StoredSnoc(parse, table, NewRow(role));
      CreatedRole(parse, role);
      table := table + [RoleRow(id, tenantId, name, PermissionsJson(permissions), StringsJson(inheritsFrom), Some(false))];
      roleCache := roleCache[id := role];
      return Ok(role);
    }

    /** A system role's row stays, and so does one whose flag is NULL, but the cache entry goes all the same. */
    method DeleteRole(id: string)
      requires Valid()
      modifies this`table, this`roleCache
      ensures Valid() && table == Deleted(old(table), id) && roleCache == old(roleCache) - {id}
      ensures old(Coherent()) ==>
        (Coherent() <==> forall i :: 0 <= i < |old(table)| && old(table)[i].id == id ==> old(table)[i].isSystem == Some(false))
    {
      hide Keyed, StoredRoles;
      DeletedRows(table, id);
      DroppedEntry(parse, table, id);
      table := Deleted(table, id);
      roleCache := roleCache - {id};
    }

    /** Adds what is reachable from `role` in the cache; cycles and missing parents do no harm. */
    method CollectPermissions(role: Role, collected: set<Permission>, depth: nat) returns (r: set<Permission>)
      ensures r == if depth > MAX_DEPTH then collected else collected + Gathered(roleCache, role, MAX_DEPTH - depth)
      decreases if depth > MAX_DEPTH then 0 else MAX_DEPTH + 1 - depth
    {
      r := collected;
      if depth > MAX_DEPTH {
        return;
      }
      for i := 0 to |role.permissions|
        invariant r == collected + set p | p in role.permissions[..i]
      {
        r := r + {role.permissions[i]};
      }
      assert role.permissions[..|role.permissions|] == role.permissions;
      ghost var own := r;
      for j := 0 to |role.inheritsFrom|
        invariant r == own + if depth == MAX_DEPTH then {}
                             else GatheredFrom(roleCache, role.inheritsFrom[..j], MAX_DEPTH - depth - 1)
      {
        assert role.inheritsFrom[..j + 1][..j] == role.inheritsFrom[..j];
        if role.inheritsFrom[j] in roleCache {
          r := CollectPermissions(roleCache[role.inheritsFrom[j]], r, depth + 1);
        }
      }
      assert role.inheritsFrom[..|role.inheritsFrom|] == role.inheritsFrom;
    }

    method Can(userId: string, tenantId: int, resource: string, action: string) returns (allowed: bool)
      ensures allowed <==> Allows(roleCache, Read(parse, assignments), userId, tenantId, resource, action)
    {
      ghost var read := Read(parse, assignments);
      var all: set<Permission> := {};
      for k := 0 to |assignments|
        invariant all == AssignedTo(roleCache, read[..k], userId, tenantId)
      {
        assert read[..k + 1][..k] == read[..k];
        if assignments[k].userId == userId && assignments[k].tenantId == tenantId {
          var ids := ReadList(parse, assignments[k].roleIds, AsStrings);
          ghost var before := all;
          for i := 0 to |ids|
            invariant all == before + GatheredFrom(roleCache, ids[..i], MAX_DEPTH)
          {
            assert ids[..i + 1][..i] == ids[..i];
            if ids[i] in roleCache {
              all := CollectPermissions(roleCache[ids[i]], all, 0);
            }
          }
          assert ids[..|ids|] == ids;
        }
      }
      assert read[..|assignments|] == read;
      return (resource, action) in all || ("*", action) in all || (resource, "*") in all;
    }
  }
}
