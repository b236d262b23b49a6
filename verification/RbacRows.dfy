/** The role tables as they are stored, and what decoding them leaves of the access decision and the cache. */
module RbacRows {
  import opened Wrappers
  import opened RbacCells
  import opened Rbac

  // ----- the access decision, on the rows as they are stored -----

  /** `role_ids` is a JSONB column. */
  datatype AssignmentRow = AssignmentRow(userId: string, tenantId: int, roleIds: Json)

  /** What `can` makes of the rows. */
  function Read(parse: Parser, rows: seq<AssignmentRow>): (r: seq<Assignment>)
    ensures |r| == |rows|
  {
    seq(|rows|, i requires 0 <= i < |rows| =>
          Assignment(rows[i].userId, rows[i].tenantId, ReadList(parse, rows[i].roleIds, AsStrings)))
  }

  /** What the rows say. */
  function Held(parse: Parser, rows: seq<AssignmentRow>): (r: seq<Assignment>)
    ensures |r| == |rows|
  {
    seq(|rows|, i requires 0 <= i < |rows| =>
          Assignment(rows[i].userId, rows[i].tenantId, HeldList(parse, rows[i].roleIds, AsStrings)))
  }

  predicate Allows(cache: Roles, rows: seq<Assignment>, userId: string, tenantId: int, resource: string, action: string) {
    Permits(AssignedTo(cache, rows, userId, tenantId), resource, action)
  }

  /** Some row of the user and tenant lists the id as JSON text within a string. */
  ghost predicate ListedAsText(parse: Parser, rows: seq<AssignmentRow>, userId: string, tenantId: int, id: string) {
    exists k :: 0 <= k < |rows| && rows[k].userId == userId && rows[k].tenantId == tenantId
      && rows[k].roleIds.Text? && id in HeldList(parse, rows[k].roleIds, AsStrings)
  }

  lemma ReadIsText(parse: Parser, rows: seq<AssignmentRow>, userId: string, tenantId: int, id: string)
    requires ReadsJson(parse)
    ensures Listed(Read(parse, rows), userId, tenantId, id) <==> ListedAsText(parse, rows, userId, tenantId, id)
    ensures Listed(Read(parse, rows), userId, tenantId, id) ==> Listed(Held(parse, rows), userId, tenantId, id)
  {
    hide ReadList, HeldList, ReadsJson;
    EmptyListsDecode();
    var read, held := Read(parse, rows), Held(parse, rows);
    forall k | 0 <= k < |rows|
      ensures id in read[k].roleIds <==> rows[k].roleIds.Text? && id in HeldList(parse, rows[k].roleIds, AsStrings)
    {
      ReadsOnlyText(parse, rows[k].roleIds, AsStrings);
    }
    if Listed(read, userId, tenantId, id) {
      var k :| 0 <= k < |read| && read[k].userId == userId && read[k].tenantId == tenantId && id in read[k].roleIds;
      assert id in held[k].roleIds;
    }
    if ListedAsText(parse, rows, userId, tenantId, id) {
      var k :| 0 <= k < |rows| && rows[k].userId == userId && rows[k].tenantId == tenantId
        && rows[k].roleIds.Text? && id in HeldList(parse, rows[k].roleIds, AsStrings);
      assert id in read[k].roleIds;
    }
  }

  /** The decision depends on nothing but which ids are listed. */
  lemma SameListedSameAccess(cache: Roles, a: seq<Assignment>, b: seq<Assignment>, userId: string, tenantId: int,
                             resource: string, action: string)
    requires forall id :: Listed(a, userId, tenantId, id) <==> Listed(b, userId, tenantId, id)
    ensures Allows(cache, a, userId, tenantId, resource, action) == Allows(cache, b, userId, tenantId, resource, action)
  {
    hide AssignedTo, Listed, FoundWithin;
    forall p ensures p in AssignedTo(cache, a, userId, tenantId) <==> p in AssignedTo(cache, b, userId, tenantId) {
      AssignedMeans(cache, a, userId, tenantId, p);
      AssignedMeans(cache, b, userId, tenantId, p);
    }
  }

  /** A cache of one role with one permission. */
  function Single(id: string, p: Permission): Roles { map[id := Role(id, 0, "", [p], [], false)] }

  /** With a single cached role, access to its permission tells whether the role is listed. */
  lemma SingleRole(id: string, p: Permission, rows: seq<Assignment>, userId: string, tenantId: int)
    ensures Allows(Single(id, p), rows, userId, tenantId, p.0, p.1) <==> Listed(rows, userId, tenantId, id)
  {
    hide AssignedTo, Listed;
    var cache := Single(id, p);
    forall q ensures FoundWithin(cache, cache[id], MAX_DEPTH, q) <==> q == p {
      GatheredMeans(cache, cache[id], MAX_DEPTH, q);
      assert GatheredFrom(cache, [], MAX_DEPTH - 1) == {};
    }
    AssignedMeans(cache, rows, userId, tenantId, p);
    AssignedMeans(cache, rows, userId, tenantId, ("*", p.1));
    AssignedMeans(cache, rows, userId, tenantId, (p.0, "*"));
  }

  /**
    `can` decides membership by what the rows say, for every cache and request, if and only if
    every role id listed for the user is listed in some row as JSON text; ids held as JSON values
    only are not seen.
   */
  lemma CanDecidesMembership(parse: Parser, rows: seq<AssignmentRow>, userId: string, tenantId: int)
    requires ReadsJson(parse)
    ensures (forall cache, resource, action ::
               Allows(cache, Read(parse, rows), userId, tenantId, resource, action)
               == Allows(cache, Held(parse, rows), userId, tenantId, resource, action))
      <==> forall id :: Listed(Held(parse, rows), userId, tenantId, id) ==> ListedAsText(parse, rows, userId, tenantId, id)
  {
    hide *;
    var read, held := Read(parse, rows), Held(parse, rows);
    forall id
      ensures Listed(read, userId, tenantId, id) <==> ListedAsText(parse, rows, userId, tenantId, id)
      ensures Listed(read, userId, tenantId, id) ==> Listed(held, userId, tenantId, id)
    {
      ReadIsText(parse, rows, userId, tenantId, id);
    }
    if forall id :: Listed(held, userId, tenantId, id) ==> ListedAsText(parse, rows, userId, tenantId, id) {
      forall cache, resource, action
        ensures Allows(cache, read, userId, tenantId, resource, action)
          == Allows(cache, held, userId, tenantId, resource, action)
      {
        SameListedSameAccess(cache, read, held, userId, tenantId, resource, action);
      }
    } else {
      var id :| Listed(held, userId, tenantId, id) && !ListedAsText(parse, rows, userId, tenantId, id);
      SingleRole(id, ("r", "a"), read, userId, tenantId);
      SingleRole(id, ("r", "a"), held, userId, tenantId);
      assert Allows(Single(id, ("r", "a")), read, userId, tenantId, "r", "a")
        != Allows(Single(id, ("r", "a")), held, userId, tenantId, "r", "a");
    }
  }

  /** `can` grants a user anything at all, under some cache, if and only if some row of the user lists an id as text. */
  lemma DeniedWithoutText(parse: Parser, rows: seq<AssignmentRow>, userId: string, tenantId: int)
    requires ReadsJson(parse)
    ensures (forall cache, resource, action :: !Allows(cache, Read(parse, rows), userId, tenantId, resource, action))
      <==> forall id :: !ListedAsText(parse, rows, userId, tenantId, id)
  {
    hide *;
    var read := Read(parse, rows);
    forall id ensures Listed(read, userId, tenantId, id) <==> ListedAsText(parse, rows, userId, tenantId, id) {
      ReadIsText(parse, rows, userId, tenantId, id);
    }
    if id :| ListedAsText(parse, rows, userId, tenantId, id) {
      SingleRole(id, ("r", "a"), read, userId, tenantId);
      assert Allows(Single(id, ("r", "a")), read, userId, tenantId, "r", "a");
    } else {
      forall cache, resource, action ensures !Allows(cache, read, userId, tenantId, resource, action) {
        NothingListedNothingAllowed(cache, read, userId, tenantId, resource, action);
      }
    }
  }

  lemma NothingListedNothingAllowed(cache: Roles, rows: seq<Assignment>, userId: string, tenantId: int,
                                    resource: string, action: string)
    requires forall id :: !Listed(rows, userId, tenantId, id)
    ensures !Allows(cache, rows, userId, tenantId, resource, action)
  {
    hide AssignedTo, Listed, FoundWithin;
    forall p ensures p !in AssignedTo(cache, rows, userId, tenantId) {
      AssignedMeans(cache, rows, userId, tenantId, p);
    }
  }

  /** A row whose role ids are a JSON list: every request is denied, though the role has the permission. */
  lemma AssignedButDenied(parse: Parser, userId: string, tenantId: int, id: string, p: Permission)
    requires ReadsJson(parse)
    ensures var rows := [AssignmentRow(userId, tenantId, StringsJson([id]))];
      && Allows(Single(id, p), Held(parse, rows), userId, tenantId, p.0, p.1)
      && (forall cache, resource, action :: !Allows(cache, Read(parse, rows), userId, tenantId, resource, action))
  {
    hide Allows, AssignedTo;
    var rows := [AssignmentRow(userId, tenantId, StringsJson([id]))];
    WrittenIsHeld(parse, [id], []);
    assert id in Held(parse, rows)[0].roleIds;
    SingleRole(id, p, Held(parse, rows), userId, tenantId);
    DeniedWithoutText(parse, rows, userId, tenantId);
  }

  // ----- loading the cache -----

  /** A row of the role table; `permissions` and `inheritsFrom` are JSONB columns, `isSystem` may be NULL. */
  datatype RoleRow = RoleRow(id: string, tenantId: int, name: string, permissions: Json,
                             inheritsFrom: Json, isSystem: Option<bool>)

  /** What the row says. */
  function StoredRole(parse: Parser, row: RoleRow): Role {
    Role(row.id, row.tenantId, row.name, HeldList(parse, row.permissions, AsPermissions),
         HeldList(parse, row.inheritsFrom, AsStrings), row.isSystem == Some(true))
  }

  /** What loading makes of it. */
  function LoadedRole(parse: Parser, row: RoleRow): Role {
    Role(Or(AsStr(TextCell(parse, row.id)), ""), row.tenantId, Or(AsStr(TextCell(parse, row.name)), ""),
         ReadList(parse, row.permissions, AsPermissions), ReadList(parse, row.inheritsFrom, AsStrings),
         Or(AsStr(BoolCell(row.isSystem)), "") in {"true", "t"})
  }

  /** Roles inserted one after the other under their ids. */
  function Keyed(roles: seq<Role>): Roles {
    if roles == [] then map[]
    else
      var last := roles[|roles| - 1];
      Keyed(roles[..|roles| - 1])[last.id := last]
  }

  function StoredRoles(parse: Parser, table: seq<RoleRow>): (r: seq<Role>)
    ensures |r| == |table|
  {
    seq(|table|, i requires 0 <= i < |table| => StoredRole(parse, table[i]))
  }

  function LoadedRoles(parse: Parser, table: seq<RoleRow>): (r: seq<Role>)
    ensures |r| == |table|
  {
    seq(|table|, i requires 0 <= i < |table| => LoadedRole(parse, table[i]))
  }

  predicate UniqueIds(table: seq<RoleRow>) {
    forall i, j :: 0 <= i < j < |table| ==> table[i].id != table[j].id
  }

  lemma {:induction false} KeyedIsSome(roles: seq<Role>, id: string)
    ensures id in Keyed(roles) <==> exists i :: 0 <= i < |roles| && roles[i].id == id
    decreases |roles|
  {
    if roles != [] {
      var n := |roles| - 1;
      KeyedIsSome(roles[..n], id);
      assert forall i :: 0 <= i < n ==> roles[..n][i] == roles[i];
    }
  }

  lemma {:induction false} KeyedFinds(roles: seq<Role>, i: nat)
    requires i < |roles| && forall j, k :: 0 <= j < k < |roles| ==> roles[j].id != roles[k].id
    ensures roles[i].id in Keyed(roles) && Keyed(roles)[roles[i].id] == roles[i]
    decreases |roles|
  {
    if i < |roles| - 1 { KeyedFinds(roles[..|roles| - 1], i); }
  }

  /** The text column is delivered as text. */
  predicate PlainText(parse: Parser, s: string) {
    s == "" || (s[0] != '{' && s[0] != '[') || parse(s).None?
  }

  /** The lists are empty or held as text, the text columns do not pass for JSON, and it is no system role. */
  predicate Legible(parse: Parser, row: RoleRow) {
    && PlainText(parse, row.id) && PlainText(parse, row.name) && row.isSystem != Some(true)
    && (row.permissions.Text? || HeldList(parse, row.permissions, AsPermissions) == [])
    && (row.inheritsFrom.Text? || HeldList(parse, row.inheritsFrom, AsStrings) == [])
  }

  lemma LoadedText(parse: Parser, s: string)
    requires ReadsJson(parse)
    ensures Or(AsStr(TextCell(parse, s)), "") == if PlainText(parse, s) then s else ""
    ensures !PlainText(parse, s) ==> s != ""
  {
  }

  lemma RowLoads(parse: Parser, row: RoleRow)
    requires ReadsJson(parse)
    ensures LoadedRole(parse, row) == StoredRole(parse, row) <==> Legible(parse, row)
    ensures LoadedRole(parse, row).id == if PlainText(parse, row.id) then row.id else ""
    ensures !PlainText(parse, row.id) ==> row.id != ""
    ensures !row.permissions.Text? ==> LoadedRole(parse, row).permissions == []
  {
    hide ReadList, HeldList, ReadsJson, PlainText, TextCell;
    EmptyListsDecode();
    LoadedText(parse, row.id);
    LoadedText(parse, row.name);
    ReadsOnlyText(parse, row.permissions, AsPermissions);
    ReadsOnlyText(parse, row.inheritsFrom, AsStrings);
  }

  /** A row whose id passes for JSON is missing from the loaded cache. */
  lemma IdsArePlain(parse: Parser, table: seq<RoleRow>, i: nat)
    requires ReadsJson(parse) && UniqueIds(table) && i < |table|
    requires table[i].id in Keyed(LoadedRoles(parse, table))
    ensures PlainText(parse, table[i].id)
  {
    hide LoadedRole, ReadsJson, PlainText;
    var loaded := LoadedRoles(parse, table);
    KeyedIsSome(loaded, table[i].id);
    var j :| 0 <= j < |loaded| && loaded[j].id == table[i].id;
    RowLoads(parse, table[j]);
    RowLoads(parse, table[i]);
  }

  /** The cache loaded at the start equals the table if and only if every row is legible. */
  lemma LoadedCacheIsTheTable(parse: Parser, table: seq<RoleRow>)
    requires ReadsJson(parse) && UniqueIds(table)
    ensures Keyed(LoadedRoles(parse, table)) == Keyed(StoredRoles(parse, table))
      <==> forall i :: 0 <= i < |table| ==> Legible(parse, table[i])
  {
    hide ReadsJson, PlainText, Keyed, Legible, LoadedRole;
    var loaded, stored := LoadedRoles(parse, table), StoredRoles(parse, table);
    forall i | 0 <= i < |table|
      ensures loaded[i] == stored[i] <==> Legible(parse, table[i])
      ensures stored[i].id == table[i].id && (PlainText(parse, table[i].id) ==> loaded[i].id == table[i].id)
    {
      RowLoads(parse, table[i]);
    }
    if Keyed(loaded) == Keyed(stored) {
      forall i | 0 <= i < |table| ensures loaded[i].id == table[i].id {
        KeyedFinds(stored, i);
        IdsArePlain(parse, table, i);
      }
      forall i | 0 <= i < |table| ensures Legible(parse, table[i]) {
        KeyedFinds(stored, i);
        KeyedFinds(loaded, i);
      }
    } else if forall i :: 0 <= i < |table| ==> Legible(parse, table[i]) {
      assert loaded == stored;
    }
  }

  /** A cache loaded from rows that hold their permissions as JSON values grants nobody anything. */
  lemma LoadedCacheGrantsNothing(parse: Parser, table: seq<RoleRow>, rows: seq<Assignment>, userId: string,
                                 tenantId: int, resource: string, action: string)
    requires ReadsJson(parse) && forall i :: 0 <= i < |table| ==> !table[i].permissions.Text?
    ensures !Allows(Keyed(LoadedRoles(parse, table)), rows, userId, tenantId, resource, action)
  {
    hide AssignedTo, Listed, Within, LoadedRole, ReadsJson;
    var cache := Keyed(LoadedRoles(parse, table));
    forall id, r | id in cache && r in Within(cache, cache[id], MAX_DEPTH) ensures r.permissions == [] {
      WithinIsCached(cache, cache[id], MAX_DEPTH, r);
      LoadedHasNoPermissions(parse, table, r);
    }
    forall p ensures p !in AssignedTo(cache, rows, userId, tenantId) {
      AssignedMeans(cache, rows, userId, tenantId, p);
    }
  }

  lemma {:induction false} WithinIsCached(cache: Roles, role: Role, edges: nat, r: Role)
    requires role in cache.Values && r in Within(cache, role, edges)
    ensures r in cache.Values
    decreases edges
  {
    if edges > 0 && r in Within(cache, role, edges - 1) { WithinIsCached(cache, role, edges - 1, r); }
  }

  lemma LoadedHasNoPermissions(parse: Parser, table: seq<RoleRow>, r: Role)
    requires ReadsJson(parse) && forall i :: 0 <= i < |table| ==> !table[i].permissions.Text?
    requires r in Keyed(LoadedRoles(parse, table)).Values
    ensures r.permissions == []
  {
    hide ReadsJson, LoadedRole, Keyed;
    KeyedValues(LoadedRoles(parse, table), r);
    var i :| 0 <= i < |table| && LoadedRoles(parse, table)[i] == r;
    RowLoads(parse, table[i]);
  }

  lemma {:induction false} KeyedValues(roles: seq<Role>, r: Role)
    requires r in Keyed(roles).Values
    ensures exists i :: 0 <= i < |roles| && roles[i] == r
    decreases |roles|
  {
    var n := |roles| - 1;
    if r != roles[n] {
      KeyedValues(roles[..n], r);
      var i :| 0 <= i < n && roles[..n][i] == r;
      assert roles[i] == r;
    }
  }

  // ----- the rows the service writes and deletes -----

  /** The row that creating a role writes. */
  function NewRow(role: Role): RoleRow {
    RoleRow(role.id, role.tenantId, role.name, PermissionsJson(role.permissions), StringsJson(role.inheritsFrom), Some(false))
  }

  /** A created role says what it was given, and survives the next start if and only if there is nothing to lose. */
  lemma CreatedRole(parse: Parser, role: Role)
    requires ReadsJson(parse) && !role.isSystem
    ensures StoredRole(parse, NewRow(role)) == role
    ensures LoadedRole(parse, NewRow(role)) == role <==>
      role.permissions == [] && role.inheritsFrom == [] && PlainText(parse, role.id) && PlainText(parse, role.name)
  {
    hide ReadsJson, PlainText, LoadedRole;
    WrittenIsHeld(parse, role.inheritsFrom, role.permissions);
    RowLoads(parse, NewRow(role));
  }

  lemma StoredSnoc(parse: Parser, table: seq<RoleRow>, row: RoleRow)
    ensures Keyed(StoredRoles(parse, table + [row])) == Keyed(StoredRoles(parse, table))[row.id := StoredRole(parse, row)]
  {
    hide StoredRole;
    var roles := StoredRoles(parse, table + [row]);
    assert roles[..|table|] == StoredRoles(parse, table);
    assert StoredRole(parse, row).id == row.id by { StoredId(parse, row); }
  }

  lemma StoredId(parse: Parser, row: RoleRow)
    ensures StoredRole(parse, row).id == row.id
  {
  }

  /** The table without the row that a deletion takes: the one with that id, unless it is (or may be) a system role. */
  function Deleted(table: seq<RoleRow>, id: string): seq<RoleRow> {
    if table == [] then []
    else
      var last := table[|table| - 1];
      Deleted(table[..|table| - 1], id) + if last.id == id && last.isSystem == Some(false) then [] else [last]
  }

  lemma {:induction false} DeletedRows(table: seq<RoleRow>, id: string)
    requires UniqueIds(table)
    ensures UniqueIds(Deleted(table, id))
    ensures forall row :: row in Deleted(table, id) <==> row in table && !(row.id == id && row.isSystem == Some(false))
    decreases |table|
  {
    if table != [] {
      var n := |table| - 1;
      DeletedRows(table[..n], id);
      assert forall row :: row in table <==> row in table[..n] || row == table[n];
      forall i | 0 <= i < |Deleted(table[..n], id)| ensures Deleted(table[..n], id)[i].id != table[n].id {
        assert Deleted(table[..n], id)[i] in table[..n];
      }
    }
  }

  predicate HasId(table: seq<RoleRow>, id: string) {
    exists i :: 0 <= i < |table| && table[i].id == id
  }

  lemma StoredIds(parse: Parser, table: seq<RoleRow>, id: string)
    ensures id in Keyed(StoredRoles(parse, table)) <==> HasId(table, id)
  {
    hide StoredRole, Keyed;
    var roles := StoredRoles(parse, table);
    forall i | 0 <= i < |table| ensures roles[i].id == table[i].id { StoredId(parse, table[i]); }
    KeyedIsSome(roles, id);
  }

  lemma StoredRow(parse: Parser, table: seq<RoleRow>, i: nat)
    requires UniqueIds(table) && i < |table|
    ensures table[i].id in Keyed(StoredRoles(parse, table))
    ensures Keyed(StoredRoles(parse, table))[table[i].id] == StoredRole(parse, table[i])
  {
    hide StoredRole, Keyed;
    var roles := StoredRoles(parse, table);
    forall j | 0 <= j < |table| ensures roles[j].id == table[j].id { StoredId(parse, table[j]); }
    KeyedFinds(roles, i);
  }

  lemma {:induction false} NothingDeleted(table: seq<RoleRow>, id: string)
    requires forall i :: 0 <= i < |table| ==> !(table[i].id == id && table[i].isSystem == Some(false))
    ensures Deleted(table, id) == table
    decreases |table|
  {
    if table != [] {
      var n := |table| - 1;
      NothingDeleted(table[..n], id);
      assert table == table[..n] + [table[n]];
    }
  }

  /** A table with the rows of another one but those of one id is that table's map without the id. */
  lemma WithoutId(parse: Parser, table: seq<RoleRow>, kept: seq<RoleRow>, id: string)
    requires UniqueIds(table) && UniqueIds(kept)
    requires forall row :: row in kept <==> row in table && row.id != id
    ensures Keyed(StoredRoles(parse, kept)) == Keyed(StoredRoles(parse, table)) - {id}
  {
    hide Keyed, StoredRoles, StoredRole, UniqueIds, HasId;
    var before, after := Keyed(StoredRoles(parse, table)), Keyed(StoredRoles(parse, kept));
    forall k
      ensures k in after <==> k in before && k != id
      ensures k in after ==> after[k] == before[k]
    {
      KeptEntry(parse, table, kept, id, k);
    }
  }

  lemma KeptEntry(parse: Parser, table: seq<RoleRow>, kept: seq<RoleRow>, id: string, k: string)
    requires UniqueIds(table) && UniqueIds(kept)
    requires forall row :: row in kept <==> row in table && row.id != id
    ensures var before, after := Keyed(StoredRoles(parse, table)), Keyed(StoredRoles(parse, kept));
      (k in after <==> k in before && k != id) && (k in after ==> after[k] == before[k])
  {
    hide Keyed, StoredRoles, StoredRole, UniqueIds;
    StoredIds(parse, table, k);
    StoredIds(parse, kept, k);
    if HasId(kept, k) {
      var i :| 0 <= i < |kept| && kept[i].id == k;
      assert kept[i] in kept;
      var j :| 0 <= j < |table| && table[j] == kept[i];
      StoredRow(parse, kept, i);
      StoredRow(parse, table, j);
    } else if HasId(table, k) {
      var j :| 0 <= j < |table| && table[j].id == k;
      assert table[j] in table;
    }
  }

  /** Dropping the cache entry matches the deletion exactly when no row with that id stays. */
  lemma DroppedEntry(parse: Parser, table: seq<RoleRow>, id: string)
    requires UniqueIds(table)
    ensures Keyed(StoredRoles(parse, table)) - {id} == Keyed(StoredRoles(parse, Deleted(table, id)))
      <==> forall i :: 0 <= i < |table| && table[i].id == id ==> table[i].isSystem == Some(false)
  {
    hide Keyed, StoredRoles, StoredRole, Deleted;
    if forall i :: 0 <= i < |table| && table[i].id == id ==> table[i].isSystem == Some(false) {
      DeletedRows(table, id);
      forall row | row in table && row.id == id ensures row.isSystem == Some(false) {
        var i :| 0 <= i < |table| && table[i] == row;
      }
      WithoutId(parse, table, Deleted(table, id), id);
    } else {
      var i :| 0 <= i < |table| && table[i].id == id && table[i].isSystem != Some(false);
      NothingDeleted(table, id);
      StoredRow(parse, table, i);
    }
  }
}
