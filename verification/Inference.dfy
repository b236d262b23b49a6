/** Schema inference from JSON payloads, one at a time and in batches. */
module Inference {
  import opened Wrappers
  import opened PgTypes

  datatype Number = I64(i: int) | U64(u: nat) | F64(f: real)

  /** An object's fields in the map's iteration order. */
  datatype Json =
    | JsonNull | Bool(b: bool) | Num(n: Number) | Str(s: string)
    | Arr(elements: seq<Json>) | Obj(fields: seq<(string, Json)>)

  /** The three regular expressions, which are only ever called. */
  datatype Patterns = Patterns(timestamp: string -> bool, date: string -> bool, uuid: string -> bool)

  datatype InferError = NotAnObject

  datatype Column = Column(name: string, pgType: PgType, isNested: bool, isNullable: bool)

  function InferType(p: Patterns, v: Json): PgType {
    match v
    case JsonNull => PgType.Null
    case Bool(_) => Boolean
    case Num(n) => if n.I64? || n.U64? then BigInt else DoublePrecision
    case Str(s) =>
      if p.timestamp(s) then TimestampTz else if p.date(s) then Date else if p.uuid(s) then Uuid else Text
    case Arr(_) => Jsonb
    case Obj(_) => Jsonb
  }

  predicate IsNested(v: Json) { v.Arr? || v.Obj? }

  function NewColumn(p: Patterns, name: string, v: Json): Column {
    Column(name, InferType(p, v), IsNested(v), true)
  }

  /** One column per non-null field, in field order. */
  function FieldColumns(p: Patterns, fields: seq<(string, Json)>): seq<Column> {
    if fields == [] then []
    else
      var (key, v) := fields[0];
      (if v.JsonNull? then [] else [NewColumn(p, key, v)]) + FieldColumns(p, fields[1..])
  }

  function InferSchema(p: Patterns, v: Json): Result<seq<Column>, InferError> {
    if v.Obj? then Ok(FieldColumns(p, v.fields)) else Err(NotAnObject)
  }

  // ----- what a batch is to compute -----

  predicate AllObjects(values: seq<Json>) { forall i :: 0 <= i < |values| ==> values[i].Obj? }

  function AllColumns(p: Patterns, values: seq<Json>): seq<Column>
    requires AllObjects(values)
  {
    if values == [] then []
    else AllColumns(p, values[..|values| - 1]) + FieldColumns(p, values[|values| - 1].fields)
  }

  function Named(cols: seq<Column>, name: string): seq<Column> {
    if cols == [] then []
    else
      var last := cols[|cols| - 1];
      Named(cols[..|cols| - 1], name) + if last.name == name then [last] else []
  }

  function JoinTypes(cols: seq<Column>): PgType {
    if cols == [] then PgType.Null
    else CommonType(JoinTypes(cols[..|cols| - 1]), cols[|cols| - 1].pgType)
  }

  predicate AnyNested(cols: seq<Column>) { exists i :: 0 <= i < |cols| && cols[i].isNested }

  function Names(cols: seq<Column>): set<string> { set i | 0 <= i < |cols| :: cols[i].name }

  function Unified(cols: seq<Column>): map<string, Column> {
    map name | name in Names(cols) ::
      Column(name, JoinTypes(Named(cols, name)), AnyNested(Named(cols, name)), true)
  }

  function Batch(p: Patterns, values: seq<Json>): Result<map<string, Column>, InferError> {
    if AllObjects(values) then Ok(Unified(AllColumns(p, values))) else Err(NotAnObject)
  }

  // ----- the loop -----

  /** Merging one more column: promote the entry that is there, or insert. */
  function Absorb(m: map<string, Column>, col: Column): map<string, Column> {
    if col.name in m then
      var known := m[col.name];
      m[col.name := known.(pgType := CommonType(known.pgType, col.pgType), isNested := known.isNested || col.isNested)]
    else m[col.name := col]
  }

  lemma NamedSnoc(cols: seq<Column>, col: Column, name: string)
    ensures Named(cols + [col], name) == Named(cols, name) + if col.name == name then [col] else []
  {
    assert (cols + [col])[..|cols|] == cols;
  }

  lemma {:induction false} NamedIsEmpty(cols: seq<Column>, name: string)
    ensures Named(cols, name) == [] <==> name !in Names(cols)
    decreases |cols|
  {
    if cols != [] {
      var k := |cols| - 1;
      NamedIsEmpty(cols[..k], name);
      assert Names(cols) == Names(cols[..k]) + {cols[k].name};
    }
  }

  lemma JoinSnoc(cols: seq<Column>, col: Column)
    ensures JoinTypes(cols + [col]) == CommonType(JoinTypes(cols), col.pgType)
    ensures AnyNested(cols + [col]) <==> AnyNested(cols) || col.isNested
  {
    assert (cols + [col])[..|cols|] == cols;
    if AnyNested(cols) {
      var i :| 0 <= i < |cols| && cols[i].isNested;
      assert (cols + [col])[i].isNested;
    }
    assert (cols + [col])[|cols|] == col;
  }

  lemma AbsorbIsUnified(cols: seq<Column>, col: Column)
    requires col.isNullable
    ensures Absorb(Unified(cols), col) == Unified(cols + [col])
  {
    hide Named, JoinTypes, AnyNested, Names;
    var m, m' := Absorb(Unified(cols), col), Unified(cols + [col]);
    NamesSnoc(cols, col);
    assert m.Keys == m'.Keys;
    forall name | name in m ensures m[name] == m'[name] {
      NamedSnoc(cols, col, name);
      if name == col.name {
        AbsorbOne(cols, col);
      } else {
        assert Named(cols, name) + [] == Named(cols, name);
      }
    }
  }

  lemma NamesSnoc(cols: seq<Column>, col: Column)
    ensures Names(cols + [col]) == Names(cols) + {col.name}
  {
    assert forall i :: 0 <= i < |cols| ==> (cols + [col])[i] == cols[i];
    assert (cols + [col])[|cols|] == col;
  }

  lemma AbsorbOne(cols: seq<Column>, col: Column)
    requires col.isNullable
    ensures var mine := Named(cols, col.name) + [col];
      Column(col.name, JoinTypes(mine), AnyNested(mine), true) ==
      if col.name in Names(cols) then
        Column(col.name, CommonType(JoinTypes(Named(cols, col.name)), col.pgType),
               AnyNested(Named(cols, col.name)) || col.isNested, true)
      else col
  {
    hide Named;
    NamedIsEmpty(cols, col.name);
    JoinSnoc(Named(cols, col.name), col);
    CommonTypeLaws(col.pgType, col.pgType);
  }

  lemma {:induction false} FieldColumnsAreNullable(p: Patterns, fields: seq<(string, Json)>)
    ensures forall c :: c in FieldColumns(p, fields) ==> c.isNullable
    decreases |fields|
  {
    if fields != [] { FieldColumnsAreNullable(p, fields[1..]); }
  }

  /** The inner loop: merge one payload's columns into the schema of the payloads before it. */
  method MergeColumns(unified: map<string, Column>, columns: seq<Column>, ghost before: seq<Column>)
    returns (merged: map<string, Column>)
    requires unified == Unified(before) && forall c :: c in columns ==> c.isNullable
    ensures merged == Unified(before + columns)
  {
    hide Unified;
    merged := unified;
    assert before + columns[..0] == before;
    for j := 0 to |columns|
      invariant merged == Unified(before + columns[..j])
    {
      var col := columns[j];
      AbsorbIsUnified(before + columns[..j], col);
      assert before + columns[..j] + [col] == before + columns[..j + 1];
      if col.name in merged {
        var existing := merged[col.name];
        merged := merged[col.name := existing.(pgType := CommonType(existing.pgType, col.pgType),
                                               isNested := existing.isNested || col.isNested)];
      } else {
        merged := merged[col.name := col];
      }
    }
    assert columns[..|columns|] == columns;
  }

  lemma NothingUnified()
    ensures Unified([]) == map[]
  {
  }

  method InferBatchSchema(p: Patterns, values: seq<Json>) returns (r: Result<map<string, Column>, InferError>)
    ensures r == Batch(p, values)
  {
    hide Unified, FieldColumns;
    NothingUnified();
    if values == [] {
      return Ok(map[]);
    }
    var unified: map<string, Column> := map[];
    for i := 0 to |values|
      invariant AllObjects(values[..i])
      invariant unified == Unified(AllColumns(p, values[..i]))
    {
      var schema := InferSchema(p, values[i]);
      if schema.Err? {
        return Err(schema.error);
      }
      FieldColumnsAreNullable(p, values[i].fields);
      unified := MergeColumns(unified, schema.value, AllColumns(p, values[..i]));
      assert values[..i + 1][..i] == values[..i];
    }
    assert values[..|values|] == values;
    return Ok(unified);
  }

  // ----- what the result means -----

  /** Some payload has a non-null `v` under `key`. */
  predicate Sighting(values: seq<Json>, key: string, v: Json) {
    !v.JsonNull? && exists i :: 0 <= i < |values| && values[i].Obj? && (key, v) in values[i].fields
  }

  lemma {:induction false} ColumnsAreFields(p: Patterns, fields: seq<(string, Json)>, col: Column)
    ensures col in FieldColumns(p, fields) <==>
      exists v :: (col.name, v) in fields && !v.JsonNull? && col == NewColumn(p, col.name, v)
    decreases |fields|
  {
    if fields != [] {
      ColumnsAreFields(p, fields[1..], col);
      var (key, v) := fields[0];
      assert fields == [fields[0]] + fields[1..];
      assert col == NewColumn(p, key, v) && !v.JsonNull? ==> (col.name, v) in fields;
    }
  }

  lemma {:induction false} ColumnsAreSightings(p: Patterns, values: seq<Json>, col: Column)
    requires AllObjects(values)
    ensures col in AllColumns(p, values) <==>
      exists v :: Sighting(values, col.name, v) && col == NewColumn(p, col.name, v)
    decreases |values|
  {
    if values != [] {
      var k := |values| - 1;
      ColumnsAreSightings(p, values[..k], col);
      ColumnsAreFields(p, values[k].fields, col);
      forall v ensures Sighting(values, col.name, v) <==>
        Sighting(values[..k], col.name, v) || (!v.JsonNull? && (col.name, v) in values[k].fields)
      {
        SightingSnoc(values, col.name, v);
      }
    }
  }

  lemma SightingSnoc(values: seq<Json>, key: string, v: Json)
    requires values != [] && AllObjects(values)
    ensures var k := |values| - 1;
      Sighting(values, key, v) <==>
        Sighting(values[..k], key, v) || (!v.JsonNull? && (key, v) in values[k].fields)
  {
    var k := |values| - 1;
    assert forall i :: 0 <= i < k ==> values[..k][i] == values[i];
  }

  lemma {:induction false} NamedMembers(cols: seq<Column>, name: string, col: Column)
    ensures col in Named(cols, name) <==> col in cols && col.name == name
    decreases |cols|
  {
    if cols != [] {
      var k := |cols| - 1;
      NamedMembers(cols[..k], name, col);
      assert cols == cols[..k] + [cols[k]];
    }
  }

  /** The join is the least type above every one of the columns. */
  lemma {:induction false} JoinIsLeast(cols: seq<Column>, bound: PgType)
    ensures forall c :: c in cols ==> Below(c.pgType, JoinTypes(cols))
    ensures (forall c :: c in cols ==> Below(c.pgType, bound)) ==> Below(JoinTypes(cols), bound)
    decreases |cols|
  {
    if cols != [] {
      var k := |cols| - 1;
      var j, t := JoinTypes(cols[..k]), cols[k].pgType;
      JoinIsLeast(cols[..k], bound);
      assert cols == cols[..k] + [cols[k]];
      CommonTypeIsTheJoin(j, t, bound);
      forall c | c in cols ensures Below(c.pgType, JoinTypes(cols)) {
        BelowIsAnOrder(c.pgType, j, CommonType(j, t));
      }
    }
  }

  /** `t` is the least type above the types of everything seen under `key`. */
  ghost predicate IsJoinOfSightings(p: Patterns, values: seq<Json>, key: string, t: PgType) {
    && (forall v :: Sighting(values, key, v) ==> Below(InferType(p, v), t))
    && (forall bound :: (forall v :: Sighting(values, key, v) ==> Below(InferType(p, v), bound)) ==> Below(t, bound))
  }

  /**
    A batch fails exactly when some payload is no object.  Otherwise its columns are the keys
    with a non-null value somewhere, each typed by the least type above all its values' types,
    and nested exactly when some value is an array or object, which forces JSONB.
   */
  lemma BatchMeaning(p: Patterns, values: seq<Json>, key: string)
    ensures Batch(p, values).Ok? <==> AllObjects(values)
    ensures Batch(p, values).Ok? ==> var m := Batch(p, values).value;
      && (key in m <==> exists v :: Sighting(values, key, v))
      && (key in m ==>
            && m[key].name == key && m[key].isNullable
            && IsJoinOfSightings(p, values, key, m[key].pgType)
            && (m[key].isNested <==> exists v :: Sighting(values, key, v) && (v.Arr? || v.Obj?))
            && (m[key].isNested ==> m[key].pgType == Jsonb))
  {
    if AllObjects(values) {
      var cols := AllColumns(p, values);
      var mine := Named(cols, key);
      forall col ensures col in mine <==> exists v :: Sighting(values, key, v) && col == NewColumn(p, key, v) {
        NamedMembers(cols, key, col);
        ColumnsAreSightings(p, values, col);
      }
      NamedIsEmpty(cols, key);
      if key in Names(cols) {
        assert mine[0] in mine;
        SightingsAreColumns(p, values, key, mine);
      } else {
        forall v ensures !Sighting(values, key, v) {
          assert NewColumn(p, key, v) !in mine;
        }
      }
    }
  }

  lemma SightingsAreColumns(p: Patterns, values: seq<Json>, key: string, mine: seq<Column>)
    requires forall col :: col in mine <==> exists v :: Sighting(values, key, v) && col == NewColumn(p, key, v)
    ensures IsJoinOfSightings(p, values, key, JoinTypes(mine))
    ensures AnyNested(mine) <==> exists v :: Sighting(values, key, v) && IsNested(v)
    ensures AnyNested(mine) ==> JoinTypes(mine) == Jsonb
  {
    forall v | Sighting(values, key, v) ensures Below(InferType(p, v), JoinTypes(mine)) {
      JoinIsLeast(mine, Jsonb);
      assert NewColumn(p, key, v) in mine;
    }
    forall bound | forall v :: Sighting(values, key, v) ==> Below(InferType(p, v), bound)
      ensures Below(JoinTypes(mine), bound)
    {
      JoinIsLeast(mine, bound);
    }
    if v :| Sighting(values, key, v) && IsNested(v) {
      assert NewColumn(p, key, v) in mine;
      assert Below(Jsonb, JoinTypes(mine));
    }
    if AnyNested(mine) {
      var i :| 0 <= i < |mine| && mine[i].isNested;
      assert mine[i] in mine;
    }
  }
}
