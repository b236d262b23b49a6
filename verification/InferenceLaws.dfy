/** Algebraic laws of batch inference: order, duplicates, splitting, and how types evolve. */
module InferenceLaws {
  import opened Wrappers
  import opened PgTypes
  import opened Inference

  type Schema = Result<map<string, Column>, InferError>

  lemma JoinIsUnique(p: Patterns, xs: seq<Json>, ys: seq<Json>, key: string, s: PgType, t: PgType)
    requires IsJoinOfSightings(p, xs, key, s) && IsJoinOfSightings(p, ys, key, t)
    requires forall v :: Sighting(xs, key, v) <==> Sighting(ys, key, v)
    ensures s == t
  {
    BelowIsAnOrder(s, t, s);
  }

  /** Two batches that see the same values under the same keys infer the same schema. */
  lemma SameSightingsSameBatch(p: Patterns, xs: seq<Json>, ys: seq<Json>)
    requires AllObjects(xs) && AllObjects(ys)
    requires forall key, v :: Sighting(xs, key, v) <==> Sighting(ys, key, v)
    ensures Batch(p, xs) == Batch(p, ys)
  {
    hide AllObjects, Sighting, Unified;
    var m, n := Batch(p, xs).value, Batch(p, ys).value;
    forall key
      ensures key in m <==> key in n
      ensures key in m ==> m[key] == n[key]
    {
      SameColumn(p, xs, ys, key);
    }
    assert m == n;
  }

  lemma SameColumn(p: Patterns, xs: seq<Json>, ys: seq<Json>, key: string)
    requires Batch(p, xs).Ok? && Batch(p, ys).Ok?
    requires forall v :: Sighting(xs, key, v) <==> Sighting(ys, key, v)
    ensures key in Batch(p, xs).value <==> key in Batch(p, ys).value
    ensures key in Batch(p, xs).value ==> Batch(p, xs).value[key] == Batch(p, ys).value[key]
  {
    hide Batch, Sighting, IsJoinOfSightings;
    var m, n := Batch(p, xs).value, Batch(p, ys).value;
    BatchMeaning(p, xs, key);
    BatchMeaning(p, ys, key);
    if key in m { JoinIsUnique(p, xs, ys, key, m[key].pgType, n[key].pgType); }
  }

  /** Reordering or repeating payloads changes nothing: only the set of payloads matters. */
  lemma OnlyTheSetMatters(p: Patterns, xs: seq<Json>, ys: seq<Json>)
    requires forall v :: v in xs <==> v in ys
    ensures Batch(p, xs) == Batch(p, ys)
  {
    if AllObjects(xs) || AllObjects(ys) {
      assert forall i :: 0 <= i < |xs| ==> xs[i] in ys;
      assert forall i :: 0 <= i < |ys| ==> ys[i] in xs;
      forall key, v ensures Sighting(xs, key, v) <==> Sighting(ys, key, v) {
        SightingInSet(xs, ys, key, v);
        SightingInSet(ys, xs, key, v);
      }
      SameSightingsSameBatch(p, xs, ys);
    }
  }

  lemma SightingInSet(xs: seq<Json>, ys: seq<Json>, key: string, v: Json)
    requires forall i :: 0 <= i < |xs| ==> xs[i] in ys
    ensures Sighting(xs, key, v) ==> Sighting(ys, key, v)
  {
    if Sighting(xs, key, v) {
      var i :| 0 <= i < |xs| && xs[i].Obj? && (key, v) in xs[i].fields;
      var j :| 0 <= j < |ys| && ys[j] == xs[i];
    }
  }

  // ----- splitting a batch -----

  function MergeColumn(a: Column, b: Column): Column {
    Column(a.name, CommonType(a.pgType, b.pgType), a.isNested || b.isNested, true)
  }

  function Merge(a: Schema, b: Schema): Schema {
    if a.Err? then a
    else if b.Err? then b
    else Ok(map key | key in a.value.Keys + b.value.Keys ::
              if key !in a.value then b.value[key]
              else if key !in b.value then a.value[key]
              else MergeColumn(a.value[key], b.value[key]))
  }

  lemma SightingConcat(xs: seq<Json>, ys: seq<Json>, key: string, v: Json)
    ensures Sighting(xs + ys, key, v) <==> Sighting(xs, key, v) || Sighting(ys, key, v)
  {
    var zs := xs + ys;
    if Sighting(zs, key, v) {
      var i :| 0 <= i < |zs| && zs[i].Obj? && (key, v) in zs[i].fields;
      if i >= |xs| { assert zs[i] == ys[i - |xs|]; }
    }
    if Sighting(xs, key, v) {
      var i :| 0 <= i < |xs| && xs[i].Obj? && (key, v) in xs[i].fields;
      assert zs[i] == xs[i];
    }
    if Sighting(ys, key, v) {
      var i :| 0 <= i < |ys| && ys[i].Obj? && (key, v) in ys[i].fields;
      assert zs[|xs| + i] == ys[i];
    }
  }

  lemma JoinOfConcat(p: Patterns, xs: seq<Json>, ys: seq<Json>, key: string, s: PgType, t: PgType)
    requires IsJoinOfSightings(p, xs, key, s) && IsJoinOfSightings(p, ys, key, t)
    ensures IsJoinOfSightings(p, xs + ys, key, CommonType(s, t))
  {
    var j := CommonType(s, t);
    CommonTypeIsTheJoin(s, t, j);
    forall v | Sighting(xs + ys, key, v) ensures Below(InferType(p, v), j) {
      SightingConcat(xs, ys, key, v);
      BelowIsAnOrder(InferType(p, v), s, j);
      BelowIsAnOrder(InferType(p, v), t, j);
    }
    forall bound | forall v :: Sighting(xs + ys, key, v) ==> Below(InferType(p, v), bound)
      ensures Below(j, bound)
    {
      forall v ensures (Sighting(xs, key, v) || Sighting(ys, key, v)) ==> Below(InferType(p, v), bound) {
        SightingConcat(xs, ys, key, v);
      }
      CommonTypeIsTheJoin(s, t, bound);
    }
  }

  /** Nothing seen: the join is NULL, the identity of `CommonType`. */
  lemma JoinOfNothing(p: Patterns, values: seq<Json>, key: string)
    requires forall v :: !Sighting(values, key, v)
    ensures IsJoinOfSightings(p, values, key, PgType.Null)
  {
    forall bound ensures Below(PgType.Null, bound) { CommonTypeLaws(bound, PgType.Null); }
  }

  /** The type a key has in a batch, NULL if it has none. */
  function TypeOf(s: Schema, key: string): PgType {
    if s.Ok? && key in s.value then s.value[key].pgType else PgType.Null
  }

  lemma TypeOfIsJoin(p: Patterns, values: seq<Json>, key: string)
    requires AllObjects(values)
    ensures IsJoinOfSightings(p, values, key, TypeOf(Batch(p, values), key))
  {
    BatchMeaning(p, values, key);
    if key !in Batch(p, values).value {
      JoinOfNothing(p, values, key);
    }
  }

  lemma TypeOfConcat(p: Patterns, xs: seq<Json>, ys: seq<Json>, key: string)
    requires AllObjects(xs) && AllObjects(ys)
    ensures TypeOf(Batch(p, xs + ys), key) == CommonType(TypeOf(Batch(p, xs), key), TypeOf(Batch(p, ys), key))
  {
    TypeOfIsJoin(p, xs, key);
    TypeOfIsJoin(p, ys, key);
    TypeOfIsJoin(p, xs + ys, key);
    JoinOfConcat(p, xs, ys, key, TypeOf(Batch(p, xs), key), TypeOf(Batch(p, ys), key));
    JoinIsUnique(p, xs + ys, xs + ys, key, TypeOf(Batch(p, xs + ys), key),
                 CommonType(TypeOf(Batch(p, xs), key), TypeOf(Batch(p, ys), key)));
  }

  /** Inferring two halves and merging the schemas is inferring the whole. */
  lemma BatchOfConcat(p: Patterns, xs: seq<Json>, ys: seq<Json>)
    ensures Batch(p, xs + ys) == Merge(Batch(p, xs), Batch(p, ys))
  {
    AllObjectsConcat(xs, ys);
    if AllObjects(xs) && AllObjects(ys) {
      var m, n := Batch(p, xs + ys).value, Merge(Batch(p, xs), Batch(p, ys)).value;
      forall key ensures (key in m <==> key in n) && (key in m ==> m[key] == n[key]) {
        MergedKey(p, xs, ys, key);
      }
      assert m.Keys == n.Keys;
      assert m == n;
    }
  }

  lemma AllObjectsConcat(xs: seq<Json>, ys: seq<Json>)
    ensures AllObjects(xs + ys) <==> AllObjects(xs) && AllObjects(ys)
  {
    var zs := xs + ys;
    assert forall i :: 0 <= i < |xs| ==> zs[i] == xs[i];
    assert forall i :: 0 <= i < |ys| ==> zs[|xs| + i] == ys[i];
  }

  lemma MergedKey(p: Patterns, xs: seq<Json>, ys: seq<Json>, key: string)
    requires AllObjects(xs) && AllObjects(ys) && AllObjects(xs + ys)
    ensures var m, n := Batch(p, xs + ys).value, Merge(Batch(p, xs), Batch(p, ys)).value;
      (key in m <==> key in n) && (key in m ==> m[key] == n[key])
  {
    hide Batch, IsJoinOfSightings, CommonType;
    BatchMeaning(p, xs, key);
    BatchMeaning(p, ys, key);
    BatchMeaning(p, xs + ys, key);
    forall v ensures Sighting(xs + ys, key, v) <==> Sighting(xs, key, v) || Sighting(ys, key, v) {
      SightingConcat(xs, ys, key, v);
    }
    TypeOfConcat(p, xs, ys, key);
    CommonTypeLaws(TypeOf(Batch(p, xs), key), PgType.Null);
    CommonTypeLaws(PgType.Null, TypeOf(Batch(p, ys), key));
    CommonTypeLaws(TypeOf(Batch(p, ys), key), PgType.Null);
  }

  // ----- a column's type along a stream of payloads -----

  /** How often the type of `key` changes after it was first typed, over the first `n` payloads. */
  function Changes(p: Patterns, values: seq<Json>, key: string, n: nat): nat
    requires n <= |values|
  {
    if n == 0 then 0
    else
      var before, after := TypeOf(Batch(p, values[..n - 1]), key), TypeOf(Batch(p, values[..n]), key);
      Changes(p, values, key, n - 1) + if before != PgType.Null && before != after then 1 else 0
  }

  lemma PrefixIsBelow(p: Patterns, values: seq<Json>, key: string, n: nat)
    requires AllObjects(values) && 0 < n <= |values|
    ensures Below(TypeOf(Batch(p, values[..n - 1]), key), TypeOf(Batch(p, values[..n]), key))
  {
    assert values[..n] == values[..n - 1] + [values[n - 1]];
    TypeOfConcat(p, values[..n - 1], [values[n - 1]], key);
    CommonTypeIsTheJoin(TypeOf(Batch(p, values[..n - 1]), key), TypeOf(Batch(p, [values[n - 1]]), key), Jsonb);
  }

  /** Along any stream a column's type only climbs, and changes at most twice. */
  lemma {:induction false} TypesClimb(p: Patterns, values: seq<Json>, key: string, n: nat)
    requires AllObjects(values) && n <= |values|
    ensures forall i :: 0 < i <= n ==>
      Below(TypeOf(Batch(p, values[..i - 1]), key), TypeOf(Batch(p, values[..i]), key))
    ensures Changes(p, values, key, n) <= 2
    ensures TypeOf(Batch(p, values[..n]), key) == PgType.Null ==> Changes(p, values, key, n) == 0
    ensures TypeOf(Batch(p, values[..n]), key) != PgType.Null ==>
      Changes(p, values, key, n) < Rank(TypeOf(Batch(p, values[..n]), key))
    decreases n
  {
    if n > 0 {
      TypesClimb(p, values, key, n - 1);
      PrefixIsBelow(p, values, key, n);
      var before, after := TypeOf(Batch(p, values[..n - 1]), key), TypeOf(Batch(p, values[..n]), key);
      ClimbingRaisesRank(before, after);
      CommonTypeLaws(before, after);
    }
  }

  /** Two changes do happen: an integer, then a fraction, then a flag. */
  lemma TwoChangesHappen(p: Patterns)
    ensures var values := [Obj([("k", Num(I64(1)))]), Obj([("k", Num(F64(0.5)))]), Obj([("k", Bool(true))])];
      Changes(p, values, "k", 3) == 2
  {
    hide Batch, TypeOf;
    var a, b, c := Obj([("k", Num(I64(1)))]), Obj([("k", Num(F64(0.5)))]), Obj([("k", Bool(true))]);
    var values := [a, b, c];
    assert values[..1] == [a] && values[..2] == [a] + [b] && values[..3] == [a] + [b] + [c] && values[..0] == [];
    OneField(p, "k", Num(I64(1)));
    OneField(p, "k", Num(F64(0.5)));
    OneField(p, "k", Bool(true));
    TypeOfConcat(p, [a], [b], "k");
    TypeOfConcat(p, [a] + [b], [c], "k");
    NoPayloads(p, "k");
    assert Changes(p, values, "k", 1) == 0;
    assert Changes(p, values, "k", 2) == 1;
  }

  lemma NoPayloads(p: Patterns, key: string)
    ensures TypeOf(Batch(p, []), key) == PgType.Null
  {
    assert Unified([]) == map[];
  }

  lemma OneField(p: Patterns, key: string, v: Json)
    requires !v.JsonNull?
    ensures TypeOf(Batch(p, [Obj([(key, v)])]), key) == InferType(p, v)
  {
    var o := Obj([(key, v)]);
    var values := [o];
    assert values[0].Obj? && (key, v) in values[0].fields;
    assert Sighting(values, key, v);
    forall w | Sighting(values, key, w) ensures w == v {
    }
    TypeOfIsJoin(p, values, key);
    BelowIsAnOrder(TypeOf(Batch(p, values), key), InferType(p, v), InferType(p, v));
    BelowIsAnOrder(InferType(p, v), TypeOf(Batch(p, values), key), InferType(p, v));
  }

  // ----- integers and the column they get -----

  const MAX_BIGINT: int := 0x7FFF_FFFF_FFFF_FFFF

  predicate FitsBigInt(x: int) { -MAX_BIGINT - 1 <= x <= MAX_BIGINT }

  predicate IsInteger(v: Json) { v.Num? && !v.n.F64? }

  function IntegerOf(v: Json): int
    requires IsInteger(v)
  {
    if v.n.I64? then v.n.i else v.n.u
  }

  /** A number as the JSON parser represents it: signed if it fits 64 bits, else unsigned or floating. */
  predicate Parsed(v: Json) {
    v.Num? ==> match v.n
      case I64(i) => FitsBigInt(i)
      case U64(u) => MAX_BIGINT < u <= 2 * MAX_BIGINT + 1
      case F64(_) => true
  }

  /**
    A column is typed BIGINT exactly when all its values are integers, and it can hold them all
    exactly when none is above 2^63 - 1: larger integers are typed BIGINT all the same.
   */
  lemma BigIntColumns(p: Patterns, values: seq<Json>, key: string)
    requires Batch(p, values).Ok? && key in Batch(p, values).value
    requires forall v :: Sighting(values, key, v) ==> Parsed(v)
    ensures Batch(p, values).value[key].pgType == BigInt <==> forall v :: Sighting(values, key, v) ==> IsInteger(v)
    ensures Batch(p, values).value[key].pgType == BigInt ==>
      ((forall v :: Sighting(values, key, v) ==> FitsBigInt(IntegerOf(v)))
       <==> forall v :: Sighting(values, key, v) ==> IntegerOf(v) <= MAX_BIGINT)
  {
    hide Batch, Sighting;
    BatchMeaning(p, values, key);
    var t := Batch(p, values).value[key].pgType;
    var seen :| Sighting(values, key, seen);
    forall v ensures Below(InferType(p, v), BigInt) <==> IsInteger(v) || v.JsonNull? {
    }
    forall v | Sighting(values, key, v) ensures !v.JsonNull? { NotNull(values, key, v); }
    if t == BigInt {
      assert forall v :: Sighting(values, key, v) ==> Below(InferType(p, v), t);
    }
    if forall v :: Sighting(values, key, v) ==> IsInteger(v) {
      assert Below(t, BigInt) && Below(InferType(p, seen), t);
    }
  }

  lemma NotNull(values: seq<Json>, key: string, v: Json)
    requires Sighting(values, key, v)
    ensures !v.JsonNull?
  {
  }

  /** For instance, 2^63 alone makes a BIGINT column that cannot hold it. */
  lemma OneTooLarge(p: Patterns, key: string)
    ensures var values := [Obj([(key, Num(U64(MAX_BIGINT + 1)))])];
      && Batch(p, values).Ok? && key in Batch(p, values).value && Batch(p, values).value[key].pgType == BigInt
      && Parsed(Num(U64(MAX_BIGINT + 1))) && !FitsBigInt(MAX_BIGINT + 1)
  {
    var v := Num(U64(MAX_BIGINT + 1));
    var values := [Obj([(key, v)])];
    assert (key, v) in values[0].fields;
    assert Sighting(values, key, v);
    BatchMeaning(p, values, key);
    forall w | Sighting(values, key, w) ensures w == v {
    }
    BigIntColumns(p, values, key);
  }
}
