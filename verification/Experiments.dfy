/** Deterministic, weighted variant assignment over ten thousand buckets. */
module Experiments {
  import opened Wrappers

  datatype Variant = Variant(id: int, trafficWeight: int)

  const BUCKETS: nat := 10_000
  const TWO_64: int := 0x1_0000_0000_0000_0000

  // ----- sorting by id -----

  /** `v` placed before the first element with a larger id, so equal ids keep their order. */
  function Insert(v: Variant, vs: seq<Variant>): seq<Variant> {
    if vs == [] || v.id < vs[0].id then [v] + vs else [vs[0]] + Insert(v, vs[1..])
  }

  /** The stable order by id. */
  function ById(vs: seq<Variant>): seq<Variant> {
    if vs == [] then [] else Insert(vs[|vs| - 1], ById(vs[..|vs| - 1]))
  }

  predicate Sorted(vs: seq<Variant>) {
    forall i, j :: 0 <= i < j < |vs| ==> vs[i].id <= vs[j].id
  }

  predicate DistinctIds(vs: seq<Variant>) {
    forall i, j :: 0 <= i < j < |vs| ==> vs[i].id != vs[j].id
  }

  lemma {:induction false} InsertPermutes(v: Variant, vs: seq<Variant>)
    ensures multiset(Insert(v, vs)) == multiset(vs) + multiset{v}
    decreases |vs|
  {
    if vs != [] {
      assert vs == [vs[0]] + vs[1..];
      if v.id >= vs[0].id {
        InsertPermutes(v, vs[1..]);
      }
    }
  }

  lemma {:induction false} InsertStaysAbove(v: Variant, vs: seq<Variant>, low: int)
    requires low <= v.id && forall i :: 0 <= i < |vs| ==> low <= vs[i].id
    ensures forall i :: 0 <= i < |Insert(v, vs)| ==> low <= Insert(v, vs)[i].id
    decreases |vs|
  {
    if vs != [] && v.id >= vs[0].id { InsertStaysAbove(v, vs[1..], low); }
  }

  lemma {:induction false} InsertSorts(v: Variant, vs: seq<Variant>)
    requires Sorted(vs)
    ensures Sorted(Insert(v, vs))
    decreases |vs|
  {
    if vs != [] && v.id >= vs[0].id {
      InsertSorts(v, vs[1..]);
      InsertStaysAbove(v, vs[1..], vs[0].id);
    }
  }

  lemma {:induction false} ByIdIsSorted(vs: seq<Variant>)
    ensures Sorted(ById(vs))
    decreases |vs|
  {
    if vs != [] {
      ByIdIsSorted(vs[..|vs| - 1]);
      InsertSorts(vs[|vs| - 1], ById(vs[..|vs| - 1]));
    }
  }

  lemma {:induction false} ByIdPermutes(vs: seq<Variant>)
    ensures multiset(ById(vs)) == multiset(vs)
    decreases |vs|
  {
    if vs != [] {
      var k := |vs| - 1;
      ByIdPermutes(vs[..k]);
      InsertPermutes(vs[k], ById(vs[..k]));
      assert vs == vs[..k] + [vs[k]];
    }
  }

  lemma ByIdSorts(vs: seq<Variant>)
    ensures Sorted(ById(vs))
    ensures multiset(ById(vs)) == multiset(vs)
  {
    ByIdIsSorted(vs);
    ByIdPermutes(vs);
  }

  /** The variants with the given id, in list order. */
  function WithId(vs: seq<Variant>, id: int): seq<Variant> {
    if vs == [] then [] else (if vs[0].id == id then [vs[0]] else []) + WithId(vs[1..], id)
  }

  lemma WithIdCons(v: Variant, vs: seq<Variant>, id: int)
    ensures WithId([v] + vs, id) == (if v.id == id then [v] else []) + WithId(vs, id)
  {
    assert ([v] + vs)[1..] == vs;
  }

  lemma {:induction false} WithIdSnoc(vs: seq<Variant>, v: Variant, id: int)
    ensures WithId(vs + [v], id) == WithId(vs, id) + if v.id == id then [v] else []
    decreases |vs|
  {
    if vs == [] {
      assert vs + [v] == [v] + vs;
      WithIdCons(v, vs, id);
    } else {
      WithIdSnoc(vs[1..], v, id);
      WithIdCons(vs[0], vs[1..] + [v], id);
      assert vs + [v] == [vs[0]] + (vs[1..] + [v]);
    }
  }

  lemma {:induction false} NoneWithId(vs: seq<Variant>, id: int)
    requires forall i :: 0 <= i < |vs| ==> vs[i].id != id
    ensures WithId(vs, id) == []
    decreases |vs|
  {
    if vs != [] { NoneWithId(vs[1..], id); }
  }

  lemma {:induction false} InsertGoesLast(v: Variant, vs: seq<Variant>, id: int)
    requires Sorted(vs)
    ensures WithId(Insert(v, vs), id) == WithId(vs, id) + if v.id == id then [v] else []
    decreases |vs|
  {
    if vs == [] || v.id < vs[0].id {
      WithIdCons(v, vs, id);
      if v.id == id { NoneWithId(vs, id); }
    } else {
      InsertGoesLast(v, vs[1..], id);
      WithIdCons(vs[0], Insert(v, vs[1..]), id);
    }
  }

  lemma WithIdLast(vs: seq<Variant>, id: int)
    requires vs != []
    ensures var k := |vs| - 1; WithId(vs, id) == WithId(vs[..k], id) + if vs[k].id == id then [vs[k]] else []
  {
    hide WithId;
    var k := |vs| - 1;
    WithIdSnoc(vs[..k], vs[k], id);
    assert vs[..k] + [vs[k]] == vs;
  }

  /** Variants with the same id keep their order. */
  lemma {:induction false} ByIdIsStable(vs: seq<Variant>, id: int)
    ensures WithId(ById(vs), id) == WithId(vs, id)
    decreases |vs|
  {
    if vs != [] {
      hide WithId, Insert, Sorted;
      var k := |vs| - 1;
      ByIdIsStable(vs[..k], id);
      ByIdIsSorted(vs[..k]);
      InsertGoesLast(vs[k], ById(vs[..k]), id);
      WithIdLast(vs, id);
    }
  }

  // ----- the walk -----

  /** Weight of the first `k` variants. */
  function Weight(vs: seq<Variant>, k: nat): int
    requires k <= |vs|
  {
    if k == 0 then 0 else Weight(vs, k - 1) + vs[k - 1].trafficWeight
  }

  /** `x as u64`: a negative total wraps around. */
  function AsU64(x: int): int { if x >= 0 then x else x + TWO_64 }

  predicate Reached(vs: seq<Variant>, bucket: nat, k: nat)
    requires k < |vs|
  {
    bucket < AsU64(Weight(vs, k + 1) * 100)
  }

  /** Position of the chosen variant in id order: the first one reached, else the last. */
  function Choice(vs: seq<Variant>, bucket: nat, k: nat): (r: nat)
    requires k < |vs|
    ensures k <= r < |vs|
    ensures r < |vs| - 1 ==> Reached(vs, bucket, r)
    ensures forall i :: k <= i < r ==> !Reached(vs, bucket, i)
    decreases |vs| - k
  {
    if Reached(vs, bucket, k) || k == |vs| - 1 then k else Choice(vs, bucket, k + 1)
  }

  function Assign(bucket: nat, variants: seq<Variant>): Option<int> {
    if variants == [] then None
    else
      ByIdSorts(variants);
      var ordered := ById(variants);
      assert |ordered| == |multiset(ordered)| == |multiset(variants)| == |variants|;
      Some(ordered[Choice(ordered, bucket, 0)].id)
  }

  /** Insertion sort stands in for the library's stable sort of the copied list. */
  method SortById(variants: seq<Variant>) returns (ordered: seq<Variant>)
    ensures ordered == ById(variants)
  {
    ordered := [];
    for i := 0 to |variants|
      invariant ordered == ById(variants[..i])
    {
      ordered := Insert(variants[i], ordered);
      assert variants[..i + 1][..i] == variants[..i];
    }
    assert variants[..|variants|] == variants;
  }

  method AssignVariant(bucket: nat, variants: seq<Variant>) returns (r: Option<int>)
    ensures r == Assign(bucket, variants)
  {
    if variants == [] {
      return None;
    }
    var ordered := SortById(variants);
    ByIdSorts(variants);
    assert |ordered| == |multiset(ordered)| == |multiset(variants)| == |variants|;
    var cumulative := 0;
    for i := 0 to |ordered|
      invariant cumulative == Weight(ordered, i) * 100
      invariant forall k :: 0 <= k < i ==> !Reached(ordered, bucket, k)
    {
      cumulative := cumulative + ordered[i].trafficWeight * 100;
      if bucket < AsU64(cumulative) {
        FirstReached(ordered, bucket, i);
        return Some(ordered[i].id);
      }
    }
    LastResort(ordered, bucket);
    return Some(ordered[|ordered| - 1].id);
  }

  lemma FirstReached(vs: seq<Variant>, bucket: nat, i: nat)
    requires i < |vs| && Reached(vs, bucket, i)
    requires forall k :: 0 <= k < i ==> !Reached(vs, bucket, k)
    ensures Choice(vs, bucket, 0) == i
  {
  }

  lemma LastResort(vs: seq<Variant>, bucket: nat)
    requires vs != [] && forall k :: 0 <= k < |vs| ==> !Reached(vs, bucket, k)
    ensures Choice(vs, bucket, 0) == |vs| - 1
  {
  }

  // ----- the choice does not depend on list order -----

  lemma {:induction false} SortedIsUnique(a: seq<Variant>, b: seq<Variant>)
    requires Sorted(a) && Sorted(b) && DistinctIds(a) && multiset(a) == multiset(b)
    ensures a == b
    decreases |a|
  {
    assert |multiset(a)| == |a| && |multiset(b)| == |b|;
    if a != [] {
      assert a == [a[0]] + a[1..] && b == [b[0]] + b[1..];
      SameHead(a, b);
      SortedIsUnique(a[1..], b[1..]);
    }
  }

  lemma HeadIsLeast(a: seq<Variant>, v: Variant)
    requires Sorted(a) && v in a
    ensures a[0].id <= v.id
  {
  }

  lemma TailMultiset(a: seq<Variant>)
    requires a != []
    ensures multiset(a[1..]) == multiset(a) - multiset{a[0]}
  {
    assert a == [a[0]] + a[1..];
  }

  lemma SameHead(a: seq<Variant>, b: seq<Variant>)
    requires a != [] && b != []
    requires Sorted(a) && Sorted(b) && DistinctIds(a) && multiset(a) == multiset(b)
    ensures a[0] == b[0]
    ensures multiset(a[1..]) == multiset(b[1..])
  {
    hide *;
    assert a[0] in multiset(a) && b[0] in multiset(b);
    HeadIsLeast(a, b[0]);
    HeadIsLeast(b, a[0]);
    SameIdSameVariant(a, a[0], b[0]);
    TailMultiset(a);
    TailMultiset(b);
  }

  lemma SameIdSameVariant(a: seq<Variant>, v: Variant, w: Variant)
    requires DistinctIds(a) && v in a && w in a
    ensures v.id == w.id ==> v == w
  {
  }

  lemma RepeatsCountTwice(b: seq<Variant>, i: nat, j: nat)
    requires i < j < |b| && b[i] == b[j]
    ensures multiset(b)[b[i]] >= 2
  {
    assert b == b[..j] + [b[j]] + b[j + 1..];
    assert b[i] in b[..j];
  }

  /** Distinct ids stay distinct under any permutation. */
  lemma DistinctIsPermutable(a: seq<Variant>, b: seq<Variant>)
    requires DistinctIds(a) && multiset(a) == multiset(b)
    ensures DistinctIds(b)
  {
    forall i, j | 0 <= i < j < |b| ensures b[i].id != b[j].id {
      assert b[i] in multiset(b) && b[j] in multiset(b);
      SameIdSameVariant(a, b[i], b[j]);
      if b[i] == b[j] {
        RepeatsCountTwice(b, i, j);
        DistinctHasNoRepeats(a, b[i]);
      }
    }
  }

  lemma {:induction false} DistinctHasNoRepeats(a: seq<Variant>, v: Variant)
    requires DistinctIds(a)
    ensures multiset(a)[v] <= 1
    decreases |a|
  {
    if a != [] {
      assert a == [a[0]] + a[1..];
      DistinctHasNoRepeats(a[1..], v);
      if a[0] == v {
        assert v !in a[1..];
      }
    }
  }

  /** Reordering the variant list never changes anybody's variant. */
  lemma AssignIgnoresOrder(bucket: nat, a: seq<Variant>, b: seq<Variant>)
    requires DistinctIds(a) && multiset(a) == multiset(b)
    ensures Assign(bucket, a) == Assign(bucket, b)
  {
    ByIdSorts(a);
    ByIdSorts(b);
    DistinctIsPermutable(a, ById(a));
    SortedIsUnique(ById(a), ById(b));
    assert |multiset(a)| == |a| && |multiset(b)| == |b|;
  }

  // ----- how many buckets each variant gets -----

  predicate NonNegative(vs: seq<Variant>) {
    forall i :: 0 <= i < |vs| ==> 0 <= vs[i].trafficWeight
  }

  function Clamp(x: int): nat { if x < 0 then 0 else if x > BUCKETS then BUCKETS else x }

  /** Where variant `k`'s buckets begin; the last variant's run to the end. */
  function Start(vs: seq<Variant>, k: nat): nat
    requires k <= |vs|
  {
    if k == |vs| && k > 0 then BUCKETS else Clamp(Weight(vs, k) * 100)
  }

  lemma {:induction false} WeightGrows(vs: seq<Variant>, i: nat, j: nat)
    requires NonNegative(vs) && i <= j <= |vs|
    ensures 0 <= Weight(vs, i) <= Weight(vs, j)
    decreases j
  {
    if i < j {
      WeightGrows(vs, i, j - 1);
    } else if i > 0 {
      WeightGrows(vs, i - 1, i - 1);
    }
  }

  /** Variant `k` in id order is chosen on exactly one interval of buckets. */
  lemma ChoiceIsAnInterval(vs: seq<Variant>, bucket: nat, k: nat)
    requires NonNegative(vs) && k < |vs| && bucket < BUCKETS
    ensures Choice(vs, bucket, 0) == k <==> Start(vs, k) <= bucket < Start(vs, k + 1)
  {
    var c := Choice(vs, bucket, 0);
    forall i, j | 0 <= i <= j <= |vs| ensures 0 <= Weight(vs, i) <= Weight(vs, j) {
      WeightGrows(vs, i, j);
    }
    if c < k {
      assert Reached(vs, bucket, c) && Weight(vs, c + 1) <= Weight(vs, k);
    } else if c > k {
      assert !Reached(vs, bucket, k);
    } else if k > 0 {
      assert !Reached(vs, bucket, k - 1);
    }
  }

  /**
    A negative running total wraps around to a huge one, so the first variant in id order at which
    it is negative takes every bucket that no earlier one took.
   */
  lemma NegativeTotalTakesTheRest(vs: seq<Variant>, bucket: nat, k: nat)
    requires k < |vs| && bucket < 10_000 && -0x8000_0000_0000_0000 <= Weight(vs, k + 1) * 100 < 0
    requires forall i :: 0 < i <= k ==> 0 <= Weight(vs, i) * 100 <= bucket
    ensures Choice(vs, bucket, 0) == k
  {
    assert Reached(vs, bucket, k);
    forall i | 0 <= i < k ensures !Reached(vs, bucket, i) {
      assert 0 <= Weight(vs, i + 1) * 100 <= bucket;
    }
    FirstReached(vs, bucket, k);
  }

  function BucketsOf(vs: seq<Variant>, id: int): set<nat> {
    set b: nat | b < BUCKETS && Assign(b, vs) == Some(id)
  }

  function Interval(lo: nat, hi: nat): (r: set<nat>)
    ensures forall b: nat :: b in r <==> lo <= b < hi
    ensures |r| == if lo <= hi then hi - lo else 0
  {
    if hi <= lo then {} else Interval(lo, hi - 1) + {hi - 1}
  }

  /**
    For non-negative weights and distinct ids, the variant at position `k` of the id order gets
    the buckets between its neighbours' clamped cumulative weights, and the last one everything
    that is left.
   */
  lemma BucketShare(vs: seq<Variant>, k: nat)
    requires NonNegative(vs) && DistinctIds(vs) && k < |vs|
    ensures |ById(vs)| == |vs|
    ensures Start(ById(vs), k) <= Start(ById(vs), k + 1)
    ensures BucketsOf(vs, ById(vs)[k].id) == Interval(Start(ById(vs), k), Start(ById(vs), k + 1))
    ensures |BucketsOf(vs, ById(vs)[k].id)| == Start(ById(vs), k + 1) - Start(ById(vs), k)
  {
    var o := ById(vs);
    ByIdSorts(vs);
    assert |multiset(o)| == |o| && |multiset(vs)| == |vs|;
    DistinctIsPermutable(vs, o);
    ByIdNonNegative(vs);
    WeightGrows(o, k, k + 1);
    WeightGrows(o, 0, k);
    forall b: nat | b < BUCKETS
      ensures Assign(b, vs) == Some(o[k].id) <==> Start(o, k) <= b < Start(o, k + 1)
    {
      ChoiceIsAnInterval(o, b, k);
    }
    assert BucketsOf(vs, o[k].id) == Interval(Start(o, k), Start(o, k + 1));
  }

  lemma ByIdNonNegative(vs: seq<Variant>)
    requires NonNegative(vs)
    ensures NonNegative(ById(vs))
  {
    ByIdSorts(vs);
    forall i | 0 <= i < |ById(vs)| ensures 0 <= ById(vs)[i].trafficWeight {
      assert ById(vs)[i] in multiset(vs);
    }
  }

  lemma StartIsExact(o: seq<Variant>, k: nat)
    requires NonNegative(o) && 0 < |o| && k <= |o| && Weight(o, |o|) <= 100
    ensures Start(o, k) == if k == |o| then BUCKETS else Weight(o, k) * 100
  {
    WeightGrows(o, k, |o|);
  }

  /** The total does not depend on the order, so it can be read off the input list. */
  lemma {:induction false} TotalWeight(vs: seq<Variant>)
    ensures |ById(vs)| == |vs| && Weight(ById(vs), |vs|) == Weight(vs, |vs|)
    decreases |vs|
  {
    if vs != [] {
      var k := |vs| - 1;
      TotalWeight(vs[..k]);
      InsertWeight(vs[k], ById(vs[..k]));
      WeightOfPrefix(vs, k, k);
    }
  }

  lemma {:induction false} WeightOfPrefix(vs: seq<Variant>, n: nat, k: nat)
    requires k <= n <= |vs|
    ensures Weight(vs[..n], k) == Weight(vs, k)
    decreases k
  {
    if k > 0 { WeightOfPrefix(vs, n, k - 1); }
  }

  lemma {:induction false} WeightOfTail(vs: seq<Variant>, k: nat)
    requires 0 < k <= |vs|
    ensures Weight(vs, k) == vs[0].trafficWeight + Weight(vs[1..], k - 1)
    decreases k
  {
    if k > 1 { WeightOfTail(vs, k - 1); }
  }

  lemma {:induction false} InsertWeight(v: Variant, vs: seq<Variant>)
    ensures |Insert(v, vs)| == |vs| + 1
    ensures Weight(Insert(v, vs), |vs| + 1) == v.trafficWeight + Weight(vs, |vs|)
    decreases |vs|
  {
    var r := Insert(v, vs);
    if vs == [] || v.id < vs[0].id {
      WeightOfTail(r, |vs| + 1);
      assert r[1..] == vs;
    } else {
      InsertWeight(v, vs[1..]);
      WeightOfTail(r, |vs| + 1);
      WeightOfTail(vs, |vs|);
      assert r[1..] == Insert(v, vs[1..]);
    }
  }

  lemma Shares(o: seq<Variant>, k: nat)
    requires NonNegative(o) && k < |o| && Weight(o, |o|) <= 100
    ensures k < |o| - 1 ==> Start(o, k + 1) - Start(o, k) == 100 * o[k].trafficWeight
    ensures k == |o| - 1 ==> Start(o, k + 1) - Start(o, k) == BUCKETS - 100 * Weight(o, k)
    ensures k == |o| - 1 && Weight(o, |o|) == 100 ==> Start(o, k + 1) - Start(o, k) == 100 * o[k].trafficWeight
  {
    hide Start, NonNegative;
    StartIsExact(o, k);
    StartIsExact(o, k + 1);
    assert Weight(o, k + 1) == Weight(o, k) + o[k].trafficWeight;
  }

  /**
    Weights up to 100 per cent: every variant but the highest id gets exactly 100 buckets per
    point of weight; the highest id gets the remainder, hence also exactly its weight when the
    total is 100.
   */
  lemma ExactSplit(vs: seq<Variant>, k: nat)
    requires NonNegative(vs) && DistinctIds(vs) && k < |vs|
    requires Weight(vs, |vs|) <= 100
    ensures |ById(vs)| == |vs|
    ensures k < |vs| - 1 ==> |BucketsOf(vs, ById(vs)[k].id)| == 100 * ById(vs)[k].trafficWeight
    ensures k == |vs| - 1 ==>
      |BucketsOf(vs, ById(vs)[k].id)| == BUCKETS - 100 * Weight(ById(vs), k)
    ensures Weight(vs, |vs|) == 100 ==>
      |BucketsOf(vs, ById(vs)[k].id)| == 100 * ById(vs)[k].trafficWeight
  {
    hide ById, BucketsOf, Start, NonNegative, DistinctIds, Weight;
    TotalWeight(vs);
    BucketShare(vs, k);
    ByIdNonNegative(vs);
    Shares(ById(vs), k);
  }
}
