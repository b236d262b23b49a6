/** Audience rules: AND-combined, meant to fail closed, with version-aware comparison. */
module Audiences {
  import opened Wrappers
  import opened Inference

  datatype Ordering = Less | Equal | Greater

  datatype Rule = Rule(field: string, op: string, value: Option<Json>)

  datatype Context = Context(country: Option<string>, appVersion: Option<string>,
                             isExistingSubscriber: bool, attributes: Json)

  /**
    Floating-point comparison where both sides parse as numbers (`Some(None)` for a NaN), and the
    order of the JSON texts; both are only called.
   */
  datatype Primitives = Primitives(numeric: (Json, Json) -> Option<Option<Ordering>>, textual: (Json, Json) -> Ordering)

  // ----- versions -----

  function Split(s: string): (r: seq<string>)
    ensures |r| > 0
  {
    if s == "" then [""]
    else
      var rest := Split(s[1..]);
      if s[0] == '.' then [""] + rest else [[s[0]] + rest[0]] + rest[1..]
  }

  function Digits(s: string): nat {
    if s == "" then 0
    else
      var c := s[|s| - 1];
      10 * Digits(s[..|s| - 1]) + if '0' <= c <= '9' then c as int - '0' as int else 0
  }

  /** Rust's `u64` parser: an optional plus sign, at least one digit, no overflow; anything else counts as 0. */
  function Segment(s: string): nat {
    var t := if s != "" && s[0] == '+' then s[1..] else s;
    if t != "" && (forall c :: c in t ==> '0' <= c <= '9') && Digits(t) < 0x1_0000_0000_0000_0000
    then Digits(t) else 0
  }

  function Segments(s: string): (r: seq<nat>)
    ensures |r| > 0
  {
    seq(|Split(s)|, i requires 0 <= i < |Split(s)| => Segment(Split(s)[i]))
  }

  /** Lexicographic, a proper prefix being smaller. */
  function CompareLists(a: seq<nat>, b: seq<nat>): Ordering {
    if a == [] then if b == [] then Equal else Less
    else if b == [] then Greater
    else if a[0] < b[0] then Less
    else if a[0] > b[0] then Greater
    else CompareLists(a[1..], b[1..])
  }

  function CompareSemverish(left: string, right: string): Ordering {
    CompareLists(Segments(left), Segments(right))
  }

  function Flip(o: Ordering): Ordering {
    match o
    case Less => Greater
    case Equal => Equal
    case Greater => Less
  }

  lemma {:induction false} ListsAreTotallyOrdered(a: seq<nat>, b: seq<nat>, c: seq<nat>)
    ensures CompareLists(b, a) == Flip(CompareLists(a, b))
    ensures CompareLists(a, b) == Equal <==> a == b
    ensures CompareLists(a, b) != Greater && CompareLists(b, c) != Greater ==> CompareLists(a, c) != Greater
    ensures CompareLists(a, b) == Less && CompareLists(b, c) != Greater ==> CompareLists(a, c) == Less
    decreases |a|
  {
    if a != [] && b != [] {
      assert a == [a[0]] + a[1..] && b == [b[0]] + b[1..];
      ListsAreTotallyOrdered(a[1..], b[1..], if c != [] then c[1..] else []);
    }
  }

  /** A total order on versions; two texts compare equal exactly when their segments do. */
  lemma VersionsAreTotallyOrdered(a: string, b: string, c: string)
    ensures CompareSemverish(b, a) == Flip(CompareSemverish(a, b))
    ensures CompareSemverish(a, b) == Equal <==> Segments(a) == Segments(b)
    ensures CompareSemverish(a, b) != Greater && CompareSemverish(b, c) != Greater ==> CompareSemverish(a, c) != Greater
  {
    ListsAreTotallyOrdered(Segments(a), Segments(b), Segments(c));
  }

  lemma {:induction false} PrefixIsLess(a: seq<nat>, more: seq<nat>)
    requires more != []
    ensures CompareLists(a, a + more) == Less
    decreases |a|
  {
    if a == [] {
      assert a + more == more;
    } else {
      assert (a + more)[1..] == a[1..] + more;
      PrefixIsLess(a[1..], more);
    }
  }

  lemma {:induction false} SplitConcat(a: string, b: string)
    ensures Split(a + "." + b) == Split(a) + Split(b)
    decreases |a|
  {
    var s := a + "." + b;
    if a == "" {
      assert s[1..] == b;
    } else {
      assert s[1..] == a[1..] + "." + b;
      SplitConcat(a[1..], b);
    }
  }

  lemma SegmentsConcat(a: string, b: string)
    ensures Segments(a + "." + b) == Segments(a) + Segments(b)
  {
    SplitConcat(a, b);
  }

  /** "1.2" is older than "1.2.0": a further segment always makes a version newer. */
  lemma MoreSegmentsAreNewer(a: string, b: string)
    ensures CompareSemverish(a, a + "." + b) == Less
  {
    SegmentsConcat(a, b);
    PrefixIsLess(Segments(a), Segments(b));
  }

  /** The first segment that differs decides, and the larger number is the newer version. */
  lemma {:induction false} FirstDifferenceDecides(a: seq<nat>, b: seq<nat>, i: nat)
    requires i < |a| && i < |b| && a[..i] == b[..i] && a[i] < b[i]
    ensures CompareLists(a, b) == Less && CompareLists(b, a) == Greater
    decreases i
  {
    if i > 0 {
      assert a[0] == a[..i][0] && b[0] == b[..i][0];
      assert a[1..][..i - 1] == a[..i][1..] && b[1..][..i - 1] == b[..i][1..];
      FirstDifferenceDecides(a[1..], b[1..], i - 1);
    }
  }

  // ----- versions as they are written -----

  function Digit(n: nat): (c: char)
    requires n < 10
    ensures '0' <= c <= '9' && c as int - '0' as int == n
  {
    ('0' as int + n) as char
  }

  function Decimal(n: nat): (s: string)
    ensures s != ""
  {
    if n < 10 then [Digit(n)] else Decimal(n / 10) + [Digit(n % 10)]
  }

  lemma {:induction false} DecimalIsRead(n: nat)
    ensures Digits(Decimal(n)) == n
    ensures forall c :: c in Decimal(n) ==> '0' <= c <= '9'
    decreases n
  {
    if n >= 10 {
      DecimalIsRead(n / 10);
      var s := Decimal(n);
      assert s[..|s| - 1] == Decimal(n / 10);
    } else {
      assert Decimal(n)[..0] == "";
    }
  }

  /** Numbers joined by dots. */
  function Dotted(numbers: seq<nat>): string
    requires numbers != []
  {
    if |numbers| == 1 then Decimal(numbers[0]) else Decimal(numbers[0]) + "." + Dotted(numbers[1..])
  }

  lemma {:induction false} NoDotNoSplit(s: string)
    requires '.' !in s
    ensures Split(s) == [s]
    decreases |s|
  {
    if s != "" {
      NoDotNoSplit(s[1..]);
      assert s == [s[0]] + s[1..];
    }
  }

  lemma DecimalSegment(n: nat)
    requires n < 0x1_0000_0000_0000_0000
    ensures Segments(Decimal(n)) == [n]
  {
    DecimalIsRead(n);
    assert Decimal(n)[0] in Decimal(n);
    NoDotNoSplit(Decimal(n));
  }

  lemma {:induction false} DottedIsRead(numbers: seq<nat>)
    requires numbers != [] && forall i :: 0 <= i < |numbers| ==> numbers[i] < 0x1_0000_0000_0000_0000
    ensures Segments(Dotted(numbers)) == numbers
    decreases |numbers|
  {
    hide Segments, Decimal;
    DecimalSegment(numbers[0]);
    if |numbers| == 1 {
      assert numbers == [numbers[0]];
    } else {
      DottedIsRead(numbers[1..]);
      SegmentsConcat(Decimal(numbers[0]), Dotted(numbers[1..]));
      assert numbers == [numbers[0]] + numbers[1..];
    }
  }

  /** Versions written as numbers compare number by number: 1.9 is older than 1.10. */
  lemma WrittenVersionsCompare(a: seq<nat>, b: seq<nat>)
    requires a != [] && forall i :: 0 <= i < |a| ==> a[i] < 0x1_0000_0000_0000_0000
    requires b != [] && forall i :: 0 <= i < |b| ==> b[i] < 0x1_0000_0000_0000_0000
    ensures CompareSemverish(Dotted(a), Dotted(b)) == CompareLists(a, b)
  {
    DottedIsRead(a);
    DottedIsRead(b);
  }

  /** Text that is no number, and a number that does not fit, count as zero; a leading plus is skipped. */
  lemma OddSegments(n: nat, s: string, c: char)
    ensures n >= 0x1_0000_0000_0000_0000 ==> Segment(Decimal(n)) == 0
    ensures n < 0x1_0000_0000_0000_0000 ==> Segment("+" + Decimal(n)) == n
    ensures !('0' <= c <= '9') ==> Segment(s + [c]) == 0
    ensures Segment("") == 0 && Segment("+") == 0
  {
    DecimalIsRead(n);
    assert Decimal(n)[0] in Decimal(n);
    assert ("+" + Decimal(n))[1..] == Decimal(n);
    if !('0' <= c <= '9') {
      var t := s + [c];
      assert t[|t| - 1] == c;
      assert |t| > 1 ==> t[1..][|t[1..]| - 1] == c;
    }
  }

  // ----- rules -----

  function Lookup(fields: seq<(string, Json)>, key: string): Option<Json> {
    if fields == [] then None
    else if fields[0].0 == key then Some(fields[0].1)
    else Lookup(fields[1..], key)
  }

  function Attribute(ctx: Context, key: string): Option<Json> {
    if ctx.attributes.Obj? then Lookup(ctx.attributes.fields, key) else None
  }

  const PREFIX := "attributes."

  function FieldValue(field: string, ctx: Context): Option<Json> {
    if field == "country" then (if ctx.country.Some? then Some(Str(ctx.country.value)) else None)
    else if field == "app_version" then (if ctx.appVersion.Some? then Some(Str(ctx.appVersion.value)) else None)
    else if field == "is_existing_subscriber" then Some(Bool(ctx.isExistingSubscriber))
    else if PREFIX <= field then Attribute(ctx, field[|PREFIX|..])
    else None
  }

  predicate FieldExists(field: string, ctx: Context) {
    if PREFIX <= field then Attribute(ctx, field[|PREFIX|..]).Some? else FieldValue(field, ctx).Some?
  }

  predicate InArray(actual: Json, value: Option<Json>) {
    value.Some? && value.value.Arr? && actual in value.value.elements
  }

  function CompareValues(prim: Primitives, left: Json, right: Option<Json>): Option<Ordering> {
    if right.None? then None
    else if prim.numeric(left, right.value).Some? then prim.numeric(left, right.value).value
    else if left.Str? && right.value.Str? then Some(CompareSemverish(left.s, right.value.s))
    else Some(prim.textual(left, right.value))
  }

  predicate EvalRule(prim: Primitives, rule: Rule, ctx: Context) {
    if rule.op == "exists" then FieldExists(rule.field, ctx)
    else
      var actual := FieldValue(rule.field, ctx);
      actual.Some? &&
      var ord := CompareValues(prim, actual.value, rule.value);
      if rule.op == "eq" then rule.value == actual
      else if rule.op == "neq" then rule.value != actual
      else if rule.op == "gt" then ord == Some(Greater)
      else if rule.op == "gte" then ord == Some(Greater) || ord == Some(Equal)
      else if rule.op == "lt" then ord == Some(Less)
      else if rule.op == "lte" then ord == Some(Less) || ord == Some(Equal)
      else if rule.op == "in" then InArray(actual.value, rule.value)
      else if rule.op == "not_in" then !InArray(actual.value, rule.value)
      else false
  }

  /** `rules` is absent when the stored JSON does not parse as a rule list. */
  predicate IsEligible(prim: Primitives, rules: Option<seq<Rule>>, ctx: Context) {
    rules.Some? && forall r :: r in rules.value ==> EvalRule(prim, r, ctx)
  }

  /** An attribute field reads the attribute of that name, and nothing if there is none. */
  lemma {:induction false} LookupFinds(fields: seq<(string, Json)>, key: string)
    ensures Lookup(fields, key).None? <==> forall f :: f in fields ==> f.0 != key
    ensures Lookup(fields, key).Some? ==> (key, Lookup(fields, key).value) in fields
    decreases |fields|
  {
    if fields != [] {
      LookupFinds(fields[1..], key);
      assert forall f :: f in fields <==> f == fields[0] || f in fields[1..];
    }
  }

  lemma AttributeFields(ctx: Context, key: string)
    ensures ctx.attributes.Obj? ==>
      && (FieldValue("attributes." + key, ctx).None? <==> forall f :: f in ctx.attributes.fields ==> f.0 != key)
      && (FieldValue("attributes." + key, ctx).Some? ==>
            (key, FieldValue("attributes." + key, ctx).value) in ctx.attributes.fields)
    ensures !ctx.attributes.Obj? ==> FieldValue("attributes." + key, ctx).None?
  {
    var field := "attributes." + key;
    assert field[0] == 'a' && field[1] == 't' && field[|PREFIX|..] == key;
    if ctx.attributes.Obj? { LookupFinds(ctx.attributes.fields, key); }
  }

  /** Values that both are numbers compare as numbers under the ordering operators, and not at all with a NaN. */
  lemma NumbersCompareAsNumbers(prim: Primitives, r: Rule, ctx: Context, v: Json, w: Json)
    requires FieldValue(r.field, ctx) == Some(v) && r.value == Some(w) && prim.numeric(v, w).Some?
    ensures var o := prim.numeric(v, w).value;
      && (r.op == "gt" ==> (EvalRule(prim, r, ctx) <==> o == Some(Greater)))
      && (r.op == "gte" ==> (EvalRule(prim, r, ctx) <==> o == Some(Greater) || o == Some(Equal)))
      && (r.op == "lt" ==> (EvalRule(prim, r, ctx) <==> o == Some(Less)))
      && (r.op == "lte" ==> (EvalRule(prim, r, ctx) <==> o == Some(Less) || o == Some(Equal)))
  {
  }

  /** Rules are combined by "and"; no rules admit everybody, and a list that cannot be read admits nobody. */
  lemma RulesAreCombined(prim: Primitives, a: seq<Rule>, b: seq<Rule>, r: Rule, ctx: Context)
    ensures IsEligible(prim, Some([]), ctx) && !IsEligible(prim, None, ctx)
    ensures IsEligible(prim, Some(a + b), ctx) <==> IsEligible(prim, Some(a), ctx) && IsEligible(prim, Some(b), ctx)
    ensures IsEligible(prim, Some([r]), ctx) <==> EvalRule(prim, r, ctx)
  {
    hide EvalRule;
    assert r in [r];
    assert forall x :: x in a + b <==> x in a || x in b;
  }

  /** Matching operators in plain terms, for a field that the context has. */
  lemma MatchingMeans(prim: Primitives, r: Rule, ctx: Context, v: Json)
    requires FieldValue(r.field, ctx) == Some(v)
    ensures r.op == "eq" ==> (EvalRule(prim, r, ctx) <==> r.value == Some(v))
    ensures r.op == "neq" ==> (EvalRule(prim, r, ctx) <==> r.value != Some(v))
    ensures r.op == "in" ==> (EvalRule(prim, r, ctx) <==> r.value.Some? && r.value.value.Arr? && v in r.value.value.elements)
    ensures r.op == "not_in" ==>
      (EvalRule(prim, r, ctx) <==> !(r.value.Some? && r.value.value.Arr? && v in r.value.value.elements))
    ensures r.op == "exists" ==> EvalRule(prim, r, ctx)
  {
    hide CompareValues;
    ExistsMeansPresent(r.field, ctx);
  }

  const OPERATORS: set<string> := {"exists", "eq", "neq", "gt", "gte", "lt", "lte", "in", "not_in"}

  lemma ExistsMeansPresent(field: string, ctx: Context)
    ensures FieldExists(field, ctx) <==> FieldValue(field, ctx).Some?
  {
    assert PREFIX[0] == 'a' && PREFIX[1] == 't';
    if PREFIX <= field {
      assert field[0] == 'a' && field[1] == 't';
      assert field != "country" && field != "app_version" && field != "is_existing_subscriber";
    }
  }

  /** No one gets past a rule with an unknown operator or a field the context does not have. */
  lemma TyposFailClosed(prim: Primitives, rules: Option<seq<Rule>>, ctx: Context, r: Rule)
    requires IsEligible(prim, rules, ctx) && r in rules.value
    ensures r.op in OPERATORS && FieldValue(r.field, ctx).Some?
  {
    assert EvalRule(prim, r, ctx);
    ExistsMeansPresent(r.field, ctx);
  }

  // ----- values that do not fit the field -----

  /** Some context gives the field that value. */
  predicate Possible(field: string, v: Json) {
    if field == "country" || field == "app_version" then v.Str?
    else if field == "is_existing_subscriber" then v.Bool?
    else PREFIX <= field
  }

  /** A context that does. */
  function ContextWith(field: string, v: Json): Context
    requires Possible(field, v)
  {
    if field == "country" then Context(Some(v.s), None, false, JsonNull)
    else if field == "app_version" then Context(None, Some(v.s), false, JsonNull)
    else if field == "is_existing_subscriber" then Context(None, None, v.b, JsonNull)
    else Context(None, None, false, Obj([(field[|PREFIX|..], v)]))
  }

  lemma PossibleMeans(field: string, v: Json, ctx: Context)
    ensures FieldValue(field, ctx) == Some(v) ==> Possible(field, v)
    ensures Possible(field, v) ==> FieldValue(field, ContextWith(field, v)) == Some(v)
  {
  }

  /** The value is missing, is no list where a list is asked for, or has a type the field never has. */
  predicate Misfit(r: Rule) {
    || r.value.None?
    || (r.op in {"in", "not_in"} && !r.value.value.Arr?)
    || (r.op in {"eq", "neq"} && !Possible(r.field, r.value.value))
  }

  /**
    A misfit value does not fail closed: such a rule passes exactly for a present field and the
    three operators that do not ask for a match.
   */
  lemma MisfitValue(prim: Primitives, r: Rule, ctx: Context)
    requires Misfit(r)
    ensures EvalRule(prim, r, ctx) <==> FieldValue(r.field, ctx).Some? && r.op in {"exists", "neq", "not_in"}
  {
    ExistsMeansPresent(r.field, ctx);
    if FieldValue(r.field, ctx).Some? { PossibleMeans(r.field, FieldValue(r.field, ctx).value, ctx); }
  }

  /** The rule names no value that the field can have. */
  predicate Unmatchable(r: Rule) {
    || r.value.None?
    || if r.op in {"in", "not_in"}
       then !r.value.value.Arr? || forall e :: e in r.value.value.elements ==> !Possible(r.field, e)
       else !Possible(r.field, r.value.value)
  }

  /**
    Asking for a match fails closed, admitting nobody, and asking for no match opens up, admitting
    everybody who has the field, both exactly when the rule names no value the field can have.
   */
  lemma UnmatchableRules(prim: Primitives, r: Rule)
    ensures r.op in {"eq", "in"} ==>
      ((forall ctx :: !EvalRule(prim, r, ctx)) <==> Unmatchable(r))
    ensures r.op in {"neq", "not_in"} ==>
      ((forall ctx :: FieldValue(r.field, ctx).Some? ==> EvalRule(prim, r, ctx)) <==> Unmatchable(r))
  {
    hide CompareValues, FieldValue, FieldExists, Possible, ContextWith;
    if r.op in {"eq", "in", "neq", "not_in"} {
      forall ctx | FieldValue(r.field, ctx).Some? ensures Possible(r.field, FieldValue(r.field, ctx).value) {
        PossibleMeans(r.field, FieldValue(r.field, ctx).value, ctx);
      }
      if !Unmatchable(r) {
        var v := NamedValue(r);
        var ctx := ContextWith(r.field, v);
        PossibleMeans(r.field, v, ctx);
        assert EvalRule(prim, r, ctx) <==> r.op in {"eq", "in"};
      }
    }
  }

  /** A value the rule names and the field can have. */
  lemma NamedValue(r: Rule) returns (v: Json)
    requires !Unmatchable(r)
    ensures r.value.Some? && Possible(r.field, v)
    ensures if r.op in {"in", "not_in"} then r.value.value.Arr? && v in r.value.value.elements else v == r.value.value
  {
    if r.op in {"in", "not_in"} {
      v :| v in r.value.value.elements && Possible(r.field, v);
    } else {
      v := r.value.value;
    }
  }

  /** The order of the first characters of JSON texts: a quote, a digit or minus, a bracket, f, n, t, a brace. */
  function Opening(v: Json): nat {
    match v
    case Str(_) => 0
    case Num(_) => 1
    case Arr(_) => 2
    case Bool(b) => if b then 5 else 3
    case JsonNull => 4
    case Obj(_) => 6
  }

  ghost predicate OrdersByOpening(prim: Primitives) {
    forall v, w ::
      && (Opening(v) < Opening(w) ==> prim.textual(v, w) == Less)
      && (Opening(v) > Opening(w) ==> prim.textual(v, w) == Greater)
  }

  /**
    A value of a type that the field never has is compared by its JSON text, so an ordering rule
    admits everybody who has the field or nobody: with a boolean field and no object everybody is
    greater, else everybody is less.  (A null in the rule is read as no value.)
   */
  lemma MisfitOrdering(prim: Primitives, r: Rule, ctx: Context)
    requires OrdersByOpening(prim) && r.op in {"gt", "gte", "lt", "lte"}
    requires r.field in {"country", "app_version", "is_existing_subscriber"}
    requires r.value.Some? && !r.value.value.JsonNull? && !Possible(r.field, r.value.value)
    requires FieldValue(r.field, ctx).Some? ==> prim.numeric(FieldValue(r.field, ctx).value, r.value.value).None?
    ensures var greater := r.field == "is_existing_subscriber" && !r.value.value.Obj?;
      var passing := if greater then {"gt", "gte"} else {"lt", "lte"};
      EvalRule(prim, r, ctx) <==> FieldValue(r.field, ctx).Some? && r.op in passing
  {
    hide FieldExists;
    if FieldValue(r.field, ctx).Some? {
      var v := FieldValue(r.field, ctx).value;
      assert v.Str? || v.Bool?;
      assert Opening(v) != Opening(r.value.value);
    }
  }

  /** Two such slips: a list without its brackets, and a boolean in quotes. */
  lemma SlipsAdmitEverybody(prim: Primitives, ctx: Context)
    ensures var bare := Rule("country", "not_in", Some(Str("US")));
      IsEligible(prim, Some([bare]), ctx) <==> ctx.country.Some?
    ensures IsEligible(prim, Some([Rule("is_existing_subscriber", "neq", Some(Str("true")))]), ctx)
  {
    var bare, quoted := Rule("country", "not_in", Some(Str("US"))), Rule("is_existing_subscriber", "neq", Some(Str("true")));
    MisfitValue(prim, bare, ctx);
    MisfitValue(prim, quoted, ctx);
    assert bare in [bare] && quoted in [quoted];
  }

  /** On version texts the four comparison operators are those of one total order. */
  lemma VersionOperatorsAgree(prim: Primitives, field: string, ctx: Context, v: string, w: string)
    requires FieldValue(field, ctx) == Some(Str(v)) && prim.numeric(Str(v), Str(w)).None?
    ensures var passes := (op: string) => EvalRule(prim, Rule(field, op, Some(Str(w))), ctx);
      && (passes("gte") <==> !passes("lt"))
      && (passes("lte") <==> !passes("gt"))
      && (passes("gte") && passes("lte") <==> Segments(v) == Segments(w))
      && (passes("lt") <==> CompareSemverish(w, v) == Greater)
  {
    hide CompareLists, Segments;
    ListsAreTotallyOrdered(Segments(v), Segments(w), []);
  }
}
