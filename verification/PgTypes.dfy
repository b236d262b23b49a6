/** Column types, promotion between them, and their join. */
module PgTypes {

  datatype PgType =
    | BigInt | DoublePrecision | Boolean | Text | Jsonb | Bytea | Null | Date | TimestampTz | Uuid

  predicate CanPromoteTo(a: PgType, b: PgType) {
    match (a, b)
    case (BigInt, DoublePrecision) => true
    case (Date, TimestampTz) => true
    case (_, Jsonb) => true
    case (_, Text) => true
    case (Null, _) => true
    case _ => a == b
  }

  function CommonType(a: PgType, b: PgType): PgType {
    if a == b then a
    else
      match (a, b)
      case (Null, other) => other
      case (other, Null) => other
      case (BigInt, DoublePrecision) => DoublePrecision
      case (DoublePrecision, BigInt) => DoublePrecision
      case (Date, TimestampTz) => TimestampTz
      case (TimestampTz, Date) => TimestampTz
      case _ => Jsonb
  }

  /** The order of the join. */
  predicate Below(a: PgType, b: PgType) { CommonType(a, b) == b }

  /** Strictly increasing along `Below`, from 0 (no value seen) to 3 (anything goes). */
  function Rank(a: PgType): nat {
    match a
    case Null => 0
    case BigInt => 1
    case Date => 1
    case Jsonb => 3
    case _ => 2
  }

  /** TEXT and JSONB promote to each other; no other two types do. */
  lemma OnlyTextAndJsonbAreEquivalent(a: PgType, b: PgType)
    ensures a != b && CanPromoteTo(a, b) && CanPromoteTo(b, a)
      <==> (a, b) == (Text, Jsonb) || (a, b) == (Jsonb, Text)
  {
  }

  /** The widest type of the family `a` belongs to; two families only meet in JSONB. */
  function Widest(a: PgType): PgType {
    match a
    case BigInt => DoublePrecision
    case Date => TimestampTz
    case _ => a
  }

  lemma CommonTypeByFamily(a: PgType, b: PgType)
    ensures CommonType(a, b) ==
      if a == Null || a == b then b
      else if b == Null then a
      else if Widest(a) == Widest(b) then Widest(a)
      else Jsonb
    ensures Widest(Widest(a)) == Widest(a) && Widest(Jsonb) == Jsonb
    ensures a != Null ==> Widest(a) != Null
  {
  }

  lemma CommonTypeIsAssociative(a: PgType, b: PgType, c: PgType)
    ensures CommonType(a, CommonType(b, c)) == CommonType(CommonType(a, b), c)
  {
    hide CommonType, Widest;
    CommonTypeByFamily(a, b);
    CommonTypeByFamily(b, c);
    CommonTypeByFamily(a, CommonType(b, c));
    CommonTypeByFamily(CommonType(a, b), c);
  }

  lemma CommonTypeLaws(a: PgType, b: PgType)
    ensures CommonType(a, b) == CommonType(b, a)
    ensures CommonType(a, a) == a == CommonType(Null, a)
  {
  }

  /** Promotion is the join's order plus one extra rule: everything fits into TEXT. */
  lemma PromotionVersusJoin(a: PgType, b: PgType)
    ensures CanPromoteTo(a, b) <==> Below(a, b) || b == Text
  {
  }

  lemma BelowIsAnOrder(a: PgType, b: PgType, c: PgType)
    ensures Below(a, a)
    ensures Below(a, b) && Below(b, c) ==> Below(a, c)
    ensures Below(a, b) && Below(b, a) ==> a == b
  {
    CommonTypeIsAssociative(a, b, c);
    CommonTypeLaws(a, b);
  }

  lemma CommonTypeIsTheJoin(a: PgType, b: PgType, c: PgType)
    ensures Below(a, CommonType(a, b)) && Below(b, CommonType(a, b))
    ensures Below(a, c) && Below(b, c) ==> Below(CommonType(a, b), c)
  {
    CommonTypeIsAssociative(a, a, b);
    CommonTypeIsAssociative(b, b, a);
    CommonTypeIsAssociative(a, b, c);
    CommonTypeLaws(a, b);
    CommonTypeLaws(b, a);
  }

  /** A least upper bound for promotion, up to the TEXT/JSONB equivalence. */
  lemma CommonTypeIsLeastUpperBound(a: PgType, b: PgType, c: PgType)
    ensures CanPromoteTo(a, CommonType(a, b)) && CanPromoteTo(b, CommonType(a, b))
    ensures CanPromoteTo(a, c) && CanPromoteTo(b, c) ==> CanPromoteTo(CommonType(a, b), c)
  {
    hide CanPromoteTo, CommonType;
    PromotionVersusJoin(a, CommonType(a, b));
    PromotionVersusJoin(b, CommonType(a, b));
    PromotionVersusJoin(a, c);
    PromotionVersusJoin(b, c);
    PromotionVersusJoin(CommonType(a, b), c);
    CommonTypeIsTheJoin(a, b, c);
  }

  lemma AboveText(a: PgType)
    ensures Below(a, Jsonb)
    ensures Below(Text, a) ==> a == Text || a == Jsonb
  {
  }

  lemma PromotionIsAPreorder(a: PgType, b: PgType, c: PgType)
    ensures CanPromoteTo(a, a)
    ensures CanPromoteTo(a, b) && CanPromoteTo(b, c) ==> CanPromoteTo(a, c)
  {
    hide CanPromoteTo, Below;
    PromotionVersusJoin(a, a);
    PromotionVersusJoin(a, b);
    PromotionVersusJoin(b, c);
    PromotionVersusJoin(a, c);
    BelowIsAnOrder(a, b, c);
    AboveText(a);
    AboveText(c);
  }

  lemma ClimbingRaisesRank(a: PgType, b: PgType)
    ensures Below(a, b) && a != b ==> Rank(a) < Rank(b) <= 3
  {
  }
}
