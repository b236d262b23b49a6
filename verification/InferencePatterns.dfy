/** The three patterns of the inference engine, written out, and the type every JSON value gets. */
module InferencePatterns {
  import opened Wrappers
  import opened PgTypes
  import opened Inference
  import opened InferenceLaws

  // ----- the patterns -----

  /** Regular expressions count every Unicode decimal digit; only that separators are none is used. */
  type Digits = char -> bool

  ghost predicate NoSeparators(digit: Digits) {
    !digit('-') && !digit(':') && !digit('.') && !digit('T') && !digit(' ') && !digit('Z') && !digit('+')
  }

  /** Positions `i..j` of `s` hold digits only. */
  predicate DigitsAt(digit: Digits, s: string, i: nat, j: nat)
    requires i <= j <= |s|
  {
    forall k :: i <= k < j ==> digit(s[k])
  }

  /** Four digits, two digits and two digits, with dashes between. */
  predicate StartsWithDate(digit: Digits, s: string) {
    && |s| >= 10 && DigitsAt(digit, s, 0, 4) && s[4] == '-' && DigitsAt(digit, s, 5, 7)
    && s[7] == '-' && DigitsAt(digit, s, 8, 10)
  }

  predicate IsDate(digit: Digits, s: string) { |s| == 10 && StartsWithDate(digit, s) }

  /** Nothing, a Z, or a sign with hours and minutes. */
  predicate IsOffset(digit: Digits, s: string) {
    || s == "" || s == "Z"
    || (|s| >= 5 && (s[0] == '+' || s[0] == '-') && DigitsAt(digit, s, 1, 3)
        && ((|s| == 5 && DigitsAt(digit, s, 3, 5)) || (|s| == 6 && s[3] == ':' && DigitsAt(digit, s, 4, 6))))
  }

  /** The fraction of a second, if there is one, and the offset. */
  predicate IsFractionAndOffset(digit: Digits, s: string) {
    || IsOffset(digit, s)
    || (|s| >= 2 && s[0] == '.' && exists k :: 2 <= k <= |s| && DigitsAt(digit, s, 1, k) && IsOffset(digit, s[k..]))
  }

  /** The seconds, if there are any, and what follows. */
  predicate IsRestOfTime(digit: Digits, s: string) {
    || IsOffset(digit, s)
    || (|s| >= 3 && s[0] == ':' && DigitsAt(digit, s, 1, 3) && IsFractionAndOffset(digit, s[3..]))
  }

  predicate IsTimestamp(digit: Digits, s: string) {
    && |s| >= 16 && StartsWithDate(digit, s) && (s[10] == 'T' || s[10] == ' ')
    && DigitsAt(digit, s, 11, 13) && s[13] == ':' && DigitsAt(digit, s, 14, 16)
    && IsRestOfTime(digit, s[16..])
  }

  predicate IsHex(c: char) { '0' <= c <= '9' || 'a' <= c <= 'f' || 'A' <= c <= 'F' }

  predicate IsUuid(s: string) {
    |s| == 36 && forall i :: 0 <= i < 36 ==> if i == 8 || i == 13 || i == 18 || i == 23 then s[i] == '-' else IsHex(s[i])
  }

  function Written(digit: Digits): Patterns {
    Patterns(s => IsTimestamp(digit, s), s => IsDate(digit, s), s => IsUuid(s))
  }

  // ----- what a value is typed -----

  /** No text matches two of the patterns, so their order does not matter. */
  lemma PatternsExclude(digit: Digits, s: string)
    requires NoSeparators(digit)
    ensures !(IsTimestamp(digit, s) && IsDate(digit, s))
    ensures !(IsTimestamp(digit, s) && IsUuid(s))
    ensures !(IsDate(digit, s) && IsUuid(s))
  {
  }

  /** Each type stands for one kind of value: the type tells the kind, and the kind the type. */
  lemma TypeTellsTheKind(digit: Digits, v: Json)
    requires NoSeparators(digit)
    ensures var t := InferType(Written(digit), v);
      && (t == PgType.Null <==> v.JsonNull?)
      && (t == Boolean <==> v.Bool?)
      && (t == BigInt <==> v.Num? && (v.n.I64? || v.n.U64?))
      && (t == DoublePrecision <==> v.Num? && v.n.F64?)
      && (t == TimestampTz <==> v.Str? && IsTimestamp(digit, v.s))
      && (t == Date <==> v.Str? && IsDate(digit, v.s))
      && (t == Uuid <==> v.Str? && IsUuid(v.s))
      && (t == Text <==> v.Str? && !IsTimestamp(digit, v.s) && !IsDate(digit, v.s) && !IsUuid(v.s))
      && (t == Jsonb <==> v.Arr? || v.Obj?)
      && t != Bytea
  {
    hide IsTimestamp, IsDate, IsUuid;
    if v.Str? { PatternsExclude(digit, v.s); }
  }

  /** A column has a temporal or UUID type exactly if all its values are strings of that one form. */
  lemma StringColumns(digit: Digits, values: seq<Json>, key: string)
    requires NoSeparators(digit) && Batch(Written(digit), values).Ok? && key in Batch(Written(digit), values).value
    ensures var t := Batch(Written(digit), values).value[key].pgType;
      && (t == Date <==> forall v :: Sighting(values, key, v) ==> v.Str? && IsDate(digit, v.s))
      && (t == Uuid <==> forall v :: Sighting(values, key, v) ==> v.Str? && IsUuid(v.s))
      && (t == Boolean <==> forall v :: Sighting(values, key, v) ==> v.Bool?)
  {
    hide Batch, Sighting, IsDate, IsUuid, IsTimestamp, InferType;
    var p := Written(digit);
    BatchMeaning(p, values, key);
    var t := Batch(p, values).value[key].pgType;
    var seen :| Sighting(values, key, seen);
    forall v | Sighting(values, key, v) ensures !v.JsonNull? { NotNull(values, key, v); }
    forall v { TypeTellsTheKind(digit, v); }
    OnlyItself(p, values, key, t, seen, Date);
    OnlyItself(p, values, key, t, seen, Uuid);
    OnlyItself(p, values, key, t, seen, Boolean);
  }

  /** A least type that nothing but itself and NULL lies below is taken exactly if all values have it. */
  lemma OnlyItself(p: Patterns, values: seq<Json>, key: string, t: PgType, seen: Json, only: PgType)
    requires IsJoinOfSightings(p, values, key, t) && Sighting(values, key, seen)
    requires only == Date || only == Uuid || only == Boolean
    requires forall v :: Sighting(values, key, v) ==> InferType(p, v) != PgType.Null
    ensures t == only <==> forall v :: Sighting(values, key, v) ==> InferType(p, v) == only
  {
    hide Sighting, InferType;
    forall a ensures Below(a, only) <==> a == only || a == PgType.Null {
    }
    if forall v :: Sighting(values, key, v) ==> InferType(p, v) == only {
      assert Below(InferType(p, seen), t) && Below(t, only);
    }
  }
}
