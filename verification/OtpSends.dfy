/** Exactly when a phone is sent a code, and that other phones have no part in it. */
module OtpSends {
  import opened PhoneOtp
  import opened OtpLimits

  // ----- counting -----

  predicate CountsFor(r: Otp, phone: string, after: int) { r.phone == phone && r.createdAt > after }

  lemma {:induction false} CountAfterCounts(rows: seq<Otp>, phone: string, after: int)
    ensures CountAfter(rows, phone, after) == |set k | 0 <= k < |rows| && CountsFor(rows[k], phone, after)|
    decreases |rows|
  {
    var all := set k | 0 <= k < |rows| && CountsFor(rows[k], phone, after);
    if rows == [] {
      assert all == {};
    } else {
      var n := |rows| - 1;
      CountAfterCounts(rows[..n], phone, after);
      var before := set k | 0 <= k < |rows[..n]| && CountsFor(rows[..n][k], phone, after);
      assert before == all - {n};
      assert all == if CountsFor(rows[n], phone, after) then before + {n} else before;
    }
  }

  predicate DialChar(c: char) { '0' <= c <= '9' || c == '+' }

  lemma {:induction false} DialLengthCounts(phone: string)
    ensures DialLength(phone) == |set i | 0 <= i < |phone| && DialChar(phone[i])|
    decreases |phone|
  {
    var all := set i | 0 <= i < |phone| && DialChar(phone[i]);
    if phone == "" {
      assert all == {};
    } else {
      var n := |phone| - 1;
      DialLengthCounts(phone[..n]);
      var before := set i | 0 <= i < |phone[..n]| && DialChar(phone[..n][i]);
      assert before == all - {n};
      assert all == if DialChar(phone[n]) then before + {n} else before;
    }
  }

  /**
    A code is sent if and only if the phone has ten to fifteen digits and plus signs and fewer than
    five codes of its own in the last 900 seconds; nothing else changes.
   */
  lemma SendsExactly(w: World, phone: string, codeHash: string)
    requires Inv(w)
    ensures var dial, recent :=
        set i | 0 <= i < |phone| && DialChar(phone[i]),
        set k | 0 <= k < |w.rows| && w.rows[k].phone == phone && w.now - 900 < w.rows[k].createdAt <= w.now;
      Step(w, Send(phone, codeHash)) ==
        if 10 <= |dial| <= 15 && |recent| < 5
        then World(w.now, w.rows + [Otp(phone, codeHash, 0, false, w.now, w.now + 300)], w.guesses, w.logins)
        else w
  {
    hide CountAfter, DialLength, Throttled;
    DialLengthCounts(phone);
    CountAfterCounts(w.rows, phone, w.now - 900);
    forall k | 0 <= k < |w.rows| ensures w.rows[k].createdAt <= w.now { assert RowOk(w, k); }
    assert (set k | 0 <= k < |w.rows| && CountsFor(w.rows[k], phone, w.now - 900))
      == set k | 0 <= k < |w.rows| && w.rows[k].phone == phone && w.now - 900 < w.rows[k].createdAt <= w.now;
  }

  // ----- other phones -----

  /** The instants at which a phone was sent its codes. */
  function Stamps(rows: seq<Otp>, phone: string): seq<int> {
    if rows == [] then []
    else
      var last := rows[|rows| - 1];
      Stamps(rows[..|rows| - 1], phone) + if last.phone == phone then [last.createdAt] else []
  }

  /** Whether each attempt to send the phone a code succeeds. */
  function SendOutcomes(w: World, ops: seq<Op>, phone: string): seq<bool>
    decreases |ops|
  {
    if ops == [] then []
    else
      (if ops[0].Send? && ops[0].phone == phone then [|Step(w, ops[0]).rows| > |w.rows|] else [])
      + SendOutcomes(Step(w, ops[0]), ops[1..], phone)
  }

  /** The clock, and the operations of one phone. */
  function OpsOf(ops: seq<Op>, phone: string): seq<Op> {
    if ops == [] then []
    else (if ops[0].Wait? || ops[0].phone == phone then [ops[0]] else []) + OpsOf(ops[1..], phone)
  }

  lemma {:induction false} StampsOfSnoc(rows: seq<Otp>, r: Otp, phone: string)
    ensures Stamps(rows + [r], phone) == Stamps(rows, phone) + if r.phone == phone then [r.createdAt] else []
  {
    assert (rows + [r])[..|rows|] == rows;
  }

  lemma {:induction false} StampsSame(rows: seq<Otp>, rows': seq<Otp>, phone: string)
    requires SameStamps(rows, rows')
    ensures Stamps(rows, phone) == Stamps(rows', phone)
    decreases |rows|
  {
    if rows != [] { StampsSame(rows[..|rows| - 1], rows'[..|rows| - 1], phone); }
  }

  function CountStamps(stamps: seq<int>, after: int): nat {
    if stamps == [] then 0
    else CountStamps(stamps[..|stamps| - 1], after) + if stamps[|stamps| - 1] > after then 1 else 0
  }

  lemma {:induction false} CountByStamps(rows: seq<Otp>, phone: string, after: int)
    ensures CountAfter(rows, phone, after) == CountStamps(Stamps(rows, phone), after)
    decreases |rows|
  {
    if rows != [] {
      var n := |rows| - 1;
      CountByStamps(rows[..n], phone, after);
      var before := Stamps(rows[..n], phone);
      if rows[n].phone == phone {
        assert (before + [rows[n].createdAt])[..|before|] == before;
      } else {
        assert before + [] == before;
      }
    }
  }

  /** Only a code sent to the phone itself adds to its instants. */
  lemma StampsAfter(w: World, op: Op, phone: string)
    ensures Stamps(Step(w, op).rows, phone) ==
      if op.Send? && op.phone == phone && |Step(w, op).rows| > |w.rows| then Stamps(w.rows, phone) + [w.now]
      else Stamps(w.rows, phone)
    ensures Step(w, op).now == if op.Wait? then w.now + op.seconds else w.now
    ensures op.Send? && op.phone == phone ==>
      (|Step(w, op).rows| > |w.rows| <==> ValidPhone(phone) && CountStamps(Stamps(w.rows, phone), w.now - WINDOW) < MAX_REQUESTS)
  {
    hide ValidPhone, CountAfter, IsLatest, CountStamps;
    match op
    case Wait(_) =>
    case Send(p, h) =>
      CountByStamps(w.rows, p, w.now - WINDOW);
      StampsOfSnoc(w.rows, Otp(p, h, 0, false, w.now, w.now + EXPIRY), phone);
      assert Stamps(w.rows, phone) + [] == Stamps(w.rows, phone);
    case Verify(p, h, k) =>
      if IsLatest(w.rows, p, w.now, k) {
        LatestInRange(w.rows, p, w.now, k);
        StampsSame(w.rows, Step(w, op).rows, phone);
      }
  }

  lemma LatestInRange(rows: seq<Otp>, phone: string, now: int, k: nat)
    requires IsLatest(rows, phone, now, k)
    ensures k < |rows|
  {
  }

  /** Whether a phone is sent its codes does not depend on what other phones do. */
  lemma {:induction false} OtherPhonesHaveNoEffect(w: World, v: World, ops: seq<Op>, phone: string)
    requires w.now == v.now && Stamps(w.rows, phone) == Stamps(v.rows, phone)
    ensures SendOutcomes(w, ops, phone) == SendOutcomes(v, OpsOf(ops, phone), phone)
    decreases |ops|
  {
    if ops != [] {
      hide Stamps, Step, CountStamps, ValidPhone;
      var op := ops[0];
      StampsAfter(w, op, phone);
      if op.Wait? || op.phone == phone {
        StampsAfter(v, op, phone);
        OtherPhonesHaveNoEffect(Step(w, op), Step(v, op), ops[1..], phone);
        assert OpsOf(ops, phone) == [op] + OpsOf(ops[1..], phone);
        assert ([op] + OpsOf(ops[1..], phone))[1..] == OpsOf(ops[1..], phone);
      } else {
        OtherPhonesHaveNoEffect(Step(w, op), v, ops[1..], phone);
        assert OpsOf(ops, phone) == OpsOf(ops[1..], phone);
      }
    }
  }
}
