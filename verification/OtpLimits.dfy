/** How many codes, guesses and logins a phone can have, over every run with a forward clock. */
module OtpLimits {
  import opened PhoneOtp

  // ----- counting -----

  /** Rows of the phone created in the half-open window `(lo, hi]`. */
  function CountWithin(rows: seq<Otp>, phone: string, lo: int, hi: int): nat {
    if rows == [] then 0
    else
      var r := rows[|rows| - 1];
      CountWithin(rows[..|rows| - 1], phone, lo, hi) + if r.phone == phone && lo < r.createdAt <= hi then 1 else 0
  }

  /** Counted wrong guesses for the phone in `(lo, hi]`, on rows before `n`. */
  function GuessesWithin(guesses: seq<Guess>, phone: string, lo: int, hi: int, n: nat): nat {
    if guesses == [] then 0
    else
      var g := guesses[|guesses| - 1];
      GuessesWithin(guesses[..|guesses| - 1], phone, lo, hi, n)
      + if g.phone == phone && lo < g.at <= hi && g.row < n then 1 else 0
  }

  function GuessesOn(guesses: seq<Guess>, row: nat): nat {
    if guesses == [] then 0
    else GuessesOn(guesses[..|guesses| - 1], row) + if guesses[|guesses| - 1].row == row then 1 else 0
  }

  predicate SameStamps(rows: seq<Otp>, rows': seq<Otp>) {
    |rows| == |rows'| && forall i :: 0 <= i < |rows| ==>
      rows[i].phone == rows'[i].phone && rows[i].createdAt == rows'[i].createdAt
  }

  lemma {:induction false} CountSame(rows: seq<Otp>, rows': seq<Otp>, phone: string, after: int)
    requires SameStamps(rows, rows')
    ensures CountAfter(rows, phone, after) == CountAfter(rows', phone, after)
    decreases |rows|
  {
    if rows != [] { CountSame(rows[..|rows| - 1], rows'[..|rows| - 1], phone, after); }
  }

  lemma {:induction false} WithinIsAfter(rows: seq<Otp>, phone: string, lo: int, hi: int, after: int)
    requires after <= lo
    ensures CountWithin(rows, phone, lo, hi) <= CountAfter(rows, phone, after)
    decreases |rows|
  {
    if rows != [] { WithinIsAfter(rows[..|rows| - 1], phone, lo, hi, after); }
  }

  lemma {:induction false} WithinSplits(rows: seq<Otp>, phone: string, lo: int, mid: int, hi: int)
    requires lo <= mid <= hi
    ensures CountWithin(rows, phone, lo, hi) == CountWithin(rows, phone, lo, mid) + CountWithin(rows, phone, mid, hi)
    decreases |rows|
  {
    if rows != [] { WithinSplits(rows[..|rows| - 1], phone, lo, mid, hi); }
  }

  lemma {:induction false} WithinGrows(rows: seq<Otp>, phone: string, lo: int, lo': int, hi: int)
    requires lo' <= lo
    ensures CountWithin(rows, phone, lo, hi) <= CountWithin(rows, phone, lo', hi)
    decreases |rows|
  {
    if rows != [] { WithinGrows(rows[..|rows| - 1], phone, lo, lo', hi); }
  }

  // ----- the invariant -----

  predicate RowOk(w: World, k: nat)
    requires k < |w.rows|
  {
    var r := w.rows[k];
    && r.createdAt <= w.now && r.expiresAt == r.createdAt + EXPIRY
    && r.attempts == GuessesOn(w.guesses, k) && r.attempts <= MAX_ATTEMPTS
    && (r.verified <==> k in w.logins)
  }

  /** When row `k` was inserted, its phone had at most five rows in the last 900 seconds, itself included. */
  predicate Throttled(rows: seq<Otp>, k: nat)
    requires k < |rows|
  {
    CountAfter(rows[..k + 1], rows[k].phone, rows[k].createdAt - WINDOW) <= MAX_REQUESTS
  }

  predicate GuessOk(w: World, g: Guess) {
    && g.row < |w.rows| && w.rows[g.row].phone == g.phone
    && w.rows[g.row].createdAt <= g.at < w.rows[g.row].createdAt + EXPIRY
  }

  ghost predicate Inv(w: World) {
    && (forall k :: 0 <= k < |w.rows| ==> RowOk(w, k) && Throttled(w.rows, k))
    && (forall g :: g in w.guesses ==> GuessOk(w, g))
    && (forall i, j :: 0 <= i < j < |w.logins| ==> w.logins[i] != w.logins[j])
    && (forall k :: k in w.logins ==> k < |w.rows|)
    && (forall i, j :: 0 <= i < j < |w.rows| ==> w.rows[i].createdAt <= w.rows[j].createdAt)
  }

  lemma CountAfterSnoc(rows: seq<Otp>, r: Otp, phone: string, after: int)
    ensures CountAfter(rows + [r], phone, after) <= CountAfter(rows, phone, after) + 1
  {
    assert (rows + [r])[..|rows|] == rows;
  }

  lemma ThrottledAppend(rows: seq<Otp>, r: Otp)
    requires forall k :: 0 <= k < |rows| ==> Throttled(rows, k)
    requires CountAfter(rows, r.phone, r.createdAt - WINDOW) < MAX_REQUESTS
    ensures forall k :: 0 <= k <= |rows| ==> Throttled(rows + [r], k)
  {
    hide CountAfter;
    var all := rows + [r];
    CountAfterSnoc(rows, r, r.phone, r.createdAt - WINDOW);
    forall k | 0 <= k <= |rows| ensures Throttled(all, k) {
      if k < |rows| {
        assert Throttled(rows, k);
        assert all[..k + 1] == rows[..k + 1];
      } else {
        assert all[..k + 1] == all;
      }
    }
  }

  lemma InvSend(w: World, phone: string, codeHash: string)
    requires Inv(w)
    ensures Inv(Sent(w, phone, codeHash))
  {
    hide Throttled, CountAfter;
    var w' := Sent(w, phone, codeHash);
    if w' != w {
      var n := |w.rows|;
      ThrottledAppend(w.rows, w'.rows[n]);
      forall k | 0 <= k < n ensures RowOk(w', k) && w.rows[k].createdAt <= w.now {
        assert RowOk(w, k);
      }
      NoGuessYet(w, n);
      forall g | g in w'.guesses ensures GuessOk(w', g) {
        assert GuessOk(w, g);
      }
    }
  }

  lemma NoGuessYet(w: World, n: nat)
    requires Inv(w) && n == |w.rows|
    ensures GuessesOn(w.guesses, n) == 0 && n !in w.logins
  {
    forall g | g in w.guesses ensures g.row < n { assert GuessOk(w, g); }
    NoGuessOn(w.guesses, n);
  }

  lemma {:induction false} NoGuessOn(guesses: seq<Guess>, n: nat)
    requires forall g :: g in guesses ==> g.row < n
    ensures GuessesOn(guesses, n) == 0
    decreases |guesses|
  {
    if guesses != [] { NoGuessOn(guesses[..|guesses| - 1], n); }
  }

  lemma ThrottledSame(rows: seq<Otp>, rows': seq<Otp>, k: nat)
    requires SameStamps(rows, rows') && k < |rows| && Throttled(rows, k)
    ensures Throttled(rows', k)
  {
    CountSame(rows[..k + 1], rows'[..k + 1], rows[k].phone, rows[k].createdAt - WINDOW);
  }

  /** The other rows do not see a guess or a login of row `k`, and no row moves in time. */
  lemma OneRowChanged(w: World, w': World, k: nat, row: Otp)
    requires Inv(w) && k < |w.rows| && w'.now == w.now && w'.rows == w.rows[k := row]
    requires row.phone == w.rows[k].phone && row.createdAt == w.rows[k].createdAt
    requires forall i :: 0 <= i < |w.rows| && i != k ==>
      GuessesOn(w'.guesses, i) == GuessesOn(w.guesses, i) && (i in w'.logins <==> i in w.logins)
    requires RowOk(w', k)
    ensures forall i :: 0 <= i < |w'.rows| ==> RowOk(w', i) && Throttled(w'.rows, i)
  {
    hide CountAfter, Throttled, GuessesOn;
    forall i | 0 <= i < |w'.rows| ensures RowOk(w', i) && Throttled(w'.rows, i) {
      assert RowOk(w, i) && Throttled(w.rows, i);
      ThrottledSame(w.rows, w'.rows, i);
    }
  }

  lemma GuessesSnoc(guesses: seq<Guess>, g: Guess, row: nat)
    ensures GuessesOn(guesses + [g], row) == GuessesOn(guesses, row) + if g.row == row then 1 else 0
  {
    assert (guesses + [g])[..|guesses|] == guesses;
  }

  lemma InvWrongGuess(w: World, phone: string, codeHash: string, k: nat)
    requires Inv(w) && IsLatest(w.rows, phone, w.now, k)
    requires w.rows[k].attempts < MAX_ATTEMPTS && w.rows[k].codeHash != codeHash
    ensures Inv(Verified(w, phone, codeHash, k))
  {
    hide CountAfter, Throttled, GuessesOn;
    var w' := Verified(w, phone, codeHash, k);
    assert RowOk(w, k);
    forall i: nat ensures GuessesOn(w'.guesses, i) == GuessesOn(w.guesses, i) + if i == k then 1 else 0 {
      GuessesSnoc(w.guesses, Guess(k, phone, w.now), i);
    }
    OneRowChanged(w, w', k, w'.rows[k]);
    forall g | g in w'.guesses ensures GuessOk(w', g) {
      if g in w.guesses { assert GuessOk(w, g); }
    }
  }

  lemma InvLogin(w: World, phone: string, codeHash: string, k: nat)
    requires Inv(w) && IsLatest(w.rows, phone, w.now, k)
    requires w.rows[k].attempts < MAX_ATTEMPTS && w.rows[k].codeHash == codeHash
    ensures Inv(Verified(w, phone, codeHash, k))
  {
    hide CountAfter, Throttled, GuessesOn;
    var w' := Verified(w, phone, codeHash, k);
    assert RowOk(w, k);
    OneRowChanged(w, w', k, w'.rows[k]);
    forall g | g in w'.guesses ensures GuessOk(w', g) { assert GuessOk(w, g); }
  }

  lemma InvVerify(w: World, phone: string, codeHash: string, k: nat)
    requires Inv(w) && IsLatest(w.rows, phone, w.now, k)
    ensures Inv(Verified(w, phone, codeHash, k))
  {
    hide Inv, Verified, Candidate;
    if w.rows[k].attempts >= MAX_ATTEMPTS {
      NothingCounted(w, phone, codeHash, k);
    } else if w.rows[k].codeHash != codeHash {
      InvWrongGuess(w, phone, codeHash, k);
    } else {
      InvLogin(w, phone, codeHash, k);
    }
  }

  lemma NothingCounted(w: World, phone: string, codeHash: string, k: nat)
    requires k < |w.rows| && w.rows[k].attempts >= MAX_ATTEMPTS
    ensures Verified(w, phone, codeHash, k) == w
  {
  }

  lemma {:induction false} InvRun(w: World, ops: seq<Op>)
    requires Inv(w)
    ensures Inv(Run(w, ops))
    decreases |ops|
  {
    if ops != [] {
      var w1 := Step(w, ops[0]);
      match ops[0] {
        case Wait(d) =>
          forall k | 0 <= k < |w1.rows| ensures RowOk(w1, k) { assert RowOk(w, k); }
          forall g | g in w1.guesses ensures GuessOk(w1, g) { assert GuessOk(w, g); }
        case Send(phone, codeHash) => InvSend(w, phone, codeHash);
        case Verify(phone, codeHash, k) =>
          if ValidPhone(phone) && IsLatest(w.rows, phone, w.now, k) { InvVerify(w, phone, codeHash, k); }
      }
      InvRun(w1, ops[1..]);
    }
  }

  // ----- codes per window -----

  lemma {:induction false} WindowBound(rows: seq<Otp>, phone: string, hi: int)
    requires forall k :: 0 <= k < |rows| ==> Throttled(rows, k)
    ensures CountWithin(rows, phone, hi - WINDOW, hi) <= MAX_REQUESTS
    decreases |rows|
  {
    if rows != [] {
      var n := |rows| - 1;
      var r := rows[n];
      if r.phone == phone && hi - WINDOW < r.createdAt <= hi {
        assert Throttled(rows, n) && rows[..n + 1] == rows;
        WithinIsAfter(rows, phone, hi - WINDOW, hi, r.createdAt - WINDOW);
      } else {
        forall k | 0 <= k < n ensures Throttled(rows[..n], k) {
          assert Throttled(rows, k) && rows[..n][..k + 1] == rows[..k + 1];
        }
        WindowBound(rows[..n], phone, hi);
      }
    }
  }

  // ----- guesses per window -----

  lemma {:induction false} GuessesOnOneMoreRow(guesses: seq<Guess>, phone: string, lo: int, hi: int, n: nat)
    ensures GuessesWithin(guesses, phone, lo, hi, n + 1)
         <= GuessesWithin(guesses, phone, lo, hi, n) + GuessesOn(guesses, n)
    ensures (forall g :: g in guesses && g.row == n && g.phone == phone ==> !(lo < g.at <= hi)) ==>
      GuessesWithin(guesses, phone, lo, hi, n + 1) == GuessesWithin(guesses, phone, lo, hi, n)
    decreases |guesses|
  {
    if guesses != [] {
      var k := |guesses| - 1;
      GuessesOnOneMoreRow(guesses[..k], phone, lo, hi, n);
      assert forall g :: g in guesses[..k] ==> g in guesses;
      assert guesses[k] in guesses;
    }
  }

  /** Guesses in a window fall on rows created at most 300 seconds before it, five on each. */
  lemma {:induction false} GuessesNeedRows(w: World, phone: string, lo: int, hi: int, n: nat)
    requires Inv(w) && n <= |w.rows|
    ensures GuessesWithin(w.guesses, phone, lo, hi, n)
         <= MAX_ATTEMPTS * CountWithin(w.rows[..n], phone, lo - EXPIRY, hi)
    decreases n
  {
    if n == 0 {
      NoGuessesBefore(w.guesses, phone, lo, hi);
    } else {
      var r := w.rows[n - 1];
      GuessesNeedRows(w, phone, lo, hi, n - 1);
      GuessesOnOneMoreRow(w.guesses, phone, lo, hi, n - 1);
      assert w.rows[..n][..n - 1] == w.rows[..n - 1];
      assert RowOk(w, n - 1);
      if !(r.phone == phone && lo - EXPIRY < r.createdAt <= hi) {
        forall g | g in w.guesses && g.row == n - 1 && g.phone == phone ensures !(lo < g.at <= hi) {
          assert GuessOk(w, g);
        }
      }
    }
  }

  lemma {:induction false} NoGuessesBefore(guesses: seq<Guess>, phone: string, lo: int, hi: int)
    ensures GuessesWithin(guesses, phone, lo, hi, 0) == 0
    decreases |guesses|
  {
    if guesses != [] { NoGuessesBefore(guesses[..|guesses| - 1], phone, lo, hi); }
  }

  // ----- over every run -----

  /** Any 900 seconds of any run hold at most five codes for a phone. */
  lemma CodesPerWindow(start: int, ops: seq<Op>, phone: string, hi: int)
    ensures CountWithin(Run(Init(start), ops).rows, phone, hi - 900, hi) <= 5
  {
    InvRun(Init(start), ops);
    WindowBound(Run(Init(start), ops).rows, phone, hi);
  }

  /** Every code absorbs at most five counted wrong guesses and yields at most one login. */
  lemma UsesPerCode(start: int, ops: seq<Op>, k: nat)
    ensures var w := Run(Init(start), ops);
      k < |w.rows| ==>
        && w.rows[k].attempts == GuessesOn(w.guesses, k) <= 5
        && (w.rows[k].verified <==> k in w.logins)
    ensures var w := Run(Init(start), ops);
      forall i, j :: 0 <= i < j < |w.logins| ==> w.logins[i] != w.logins[j]
  {
    InvRun(Init(start), ops);
    var w := Run(Init(start), ops);
    if k < |w.rows| { assert RowOk(w, k); }
  }

  /** A stretch covered by `k` windows holds at most five codes for each. */
  lemma {:induction false} LongStretch(rows: seq<Otp>, phone: string, lo: int, hi: int, k: nat)
    requires forall i :: 0 <= i < |rows| ==> Throttled(rows, i)
    requires hi - lo <= k * WINDOW
    ensures CountWithin(rows, phone, lo, hi) <= k * MAX_REQUESTS
    decreases k
  {
    if k == 0 {
      EmptyStretch(rows, phone, lo, hi);
    } else {
      var mid := hi - WINDOW;
      WindowBound(rows, phone, hi);
      if mid <= lo {
        WithinGrows(rows, phone, lo, mid, hi);
      } else {
        LongStretch(rows, phone, lo, mid, k - 1);
        WithinSplits(rows, phone, lo, mid, hi);
      }
    }
  }

  lemma {:induction false} EmptyStretch(rows: seq<Otp>, phone: string, lo: int, hi: int)
    requires hi <= lo
    ensures CountWithin(rows, phone, lo, hi) == 0
    decreases |rows|
  {
    if rows != [] { EmptyStretch(rows[..|rows| - 1], phone, lo, hi); }
  }

  /** The number of windows that cover `length` seconds. */
  function WindowsIn(length: nat): (k: nat)
    ensures (k - 1) * 900 < length <= k * 900
  {
    (length + WINDOW - 1) / WINDOW
  }

  /** A stretch of any length holds at most five codes for a phone for every 900 seconds begun. */
  lemma CodesInAnyStretch(start: int, ops: seq<Op>, phone: string, lo: int, hi: int)
    requires lo <= hi
    ensures CountWithin(Run(Init(start), ops).rows, phone, lo, hi) <= 5 * WindowsIn(hi - lo)
  {
    InvRun(Init(start), ops);
    LongStretch(Run(Init(start), ops).rows, phone, lo, hi, WindowsIn(hi - lo));
  }

  /**
    A stretch of any length holds at most 25 counted wrong guesses for a phone for every 900 seconds
    begun, counting the 300 before it in which the codes guessed at may have been sent.
   */
  lemma GuessesInAnyStretch(start: int, ops: seq<Op>, phone: string, lo: int, hi: int)
    requires lo <= hi
    ensures var w := Run(Init(start), ops);
      GuessesWithin(w.guesses, phone, lo, hi, |w.rows|) <= 25 * WindowsIn(hi - lo + 300)
  {
    var w := Run(Init(start), ops);
    InvRun(Init(start), ops);
    GuessesNeedRows(w, phone, lo, hi, |w.rows|);
    assert w.rows[..|w.rows|] == w.rows;
    LongStretch(w.rows, phone, lo - EXPIRY, hi, WindowsIn(hi - lo + EXPIRY));
  }

  /** In particular, any 900 seconds of any run hold at most fifty counted wrong guesses for a phone. */
  lemma GuessesPerWindow(start: int, ops: seq<Op>, phone: string, hi: int)
    ensures var w := Run(Init(start), ops);
      GuessesWithin(w.guesses, phone, hi - 900, hi, |w.rows|) <= 50
  {
    GuessesInAnyStretch(start, ops, phone, hi - WINDOW, hi);
  }

  // ----- the right code -----

  /** Every open code of the phone sent in this second has this hash and attempts left. */
  predicate OpenCodesMatch(w: World, phone: string, codeHash: string) {
    forall i :: 0 <= i < |w.rows| && w.rows[i].phone == phone && !w.rows[i].verified && w.rows[i].createdAt == w.now ==>
      w.rows[i].codeHash == codeHash && w.rows[i].attempts < 5
  }

  /** After a code is sent and some time has passed, the rows the query may return are those of the sending second. */
  lemma LatestAfterSending(w: World, phone: string, codeHash: string, delay: nat, pick: nat)
    requires Inv(w) && ValidPhone(phone) && CountAfter(w.rows, phone, w.now - WINDOW) < MAX_REQUESTS && delay < EXPIRY
    ensures var rows := Sent(w, phone, codeHash).rows;
      IsLatest(rows, phone, w.now + delay, pick) <==>
        pick < |rows| && rows[pick].phone == phone && !rows[pick].verified && rows[pick].createdAt == w.now
  {
    hide CountAfter, ValidPhone, Throttled, GuessesOn;
    var rows := Sent(w, phone, codeHash).rows;
    assert Candidate(rows[|w.rows|], phone, w.now + delay);
    forall i | 0 <= i < |w.rows|
      ensures w.rows[i].createdAt <= w.now && w.rows[i].expiresAt == w.rows[i].createdAt + EXPIRY
    {
      assert RowOk(w, i);
    }
  }

  /**
    A code that was sent and is presented within its five minutes logs in, whichever row the
    query prefers among equals, if and only if every other open code of the phone sent in the
    same second has the same hash and attempts left.
   */
  lemma FreshCodeLogsIn(w: World, phone: string, codeHash: string, delay: nat)
    requires Inv(w) && ValidPhone(phone) && CountAfter(w.rows, phone, w.now - 900) < 5 && delay < 300
    ensures var w1 := Step(Step(w, Send(phone, codeHash)), Wait(delay));
      (forall pick :: IsLatest(w1.rows, phone, w1.now, pick) ==>
         Step(w1, Verify(phone, codeHash, pick)).logins == w.logins + [pick])
      <==> OpenCodesMatch(w, phone, codeHash)
  {
    hide CountAfter, ValidPhone, Inv;
    var w1 := Step(Step(w, Send(phone, codeHash)), Wait(delay));
    forall pick: nat | IsLatest(w1.rows, phone, w1.now, pick)
      ensures Step(w1, Verify(phone, codeHash, pick)).logins == w.logins + [pick]
        <==> w1.rows[pick].codeHash == codeHash && w1.rows[pick].attempts < MAX_ATTEMPTS
    {
      assert |w.logins + [pick]| == |w.logins| + 1;
    }
    forall pick: nat {
      LatestAfterSending(w, phone, codeHash, delay, pick);
    }
    forall i | 0 <= i < |w.rows| ensures w1.rows[i] == w.rows[i] {
    }
  }

  /** With two open codes of one second the query may return the other one, and the right code counts as wrong. */
  lemma RightCodeMayBeRefused(phone: string) returns (w: World)
    requires ValidPhone(phone)
    ensures |w.rows| == 2 && w.rows[1].codeHash == "b" && w.rows[1].attempts == 0 && Inv(w)
    ensures IsLatest(w.rows, phone, w.now, 0)
    ensures Step(w, Verify(phone, "b", 0)).logins == [] && |Step(w, Verify(phone, "b", 0)).guesses| == 1
  {
    hide ValidPhone;
    var w0 := Init(0);
    var w1 := Step(w0, Send(phone, "a"));
    assert CountAfter([], phone, -WINDOW) == 0;
    InvSend(w0, phone, "a");
    assert w1.rows == [Otp(phone, "a", 0, false, 0, EXPIRY)];
    CountAfterSnoc([], w1.rows[0], phone, -WINDOW);
    assert [] + [w1.rows[0]] == w1.rows;
    InvSend(w1, phone, "b");
    w := Step(w1, Send(phone, "b"));
  }
}
