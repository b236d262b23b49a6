/** The bound of fifty wrong guesses in 900 seconds is exact: here is a run that reaches it. */
module OtpAttained {
  import opened PhoneOtp
  import opened OtpLimits

  function Fresh(phone: string, now: int): Otp { Otp(phone, "h", 0, false, now, now + EXPIRY) }

  function Copies<T>(n: nat, x: T): (r: seq<T>)
    ensures |r| == n && forall i :: 0 <= i < n ==> r[i] == x
  {
    if n == 0 then [] else Copies(n - 1, x) + [x]
  }

  lemma OneMoreCopy<T>(s: seq<T>, n: nat, x: T)
    requires n > 0
    ensures s + Copies(n - 1, x) + [x] == s + Copies(n, x)
  {
  }

  lemma {:induction false} RunAppend(w: World, a: seq<Op>, b: seq<Op>)
    ensures Run(w, a + b) == Run(Run(w, a), b)
    decreases |a|
  {
    if a == [] {
      assert a + b == b;
    } else {
      assert (a + b)[1..] == a[1..] + b;
      RunAppend(Step(w, a[0]), a[1..], b);
    }
  }

  lemma RunOne(w: World, op: Op)
    ensures Run(w, [op]) == Step(w, op)
  {
    assert [op][1..] == [];
  }

  lemma {:induction false} CountCopies(phone: string, rows: seq<Otp>, n: nat, now: int)
    ensures CountAfter(rows + Copies(n, Fresh(phone, now)), phone, now - WINDOW)
         == CountAfter(rows, phone, now - WINDOW) + n
    decreases n
  {
    var all := rows + Copies(n, Fresh(phone, now));
    if n == 0 {
      assert all == rows;
    } else {
      assert all[..|all| - 1] == rows + Copies(n - 1, Fresh(phone, now));
      CountCopies(phone, rows, n - 1, now);
    }
  }

  lemma SendOnce(phone: string, w: World)
    requires ValidPhone(phone)
    requires CountAfter(w.rows, phone, w.now - WINDOW) < MAX_REQUESTS
    ensures Run(w, [Send(phone, "h")]) == w.(rows := w.rows + [Fresh(phone, w.now)])
  {
    hide ValidPhone, CountAfter, Run;
    RunOne(w, Send(phone, "h"));
  }

  /** After a quiet window, up to five codes are sent at once. */
  lemma {:induction false} SendSome(phone: string, w: World, n: nat) returns (ops: seq<Op>)
    requires ValidPhone(phone)
    requires CountAfter(w.rows, phone, w.now - WINDOW) == 0 && n <= 5
    ensures Run(w, ops) == w.(rows := w.rows + Copies(n, Fresh(phone, w.now)))
    decreases n
  {
    hide Run, CountAfter, Copies, ValidPhone, Step;
    if n == 0 {
      ops := [];
      NothingSent(phone, w);
    } else {
      var before := SendSome(phone, w, n - 1);
      var w1 := Run(w, before);
      ops := before + [Send(phone, "h")];
      CountCopies(phone, w.rows, n - 1, w.now);
      SendOnce(phone, w1);
      RunAppend(w, before, [Send(phone, "h")]);
      OneMoreCopy(w.rows, n, Fresh(phone, w.now));
    }
  }

  lemma NothingSent(phone: string, w: World)
    ensures Run(w, []) == w.(rows := w.rows + Copies(0, Fresh(phone, w.now)))
  {
    assert w.rows + Copies(0, Fresh(phone, w.now)) == w.rows;
  }

  function Tried(r: Otp, n: nat): Otp { r.(attempts := r.attempts + n) }

  lemma StillLatest(phone: string, rows: seq<Otp>, now: int, j: nat, k: nat, n: nat)
    requires k < |rows| && IsLatest(rows, phone, now, j)
    ensures IsLatest(rows[k := Tried(rows[k], n)], phone, now, j)
  {
    var rows' := rows[k := Tried(rows[k], n)];
    assert forall i :: 0 <= i < |rows| ==> Candidate(rows'[i], phone, now) == Candidate(rows[i], phone, now);
  }

  lemma GuessOnce(phone: string, w: World, k: nat)
    requires ValidPhone(phone)
    requires IsLatest(w.rows, phone, w.now, k) && w.rows[k].codeHash == "h" && w.rows[k].attempts < MAX_ATTEMPTS
    ensures Run(w, [Verify(phone, "x", k)])
         == w.(rows := w.rows[k := Tried(w.rows[k], 1)], guesses := w.guesses + [Guess(k, phone, w.now)])
  {
    hide ValidPhone, IsLatest, Run;
    assert k < |w.rows| by { InRange(phone, w, k); }
    RunOne(w, Verify(phone, "x", k));
  }

  lemma InRange(phone: string, w: World, k: nat)
    requires IsLatest(w.rows, phone, w.now, k)
    ensures k < |w.rows|
  {
  }

  lemma TriedFields(r: Otp, n: nat)
    ensures Tried(r, n).attempts == r.attempts + n && Tried(r, n).codeHash == r.codeHash
  {
  }

  lemma TryOnceMore(rows: seq<Otp>, k: nat, n: nat)
    requires k < |rows| && n > 0
    ensures var rows' := rows[k := Tried(rows[k], n - 1)];
      rows'[k := Tried(rows'[k], 1)] == rows[k := Tried(rows[k], n)]
  {
  }

  lemma {:induction false} GuessSome(phone: string, w: World, k: nat, n: nat) returns (ops: seq<Op>)
    requires ValidPhone(phone)
    requires IsLatest(w.rows, phone, w.now, k) && w.rows[k].codeHash == "h" && w.rows[k].attempts + n <= MAX_ATTEMPTS
    ensures Run(w, ops) == w.(rows := w.rows[k := Tried(w.rows[k], n)],
                              guesses := w.guesses + Copies(n, Guess(k, phone, w.now)))
    decreases n
  {
    if n == 0 {
      ops := [];
      assert w.rows[k := Tried(w.rows[k], 0)] == w.rows;
      assert w.guesses + Copies(0, Guess(k, phone, w.now)) == w.guesses;
    } else {
      hide Run, Copies, IsLatest, Tried;
      InRange(phone, w, k);
      var before := GuessSome(phone, w, k, n - 1);
      var w1 := Run(w, before);
      ops := before + [Verify(phone, "x", k)];
      assert w1.rows == w.rows[k := Tried(w.rows[k], n - 1)];
      StillLatest(phone, w.rows, w.now, k, k, n - 1);
      TriedFields(w.rows[k], n - 1);
      GuessOnce(phone, w1, k);
      RunAppend(w, before, [Verify(phone, "x", k)]);
      TryOnceMore(w.rows, k, n);
      OneMoreCopy(w.guesses, n, Guess(k, phone, w.now));
    }
  }

  lemma {:induction false} CountMatching(phone: string, guesses: seq<Guess>, n: nat, g: Guess, lo: int, hi: int, rows: nat)
    requires g.phone == phone && lo < g.at <= hi && g.row < rows
    ensures GuessesWithin(guesses + Copies(n, g), phone, lo, hi, rows)
         == GuessesWithin(guesses, phone, lo, hi, rows) + n
    decreases n
  {
    var all := guesses + Copies(n, g);
    if n == 0 {
      assert all == guesses;
    } else {
      assert all[..|all| - 1] == guesses + Copies(n - 1, g);
      CountMatching(phone, guesses, n - 1, g, lo, hi, rows);
    }
  }

  /** Untouched codes that any query may return: the equally late rows `first..last`. */
  ghost predicate Open(phone: string, w: World, first: nat, last: nat) {
    first <= last <= |w.rows| && forall k :: first <= k < last ==>
      IsLatest(w.rows, phone, w.now, k) && w.rows[k].codeHash == "h" && w.rows[k].attempts == 0
  }

  /** Five guesses on each of the equally late codes, all at this instant. */
  lemma {:induction false} GuessAll(phone: string, w: World, first: nat, last: nat, lo: int, hi: int, rows: nat) returns (ops: seq<Op>)
    requires ValidPhone(phone)
    requires Open(phone, w, first, last) && lo < w.now <= hi && last <= rows
    ensures Run(w, ops).now == w.now && SameStamps(w.rows, Run(w, ops).rows)
    ensures GuessesWithin(Run(w, ops).guesses, phone, lo, hi, rows)
         == GuessesWithin(w.guesses, phone, lo, hi, rows) + 5 * (last - first)
    decreases last - first
  {
    if first == last {
      ops := [];
    } else {
      var five := GuessSome(phone, w, first, 5);
      var w1 := Run(w, five);
      forall k | first + 1 <= k < last ensures IsLatest(w1.rows, phone, w1.now, k) {
        StillLatest(phone, w.rows, w.now, k, first, 5);
      }
      CountMatching(phone, w.guesses, 5, Guess(first, phone, w.now), lo, hi, rows);
      var rest := GuessAll(phone, w1, first + 1, last, lo, hi, rows);
      ops := five + rest;
      RunAppend(w, five, rest);
    }
  }

  lemma {:induction false} NoneAfter(phone: string, rows: seq<Otp>, after: int)
    requires forall r :: r in rows ==> r.createdAt <= after
    ensures CountAfter(rows, phone, after) == 0
    decreases |rows|
  {
    if rows != [] { NoneAfter(phone, rows[..|rows| - 1], after); }
  }

  /** Send five codes, wait, and spend them, at a moment when no other code is open. */
  lemma Burst(phone: string, w: World, wait: nat, lo: int, hi: int, rows: nat) returns (ops: seq<Op>)
    requires ValidPhone(phone)
    requires forall r :: r in w.rows ==> r.createdAt <= w.now - WINDOW && r.expiresAt <= w.now
    requires wait < EXPIRY && lo < w.now + wait <= hi && |w.rows| + 5 <= rows
    ensures var w' := Run(w, ops);
      && w'.now == w.now + wait
      && SameStamps(w.rows + Copies(5, Fresh(phone, w.now)), w'.rows)
      && GuessesWithin(w'.guesses, phone, lo, hi, rows) == GuessesWithin(w.guesses, phone, lo, hi, rows) + 25
  {
    NoneAfter(phone, w.rows, w.now - WINDOW);
    var sends := SendSome(phone, w, 5);
    var w1 := Run(w, sends);
    RunAppend(w, sends, [Wait(wait)]);
    RunOne(w1, Wait(wait));
    var w2 := Run(w, sends + [Wait(wait)]);
    forall k | 0 <= k < |w.rows| ensures !Candidate(w2.rows[k], phone, w2.now) {
      assert w2.rows[k] == w.rows[k] && w.rows[k] in w.rows;
    }
    assert Open(phone, w2, |w.rows|, |w.rows| + 5);
    var guesses := GuessAll(phone, w2, |w.rows|, |w.rows| + 5, lo, hi, rows);
    ops := sends + [Wait(wait)] + guesses;
    RunAppend(w, sends + [Wait(wait)], guesses);
  }

  /** Five codes guessed at the last second, fifteen minutes after them five more: fifty guesses in 900 seconds. */
  lemma FiftyAreReached(phone: string) returns (ops: seq<Op>, hi: int)
    requires ValidPhone(phone)
    ensures var w := Run(Init(0), ops);
      |w.rows| == 10 && GuessesWithin(w.guesses, phone, hi - 900, hi, |w.rows|) == 50
  {
    hi := 1198;
    var w0 := Init(0);
    var a := Burst(phone, w0, 299, 298, hi, 10);
    var w1 := Run(w0, a);
    RunAppend(w0, a, [Wait(601)]);
    RunOne(w1, Wait(601));
    var w2 := Run(w0, a + [Wait(601)]);
    InvRun(w0, a + [Wait(601)]);
    forall r | r in w2.rows ensures r.createdAt <= w2.now - WINDOW && r.expiresAt <= w2.now {
      var k :| 0 <= k < |w2.rows| && w2.rows[k] == r;
      assert RowOk(w2, k);
      assert (w0.rows + Copies(5, Fresh(phone, 0)))[k].createdAt == 0;
    }
    var b := Burst(phone, w2, 0, 298, hi, 10);
    ops := a + [Wait(601)] + b;
    RunAppend(w0, a + [Wait(601)], b);
  }
}
