/** The scanners' literals against standard-conforming ones, in which a backslash escapes nothing. */
module SqlStandard {
  import opened Wrappers
  import opened SqlLexer
  import opened SqlGuard

  // ----- one literal -----

  /** Where a standard literal ends: at the next quote, whatever stands before it. */
  function AfterStandardQuote(s: string, q: char): (r: Option<string>)
    ensures r.Some? ==> |r.value| < |s|
  {
    if s == "" then None else if s[0] == q then Some(s[1..]) else AfterStandardQuote(s[1..], q)
  }

  /** Backslashes at the front of `s`. */
  function Backslashes(s: string): nat {
    if s == "" || s[0] != '\\' then 0 else 1 + Backslashes(s[1..])
  }

  /** From its start to its first quote, the literal has no quote right after an odd run of backslashes. */
  predicate EvenRun(s: string) {
    if s == "" || s[0] == '\'' then true
    else if s[0] != '\\' then EvenRun(s[1..])
    else
      var n := Backslashes(s);
      BackslashesFit(s);
      if n % 2 == 1 && n < |s| && s[n] == '\'' then false
      else if n < |s| then EvenRun(s[n..]) else true
  }

  lemma {:induction false} BackslashesFit(s: string)
    ensures Backslashes(s) <= |s|
    ensures s != "" && s[0] == '\\' ==> Backslashes(s) > 0
    ensures Backslashes(s) < |s| ==> s[Backslashes(s)] != '\\'
    decreases |s|
  {
    if s != "" && s[0] == '\\' { BackslashesFit(s[1..]); }
  }

  lemma TwoBackslashes(s: string)
    requires Backslashes(s) >= 2
    ensures |s| >= 2 && Backslashes(s[2..]) == Backslashes(s) - 2
    ensures AfterQuote(s, '\'') == AfterQuote(s[2..], '\'')
    ensures AfterStandardQuote(s, '\'') == AfterStandardQuote(s[2..], '\'')
  {
    assert s[1..][1..] == s[2..];
  }

  lemma OneBackslash(s: string)
    requires Backslashes(s) == 1
    ensures AfterQuote(s, '\'') == if |s| == 1 then None else AfterQuote(s[2..], '\'')
    ensures AfterStandardQuote(s, '\'') == AfterStandardQuote(s[1..], '\'')
  {
  }

  /** A standard reader passes over a run of backslashes; the scanners take them in pairs. */
  lemma {:induction false} RunOfBackslashes(s: string)
    ensures var n := Backslashes(s);
      && n <= |s|
      && AfterStandardQuote(s, '\'') == AfterStandardQuote(s[n..], '\'')
      && AfterQuote(s, '\'') ==
           if n % 2 == 0 then AfterQuote(s[n..], '\'')
           else if n == |s| then None else AfterQuote(s[n + 1..], '\'')
    decreases |s|
  {
    hide *;
    BackslashesFit(s);
    var n := Backslashes(s);
    if n == 0 {
      assert s[0..] == s;
    } else if n == 1 {
      OneBackslash(s);
    } else {
      TwoBackslashes(s);
      RunOfBackslashes(s[2..]);
      assert s[2..][n - 2..] == s[n..];
      if n < |s| { assert s[2..][n - 1..] == s[n + 1..]; }
    }
  }

  /** Both readers end a single-quoted literal alike exactly if its first quote follows no odd run of backslashes. */
  lemma {:induction false} SameEnd(s: string)
    ensures AfterQuote(s, '\'') == AfterStandardQuote(s, '\'') <==> EvenRun(s)
    ensures !EvenRun(s) ==>
      && AfterStandardQuote(s, '\'').Some?
      && (AfterQuote(s, '\'').Some? ==> |AfterQuote(s, '\'').value| < |AfterStandardQuote(s, '\'').value|)
    decreases |s|
  {
    if s != "" && s[0] != '\'' {
      if s[0] != '\\' {
        SameEnd(s[1..]);
      } else {
        BackslashesFit(s);
        RunOfBackslashes(s);
        var n := Backslashes(s);
        if n < |s| {
          SameEnd(s[n..]);
          if n % 2 == 1 && s[n] != '\'' { assert s[n..][1..] == s[n + 1..]; }
          if n % 2 == 1 && s[n] == '\'' { assert s[n..][1..] == s[n + 1..]; }
        }
      }
    }
  }

  lemma {:induction false} DoubleQuotesAgree(s: string)
    ensures AfterQuote(s, '"') == AfterStandardQuote(s, '"')
    decreases |s|
  {
    if s != "" { DoubleQuotesAgree(s[1..]); }
  }

  // ----- a whole text -----

  /** The scanners' lexer, with standard literals; a doubled quote still reads as two literals. */
  function StandardItem(s: string): (r: Item)
    requires s != ""
    ensures r.rest.Some? ==> |r.rest.value| < |s|
  {
    if !OpensWith(s, '-', '-') && !OpensWith(s, '/', '*') && IsQuote(s[0])
    then Item([Literal], AfterStandardQuote(s[1..], s[0])) else NextItem(s)
  }

  function EraseStandard(s: string): seq<Symbol>
    decreases |s|, 0
  {
    if s == "" then []
    else
      var item := StandardItem(s);
      item.symbols + if item.rest.Some? then EraseStandard(item.rest.value) else []
  }

  predicate StandardBoundary(s: string, k: nat)
    decreases |s|
  {
    if k == 0 then true
    else if s == "" then false
    else
      var rest := StandardItem(s).rest;
      rest.Some? && |s| - |rest.value| <= k && StandardBoundary(rest.value, k - (|s| - |rest.value|))
  }

  /** Every single-quoted literal, as the scanners read the text, ends where a standard one would. */
  predicate EvenLiterals(s: string)
    decreases |s|
  {
    s == ""
    || ((!OpensWith(s, '-', '-') && !OpensWith(s, '/', '*') && s[0] == '\'' ==> EvenRun(s[1..]))
        && (NextItem(s).rest.Some? ==> EvenLiterals(NextItem(s).rest.value)))
  }

  /** The next item is the same to both, or it is a single-quoted literal that the scanners read on for longer. */
  lemma SameItem(s: string)
    requires s != ""
    ensures var odd := !OpensWith(s, '-', '-') && !OpensWith(s, '/', '*') && s[0] == '\'' && !EvenRun(s[1..]);
      && (NextItem(s) == StandardItem(s) <==> !odd)
      && (odd ==>
            && StandardItem(s).rest.Some?
            && (NextItem(s).rest.Some? ==> |NextItem(s).rest.value| < |StandardItem(s).rest.value|))
  {
    if IsQuote(s[0]) {
      SameEnd(s[1..]);
      DoubleQuotesAgree(s[1..]);
    }
  }

  /** Where all literals end alike, both readers see the same text. */
  lemma {:induction false} SameErasure(s: string)
    requires EvenLiterals(s)
    ensures EraseStandard(s) == Erase(s)
    decreases |s|
  {
    if s != "" {
      SameItem(s);
      if NextItem(s).rest.Some? { SameErasure(NextItem(s).rest.value); }
    }
  }

  lemma {:induction false} SameBoundary(s: string, k: nat)
    requires EvenLiterals(s)
    ensures StandardBoundary(s, k) <==> Boundary(s, k)
    decreases |s|
  {
    if s != "" && k > 0 {
      SameItem(s);
      var rest := NextItem(s).rest;
      if rest.Some? && |s| - |rest.value| <= k { SameBoundary(rest.value, k - (|s| - |rest.value|)); }
    }
  }

  /** The first literal that ends differently gives a boundary that the scanners do not see. */
  lemma {:induction false} FirstDifference(s: string) returns (k: nat)
    requires !EvenLiterals(s)
    ensures StandardBoundary(s, k) && !Boundary(s, k)
    decreases |s|
  {
    SameItem(s);
    var rest := StandardItem(s).rest;
    if NextItem(s) == StandardItem(s) {
      var j := FirstDifference(rest.value);
      k := |s| - |rest.value| + j;
    } else {
      k := |s| - |rest.value|;
    }
  }

  /**
    Both readers cut a text at the same places if and only if no single-quoted literal has its first
    quote right after an odd run of backslashes; then they see the same keyword and statements.
   */
  lemma ReadersAgree(s: string)
    ensures (forall k: nat :: StandardBoundary(s, k) <==> Boundary(s, k)) <==> EvenLiterals(s)
    ensures EvenLiterals(s) ==> EraseStandard(s) == Erase(s)
  {
    if EvenLiterals(s) {
      SameErasure(s);
      forall k: nat ensures StandardBoundary(s, k) <==> Boundary(s, k) { SameBoundary(s, k); }
    } else {
      var k := FirstDifference(s);
    }
  }

  /** An escaped quote: one literal to the scanners, a literal and a second statement to a standard reader. */
  lemma EscapedQuote(u: Unicode)
    requires !u.isWhitespace('x')
    ensures Erase("'\\';x'") == [Literal] && !EvenLiterals("'\\';x'")
    ensures Chained(u, EraseStandard("'\\';x'")) && !Chained(u, Erase("'\\';x'"))
  {
    var s := "'\\';x'";
    assert s[1..] == "\\';x'" && s[1..][1..] == "';x'" && s[1..][2..] == ";x'";
    assert ";x'"[1..] == "x'" && "x'"[1..] == "'" && "'"[1..] == "";
    assert "';x'"[1..] == ";x'";
    assert EraseStandard("'") == [Literal];
    assert EraseStandard("x'") == [Plain('x'), Literal];
    assert EraseStandard(";x'") == [Plain(';'), Plain('x'), Literal];
    var std := EraseStandard(s);
    assert std == [Literal, Plain(';'), Plain('x'), Literal];
    assert std[1] == Plain(';') && Ink(u, std[2]);
    assert !EvenRun(s[1..]) by { assert Backslashes("\\';x'") == 1; }
  }
}
