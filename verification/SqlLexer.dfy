/** What the raw-SQL scanners see of a text: comments vanish, every string literal is one marker. */
module SqlLexer {
  import opened Wrappers

  datatype Symbol = Plain(c: char) | Literal

  // ----- where a comment or a literal ends: the text after it, if it ends at all -----

  function AfterLine(s: string): (r: Option<string>)
    ensures r.Some? ==> |r.value| < |s|
  {
    if s == "" then None else if s[0] == '\n' then Some(s[1..]) else AfterLine(s[1..])
  }

  function AfterBlock(s: string): (r: Option<string>)
    ensures r.Some? ==> |r.value| < |s|
  {
    if s == "" then None else if OpensWith(s, '*', '/') then Some(s[2..]) else AfterBlock(s[1..])
  }

  /** A backslash escapes the next character of a single-quoted literal only. */
  function AfterQuote(s: string, q: char): (r: Option<string>)
    ensures r.Some? ==> |r.value| < |s|
  {
    if s == "" then None
    else if s[0] == q then Some(s[1..])
    else if s[0] == '\\' && q == '\'' then (if |s| == 1 then None else AfterQuote(s[2..], q))
    else AfterQuote(s[1..], q)
  }

  predicate OpensWith(s: string, c: char, d: char) { |s| >= 2 && s[0] == c && s[1] == d }

  predicate IsQuote(c: char) { c == '\'' || c == '"' }

  // ----- the lexer -----

  /** One lexical item: the symbols it leaves and the text after it. */
  datatype Item = Item(symbols: seq<Symbol>, rest: Option<string>)

  function NextItem(s: string): (r: Item)
    requires s != ""
    ensures r.rest.Some? ==> |r.rest.value| < |s|
  {
    if OpensWith(s, '-', '-') then Item([], AfterLine(s[2..]))
    else if OpensWith(s, '/', '*') then Item([], AfterBlock(s[2..]))
    else if IsQuote(s[0]) then Item([Literal], AfterQuote(s[1..], s[0]))
    else Item([Plain(s[0])], Some(s[1..]))
  }

  function Erase(s: string): seq<Symbol>
    decreases |s|, 0
  {
    if s == "" then []
    else
      var item := NextItem(s);
      item.symbols + EraseRest(item.rest)
  }

  /** An unterminated comment or literal swallows the rest of the text. */
  function EraseRest(rest: Option<string>): seq<Symbol>
    decreases if rest.Some? then |rest.value| else 0, 1
  {
    if rest.Some? then Erase(rest.value) else []
  }

  /** Position `k` lies between two items: outside comments and literals, not inside an opener. */
  predicate Boundary(s: string, k: nat)
    decreases |s|
  {
    if k == 0 then true
    else if s == "" then false
    else
      var rest := NextItem(s).rest;
      rest.Some? && |s| - |rest.value| <= k && Boundary(rest.value, k - (|s| - |rest.value|))
  }

  // ----- composition -----

  lemma {:induction false} AfterLineAppend(u: string, x: string)
    ensures AfterLine(u).Some? ==> AfterLine(u + x) == Some(AfterLine(u).value + x)
    ensures AfterLine(u).None? && AfterLine(u + x).Some? ==> |AfterLine(u + x).value| < |x|
    decreases |u|
  {
    if u == "" {
      assert u + x == x;
    } else {
      assert (u + x)[1..] == u[1..] + x;
      AfterLineAppend(u[1..], x);
    }
  }

  lemma {:induction false} AfterBlockAppend(u: string, x: string)
    ensures AfterBlock(u).Some? ==> AfterBlock(u + x) == Some(AfterBlock(u).value + x)
    ensures AfterBlock(u).None? && AfterBlock(u + x).Some? ==> |AfterBlock(u + x).value| < |x|
    decreases |u|
  {
    if u == "" {
      assert u + x == x;
    } else {
      assert (u + x)[1..] == u[1..] + x;
      if OpensWith(u, '*', '/') {
        assert (u + x)[2..] == u[2..] + x;
      }
      AfterBlockAppend(u[1..], x);
    }
  }

  lemma {:induction false} AfterQuoteAppend(u: string, x: string, q: char)
    ensures AfterQuote(u, q).Some? ==> AfterQuote(u + x, q) == Some(AfterQuote(u, q).value + x)
    ensures AfterQuote(u, q).None? && AfterQuote(u + x, q).Some? ==> |AfterQuote(u + x, q).value| < |x|
    decreases |u|
  {
    if u == "" {
      assert u + x == x;
    } else {
      assert (u + x)[1..] == u[1..] + x;
      if u[0] == '\\' && q == '\'' && |u| >= 2 {
        assert (u + x)[2..] == u[2..] + x;
        AfterQuoteAppend(u[2..], x, q);
      } else if u[0] == '\\' && q == '\'' {
        assert x != "" ==> (u + x)[2..] == x[1..];
      } else {
        AfterQuoteAppend(u[1..], x, q);
      }
    }
  }

  /** The two characters around a seam would together open a comment. */
  predicate Fuses(a: string, b: string) {
    |a| == 1 && b != "" && ((a[0] == '-' && b[0] == '-') || (a[0] == '/' && b[0] == '*'))
  }

  /** An item that closes inside `a` is the same item whatever follows `a`. */
  lemma NextItemAppend(a: string, b: string)
    requires a != "" && !Fuses(a, b)
    ensures NextItem(a + b).symbols == NextItem(a).symbols
    ensures NextItem(a).rest.Some? ==> NextItem(a + b).rest == Some(NextItem(a).rest.value + b)
    ensures NextItem(a).rest.None? && NextItem(a + b).rest.Some? ==> |NextItem(a + b).rest.value| < |b|
  {
    hide AfterLine, AfterBlock, AfterQuote;
    assert (a + b)[1..] == a[1..] + b;
    if |a| >= 2 {
      assert (a + b)[2..] == a[2..] + b;
      AfterLineAppend(a[2..], b);
      AfterBlockAppend(a[2..], b);
    }
    AfterQuoteAppend(a[1..], b, a[0]);
  }

  lemma FusedIsNoBoundary(a: string, b: string)
    requires Fuses(a, b)
    ensures !Boundary(a + b, |a|)
  {
    assert OpensWith(a + b, '-', '-') || OpensWith(a + b, '/', '*');
  }

  /** Lexing is compositional at every boundary. */
  lemma {:induction false} EraseAtBoundary(a: string, b: string)
    requires Boundary(a + b, |a|)
    ensures Erase(a + b) == Erase(a) + Erase(b)
    decreases |a|
  {
    if a == "" {
      assert a + b == b;
    } else {
      hide NextItem, Fuses;
      if Fuses(a, b) { FusedIsNoBoundary(a, b); }
      NextItemAppend(a, b);
      EraseAtBoundary(NextItem(a).rest.value, b);
    }
  }

  predicate EndsWith(a: string, c: char) { a != "" && a[|a| - 1] == c }

  /** The text after a seam can be exchanged, as long as the new seam fuses nothing. */
  lemma {:induction false} BoundaryTransfer(a: string, b: string, x: string)
    requires Boundary(a + b, |a|)
    requires x != "" ==> !(EndsWith(a, '-') && x[0] == '-') && !(EndsWith(a, '/') && x[0] == '*')
    ensures Boundary(a + x, |a|)
    decreases |a|
  {
    if a != "" {
      hide NextItem;
      if Fuses(a, b) { FusedIsNoBoundary(a, b); }
      NextItemAppend(a, b);
      NextItemAppend(a, x);
      var rest := NextItem(a).rest.value;
      ItemIsPrefix(a);
      BoundaryTransfer(rest, b, x);
    }
  }

  lemma {:induction false} SuffixLine(s: string)
    ensures AfterLine(s).Some? ==>
      var k := |s| - |AfterLine(s).value|; s[k - 1] == '\n' && s[k..] == AfterLine(s).value
    decreases |s|
  {
    if s != "" { SuffixLine(s[1..]); }
  }

  lemma {:induction false} SuffixBlock(s: string)
    ensures AfterBlock(s).Some? ==>
      var k := |s| - |AfterBlock(s).value|; s[k - 1] == '/' && s[k..] == AfterBlock(s).value
    decreases |s|
  {
    if s != "" { SuffixBlock(s[1..]); }
  }

  lemma {:induction false} SuffixQuote(s: string, q: char)
    ensures AfterQuote(s, q).Some? ==>
      var k := |s| - |AfterQuote(s, q).value|; s[k - 1] == q && s[k..] == AfterQuote(s, q).value
    decreases |s|
  {
    if s != "" {
      SuffixQuote(s[1..], q);
      if |s| >= 2 { SuffixQuote(s[2..], q); }
    }
  }

  /** An item is a prefix of the text, and only a lone plain dash ends in a dash. */
  lemma ItemIsPrefix(s: string)
    requires s != ""
    ensures NextItem(s).rest.Some? ==>
      var k := |s| - |NextItem(s).rest.value|;
      && s[k..] == NextItem(s).rest.value
      && (s[k - 1] == '-' ==> k == 1)
  {
    hide AfterLine, AfterBlock, AfterQuote;
    if |s| >= 2 {
      SuffixLine(s[2..]);
      SuffixBlock(s[2..]);
    }
    SuffixQuote(s[1..], s[0]);
  }

  // ----- inserting a comment -----

  predicate NoBlockEnd(body: string) {
    forall i :: 0 <= i < |body| - 1 ==> !(body[i] == '*' && body[i + 1] == '/')
  }

  function BlockComment(body: string): string { "/*" + body + "*/" }

  function LineComment(body: string): string { "--" + body + "\n" }

  lemma {:induction false} BlockCloses(body: string, b: string)
    requires NoBlockEnd(body)
    ensures AfterBlock(body + "*/" + b) == Some(b)
    decreases |body|
  {
    var s := body + "*/" + b;
    if body == "" {
      assert s[2..] == b;
    } else {
      assert s[1..] == body[1..] + "*/" + b;
      BlockCloses(body[1..], b);
      assert body[0] == '*' ==> s[1] == if |body| >= 2 then body[1] else '*';
    }
  }

  lemma {:induction false} LineCloses(body: string, b: string)
    requires '\n' !in body
    ensures AfterLine(body + "\n" + b) == Some(b)
    decreases |body|
  {
    var s := body + "\n" + b;
    if body == "" {
      assert s[1..] == b;
    } else {
      assert s[1..] == body[1..] + "\n" + b;
      LineCloses(body[1..], b);
    }
  }

  /** A block comment may go anywhere between two items. */
  lemma BlockCommentVanishes(a: string, body: string, b: string)
    requires Boundary(a + b, |a|) && NoBlockEnd(body)
    ensures Erase(a + BlockComment(body) + b) == Erase(a + b)
  {
    var x := BlockComment(body) + b;
    assert x[2..] == body + "*/" + b;
    BlockCloses(body, b);
    BoundaryTransfer(a, b, x);
    EraseAtBoundary(a, b);
    EraseAtBoundary(a, x);
    assert a + BlockComment(body) + b == a + x;
    assert Erase(x) == Erase(b);
  }

  /** A line comment may go between two items exactly when no dash comes right before it. */
  lemma LineCommentVanishes(a: string, body: string, b: string)
    requires Boundary(a + b, |a|) && '\n' !in body
    ensures Erase(a + LineComment(body) + b) == Erase(a + b) <==> !EndsWith(a, '-')
  {
    var x := LineComment(body) + b;
    assert a + LineComment(body) + b == a + x;
    EraseAtBoundary(a, b);
    if !EndsWith(a, '-') {
      LineCommentAlone(body, b);
      BoundaryTransfer(a, b, x);
      EraseAtBoundary(a, x);
    } else {
      DashIsSwallowed(a, body, b);
      assert |Erase(a + x)| < |Erase(a + b)|;
    }
  }

  /** A dash right before a boundary is a plain character, with no dash on either side. */
  lemma {:induction false} LastDashIsPlain(a: string, b: string)
    requires Boundary(a + b, |a|) && EndsWith(a, '-')
    ensures Boundary(a + b, |a| - 1) && !EndsWith(a[..|a| - 1], '-')
    ensures b != "" ==> b[0] != '-'
    decreases |a|
  {
    if Fuses(a, b) { FusedIsNoBoundary(a, b); }
    NextItemAppend(a, b);
    ItemIsPrefix(a);
    if |a| > 1 {
      LastDashIsPlain(NextItem(a).rest.value, b);
    }
  }

  lemma LineCommentAlone(body: string, b: string)
    requires '\n' !in body
    ensures Erase(LineComment(body) + b) == Erase(b)
  {
    assert (LineComment(body) + b)[2..] == body + "\n" + b;
    LineCloses(body, b);
  }

  lemma PlainDash(b: string)
    requires b != "" ==> b[0] != '-'
    ensures Erase("-" + b) == [Plain('-')] + Erase(b)
  {
    assert ("-" + b)[1..] == b;
  }

  /** With a dash in front, the comment starts one character early and the dash is lost. */
  lemma DashIsSwallowed(a: string, body: string, b: string)
    requires Boundary(a + b, |a|) && '\n' !in body && EndsWith(a, '-')
    ensures Erase(a + b) == Erase(a[..|a| - 1]) + ([Plain('-')] + Erase(b))
    ensures Erase(a + (LineComment(body) + b)) == Erase(a[..|a| - 1]) + Erase(b)
  {
    hide Erase, Boundary;
    var a', x := a[..|a| - 1], LineComment("-" + body) + b;
    LastDashIsPlain(a, b);
    assert a + b == a' + ("-" + b);
    EraseAtBoundary(a', "-" + b);
    BoundaryTransfer(a', "-" + b, x);
    EraseAtBoundary(a', x);
    assert a + (LineComment(body) + b) == a' + x;
    LineCommentAlone("-" + body, b);
    PlainDash(b);
  }

  // ----- what is left of plain text and literals -----

  /** Outside quotes and openers every character is left as it is. */
  lemma {:induction false} PlainTextIsItself(s: string)
    requires forall i :: 0 <= i < |s| ==> s[i] != '\'' && s[i] != '"'
    requires forall i :: 0 <= i < |s| - 1 ==> !(s[i] == '-' && s[i + 1] == '-') && !(s[i] == '/' && s[i + 1] == '*')
    ensures |Erase(s)| == |s| && forall i :: 0 <= i < |s| ==> Erase(s)[i] == Plain(s[i])
    decreases |s|
  {
    if s != "" {
      PlainTextIsItself(s[1..]);
      assert Erase(s) == [Plain(s[0])] + Erase(s[1..]);
    }
  }

  lemma {:induction false} QuoteCloses(body: string, q: char, b: string)
    requires q !in body && (q == '\'' ==> '\\' !in body) && (q == '\'' || q == '"')
    ensures AfterQuote(body + [q] + b, q) == Some(b)
    ensures AfterQuote(body, q) == None
    decreases |body|
  {
    var s := body + [q] + b;
    if body == "" {
      assert s[1..] == b;
    } else {
      assert s[1..] == body[1..] + [q] + b;
      QuoteCloses(body[1..], q, b);
    }
  }

  /** A closed literal, in either kind of quotes, leaves one marker, whatever it holds; an open one swallows the rest. */
  lemma LiteralIsOneMarker(body: string, q: char, b: string)
    requires q !in body && (q == '\'' ==> '\\' !in body) && (q == '\'' || q == '"')
    ensures Erase([q] + (body + [q] + b)) == [Literal] + Erase(b)
    ensures Erase([q] + body) == [Literal]
  {
    QuoteCloses(body, q, b);
    assert ([q] + (body + [q] + b))[1..] == body + [q] + b;
    assert ([q] + body)[1..] == body;
  }

  /** A line comment without line end and a block comment without end swallow the rest. */
  lemma {:induction false} OpenCommentsSwallow(body: string)
    ensures '\n' !in body ==> Erase("--" + body) == []
    ensures (forall i :: 0 <= i < |body| - 1 ==> !(body[i] == '*' && body[i + 1] == '/')) ==> Erase("/*" + body) == []
  {
    assert ("--" + body)[2..] == body && ("/*" + body)[2..] == body;
    if '\n' !in body { NoLineEnd(body); }
    if forall i :: 0 <= i < |body| - 1 ==> !(body[i] == '*' && body[i + 1] == '/') { NoCommentEnd(body); }
  }

  lemma {:induction false} NoLineEnd(body: string)
    requires '\n' !in body
    ensures AfterLine(body) == None
    decreases |body|
  {
    if body != "" { NoLineEnd(body[1..]); }
  }

  lemma {:induction false} NoCommentEnd(body: string)
    requires forall i :: 0 <= i < |body| - 1 ==> !(body[i] == '*' && body[i + 1] == '/')
    ensures AfterBlock(body) == None
    decreases |body|
  {
    if body != "" { NoCommentEnd(body[1..]); }
  }
}
