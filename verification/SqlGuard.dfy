/** The two raw-SQL scanners and the statement filter built on them. */
module SqlGuard {
  import opened Wrappers
  import opened SqlLexer

  /** Unicode's character classes and upper-casing, which the scanners only call. */
  datatype Unicode = Unicode(isAlphanumeric: char -> bool, isWhitespace: char -> bool, upper: string -> string)
  {
    predicate IsWord(c: char) { isAlphanumeric(c) || c == '_' }

    /** No character is both part of a word and white space. */
    ghost predicate Proper() { forall c: char :: !(IsWord(c) && isWhitespace(c)) }
  }

  // ----- what the scanners are to compute, on the erased text -----

  /** The erased text without its literal markers. */
  function Letters(symbols: seq<Symbol>): string {
    if symbols == [] then ""
    else (if symbols[0].Plain? then [symbols[0].c] else "") + Letters(symbols[1..])
  }

  /** The longest word at the front of `t`. */
  function LeadingWord(u: Unicode, t: string): (w: string)
    ensures w <= t && forall c :: c in w ==> u.IsWord(c)
    ensures |w| < |t| ==> !u.IsWord(t[|w|])
  {
    if t == "" || !u.IsWord(t[0]) then "" else [t[0]] + LeadingWord(u, t[1..])
  }

  /** The first maximal run of word characters, empty if there is none. */
  function FirstWord(u: Unicode, t: string): string {
    if t == "" then "" else if u.IsWord(t[0]) then LeadingWord(u, t) else FirstWord(u, t[1..])
  }

  function Keyword(u: Unicode, sql: string): Option<string> {
    var w := FirstWord(u, Letters(Erase(sql)));
    if w == "" then None else Some(u.upper(w))
  }

  predicate Ink(u: Unicode, x: Symbol) { x.Plain? ==> !u.isWhitespace(x.c) }

  /** Something other than white space follows some semicolon. */
  ghost predicate Chained(u: Unicode, symbols: seq<Symbol>) {
    exists i, j :: 0 <= i < j < |symbols| && symbols[i] == Plain(';') && Ink(u, symbols[j])
  }

  /** `FirstWord` is what it says: only non-words before it, and no word character right after. */
  lemma {:induction false} FirstWordSplits(u: Unicode, t: string) returns (pre: string, post: string)
    ensures t == pre + FirstWord(u, t) + post
    ensures forall c :: c in pre ==> !u.IsWord(c)
    ensures forall c :: c in FirstWord(u, t) ==> u.IsWord(c)
    ensures post != "" ==> !u.IsWord(post[0])
    ensures FirstWord(u, t) == "" <==> forall c :: c in t ==> !u.IsWord(c)
    decreases |t|
  {
    if t == "" {
      pre, post := "", "";
    } else if u.IsWord(t[0]) {
      var w := LeadingWord(u, t);
      pre, post := "", t[|w|..];
      assert t[0] in t;
    } else {
      pre, post := FirstWordSplits(u, t[1..]);
      pre := [t[0]] + pre;
    }
  }

  /** The same, a word being made of alphanumeric characters and underscores. */
  lemma FirstWordIsMaximal(u: Unicode, t: string) returns (pre: string, post: string)
    ensures t == pre + FirstWord(u, t) + post
    ensures forall c :: c in pre ==> !u.isAlphanumeric(c) && c != '_'
    ensures forall c :: c in FirstWord(u, t) ==> u.isAlphanumeric(c) || c == '_'
    ensures post != "" ==> !u.isAlphanumeric(post[0]) && post[0] != '_'
    ensures FirstWord(u, t) == "" <==> forall c :: c in t ==> !u.isAlphanumeric(c) && c != '_'
  {
    hide FirstWord;
    pre, post := FirstWordSplits(u, t);
  }

  // ----- the loops -----

  /** What is left to see of `s` when a scanner is in the given mode. */
  function Rest(block: bool, line: bool, inString: bool, quote: char, s: string): seq<Symbol> {
    if block then EraseRest(AfterBlock(s))
    else if line then EraseRest(AfterLine(s))
    else if inString then EraseRest(AfterQuote(s, quote))
    else Erase(s)
  }

  /** What is left to see after one more turn of either loop. */
  function RestAfterTurn(block: bool, line: bool, inString: bool, quote: char, s: string): seq<Symbol>
    requires s != ""
  {
    if block then
      if OpensWith(s, '*', '/') then Rest(false, false, false, quote, s[2..]) else Rest(true, false, false, quote, s[1..])
    else if line then
      if s[0] == '\n' then Rest(false, false, false, quote, s[1..]) else Rest(false, true, false, quote, s[1..])
    else if inString then
      if s[0] == quote then Rest(false, false, false, quote, s[1..])
      else if s[0] == '\\' && quote == '\'' then
        Rest(false, false, true, quote, if |s| == 1 then s[1..] else s[2..])
      else Rest(false, false, true, quote, s[1..])
    else if OpensWith(s, '-', '-') then Rest(false, true, false, quote, s[2..])
    else if OpensWith(s, '/', '*') then Rest(true, false, false, quote, s[2..])
    else if IsQuote(s[0]) then [Literal] + Rest(false, false, true, s[0], s[1..])
    else [Plain(s[0])] + Rest(false, false, false, quote, s[1..])
  }

  lemma Turn(block: bool, line: bool, inString: bool, quote: char, s: string)
    requires s != ""
    ensures Rest(block, line, inString, quote, s) == RestAfterTurn(block, line, inString, quote, s)
  {
    var rest := EraseRest(NextItem(s).rest);
    assert [] + rest == rest;
  }

  lemma RestOfNothing(u: Unicode, block: bool, line: bool, inString: bool, quote: char, token: string)
    ensures Rest(block, line, inString, quote, "") == []
    ensures Resume(u, token, Letters([])) == token
  {
  }

  lemma RestAtStart(u: Unicode, quote: char, s: string)
    ensures Rest(false, false, false, quote, s) == Erase(s)
    ensures FirstWord(u, Letters(Erase(s))) == Resume(u, "", Letters(Erase(s)))
  {
  }

  lemma LettersStep(x: Symbol, rest: seq<Symbol>)
    ensures Letters([x] + rest) == if x.Plain? then [x.c] + Letters(rest) else Letters(rest)
  {
    assert ([x] + rest)[1..] == rest;
  }

  /** The answer once `token` has been collected and `t` is still to come. */
  function Resume(u: Unicode, token: string, t: string): string {
    if token == "" then FirstWord(u, t) else token + LeadingWord(u, t)
  }

  lemma ResumeStep(u: Unicode, token: string, c: char, t: string)
    ensures Resume(u, token, [c] + t) ==
      if u.IsWord(c) then Resume(u, token + [c], t)
      else if token == "" then Resume(u, "", t)
      else token
  {
    assert ([c] + t)[1..] == t;
    assert token + [c] + LeadingWord(u, t) == token + ([c] + LeadingWord(u, t));
  }

  method FirstSqlKeyword(u: Unicode, sql: string) returns (r: Option<string>)
    ensures r == Keyword(u, sql)
  {
    hide Rest, Erase, Letters, Resume, FirstWord, LeadingWord;
    ghost var stopped := false;
    var inBlockComment, inLineComment, inString, quote := false, false, false, '\0';
    var token := "";
    var i := 0;
    ghost var answer := FirstWord(u, Letters(Erase(sql)));
    RestAtStart(u, quote, sql);
    assert sql[0..] == sql;
    while i < |sql|
      invariant 0 <= i <= |sql|
      invariant (inBlockComment ==> !inLineComment && !inString) && (inLineComment ==> !inString)
      invariant !stopped
      invariant answer == Resume(u, token, Letters(Rest(inBlockComment, inLineComment, inString, quote, sql[i..])))
      decreases |sql| - i
    {
      var c := sql[i];
      ghost var s := sql[i..];
      assert s[1..] == sql[i + 1..] && (i + 1 < |sql| ==> s[2..] == sql[i + 2..]);
      Turn(inBlockComment, inLineComment, inString, quote, s);
      i := i + 1;
      if inBlockComment {
        if c == '*' && i < |sql| && sql[i] == '/' {
          i := i + 1;
          inBlockComment := false;
        }
      } else if inLineComment {
        if c == '\n' {
          inLineComment := false;
        }
      } else if inString {
        if c == quote {
          inString := false;
        } else if c == '\\' && quote == '\'' {
          i := if i < |sql| then i + 1 else i;
        }
      } else if c == '-' && i < |sql| && sql[i] == '-' {
        i := i + 1;
        inLineComment := true;
      } else if c == '/' && i < |sql| && sql[i] == '*' {
        i := i + 1;
        inBlockComment := true;
      } else if c == '\'' || c == '"' {
        LettersStep(Literal, Rest(false, false, true, c, s[1..]));
        inString, quote := true, c;
      } else {
        ghost var rest := Rest(false, false, false, quote, s[1..]);
        LettersStep(Plain(c), rest);
        ResumeStep(u, token, c, Letters(rest));
        if u.isAlphanumeric(c) || c == '_' {
          token := token + [c];
        } else if token != "" {
          stopped := true;
          break;
        }
      }
    }
    if !stopped {
      assert sql[i..] == "";
      RestOfNothing(u, inBlockComment, inLineComment, inString, quote, token);
    }
    assert answer == token;
    r := if token == "" then None else Some(u.upper(token));
  }

  /** The answer once a semicolon was (or was not) seen and `symbols` are still to come. */
  ghost predicate ChainedFrom(u: Unicode, saw: bool, symbols: seq<Symbol>) {
    if saw then exists j :: 0 <= j < |symbols| && Ink(u, symbols[j]) else Chained(u, symbols)
  }

  lemma ChainedStep(u: Unicode, saw: bool, x: Symbol, rest: seq<Symbol>)
    ensures ChainedFrom(u, saw, [x] + rest) <==>
      (saw && Ink(u, x)) || ChainedFrom(u, saw || x == Plain(';'), rest)
  {
    var all := [x] + rest;
    assert forall k :: 0 <= k < |rest| ==> all[k + 1] == rest[k];
    if saw {
      assert Ink(u, x) ==> Ink(u, all[0]);
      if j :| 0 <= j < |all| && Ink(u, all[j]) {
        assert j > 0 ==> Ink(u, rest[j - 1]);
      }
      if j :| 0 <= j < |rest| && Ink(u, rest[j]) {
        assert Ink(u, all[j + 1]);
      }
    } else {
      if i, j :| 0 <= i < j < |all| && all[i] == Plain(';') && Ink(u, all[j]) {
        assert Ink(u, rest[j - 1]);
        assert i > 0 ==> rest[i - 1] == Plain(';');
      }
      if x == Plain(';') {
        if j :| 0 <= j < |rest| && Ink(u, rest[j]) {
          assert all[0] == Plain(';') && Ink(u, all[j + 1]);
        }
      } else if i, j :| 0 <= i < j < |rest| && rest[i] == Plain(';') && Ink(u, rest[j]) {
        assert all[i + 1] == Plain(';') && Ink(u, all[j + 1]);
      }
    }
  }

  method HasMultipleStatements(u: Unicode, sql: string) returns (r: bool)
    ensures r <==> Chained(u, Erase(sql))
  {
    hide Rest, Erase, Chained, ChainedFrom;
    var inBlockComment, inLineComment, inString, quote := false, false, false, '\0';
    var sawSemicolon := false;
    var i := 0;
    ChainedAtStart(u, quote, sql);
    assert sql[0..] == sql;
    while i < |sql|
      invariant 0 <= i <= |sql|
      invariant (inBlockComment ==> !inLineComment && !inString) && (inLineComment ==> !inString)
      invariant Chained(u, Erase(sql)) <==>
        ChainedFrom(u, sawSemicolon, Rest(inBlockComment, inLineComment, inString, quote, sql[i..]))
      decreases |sql| - i
    {
      var c := sql[i];
      ghost var s := sql[i..];
      assert s[1..] == sql[i + 1..] && (i + 1 < |sql| ==> s[2..] == sql[i + 2..]);
      Turn(inBlockComment, inLineComment, inString, quote, s);
      i := i + 1;
      if inBlockComment {
        if c == '*' && i < |sql| && sql[i] == '/' {
          i := i + 1;
          inBlockComment := false;
        }
      } else if inLineComment {
        if c == '\n' {
          inLineComment := false;
        }
      } else if inString {
        if c == quote {
          inString := false;
        } else if c == '\\' && quote == '\'' {
          i := if i < |sql| then i + 1 else i;
        }
      } else if c == '-' && i < |sql| && sql[i] == '-' {
        i := i + 1;
        inLineComment := true;
      } else if c == '/' && i < |sql| && sql[i] == '*' {
        i := i + 1;
        inBlockComment := true;
      } else if c == '\'' || c == '"' {
        ChainedStep(u, sawSemicolon, Literal, Rest(false, false, true, c, s[1..]));
        if sawSemicolon {
          return true;
        }
        inString, quote := true, c;
      } else {
        ChainedStep(u, sawSemicolon, Plain(c), Rest(false, false, false, quote, s[1..]));
        if sawSemicolon {
          if !u.isWhitespace(c) {
            return true;
          }
        } else if c == ';' {
          sawSemicolon := true;
        }
      }
    }
    assert sql[i..] == "";
    ChainedAtEnd(u, inBlockComment, inLineComment, inString, quote, sawSemicolon);
    return false;
  }

  lemma ChainedAtStart(u: Unicode, quote: char, s: string)
    ensures Rest(false, false, false, quote, s) == Erase(s)
    ensures Chained(u, Erase(s)) <==> ChainedFrom(u, false, Erase(s))
  {
  }

  lemma ChainedAtEnd(u: Unicode, block: bool, line: bool, inString: bool, quote: char, saw: bool)
    ensures !ChainedFrom(u, saw, Rest(block, line, inString, quote, ""))
  {
  }

  // ----- the statement filter -----

  datatype SqlError = EmptyStatement | MultipleStatements | UnknownType | Destructive | NotAllowed | Blocked

  const DESTRUCTIVE_KEYWORDS: seq<string> := ["DROP", "TRUNCATE", "ALTER"]

  function AsciiLower(c: char): char {
    if 'A' <= c <= 'Z' then (c as int + 32) as char else c
  }

  predicate EqIgnoreAsciiCase(s: string, t: string) {
    |s| == |t| && forall i :: 0 <= i < |s| ==> AsciiLower(s[i]) == AsciiLower(t[i])
  }

  predicate Lists(list: seq<string>, keyword: string) {
    exists i :: 0 <= i < |list| && EqIgnoreAsciiCase(list[i], keyword)
  }

  predicate Blank(u: Unicode, sql: string) { forall c :: c in sql ==> u.isWhitespace(c) }

  /** The filter's verdict, given the two scanners' answers. */
  function Verdict(u: Unicode, multiple: bool, keyword: Option<string>, allowlist: Option<seq<string>>,
                   blocklist: Option<seq<string>>, allowDestructive: bool): Result<(), SqlError>
  {
    if !allowDestructive && multiple then Err(MultipleStatements)
    else if keyword.None? then Err(UnknownType)
    else if u.upper(keyword.value) in DESTRUCTIVE_KEYWORDS then
      if allowDestructive then Ok(()) else Err(Destructive)
    else if allowlist.Some? && !Lists(allowlist.value, keyword.value) then Err(NotAllowed)
    else if blocklist.Some? && Lists(blocklist.value, keyword.value) then Err(Blocked)
    else Ok(())
  }

  ghost function Validated(u: Unicode, sql: string, allowlist: Option<seq<string>>,
                           blocklist: Option<seq<string>>, allowDestructive: bool): Result<(), SqlError>
  {
    if Blank(u, sql) then Err(EmptyStatement)
    else Verdict(u, Chained(u, Erase(sql)), Keyword(u, sql), allowlist, blocklist, allowDestructive)
  }

  method ValidateRawSql(u: Unicode, sql: string, allowlist: Option<seq<string>>,
                        blocklist: Option<seq<string>>, allowDestructive: bool)
    returns (r: Result<(), SqlError>)
    ensures r == Validated(u, sql, allowlist, blocklist, allowDestructive)
  {
    if Blank(u, sql) {
      return Err(EmptyStatement);
    }
    if !allowDestructive {
      var multiple := HasMultipleStatements(u, sql);
      if multiple {
        return Err(MultipleStatements);
      }
    }
    var keyword := FirstSqlKeyword(u, sql);
    if keyword.None? {
      return Err(UnknownType);
    }
    var upper := u.upper(keyword.value);
    if !allowDestructive && upper in DESTRUCTIVE_KEYWORDS {
      return Err(Destructive);
    }
    if allowDestructive && upper in DESTRUCTIVE_KEYWORDS {
      return Ok(());
    }
    if allowlist.Some? && !Lists(allowlist.value, keyword.value) {
      return Err(NotAllowed);
    }
    if blocklist.Some? && Lists(blocklist.value, keyword.value) {
      return Err(Blocked);
    }
    return Ok(());
  }

  /** A text of nothing but white space has no keyword. */
  lemma {:induction false} BlankHasNoKeyword(u: Unicode, s: string)
    requires u.Proper() && Blank(u, s)
    ensures Keyword(u, s) == None
  {
    OnlyOwnLetters(s);
    var t := Letters(Erase(s));
    var pre, post := FirstWordIsMaximal(u, t);
    assert forall c :: c in t ==> u.isWhitespace(c);
  }

  /** Erasing invents no characters. */
  lemma {:induction false} OnlyOwnLetters(s: string)
    ensures forall c :: c in Letters(Erase(s)) ==> c in s
    decreases |s|
  {
    if s != "" {
      var item := NextItem(s);
      ItemIsPrefix(s);
      var rest := EraseRest(item.rest);
      if item.symbols != [] {
        LettersStep(item.symbols[0], rest);
        assert item.symbols == [item.symbols[0]];
      } else {
        assert [] + rest == rest;
      }
      if item.rest.Some? {
        OnlyOwnLetters(item.rest.value);
        assert forall c :: c in item.rest.value ==> c in s[|s| - |item.rest.value|..];
      }
    }
  }

  /** The comments that can be inserted at the seam of `a` and `b` without being lexed differently. */
  predicate Insertable(a: string, comment: string, b: string, body: string) {
    && Boundary(a + b, |a|)
    && ((comment == BlockComment(body) && NoBlockEnd(body))
        || (comment == LineComment(body) && '\n' !in body && !EndsWith(a, '-')))
  }

  /** Inserting a comment between two items changes neither scanner's answer nor what is accepted. */
  lemma CommentsChangeNothing(u: Unicode, a: string, comment: string, b: string, body: string)
    requires u.Proper() && Insertable(a, comment, b, body)
    ensures Keyword(u, a + comment + b) == Keyword(u, a + b)
    ensures Chained(u, Erase(a + comment + b)) == Chained(u, Erase(a + b))
    ensures forall allow, block, destructive ::
      Validated(u, a + comment + b, allow, block, destructive).Ok?
      == Validated(u, a + b, allow, block, destructive).Ok?
  {
    if comment == BlockComment(body) && NoBlockEnd(body) {
      BlockCommentVanishes(a, body, b);
    } else {
      LineCommentVanishes(a, body, b);
    }
    if Blank(u, a + b) {
      BlankHasNoKeyword(u, a + b);
    }
    assert forall c :: c in a + b ==> c in a + comment + b;
  }

  // ----- what the filter accepts -----

  /** The same letters up to the case of A to Z, and the same characters otherwise. */
  ghost predicate SameUpToAsciiCase(s: string, t: string) {
    |s| == |t| && forall i :: 0 <= i < |s| ==>
      || s[i] == t[i]
      || ('A' <= s[i] <= 'Z' && t[i] as int == s[i] as int + 32)
      || ('A' <= t[i] <= 'Z' && s[i] as int == t[i] as int + 32)
  }

  lemma CaseOfOne(c: char, d: char)
    ensures AsciiLower(c) == AsciiLower(d) <==>
      || c == d || ('A' <= c <= 'Z' && d as int == c as int + 32) || ('A' <= d <= 'Z' && c as int == d as int + 32)
  {
  }

  lemma ListsMeans(list: seq<string>, keyword: string)
    ensures Lists(list, keyword) <==> exists entry :: entry in list && SameUpToAsciiCase(entry, keyword)
  {
    hide AsciiLower;
    forall s: string ensures EqIgnoreAsciiCase(s, keyword) <==> SameUpToAsciiCase(s, keyword) {
      forall i | 0 <= i < |s| && i < |keyword| { CaseOfOne(s[i], keyword[i]); }
    }
    if Lists(list, keyword) {
      var i :| 0 <= i < |list| && EqIgnoreAsciiCase(list[i], keyword);
      assert list[i] in list;
    }
  }

  /** A keyword that is allowed by the lists: some allowlist entry, if there is a list, and no blocklist entry equals it. */
  ghost predicate Listed(keyword: string, allow: Option<seq<string>>, block: Option<seq<string>>) {
    && (allow.Some? ==> exists entry :: entry in allow.value && SameUpToAsciiCase(entry, keyword))
    && (block.Some? ==> forall entry :: entry in block.value ==> !SameUpToAsciiCase(entry, keyword))
  }

  predicate IsDestructive(u: Unicode, keyword: string) {
    u.upper(keyword) == "DROP" || u.upper(keyword) == "TRUNCATE" || u.upper(keyword) == "ALTER"
  }

  /**
    A text is accepted if and only if it is not blank and has a keyword, and: without destructive
    mode, it is one statement and the keyword neither destructive nor excluded by the lists; with
    it, the keyword is destructive or not excluded by the lists.
   */
  lemma AcceptedExactly(u: Unicode, sql: string, allow: Option<seq<string>>, block: Option<seq<string>>, destructive: bool)
    ensures Validated(u, sql, allow, block, destructive).Ok? <==>
      && (exists c :: c in sql && !u.isWhitespace(c))
      && Keyword(u, sql).Some?
      && var k := Keyword(u, sql).value;
         if destructive then IsDestructive(u, k) || Listed(k, allow, block)
         else !Chained(u, Erase(sql)) && !IsDestructive(u, k) && Listed(k, allow, block)
  {
    hide Chained, Keyword, Erase, Lists, SameUpToAsciiCase;
    if Keyword(u, sql).Some? {
      if allow.Some? { ListsMeans(allow.value, Keyword(u, sql).value); }
      if block.Some? { ListsMeans(block.value, Keyword(u, sql).value); }
    }
  }

  /** Which refusal a text meets first. */
  lemma RefusedWith(u: Unicode, sql: string, allow: Option<seq<string>>, block: Option<seq<string>>, destructive: bool)
    ensures var r, blank := Validated(u, sql, allow, block, destructive), forall c :: c in sql ==> u.isWhitespace(c);
      var many := !destructive && Chained(u, Erase(sql));
      && (r == Err(EmptyStatement) <==> blank)
      && (r == Err(MultipleStatements) <==> !blank && many)
      && (r == Err(UnknownType) <==> !blank && !many && Keyword(u, sql).None?)
      && (r == Err(Destructive) <==>
            !blank && !many && Keyword(u, sql).Some? && !destructive && IsDestructive(u, Keyword(u, sql).value))
      && (r == Err(NotAllowed) <==>
            && !blank && !many && Keyword(u, sql).Some? && !IsDestructive(u, Keyword(u, sql).value)
            && !Listed(Keyword(u, sql).value, allow, None))
      && (r == Err(Blocked) <==>
            && !blank && !many && Keyword(u, sql).Some? && !IsDestructive(u, Keyword(u, sql).value)
            && Listed(Keyword(u, sql).value, allow, None) && !Listed(Keyword(u, sql).value, None, block))
  {
    hide Chained, Keyword, Erase, Lists, SameUpToAsciiCase;
    if Keyword(u, sql).Some? {
      if allow.Some? { ListsMeans(allow.value, Keyword(u, sql).value); }
      if block.Some? { ListsMeans(block.value, Keyword(u, sql).value); }
    }
  }

  /** An entry equal to the keyword counts; one that differs from it in a character that is no letter A to Z does not. */
  lemma EntriesThatCount(entry: string, keyword: string, i: nat)
    requires i < |entry| && i < |keyword| && entry[i] != keyword[i]
    requires !('A' <= entry[i] <= 'Z') && !('a' <= entry[i] <= 'z')
    ensures Lists([keyword], keyword) && !Lists([entry], keyword)
  {
    ListsMeans([keyword], keyword);
    ListsMeans([entry], keyword);
    assert keyword in [keyword];
  }

  // ----- a line comment after a dash -----

  /** The only word of `t` is its end. */
  predicate EndsInFirstWord(u: Unicode, t: string) {
    t != "" && if u.IsWord(t[0]) then LeadingWord(u, t) == t else EndsInFirstWord(u, t[1..])
  }

  lemma {:induction false} LeadingWordOfConcat(u: Unicode, s: string, t: string)
    ensures LeadingWord(u, s + t) == if LeadingWord(u, s) == s then s + LeadingWord(u, t) else LeadingWord(u, s)
    decreases |s|
  {
    if s == "" {
      assert s + t == t;
    } else {
      assert (s + t)[1..] == s[1..] + t;
      LeadingWordOfConcat(u, s[1..], t);
    }
  }

  /** The first word of a concatenation runs over the seam exactly if the first text ends in its only word. */
  lemma {:induction false} FirstWordOfConcat(u: Unicode, s: string, t: string)
    ensures FirstWord(u, s + t) ==
      if FirstWord(u, s) == "" then FirstWord(u, t)
      else if EndsInFirstWord(u, s) then FirstWord(u, s) + LeadingWord(u, t)
      else FirstWord(u, s)
    ensures EndsInFirstWord(u, s) ==> FirstWord(u, s) != ""
    decreases |s|
  {
    if s == "" {
      assert s + t == t;
    } else {
      assert (s + t)[1..] == s[1..] + t;
      if u.IsWord(s[0]) { LeadingWordOfConcat(u, s, t); } else { FirstWordOfConcat(u, s[1..], t); }
    }
  }

  lemma {:induction false} LettersOfConcat(x: seq<Symbol>, y: seq<Symbol>)
    ensures Letters(x + y) == Letters(x) + Letters(y)
    decreases |x|
  {
    if x == [] {
      assert x + y == y;
    } else {
      assert x + y == [x[0]] + (x[1..] + y);
      LettersStep(x[0], x[1..] + y);
      LettersOfConcat(x[1..], y);
    }
  }

  /** Both scanners skip a dash, which is no word and no white space. */
  predicate DashIsInk(u: Unicode) { !u.IsWord('-') && !u.isWhitespace('-') }

  /** A lost dash changes the first word exactly if two words meet where it stood. */
  lemma LostDashJoinsWords(u: Unicode, x: seq<Symbol>, y: seq<Symbol>)
    requires DashIsInk(u)
    ensures FirstWord(u, Letters(x + y)) == FirstWord(u, Letters(x + ([Plain('-')] + y)))
      <==> !(EndsInFirstWord(u, Letters(x)) && LeadingWord(u, Letters(y)) != "")
  {
    hide EndsInFirstWord;
    var s, t := Letters(x), Letters(y);
    LettersOfConcat(x, y);
    LettersOfConcat(x, [Plain('-')] + y);
    LettersStep(Plain('-'), y);
    FirstWordOfConcat(u, s, t);
    FirstWordOfConcat(u, s, ['-'] + t);
    assert (['-'] + t)[1..] == t;
  }

  /** A lost dash hides a second statement exactly if the dash was all there was after the semicolons. */
  lemma LostDashIsLostInk(u: Unicode, x: seq<Symbol>, y: seq<Symbol>)
    requires DashIsInk(u)
    ensures Chained(u, x + ([Plain('-')] + y)) <==> Chained(u, x + y) || Plain(';') in x
  {
    var z, d := x + y, x + ([Plain('-')] + y);
    assert d == x + [Plain('-')] + y;
    if Chained(u, d) && Plain(';') !in x {
      var i, j :| 0 <= i < j < |d| && d[i] == Plain(';') && Ink(u, d[j]);
      assert i > |x| && z[i - 1] == d[i] && z[j - 1] == d[j];
    }
    if Chained(u, z) {
      var i, j :| 0 <= i < j < |z| && z[i] == Plain(';') && Ink(u, z[j]);
      var i', j' := if i < |x| then i else i + 1, if j < |x| then j else j + 1;
      assert d[i'] == z[i] && d[j'] == z[j];
    }
    if Plain(';') in x {
      var i :| 0 <= i < |x| && x[i] == Plain(';');
      assert d[i] == Plain(';') && d[|x|] == Plain('-');
    }
  }

  /**
    Right after a dash an inserted line comment is no longer invisible: it changes the first word
    if and only if it joins two words, and hides a second statement if and only if the dash was the
    only sign of it.
   */
  lemma LineCommentAfterDash(u: Unicode, a: string, body: string, b: string)
    requires DashIsInk(u) && Boundary(a + b, |a|) && '\n' !in body && EndsWith(a, '-')
    ensures var before, commented := Erase(a[..|a| - 1]), a + (LineComment(body) + b);
      && (FirstWord(u, Letters(Erase(commented))) == FirstWord(u, Letters(Erase(a + b)))
          <==> !(EndsInFirstWord(u, Letters(before)) && LeadingWord(u, Letters(Erase(b))) != ""))
      && (Chained(u, Erase(a + b)) <==> Chained(u, Erase(commented)) || Plain(';') in before)
  {
    hide Erase, Boundary, Chained, FirstWord, LeadingWord, Letters, EndsInFirstWord, LineComment;
    DashIsSwallowed(a, body, b);
    LostDashJoinsWords(u, Erase(a[..|a| - 1]), Erase(b));
    LostDashIsLostInk(u, Erase(a[..|a| - 1]), Erase(b));
  }

  lemma {:induction false} AllWord(u: Unicode, w: string)
    requires forall c :: c in w ==> u.IsWord(c)
    ensures LeadingWord(u, w) == w
    ensures w != "" ==> EndsInFirstWord(u, w) && FirstWord(u, w) == w
    decreases |w|
  {
    if w != "" { AllWord(u, w[1..]); }
  }

  predicate Bare(s: string) {
    forall i :: 0 <= i < |s| ==> s[i] != '-' && s[i] != '/' && !IsQuote(s[i])
  }

  /** Text without dash, slash or quote is seen as it is. */
  lemma {:induction false} BareText(s: string, rest: string, k: nat)
    requires Bare(s)
    ensures Boundary(s + rest, |s| + k) <==> Boundary(rest, k)
    ensures Letters(Erase(s)) == s
    decreases |s|
  {
    if s == "" {
      assert s + rest == rest;
    } else {
      assert (s + rest)[1..] == s[1..] + rest;
      assert Bare(s[1..]);
      BareText(s[1..], rest, k);
      LettersStep(Plain(s[0]), Erase(s[1..]));
    }
  }

  lemma JoinedWords(u: Unicode, x: seq<Symbol>, s: string, y: seq<Symbol>, t: string)
    requires DashIsInk(u) && Letters(x) == s != "" && Letters(y) == t
    requires forall c :: c in s + t ==> u.IsWord(c)
    ensures FirstWord(u, Letters(x + ([Plain('-')] + y))) == s
    ensures FirstWord(u, Letters(x + y)) == s + t
  {
    LettersOfConcat(x, y);
    LettersOfConcat(x, [Plain('-')] + y);
    LettersStep(Plain('-'), y);
    assert forall c :: c in s || c in t ==> c in s + t;
    AllWord(u, s);
    AllWord(u, t);
    FirstWordOfConcat(u, s, t);
    FirstWordOfConcat(u, s, ['-'] + t);
    assert LeadingWord(u, ['-'] + t) == "" && s + "" == s;
  }

  /** For instance, a comment after the dash turns the keyword of SELECT-1 into SELECT1. */
  lemma CommentJoinsWords(u: Unicode, s: string, t: string, body: string)
    requires DashIsInk(u) && Bare(s) && Bare(t) && s != "" && (forall c :: c in s + t ==> u.IsWord(c)) && '\n' !in body
    ensures Boundary(s + "-" + t, |s| + 1)
    ensures Keyword(u, s + "-" + t) == Some(u.upper(s))
    ensures Keyword(u, s + "-" + LineComment(body) + t) == Some(u.upper(s + t))
  {
    hide Erase, FirstWord, Letters, LineComment, Bare;
    var a := s + "-";
    assert a[..|a| - 1] == s && a + t == s + ("-" + t);
    assert ("-" + t)[1..] == t && (t != "" ==> t[0] != '-') by { assert Bare(t); StartsBare(t); }
    BareText(s, "-" + t, 1);
    BareText(t, "", 0);
    DashIsSwallowed(a, body, t);
    JoinedWords(u, Erase(s), s, Erase(t), t);
    assert a + LineComment(body) + t == a + (LineComment(body) + t);
  }

  lemma StartsBare(t: string)
    requires Bare(t)
    ensures t != "" ==> t[0] != '-'
  {
  }

  /** Turning destructive mode on never rejects what was accepted without it. */
  lemma DestructiveModeOnlyAdds(u: Unicode, sql: string, allow: Option<seq<string>>, block: Option<seq<string>>)
    ensures Validated(u, sql, allow, block, false).Ok? ==> Validated(u, sql, allow, block, true).Ok?
    ensures Validated(u, sql, allow, block, false).Ok? ==>
      !Chained(u, Erase(sql)) && Keyword(u, sql).Some?
      && u.upper(Keyword(u, sql).value) !in DESTRUCTIVE_KEYWORDS
  {
  }
}
