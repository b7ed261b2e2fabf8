/** StringUtils::RemoveSQLComments. */
module Comments {
  import opened Basics
  import opened SqlText

  /** Outside every string, or inside one opened by `quote`. */
  datatype Mode = Code | InString(quote: char)

  /** What a line comment leaves to scan: the text from its newline on. */
  function AfterLine(s: string): (r: string)
    ensures |r| <= |s|
    ensures r == "" || r[0] == '\n'
  {
    if s == "" || s[0] == '\n' then s else AfterLine(s[1..])
  }

  predicate Starts(s: string, a: char, b: char) {
    |s| > 1 && s[0] == a && s[1] == b
  }

  /** What follows the first end of a block comment; None when the comment never ends. */
  function AfterBlock(s: string): (r: Option<string>)
    ensures r.Some? ==> |r.value| < |s|
  {
    if s == "" then None
    else if Starts(s, '*', '/') then Some(s[2..])
    else AfterBlock(s[1..])
  }

  function OrEmpty(r: Option<string>): string {
    if r.Some? then r.value else ""
  }

  /** The scanner's output for `s`, started in `mode`. */
  function Strip(s: string, mode: Mode): string
    decreases |s|
  {
    if s == "" then ""
    else
      match mode
      case InString(q) =>
        if Starts(s, q, q) then s[..2] + Strip(s[2..], mode)
        else [s[0]] + Strip(s[1..], if s[0] == q then Code else mode)
      case Code =>
        if s[0] == '\'' || s[0] == '\"' then [s[0]] + Strip(s[1..], InString(s[0]))
        else if Starts(s, '-', '-') then Strip(AfterLine(s[2..]), Code)
        else if Starts(s, '/', '*') then Strip(OrEmpty(AfterBlock(s[2..])), Code)
        else [s[0]] + Strip(s[1..], Code)
  }

  /** The scanner ends `s` outside strings and comments. */
  predicate EndsOutside(s: string, mode: Mode)
    decreases |s|
  {
    if s == "" then mode == Code
    else
      match mode
      case InString(q) =>
        if Starts(s, q, q) then EndsOutside(s[2..], mode)
        else EndsOutside(s[1..], if s[0] == q then Code else mode)
      case Code =>
        if s[0] == '\'' || s[0] == '\"' then EndsOutside(s[1..], InString(s[0]))
        else if Starts(s, '-', '-') then AfterLine(s[2..]) != "" && EndsOutside(AfterLine(s[2..]), Code)
        else if Starts(s, '/', '*') then AfterBlock(s[2..]).Some? && EndsOutside(AfterBlock(s[2..]).value, Code)
        else EndsOutside(s[1..], Code)
  }

  lemma AfterLineSkips(s: string)
    requires Starts(s, '-', '-')
    ensures AfterLine(s) == AfterLine(s[2..])
  {
    assert s[1..][1..] == s[2..];
  }

  method RemoveSQLComments(sql: string) returns (result: string)
    ensures result == Strip(sql, Code)
  {
    result := "";
    ghost var goal := Strip(sql, Code);
    var i := 0;
    var inString := false;
    var stringChar := '\0';
    assert sql[0..] == sql && "" + goal == goal;
    while i < |sql|
      invariant 0 <= i <= |sql|
      invariant Exactly(result + Strip(sql[i..], if inString then InString(stringChar) else Code)) == Exactly(goal)
      decreases |sql| - i
    {
      var c := sql[i];
      ghost var s := sql[i..];
      CutTail(sql, i, 1);
      if inString {
        if c == stringChar && i + 1 < |sql| && sql[i + 1] == stringChar {
          CutTail(sql, i, 2);
          Regroup3(result, s[..2], Strip(sql[i + 2..], InString(stringChar)));
          assert s[..2] == [c, sql[i + 1]];
          result := result + [c, sql[i + 1]];
          i := i + 2;
          continue;
        }
        if c == stringChar {
          inString := false;
        }
        Regroup3(result, [c], Strip(sql[i + 1..], if inString then InString(stringChar) else Code));
        result := result + [c];
        i := i + 1;
        continue;
      }
      if c == '\'' || c == '\"' {
        inString, stringChar := true, c;
        Regroup3(result, [c], Strip(sql[i + 1..], InString(c)));
        result := result + [c];
        i := i + 1;
        continue;
      }
      if c == '-' && i + 1 < |sql| && sql[i + 1] == '-' {
        AfterLineSkips(s);
        CutTail(sql, i, 2);
        i := SkipLine(sql, i);
        continue;
      }
      if c == '/' && i + 1 < |sql| && sql[i + 1] == '*' {
        CutTail(sql, i, 2);
        i := SkipBlock(sql, i + 2);
        continue;
      }
      Regroup3(result, [c], Strip(sql[i + 1..], Code));
      result := result + [c];
      i := i + 1;
    }
    assert result + "" == result;
  }

  method SkipLine(sql: string, start: nat) returns (i: nat)
    requires start < |sql| && sql[start] != '\n'
    ensures start < i <= |sql| && Exactly(sql[i..]) == Exactly(AfterLine(sql[start..]))
  {
    i := start;
    while i < |sql| && sql[i] != '\n'
      invariant start <= i <= |sql|
      invariant Exactly(AfterLine(sql[i..])) == Exactly(AfterLine(sql[start..]))
    {
      CutTail(sql, i, 1);
      i := i + 1;
    }
  }

  method SkipBlock(sql: string, start: nat) returns (i: nat)
    requires start <= |sql|
    ensures start <= i <= |sql| && Exactly(sql[i..]) == Exactly(OrEmpty(AfterBlock(sql[start..])))
  {
    i := start;
    while i < |sql|
      invariant start <= i <= |sql|
      invariant AfterBlock(sql[i..]) == AfterBlock(sql[start..])
    {
      if sql[i] == '*' && i + 1 < |sql| && sql[i + 1] == '/' {
        CutTail(sql, i, 2);
        return i + 2;
      }
      CutTail(sql, i, 1);
      i := i + 1;
    }
  }

  lemma {:induction false} AfterLineAppend(s: string, t: string)
    requires AfterLine(s) != ""
    ensures Exactly(AfterLine(s + t)) == Exactly(AfterLine(s) + t)
  {
    if s[0] != '\n' {
      assert (s + t)[1..] == s[1..] + t;
      AfterLineAppend(s[1..], t);
    }
  }

  lemma {:induction false} AfterBlockAppend(s: string, t: string)
    requires AfterBlock(s).Some?
    ensures AfterBlock(s + t).Some? && Exactly(AfterBlock(s + t).value) == Exactly(AfterBlock(s).value + t)
  {
    if Starts(s, '*', '/') {
      assert (s + t)[2..] == s[2..] + t;
    } else {
      assert (s + t)[1..] == s[1..] + t;
      AfterBlockAppend(s[1..], t);
    }
  }

  /** No two quotes to be read as a pair, and no comment opening, straddle the two texts. */
  predicate IsCleanSeam(a: string, mode: Mode, t: string) {
    a == "" || t == "" ||
    (var last, first := a[|a| - 1], t[0];
     && !(last == first && (last in "'\"-" || mode == InString(last)))
     && !(last == '/' && first == '*'))
  }

  /** A scan that ends `a` outside everything goes through what follows as if it started afresh,
      provided that no quotes pair up and no comment opens across the seam. */
  lemma {:induction false} StripAppend(a: string, mode: Mode, t: string)
    requires EndsOutside(a, mode) && IsCleanSeam(a, mode, t)
    ensures Exactly(Strip(a + t, mode)) == Exactly(Strip(a, mode) + Strip(t, Code))
    decreases |a|
  {
    var rest := Strip(t, Code);
    if a == "" {
      assert a + t == t && "" + rest == rest;
      return;
    }
    CutFront(a, t, 1);
    if mode.InString? {
      if Starts(a, mode.quote, mode.quote) {
        CutFront(a, t, 2);
        StripAppend(a[2..], mode, t);
        Regroup3(a[..2], Strip(a[2..], mode), rest);
      } else {
        var next := if a[0] == mode.quote then Code else mode;
        assert !Starts(a + t, mode.quote, mode.quote);
        StripAppend(a[1..], next, t);
        Regroup3([a[0]], Strip(a[1..], next), rest);
      }
    } else if a[0] == '\'' || a[0] == '\"' {
      StripAppend(a[1..], InString(a[0]), t);
      Regroup3([a[0]], Strip(a[1..], InString(a[0])), rest);
    } else if Starts(a, '-', '-') {
      CutFront(a, t, 2);
      AfterLineAppend(a[2..], t);
      AfterLineIsTail(a[2..]);
      StripAppend(AfterLine(a[2..]), Code, t);
    } else if Starts(a, '/', '*') {
      CutFront(a, t, 2);
      AfterBlockAppend(a[2..], t);
      AfterBlockIsTail(a[2..]);
      StripAppend(AfterBlock(a[2..]).value, Code, t);
    } else {
      assert !Starts(a + t, '-', '-') && !Starts(a + t, '/', '*');
      StripAppend(a[1..], Code, t);
      Regroup3([a[0]], Strip(a[1..], Code), rest);
    }
  }

  lemma CutFront(a: string, t: string, n: nat)
    requires n <= |a|
    ensures Exactly((a + t)[..n]) == Exactly(a[..n]) && Exactly((a + t)[n..]) == Exactly(a[n..] + t)
    ensures a != "" ==> (a + t)[0] == a[0]
    ensures |a| > 1 ==> (a + t)[1] == a[1]
    ensures |a| == 1 && t != "" ==> (a + t)[1] == t[0]
  {
    assert (a + t)[..n] == a[..n] && (a + t)[n..] == a[n..] + t;
  }

  lemma {:induction false} AfterLineIsTail(s: string)
    ensures AfterLine(s) != "" && s != "" ==> AfterLine(s)[|AfterLine(s)| - 1] == s[|s| - 1]
  {
    if s != "" && s[0] != '\n' {
      AfterLineIsTail(s[1..]);
    }
  }

  lemma {:induction false} AfterBlockIsTail(s: string)
    ensures AfterBlock(s).Some? && AfterBlock(s).value != "" ==>
      AfterBlock(s).value[|AfterBlock(s).value| - 1] == s[|s| - 1]
  {
    if s != "" && !Starts(s, '*', '/') {
      AfterBlockIsTail(s[1..]);
    }
  }

  /** Inside a single-quoted string, escaped text passes through unchanged: its quotes come in
      pairs, and the scanner does not look at backslashes. */
  lemma {:induction false} EscapedPassesThrough(text: string, t: string)
    ensures Exactly(Strip(Escape(text) + t, InString('\''))) == Exactly(Escape(text) + Strip(t, InString('\'')))
    decreases |text|
  {
    var rest := Strip(t, InString('\''));
    if text == "" {
      assert "" + t == t && "" + rest == rest;
    } else {
      var e, tail := EscapeChar(text[0]), Escape(text[1..]);
      EscapedCharPasses(text[0], tail + t);
      EscapedPassesThrough(text[1..], t);
      Regroup3(e, tail, t);
      Regroup3(e, tail, rest);
    }
  }

  lemma PlainCharPasses(c: char, t: string)
    requires c != '\''
    ensures Exactly(Strip([c] + t, InString('\''))) == Exactly([c] + Strip(t, InString('\'')))
  {
    CutAppend([c], t, 1);
  }

  lemma EscapedCharPasses(c: char, t: string)
    ensures Exactly(Strip(EscapeChar(c) + t, InString('\''))) == Exactly(EscapeChar(c) + Strip(t, InString('\'')))
  {
    var e := EscapeChar(c);
    if c == '\'' {
      CutAppend(e, t, 2);
    } else if |e| == 1 {
      PlainCharPasses(c, t);
    } else {
      PlainCharPasses(e[0], [e[1]] + t);
      PlainCharPasses(e[1], t);
      Regroup3([e[0]], [e[1]], t);
      Regroup3([e[0]], [e[1]], Strip(t, InString('\'')));
      assert [e[0]] + [e[1]] == e;
    }
  }

  /** Comment removal leaves a quoted value alone, wherever a scan outside strings and comments
      meets it and whatever follows it, as long as no quote touches it on either side. */
  lemma QuotedValueSurvives(a: string, value: string, b: string)
    requires EndsOutside(a, Code)
    requires a == "" || a[|a| - 1] != '\''
    requires b == "" || b[0] != '\''
    ensures Strip(a + Quote(value) + b, Code) == Strip(a, Code) + Quote(value) + Strip(b, Code)
  {
    var q := Quote(value);
    assert IsCleanSeam(a, Code, q + b);
    StripAppend(a, Code, q + b);
    Regroup3(a, q, b);
    QuotedPassesThrough(value, b);
    Regroup3(Strip(a, Code), q, Strip(b, Code));
  }

  lemma QuotedPassesThrough(value: string, b: string)
    requires b == "" || b[0] != '\''
    ensures Exactly(Strip(Quote(value) + b, Code)) == Exactly(Quote(value) + Strip(b, Code))
  {
    var e := Escape(value);
    var closing := "'" + b;
    Regroup4("'", e, "'", b);
    assert ("'" + (e + closing))[1..] == e + closing;
    EscapedPassesThrough(value, closing);
    assert closing[1..] == b;
    assert Strip(closing, InString('\'')) == ['\''] + Strip(b, Code);
    Regroup4("'", e, "'", Strip(b, Code));
  }

  // ---- What is removed ----

  predicate Holds(s: string, a: char, b: char) {
    exists i :: 0 <= i < |s| - 1 && s[i] == a && s[i + 1] == b
  }

  lemma {:induction false} LineEnds(body: string, b: string)
    requires '\n' !in body
    ensures Exactly(AfterLine(body + "\n" + b)) == Exactly("\n" + b)
    ensures AfterLine(body) == ""
  {
    if body == "" {
      assert "" + "\n" + b == "\n" + b;
    } else {
      assert body[0] in body && forall c <- body[1..] :: c in body;
      LineEnds(body[1..], b);
      assert (body + "\n" + b)[1..] == body[1..] + "\n" + b;
    }
  }

  lemma LineStrips(body: string, b: string)
    requires '\n' !in body
    ensures Exactly(Strip("--" + (body + "\n" + b), Code)) == Exactly(Strip("\n" + b, Code))
    ensures Strip("--" + body, Code) == ""
  {
    LineEnds(body, b);
    CutAppend("--", body + "\n" + b, 2);
    CutAppend("--", body, 2);
  }

  /** A line comment goes, up to its newline, which stays. */
  lemma LineCommentIsRemoved(a: string, body: string, b: string)
    requires EndsOutside(a, Code) && IsCleanSeam(a, Code, "--") && '\n' !in body
    ensures Exactly(Strip(a + ("--" + (body + "\n" + b)), Code)) == Exactly(Strip(a, Code) + Strip("\n" + b, Code))
    ensures Exactly(Strip(a + ("--" + body), Code)) == Exactly(Strip(a, Code))
  {
    LineStrips(body, b);
    StripAppend(a, Code, "--" + (body + "\n" + b));
    StripAppend(a, Code, "--" + body);
    assert Strip(a, Code) + "" == Strip(a, Code);
  }

  lemma {:induction false} BlockEnds(body: string, b: string)
    requires !Holds(body, '*', '/')
    ensures AfterBlock(body + "*/" + b) == Some(b)
    ensures AfterBlock(body).None?
    decreases |body|
  {
    var s := body + "*/" + b;
    if body == "" {
      assert s == "*/" + b && s[2..] == b;
    } else {
      var tail := body[1..];
      BlockEnds(tail, b);
      assert s[1..] == tail + "*/" + b;
      assert s[0] == body[0] && s[1] == if |body| > 1 then body[1] else '*';
      assert |body| > 1 ==> !(body[0] == '*' && body[0 + 1] == '/');
    }
  }

  lemma BlockStrips(body: string, b: string)
    requires !Holds(body, '*', '/')
    ensures Exactly(Strip("/*" + (body + "*/" + b), Code)) == Exactly(Strip(b, Code))
    ensures Strip("/*" + body, Code) == ""
  {
    BlockEnds(body, b);
    CutAppend("/*", body + "*/" + b, 2);
    CutAppend("/*", body, 2);
  }

  /** A block comment goes, and what follows it is scanned afresh; one that never ends takes the
      rest of the text with it. */
  lemma BlockCommentIsRemoved(a: string, body: string, b: string)
    requires EndsOutside(a, Code) && !Holds(body, '*', '/')
    ensures Exactly(Strip(a + ("/*" + (body + "*/" + b)), Code)) == Exactly(Strip(a, Code) + Strip(b, Code))
    ensures Exactly(Strip(a + ("/*" + body), Code)) == Exactly(Strip(a, Code))
  {
    BlockStrips(body, b);
    StripAppend(a, Code, "/*" + (body + "*/" + b));
    StripAppend(a, Code, "/*" + body);
    assert Strip(a, Code) + "" == Strip(a, Code);
  }

  /** A character that opens nothing is kept. */
  lemma OtherCharIsKept(a: string, c: char, b: string)
    requires EndsOutside(a, Code) && IsCleanSeam(a, Code, [c])
    requires c != '\'' && c != '\"' && !(c == '-' && b != "" && b[0] == '-') && !(c == '/' && b != "" && b[0] == '*')
    ensures Exactly(Strip(a + ([c] + b), Code)) == Exactly(Strip(a, Code) + ([c] + Strip(b, Code)))
  {
    StripAppend(a, Code, [c] + b);
    assert ([c] + b)[1..] == b;
  }

  lemma {:induction false} DoubledPasses(q: char, text: string, b: string)
    requires b == "" || b[0] != q
    ensures Exactly(Strip(DoubleQuotes(text, q) + ([q] + b), InString(q))) ==
      Exactly(DoubleQuotes(text, q) + ([q] + Strip(b, Code)))
    decreases |text|
  {
    var closing, rest := [q] + b, [q] + Strip(b, Code);
    if text == "" {
      assert closing[1..] == b && "" + closing == closing && "" + rest == rest;
    } else {
      var first, tail := if text[0] == q then [q, q] else [text[0]], DoubleQuotes(text[1..], q);
      DoubledPasses(q, text[1..], b);
      CutAppend(first, tail + closing, |first|);
      Regroup3(first, tail, closing);
      Regroup3(first, tail, rest);
    }
  }

  /** A string is kept with all that looks like a comment inside it, quotes being doubled, and what
      follows its closing quote is scanned as code again. */
  lemma StringIsKept(a: string, q: char, text: string, b: string)
    requires EndsOutside(a, Code) && IsCleanSeam(a, Code, [q]) && (q == '\'' || q == '\"')
    requires b == "" || b[0] != q
    ensures Exactly(Strip(a + ([q] + (DoubleQuotes(text, q) + ([q] + b))), Code)) ==
      Exactly(Strip(a, Code) + ([q] + (DoubleQuotes(text, q) + ([q] + Strip(b, Code)))))
  {
    var body := DoubleQuotes(text, q) + ([q] + b);
    StripAppend(a, Code, [q] + body);
    assert ([q] + body)[1..] == body;
    DoubledPasses(q, text, b);
  }
}
