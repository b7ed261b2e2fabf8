/** Quoting for SQL, and how MySQL reads the quoted text back. */
module SqlText {
  import opened Basics

  // ---- Writing ----

  function EscapeChar(c: char): string {
    match c
    case '\'' => "''"
    case '\"' => "\\\""
    case '\\' => "\\\\"
    case '\n' => "\\n"
    case '\r' => "\\r"
    case '\t' => "\\t"
    case '\0' => "\\0"
    case _ => [c]
  }

  function Escape(text: string): string {
    if text == "" then "" else EscapeChar(text[0]) + Escape(text[1..])
  }

  method EscapeForSQL(text: string) returns (result: string)
    ensures result == Escape(text)
  {
    result := "";
    for i := 0 to |text|
      invariant result + Escape(text[i..]) == Escape(text)
    {
      Regroup3(result, EscapeChar(text[i]), Escape(text[i + 1..]));
      assert text[i..][1..] == text[i + 1..];
      match text[i]
      case '\'' => result := result + "''";
      case '\"' => result := result + "\\\"";
      case '\\' => result := result + "\\\\";
      case '\n' => result := result + "\\n";
      case '\r' => result := result + "\\r";
      case '\t' => result := result + "\\t";
      case '\0' => result := result + "\\0";
      case _ => result := result + [text[i]];
    }
  }

  /** QuoteForSQL with its default quote, the only one the program passes. */
  function Quote(text: string): string {
    "'" + Escape(text) + "'"
  }

  /** An identifier with its quote character doubled. */
  function DoubleQuotes(name: string, quote: char): string {
    if name == "" then ""
    else if name[0] == quote then [quote, quote] + DoubleQuotes(name[1..], quote)
    else [name[0]] + DoubleQuotes(name[1..], quote)
  }

  function QuotedIdentifier(name: string): string {
    "`" + DoubleQuotes(name, '`') + "`"
  }

  method QuoteIdentifier(name: string, quote: char) returns (result: string)
    ensures result == [quote] + DoubleQuotes(name, quote) + [quote]
  {
    result := [quote];
    for i := 0 to |name|
      invariant result + DoubleQuotes(name[i..], quote) == [quote] + DoubleQuotes(name, quote)
    {
      assert name[i..][1..] == name[i + 1..];
      if name[i] == quote {
        Regroup3(result, [quote, quote], DoubleQuotes(name[i + 1..], quote));
        result := result + [quote];
        result := result + [quote];
        assert [quote, quote] == [quote] + [quote];
      } else {
        Regroup3(result, [name[i]], DoubleQuotes(name[i + 1..], quote));
        result := result + [name[i]];
      }
    }
    assert result + DoubleQuotes(name[|name|..], quote) == result;
    result := result + [quote];
  }

  // ---- Reading (MySQL 8.0 Reference Manual, sections 9.1.1 and 9.2, default SQL mode) ----

  /** What a value or name read, and the text after it. */
  datatype Read<T> = Read(value: T, rest: string)

  /** The character a backslash sequence stands for; \% and \_ keep their backslash. */
  function Unescaped(c: char): string {
    match c
    case '0' => "\0"
    case 'b' => "\U{08}"
    case 'n' => "\n"
    case 'r' => "\r"
    case 't' => "\t"
    case 'Z' => "\U{1A}"
    case '%' => "\\%"
    case '_' => "\\_"
    case _ => [c]
  }

  function Prefixed(s: string, r: Option<Read<string>>): Option<Read<string>> {
    var read :- r;
    Some(Read(s + read.value, read.rest))
  }

  /** Reads a single-quoted string from behind its opening quote. */
  function ReadString(s: string): (r: Option<Read<string>>)
    ensures r.Some? ==> |r.value.rest| < |s|
    decreases |s|
  {
    if s == "" then None
    else if s[0] == '\'' then
      if |s| > 1 && s[1] == '\'' then Prefixed("'", ReadString(s[2..])) else Some(Read("", s[1..]))
    else if s[0] == '\\' then
      if |s| > 1 then Prefixed(Unescaped(s[1]), ReadString(s[2..])) else None
    else Prefixed([s[0]], ReadString(s[1..]))
  }

  /** Reads a quoted identifier from behind its opening backtick. */
  function ReadName(s: string): (r: Option<Read<string>>)
    ensures r.Some? ==> |r.value.rest| < |s|
    decreases |s|
  {
    if s == "" then None
    else if s[0] == '`' then
      if |s| > 1 && s[1] == '`' then Prefixed("`", ReadName(s[2..])) else Some(Read("", s[1..]))
    else Prefixed([s[0]], ReadName(s[1..]))
  }

  lemma PrefixedTwice(a: string, b: string, r: Option<Read<string>>)
    ensures Prefixed(a, Prefixed(b, r)) == Prefixed(a + b, r)
  {
    if r.Some? {
      Regroup3(a, b, r.value.value);
    }
  }

  lemma BackslashReads(x: char, rest: string)
    ensures ReadString(['\\', x] + rest) == Prefixed(Unescaped(x), ReadString(rest))
  {
    assert (['\\', x] + rest)[2..] == rest;
  }

  lemma PlainCharReads(c: char, rest: string)
    ensures ReadString((if c == '\'' then "''" else [c]) + rest) ==
      if c == '\\' then ReadString([c] + rest) else Prefixed([c], ReadString(rest))
  {
    assert ("''" + rest)[2..] == rest;
    assert ([c] + rest)[1..] == rest;
  }

  lemma EscapedCharReads(c: char, rest: string)
    ensures ReadString(EscapeChar(c) + rest) == Prefixed([c], ReadString(rest))
  {
    match c
    case '\"' => BackslashReads('\"', rest);
    case '\\' => BackslashReads('\\', rest);
    case '\n' => BackslashReads('n', rest);
    case '\r' => BackslashReads('r', rest);
    case '\t' => BackslashReads('t', rest);
    case '\0' => BackslashReads('0', rest);
    case _ => PlainCharReads(c, rest);
  }

  lemma {:induction false} EscapedReads(text: string, tail: string)
    ensures ReadString(Escape(text) + tail) == Prefixed(text, ReadString(tail))
    decreases |text|
  {
    if text == "" {
      assert Escape(text) + tail == tail;
      PrefixedNothing(ReadString(tail));
    } else {
      Regroup3(EscapeChar(text[0]), Escape(text[1..]), tail);
      EscapedCharReads(text[0], Escape(text[1..]) + tail);
      EscapedReads(text[1..], tail);
      PrefixedTwice([text[0]], text[1..], ReadString(tail));
      assert [text[0]] + text[1..] == text;
    }
  }

  lemma PrefixedNothing(r: Option<Read<string>>)
    ensures Prefixed("", r) == r
  {
    if r.Some? {
      assert "" + r.value.value == r.value.value;
    }
  }

  lemma ClosingQuoteReads(rest: string)
    ensures ReadString("'" + rest) ==
      if rest != "" && rest[0] == '\'' then Prefixed("'", ReadString(rest[1..])) else Some(Read("", rest))
  {
    assert ("'" + rest)[1..] == rest;
    if rest != "" {
      assert ("'" + rest)[2..] == rest[1..];
    }
  }

  lemma QuotedReads(text: string, rest: string)
    ensures ReadString(Escape(text) + "'" + rest) == Prefixed(text, ReadString("'" + rest))
  {
    Regroup3(Escape(text), "'", rest);
    EscapedReads(text, "'" + rest);
  }

  /** A quoted value reads back as itself and ends exactly where its closing quote was written,
      unless another quote follows directly; then it never does. */
  lemma QuoteRoundTrip(text: string, rest: string)
    ensures ReadString(Escape(text) + "'" + rest) == Some(Read(text, rest)) <==> (rest == "" || rest[0] != '\'')
  {
    QuotedReads(text, rest);
    ClosingQuoteReads(rest);
    assert text + "" == text;
  }

  lemma DoubledCharReads(c: char, rest: string)
    ensures ReadName((if c == '`' then "``" else [c]) + rest) == Prefixed([c], ReadName(rest))
  {
    var e := if c == '`' then "``" else [c];
    assert (e + rest)[|e|..] == rest;
  }

  lemma {:induction false} DoubledReads(name: string, tail: string)
    ensures ReadName(DoubleQuotes(name, '`') + tail) == Prefixed(name, ReadName(tail))
    decreases |name|
  {
    if name == "" {
      assert DoubleQuotes(name, '`') + tail == tail;
      PrefixedNothing(ReadName(tail));
    } else {
      Regroup3(if name[0] == '`' then "``" else [name[0]], DoubleQuotes(name[1..], '`'), tail);
      DoubledCharReads(name[0], DoubleQuotes(name[1..], '`') + tail);
      DoubledReads(name[1..], tail);
      PrefixedTwice([name[0]], name[1..], ReadName(tail));
      assert [name[0]] + name[1..] == name;
    }
  }

  lemma ClosingBacktickReads(rest: string)
    ensures ReadName("`" + rest) ==
      if rest != "" && rest[0] == '`' then Prefixed("`", ReadName(rest[1..])) else Some(Read("", rest))
  {
    assert ("`" + rest)[1..] == rest;
    if rest != "" {
      assert ("`" + rest)[2..] == rest[1..];
    }
  }

  lemma NameReads(name: string, rest: string)
    ensures ReadName(DoubleQuotes(name, '`') + "`" + rest) == Prefixed(name, ReadName("`" + rest))
  {
    Regroup3(DoubleQuotes(name, '`'), "`", rest);
    DoubledReads(name, "`" + rest);
  }

  lemma IdentifierRoundTrip(name: string, rest: string)
    ensures ReadName(DoubleQuotes(name, '`') + "`" + rest) == Some(Read(name, rest)) <==> (rest == "" || rest[0] != '`')
  {
    NameReads(name, rest);
    ClosingBacktickReads(rest);
    assert name + "" == name;
  }

  // ---- What escaped text looks like ----

  predicate IsSpecial(c: char) {
    c == '\'' || c == '\"' || c == '\\' || c == '\n' || c == '\r' || c == '\t' || c == '\0'
  }

  /** Plain characters, doubled quotes, and a backslash before the letter of a special character. */
  predicate IsInert(s: string)
    decreases |s|
  {
    || s == ""
    || (|s| > 1 && s[0] == '\'' && s[1] == '\'' && IsInert(s[2..]))
    || (|s| > 1 && s[0] == '\\' && s[1] in "\"\\nrt0" && IsInert(s[2..]))
    || (!IsSpecial(s[0]) && IsInert(s[1..]))
  }

  lemma EscapedCharIsInert(c: char, rest: string)
    requires IsInert(rest)
    ensures IsInert(EscapeChar(c) + rest)
  {
    var e := EscapeChar(c);
    CutAppend(e, rest, |e|);
    if |e| == 2 {
      assert (e + rest)[0] == e[0] && (e + rest)[1] == e[1];
    }
  }

  /** Escaped text holds no raw newline, return, tab or NUL, and no quote of either kind that is
      not doubled or behind a backslash. */
  lemma {:induction false} EscapedIsInert(text: string)
    ensures IsInert(Escape(text))
  {
    if text != "" {
      EscapedIsInert(text[1..]);
      EscapedCharIsInert(text[0], Escape(text[1..]));
    }
  }

  lemma PlainCharIsKept(c: char)
    ensures !IsSpecial(c) ==> EscapeChar(c) == [c]
  {
  }

  /** Text without special characters is left alone. */
  lemma {:induction false} PlainTextIsKept(text: string)
    requires forall i :: 0 <= i < |text| ==> !IsSpecial(text[i])
    ensures Exactly(Escape(text)) == Exactly(text)
  {
    if text != "" {
      PlainTextIsKept(text[1..]);
      PlainCharIsKept(text[0]);
      assert [text[0]] + text[1..] == text;
    }
  }
}
