/** EscapeForJSON and UnescapeFromJSON. */
module Json {
  import opened Basics
  import opened Text

  const HEX_DIGITS := "0123456789abcdef"

  function Hex4(n: nat): (r: string)
    requires n < 256
    ensures |r| == 4
  {
    "00" + [HEX_DIGITS[n / 16], HEX_DIGITS[n % 16]]
  }

  function EscapeChar(c: char): string {
    match c
    case '\"' => "\\\""
    case '\\' => "\\\\"
    case '\n' => "\\n"
    case '\r' => "\\r"
    case '\t' => "\\t"
    case '\U{08}' => "\\b"
    case '\U{0C}' => "\\f"
    case _ => if c < ' ' then "\\u" + Hex4(c as nat) else [c]
  }

  function Escape(text: string): string {
    if text == "" then "" else EscapeChar(text[0]) + Escape(text[1..])
  }

  method EscapeForJSON(text: string) returns (result: string)
    ensures result == Escape(text)
  {
    result := "";
    ghost var goal := Escape(text);
    assert text[0..] == text && "" + goal == goal;
    for i := 0 to |text|
      invariant Exactly(result + Escape(text[i..])) == Exactly(goal)
    {
      CutTail(text, i, 1);
      Regroup3(result, EscapeChar(text[i]), Escape(text[i + 1..]));
      result := result + EscapeChar(text[i]);
    }
    assert result + Escape(text[|text|..]) == result;
  }

  function HexValue(c: char): Option<nat> {
    if '0' <= c <= '9' then Some((c - '0') as nat)
    else if 'a' <= c <= 'f' then Some((c - 'a') as nat + 10)
    else if 'A' <= c <= 'F' then Some((c - 'A') as nat + 10)
    else None
  }

  function HexPrefix(s: string, acc: nat): nat {
    if s != "" && HexValue(s[0]).Some? then HexPrefix(s[1..], 16 * acc + HexValue(s[0]).value) else acc
  }

  /** std::stoul in base 16: white space, a sign, 0x, then at least one digit; None when it
      throws.  A minus sign negates the result modulo the word size. */
  function Stoul16(s: string): Option<int> {
    var body := TrimLeft(s);
    var signed := body != "" && (body[0] == '-' || body[0] == '+');
    var digits := if signed then body[1..] else body;
    var prefixed :=
      |digits| > 2 && digits[0] == '0' && (digits[1] == 'x' || digits[1] == 'X') && HexValue(digits[2]).Some?;
    var hex := if prefixed then digits[2..] else digits;
    if hex == "" || HexValue(hex[0]).None? then None
    else
      var n: int := HexPrefix(hex, 0);
      Some(if signed && body[0] == '-' then -n else n)
  }

  function ShortEscape(c: char): Option<char> {
    match c
    case '\"' => Some('\"')
    case '\\' => Some('\\')
    case 'n' => Some('\n')
    case 'r' => Some('\r')
    case 't' => Some('\t')
    case 'b' => Some('\U{08}')
    case 'f' => Some('\U{0C}')
    case _ => None
  }

  /** The character a `\u` sequence adds: the code cut to a char, or the backslash itself when the
      four characters are no number. */
  function UnicodeEscape(hex: string): char {
    match Stoul16(hex)
    case Some(code) => (code % 256) as char
    case None => '\\'
  }

  function Unescape(s: string): string
    decreases |s|
  {
    if s == "" then ""
    else if s[0] == '\\' && |s| > 1 && ShortEscape(s[1]).Some? then [ShortEscape(s[1]).value] + Unescape(s[2..])
    else if s[0] == '\\' && |s| > 5 && s[1] == 'u' then [UnicodeEscape(s[2..6])] + Unescape(s[6..])
    else [s[0]] + Unescape(s[1..])
  }

  method UnescapeFromJSON(s: string) returns (result: string)
    ensures result == Unescape(s)
  {
    result := "";
    ghost var goal := Unescape(s);
    var i := 0;
    assert s[0..] == s && "" + goal == goal;
    while i < |s|
      invariant 0 <= i <= |s|
      invariant Exactly(result + Unescape(s[i..])) == Exactly(goal)
    {
      UnescapeAt(s, i);
      if s[i] == '\\' && i + 1 < |s| {
        var short := ShortEscape(s[i + 1]);
        if short.Some? {
          Regroup3(result, [short.value], Unescape(s[i + 2..]));
          result := result + [short.value];
          i := i + 2;
        } else if s[i + 1] == 'u' && i + 5 < |s| {
          Regroup3(result, [UnicodeEscape(s[i + 2..i + 6])], Unescape(s[i + 6..]));
          result := result + [UnicodeEscape(s[i + 2..i + 6])];
          i := i + 6;
        } else {
          Regroup3(result, [s[i]], Unescape(s[i + 1..]));
          result := result + [s[i]];
          i := i + 1;
        }
      } else {
        Regroup3(result, [s[i]], Unescape(s[i + 1..]));
        result := result + [s[i]];
        i := i + 1;
      }
    }
    assert result + Unescape(s[i..]) == result;
  }

  lemma UnescapeAt(s: string, i: nat)
    requires i < |s|
    ensures Exactly(Unescape(s[i..])) == Exactly(
      if s[i] == '\\' && i + 1 < |s| && ShortEscape(s[i + 1]).Some? then
        [ShortEscape(s[i + 1]).value] + Unescape(s[i + 2..])
      else if s[i] == '\\' && i + 5 < |s| && s[i + 1] == 'u' then
        [UnicodeEscape(s[i + 2..i + 6])] + Unescape(s[i + 6..])
      else [s[i]] + Unescape(s[i + 1..]))
  {
    assert s[i..][1..] == s[i + 1..];
    if i + 1 < |s| {
      assert s[i..][2..] == s[i + 2..];
    }
    if i + 5 < |s| {
      assert s[i..][2..6] == s[i + 2..i + 6] && s[i..][6..] == s[i + 6..];
    }
  }

  lemma ControlCodeRoundTrip(c: char)
    requires c < ' '
    ensures UnicodeEscape(Hex4(c as nat)) == c
  {
    var n := c as nat;
    var hex := Hex4(n);
    assert HexValue(hex[2]) == Some(n / 16) && HexValue(hex[3]) == Some(n % 16);
    assert hex[1..][0] == '0' && hex[1..][1..] == [hex[2], hex[3]];
    assert HexPrefix([hex[3]], n / 16) == n;
    assert [hex[2], hex[3]][1..] == [hex[3]];
    assert HexPrefix([hex[2], hex[3]], 0) == n;
    assert HexPrefix(hex, 0) == HexPrefix(hex[1..], 0) == HexPrefix([hex[2], hex[3]], 0);
    assert Stoul16(hex) == Some(n);
  }

  lemma ShortEscapeReads(c: char, rest: string)
    requires |EscapeChar(c)| == 2
    ensures Exactly(Unescape(EscapeChar(c) + rest)) == Exactly([c] + Unescape(rest))
  {
    var e := EscapeChar(c);
    CutAppend(e, rest, 2);
    assert (e + rest)[0] == '\\' && (e + rest)[1] == e[1] && ShortEscape(e[1]) == Some(c);
  }

  lemma ControlCodeReads(c: char, rest: string)
    requires |EscapeChar(c)| == 6
    ensures Exactly(Unescape(EscapeChar(c) + rest)) == Exactly([c] + Unescape(rest))
  {
    var e := EscapeChar(c);
    var s := e + rest;
    CutAppend(e, rest, 6);
    ControlCodeRoundTrip(c);
    assert s[0] == '\\' && s[1] == 'u' && s[2..6] == Hex4(c as nat);
  }

  lemma EscapedCharReads(c: char, rest: string)
    ensures Exactly(Unescape(EscapeChar(c) + rest)) == Exactly([c] + Unescape(rest))
  {
    var e := EscapeChar(c);
    if |e| == 2 {
      ShortEscapeReads(c, rest);
    } else if c < ' ' {
      ControlCodeReads(c, rest);
    } else {
      CutAppend(e, rest, 1);
    }
  }

  /** Unescaping undoes escaping for every text, control characters included. */
  lemma {:induction false} JsonRoundTrip(text: string)
    ensures Unescape(Escape(text)) == text
  {
    if text != "" {
      EscapedCharReads(text[0], Escape(text[1..]));
      JsonRoundTrip(text[1..]);
    }
  }

  predicate IsSimpleEscape(c: char) {
    c == '\"' || c == '\\' || c == '/' || c == 'b' || c == 'f' || c == 'n' || c == 'r' || c == 't'
  }

  /** What may stand between the quotes of a JSON string (RFC 8259, section 7). */
  predicate IsJsonBody(s: string)
    decreases |s|
  {
    if s == "" then true
    else if s[0] == '\\' then
      || (|s| >= 2 && IsSimpleEscape(s[1]) && IsJsonBody(s[2..]))
      || (|s| >= 6 && s[1] == 'u' && (forall k :: 2 <= k < 6 ==> HexValue(s[k]).Some?) && IsJsonBody(s[6..]))
    else s[0] >= ' ' && s[0] != '\"' && IsJsonBody(s[1..])
  }

  lemma ControlCharIsBody(c: char, rest: string)
    requires IsJsonBody(rest) && c < ' '
    ensures IsJsonBody("\\u" + Hex4(c as nat) + rest)
  {
    var e := "\\u" + Hex4(c as nat);
    var s := e + rest;
    CutAppend(e, rest, |e|);
    assert s[0] == '\\' && s[1] == 'u';
    assert s[2] == '0' && s[3] == '0' && s[4] == e[4] && s[5] == e[5];
  }

  lemma EscapedCharIsBody(c: char, rest: string)
    requires IsJsonBody(rest)
    ensures IsJsonBody(EscapeChar(c) + rest)
  {
    var e := EscapeChar(c);
    CutAppend(e, rest, |e|);
    if |e| == 2 {
      assert (e + rest)[0] == '\\' && (e + rest)[1] == e[1];
    } else if c < ' ' {
      ControlCharIsBody(c, rest);
    }
  }

  /** The escaped text is a legal JSON string body: no raw control character and no bare quote. */
  lemma {:induction false} EscapedIsJsonBody(text: string)
    ensures IsJsonBody(Escape(text))
  {
    if text != "" {
      EscapedIsJsonBody(text[1..]);
      EscapedCharIsBody(text[0], Escape(text[1..]));
    }
  }

  // ---- Reading what others wrote ----

  const UPPER_DIGITS := "0123456789ABCDEF"

  predicate IsHexDigit(c: char, v: nat) {
    v < 16 && (c == HEX_DIGITS[v] || c == UPPER_DIGITS[v])
  }

  lemma HexDigitReads(c: char, v: nat)
    requires IsHexDigit(c, v)
    ensures HexValue(c) == Some(v) && !IsSpace(c) && c != '-' && c != '+' && c != 'x' && c != 'X'
  {
  }

  lemma DigitsStart(hex: string, v: nat)
    requires |hex| == 4 && IsHexDigit(hex[0], v) && HexValue(hex[1]).Some?
    ensures Stoul16(hex) == Some(HexPrefix(hex, 0))
  {
    HexDigitReads(hex[0], v);
    assert TrimLeft(hex) == hex;
  }

  lemma TwoDigits(c: char, v: nat, d: char, w: nat, rest: string, acc: nat)
    requires IsHexDigit(c, v) && IsHexDigit(d, w)
    ensures HexPrefix([c] + ([d] + rest), acc) == HexPrefix(rest, 256 * acc + 16 * v + w)
  {
    HexPrefixCons(c, v, [d] + rest, acc);
    HexPrefixCons(d, w, rest, 16 * acc + v);
  }

  lemma LastTwoDigits(c: char, v: nat, d: char, w: nat, acc: nat)
    requires IsHexDigit(c, v) && IsHexDigit(d, w)
    ensures HexPrefix([c] + ([d] + ""), acc) == 256 * acc + 16 * v + w
  {
    TwoDigits(c, v, d, w, "", acc);
  }

  lemma FirstTwoDigits(c: char, v: nat, d: char, w: nat, rest: string, value: nat)
    requires IsHexDigit(c, v) && IsHexDigit(d, w) && HexPrefix(rest, 16 * v + w) == value
    ensures HexPrefix([c] + ([d] + rest), 0) == value
  {
    TwoDigits(c, v, d, w, rest, 0);
  }

  lemma FourDigits(p: char, a: nat, q: char, b: nat, r: char, c: nat, t: char, d: nat)
    requires IsHexDigit(p, a) && IsHexDigit(q, b) && IsHexDigit(r, c) && IsHexDigit(t, d)
    ensures HexPrefix([p] + ([q] + ([r] + ([t] + ""))), 0) == 256 * (16 * a + b) + 16 * c + d
  {
    LastTwoDigits(r, c, t, d, 16 * a + b);
    FirstTwoDigits(p, a, q, b, [r] + ([t] + ""), 256 * (16 * a + b) + 16 * c + d);
  }

  lemma FourDigitsRead(hex: string, a: nat, b: nat, c: nat, d: nat)
    requires |hex| == 4 && IsHexDigit(hex[0], a) && IsHexDigit(hex[1], b)
    requires IsHexDigit(hex[2], c) && IsHexDigit(hex[3], d)
    ensures Stoul16(hex) == Some(256 * (16 * a + b) + 16 * c + d)
  {
    FourDigits(hex[0], a, hex[1], b, hex[2], c, hex[3], d);
    assert hex == [hex[0]] + ([hex[1]] + ([hex[2]] + ([hex[3]] + "")));
    HexDigitReads(hex[1], b);
    DigitsStart(hex, a);
  }

  lemma HexPrefixCons(c: char, v: nat, rest: string, acc: nat)
    requires IsHexDigit(c, v)
    ensures HexPrefix([c] + rest, acc) == HexPrefix(rest, 16 * acc + v)
  {
    HexDigitReads(c, v);
    assert ([c] + rest)[1..] == rest;
  }

  /** A backslash, a `u` and four hexadecimal digits in either case stand for the low byte of the
      code; its high byte is lost. */
  lemma CodeReads(hex: string, a: nat, b: nat, c: nat, d: nat, rest: string)
    requires |hex| == 4 && IsHexDigit(hex[0], a) && IsHexDigit(hex[1], b)
    requires IsHexDigit(hex[2], c) && IsHexDigit(hex[3], d)
    ensures Exactly(Unescape("\\u" + hex + rest)) == Exactly([(16 * c + d) as char] + Unescape(rest))
  {
    CodeIs(hex, a, b, c, d);
    UnicodeReads(hex, rest);
  }

  lemma CodeIs(hex: string, a: nat, b: nat, c: nat, d: nat)
    requires |hex| == 4 && IsHexDigit(hex[0], a) && IsHexDigit(hex[1], b)
    requires IsHexDigit(hex[2], c) && IsHexDigit(hex[3], d)
    ensures Exactly([UnicodeEscape(hex)]) == Exactly([(16 * c + d) as char])
  {
    FourDigitsRead(hex, a, b, c, d);
    LowByte(16 * a + b, 16 * c + d);
  }

  lemma UnicodeReads(hex: string, rest: string)
    requires |hex| == 4
    ensures Exactly(Unescape("\\u" + hex + rest)) == Exactly([UnicodeEscape(hex)] + Unescape(rest))
  {
    var s := "\\u" + hex + rest;
    assert s[0] == '\\' && s[1] == 'u' && s[2..6] == hex && s[6..] == rest;
  }

  lemma LowByte(high: nat, low: nat)
    requires low < 256
    ensures (256 * high + low) % 256 == low
  {
  }

  /** A code past one byte comes out as another character. */
  lemma HighByteIsLost()
    ensures Unescape("\\u0141") == "A"
  {
    CodeReads("0141", 0, 1, 4, 1, "");
    assert "\\u" + "0141" + "" == "\\u0141";
  }

  /** Four characters that do not start with a number give the backslash alone. */
  lemma NoCodeReads(hex: string, rest: string)
    requires |hex| == 4 && HexValue(hex[0]).None? && !IsSpace(hex[0]) && hex[0] != '-' && hex[0] != '+'
    ensures Exactly(Unescape("\\u" + hex + rest)) == Exactly("\\" + Unescape(rest))
  {
    assert TrimLeft(hex) == hex;
    UnicodeReads(hex, rest);
  }

  /** Any other character behind a backslash keeps the backslash, and so does a `u` with fewer than
      four characters behind it or a backslash at the end. */
  lemma OtherEscapeIsKept(s: string)
    requires s != "" && s[0] == '\\'
    requires |s| > 1 ==> s[1] == '/' || !IsSimpleEscape(s[1])
    requires |s| > 5 ==> s[1] != 'u'
    ensures Exactly(Unescape(s)) == Exactly("\\" + Unescape(s[1..]))
  {
  }

  /** Escaping writes the short form of a control character that has one, and only what must be
      escaped. */
  lemma EscapeIsShort(c: char)
    ensures |EscapeChar(c)| == if c in "\"\\\n\r\t\U{08}\U{0C}" then 2 else if c < ' ' then 6 else 1
    ensures |EscapeChar(c)| == 1 ==> EscapeChar(c) == [c]
  {
  }
}
