/** Decimal numbers as std::to_string writes them and StringUtils::ParseUInt64 reads them. */
module Numbers {
  import opened Basics
  import opened Text

  const WORD: nat := 0x1_0000_0000_0000_0000

  predicate IsDigit(c: char) {
    '0' <= c <= '9'
  }

  predicate AllDigits(s: string) {
    forall i :: 0 <= i < |s| ==> IsDigit(s[i])
  }

  function Digit(c: char): nat
    requires IsDigit(c)
  {
    (c - '0') as nat
  }

  function Value(s: string): nat
    requires AllDigits(s)
  {
    if s == "" then 0 else 10 * Value(s[..|s| - 1]) + Digit(s[|s| - 1])
  }

  function Decimal(n: nat): (s: string)
    ensures s != "" && AllDigits(s)
  {
    var last := ['0' + (n % 10) as char];
    if n < 10 then last else Decimal(n / 10) + last
  }

  function DigitRun(s: string): (n: nat)
    ensures n <= |s| && AllDigits(s[..n]) && (n < |s| ==> !IsDigit(s[n]))
  {
    if s == "" || !IsDigit(s[0]) then 0
    else
      var n := DigitRun(s[1..]);
      assert s[..n + 1] == [s[0]] + s[1..][..n];
      n + 1
  }

  /** std::stoull and the check that only white space follows.  A minus sign negates the value
      modulo the word size; a value of 20 digits or more that does not fit is refused. */
  function ParseUInt64(s: string): Option<nat> {
    var body := TrimLeft(s);
    var signed := body != "" && (body[0] == '-' || body[0] == '+');
    var digits := if signed then body[1..] else body;
    var n := DigitRun(digits);
    if n == 0 then None
    else
      var v := Value(digits[..n]);
      if v >= WORD || Trim(digits[n..]) != "" then None
      else Some(if signed && body[0] == '-' then (WORD - v) % WORD else v)
  }

  lemma DigitsParse(s: string)
    requires s != "" && AllDigits(s)
    ensures ParseUInt64(s) == if Value(s) < WORD then Some(Value(s)) else None
  {
    assert IsDigit(s[0]) && TrimLeft(s) == s;
    assert DigitRun(s) == |s|;
    assert s[..|s|] == s && s[|s|..] == "";
  }

  lemma {:induction false} DecimalValue(n: nat)
    ensures Value(Decimal(n)) == n
  {
    var s := Decimal(n);
    var last := '0' + (n % 10) as char;
    assert Digit(last) == n % 10;
    if n < 10 {
      assert s[..|s| - 1] == "" && s[|s| - 1] == last;
    } else {
      DecimalValue(n / 10);
      assert s[..|s| - 1] == Decimal(n / 10) && s[|s| - 1] == last;
    }
  }

  /** Every word written in decimal reads back as itself. */
  lemma DecimalRoundTrip(n: nat)
    requires n < WORD
    ensures ParseUInt64(Decimal(n)) == Some(n)
  {
    DecimalValue(n);
    DigitsParse(Decimal(n));
  }

  /** std::string's operator<. */
  predicate LexLess(a: string, b: string) {
    b != "" && (a == "" || a[0] < b[0] || (a[0] == b[0] && LexLess(a[1..], b[1..])))
  }

  function Pow10(n: nat): nat {
    if n == 0 then 1 else 10 * Pow10(n - 1)
  }

  lemma ShiftDigits(d: nat, p: nat, v: nat, e: nat)
    ensures 10 * (d * p + v) + e == d * (10 * p) + (10 * v + e)
  {
  }

  lemma {:induction false} ValueBound(s: string)
    requires AllDigits(s)
    ensures Value(s) < Pow10(|s|)
    decreases |s|
  {
    if s != "" {
      ValueBound(s[..|s| - 1]);
    }
  }

  /** The value by its leading digit. */
  lemma {:induction false} LeadingDigit(s: string)
    requires s != "" && AllDigits(s)
    ensures Value(s) == Digit(s[0]) * Pow10(|s| - 1) + Value(s[1..])
    decreases |s|
  {
    var n := |s| - 1;
    if n == 0 {
      assert s[..n] == "" && s[1..] == "";
    } else {
      var front, tail := s[..n], s[1..];
      LeadingDigit(front);
      assert tail[..n - 1] == front[1..] && tail[n - 1] == s[n];
      ShiftDigits(Digit(s[0]), Pow10(n - 1), Value(front[1..]), Digit(s[n]));
    }
  }

  /** On digit strings of one width, order of value and order of text are the same. */
  lemma {:induction false} ValueOrderIsTextOrder(a: string, b: string)
    requires AllDigits(a) && AllDigits(b) && |a| == |b|
    ensures Value(a) < Value(b) <==> LexLess(a, b)
    ensures Value(a) == Value(b) <==> a == b
    decreases |a|
  {
    if a != "" {
      LeadingDigit(a);
      LeadingDigit(b);
      ValueOrderIsTextOrder(a[1..], b[1..]);
      ValueBound(a[1..]);
      ValueBound(b[1..]);
      var p := Pow10(|a| - 1);
      if Digit(a[0]) < Digit(b[0]) {
        StepApart(Digit(a[0]), Digit(b[0]), p);
      } else if Digit(b[0]) < Digit(a[0]) {
        StepApart(Digit(b[0]), Digit(a[0]), p);
      } else {
        assert a == [a[0]] + a[1..] && b == [b[0]] + b[1..];
      }
    }
  }

  lemma {:induction false} StepApart(i: nat, j: nat, p: nat)
    requires i < j
    ensures i * p + p <= j * p
    decreases j
  {
    assert j * p == (j - 1) * p + p;
    if i < j - 1 {
      StepApart(i, j - 1, p);
    }
  }

  /** Up to 19 digits always fit a word. */
  lemma NineteenDigitsFit(s: string)
    requires s != "" && |s| <= 19 && AllDigits(s)
    ensures ParseUInt64(s) == Some(Value(s))
  {
    ValueBound(s);
    PowMonotone(|s|, 19);
    assert Pow10(19) == 10 * Pow10(18) == 100 * Pow10(17);
    assert Pow10(17) == 10 * Pow10(16) == 100 * Pow10(15) == 1000 * Pow10(14);
    assert Pow10(14) == 10 * Pow10(13) == 100 * Pow10(12) == 1000 * Pow10(11);
    assert Pow10(11) == 10 * Pow10(10) == 100 * Pow10(9) == 1000 * Pow10(8);
    assert Pow10(8) == 100000000;
    DigitsParse(s);
  }

  lemma {:induction false} PowMonotone(m: nat, n: nat)
    requires m <= n
    ensures Pow10(m) <= Pow10(n)
    decreases n - m
  {
    if m < n {
      PowMonotone(m + 1, n);
    }
  }

  // ---- Everything that is read as a number ----

  /** `s` spells a number: white space, a sign or none, at least one digit, and `tail`, which does
      not go on with a digit. */
  predicate Spells(s: string, lead: string, sign: string, digits: string, tail: string) {
    && s == lead + (sign + (digits + tail)) && AllSpaces(lead)
    && (sign == "" || sign == "+" || sign == "-")
    && digits != "" && AllDigits(digits) && (tail == "" || !IsDigit(tail[0]))
  }

  lemma {:induction false} TrimLeftOf(lead: string, rest: string)
    requires AllSpaces(lead) && (rest == "" || !IsSpace(rest[0]))
    ensures Exactly(TrimLeft(lead + rest)) == Exactly(rest)
  {
    if lead == "" {
      assert lead + rest == rest;
    } else {
      assert (lead + rest)[1..] == lead[1..] + rest;
      TrimLeftOf(lead[1..], rest);
    }
  }

  lemma {:induction false} DigitRunOf(digits: string, tail: string)
    requires AllDigits(digits) && (tail == "" || !IsDigit(tail[0]))
    ensures DigitRun(digits + tail) == |digits|
  {
    if digits == "" {
      assert digits + tail == tail;
    } else {
      assert (digits + tail)[1..] == digits[1..] + tail;
      DigitRunOf(digits[1..], tail);
    }
  }

  lemma BlankTrims(tail: string)
    ensures Trim(tail) == "" <==> AllSpaces(tail)
  {
    var lead, trail := TrimCutsSpaces(tail);
    TrimIsTrimmed(tail);
    if Trim(tail) == "" {
      assert tail == lead + trail;
    } else {
      assert tail[|lead|] == Trim(tail)[0];
    }
  }

  lemma UnsignedParses(body: string, digits: string, tail: string)
    requires body == digits + tail && digits != "" && AllDigits(digits) && (tail == "" || !IsDigit(tail[0]))
    ensures DigitRun(body) == |digits| && body[..|digits|] == digits && body[|digits|..] == tail
  {
    DigitRunOf(digits, tail);
  }

  /** A spelled number is read if its value fits a word and nothing but white space follows. */
  lemma SpelledParses(s: string, lead: string, sign: string, digits: string, tail: string)
    requires Spells(s, lead, sign, digits, tail)
    ensures ParseUInt64(s) ==
      if Value(digits) >= WORD || !AllSpaces(tail) then None
      else Some(if sign == "-" then (WORD - Value(digits)) % WORD else Value(digits))
  {
    var body := sign + (digits + tail);
    assert body[0] == if sign == "" then digits[0] else sign[0];
    assert IsDigit(digits[0]);
    TrimLeftOf(lead, body);
    CutAppend(sign, digits + tail, |sign|);
    UnsignedParses(digits + tail, digits, tail);
    BlankTrims(tail);
  }

  function SignOf(body: string): string {
    if body != "" && (body[0] == '-' || body[0] == '+') then [body[0]] else ""
  }

  lemma ParsedStarts(s: string)
    requires ParseUInt64(s).Some?
    ensures DigitRun(TrimLeft(s)[|SignOf(TrimLeft(s))|..]) > 0
  {
    var body := TrimLeft(s);
    assert body[0..] == body;
  }

  lemma RunIsDigits(s: string)
    requires DigitRun(s) > 0
    ensures var n := DigitRun(s);
      && s[..n] != "" && AllDigits(s[..n]) && (s[n..] == "" || !IsDigit(s[n..][0]))
      && Exactly(s[..n] + s[n..]) == Exactly(s)
  {
    Rejoin(s, DigitRun(s));
  }

  lemma SignCuts(body: string)
    ensures var sign := SignOf(body);
      && (sign == "" || sign == "+" || sign == "-") && Exactly(sign + body[|sign|..]) == Exactly(body)
  {
    Rejoin(body, |SignOf(body)|);
    assert body != "" ==> body[..1] == [body[0]];
  }

  /** Nothing else is read as a number. */
  lemma ParsedIsSpelled(s: string) returns (lead: string, sign: string, digits: string, tail: string)
    requires ParseUInt64(s).Some?
    ensures Spells(s, lead, sign, digits, tail)
  {
    var body := TrimLeft(s);
    ParsedStarts(s);
    TrimLeftCuts(s);
    lead, sign := s[..|s| - |body|], SignOf(body);
    assert Exactly(lead + body) == Exactly(s) by {
      Rejoin(s, |lead|);
    }
    var rest := body[|sign|..];
    SignCuts(body);
    RunIsDigits(rest);
    digits, tail := rest[..DigitRun(rest)], rest[DigitRun(rest)..];
  }

  /** The text of a number range is no number. */
  lemma RangeIsRefused()
    ensures ParseUInt64("1-5") == None
  {
    assert "1-5" == "" + ("" + ("1" + "-5"));
    assert !IsSpace("-5"[0]);
    SpelledParses("1-5", "", "", "1", "-5");
  }
}
