/** BinlogCoordinates: a binlog file and a position in it. */
module Coordinates {
  import opened Basics
  import opened Text
  import opened Numbers

  /** The sequence number a binlog file name ends in: what follows its last dot, or 0. */
  function ParseSequence(file: string): nat {
    var tail := AfterLastDot(file);
    if tail == "" then 0
    else
      match ParseUInt64(tail)
      case Some(n) => n
      case None => 0
  }

  function AfterLastDot(file: string): string
    decreases |file|
  {
    if file == "" then ""
    else if file[|file| - 1] == '.' then ""
    else if '.' !in file then ""
    else AfterLastDot(file[..|file| - 1]) + [file[|file| - 1]]
  }

  datatype Coordinates = Coordinates(file: string, position: nat) {

    function Sequence(): nat {
      ParseSequence(file)
    }

    predicate IsValid() {
      file != "" && position > 0
    }

    predicate Less(other: Coordinates) {
      if Sequence() != other.Sequence() then Sequence() < other.Sequence() else position < other.position
    }

    predicate LessEq(other: Coordinates) {
      this == other || Less(other)
    }

    predicate Greater(other: Coordinates) {
      !LessEq(other)
    }

    predicate GreaterEq(other: Coordinates) {
      !Less(other)
    }

    function ToString(): string {
      if IsValid() then file + ":" + Decimal(position) else ""
    }
  }

  ghost function Parse(text: string): Option<Coordinates> {
    var parts := SplitAt(text, ':');
    if |parts| != 2 then None
    else
      match ParseUInt64(parts[1])
      case None => None
      case Some(n) => Some(Coordinates(parts[0], n))
  }

  method ParseText(text: string) returns (r: Option<Coordinates>)
    ensures r == Parse(text)
  {
    var parts := SplitTextAt(text, ':');
    if |parts| != 2 {
      return None;
    }
    var position := ParseUInt64(parts[1]);
    if position.None? {
      return None;
    }
    return Some(Coordinates(parts[0], position.value));
  }

  // ---- Order ----

  /** On any file names at all, `<` is a strict weak order. */
  lemma LessIsStrictWeakOrder(a: Coordinates, b: Coordinates, c: Coordinates)
    ensures !a.Less(a)
    ensures a.Less(b) ==> !b.Less(a)
    ensures a.Less(b) && b.Less(c) ==> a.Less(c)
    ensures !a.Less(b) && !b.Less(a) && !b.Less(c) && !c.Less(b) ==> !a.Less(c) && !c.Less(a)
  {
  }

  /** The four operators agree with each other on a pair. */
  predicate OperatorsAgree(a: Coordinates, b: Coordinates) {
    && a.Greater(b) == b.Less(a)
    && b.Greater(a) == a.Less(b)
    && a.GreaterEq(b) == b.LessEq(a)
    && b.GreaterEq(a) == a.LessEq(b)
  }

  /** They disagree exactly on two different files with one sequence number and one position:
      then neither is `<` the other, yet each is `>` the other. */
  lemma OperatorsAgreeIff(a: Coordinates, b: Coordinates)
    ensures OperatorsAgree(a, b) <==>
      !(a.file != b.file && a.Sequence() == b.Sequence() && a.position == b.position)
    ensures !OperatorsAgree(a, b) ==> a.Greater(b) && b.Greater(a) && a.GreaterEq(b) && b.GreaterEq(a)
  {
  }

  lemma TwoFilesOneSequence()
    ensures var a, b := Coordinates("a.000001", 4), Coordinates("b.000001", 4);
      a.Greater(b) && b.Greater(a) && !a.Less(b) && !b.Less(a)
  {
    var a, b := Coordinates("a.000001", 4), Coordinates("b.000001", 4);
    assert a.file == "a." + "000001" && b.file == "b." + "000001";
    TailOfName("a.", "000001");
    TailOfName("b.", "000001");
    assert a.file[0] == 'a' && b.file[0] == 'b';
    OperatorsAgreeIff(a, b);
  }

  /** The files of one binlog series: a common base, a dot, and 1 to 19 digits of fixed width. */
  predicate InSeries(c: Coordinates, base: string, width: nat) {
    && 1 <= width <= 19 && |c.file| == |base| + 1 + width
    && c.file[..|base| + 1] == base + "."
    && AllDigits(c.file[|base| + 1..])
  }

  lemma AfterLastDotOfExtended(front: string, last: char)
    requires last != '.' && '.' in front
    ensures Exactly(AfterLastDot(front + [last])) == Exactly(AfterLastDot(front) + [last])
  {
    CutAppend(front, [last], |front|);
    assert (front + [last])[|front|] == last;
  }

  lemma {:induction false} TailOfName(name: string, digits: string)
    requires '.' !in digits && name != "" && name[|name| - 1] == '.'
    ensures Exactly(AfterLastDot(name + digits)) == Exactly(digits)
    decreases |digits|
  {
    if digits == "" {
      assert name + digits == name;
    } else {
      var front, last := digits[..|digits| - 1], digits[|digits| - 1];
      TailOfName(name, front);
      assert digits == front + [last];
      Regroup3(name, front, [last]);
      assert last in digits && (forall c <- front :: c in digits) && (name + front)[|name| - 1] == '.';
      AfterLastDotOfExtended(name + front, last);
    }
  }

  lemma SeriesSequence(c: Coordinates, base: string, width: nat)
    requires InSeries(c, base, width)
    ensures c.Sequence() == Value(c.file[|base| + 1..])
  {
    var digits := c.file[|base| + 1..];
    Rejoin(c.file, |base| + 1);
    TailOfName(base + ".", digits);
    NineteenDigitsFit(digits);
  }

  lemma {:induction false} LexLessAfterPrefix(prefix: string, a: string, b: string)
    ensures LexLess(prefix + a, prefix + b) <==> LexLess(a, b)
  {
    if prefix == "" {
      assert prefix + a == a && prefix + b == b;
    } else {
      assert (prefix + a)[1..] == prefix[1..] + a && (prefix + b)[1..] == prefix[1..] + b;
      LexLessAfterPrefix(prefix[1..], a, b);
    }
  }

  /** Within a series `<` is the order of (file name, position), it is total, and all four
      operators agree with it. */
  lemma SeriesOrder(a: Coordinates, b: Coordinates, base: string, width: nat)
    requires InSeries(a, base, width) && InSeries(b, base, width)
    ensures a.Less(b) <==> LexLess(a.file, b.file) || (a.file == b.file && a.position < b.position)
    ensures a == b || a.Less(b) || b.Less(a)
    ensures OperatorsAgree(a, b)
  {
    var n := |base| + 1;
    SeriesSequence(a, base, width);
    SeriesSequence(b, base, width);
    Rejoin(a.file, n);
    Rejoin(b.file, n);
    ValueOrderIsTextOrder(a.file[n..], b.file[n..]);
    LexLessAfterPrefix(a.file[..n], a.file[n..], b.file[n..]);
    OperatorsAgreeIff(a, b);
  }

  // ---- Text form ----

  lemma FindChar(text: string, c: char)
    ensures match Find(text, [c])
      case Some(i) => i < |text| && text[i] == c && c !in text[..i]
      case None => c !in text
  {
    forall i: nat ensures OccursAt(text, [c], i) <==> i < |text| && text[i] == c {
      if i < |text| {
        assert [c] <= text[i..] <==> text[i..][0] == c;
      }
    }
    var r := Find(text, [c]);
    assert IsFirst(text, [c], 0, r) by {
      FindIsFirst(text, [c], 0);
    }
  }

  lemma FirstPartLacksDelimiter(text: string, c: char)
    ensures c !in Split(text, [c])[0]
  {
    FindChar(text, c);
    var e := Find(text, [c]);
  }

  lemma SplitTwo(left: string, right: string, c: char)
    requires c !in left && c !in right && right != ""
    ensures SplitAt(left + [c] + right, c) == [left, right]
  {
    var parts, text := [left, right], left + [c] + right;
    FindChar(left + [c], c);
    FindChar(right, c);
    assert (left + [c])[|left|] == c;
    assert Join([right], [c]) == right && parts[1..] == [right];
    SplitIsUnique(parts, text, [c]);
  }

  /** Writing and parsing back restores valid coordinates exactly when the file name has no colon. */
  lemma CoordinatesRoundTripIff(c: Coordinates)
    requires c.IsValid() && c.position < WORD
    ensures Parse(c.ToString()) == Some(c) <==> ':' !in c.file
  {
    var digits := Decimal(c.position);
    var text := c.ToString();
    if ':' !in c.file {
      assert ':' !in digits;
      SplitTwo(c.file, digits, ':');
      DecimalRoundTrip(c.position);
    } else if Parse(text) == Some(c) {
      FirstPartLacksDelimiter(text, ':');
    }
  }

  /** A file name with a colon is written but not parsed back. */
  lemma ColonFileIsLost()
    ensures Parse(Coordinates("a:b", 4).ToString()) != Some(Coordinates("a:b", 4))
  {
    assert "a:b"[1] == ':';
    CoordinatesRoundTripIff(Coordinates("a:b", 4));
  }

  /** Invalid coordinates are written as nothing, which does not parse. */
  lemma InvalidIsNotWritten(c: Coordinates)
    requires !c.IsValid()
    ensures Parse(c.ToString()).None?
  {
    FindChar("", ':');
    assert SplitAt("", ':') == [];
  }

  /** Exactly the texts of a file without a colon, a colon, and a number without one parse; a further
      colon at the very end does no harm. */
  lemma ParseIff(text: string, c: Coordinates)
    ensures Parse(text) == Some(c) <==>
      exists number: string ::
        && ':' !in c.file && ':' !in number && ParseUInt64(number) == Some(c.position)
        && (text == c.file + ":" + number || text == c.file + ":" + number + ":")
  {
    if number: string :|
      && ':' !in c.file && ':' !in number && ParseUInt64(number) == Some(c.position)
      && (text == c.file + ":" + number || text == c.file + ":" + number + ":")
    {
      assert number != "";
      if text == c.file + ":" + number {
        SplitTwo(c.file, number, ':');
      } else {
        SplitTwoClosed(c.file, number, ':');
      }
    }
    if Parse(text) == Some(c) {
      var parts := SplitAt(text, ':');
      JoinOfSplitAt(text, ':');
      assert parts == [c.file, parts[1]] && Join([parts[1]], ":") == parts[1] && parts[1..] == [parts[1]];
      assert Join(parts, ":") == c.file + ":" + parts[1];
      PartsLackDelimiter(text, ':');
      assert ':' !in parts[0] && ':' !in parts[1];
    }
  }

  lemma SplitTwoClosed(left: string, right: string, c: char)
    requires c !in left && c !in right && right != ""
    ensures SplitAt(left + [c] + right + [c], c) == [left, right]
  {
    var parts, text := [left, right, ""], left + [c] + right + [c];
    FindChar(left + [c], c);
    FindChar(right + [c], c);
    FindChar("", c);
    assert (left + [c])[|left|] == c && (right + [c])[|right|] == c;
    assert parts[1..] == [right, ""] && parts[1..][1..] == [""] && Join([right, ""], [c]) == right + [c] + "";
    assert Join(parts, [c]) == text;
    SplitIsUnique(parts, text, [c]);
    assert parts[..2] == [left, right];
  }

  lemma PartsLackDelimiter(text: string, c: char)
    ensures forall part <- SplitAt(text, c) :: c !in part
  {
    var parts := Split(text, [c]);
    SplitIsSplit(text, [c]);
    forall i | 0 <= i < |parts| ensures c !in parts[i] {
      FindChar(parts[i] + [c], c);
      FindChar(parts[i], c);
      if i < |parts| - 1 {
        assert (parts[i] + [c])[..|parts[i]|] == parts[i];
      }
    }
  }

  /** The sequence number is the number behind the last dot, and 0 if there is no dot or no number. */
  lemma SequenceIsTail(name: string, tail: string)
    requires '.' !in tail
    ensures ParseSequence(name + "." + tail) ==
      match ParseUInt64(tail)
      case Some(n) => n
      case None => 0
    ensures ParseSequence(tail) == 0
  {
    TailOfName(name + ".", tail);
    assert ParseUInt64("") == None;
    NoDotNoTail(tail);
  }

  lemma NoDotNoTail(file: string)
    requires '.' !in file
    ensures AfterLastDot(file) == ""
  {
    assert file != "" ==> file[|file| - 1] in file;
  }
}
