/** The shared StringUtils operations: finding, splitting, joining, replacing and trimming. */
module Text {
  import opened Basics

  // ---- Finding ----

  /** `d` stands in `text` at position `i`. */
  predicate OccursAt(text: string, d: string, i: nat) {
    i <= |text| && d <= text[i..]
  }

  lemma OccursAtIsSlice(text: string, d: string, i: nat)
    ensures OccursAt(text, d, i) <==> i + |d| <= |text| && text[i..i + |d|] == d
  {
  }

  lemma OccursBehind(front: string, text: string, d: string, j: nat)
    ensures OccursAt(front + text, d, |front| + j) <==> OccursAt(text, d, j)
  {
    if j <= |text| {
      assert (front + text)[|front| + j..] == text[j..];
    }
  }

  lemma OccursInFront(front: string, text: string, d: string, j: nat)
    requires j + |d| <= |front|
    ensures OccursAt(front + text, d, j) <==> OccursAt(front, d, j)
  {
    OccursAtIsSlice(front, d, j);
    OccursAtIsSlice(front + text, d, j);
    assert (front + text)[j..j + |d|] == front[j..j + |d|];
  }

  ghost predicate IsFirst(text: string, d: string, start: nat, r: Option<nat>) {
    && (r.Some? ==> start <= r.value && OccursAt(text, d, r.value)
                    && forall j: nat :: start <= j < r.value ==> !OccursAt(text, d, j))
    && (r.None? ==> forall j: nat :: start <= j ==> !OccursAt(text, d, j))
  }

  lemma {:induction false} FirstExists(text: string, d: string, start: nat)
    requires start <= |text|
    ensures exists r :: IsFirst(text, d, start, r)
    decreases |text| - start
  {
    if OccursAt(text, d, start) {
      assert IsFirst(text, d, start, Some(start));
    } else if start == |text| {
      assert IsFirst(text, d, start, None);
    } else {
      FirstExists(text, d, start + 1);
      var r :| IsFirst(text, d, start + 1, r);
      assert IsFirst(text, d, start, r);
    }
  }

  /** The first occurrence of `d` from `start` on. */
  ghost function FindFrom(text: string, d: string, start: nat): (r: Option<nat>)
    requires start <= |text|
    ensures r.Some? ==> start <= r.value && r.value + |d| <= |text|
  {
    FirstExists(text, d, start);
    var r :| IsFirst(text, d, start, r);
    r
  }

  lemma FindIsFirst(text: string, d: string, start: nat)
    requires start <= |text|
    ensures IsFirst(text, d, start, FindFrom(text, d, start))
  {
    FirstExists(text, d, start);
  }

  ghost function Find(text: string, d: string): Option<nat> {
    FindFrom(text, d, 0)
  }

  /** std::string::find. */
  method FindText(text: string, d: string, start: nat) returns (r: Option<nat>)
    requires start <= |text|
    ensures r == FindFrom(text, d, start)
  {
    var i := start;
    while i + |d| <= |text|
      invariant start <= i <= |text| + 1
      invariant forall j: nat :: start <= j < i ==> !OccursAt(text, d, j)
    {
      if OccursAt(text, d, i) {
        return Some(i);
      }
      i := i + 1;
    }
    return None;
  }

  function Shifted(n: nat, r: Option<nat>): Option<nat> {
    match r
    case None => None
    case Some(i) => Some(n + i)
  }

  lemma FindBehind(front: string, text: string, d: string)
    ensures FindFrom(front + text, d, |front|) == Shifted(|front|, Find(text, d))
  {
    var n, r := |front|, Find(text, d);
    forall j: nat ensures OccursAt(front + text, d, n + j) <==> OccursAt(text, d, j) {
      OccursBehind(front, text, d, j);
    }
    forall j: nat | n <= j && OccursAt(front + text, d, j) ensures r.Some? && n + r.value <= j {
      assert OccursAt(front + text, d, n + (j - n));
      assert OccursAt(text, d, j - n);
    }
    assert IsFirst(front + text, d, n, Shifted(n, r));
  }

  lemma FindInTail(text: string, d: string, start: nat)
    requires start <= |text|
    ensures FindFrom(text, d, start) == Shifted(start, Find(text[start..], d))
  {
    FindBehind(text[..start], text[start..], d);
    Rejoin(text, start);
  }

  lemma CutAtFirst(text: string, d: string, e: nat)
    requires Find(text, d) == Some(e)
    ensures e + |d| <= |text| && text[e..e + |d|] == d && text == text[..e] + d + text[e + |d|..]
  {
    OccursAtIsSlice(text, d, e);
  }

  ghost predicate Contains(text: string, d: string) {
    Find(text, d).Some?
  }

  predicate StartsWith(text: string, prefix: string) {
    |prefix| <= |text| && text[..|prefix|] == prefix
  }

  // ---- Splitting and joining ----

  ghost function Split(text: string, d: string): (parts: seq<string>)
    requires d != ""
    ensures parts != []
    decreases |text|
  {
    match Find(text, d)
    case None => [text]
    case Some(e) => [text[..e]] + Split(text[e + |d|..], d)
  }

  function Join(parts: seq<string>, d: string): string {
    if parts == [] then ""
    else if |parts| == 1 then parts[0]
    else parts[0] + d + Join(parts[1..], d)
  }

  method SplitText(text: string, d: string) returns (parts: seq<string>)
    ensures d == "" ==> parts == seq(|text|, i requires 0 <= i < |text| => [text[i]])
    ensures d != "" ==> parts == Split(text, d)
  {
    parts := [];
    if d == "" {
      for i := 0 to |text|
        invariant parts == seq(i, k requires 0 <= k < |text| => [text[k]])
      {
        parts := parts + [[text[i]]];
      }
      return;
    }
    var start: nat := 0;
    var end := FindText(text, d, 0);
    assert [] + SplitFrom(text, d, 0) == SplitFrom(text, d, 0);
    while end.Some?
      invariant start <= |text| && end == FindFrom(text, d, start)
      invariant Exactly(parts + SplitFrom(text, d, start)) == Exactly(SplitFrom(text, d, 0))
      decreases |text| - start
    {
      Regroup3(parts, [text[start..end.value]], SplitFrom(text, d, end.value + |d|));
      parts := parts + [text[start..end.value]];
      start := end.value + |d|;
      end := FindText(text, d, start);
    }
    parts := parts + [text[start..]];
    SplitFromIsSplit(text, d, 0);
    assert text[0..] == text;
  }

  /** The parts the loop still has to cut when it has come to `start`. */
  ghost function SplitFrom(text: string, d: string, start: nat): seq<string>
    requires d != "" && start <= |text|
    decreases |text| - start
  {
    match FindFrom(text, d, start)
    case None => [text[start..]]
    case Some(end) => [text[start..end]] + SplitFrom(text, d, end + |d|)
  }

  lemma {:induction false} SplitFromIsSplit(text: string, d: string, start: nat)
    requires d != "" && start <= |text|
    ensures SplitFrom(text, d, start) == Split(text[start..], d)
    decreases |text| - start
  {
    FindInTail(text, d, start);
    var e := Find(text[start..], d);
    if e.Some? {
      var end := start + e.value;
      CutTail(text, start, e.value);
      CutTail(text, start, e.value + |d|);
      SplitFromIsSplit(text, d, end + |d|);
    }
  }

  method JoinParts(parts: seq<string>, d: string) returns (text: string)
    ensures text == Join(parts, d)
  {
    if parts == [] {
      return "";
    }
    text := parts[0];
    for i := 1 to |parts|
      invariant text == Join(parts[..i], d)
    {
      JoinAppend(parts[..i], parts[i], d);
      assert parts[..i + 1] == parts[..i] + [parts[i]];
      text := text + (d + parts[i]);
    }
    assert parts[..|parts|] == parts;
  }

  lemma {:induction false} JoinAppend(parts: seq<string>, last: string, d: string)
    requires parts != []
    ensures Join(parts + [last], d) == Join(parts, d) + d + last
    decreases |parts|
  {
    var all := parts + [last];
    if |parts| == 1 {
      assert all[1..] == [last];
    } else {
      JoinAppend(parts[1..], last, d);
      assert all[1..] == parts[1..] + [last];
    }
  }

  /** Splitting loses nothing. */
  lemma {:induction false} JoinOfSplit(text: string, d: string)
    requires d != ""
    ensures Join(Split(text, d), d) == text
    decreases |text|
  {
    var e := Find(text, d);
    if e.Some? {
      var rest := text[e.value + |d|..];
      JoinOfSplit(rest, d);
      JoinCons(text[..e.value], Split(rest, d), d);
      CutAtFirst(text, d, e.value);
    }
  }

  /** What identifies a split: the parts join to the text, and in each part followed by a
      delimiter the delimiter is the first one. */
  ghost predicate IsSplit(parts: seq<string>, text: string, d: string) {
    && parts != [] && Join(parts, d) == text
    && (forall i :: 0 <= i < |parts| - 1 ==> Find(parts[i] + d, d) == Some(|parts[i]|))
    && Find(parts[|parts| - 1], d).None?
  }

  lemma FindInPrefix(text: string, n: nat, d: string)
    requires OccursAt(text, d, n)
    ensures Find(text[..n] + d, d) == Some(n) <==> Find(text, d) == Some(n)
  {
    OccursAtIsSlice(text, d, n);
    var front := text[..n + |d|];
    assert front == text[..n] + d && text == front + text[n + |d|..];
    forall j: nat | j <= n ensures OccursAt(front, d, j) <==> OccursAt(text, d, j) {
      OccursInFront(front, text[n + |d|..], d, j);
    }
  }

  lemma JoinCons(first: string, parts: seq<string>, d: string)
    requires parts != []
    ensures Join([first] + parts, d) == first + d + Join(parts, d)
  {
    assert ([first] + parts)[1..] == parts;
  }

  lemma {:induction false} SplitIsSplit(text: string, d: string)
    requires d != ""
    ensures IsSplit(Split(text, d), text, d)
    decreases |text|
  {
    JoinOfSplit(text, d);
    var e := Find(text, d);
    if e.Some? {
      var rest := text[e.value + |d|..];
      SplitIsSplit(rest, d);
      FindInPrefix(text, e.value, d);
      var parts, tail := Split(text, d), Split(rest, d);
      assert parts == [text[..e.value]] + tail;
      forall i | 0 <= i < |parts| - 1 ensures Find(parts[i] + d, d) == Some(|parts[i]|) {
        assert i > 0 ==> parts[i] == tail[i - 1];
      }
    }
  }

  lemma {:induction false} SplitIsUnique(parts: seq<string>, text: string, d: string)
    requires d != ""
    ensures IsSplit(parts, text, d) <==> parts == Split(text, d)
    decreases |text|
  {
    SplitIsSplit(text, d);
    if IsSplit(parts, text, d) && |parts| > 1 {
      FirstPart(parts, text, d);
      SplitIsUnique(parts[1..], text[|parts[0]| + |d|..], d);
      assert parts == [parts[0]] + parts[1..];
    }
  }

  lemma FirstPart(parts: seq<string>, text: string, d: string)
    requires d != "" && IsSplit(parts, text, d) && |parts| > 1
    ensures Find(text, d) == Some(|parts[0]|) && text[..|parts[0]|] == parts[0]
    ensures IsSplit(parts[1..], text[|parts[0]| + |d|..], d)
  {
    var n := |parts[0]|;
    assert text == parts[0] + d + Join(parts[1..], d);
    assert text[n + |d|..] == Join(parts[1..], d);
    assert text[..n] == parts[0];
    OccursAtIsSlice(text, d, n);
    FindInPrefix(text, n, d);
    assert parts[0] == parts[..|parts| - 1][0];
    forall i | 0 <= i < |parts[1..]| - 1 ensures Find(parts[1..][i] + d, d) == Some(|parts[1..][i]|) {
      assert parts[1..][i] == parts[i + 1];
    }
  }

  /** Split(str, char) reads lines: a trailing empty part is dropped. */
  ghost function SplitAt(text: string, c: char): seq<string> {
    var parts := Split(text, [c]);
    if parts[|parts| - 1] == "" then parts[..|parts| - 1] else parts
  }

  method SplitTextAt(text: string, c: char) returns (parts: seq<string>)
    ensures parts == SplitAt(text, c)
  {
    parts := SplitText(text, [c]);
    if parts[|parts| - 1] == "" {
      parts := parts[..|parts| - 1];
    }
  }

  // ---- Replacing ----

  /** The text with each occurrence of `from`, found left to right, replaced by `to`. */
  ghost function Replaced(text: string, from: string, to: string): string
    requires from != ""
    decreases |text|
  {
    match Find(text, from)
    case None => text
    case Some(e) => text[..e] + to + Replaced(text[e + |from|..], from, to)
  }

  /** Replacing is splitting at `from` and joining with `to`. */
  lemma {:induction false} ReplacedIsJoinOfSplit(text: string, from: string, to: string)
    requires from != ""
    ensures Replaced(text, from, to) == Join(Split(text, from), to)
    decreases |text|
  {
    var e := Find(text, from);
    if e.Some? {
      var rest := text[e.value + |from|..];
      var tail := Split(rest, from);
      ReplacedIsJoinOfSplit(rest, from, to);
      JoinCons(text[..e.value], tail, to);
      assert Split(text, from) == [text[..e.value]] + tail;
    }
  }

  /** The loop searches on from behind each insertion, so inserted text is never searched again
      and the loop ends even when `to` contains `from`. */
  method ReplaceAll(text: string, from: string, to: string) returns (result: string)
    ensures from == "" ==> result == text
    ensures from != "" ==> result == Replaced(text, from, to)
  {
    result := text;
    if from == "" {
      return;
    }
    var pos: nat := 0;
    var found := FindText(result, from, pos);
    while found.Some?
      invariant pos <= |result| && found == FindFrom(result, from, pos)
      invariant ReplaceBehind(result, pos, from, to) == ReplaceBehind(text, 0, from, to)
      decreases |result| - pos
    {
      var at := found.value;
      result := result[..at] + to + result[at + |from|..];
      pos := at + |to|;
      found := FindText(result, from, pos);
    }
    ReplaceBehindKeepsFront(text, 0, from, to);
    assert text[0..] == text && text[..0] + Replaced(text, from, to) == Replaced(text, from, to);
  }

  /** What the in-place loop makes of `text` when it has come to `pos`. */
  ghost function ReplaceBehind(text: string, pos: nat, from: string, to: string): string
    requires from != "" && pos <= |text|
    decreases |text| - pos
  {
    match FindFrom(text, from, pos)
    case None => text
    case Some(at) => ReplaceBehind(text[..at] + to + text[at + |from|..], at + |to|, from, to)
  }

  lemma ReplaceBehindStep(text: string, pos: nat, from: string, to: string, e: nat)
    requires from != "" && pos <= |text| && Find(text[pos..], from) == Some(e)
    ensures pos + e + |from| <= |text|
    ensures Exactly(ReplaceBehind(text, pos, from, to))
         == Exactly(ReplaceBehind(text[..pos + e] + to + text[pos + e + |from|..], pos + e + |to|, from, to))
  {
    FindInTail(text, from, pos);
  }

  lemma ReplacedStep(text: string, from: string, to: string, e: nat)
    requires from != "" && Find(text, from) == Some(e)
    ensures Exactly(Replaced(text, from, to)) == Exactly(text[..e] + to + Replaced(text[e + |from|..], from, to))
  {
  }

  lemma FrontRegroups(text: string, pos: nat, e: nat, to: string, replaced: string)
    requires pos + e <= |text|
    ensures Exactly(text[..pos + e] + to + replaced) == Exactly(text[..pos] + (text[pos..][..e] + to + replaced))
  {
    CutTail(text, pos, e);
    Regroup4(text[..pos], text[pos..pos + e], to, replaced);
  }

  /** One replacement at `pos + e`, given what the loop makes of the text behind it. */
  lemma ReplaceBehindFound(text: string, pos: nat, from: string, to: string, e: nat)
    requires from != "" && pos <= |text| && Find(text[pos..], from) == Some(e) && pos + e + |from| <= |text|
    requires var front, rest := text[..pos + e] + to, text[pos + e + |from|..];
      Exactly(ReplaceBehind(front + rest, |front|, from, to)) == Exactly(front + Replaced(rest, from, to))
    ensures Exactly(ReplaceBehind(text, pos, from, to)) == Exactly(text[..pos] + Replaced(text[pos..], from, to))
  {
    ReplaceBehindStep(text, pos, from, to, e);
    ReplacedStep(text[pos..], from, to, e);
    CutTail(text, pos, e + |from|);
    FrontRegroups(text, pos, e, to, Replaced(text[pos + e + |from|..], from, to));
  }

  lemma {:induction false} ReplaceBehindKeepsFront(text: string, pos: nat, from: string, to: string)
    requires from != "" && pos <= |text|
    ensures Exactly(ReplaceBehind(text, pos, from, to)) == Exactly(text[..pos] + Replaced(text[pos..], from, to))
    decreases |text| - pos
  {
    FindInTail(text, from, pos);
    var e := Find(text[pos..], from);
    if e.None? {
      Rejoin(text, pos);
    } else {
      var front, rest := text[..pos + e.value] + to, text[pos + e.value + |from|..];
      CutAppend(front, rest, |front|);
      ReplaceBehindKeepsFront(front + rest, |front|, from, to);
      ReplaceBehindFound(text, pos, from, to, e.value);
    }
  }

  // ---- Trimming and case ----

  predicate IsSpace(c: char) {
    c == ' ' || c == '\t' || c == '\n' || c == '\r' || c == '\U{0B}' || c == '\U{0C}'
  }

  function TrimLeft(text: string): (r: string)
    ensures r == "" || !IsSpace(r[0])
  {
    if text != "" && IsSpace(text[0]) then TrimLeft(text[1..]) else text
  }

  function TrimRight(text: string): (r: string)
    ensures r == "" || !IsSpace(r[|r| - 1])
    ensures r <= text
  {
    if text != "" && IsSpace(text[|text| - 1]) then TrimRight(text[..|text| - 1]) else text
  }

  function Trim(text: string): string {
    TrimRight(TrimLeft(text))
  }

  predicate IsTrimmed(text: string) {
    text == "" || (!IsSpace(text[0]) && !IsSpace(text[|text| - 1]))
  }

  lemma TrimIsTrimmed(text: string)
    ensures IsTrimmed(Trim(text))
    ensures IsTrimmed(text) ==> Trim(text) == text
  {
  }

  /** White space is the blank and the control characters from tab to return. */
  lemma SpacesAreCodes(c: char)
    ensures IsSpace(c) <==> c as int == 32 || 9 <= c as int <= 13
  {
  }

  predicate AllSpaces(text: string) {
    forall i :: 0 <= i < |text| ==> IsSpace(text[i])
  }

  lemma {:induction false} TrimLeftCuts(text: string)
    ensures |TrimLeft(text)| <= |text|
    ensures var n := |text| - |TrimLeft(text)|; AllSpaces(text[..n]) && Exactly(text[n..]) == Exactly(TrimLeft(text))
  {
    if text != "" && IsSpace(text[0]) {
      TrimLeftCuts(text[1..]);
      var n := |text| - |TrimLeft(text)|;
      assert text[1..][n - 1..] == text[n..];
      assert text[..n] == [text[0]] + text[1..][..n - 1];
    } else {
      assert text[0..] == text;
    }
  }

  lemma {:induction false} TrimRightCuts(text: string)
    ensures AllSpaces(text[|TrimRight(text)|..])
    decreases |text|
  {
    if text != "" && IsSpace(text[|text| - 1]) {
      var front := text[..|text| - 1];
      TrimRightCuts(front);
      assert text[|TrimRight(text)|..] == front[|TrimRight(text)|..] + [text[|text| - 1]];
    }
  }

  /** Trimming cuts off white space at both ends and nothing else. */
  lemma TrimCutsSpaces(text: string) returns (lead: string, trail: string)
    ensures text == lead + Trim(text) + trail && AllSpaces(lead) && AllSpaces(trail)
  {
    var rest := TrimLeft(text);
    TrimLeftCuts(text);
    TrimRightCuts(rest);
    lead, trail := text[..|text| - |rest|], rest[|Trim(text)|..];
    Rejoin(text, |lead|);
    Rejoin(rest, |Trim(text)|);
    assert text == lead + (rest[..|Trim(text)|] + trail);
  }

  /** Joining what getline splits gives the text back, but for a delimiter at its very end. */
  lemma JoinOfSplitAt(text: string, c: char)
    ensures Join(SplitAt(text, c), [c]) + (if text != "" && text[|text| - 1] == c then [c] else "") == text
  {
    var parts := Split(text, [c]);
    var n := |parts| - 1;
    JoinOfSplit(text, [c]);
    SplitIsSplit(text, [c]);
    if parts[n] == "" {
      if n > 0 {
        JoinAppend(parts[..n], "", [c]);
        assert parts == parts[..n] + [""];
      }
    } else {
      EndOfJoin(parts, [c]);
      if text[|text| - 1] == c {
        assert parts[n][|parts[n]| - 1..] == [c];
        FindIsFirst(parts[n], [c], 0);
        assert OccursAt(parts[n], [c], |parts[n]| - 1);
      }
    }
  }

  lemma EndOfJoin(parts: seq<string>, d: string)
    requires parts != [] && parts[|parts| - 1] != ""
    ensures var text, last := Join(parts, d), parts[|parts| - 1];
      text != "" && text[|text| - 1] == last[|last| - 1]
  {
    if |parts| > 1 {
      JoinLast(parts, d);
      EndOfAppend(Join(parts[..|parts| - 1], d) + d, parts[|parts| - 1]);
    }
  }

  lemma JoinLast(parts: seq<string>, d: string)
    requires |parts| > 1
    ensures var n := |parts| - 1; Exactly(Join(parts, d)) == Exactly(Join(parts[..n], d) + d + parts[n])
  {
    var front, last := parts[..|parts| - 1], parts[|parts| - 1];
    JoinAppend(front, last, d);
    assert Exactly(front + [last]) == Exactly(parts) by {
      assert front + [last] == parts;
    }
  }

  lemma EndOfAppend(front: string, last: string)
    requires last != ""
    ensures (front + last) != "" && (front + last)[|front + last| - 1] == last[|last| - 1]
  {
  }

  function ToUpperChar(c: char): char {
    if 'a' <= c <= 'z' then c - 'a' + 'A' else c
  }

  function ToUpper(text: string): (r: string)
    ensures |r| == |text| && forall k :: 0 <= k < |text| ==> r[k] == ToUpperChar(text[k])
  {
    seq(|text|, i requires 0 <= i < |text| => ToUpperChar(text[i]))
  }
}
