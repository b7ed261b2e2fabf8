/** UTF-8 validation and filtering over raw bytes. */
module Utf8 {
  import opened Basics

  type Byte = bv8

  /** How many bytes the lead byte announces; 0 when it cannot start a character. */
  function Width(c: Byte): nat {
    if c < 0x80 then 1
    else if c & 0xE0 == 0xC0 then 2
    else if c & 0xF0 == 0xE0 then 3
    else if c & 0xF8 == 0xF0 then 4
    else 0
  }

  predicate IsTail(c: Byte) {
    c & 0xC0 == 0x80
  }

  /** A character starts `s`: a lead byte and as many tail bytes as it announces. */
  predicate StartsCharacter(s: seq<Byte>) {
    && s != []
    && 0 < Width(s[0]) <= |s|
    && forall k :: 1 <= k < Width(s[0]) ==> IsTail(s[k])
  }

  predicate IsValid(s: seq<Byte>) {
    s == [] || (StartsCharacter(s) && IsValid(s[Width(s[0])..]))
  }

  /** Drops bytes that cannot lead and leads whose sequence is cut off by the end of the text. */
  function Encode(s: seq<Byte>): seq<Byte> {
    if s == [] then []
    else
      var n := Width(s[0]);
      if n == 0 || n > |s| then Encode(s[1..]) else s[..n] + Encode(s[n..])
  }

  method IsValidUTF8(s: seq<Byte>) returns (r: bool)
    ensures r <==> IsValid(s)
  {
    var i := 0;
    assert s[0..] == s;
    while i < |s|
      invariant i <= |s| && (IsValid(s) <==> IsValid(s[i..]))
    {
      var c := s[i];
      Step(s, i);
      if c < 0x80 {
        i := i + 1;
      } else if c & 0xE0 == 0xC0 {
        if i + 1 >= |s| {
          return false;
        }
        if s[i + 1] & 0xC0 != 0x80 {
          return false;
        }
        i := i + 2;
      } else if c & 0xF0 == 0xE0 {
        if i + 2 >= |s| {
          return false;
        }
        if s[i + 1] & 0xC0 != 0x80 || s[i + 2] & 0xC0 != 0x80 {
          return false;
        }
        i := i + 3;
      } else if c & 0xF8 == 0xF0 {
        if i + 3 >= |s| {
          return false;
        }
        if s[i + 1] & 0xC0 != 0x80 || s[i + 2] & 0xC0 != 0x80 || s[i + 3] & 0xC0 != 0x80 {
          return false;
        }
        i := i + 4;
      } else {
        return false;
      }
    }
    return true;
  }

  lemma Step(s: seq<Byte>, i: nat)
    requires i < |s|
    ensures var n := Width(s[i]);
      IsValid(s[i..]) <==>
        && 0 < n <= |s| - i
        && (n > 1 ==> IsTail(s[i + 1]))
        && (n > 2 ==> IsTail(s[i + 2]))
        && (n > 3 ==> IsTail(s[i + 3]))
        && IsValid(s[i + n..])
  {
    var t, n := s[i..], Width(s[i]);
    if n <= |t| {
      CutTail(s, i, n);
    }
  }

  method EncodeForUTF8(s: seq<Byte>) returns (result: seq<Byte>)
    ensures result == Encode(s)
  {
    result := [];
    var i := 0;
    assert s[0..] == s && [] + Encode(s) == Encode(s);
    while i < |s|
      invariant i <= |s|
      invariant Exactly(result + Encode(s[i..])) == Exactly(Encode(s))
    {
      var c := s[i];
      var n := 0;
      if c < 0x80 {
        n := 1;
      } else if c & 0xE0 == 0xC0 {
        if i + 1 < |s| {
          n := 2;
        }
      } else if c & 0xF0 == 0xE0 {
        if i + 2 < |s| {
          n := 3;
        }
      } else if c & 0xF8 == 0xF0 {
        if i + 3 < |s| {
          n := 4;
        }
      }
      EncodeStep(s, i, n, result);
      result := result + s[i..i + n];
      i := i + (if n == 0 then 1 else n);
    }
    assert s[i..] == [] && result + [] == result;
  }

  /** One round of the loop: `n` bytes kept, or one skipped when `n` is 0. */
  lemma EncodeStep(s: seq<Byte>, i: nat, n: nat, before: seq<Byte>)
    requires i < |s| && n == if Width(s[i]) <= |s| - i then Width(s[i]) else 0
    ensures Exactly(before + Encode(s[i..])) ==
      Exactly(before + s[i..i + n] + Encode(s[i + (if n == 0 then 1 else n)..]))
  {
    EncodeFrom(s, i, n);
    if n == 0 {
      assert before + s[i..i] == before;
    } else {
      Regroup3(before, s[i..i + n], Encode(s[i + n..]));
    }
  }

  lemma EncodeFrom(s: seq<Byte>, i: nat, n: nat)
    requires i < |s| && n == if Width(s[i]) <= |s| - i then Width(s[i]) else 0
    ensures Exactly(Encode(s[i..])) ==
      Exactly(if n == 0 then Encode(s[i + 1..]) else s[i..i + n] + Encode(s[i + n..]))
  {
    if n == 0 {
      CutTail(s, i, 1);
    } else {
      CutTail(s, i, n);
    }
  }

  // ---- The filter and the validator ----

  /** The filter leaves valid text alone. */
  lemma {:induction false} ValidIsKept(s: seq<Byte>)
    requires IsValid(s)
    ensures Exactly(Encode(s)) == Exactly(s)
    decreases |s|
  {
    if s != [] {
      var n := Width(s[0]);
      ValidIsKept(s[n..]);
      Rejoin(s, n);
    }
  }

  lemma {:induction false} EncodeIsIdempotent(s: seq<Byte>)
    ensures Exactly(Encode(Encode(s))) == Exactly(Encode(s))
    decreases |s|
  {
    if s != [] {
      var n := Width(s[0]);
      if n == 0 || n > |s| {
        EncodeIsIdempotent(s[1..]);
      } else {
        EncodeIsIdempotent(s[n..]);
        var e := Encode(s);
        CutAppend(s[..n], Encode(s[n..]), n);
        assert e[0] == s[0];
      }
    }
  }

  /** `a` is `b` with bytes taken out. */
  predicate IsSubsequence(a: seq<Byte>, b: seq<Byte>) {
    || a == []
    || (b != [] && a[0] == b[0] && IsSubsequence(a[1..], b[1..]))
    || (b != [] && IsSubsequence(a, b[1..]))
  }

  lemma {:induction false} SubsequenceBehind(x: seq<Byte>, a: seq<Byte>, b: seq<Byte>)
    requires IsSubsequence(a, b)
    ensures IsSubsequence(x + a, x + b)
  {
    if x == [] {
      assert x + a == a && x + b == b;
    } else {
      SubsequenceBehind(x[1..], a, b);
      assert (x + a)[1..] == x[1..] + a && (x + b)[1..] == x[1..] + b;
    }
  }

  /** The filter only removes bytes. */
  lemma {:induction false} EncodeIsSubsequence(s: seq<Byte>)
    ensures IsSubsequence(Encode(s), s)
    decreases |s|
  {
    if s != [] {
      var n := Width(s[0]);
      if n == 0 || n > |s| {
        EncodeIsSubsequence(s[1..]);
      } else {
        EncodeIsSubsequence(s[n..]);
        SubsequenceBehind(s[..n], Encode(s[n..]), s[n..]);
        Rejoin(s, n);
      }
    }
  }

  /** The scan never meets a byte that cannot lead, nor a lead cut off by the end of the text. */
  predicate IsFramed(s: seq<Byte>) {
    s == [] || (0 < Width(s[0]) <= |s| && IsFramed(s[Width(s[0])..]))
  }

  /** Framed text, and no other, comes through whole; anything else loses bytes. */
  lemma {:induction false} KeptWholeIff(s: seq<Byte>)
    ensures |Encode(s)| <= |s|
    ensures |Encode(s)| == |s| <==> IsFramed(s)
    ensures Encode(s) == s <==> IsFramed(s)
    decreases |s|
  {
    if s != [] {
      var n := Width(s[0]);
      if n == 0 || n > |s| {
        KeptWholeIff(s[1..]);
      } else {
        KeptWholeIff(s[n..]);
        Rejoin(s, n);
      }
    }
  }

  /** Every sequence the filter keeps has the tail bytes its lead announces. */
  predicate IsIntact(s: seq<Byte>) {
    if s == [] then true
    else
      var n := Width(s[0]);
      if n == 0 || n > |s| then IsIntact(s[1..]) else StartsCharacter(s) && IsIntact(s[n..])
  }

  /** The filter does not look at tail bytes: what it returns is valid exactly when every sequence
      it keeps happens to be intact. */
  lemma {:induction false} FilteredIsValidIff(s: seq<Byte>)
    ensures IsValid(Encode(s)) <==> IsIntact(s)
    decreases |s|
  {
    if s != [] {
      var n := Width(s[0]);
      if n == 0 || n > |s| {
        FilteredIsValidIff(s[1..]);
      } else {
        FilteredIsValidIff(s[n..]);
        CutAppend(s[..n], Encode(s[n..]), n);
        SameStart(s, Encode(s), n);
      }
    }
  }

  lemma SameStart(s: seq<Byte>, t: seq<Byte>, n: nat)
    requires 0 < n <= |s| && n <= |t| && t[..n] == s[..n] && n == Width(s[0])
    ensures Width(t[0]) == n && (StartsCharacter(t) <==> StartsCharacter(s))
  {
    assert forall k :: 0 <= k < n ==> t[k] == t[..n][k] && s[k] == s[..n][k];
  }

  lemma FilteredMayBeInvalid()
    ensures !IsValid(Encode([0xC3, 0x41]))
  {
    var s: seq<Byte> := [0xC3, 0x41];
    assert !IsTail(s[1]);
    FilteredIsValidIff(s);
  }

  /** Behind valid text, validity is decided by what follows; so validity is closed under
      concatenation. */
  lemma {:induction false} ValidAppend(a: seq<Byte>, b: seq<Byte>)
    requires IsValid(a)
    ensures IsValid(a + b) <==> IsValid(b)
    decreases |a|
  {
    if a == [] {
      assert a + b == b;
    } else {
      var n := Width(a[0]);
      ValidAppend(a[n..], b);
      assert (a + b)[n..] == a[n..] + b;
    }
  }

  // ---- RFC 3629, section 4 ----

  predicate Tail(b: Byte) {
    0x80 <= b <= 0xBF
  }

  /** One character of the grammar. */
  predicate IsCharacter(u: seq<Byte>) {
    || (|u| == 1 && u[0] <= 0x7F)
    || (|u| == 2 && 0xC2 <= u[0] <= 0xDF && Tail(u[1]))
    || (|u| == 3 && Tail(u[2]) &&
        (|| (u[0] == 0xE0 && 0xA0 <= u[1] <= 0xBF)
         || (0xE1 <= u[0] <= 0xEC && Tail(u[1]))
         || (u[0] == 0xED && 0x80 <= u[1] <= 0x9F)
         || (0xEE <= u[0] <= 0xEF && Tail(u[1]))))
    || (|u| == 4 && Tail(u[2]) && Tail(u[3]) &&
        (|| (u[0] == 0xF0 && 0x90 <= u[1] <= 0xBF)
         || (0xF1 <= u[0] <= 0xF3 && Tail(u[1]))
         || (u[0] == 0xF4 && 0x80 <= u[1] <= 0x8F)))
  }

  /** A run of characters of the grammar. */
  predicate IsWellFormed(s: seq<Byte>)
    decreases |s|
  {
    s == [] || exists n :: 1 <= n <= |s| && IsCharacter(s[..n]) && IsWellFormed(s[n..])
  }

  /** Lead bytes, and pairs of a lead and a second byte, that the grammar shuts out: overlong
      forms, surrogates, and code points past U+10FFFF. */
  predicate IsForbidden(lead: Byte, second: Byte) {
    || lead == 0xC0 || lead == 0xC1 || 0xF5 <= lead <= 0xF7
    || (lead == 0xE0 && second < 0xA0)
    || (lead == 0xED && second > 0x9F)
    || (lead == 0xF0 && second < 0x90)
    || (lead == 0xF4 && second > 0x8F)
  }

  predicate HasForbiddenPair(s: seq<Byte>) {
    exists i :: 0 <= i < |s| - 1 && IsForbidden(s[i], s[i + 1])
  }

  lemma CharacterShape(u: seq<Byte>)
    ensures IsCharacter(u) <==>
      StartsCharacter(u) && Width(u[0]) == |u| && !(|u| > 1 && IsForbidden(u[0], u[1]))
  {
    if |u| > 1 {
      TailRange(u[1]);
      LeadRange(u[0]);
    }
    if |u| > 2 {
      TailRange(u[2]);
    }
    if |u| > 3 {
      TailRange(u[3]);
    }
  }

  lemma TailRange(b: Byte)
    ensures IsTail(b) <==> Tail(b)
  {
  }

  lemma LeadRange(b: Byte)
    ensures Width(b) == 1 <==> b <= 0x7F
    ensures Width(b) == 2 <==> 0xC0 <= b <= 0xDF
    ensures Width(b) == 3 <==> 0xE0 <= b <= 0xEF
    ensures Width(b) == 4 <==> 0xF0 <= b <= 0xF7
  {
  }

  /** The validator accepts everything the grammar does; what it accepts beyond it is exactly the
      text holding a forbidden lead or a forbidden pair. */
  lemma {:induction false} WellFormedIff(s: seq<Byte>)
    ensures IsWellFormed(s) <==> IsValid(s) && !HasForbiddenPair(s)
    decreases |s|
  {
    if s != [] {
      if IsWellFormed(s) {
        var n :| 1 <= n <= |s| && IsCharacter(s[..n]) && IsWellFormed(s[n..]);
        CharacterShape(s[..n]);
        WellFormedIff(s[n..]);
        PairsSplit(s, n);
      }
      if IsValid(s) && !HasForbiddenPair(s) {
        var n := Width(s[0]);
        WellFormedIff(s[n..]);
        PairsSplit(s, n);
        assert n > 1 ==> !IsForbidden(s[0], s[1]);
        CharacterShape(s[..n]);
      }
    }
  }

  lemma TailForbidsNothing(b: Byte, second: Byte)
    requires IsTail(b)
    ensures !IsForbidden(b, second)
  {
    TailRange(b);
  }

  lemma AsciiForbidsNothing(b: Byte, second: Byte)
    ensures Width(b) == 1 ==> !IsForbidden(b, second)
  {
    LeadRange(b);
  }

  lemma PairsSplit(s: seq<Byte>, n: nat)
    requires StartsCharacter(s) && n == Width(s[0])
    ensures HasForbiddenPair(s) <==> (n > 1 && IsForbidden(s[0], s[1])) || HasForbiddenPair(s[n..])
  {
    if HasForbiddenPair(s[n..]) {
      var i :| 0 <= i < |s[n..]| - 1 && IsForbidden(s[n..][i], s[n..][i + 1]);
      assert IsForbidden(s[n + i], s[n + i + 1]);
    }
    if HasForbiddenPair(s) {
      var i :| 0 <= i < |s| - 1 && IsForbidden(s[i], s[i + 1]);
      if i >= n {
        assert s[n..][i - n] == s[i] && s[n..][i - n + 1] == s[i + 1];
      } else if i > 0 {
        TailForbidsNothing(s[i], s[i + 1]);
      } else {
        AsciiForbidsNothing(s[0], s[1]);
      }
    }
  }

  /** An overlong NUL passes the validator. */
  lemma OverlongIsAccepted()
    ensures IsValid([0xC0, 0x80]) && !IsWellFormed([0xC0, 0x80])
  {
    var s: seq<Byte> := [0xC0, 0x80];
    assert Width(s[0]) == 2 && IsTail(s[1]) && s[2..] == [];
    assert IsForbidden(s[0], s[1]);
    WellFormedIff(s);
  }
}
