/** The value of a std::optional, and sequence bookkeeping. */
module Basics {
  datatype Option<+T> = None | Some(value: T) {

    predicate IsFailure() {
      None?
    }

    function PropagateFailure<U>(): Option<U>
      requires None?
    {
      None
    }

    function Extract(): T
      requires Some?
    {
      value
    }
  }

  /** A value compared as a whole: `Exactly(a) == Exactly(b)` means `a == b`, but the verifier
      does not go through the elements of `a` and `b` to see it. */
  datatype Exactly<+T> = Exactly(value: T)

  // Regrouping and cutting sequences.

  lemma Regroup3<T>(a: seq<T>, b: seq<T>, c: seq<T>)
    ensures Exactly(a + (b + c)) == Exactly(a + b + c)
  {
    assert a + (b + c) == a + b + c;
  }

  lemma Regroup4<T>(a: seq<T>, b: seq<T>, c: seq<T>, d: seq<T>)
    ensures Exactly(a + (b + c + d)) == Exactly(a + b + c + d)
    ensures Exactly(a + (b + (c + d))) == Exactly(a + b + c + d)
  {
    assert a + (b + c + d) == a + b + c + d;
    assert a + (b + (c + d)) == a + b + c + d;
  }

  /** Cutting `s[start..]` at `i`. */
  lemma CutTail<T>(s: seq<T>, start: nat, i: nat)
    requires start + i <= |s|
    ensures Exactly(s[start..][..i]) == Exactly(s[start..start + i])
    ensures Exactly(s[start..][i..]) == Exactly(s[start + i..])
    ensures Exactly(s[..start] + s[start..start + i]) == Exactly(s[..start + i])
  {
    assert s[start..][..i] == s[start..start + i];
    assert s[start..][i..] == s[start + i..];
    assert s[..start] + s[start..start + i] == s[..start + i];
  }

  lemma Rejoin<T>(s: seq<T>, i: nat)
    requires i <= |s|
    ensures Exactly(s[..i] + s[i..]) == Exactly(s)
  {
    assert s[..i] + s[i..] == s;
  }

  lemma CutAppend<T>(a: seq<T>, b: seq<T>, n: nat)
    requires n == |a|
    ensures Exactly((a + b)[..n]) == Exactly(a) && Exactly((a + b)[n..]) == Exactly(b)
  {
    assert (a + b)[..n] == a && (a + b)[n..] == b;
  }
}
