/** StringUtils::MatchesWildcard: greedy matching with restarts from the last star. */
module Wildcard {
  import opened Basics

  /** What a pattern means: `?` is any one character, `*` any run of characters. */
  predicate Glob(text: string, pattern: string)
    decreases |text| + |pattern|
  {
    if pattern == "" then text == ""
    else if pattern[0] == '*' then Glob(text, pattern[1..]) || (text != "" && Glob(text[1..], pattern))
    else text != "" && (pattern[0] == '?' || pattern[0] == text[0]) && Glob(text[1..], pattern[1..])
  }

  /** The loop from an intermediate state: `star` is the last star passed, `m` where the text
      restarts after it. */
  predicate Scan(text: string, pattern: string, s: nat, p: nat, star: Option<nat>, m: nat)
    requires m <= s <= |text| && p <= |pattern|
    requires star.Some? ==> star.value < p
    decreases |text| - m, |pattern| - p
  {
    if s == |text| then forall k :: p <= k < |pattern| ==> pattern[k] == '*'
    else if p < |pattern| && (pattern[p] == '?' || pattern[p] == text[s]) then
      Scan(text, pattern, s + 1, p + 1, star, m)
    else if p < |pattern| && pattern[p] == '*' then Scan(text, pattern, s, p + 1, Some(p), s)
    else if star.Some? then Scan(text, pattern, m + 1, star.value + 1, star, m + 1)
    else false
  }

  predicate Matches(text: string, pattern: string) {
    Scan(text, pattern, 0, 0, None, 0)
  }

  /** The loop computes Matches, in fewer than (n + 1) * (m + 1) rounds for n characters of text
      and m of pattern: the restart position never goes back and the star only moves right. */
  method MatchesWildcard(text: string, pattern: string) returns (matches: bool, ghost rounds: nat)
    ensures matches == Matches(text, pattern)
    ensures rounds < (|text| + 1) * (|pattern| + 1)
  {
    var s: nat, p: nat := 0, 0;
    var star: Option<nat> := None;
    var m: nat := 0;
    rounds := 0;
    while s < |text|
      invariant m <= s <= |text| && p <= |pattern|
      invariant star.Some? ==> star.value < p
      invariant Matches(text, pattern) == Scan(text, pattern, s, p, star, m)
      invariant rounds <= m * (|pattern| + 1) + p
      decreases |text| - m, |pattern| - p
    {
      ghost var width := |pattern| + 1;
      if p < |pattern| && (pattern[p] == '?' || pattern[p] == text[s]) {
        s, p := s + 1, p + 1;
      } else if p < |pattern| && pattern[p] == '*' {
        MulLeq(m, s, width);
        star, m := Some(p), s;
        p := p + 1;
      } else if star.Some? {
        assert (m + 1) * width == m * width + width;
        p := star.value + 1;
        m := m + 1;
        s := m;
      } else {
        MulLeq(m, |text|, width);
        assert (|text| + 1) * width == |text| * width + width;
        return false, rounds;
      }
      rounds := rounds + 1;
    }
    MulLeq(m, |text|, |pattern| + 1);
    assert (|text| + 1) * (|pattern| + 1) == |text| * (|pattern| + 1) + |pattern| + 1;
    while p < |pattern| && pattern[p] == '*'
      invariant p <= |pattern|
      invariant Matches(text, pattern) == forall k :: p <= k < |pattern| ==> pattern[k] == '*'
    {
      p := p + 1;
    }
    return p == |pattern|, rounds;
  }

  lemma MulLeq(a: nat, b: nat, c: nat)
    requires a <= b
    ensures a * c <= b * c
  {
  }

  lemma {:induction false} StarSkips(text: string, j: nat, rest: string)
    requires j <= |text| && Glob(text[j..], rest)
    ensures Glob(text, "*" + rest)
    decreases j
  {
    assert ("*" + rest)[1..] == rest;
    if j == 0 {
      assert text[0..] == text;
    } else {
      assert text[1..][j - 1..] == text[j..];
      StarSkips(text[1..], j - 1, rest);
    }
  }

  lemma {:induction false} StarSplits(text: string, rest: string) returns (j: nat)
    requires Glob(text, "*" + rest)
    ensures j <= |text| && Glob(text[j..], rest)
    decreases |text|
  {
    assert ("*" + rest)[1..] == rest;
    if Glob(text, rest) {
      j := 0;
      assert text[0..] == text;
    } else {
      var i := StarSplits(text[1..], rest);
      j := i + 1;
      assert text[1..][i..] == text[j..];
    }
  }

  lemma {:induction false} AllStarsMatchEmpty(pattern: string)
    ensures Glob("", pattern) <==> forall k :: 0 <= k < |pattern| ==> pattern[k] == '*'
    decreases |pattern|
  {
    if pattern != "" {
      AllStarsMatchEmpty(pattern[1..]);
      assert forall k :: 1 <= k < |pattern| ==> pattern[k] == pattern[1..][k - 1];
    }
  }

  lemma {:induction false} LiteralsConsume(text: string, literals: string, rest: string)
    requires '*' !in literals && Glob(text, literals + rest)
    ensures |literals| <= |text| && Glob(text[|literals|..], rest)
    decreases |literals|
  {
    if literals == "" {
      assert literals + rest == rest;
      assert text[0..] == text;
    } else {
      assert (literals + rest)[1..] == literals[1..] + rest;
      LiteralsConsume(text[1..], literals[1..], rest);
      assert text[1..][|literals| - 1..] == text[|literals|..];
    }
  }

  /** Whatever the scan still accepts would make the whole text match. */
  ghost predicate SoundAt(text: string, pattern: string, s: nat, p: nat, star: Option<nat>, m: nat)
    requires m <= s <= |text| && p <= |pattern|
    requires star.Some? ==> star.value < p
  {
    && (Glob(text[s..], pattern[p..]) ==> Glob(text, pattern))
    && (star.Some? ==>
          forall j :: m <= j <= |text| && Glob(text[j..], pattern[star.value + 1..]) ==> Glob(text, pattern))
  }

  lemma {:induction false} ScanSound(text: string, pattern: string, s: nat, p: nat, star: Option<nat>, m: nat)
    requires m <= s <= |text| && p <= |pattern|
    requires star.Some? ==> star.value < p
    requires SoundAt(text, pattern, s, p, star, m)
    ensures Scan(text, pattern, s, p, star, m) ==> Glob(text, pattern)
    decreases |text| - m, |pattern| - p
  {
    if s == |text| {
      AllStarsMatchEmpty(pattern[p..]);
      assert text[s..] == "";
    } else if p < |pattern| && (pattern[p] == '?' || pattern[p] == text[s]) {
      if pattern[p] == '*' && Glob(text[s + 1..], pattern[p + 1..]) {
        assert text[s..][1..] == text[s + 1..];
        StarSkips(text[s..], 1, pattern[p + 1..]);
        assert pattern[p..] == "*" + pattern[p + 1..];
      }
      ScanSound(text, pattern, s + 1, p + 1, star, m);
    } else if p < |pattern| && pattern[p] == '*' {
      forall j | s <= j <= |text| && Glob(text[j..], pattern[p + 1..]) ensures Glob(text, pattern) {
        assert text[s..][j - s..] == text[j..];
        StarSkips(text[s..], j - s, pattern[p + 1..]);
        assert pattern[p..] == "*" + pattern[p + 1..];
      }
      ScanSound(text, pattern, s, p + 1, Some(p), s);
    } else if star.Some? {
      ScanSound(text, pattern, m + 1, star.value + 1, star, m + 1);
    }
  }

  /** Every match of the whole text is still reachable: from here, or from a later restart after
      the last star.  Between that star and `p` the pattern is literal and covers text[m..s]. */
  ghost predicate CompleteAt(text: string, pattern: string, s: nat, p: nat, star: Option<nat>, m: nat)
    requires m <= s <= |text| && p <= |pattern|
    requires star.Some? ==> star.value < p
  {
    && (star.Some? ==> p - (star.value + 1) == s - m && '*' !in pattern[star.value + 1..p])
    && (Glob(text, pattern) ==>
          || Glob(text[s..], pattern[p..])
          || (star.Some? && exists j :: m < j <= |text| && Glob(text[j..], pattern[star.value + 1..])))
  }

  lemma {:induction false} ScanComplete(text: string, pattern: string, s: nat, p: nat, star: Option<nat>, m: nat)
    requires m <= s <= |text| && p <= |pattern| && '*' !in text
    requires star.Some? ==> star.value < p
    requires CompleteAt(text, pattern, s, p, star, m)
    ensures Glob(text, pattern) ==> Scan(text, pattern, s, p, star, m)
    decreases |text| - m, |pattern| - p
  {
    if !Glob(text, pattern) {
    } else if s == |text| {
      CompleteAtEnd(text, pattern, p, star, m);
    } else if p < |pattern| && (pattern[p] == '?' || pattern[p] == text[s]) {
      CompleteAfterMatch(text, pattern, s, p, star, m);
      ScanComplete(text, pattern, s + 1, p + 1, star, m);
    } else if p < |pattern| && pattern[p] == '*' {
      CompleteAfterStar(text, pattern, s, p, star, m);
      ScanComplete(text, pattern, s, p + 1, Some(p), s);
    } else if star.Some? {
      CompleteAfterRestart(text, pattern, s, p, star.value, m);
      ScanComplete(text, pattern, m + 1, star.value + 1, star, m + 1);
    }
  }

  lemma CompleteAtEnd(text: string, pattern: string, p: nat, star: Option<nat>, m: nat)
    requires m <= |text| && p <= |pattern|
    requires star.Some? ==> star.value < p
    requires CompleteAt(text, pattern, |text|, p, star, m) && Glob(text, pattern)
    ensures forall k :: p <= k < |pattern| ==> pattern[k] == '*'
  {
    if star.Some? {
      forall j | m < j <= |text| ensures !Glob(text[j..], pattern[star.value + 1..]) {
        LateRestart(text, pattern, |text|, p, star.value, m, j);
      }
    }
    AllStarsMatchEmpty(pattern[p..]);
    assert text[|text|..] == "";
    assert forall k :: p <= k < |pattern| ==> pattern[k] == pattern[p..][k - p];
  }

  lemma CompleteAfterMatch(text: string, pattern: string, s: nat, p: nat, star: Option<nat>, m: nat)
    requires m <= s < |text| && p < |pattern| && '*' !in text
    requires star.Some? ==> star.value < p
    requires pattern[p] == '?' || pattern[p] == text[s]
    requires CompleteAt(text, pattern, s, p, star, m)
    ensures CompleteAt(text, pattern, s + 1, p + 1, star, m)
  {
    assert text[s] in text;
    if star.Some? {
      assert pattern[star.value + 1..p + 1] == pattern[star.value + 1..p] + [pattern[p]];
    }
    if Glob(text[s..], pattern[p..]) {
      assert text[s..][1..] == text[s + 1..] && pattern[p..][1..] == pattern[p + 1..];
    }
  }

  lemma CompleteAfterStar(text: string, pattern: string, s: nat, p: nat, star: Option<nat>, m: nat)
    requires m <= s < |text| && p < |pattern| && pattern[p] == '*'
    requires star.Some? ==> star.value < p
    requires CompleteAt(text, pattern, s, p, star, m) && Glob(text, pattern)
    ensures CompleteAt(text, pattern, s, p + 1, Some(p), s)
  {
    var j := NextStar(text, pattern, s, p, star, m);
    assert j > s || text[s..] == text[j..];
  }

  lemma CompleteAfterRestart(text: string, pattern: string, s: nat, p: nat, star: nat, m: nat)
    requires m <= s < |text| && star < p <= |pattern|
    requires p < |pattern| ==> pattern[p] != '?' && pattern[p] != text[s] && pattern[p] != '*'
    requires CompleteAt(text, pattern, s, p, Some(star), m)
    ensures CompleteAt(text, pattern, m + 1, star + 1, Some(star), m + 1)
  {
    assert !Glob(text[s..], pattern[p..]);
    if Glob(text, pattern) {
      var j :| m < j <= |text| && Glob(text[j..], pattern[star + 1..]);
      assert j > m + 1 || text[j..] == text[m + 1..];
    }
  }

  /** A restart later than `m` reaches the literal part's end later than `s`. */
  lemma LateRestart(text: string, pattern: string, s: nat, p: nat, star: nat, m: nat, j: nat)
    requires m < j <= |text| && m <= s <= |text| && star < p <= |pattern|
    requires p - (star + 1) == s - m && '*' !in pattern[star + 1..p]
    ensures Glob(text[j..], pattern[star + 1..]) ==>
      j + (s - m) <= |text| && Glob(text[j + (s - m)..], pattern[p..])
  {
    if Glob(text[j..], pattern[star + 1..]) {
      assert pattern[star + 1..] == pattern[star + 1..p] + pattern[p..];
      LiteralsConsume(text[j..], pattern[star + 1..p], pattern[p..]);
      assert text[j..][s - m..] == text[j + (s - m)..];
    }
  }

  /** Greedy choice at a new star: forgetting the previous star loses no match. */
  lemma NextStar(text: string, pattern: string, s: nat, p: nat, star: Option<nat>, m: nat) returns (j: nat)
    requires m <= s <= |text| && p < |pattern| && pattern[p] == '*'
    requires star.Some? ==> star.value < p
    requires CompleteAt(text, pattern, s, p, star, m) && Glob(text, pattern)
    ensures s <= j <= |text| && Glob(text[j..], pattern[p + 1..])
  {
    assert pattern[p..] == "*" + pattern[p + 1..];
    var i := s;
    if !Glob(text[s..], pattern[p..]) {
      var k :| m < k <= |text| && Glob(text[k..], pattern[star.value + 1..]);
      LateRestart(text, pattern, s, p, star.value, m, k);
      i := k + (s - m);
    }
    var l := StarSplits(text[i..], pattern[p + 1..]);
    j := i + l;
    assert text[i..][l..] == text[j..];
  }

  /** A match reported is a match, for every text and pattern. */
  lemma MatchesIsSound(text: string, pattern: string)
    ensures Matches(text, pattern) ==> Glob(text, pattern)
  {
    assert text[0..] == text && pattern[0..] == pattern;
    ScanSound(text, pattern, 0, 0, None, 0);
  }

  /** Restarting from the last star alone misses nothing in a text without stars. */
  lemma MatchesIsComplete(text: string, pattern: string)
    requires '*' !in text
    ensures Glob(text, pattern) ==> Matches(text, pattern)
  {
    assert text[0..] == text && pattern[0..] == pattern;
    ScanComplete(text, pattern, 0, 0, None, 0);
  }

  function Repeat(c: char, n: nat): (r: string)
    ensures |r| == n && forall k :: 0 <= k < n ==> r[k] == c
  {
    seq(n, _ => c)
  }

  lemma {:induction false} QuestionsMatch(text: string)
    ensures Glob(text, Repeat('?', |text|))
    decreases |text|
  {
    if text != "" {
      QuestionsMatch(text[1..]);
      assert Repeat('?', |text|)[1..] == Repeat('?', |text| - 1);
    }
  }

  /** The pattern `?...?*?...?` that a text with its first star at `i` matches but the scan
      rejects: the star of the pattern is taken for the star of the text. */
  function Missed(text: string, i: nat): string
    requires i < |text|
  {
    Repeat('?', i) + "*" + Repeat('?', |text| - i)
  }

  lemma {:induction false} MissedMatches(text: string, i: nat)
    requires i < |text|
    ensures Glob(text, Missed(text, i))
    decreases i
  {
    if i == 0 {
      QuestionsMatch(text);
      assert text[0..] == text;
      StarSkips(text, 0, Repeat('?', |text|));
      assert Missed(text, 0) == "*" + Repeat('?', |text|);
    } else {
      MissedMatches(text[1..], i - 1);
      assert Missed(text, i)[1..] == Missed(text[1..], i - 1);
    }
  }

  lemma {:induction false} MissedIsRejected(text: string, i: nat, s: nat)
    requires s <= |text| && i < |text| && text[i] == '*'
    ensures !Scan(text, Missed(text, i), s, s, None, 0)
    decreases |text| - s
  {
    if s == |text| {
      assert Missed(text, i)[|text|] == '?';
    } else {
      assert s == i || Missed(text, i)[s] == '?';
      MissedIsRejected(text, i, s + 1);
    }
  }

  /** MatchesWildcard decides every pattern correctly on exactly the texts that hold no star. */
  lemma MatchesGlobIff(text: string)
    ensures (forall pattern :: Matches(text, pattern) == Glob(text, pattern)) <==> '*' !in text
  {
    if '*' in text {
      var i :| 0 <= i < |text| && text[i] == '*';
      MissedMatches(text, i);
      MissedIsRejected(text, i, 0);
      assert Matches(text, Missed(text, i)) != Glob(text, Missed(text, i));
    } else {
      forall pattern ensures Matches(text, pattern) == Glob(text, pattern) {
        MatchesIsSound(text, pattern);
        MatchesIsComplete(text, pattern);
      }
    }
  }
}
