/** GTIDSet: one greatest sequence number per domain. */
module GtidSets {
  import opened Basics
  import opened Text
  import opened Numbers
  import opened Coordinates

  datatype Gtid = Gtid(domain: string, sequence: nat) {

    predicate IsValid() {
      domain != "" && sequence > 0
    }

    function ToString(): string {
      domain + ":" + Decimal(sequence)
    }
  }

  // ---- Adding and asking ----

  function AddTo(gtids: seq<Gtid>, g: Gtid): seq<Gtid> {
    if !g.IsValid() then gtids
    else if gtids == [] then [g]
    else if gtids[0].domain == g.domain then
      [if gtids[0].sequence < g.sequence then g else gtids[0]] + gtids[1..]
    else [gtids[0]] + AddTo(gtids[1..], g)
  }

  /** The set after adding `gs` from left to right. */
  function AddAll(gtids: seq<Gtid>, gs: seq<Gtid>): seq<Gtid> {
    if gs == [] then gtids else AddTo(AddAll(gtids, gs[..|gs| - 1]), gs[|gs| - 1])
  }

  predicate Covers(gtids: seq<Gtid>, g: Gtid) {
    exists i :: 0 <= i < |gtids| && gtids[i].domain == g.domain && gtids[i].sequence >= g.sequence
  }

  /** One entry per domain, every entry valid. */
  predicate IsIndex(gtids: seq<Gtid>) {
    && (forall i :: 0 <= i < |gtids| ==> gtids[i].IsValid())
    && (forall i, j :: 0 <= i < j < |gtids| ==> gtids[i].domain != gtids[j].domain)
  }

  /** Adding keeps every domain in its place; only a domain not yet there is appended. */
  lemma {:induction false} AddToShape(gtids: seq<Gtid>, g: Gtid)
    requires g.IsValid()
    ensures var r := AddTo(gtids, g);
      && |gtids| <= |r| <= |gtids| + 1
      && (forall i :: 0 <= i < |gtids| ==> r[i].domain == gtids[i].domain && (r[i] == gtids[i] || r[i] == g))
      && (|r| > |gtids| ==> r[|gtids|] == g && forall i :: 0 <= i < |gtids| ==> gtids[i].domain != g.domain)
  {
    if gtids != [] && gtids[0].domain != g.domain {
      AddToShape(gtids[1..], g);
      var r, rest := AddTo(gtids, g), AddTo(gtids[1..], g);
      forall i | 0 < i < |gtids|
        ensures r[i].domain == gtids[i].domain && (r[i] == gtids[i] || r[i] == g)
        ensures |r| > |gtids| ==> gtids[i].domain != g.domain
      {
        assert gtids[1..][i - 1] == gtids[i] && r[i] == rest[i - 1];
      }
    }
  }

  lemma AddToKeepsIndex(gtids: seq<Gtid>, g: Gtid)
    requires IsIndex(gtids)
    ensures IsIndex(AddTo(gtids, g))
    ensures forall i :: 0 <= i < |AddTo(gtids, g)| ==>
      AddTo(gtids, g)[i] in gtids || (AddTo(gtids, g)[i] == g && g.IsValid())
  {
    if g.IsValid() {
      AddToShape(gtids, g);
    }
  }

  lemma {:induction false} AddToCovers(gtids: seq<Gtid>, g: Gtid, q: Gtid)
    requires IsIndex(gtids)
    ensures Covers(AddTo(gtids, g), q) <==>
      Covers(gtids, q) || (g.IsValid() && g.domain == q.domain && g.sequence >= q.sequence)
  {
    if g.IsValid() {
      if gtids == [] {
        assert [g][0] == g;
      } else {
        var r := AddTo(gtids, g);
        CoversCons(gtids, q);
        CoversCons(r, q);
        if gtids[0].domain != g.domain {
          AddToCovers(gtids[1..], g, q);
          assert r[1..] == AddTo(gtids[1..], g);
        } else {
          assert r[1..] == gtids[1..];
        }
      }
    }
  }

  lemma CoversCons(gtids: seq<Gtid>, q: Gtid)
    requires gtids != []
    ensures Covers(gtids, q) <==>
      (gtids[0].domain == q.domain && gtids[0].sequence >= q.sequence) || Covers(gtids[1..], q)
  {
    if Covers(gtids[1..], q) {
      var i :| 0 <= i < |gtids[1..]| && gtids[1..][i].domain == q.domain && gtids[1..][i].sequence >= q.sequence;
      assert gtids[i + 1] == gtids[1..][i];
    }
    if Covers(gtids, q) {
      var i :| 0 <= i < |gtids| && gtids[i].domain == q.domain && gtids[i].sequence >= q.sequence;
      assert i > 0 ==> gtids[1..][i - 1] == gtids[i];
    }
  }

  /** Whatever was added, in whatever order, the set has one entry per domain and contains (d, n)
      exactly when some valid (d, m) with m >= n was added. */
  lemma {:induction false} AddAllMeaning(gs: seq<Gtid>, q: Gtid)
    ensures IsIndex(AddAll([], gs))
    ensures Covers(AddAll([], gs), q) <==>
      exists i :: 0 <= i < |gs| && gs[i].IsValid() && gs[i].domain == q.domain && gs[i].sequence >= q.sequence
    decreases |gs|
  {
    if gs != [] {
      var front, last := gs[..|gs| - 1], gs[|gs| - 1];
      AddAllMeaning(front, q);
      AddToKeepsIndex(AddAll([], front), last);
      AddToCovers(AddAll([], front), last, q);
      assert forall i :: 0 <= i < |front| ==> front[i] == gs[i];
    }
  }

  lemma {:induction false} AddToFresh(gtids: seq<Gtid>, g: Gtid)
    requires g.IsValid() && forall i :: 0 <= i < |gtids| ==> gtids[i].domain != g.domain
    ensures Exactly(AddTo(gtids, g)) == Exactly(gtids + [g])
  {
    if gtids == [] {
      assert [] + [g] == [g];
    } else {
      AddToFresh(gtids[1..], g);
      assert gtids + [g] == [gtids[0]] + (gtids[1..] + [g]);
    }
  }

  lemma {:induction false} AddToFound(gtids: seq<Gtid>, g: Gtid, i: nat)
    requires g.IsValid() && i < |gtids| && gtids[i].domain == g.domain
    requires forall k :: 0 <= k < i ==> gtids[k].domain != g.domain
    ensures Exactly(AddTo(gtids, g)) == Exactly(if gtids[i].sequence < g.sequence then gtids[i := g] else gtids)
  {
    var r := if gtids[i].sequence < g.sequence then gtids[i := g] else gtids;
    if i > 0 {
      AddToFound(gtids[1..], g, i - 1);
      assert r[1..] == if gtids[i].sequence < g.sequence then gtids[1..][i - 1 := g] else gtids[1..];
    } else {
      assert r[1..] == gtids[1..];
    }
    assert r == [r[0]] + r[1..];
  }

  class GtidSet {
    var gtids: seq<Gtid>

    constructor ()
      ensures gtids == []
    {
      gtids := [];
    }

    method Add(g: Gtid)
      modifies this
      ensures gtids == AddTo(old(gtids), g)
    {
      if !g.IsValid() {
        return;
      }
      for i := 0 to |gtids|
        invariant gtids == old(gtids)
        invariant forall k :: 0 <= k < i ==> gtids[k].domain != g.domain
      {
        if gtids[i].domain == g.domain {
          AddToFound(gtids, g, i);
          if gtids[i].sequence < g.sequence {
            gtids := gtids[i := g];
          }
          return;
        }
      }
      AddToFresh(gtids, g);
      gtids := gtids + [g];
    }

    method Contains(g: Gtid) returns (r: bool)
      ensures r <==> Covers(gtids, g)
    {
      for i := 0 to |gtids|
        invariant forall k :: 0 <= k < i ==> !(gtids[k].domain == g.domain && gtids[k].sequence >= g.sequence)
      {
        if gtids[i].domain == g.domain && gtids[i].sequence >= g.sequence {
          return true;
        }
      }
      return false;
    }

    method ToString() returns (text: string)
      ensures text == Join(Texts(gtids), ",")
    {
      if gtids == [] {
        return "";
      }
      text := "";
      ghost var texts := Texts(gtids);
      for i := 0 to |gtids|
        invariant text == Join(texts[..i], ",") + (if 0 < i < |gtids| then "," else "")
      {
        if i > 0 {
          JoinAppend(texts[..i], texts[i], ",");
        }
        assert texts[..i + 1] == texts[..i] + [texts[i]];
        text := text + gtids[i].ToString();
        if i < |gtids| - 1 {
          text := text + ",";
        }
      }
      assert texts[..|gtids|] == texts;
    }

    /** Adds every entry the comma-separated parts parse to. */
    method Parse(text: string)
      modifies this
      ensures gtids == ParseInto(old(gtids), text)
    {
      var parts := SplitTextAt(text, ',');
      assert parts[0..] == parts;
      for i := 0 to |parts|
        invariant AddParts(gtids, parts[i..]) == AddParts(old(gtids), parts)
      {
        assert parts[i..][1..] == parts[i + 1..];
        var g := ParseGtidText(Trim(parts[i]));
        if g.Some? {
          Add(g.value);
        }
      }
    }
  }

  function Texts(gtids: seq<Gtid>): (r: seq<string>)
    ensures |r| == |gtids| && forall i :: 0 <= i < |r| ==> r[i] == gtids[i].ToString()
  {
    seq(|gtids|, i requires 0 <= i < |gtids| => gtids[i].ToString())
  }

  // ---- Parsing ----

  ghost function ParseGtid(text: string): Option<Gtid> {
    match Find(text, ":")
    case None => None
    case Some(colon) =>
      match ParseUInt64(text[colon + 1..])
      case None => None
      case Some(n) => Some(Gtid(text[..colon], n))
  }

  method ParseGtidText(text: string) returns (r: Option<Gtid>)
    ensures r == ParseGtid(text)
  {
    var colon := FindText(text, ":", 0);
    if colon.None? {
      return None;
    }
    var n := ParseUInt64(text[colon.value + 1..]);
    if n.None? {
      return None;
    }
    return Some(Gtid(text[..colon.value], n.value));
  }

  ghost function AddParts(gtids: seq<Gtid>, parts: seq<string>): seq<Gtid>
    decreases |parts|
  {
    if parts == [] then gtids
    else
      match ParseGtid(Trim(parts[0]))
      case None => AddParts(gtids, parts[1..])
      case Some(g) => AddParts(AddTo(gtids, g), parts[1..])
  }

  /** GTIDSet::Parse into `gtids`. */
  ghost function ParseInto(gtids: seq<Gtid>, text: string): seq<Gtid> {
    AddParts(gtids, SplitAt(text, ','))
  }

  // ---- Round trip ----

  /** A domain the text form can carry. */
  predicate IsPlain(domain: string) {
    domain != "" && ',' !in domain && ':' !in domain && !IsSpace(domain[0])
  }

  lemma FirstColon(domain: string, text: string)
    requires ':' !in domain && |domain| < |text| && text[..|domain|] == domain && text[|domain|] == ':'
    ensures Find(text, ":") == Some(|domain|)
  {
    FindChar(text, ':');
  }

  lemma PlainGtidParses(g: Gtid)
    requires g.IsValid() && IsPlain(g.domain) && g.sequence < WORD
    ensures ParseGtid(Trim(g.ToString())) == Some(g)
  {
    var text, digits := g.ToString(), Decimal(g.sequence);
    assert text[|text| - 1] == digits[|digits| - 1];
    TrimIsTrimmed(text);
    FindChar(text, ':');
    assert text[|g.domain|] == ':' && text[..|g.domain|] == g.domain && text[|g.domain| + 1..] == digits;
    FirstColon(g.domain, text);
    DecimalRoundTrip(g.sequence);
  }

  lemma {:induction false} PlainTextsParse(gtids: seq<Gtid>, n: nat)
    requires n <= |gtids| && IsIndex(gtids)
    requires forall i :: 0 <= i < |gtids| ==> IsPlain(gtids[i].domain) && gtids[i].sequence < WORD
    ensures Exactly(AddParts(gtids[..n], Texts(gtids)[n..])) == Exactly(gtids)
    decreases |gtids| - n
  {
    var parts := Texts(gtids)[n..];
    if n == |gtids| {
      assert gtids[..n] == gtids && parts == [];
    } else {
      PlainGtidParses(gtids[n]);
      AddToFresh(gtids[..n], gtids[n]);
      assert gtids[..n] + [gtids[n]] == gtids[..n + 1] && parts[1..] == Texts(gtids)[n + 1..];
      PlainTextsParse(gtids, n + 1);
    }
  }

  lemma SplitOfTexts(gtids: seq<Gtid>)
    requires gtids != [] && forall i :: 0 <= i < |gtids| ==> ',' !in gtids[i].domain
    ensures SplitAt(Join(Texts(gtids), ","), ',') == Texts(gtids)
  {
    var texts := Texts(gtids);
    forall i | 0 <= i < |texts|
      ensures texts[i] != "" && ',' !in texts[i]
      ensures Find(texts[i], ",").None? && Find(texts[i] + ",", ",") == Some(|texts[i]|)
    {
      assert ',' !in Decimal(gtids[i].sequence);
      FindChar(texts[i], ',');
      FindChar(texts[i] + ",", ',');
      assert (texts[i] + ",")[|texts[i]|] == ',';
    }
    SplitIsUnique(texts, Join(texts, ","), ",");
  }

  lemma {:induction false} PartsLackComma(text: string, i: nat)
    requires i < |Split(text, ",")|
    ensures ',' !in Split(text, ",")[i]
    decreases |text|
  {
    FindChar(text, ',');
    if i > 0 {
      PartsLackComma(text[Find(text, ",").value + 1..], i - 1);
    }
  }

  lemma ParsedIsPlain(part: string)
    requires ',' !in part && ParseGtid(Trim(part)).Some? && ParseGtid(Trim(part)).value.IsValid()
    ensures IsPlain(ParseGtid(Trim(part)).value.domain)
  {
    var text := Trim(part);
    FindChar(text, ':');
    TrimIsTrimmed(part);
    TrimIsPart(part);
  }

  lemma {:induction false} TrimLeftIsPart(s: string)
    ensures forall c :: c in TrimLeft(s) ==> c in s
  {
    if s != "" && IsSpace(s[0]) {
      TrimLeftIsPart(s[1..]);
    }
  }

  lemma TrimIsPart(s: string)
    ensures forall c :: c in Trim(s) ==> c in s
  {
    TrimLeftIsPart(s);
    var r := Trim(s);
    assert r <= TrimLeft(s);
    forall c | c in r ensures c in s {
      var i :| 0 <= i < |r| && r[i] == c;
      assert TrimLeft(s)[i] == c;
    }
  }

  lemma {:induction false} AddPartsIsPlain(gtids: seq<Gtid>, parts: seq<string>)
    requires IsIndex(gtids) && forall i :: 0 <= i < |gtids| ==> IsPlain(gtids[i].domain)
    requires forall i :: 0 <= i < |parts| ==> ',' !in parts[i]
    ensures var r := AddParts(gtids, parts);
      IsIndex(r) && forall i :: 0 <= i < |r| ==> IsPlain(r[i].domain)
    decreases |parts|
  {
    if parts != [] {
      var g := ParseGtid(Trim(parts[0]));
      if g.Some? {
        var next := AddTo(gtids, g.value);
        AddToKeepsIndex(gtids, g.value);
        if g.value.IsValid() {
          ParsedIsPlain(parts[0]);
        }
        AddPartsIsPlain(next, parts[1..]);
      } else {
        AddPartsIsPlain(gtids, parts[1..]);
      }
    }
  }

  /** Parsing the text form into an empty set restores the set exactly when every domain is free
      of ',' and ':' and does not start with white space; white space at its end does no harm. */
  lemma GtidSetRoundTripIff(gtids: seq<Gtid>)
    requires IsIndex(gtids) && forall i :: 0 <= i < |gtids| ==> gtids[i].sequence < WORD
    ensures ParseInto([], Join(Texts(gtids), ",")) == gtids <==>
      forall i :: 0 <= i < |gtids| ==> IsPlain(gtids[i].domain)
  {
    var text := Join(Texts(gtids), ",");
    if forall i :: 0 <= i < |gtids| ==> IsPlain(gtids[i].domain) {
      if gtids == [] {
        FindChar("", ',');
        assert SplitAt("", ',') == [];
      } else {
        SplitOfTexts(gtids);
        assert gtids[..0] == [] && Texts(gtids)[0..] == Texts(gtids);
        PlainTextsParse(gtids, 0);
      }
    }
    var parts := SplitAt(text, ',');
    forall i | 0 <= i < |parts| ensures ',' !in parts[i] {
      PartsLackComma(text, i);
    }
    AddPartsIsPlain([], parts);
  }

  /** A domain with a comma is written but not parsed back. */
  lemma CommaDomainIsLost()
    ensures ParseInto([], Join(Texts([Gtid("a,b", 4)]), ",")) != [Gtid("a,b", 4)]
  {
    var gtids := [Gtid("a,b", 4)];
    assert gtids[0].domain[1] == ',' && !IsPlain(gtids[0].domain);
    GtidSetRoundTripIff(gtids);
  }

  /** A text is read at its first colon: the domain in front of it, and all that follows must be
      one number. */
  lemma ParseAtFirstColon(domain: string, rest: string)
    requires ':' !in domain
    ensures ParseGtid(domain + ":" + rest) ==
      match ParseUInt64(rest)
      case None => None
      case Some(n) => Some(Gtid(domain, n))
    ensures ParseGtid(domain).None?
  {
    var text := domain + ":" + rest;
    FirstColon(domain, text);
    assert text[..|domain|] == domain && text[|domain| + 1..] == rest;
    FindChar(domain, ':');
  }

  /** An interval is skipped. */
  lemma IntervalIsSkipped(domain: string)
    requires ':' !in domain
    ensures ParseGtid(domain + ":" + "1-5").None?
  {
    ParseAtFirstColon(domain, "1-5");
    RangeIsRefused();
  }
}
