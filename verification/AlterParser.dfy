/** AlterTableParser: splitting the operations of an ALTER TABLE, and printing them again. */
module AlterParser {
  import opened Basics
  import opened Text

  datatype OperationType =
    | AddColumn | DropColumn | ModifyColumn | ChangeColumn
    | AddIndex | AddUniqueKey | AddPrimaryKey | DropIndex | DropPrimaryKey
    | RenameTable | EngineChange | Unknown

  datatype Operation = Operation(kind: OperationType, value: string)

  // ---- Splitting ----

  /** The pieces between the commas outside parentheses; `current` is the piece being read. */
  function TopPieces(s: string, depth: int, current: string): (r: seq<string>)
    ensures r != []
    decreases |s|
  {
    if s == "" then [current]
    else if s[0] == ',' && depth == 0 then [current] + TopPieces(s[1..], 0, "")
    else TopPieces(s[1..], Deeper(depth, s[0]), current + [s[0]])
  }

  function Deeper(depth: int, c: char): int {
    if c == '(' then depth + 1 else if c == ')' then depth - 1 else depth
  }

  /** The pieces the parser keeps: the non-empty ones, trimmed. */
  function Kept(pieces: seq<string>): seq<string> {
    if pieces == [] then []
    else if pieces[0] == "" then Kept(pieces[1..])
    else [Trim(pieces[0])] + Kept(pieces[1..])
  }

  /** The trimmed pieces the parser keeps of a text. */
  function KeptPieces(text: string): seq<string> {
    Kept(TopPieces(Trim(text), 0, ""))
  }

  // ---- Classifying ----

  ghost function AddKind(upper: string): OperationType {
    if Contains(upper, "PRIMARY KEY") then AddPrimaryKey
    else if Contains(upper, "UNIQUE") then AddUniqueKey
    else if Contains(upper, "KEY") || Contains(upper, "INDEX") then AddIndex
    else AddColumn
  }

  ghost function DropKind(upper: string): OperationType {
    if Contains(upper, "PRIMARY KEY") then DropPrimaryKey
    else if Contains(upper, "KEY") || Contains(upper, "INDEX") then DropIndex
    else DropColumn
  }

  /** What one piece stands for; the short column forms are written out. */
  ghost function Classify(op: string): Operation {
    var upper := ToUpper(op);
    if StartsWith(upper, "ADD COLUMN ") then Operation(AddColumn, op)
    else if StartsWith(upper, "ADD ") then
      Operation(AddKind(upper), if AddKind(upper) == AddColumn then "ADD COLUMN " + op[4..] else op)
    else if StartsWith(upper, "DROP COLUMN ") then Operation(DropColumn, op)
    else if StartsWith(upper, "DROP ") then
      Operation(DropKind(upper), if DropKind(upper) == DropColumn then "DROP COLUMN " + op[5..] else op)
    else if StartsWith(upper, "MODIFY COLUMN ") then Operation(ModifyColumn, op)
    else if StartsWith(upper, "MODIFY ") then Operation(ModifyColumn, "MODIFY COLUMN " + op[7..])
    else if StartsWith(upper, "CHANGE COLUMN ") then Operation(ChangeColumn, op)
    else if StartsWith(upper, "CHANGE ") then Operation(ChangeColumn, "CHANGE COLUMN " + op[7..])
    else if StartsWith(upper, "RENAME ") || StartsWith(upper, "RENAME TO ") then Operation(RenameTable, op)
    else if StartsWith(upper, "ENGINE ") then Operation(EngineChange, op)
    else Operation(Unknown, op)
  }

  ghost function ClassifyAll(parts: seq<string>): (r: seq<Operation>)
    ensures |r| == |parts|
  {
    seq(|parts|, i requires 0 <= i < |parts| => Classify(parts[i]))
  }

  ghost function Parse(text: string): seq<Operation> {
    ClassifyAll(KeptPieces(text))
  }

  function Values(ops: seq<Operation>): (r: seq<string>)
    ensures |r| == |ops| && forall i :: 0 <= i < |r| ==> r[i] == ops[i].value
  {
    seq(|ops|, i requires 0 <= i < |ops| => ops[i].value)
  }

  function Print(ops: seq<Operation>): string {
    Join(Values(ops), ", ")
  }

  class AlterTableParser {
    var tableName: string
    var operations: seq<Operation>

    constructor (tableName: string)
      ensures this.tableName == tableName && operations == []
    {
      this.tableName, operations := tableName, [];
    }

    method ParseOperations(statement: string)
      modifies this`operations
      ensures operations == old(operations) + Parse(statement)
    {
      var clean := Trim(statement);
      var parts := SplitOperations(clean);
      ghost var ops := ClassifyAll(parts);
      for i := 0 to |parts|
        invariant operations == old(operations) + ops[..i]
      {
        var op := ParseOperation(parts[i]);
        assert ops[..i + 1] == ops[..i] + [op];
        operations := operations + [op];
      }
      assert ops[..|parts|] == ops;
    }

    method Normalize() returns (text: string)
      ensures text == "ALTER TABLE " + tableName + " " + Print(operations)
    {
      var values: seq<string> := [];
      for i := 0 to |operations|
        invariant values == Values(operations)[..i]
      {
        values := values + [operations[i].value];
      }
      assert values == Values(operations);
      var list := JoinParts(values, ", ");
      text := "ALTER TABLE " + tableName + " " + list;
    }
  }

  method SplitOperations(clean: string) returns (parts: seq<string>)
    ensures parts == Kept(TopPieces(clean, 0, ""))
  {
    parts := [];
    var current: string := "";
    var depth := 0;
    ghost var kept := Kept(TopPieces(clean, 0, ""));
    assert clean[0..] == clean && [] + kept == kept;
    for i := 0 to |clean|
      invariant Exactly(parts + Kept(TopPieces(clean[i..], depth, current))) == Exactly(kept)
    {
      var c := clean[i];
      CutTail(clean, i, 1);
      if c == ',' && depth == 0 {
        KeptCons(current, TopPieces(clean[i + 1..], 0, ""));
        if current != "" {
          Regroup3(parts, [Trim(current)], Kept(TopPieces(clean[i + 1..], 0, "")));
          parts := parts + [Trim(current)];
        }
        current := "";
      } else {
        depth := Deeper(depth, c);
        current := current + [c];
      }
    }
    KeptCons(current, []);
    if current != "" {
      parts := parts + [Trim(current)];
    }
    assert parts + [] == parts;
  }

  lemma KeptCons(first: string, rest: seq<string>)
    ensures Exactly(Kept([first] + rest)) == Exactly(if first == "" then Kept(rest) else [Trim(first)] + Kept(rest))
  {
    assert ([first] + rest)[1..] == rest;
  }

  method ContainsText(text: string, d: string) returns (r: bool)
    ensures r == Contains(text, d)
  {
    var found := FindText(text, d, 0);
    r := found.Some?;
  }

  method ParseOperation(op: string) returns (r: Operation)
    ensures r == Classify(op)
  {
    var upper := ToUpper(op);
    var primary := ContainsText(upper, "PRIMARY KEY");
    var key := ContainsText(upper, "KEY");
    var index := ContainsText(upper, "INDEX");
    if StartsWith(upper, "ADD COLUMN ") {
      r := Operation(AddColumn, op);
    } else if StartsWith(upper, "ADD ") {
      var unique := ContainsText(upper, "UNIQUE");
      if primary {
        r := Operation(AddPrimaryKey, op);
      } else if unique || key || index {
        r := Operation(if unique then AddUniqueKey else AddIndex, op);
      } else {
        r := Operation(AddColumn, "ADD COLUMN " + op[4..]);
      }
    } else if StartsWith(upper, "DROP COLUMN ") {
      r := Operation(DropColumn, op);
    } else if StartsWith(upper, "DROP ") {
      if primary {
        r := Operation(DropPrimaryKey, op);
      } else if key || index {
        r := Operation(DropIndex, op);
      } else {
        r := Operation(DropColumn, "DROP COLUMN " + op[5..]);
      }
    } else if StartsWith(upper, "MODIFY COLUMN ") {
      r := Operation(ModifyColumn, op);
    } else if StartsWith(upper, "MODIFY ") {
      r := Operation(ModifyColumn, "MODIFY COLUMN " + op[7..]);
    } else if StartsWith(upper, "CHANGE COLUMN ") {
      r := Operation(ChangeColumn, op);
    } else if StartsWith(upper, "CHANGE ") {
      r := Operation(ChangeColumn, "CHANGE COLUMN " + op[7..]);
    } else if StartsWith(upper, "RENAME ") || StartsWith(upper, "RENAME TO ") {
      r := Operation(RenameTable, op);
    } else if StartsWith(upper, "ENGINE ") {
      r := Operation(EngineChange, op);
    } else {
      r := Operation(Unknown, op);
    }
  }

  // ---- Splitting and joining at top-level commas are inverses ----

  function Depth(s: string, depth: int): int {
    if s == "" then depth else Depth(s[1..], Deeper(depth, s[0]))
  }

  predicate NoTopComma(s: string, depth: int) {
    s == "" || ((s[0] == ',' ==> depth != 0) && NoTopComma(s[1..], Deeper(depth, s[0])))
  }

  /** A piece that another piece may follow. */
  predicate Closed(piece: string) {
    NoTopComma(piece, 0) && Depth(piece, 0) == 0
  }

  predicate WellSplit(pieces: seq<string>) {
    && pieces != []
    && NoTopComma(pieces[|pieces| - 1], 0)
    && forall i :: 0 <= i < |pieces| - 1 ==> Closed(pieces[i])
  }

  lemma {:induction false} ScanAppend(a: string, b: string, depth: int)
    ensures Depth(a + b, depth) == Depth(b, Depth(a, depth))
    ensures NoTopComma(a + b, depth) <==> NoTopComma(a, depth) && NoTopComma(b, Depth(a, depth))
  {
    if a == "" {
      assert a + b == b;
    } else {
      assert (a + b)[1..] == a[1..] + b;
      ScanAppend(a[1..], b, Deeper(depth, a[0]));
    }
  }

  /** Splitting reads a stretch without a top-level comma into the current piece. */
  lemma {:induction false} PiecesAppend(a: string, b: string, depth: int, current: string)
    requires NoTopComma(a, depth)
    ensures Exactly(TopPieces(a + b, depth, current)) == Exactly(TopPieces(b, Depth(a, depth), current + a))
    decreases |a|
  {
    if a == "" {
      assert a + b == b && current + a == current;
    } else {
      assert (a + b)[1..] == a[1..] + b;
      PiecesAppend(a[1..], b, Deeper(depth, a[0]), current + [a[0]]);
      assert current + [a[0]] + a[1..] == current + a;
    }
  }

  lemma {:induction false} PiecesAreWellSplit(s: string, depth: int, current: string)
    requires NoTopComma(current, 0) && Depth(current, 0) == depth
    ensures WellSplit(TopPieces(s, depth, current))
    decreases |s|
  {
    if s == "" {
    } else if s[0] == ',' && depth == 0 {
      var rest := TopPieces(s[1..], 0, "");
      PiecesAreWellSplit(s[1..], 0, "");
      assert forall i :: 1 <= i < |rest| + 1 ==> ([current] + rest)[i] == rest[i - 1];
    } else {
      ScanAppend(current, [s[0]], 0);
      assert NoTopComma([s[0]], depth) && Depth([s[0]], depth) == Deeper(depth, s[0]);
      PiecesAreWellSplit(s[1..], Deeper(depth, s[0]), current + [s[0]]);
    }
  }

  lemma {:induction false} PiecesJoinBack(s: string, depth: int, current: string)
    ensures Exactly(Join(TopPieces(s, depth, current), ",")) == Exactly(current + s)
    decreases |s|
  {
    if s == "" {
      assert current + s == current;
    } else if s[0] == ',' && depth == 0 {
      PiecesJoinBack(s[1..], 0, "");
      JoinCons(current, TopPieces(s[1..], 0, ""), ",");
      assert "" + s[1..] == s[1..];
      assert current + "," + s[1..] == current + s;
    } else {
      PiecesJoinBack(s[1..], Deeper(depth, s[0]), current + [s[0]]);
      assert current + [s[0]] + s[1..] == current + s;
    }
  }

  lemma {:induction false} JoinedPiecesSplit(pieces: seq<string>)
    requires WellSplit(pieces)
    ensures TopPieces(Join(pieces, ","), 0, "") == pieces
    decreases |pieces|
  {
    var first := pieces[0];
    if |pieces| == 1 {
      PiecesAppend(first, "", 0, "");
      assert first + "" == first && "" + first == first && pieces == [first];
    } else {
      assert Closed(first);
      var rest := Join(pieces[1..], ",");
      assert forall i :: 0 <= i < |pieces[1..]| - 1 ==> pieces[1..][i] == pieces[i + 1];
      JoinedPiecesSplit(pieces[1..]);
      PiecesAppend(first, "," + rest, 0, "");
      Regroup3(first, ",", rest);
      assert "" + first == first && ("," + rest)[1..] == rest;
      assert pieces == [first] + pieces[1..];
    }
  }

  /** How many parentheses `s` leaves open; negative when it closes more than it opens. */
  function Balance(s: string): int {
    multiset(s)['('] as int - multiset(s)[')'] as int
  }

  /** Every comma of `s` stands where the parentheses before it are out of balance. */
  predicate CommasAreInside(s: string) {
    forall k :: 0 <= k < |s| && s[k] == ',' ==> Balance(s[..k]) != 0
  }

  /** The text is cut at commas outside parentheses, and at all of them. */
  predicate IsTopCut(pieces: seq<string>) {
    && pieces != []
    && (forall i :: 0 <= i < |pieces| ==> CommasAreInside(pieces[i]))
    && forall i :: 0 <= i < |pieces| - 1 ==> Balance(pieces[i]) == 0
  }

  lemma BalanceCons(s: string, k: nat)
    requires 0 < k <= |s|
    ensures Balance(s[..k]) == Deeper(0, s[0]) + Balance(s[1..][..k - 1])
  {
    assert s[..k] == [s[0]] + s[1..][..k - 1];
  }

  lemma {:induction false} DepthIsBalance(s: string, depth: int)
    ensures Depth(s, depth) == depth + Balance(s)
    ensures NoTopComma(s, depth) <==> forall k :: 0 <= k < |s| && s[k] == ',' ==> depth + Balance(s[..k]) != 0
    decreases |s|
  {
    if s != "" {
      var next := Deeper(depth, s[0]);
      DepthIsBalance(s[1..], next);
      BalanceCons(s, |s|);
      assert s[..|s|] == s && s[1..][..|s| - 1] == s[1..] && s[..0] == "";
      forall k | 0 < k < |s| ensures depth + Balance(s[..k]) == next + Balance(s[1..][..k - 1]) {
        BalanceCons(s, k);
      }
      forall k | 0 <= k < |s[1..]| ensures s[1..][k] == s[k + 1] {
      }
    }
  }

  lemma TopCutIff(pieces: seq<string>)
    ensures IsTopCut(pieces) <==> WellSplit(pieces)
  {
    forall i | 0 <= i < |pieces|
      ensures CommasAreInside(pieces[i]) <==> NoTopComma(pieces[i], 0)
      ensures Balance(pieces[i]) == Depth(pieces[i], 0)
    {
      DepthIsBalance(pieces[i], 0);
    }
  }

  /** The pieces are the one way to cut the text at its commas outside parentheses, and lose
      nothing. */
  lemma SplitJoinInverse(text: string, pieces: seq<string>)
    ensures IsTopCut(pieces) && Join(pieces, ",") == text <==> pieces == TopPieces(text, 0, "")
  {
    PiecesAreWellSplit(text, 0, "");
    PiecesJoinBack(text, 0, "");
    assert "" + text == text;
    TopCutIff(pieces);
    if WellSplit(pieces) {
      JoinedPiecesSplit(pieces);
    }
  }

  // ---- One piece: trimming and rewriting ----

  lemma {:induction false} TrimLeftScans(s: string)
    ensures Depth(TrimLeft(s), 0) == Depth(s, 0) && NoTopComma(TrimLeft(s), 0) == NoTopComma(s, 0)
  {
    if s != "" && IsSpace(s[0]) {
      TrimLeftScans(s[1..]);
    }
  }

  lemma {:induction false} TrimRightScans(s: string)
    ensures Depth(TrimRight(s), 0) == Depth(s, 0) && NoTopComma(TrimRight(s), 0) == NoTopComma(s, 0)
    decreases |s|
  {
    if s != "" && IsSpace(s[|s| - 1]) {
      var front, last := s[..|s| - 1], [s[|s| - 1]];
      TrimRightScans(front);
      ScanAppend(front, last, 0);
      assert s == front + last;
      assert last[1..] == "";
    }
  }

  lemma TrimScans(s: string)
    ensures Depth(Trim(s), 0) == Depth(s, 0) && NoTopComma(Trim(s), 0) == NoTopComma(s, 0)
  {
    TrimLeftScans(s);
    TrimRightScans(TrimLeft(s));
  }

  predicate Neutral(s: string) {
    forall k :: 0 <= k < |s| ==> s[k] != '(' && s[k] != ')' && s[k] != ','
  }

  lemma {:induction false} NeutralScans(s: string)
    requires Neutral(s)
    ensures Depth(s, 0) == 0 && NoTopComma(s, 0)
    decreases |s|
  {
    if s != "" {
      assert Deeper(0, s[0]) == 0;
      assert forall k :: 0 <= k < |s[1..]| ==> s[1..][k] == s[k + 1];
      NeutralScans(s[1..]);
    }
  }

  /** Replacing one neutral keyword prefix by another changes neither depth nor commas. */
  lemma RewriteScans(op: string, n: nat, keyword: string)
    requires n <= |op| && Neutral(op[..n]) && Neutral(keyword)
    ensures Depth(keyword + op[n..], 0) == Depth(op, 0)
    ensures NoTopComma(keyword + op[n..], 0) == NoTopComma(op, 0)
  {
    Rejoin(op, n);
    NeutralScans(op[..n]);
    NeutralScans(keyword);
    ScanAppend(op[..n], op[n..], 0);
    ScanAppend(keyword, op[n..], 0);
  }

  lemma UpperPrefixIsNeutral(op: string, prefix: string)
    requires StartsWith(ToUpper(op), prefix) && Neutral(prefix)
    ensures Neutral(op[..|prefix|])
  {
    forall k | 0 <= k < |prefix| ensures op[k] != '(' && op[k] != ')' && op[k] != ',' {
      assert ToUpper(op)[..|prefix|][k] == prefix[k];
    }
  }

  lemma UpperAppend(keyword: string, rest: string)
    requires ToUpper(keyword) == keyword
    ensures StartsWith(ToUpper(keyword + rest), keyword)
  {
    assert ToUpper(keyword + rest)[..|keyword|] == ToUpper(keyword);
  }

  lemma RewriteIsStable(op: string, prefix: string, keyword: string)
    requires IsTrimmed(op) && StartsWith(ToUpper(op), prefix)
    requires prefix != "" && IsSpace(prefix[|prefix| - 1]) && ToUpper(keyword) == keyword
    requires keyword != "" && !IsSpace(keyword[0]) && Neutral(prefix) && Neutral(keyword)
    ensures var v := keyword + op[|prefix|..];
      && IsTrimmed(v) && v != "" && StartsWith(ToUpper(v), keyword)
      && Depth(v, 0) == Depth(op, 0) && NoTopComma(v, 0) == NoTopComma(op, 0)
  {
    var n := |prefix|;
    UpperPrefixIsNeutral(op, prefix);
    RewriteScans(op, n, keyword);
    UpperAppend(keyword, op[n..]);
    assert ToUpper(op)[..n][n - 1] == prefix[n - 1];
    assert IsSpace(op[n - 1]);
    assert |op| > n;
  }

  lemma OtherStart(s: string, prefix: string, other: string)
    requires StartsWith(s, prefix) && prefix != "" && other != "" && prefix[0] != other[0]
    ensures !StartsWith(s, other)
  {
    assert s[..|prefix|][0] == s[0];
    if |other| <= |s| {
      assert s[..|other|][0] == s[0];
    }
  }

  /** The four long column forms. */
  function LongForm(kind: OperationType): string {
    match kind
    case AddColumn => "ADD COLUMN "
    case DropColumn => "DROP COLUMN "
    case ModifyColumn => "MODIFY COLUMN "
    case _ => "CHANGE COLUMN "
  }

  function ShortForm(kind: OperationType): string {
    match kind
    case AddColumn => "ADD "
    case DropColumn => "DROP "
    case ModifyColumn => "MODIFY "
    case _ => "CHANGE "
  }

  predicate IsColumnKind(kind: OperationType) {
    kind.AddColumn? || kind.DropColumn? || kind.ModifyColumn? || kind.ChangeColumn?
  }

  lemma LongFormClassifies(v: string, kind: OperationType)
    requires IsColumnKind(kind) && StartsWith(ToUpper(v), LongForm(kind))
    ensures Classify(v) == Operation(kind, v)
  {
    var upper := ToUpper(v);
    if !kind.AddColumn? {
      OtherStart(upper, LongForm(kind), "ADD COLUMN ");
      OtherStart(upper, LongForm(kind), "ADD ");
      if !kind.DropColumn? {
        OtherStart(upper, LongForm(kind), "DROP COLUMN ");
        OtherStart(upper, LongForm(kind), "DROP ");
        if kind.ChangeColumn? {
          OtherStart(upper, LongForm(kind), "MODIFY COLUMN ");
          OtherStart(upper, LongForm(kind), "MODIFY ");
        }
      }
    }
  }

  ghost predicate IsStable(op: string, v: string) {
    && Classify(v) == Classify(op) && IsTrimmed(v) && (v == "" <==> op == "")
    && Depth(v, 0) == Depth(op, 0) && NoTopComma(v, 0) == NoTopComma(op, 0)
  }

  lemma ShortFormIsKeyword(kind: OperationType)
    ensures ShortForm(kind) != "" && IsSpace(ShortForm(kind)[|ShortForm(kind)| - 1]) && Neutral(ShortForm(kind))
  {
  }

  lemma LongFormIsNeutral(kind: OperationType)
    ensures LongForm(kind) != "" && !IsSpace(LongForm(kind)[0]) && Neutral(LongForm(kind))
  {
  }

  lemma LongFormIsUpper(kind: OperationType)
    ensures Exactly(ToUpper(LongForm(kind))) == Exactly(LongForm(kind))
  {
    UpperIsKept(LongForm(kind));
  }

  lemma UpperIsKept(text: string)
    requires forall k :: 0 <= k < |text| ==> !('a' <= text[k] <= 'z')
    ensures Exactly(ToUpper(text)) == Exactly(text)
  {
    assert ToUpper(text) == text;
  }

  lemma ShortFormScans(op: string, prefix: string, kind: OperationType)
    requires IsTrimmed(op) && StartsWith(ToUpper(op), prefix) && IsColumnKind(kind) && prefix == ShortForm(kind)
    ensures var v := LongForm(kind) + op[|prefix|..];
      && StartsWith(ToUpper(v), LongForm(kind)) && IsTrimmed(v) && v != ""
      && Depth(v, 0) == Depth(op, 0) && NoTopComma(v, 0) == NoTopComma(op, 0)
  {
    ShortFormIsKeyword(kind);
    LongFormIsNeutral(kind);
    LongFormIsUpper(kind);
    RewriteIsStable(op, prefix, LongForm(kind));
  }

  lemma ShortFormIsStable(op: string, prefix: string, kind: OperationType)
    requires IsTrimmed(op) && StartsWith(ToUpper(op), prefix) && IsColumnKind(kind) && prefix == ShortForm(kind)
    ensures var v := LongForm(kind) + op[|prefix|..];
      && Classify(v) == Operation(kind, v) && IsTrimmed(v) && v != ""
      && Depth(v, 0) == Depth(op, 0) && NoTopComma(v, 0) == NoTopComma(op, 0)
  {
    ShortFormScans(op, prefix, kind);
    LongFormClassifies(LongForm(kind) + op[|prefix|..], kind);
  }

  /** How an operation comes to be printed differently from how it was written. */
  lemma RewrittenIsShort(op: string)
    requires Classify(op).value != op
    ensures var kind := Classify(op).kind;
      && IsColumnKind(kind)
      && StartsWith(ToUpper(op), ShortForm(kind))
      && Classify(op).value == LongForm(kind) + op[|ShortForm(kind)|..]
  {
  }

  /** Classifying the text an operation is printed as gives that operation again: the long column
      forms are read as what the short forms were rewritten to. */
  lemma ClassifyIsStable(op: string)
    requires IsTrimmed(op)
    ensures IsStable(op, Classify(op).value)
  {
    if Classify(op).value != op {
      RewrittenIsShort(op);
      var kind := Classify(op).kind;
      ShortFormIsStable(op, ShortForm(kind), kind);
    }
  }

  // ---- Which text is of which kind ----

  /** The same letter in either case, or the same character. */
  predicate AnyCase(c: char, upper: char) {
    c == upper || ('A' <= upper <= 'Z' && c as int == upper as int + 32)
  }

  /** `word` stands in `op` at position `i`, in upper or lower case. */
  predicate IsAt(op: string, word: string, i: nat) {
    i + |word| <= |op| && forall k :: 0 <= k < |word| ==> AnyCase(op[i + k], word[k])
  }

  predicate Mentions(op: string, word: string) {
    exists i :: 0 <= i <= |op| && IsAt(op, word, i)
  }

  predicate IsUpper(word: string) {
    forall k :: 0 <= k < |word| ==> !('a' <= word[k] <= 'z')
  }

  lemma UpperOccursIff(op: string, word: string, i: nat)
    requires IsUpper(word)
    ensures OccursAt(ToUpper(op), word, i) <==> IsAt(op, word, i)
  {
    var upper := ToUpper(op);
    OccursAtIsSlice(upper, word, i);
    if i + |word| <= |op| {
      forall k | 0 <= k < |word| ensures upper[i..i + |word|][k] == word[k] <==> AnyCase(op[i + k], word[k]) {
        assert upper[i..i + |word|][k] == ToUpperChar(op[i + k]);
      }
    }
  }

  lemma UpperStartsIff(op: string, word: string)
    requires IsUpper(word)
    ensures StartsWith(ToUpper(op), word) <==> IsAt(op, word, 0)
  {
    UpperOccursIff(op, word, 0);
    OccursAtIsSlice(ToUpper(op), word, 0);
    assert |word| <= |op| ==> ToUpper(op)[0..|word|] == ToUpper(op)[..|word|];
  }

  lemma UpperContainsIff(op: string, word: string)
    requires IsUpper(word)
    ensures Contains(ToUpper(op), word) <==> Mentions(op, word)
  {
    FindIsFirst(ToUpper(op), word, 0);
    forall i: nat ensures OccursAt(ToUpper(op), word, i) <==> IsAt(op, word, i) {
      UpperOccursIff(op, word, i);
    }
  }

  lemma FirstLetter(op: string, word: string)
    requires IsUpper(word) && word != ""
    ensures StartsWith(ToUpper(op), word) <==> IsAt(op, word, 0)
    ensures StartsWith(ToUpper(op), word) ==> op != "" && AnyCase(op[0], word[0])
  {
    UpperStartsIff(op, word);
  }

  /** The words a text opens with and those it mentions. */
  datatype Words = Words(add: bool, addColumn: bool, drop: bool, dropColumn: bool, modify_: bool, change: bool,
                         rename: bool, engine: bool, primary: bool, unique: bool, index: bool)

  /** The words of an operation's text, in any case. */
  function WordsOf(op: string): Words {
    Words(IsAt(op, "ADD ", 0), IsAt(op, "ADD COLUMN ", 0), IsAt(op, "DROP ", 0), IsAt(op, "DROP COLUMN ", 0),
          IsAt(op, "MODIFY ", 0), IsAt(op, "CHANGE ", 0), IsAt(op, "RENAME ", 0), IsAt(op, "ENGINE ", 0),
          Mentions(op, "PRIMARY KEY"), Mentions(op, "UNIQUE"), Mentions(op, "KEY") || Mentions(op, "INDEX"))
  }

  /** Which words a text of a kind has. */
  predicate Fits(w: Words, kind: OperationType) {
    match kind
    case AddColumn => w.add && (w.addColumn || (!w.primary && !w.unique && !w.index))
    case AddPrimaryKey => w.add && !w.addColumn && w.primary
    case AddUniqueKey => w.add && !w.addColumn && !w.primary && w.unique
    case AddIndex => w.add && !w.addColumn && !w.primary && !w.unique && w.index
    case DropColumn => w.drop && (w.dropColumn || (!w.primary && !w.index))
    case DropPrimaryKey => w.drop && !w.dropColumn && w.primary
    case DropIndex => w.drop && !w.dropColumn && !w.primary && w.index
    case ModifyColumn => w.modify_
    case ChangeColumn => w.change
    case RenameTable => w.rename
    case EngineChange => w.engine
    case Unknown => !w.add && !w.drop && !w.modify_ && !w.change && !w.rename && !w.engine
  }

  lemma Openings(op: string)
    ensures var upper := ToUpper(op);
      && (StartsWith(upper, "ADD ") <==> IsAt(op, "ADD ", 0))
      && (StartsWith(upper, "ADD COLUMN ") <==> IsAt(op, "ADD COLUMN ", 0))
      && (StartsWith(upper, "DROP ") <==> IsAt(op, "DROP ", 0))
      && (StartsWith(upper, "DROP COLUMN ") <==> IsAt(op, "DROP COLUMN ", 0))
      && (StartsWith(upper, "MODIFY ") <==> IsAt(op, "MODIFY ", 0))
      && (StartsWith(upper, "CHANGE ") <==> IsAt(op, "CHANGE ", 0))
      && (StartsWith(upper, "RENAME ") <==> IsAt(op, "RENAME ", 0))
      && (StartsWith(upper, "ENGINE ") <==> IsAt(op, "ENGINE ", 0))
  {
    FirstLetter(op, "ADD ");
    FirstLetter(op, "ADD COLUMN ");
    FirstLetter(op, "DROP ");
    FirstLetter(op, "DROP COLUMN ");
    FirstLetter(op, "MODIFY ");
    FirstLetter(op, "CHANGE ");
    FirstLetter(op, "RENAME ");
    FirstLetter(op, "ENGINE ");
  }

  lemma KeyWords(op: string)
    ensures var upper := ToUpper(op);
      && (Contains(upper, "PRIMARY KEY") <==> Mentions(op, "PRIMARY KEY"))
      && (Contains(upper, "UNIQUE") <==> Mentions(op, "UNIQUE"))
      && (Contains(upper, "KEY") <==> Mentions(op, "KEY"))
      && (Contains(upper, "INDEX") <==> Mentions(op, "INDEX"))
  {
    UpperContainsIff(op, "PRIMARY KEY");
    UpperContainsIff(op, "UNIQUE");
    UpperContainsIff(op, "KEY");
    UpperContainsIff(op, "INDEX");
  }

  lemma LongOpenings(op: string)
    ensures StartsWith(ToUpper(op), "ADD COLUMN ") ==> StartsWith(ToUpper(op), "ADD ")
    ensures StartsWith(ToUpper(op), "DROP COLUMN ") ==> StartsWith(ToUpper(op), "DROP ")
    ensures StartsWith(ToUpper(op), "MODIFY COLUMN ") ==> StartsWith(ToUpper(op), "MODIFY ")
    ensures StartsWith(ToUpper(op), "CHANGE COLUMN ") ==> StartsWith(ToUpper(op), "CHANGE ")
    ensures StartsWith(ToUpper(op), "RENAME TO ") ==> StartsWith(ToUpper(op), "RENAME ")
  {
    LongStart(ToUpper(op), "ADD COLUMN ", "ADD ");
    LongStart(ToUpper(op), "DROP COLUMN ", "DROP ");
    LongStart(ToUpper(op), "MODIFY COLUMN ", "MODIFY ");
    LongStart(ToUpper(op), "CHANGE COLUMN ", "CHANGE ");
    LongStart(ToUpper(op), "RENAME TO ", "RENAME ");
  }

  lemma LongStart(s: string, long: string, short: string)
    requires short <= long
    ensures StartsWith(s, long) ==> StartsWith(s, short)
  {
    if StartsWith(s, long) {
      assert s[..|short|] == s[..|long|][..|short|];
    }
  }

  predicate StartsWithLetter(s: string, c: char) {
    s != "" && s[0] == c
  }

  lemma LetterOf(s: string, word: string)
    requires word != ""
    ensures StartsWith(s, word) ==> StartsWithLetter(s, word[0])
  {
    if StartsWith(s, word) {
      assert s[..|word|][0] == s[0];
    }
  }

  /** No text opens with two of the six words. */
  lemma OneOpening(op: string)
    ensures var upper := ToUpper(op);
      && (StartsWith(upper, "ADD ") ==> StartsWithLetter(upper, 'A'))
      && (StartsWith(upper, "DROP ") ==> StartsWithLetter(upper, 'D'))
      && (StartsWith(upper, "MODIFY ") ==> StartsWithLetter(upper, 'M'))
      && (StartsWith(upper, "CHANGE ") ==> StartsWithLetter(upper, 'C'))
      && (StartsWith(upper, "RENAME ") ==> StartsWithLetter(upper, 'R'))
      && (StartsWith(upper, "ENGINE ") ==> StartsWithLetter(upper, 'E'))
  {
    LetterOf(ToUpper(op), "ADD ");
    LetterOf(ToUpper(op), "DROP ");
    LetterOf(ToUpper(op), "MODIFY ");
    LetterOf(ToUpper(op), "CHANGE ");
    LetterOf(ToUpper(op), "RENAME ");
    LetterOf(ToUpper(op), "ENGINE ");
  }

  ghost function UpperWords(upper: string): Words {
    Words(StartsWith(upper, "ADD "), StartsWith(upper, "ADD COLUMN "),
          StartsWith(upper, "DROP "), StartsWith(upper, "DROP COLUMN "),
          StartsWith(upper, "MODIFY "), StartsWith(upper, "CHANGE "),
          StartsWith(upper, "RENAME "), StartsWith(upper, "ENGINE "),
          Contains(upper, "PRIMARY KEY"), Contains(upper, "UNIQUE"),
          Contains(upper, "KEY") || Contains(upper, "INDEX"))
  }

  /** The order in which the branches are tried. */
  function FirstFit(w: Words): OperationType {
    if w.addColumn then AddColumn
    else if w.add then
      if w.primary then AddPrimaryKey else if w.unique then AddUniqueKey else if w.index then AddIndex else AddColumn
    else if w.dropColumn then DropColumn
    else if w.drop then if w.primary then DropPrimaryKey else if w.index then DropIndex else DropColumn
    else if w.modify_ then ModifyColumn
    else if w.change then ChangeColumn
    else if w.rename then RenameTable
    else if w.engine then EngineChange
    else Unknown
  }

  predicate OpensOnce(w: Words) {
    && (w.addColumn ==> w.add) && (w.dropColumn ==> w.drop)
    && (w.add ==> !w.drop && !w.modify_ && !w.change && !w.rename && !w.engine)
    && (w.drop ==> !w.modify_ && !w.change && !w.rename && !w.engine)
    && (w.modify_ ==> !w.change && !w.rename && !w.engine)
    && (w.change ==> !w.rename && !w.engine) && (w.rename ==> !w.engine)
  }

  lemma FirstFits(w: Words, kind: OperationType)
    requires OpensOnce(w)
    ensures FirstFit(w) == kind <==> Fits(w, kind)
  {
  }

  lemma KindIsFirstFit(op: string)
    ensures Classify(op).kind == FirstFit(UpperWords(ToUpper(op)))
  {
    LongOpenings(op);
  }

  lemma UpperOpensOnce(op: string)
    ensures OpensOnce(UpperWords(ToUpper(op)))
  {
    OneOpening(op);
    LongOpenings(op);
  }

  lemma SameWords(op: string)
    ensures UpperWords(ToUpper(op)) == WordsOf(op)
  {
    Openings(op);
    KeyWords(op);
  }

  /** Every text is classified by its words: by the first, and behind ADD and DROP by whether the
      second is COLUMN and which of the key words the text mentions anywhere. */
  lemma KindIff(op: string, kind: OperationType)
    ensures Classify(op).kind == kind <==> Fits(WordsOf(op), kind)
  {
    KindIsFirstFit(op);
    UpperOpensOnce(op);
    SameWords(op);
    FirstFits(WordsOf(op), kind);
  }

  /** A piece is printed as it was written, except that the COLUMN left out of a column operation
      is put in. */
  lemma ValueIs(op: string)
    ensures var kind := Classify(op).kind;
      Classify(op).value ==
        if IsColumnKind(kind) && !IsAt(op, LongForm(kind), 0) then LongForm(kind) + op[|ShortForm(kind)|..] else op
  {
    var kind := Classify(op).kind;
    if IsColumnKind(kind) {
      LongFormIsKeyword(kind);
      UpperStartsIff(op, LongForm(kind));
      if StartsWith(ToUpper(op), LongForm(kind)) {
        LongFormClassifies(op, kind);
      } else if kind.AddColumn? || kind.DropColumn? {
        ShortColumnIsWritten(op);
      } else {
        ShortChangeIsWritten(op);
      }
    } else if Classify(op).value != op {
      RewrittenIsShort(op);
    }
  }

  lemma LongFormIsKeyword(kind: OperationType)
    ensures IsUpper(LongForm(kind))
  {
  }

  lemma ShortColumnIsWritten(op: string)
    requires var kind := Classify(op).kind;
      (kind.AddColumn? || kind.DropColumn?) && !StartsWith(ToUpper(op), LongForm(kind))
    ensures var kind := Classify(op).kind; Classify(op).value == LongForm(kind) + op[|ShortForm(kind)|..]
  {
  }

  lemma ShortChangeIsWritten(op: string)
    requires var kind := Classify(op).kind;
      (kind.ModifyColumn? || kind.ChangeColumn?) && !StartsWith(ToUpper(op), LongForm(kind))
    ensures var kind := Classify(op).kind; Classify(op).value == LongForm(kind) + op[|ShortForm(kind)|..]
  {
  }

  /** A statement renames the table, or changes its engine, exactly if one of its pieces says so. */
  lemma RenamesIff(text: string)
    ensures (exists op <- Parse(text) :: op.kind.RenameTable?) <==>
      exists piece <- KeptPieces(text) :: IsAt(piece, "RENAME ", 0)
    ensures (exists op <- Parse(text) :: op.kind.EngineChange?) <==>
      exists piece <- KeptPieces(text) :: IsAt(piece, "ENGINE ", 0)
  {
    var pieces, ops := KeptPieces(text), Parse(text);
    forall i | 0 <= i < |pieces|
      ensures ops[i].kind.RenameTable? <==> IsAt(pieces[i], "RENAME ", 0)
      ensures ops[i].kind.EngineChange? <==> IsAt(pieces[i], "ENGINE ", 0)
    {
      KindIff(pieces[i], RenameTable);
      KindIff(pieces[i], EngineChange);
    }
  }

  // ---- Parsing what was printed ----

  /** What every list of parsed values satisfies. */
  predicate Printable(values: seq<string>) {
    && (forall i :: 0 <= i < |values| ==> IsTrimmed(values[i]) && NoTopComma(values[i], 0))
    && (forall i :: 0 <= i < |values| - 1 ==> Closed(values[i]))
  }

  lemma {:induction false} KeptIsPrintable(pieces: seq<string>)
    requires WellSplit(pieces)
    ensures Printable(Kept(pieces))
  {
    TrimScans(pieces[0]);
    TrimIsTrimmed(pieces[0]);
    var rest := pieces[1..];
    if rest != [] {
      assert Closed(pieces[0]);
      assert forall i :: 0 <= i < |rest| ==> rest[i] == pieces[i + 1];
      KeptIsPrintable(rest);
    } else {
      assert Kept(rest) == [];
    }
  }

  lemma ParsedIsPrintable(text: string)
    ensures Printable(Values(Parse(text)))
    ensures ClassifyAll(Values(Parse(text))) == Parse(text)
  {
    var parts := Kept(TopPieces(Trim(text), 0, ""));
    PiecesAreWellSplit(Trim(text), 0, "");
    KeptIsPrintable(TopPieces(Trim(text), 0, ""));
    forall i | 0 <= i < |parts|
      ensures IsStable(parts[i], Classify(parts[i]).value)
    {
      ClassifyIsStable(parts[i]);
    }
  }

  function Spaced(values: seq<string>): (r: seq<string>)
    ensures |r| == |values| && forall i :: 0 <= i < |r| ==> r[i] == " " + values[i]
  {
    seq(|values|, i requires 0 <= i < |values| => " " + values[i])
  }

  /** The raw pieces of the printed text. */
  function Spread(values: seq<string>): seq<string>
    requires values != []
  {
    [values[0]] + Spaced(values[1..])
  }

  lemma {:induction false} JoinSpaced(values: seq<string>)
    requires values != []
    ensures Exactly(Join(Spaced(values), ",")) == Exactly(" " + Join(values, ", "))
  {
    if |values| > 1 {
      JoinSpaced(values[1..]);
      assert Spaced(values) == [" " + values[0]] + Spaced(values[1..]);
      JoinCons(" " + values[0], Spaced(values[1..]), ",");
      var rest := Join(values[1..], ", ");
      assert " " + values[0] + "," + (" " + rest) == " " + (values[0] + ", " + rest);
    }
  }

  lemma JoinSpread(values: seq<string>)
    requires values != []
    ensures Exactly(Join(Spread(values), ",")) == Exactly(Join(values, ", "))
  {
    if |values| > 1 {
      JoinSpaced(values[1..]);
      JoinCons(values[0], Spaced(values[1..]), ",");
      var rest := Join(values[1..], ", ");
      assert values[0] + "," + (" " + rest) == values[0] + ", " + rest;
    } else {
      assert Spaced(values[1..]) == [];
    }
  }

  lemma SpacedScans(v: string)
    ensures Depth(" " + v, 0) == Depth(v, 0) && NoTopComma(" " + v, 0) == NoTopComma(v, 0)
    ensures IsTrimmed(v) ==> Trim(" " + v) == v
  {
    assert (" " + v)[1..] == v;
    TrimIsTrimmed(v);
  }

  lemma SpreadScans(values: seq<string>, i: nat)
    requires i < |values|
    ensures Depth(Spread(values)[i], 0) == Depth(values[i], 0)
    ensures NoTopComma(Spread(values)[i], 0) == NoTopComma(values[i], 0)
  {
    SpacedScans(values[i]);
  }

  lemma SpreadIsWellSplit(values: seq<string>)
    requires values != [] && Printable(values)
    ensures WellSplit(Spread(values))
  {
    forall i | 0 <= i < |values| - 1 ensures Closed(Spread(values)[i]) {
      SpreadScans(values, i);
    }
    SpreadScans(values, |values| - 1);
  }

  lemma ClosedSpreadIsWellSplit(values: seq<string>)
    requires values != [] && forall i :: 0 <= i < |values| ==> Closed(values[i])
    ensures WellSplit(Spread(values) + [""])
  {
    forall i | 0 <= i < |values| ensures Closed(Spread(values)[i]) {
      SpreadScans(values, i);
    }
  }

  lemma {:induction false} KeptSpaced(values: seq<string>)
    requires forall i :: 0 <= i < |values| ==> IsTrimmed(values[i])
    ensures Kept(Spaced(values)) == values
  {
    if values != [] {
      SpacedScans(values[0]);
      KeptSpaced(values[1..]);
      assert Spaced(values)[1..] == Spaced(values[1..]);
    }
  }

  function WithoutEmptyFirst(values: seq<string>): seq<string> {
    if values != [] && values[0] == "" then values[1..] else values
  }

  lemma KeptSpread(values: seq<string>)
    requires values != [] && Printable(values)
    ensures Kept(Spread(values)) == WithoutEmptyFirst(values)
    ensures Kept(Spread(values) + [""]) == WithoutEmptyFirst(values)
  {
    KeptSpaced(values[1..]);
    KeptCons(values[0], Spaced(values[1..]));
    TrimIsTrimmed(values[0]);
    KeptAppendEmpty(Spread(values));
  }

  lemma {:induction false} KeptAppendEmpty(pieces: seq<string>)
    ensures Exactly(Kept(pieces + [""])) == Exactly(Kept(pieces))
  {
    if pieces == [] {
      assert pieces + [""] == [""];
    } else {
      KeptAppendEmpty(pieces[1..]);
      assert (pieces + [""])[1..] == pieces[1..] + [""];
    }
  }

  /** What parsing a printed list keeps of it: everything but an empty first and last value. */
  function Survivors(values: seq<string>): seq<string> {
    var n := |values|;
    if n > 1 && values[n - 1] == "" then WithoutEmptyFirst(values[..n - 1]) else WithoutEmptyFirst(values)
  }

  lemma PrintStarts(values: seq<string>)
    requires Printable(values) && values != [] && (|values| > 1 || values[0] != "")
    ensures Join(values, ", ") != "" && !IsSpace(Join(values, ", ")[0])
  {
    assert IsTrimmed(values[0]);
  }

  lemma PrintEnds(values: seq<string>)
    requires Printable(values) && values != [] && values[|values| - 1] != ""
    ensures Join(values, ", ") != "" && !IsSpace(Join(values, ", ")[|Join(values, ", ")| - 1])
  {
    var n := |values|;
    var last := values[n - 1];
    assert IsTrimmed(last);
    if n > 1 {
      JoinAppend(values[..n - 1], last, ", ");
      assert values == values[..n - 1] + [last];
    }
  }

  lemma PrintedPieces(values: seq<string>)
    requires Printable(values) && values != [] && (|values| == 1 || values[|values| - 1] != "")
    ensures Kept(TopPieces(Trim(Join(values, ", ")), 0, "")) == WithoutEmptyFirst(values)
  {
    var text := Join(values, ", ");
    if values[|values| - 1] != "" {
      PrintStarts(values);
      PrintEnds(values);
    }
    TrimIsTrimmed(text);
    JoinSpread(values);
    SpreadIsWellSplit(values);
    JoinedPiecesSplit(Spread(values));
    KeptSpread(values);
  }

  lemma PrintedPiecesEmptyLast(front: seq<string>)
    requires Printable(front + [""]) && front != []
    ensures Kept(TopPieces(Trim(Join(front + [""], ", ")), 0, "")) == WithoutEmptyFirst(front)
  {
    var values := front + [""];
    forall i | 0 <= i < |front| ensures IsTrimmed(front[i]) && Closed(front[i]) {
      assert values[i] == front[i];
    }
    var printed := Join(front, ", ");
    JoinAppend(front, "", ", ");
    var text := printed + ",";
    assert Join(values, ", ") == text + " ";
    assert text[0] == if front[0] != "" then front[0][0] else ',';
    assert TrimLeft(text + " ") == text + " ";
    assert (text + " ")[..|text|] == text;
    assert TrimRight(text + " ") == text;
    JoinSpread(front);
    JoinAppend(Spread(front), "", ",");
    assert printed + "," + "" == text;
    ClosedSpreadIsWellSplit(front);
    JoinedPiecesSplit(Spread(front) + [""]);
    KeptSpread(front);
  }

  /** Parsing the printed form of any parse gives back the operations, types and values, except
      that an empty first or last one is dropped. */
  lemma ReparseKeepsSurvivors(text: string)
    ensures Parse(Print(Parse(text))) == ClassifyAll(Survivors(Values(Parse(text))))
  {
    var values := Values(Parse(text));
    var n := |values|;
    ParsedIsPrintable(text);
    if n == 0 {
      assert Trim("") == "";
    } else if n > 1 && values[n - 1] == "" {
      assert values == values[..n - 1] + [""];
      PrintedPiecesEmptyLast(values[..n - 1]);
    } else {
      PrintedPieces(values);
    }
  }

  lemma SurvivorsAreAll(values: seq<string>)
    ensures if values == [] || (values[0] != "" && values[|values| - 1] != "")
            then Survivors(values) == values else |Survivors(values)| < |values|
  {
  }

  predicate HasBlankEnd(pieces: seq<string>) {
    pieces != [] && (pieces[0] == "" || pieces[|pieces| - 1] == "")
  }

  lemma BlankIsBlankPiece(text: string, i: nat)
    requires i < |KeptPieces(text)|
    ensures i < |Values(Parse(text))| && (Values(Parse(text))[i] == "" <==> KeptPieces(text)[i] == "")
  {
    PiecesAreWellSplit(Trim(text), 0, "");
    KeptIsPrintable(TopPieces(Trim(text), 0, ""));
    ClassifyIsStable(KeptPieces(text)[i]);
  }

  lemma SameBlankEnd(a: seq<string>, b: seq<string>)
    requires |a| == |b|
    requires a != [] ==> (a[0] == "" <==> b[0] == "") && (a[|a| - 1] == "" <==> b[|b| - 1] == "")
    ensures HasBlankEnd(a) <==> HasBlankEnd(b)
  {
  }

  lemma BlankEndsAreBlankPieces(text: string)
    ensures |KeptPieces(text)| == |Values(Parse(text))|
    ensures HasBlankEnd(Values(Parse(text))) <==> HasBlankEnd(KeptPieces(text))
  {
    var pieces := KeptPieces(text);
    if pieces != [] {
      BlankIsBlankPiece(text, 0);
      BlankIsBlankPiece(text, |pieces| - 1);
    }
    SameBlankEnd(Values(Parse(text)), pieces);
  }

  /** Printing is a fixpoint of parsing exactly when neither the first nor the last piece the
      parser keeps of the text is blank.  Blank pieces in between are kept. */
  lemma ParsePrintFixpointIff(text: string)
    ensures Parse(Print(Parse(text))) == Parse(text) <==> !HasBlankEnd(KeptPieces(text))
  {
    var ops := Parse(text);
    var values := Values(ops);
    ReparseKeepsSurvivors(text);
    ParsedIsPrintable(text);
    SurvivorsAreAll(values);
    BlankEndsAreBlankPieces(text);
    if Survivors(values) != values {
      assert |Parse(Print(ops))| < |ops|;
    }
  }

  lemma PiecesOfBlankLast()
    ensures TopPieces("a, ,", 0, "") == ["a", " ", ""]
  {
    var pieces := ["a", " ", ""];
    NeutralScans("a");
    NeutralScans(" ");
    assert pieces[1..] == [" ", ""] && pieces[1..][1..] == [""];
    assert Join(pieces, ",") == "a" + "," + (" " + "," + "");
    TopCutIff(pieces);
    SplitJoinInverse("a, ,", pieces);
  }

  lemma KeptOfBlankLast()
    ensures Exactly(KeptPieces("a, ,")) == Exactly(["a", ""])
  {
    assert Trim("a, ,") == "a, ,";
    PiecesOfBlankLast();
    assert Kept([""]) == [] && Trim(" ") == "" && Trim("a") == "a";
    KeptCons(" ", [""]);
    assert [" "] + [""] == [" ", ""] && Kept([" ", ""]) == [""];
    KeptCons("a", [" ", ""]);
    assert ["a"] + [" ", ""] == ["a", " ", ""] && ["a"] + [""] == ["a", ""];
  }

  lemma BlankLastPieceIsLost()
    ensures Parse(Print(Parse("a, ,"))) != Parse("a, ,")
  {
    KeptOfBlankLast();
    ParsePrintFixpointIff("a, ,");
  }
}
