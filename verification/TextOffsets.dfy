/** The editor's byte-offset helpers. Each is proved to return a character boundary, and the one that
    the character-level definition names. */
module TextOffsets {
  import opened Numbers
  import opened Options
  import opened Utf8Text
  import Rows
  import M = EditorModel

  // ----- Characters

  function PreviousBoundary(t: string, b: nat): (r: nat)
    requires IsBoundary(t, b)
    ensures At(t, r, M.Before(CharIndex(t, b))) && r <= b
  {
    PreviousCharacter(t, b);
    if b == 0 then 0
    else
      var before := SliceTo(t, b);
      Offset(before, |before| - 1)
  }

  lemma PreviousCharacter(t: string, b: nat)
    requires IsBoundary(t, b)
    ensures b > 0 <==> CharIndex(t, b) > 0
    ensures b > 0 ==> At(t, Offset(SliceTo(t, b), CharIndex(t, b) - 1), CharIndex(t, b) - 1)
    ensures b > 0 ==> Offset(SliceTo(t, b), CharIndex(t, b) - 1) < b
  {
    var k := CharIndex(t, b);
    OffsetCharIndex(t, b);
    OffsetMonotone(t, 0, k);
    if k > 0 {
      hide IsBoundary, ByteLen, CharIndex;
      assert t[..k][..k - 1] == t[..k - 1];
      OffsetAt(t, k - 1);
      OffsetMonotone(t, k - 1, k);
    }
  }

  function PreviousCommandBoundary(t: string, b: nat): (r: nat)
    requires IsBoundary(t, b) && t != "" && t[0] == ':'
    ensures At(t, r, if M.Before(CharIndex(t, b)) == 0 then 1 else M.Before(CharIndex(t, b)))
  {
    var r := PreviousBoundary(t, b);
    FirstBoundary(t);
    AtOrdered(t, r, M.Before(CharIndex(t, b)), 1, 1);
    if r < 1 then 1 else r
  }

  lemma FirstBoundary(t: string)
    requires t != "" && t[0] == ':'
    ensures At(t, 1, 1)
  {
    assert t[..1] == ":";
    OffsetAt(t, 1);
  }

  function NextBoundary(t: string, b: nat): (r: nat)
    requires IsBoundary(t, b)
    ensures At(t, r, M.After(t, CharIndex(t, b))) && b <= r
  {
    AtEnd(t);
    BeforeEnd(t, b);
    if b >= ByteLen(t) then ByteLen(t)
    else
      NextCharacter(t, b);
      b + Width(SliceFrom(t, b)[0])
  }

  lemma BeforeEnd(t: string, b: nat)
    requires IsBoundary(t, b)
    ensures b <= ByteLen(t) && (b < ByteLen(t) <==> CharIndex(t, b) < |t|)
  {
    IsAt(t, b);
    AtEnd(t);
    AtOrdered(t, b, CharIndex(t, b), ByteLen(t), |t|);
  }

  lemma NextCharacter(t: string, b: nat)
    requires IsBoundary(t, b) && CharIndex(t, b) < |t|
    ensures At(t, b + Width(t[CharIndex(t, b)]), CharIndex(t, b) + 1)
  {
    var k := CharIndex(t, b);
    assert t[k..k + 1] == [t[k]];
    IsAt(t, b);
    AtPlus(t, b, k, k + 1);
  }

  // ----- Rows

  /** `text.rfind('\n')` as a byte offset. */
  function RFindNewline(t: string): (r: Option<nat>)
    ensures r.None? ==> Rows.RowStart(t, |t|) == 0
    ensures r.Some? ==> r.value + 1 == Offset(t, Rows.RowStart(t, |t|))
  {
    var s := Rows.RowStart(t, |t|);
    if s == 0 then None
    else
      OffsetSplit(t, s - 1, s);
      assert t[s - 1..s] == "\n";
      Some(Offset(t, s - 1))
  }

  /** `text.find('\n')` as a byte offset. */
  function FindNewline(t: string): Option<nat> {
    if Rows.RowEnd(t, 0) == |t| then None else Some(Offset(t, Rows.RowEnd(t, 0)))
  }

  function LineStart(t: string, b: nat): (r: nat)
    requires IsBoundary(t, b)
    ensures At(t, r, Rows.RowStart(t, CharIndex(t, b)))
  {
    LineStartOffset(t, CharIndex(t, b));
    match RFindNewline(SliceTo(t, b))
    case None => 0
    case Some(i) => i + 1
  }

  lemma LineStartOffset(t: string, k: nat)
    requires k <= |t|
    ensures Rows.RowStart(t[..k], k) == Rows.RowStart(t, k)
    ensures At(t, Offset(t[..k], Rows.RowStart(t, k)), Rows.RowStart(t, k))
  {
    hide IsBoundary, CharIndex, Rows.FlatBetween, At;
    var s := Rows.RowStart(t, k);
    Rows.RowStartOfPrefix(t, k);
    OffsetAt(t, s);
    assert t[..k][..s] == t[..s];
  }

  function LineEnd(t: string, b: nat): (r: nat)
    requires IsBoundary(t, b)
    ensures At(t, r, Rows.RowEnd(t, CharIndex(t, b)))
  {
    LineEndOffset(t, b);
    match FindNewline(SliceFrom(t, b))
    case None => ByteLen(t)
    case Some(i) => b + i
  }

  lemma LineEndOffset(t: string, b: nat)
    requires IsBoundary(t, b)
    ensures var k := CharIndex(t, b);
            var e := Rows.RowEnd(t, k);
            && Rows.RowEnd(t[k..], 0) == e - k
            && At(t, b + Offset(t[k..], e - k), e)
            && At(t, ByteLen(t), |t|)
  {
    hide IsBoundary, CharIndex, Rows.FlatBetween, Rows.RowEnd, At, ByteLen;
    var k := CharIndex(t, b);
    Rows.RowEndOfSuffix(t, k);
    AtForward(t, b, Rows.RowEnd(t, k));
    AtEnd(t);
  }

  lemma AtForward(t: string, b: nat, e: nat)
    requires IsBoundary(t, b) && CharIndex(t, b) <= e <= |t|
    ensures At(t, b + Offset(t[CharIndex(t, b)..], e - CharIndex(t, b)), e)
  {
    hide At, IsBoundary, CharIndex, ByteLen;
    var k := CharIndex(t, b);
    IsAt(t, b);
    SliceAfter(t, k, e);
    AtPlus(t, b, k, e);
  }

  lemma SliceAfter(t: string, k: nat, e: nat)
    requires k <= e <= |t|
    ensures t[k..][..e - k] == t[k..e]
  {
  }

  /** One byte past the newline that ends a row is a boundary. */
  lemma NewlineAfter(t: string, b: nat, k: nat)
    requires At(t, b, k) && k < |t| && t[k] == '\n'
    ensures At(t, b + 1, k + 1)
  {
    NextCharacter(t, b);
  }

  /** One byte before a row's first character is a boundary. */
  lemma NewlineBefore(t: string, b: nat, k: nat)
    requires At(t, b, k) && 0 < k <= |t| && t[k - 1] == '\n'
    ensures b > 0 && At(t, b - 1, k - 1)
  {
    OffsetAt(t, k - 1);
    NewlineAfter(t, Offset(t, k - 1), k - 1);
    AtOrdered(t, b, k, Offset(t, k - 1) + 1, k);
  }

  /** Byte offsets of the current row, of the end of its newline, and of where `dd` starts. */
  function CurrentLineDeleteRange(t: string, b: nat): (nat, nat, nat)
    requires IsBoundary(t, b)
  {
    var lineStart := LineStart(t, b);
    var lineEndCore := LineEnd(t, b);
    var lineEnd := if lineEndCore < ByteLen(t) then lineEndCore + 1 else lineEndCore;
    var deleteStart := if lineEnd == ByteLen(t) && lineStart > 0 then lineStart - 1 else lineStart;
    (lineStart, lineEnd, deleteStart)
  }

  lemma WholeRowEndBoundary(t: string, b: nat)
    requires IsBoundary(t, b)
    ensures At(t, CurrentLineDeleteRange(t, b).1, M.WholeRowEnd(t, CharIndex(t, b)))
    ensures CurrentLineDeleteRange(t, b).1 == ByteLen(t) <==> M.WholeRowEnd(t, CharIndex(t, b)) == |t|
  {
    hide At, ByteLen, IsBoundary, CharIndex, LineStart, LineEnd, Rows.RowStart, Rows.RowEnd, Rows.FlatBetween;
    var core, e := LineEnd(t, b), Rows.RowEnd(t, CharIndex(t, b));
    AtEnd(t);
    AtOrdered(t, core, e, ByteLen(t), |t|);
    if e < |t| {
      NewlineAfter(t, core, e);
      AtOrdered(t, core + 1, e + 1, ByteLen(t), |t|);
    }
  }

  lemma DeleteStartBoundary(t: string, b: nat)
    requires IsBoundary(t, b)
    ensures At(t, CurrentLineDeleteRange(t, b).2, M.DeleteStart(t, CharIndex(t, b)))
  {
    hide At, ByteLen, IsBoundary, CharIndex, LineStart, LineEnd, Rows.RowStart, Rows.RowEnd, Rows.FlatBetween,
         M.WholeRowEnd;
    var ls, s := LineStart(t, b), Rows.RowStart(t, CharIndex(t, b));
    OffsetAt(t, 0);
    AtOrdered(t, ls, s, Offset(t, 0), 0);
    assert Offset(t, 0) == 0 by { AtStart(t); }
    WholeRowEndBoundary(t, b);
    if s > 0 {
      NewlineBefore(t, ls, s);
    }
  }

  lemma AtStart(t: string)
    ensures Offset(t, 0) == 0 && At(t, 0, 0)
  {
  }

  /** The three offsets may be sliced at, and stand for the current row, its newline, and the place
      `dd` starts, as characters. */
  lemma DeleteRangeOnBoundaries(t: string, b: nat)
    requires IsBoundary(t, b)
    ensures var (lineStart, lineEnd, deleteStart) := CurrentLineDeleteRange(t, b);
            && deleteStart <= lineStart <= lineEnd
            && At(t, lineStart, Rows.RowStart(t, CharIndex(t, b)))
            && At(t, lineEnd, M.WholeRowEnd(t, CharIndex(t, b)))
            && At(t, deleteStart, M.DeleteStart(t, CharIndex(t, b)))
  {
    WholeRowEndBoundary(t, b);
    DeleteStartBoundary(t, b);
    hide At, ByteLen, IsBoundary, CharIndex, LineStart, LineEnd, Rows.RowStart, Rows.RowEnd, Rows.FlatBetween,
         M.WholeRowEnd, M.DeleteStart;
    var (lineStart, lineEnd, deleteStart) := CurrentLineDeleteRange(t, b);
    AtOrdered(t, lineStart, Rows.RowStart(t, CharIndex(t, b)), lineEnd, M.WholeRowEnd(t, CharIndex(t, b)));
  }

  // ----- Vertical motion

  /** `text[..b].bytes().filter(newline).count()`. */
  function RowOf(t: string, b: nat): nat
    requires IsBoundary(t, b)
  {
    Rows.CountNewlines(SliceTo(t, b))
  }

  /** Byte offsets of the first character of every row. */
  method LineStarts(t: string) returns (starts: seq<nat>)
    ensures |starts| == |Rows.Split(t)|
    ensures forall r :: 0 <= r < |starts| ==> At(t, starts[r], Rows.RowOffset(Rows.Split(t), r))
  {
    hide At, Rows.Split;
    starts := [0];
    var index: nat := 0;
    RowStartsBase(t);
    for i := 0 to |t|
      invariant At(t, index, i)
      invariant |starts| == Rows.RowIndex(t, i) + 1 <= |Rows.Split(t)|
      invariant forall r :: 0 <= r < |starts| ==> At(t, starts[r], Rows.RowOffset(Rows.Split(t), r))
    {
      RowStartsStep(t, index, i);
      if t[i] == '\n' {
        starts := starts + [index + 1];
      }
      index := index + Width(t[i]);
    }
    RowStartsEnd(t);
  }

  lemma RowStartsBase(t: string)
    ensures Rows.RowIndex(t, 0) == 0 && At(t, 0, 0)
    ensures At(t, 0, Rows.RowOffset(Rows.Split(t), 0))
  {
  }

  lemma RowStartsStep(t: string, b: nat, i: nat)
    requires i < |t| && At(t, b, i)
    ensures At(t, b + Width(t[i]), i + 1)
    ensures Rows.RowIndex(t, i + 1) == Rows.RowIndex(t, i) + if t[i] == '\n' then 1 else 0
    ensures t[i] == '\n' ==> Rows.RowIndex(t, i + 1) < |Rows.Split(t)|
                             && At(t, b + 1, Rows.RowOffset(Rows.Split(t), Rows.RowIndex(t, i + 1)))
  {
    NextCharacter(t, b);
    hide Rows.Split, Rows.RowOffset, At, IsBoundary, CharIndex;
    assert t[..i + 1] == t[..i] + [t[i]];
    Rows.CountConcat(t[..i], [t[i]]);
    if t[i] == '\n' {
      Rows.RowStartIsRowOffset(t, i + 1);
    }
  }

  lemma RowStartsEnd(t: string)
    ensures |Rows.Split(t)| == Rows.RowIndex(t, |t|) + 1
  {
    hide Rows.Split;
    Rows.SplitRoundTrip(t);
    assert t[..|t|] == t;
  }

  /** Byte offset of character `column`, or the end of the text when it is shorter. */
  method ByteIndexForCharColumn(t: string, column: nat) returns (b: nat)
    ensures At(t, b, Min(column, |t|))
  {
    hide At;
    var index: nat := 0;
    AtStart(t);
    for current := 0 to |t|
      invariant At(t, index, current) && current <= column
    {
      if current == column { return index; }
      RowStartsStep(t, index, current);
      index := index + Width(t[current]);
    }
    AtEnd(t);
    return ByteLen(t);
  }

  lemma AtInside(t: string, start: nat, s: nat, e: nat, b: nat, i: nat)
    requires s <= e <= |t| && i <= e - s && At(t, start, s) && At(t[s..e], b, i)
    ensures At(t, start + b, s + i)
  {
    OffsetCharIndex(t[s..e], b);
    assert t[s..e][..i] == t[s..s + i];
    AtPlus(t, start, s, s + i);
  }

  /** The target row's text lies between its start and the byte before the next row's start. */
  lemma TargetRow(t: string, r: nat, start: nat, end: nat)
    requires r < |Rows.Split(t)| && At(t, start, Rows.RowOffset(Rows.Split(t), r))
    requires if r + 1 < |Rows.Split(t)| then At(t, end + 1, Rows.RowOffset(Rows.Split(t), r + 1))
             else end == ByteLen(t)
    ensures start <= end && At(t, end, Rows.RowOffset(Rows.Split(t), r) + |Rows.Split(t)[r]|)
    ensures IsBoundary(t, start) && IsBoundary(t, end)
    ensures Slice(t, start, end) == Rows.Split(t)[r]
  {
    hide Rows.Split, Rows.RowOffset, ByteLen, IsBoundary;
    var rows := Rows.Split(t);
    var s := Rows.RowOffset(rows, r);
    var e := s + |rows[r]|;
    Rows.RowSlice(t, r);
    assert At(t, end, e) by {
      if r + 1 < |rows| {
        Rows.NextRowOffset(rows, r);
        NewlineBefore(t, end + 1, e + 1);
      } else {
        AtEnd(t);
      }
    }
    AtOrdered(t, start, s, end, e);
  }

  method MoveVertical(t: string, b: nat, delta: int) returns (r: nat)
    requires IsBoundary(t, b) && (delta == 1 || delta == -1)
    ensures At(t, r, M.Vertical(t, CharIndex(t, b), delta))
  {
    hide Rows.Split, Rows.RowOffset, Rows.RowStart, Rows.FlatBetween, ByteLen, IsBoundary, At, CharIndex, Slice;
    var starts := LineStarts(t);
    var currentRow := RowOf(t, b);
    CurrentRowStart(t, b, starts);
    var currentStart := starts[currentRow];
    BoundaryOf(t, currentStart, Rows.RowStart(t, CharIndex(t, b)));
    var currentCol := |Slice(t, currentStart, b)|;
    CurrentColumn(t, b, currentStart);
    var maxRow := |starts| - 1;
    var targetRow :=
      if currentRow + delta < 0 then 0 else if currentRow + delta > maxRow then maxRow else currentRow + delta;
    if targetRow == currentRow {
      IsAt(t, b);
      return b;
    }
    var targetStart := starts[targetRow];
    if targetRow + 1 < |starts| {
      NextStartPositive(t, starts[targetRow + 1], targetRow);
    }
    var targetEnd := if targetRow + 1 < |starts| then starts[targetRow + 1] - 1 else ByteLen(t);
    TargetRow(t, targetRow, targetStart, targetEnd);
    var column := ByteIndexForCharColumn(Slice(t, targetStart, targetEnd), currentCol);
    r := column + targetStart;
    VerticalTarget(t, b, delta, targetRow, targetStart, column);
  }

  lemma BoundaryOf(t: string, b: int, k: int)
    requires At(t, b, k)
    ensures IsBoundary(t, b)
  {
  }

  lemma CurrentColumn(t: string, b: nat, start: nat)
    requires IsBoundary(t, b) && At(t, start, Rows.RowStart(t, CharIndex(t, b))) && start <= b
    ensures |Slice(t, start, b)| == Rows.Column(t, CharIndex(t, b))
  {
    hide Rows.RowStart, IsBoundary;
  }

  /** Landing `column` bytes into the target row is what `Vertical` says. */
  lemma VerticalTarget(t: string, b: nat, delta: int, targetRow: nat, start: nat, column: nat)
    requires IsBoundary(t, b) && (delta == 1 || delta == -1)
    requires var rows := Rows.Split(t);
             var row := Rows.RowIndex(t, CharIndex(t, b));
             && targetRow < |rows| && targetRow != row
             && targetRow == (if row + delta < 0 then 0 else Min(row + delta, |rows| - 1))
             && At(t, start, Rows.RowOffset(rows, targetRow))
             && At(rows[targetRow], column, Min(Rows.Column(t, CharIndex(t, b)), |rows[targetRow]|))
    ensures At(t, column + start, M.Vertical(t, CharIndex(t, b), delta))
  {
    hide Rows.Split, Rows.RowOffset, Rows.RowStart, Rows.FlatBetween, ByteLen, IsBoundary, At, CharIndex;
    var rows := Rows.Split(t);
    var s := Rows.RowOffset(rows, targetRow);
    Rows.RowSlice(t, targetRow);
    AtInside(t, start, s, s + |rows[targetRow]|, column,
             Min(Rows.Column(t, CharIndex(t, b)), |rows[targetRow]|));
  }

  lemma CurrentRowStart(t: string, b: nat, starts: seq<nat>)
    requires IsBoundary(t, b) && |starts| == |Rows.Split(t)|
    requires forall r :: 0 <= r < |starts| ==> At(t, starts[r], Rows.RowOffset(Rows.Split(t), r))
    ensures RowOf(t, b) == Rows.RowIndex(t, CharIndex(t, b)) < |starts|
    ensures At(t, starts[RowOf(t, b)], Rows.RowStart(t, CharIndex(t, b))) && starts[RowOf(t, b)] <= b
  {
    IsAt(t, b);
    hide Rows.Split, Rows.RowOffset, Rows.FlatBetween, ByteLen, IsBoundary, At, CharIndex;
    var k := CharIndex(t, b);
    Rows.RowStartIsRowOffset(t, k);
    AtOrdered(t, starts[RowOf(t, b)], Rows.RowStart(t, k), b, k);
  }

  lemma NextStartPositive(t: string, b: nat, r: nat)
    requires r + 1 < |Rows.Split(t)| && At(t, b, Rows.RowOffset(Rows.Split(t), r + 1))
    ensures b > 0
  {
    hide Rows.Split;
    Rows.NextRowOffset(Rows.Split(t), r);
  }
}
