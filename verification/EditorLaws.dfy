/** What key sequences do to a buffer, stated on its rows, its characters and the history. */
module EditorLaws {
  import opened Numbers
  import opened Options
  import opened Strings
  import opened Rows
  import opened EditorModel

  /** The editor and session after a sequence of keys, none of which ends the line. */
  function Run(e: Editor, s: Session, keys: seq<Key>): (r: (Editor, Session))
    requires Inv(e, s)
    ensures Inv(r.0, r.1)
    decreases |keys|
  {
    if keys == [] then (e, s)
    else
      StepKeepsInv(e, s, keys[0]);
      var (e', s', _) := Step(e, s, keys[0]);
      Run(e', s', keys[1..])
  }

  lemma {:induction false} RunConcat(e: Editor, s: Session, a: seq<Key>, b: seq<Key>)
    requires Inv(e, s)
    ensures var (e', s') := Run(e, s, a); Run(e, s, a + b) == Run(e', s', b)
    decreases |a|
  {
    if a == [] {
      assert a + b == b;
    } else {
      StepKeepsInv(e, s, a[0]);
      var (e', s', _) := Step(e, s, a[0]);
      assert (a + b)[1..] == a[1..] + b;
      RunConcat(e', s', a[1..], b);
    }
  }

  function Press(ch: char): Key {
    Key(Char(ch), false, false)
  }

  function Plainly(code: KeyCode): Key {
    Key(code, false, false)
  }

  /** Waiting for a command: Normal mode, no operator pending. */
  predicate Ready(e: Editor, s: Session) {
    Inv(e, s) && s.mode == Normal && s.pending == None
  }

  // ----- Rows of a buffer after line edits

  /** The text up to the end of a row holds the rows up to and including it. */
  lemma RowsThrough(t: string, k: nat)
    requires k <= |t|
    ensures Split(t[..RowEnd(t, k)]) == RowsBefore(t, k) + [Row(t, k)]
  {
    hide Split, RowStart, CountNewlines;
    var e := RowEnd(t, k);
    SplitAt(t, k);
    if e == |t| {
      assert t[..e] == t;
    } else {
      SplitAtNewline(t, e);
      assert Split(t)[..|Split(t[..e])|] == Split(t[..e]);
    }
  }

  lemma LastRowEmpty(t: string, last: string)
    requires last == Split(t)[|Split(t)| - 1]
    ensures last == "" <==> t == "" || EndsWith(t, "\n")
  {
    hide Split, CountNewlines;
    SplitAt(t, |t|);
    if t != "" {
      assert t[|t| - 1..] == [t[|t| - 1]];
    }
  }

  /** The buffer after linewise paste of `yanked` below the row of `k`. */
  function Pasted(t: string, k: nat, yanked: string): string
    requires k <= |t|
  {
    var at := PasteAt(t, k);
    t[..at] + PasteInsertion(t, at, yanked) + t[at..]
  }

  /** A whole row set between two texts. */
  lemma SplitBetween(pre: string, row: string, post: string)
    requires Flat(row)
    ensures Split(pre + "\n" + (row + "\n" + post)) == Split(pre) + [row] + Split(post)
  {
    hide Split, Flat;
    SplitFlat(row);
    SplitConcat(row, post);
    SplitConcat(pre, row + "\n" + post);
    assert Split(pre) + ([row] + Split(post)) == Split(pre) + [row] + Split(post);
  }

  /** Below a row that has a newline, a newline-ended yank goes in as it is. */
  lemma PasteInside(t: string, k: nat, yanked: string)
    requires k <= |t| && RowEnd(t, k) < |t| && EndsWith(yanked, "\n")
    ensures Pasted(t, k, yanked) == t[..RowEnd(t, k)] + "\n" + (yanked + t[RowEnd(t, k) + 1..])
  {
    hide RowEnd, FlatBetween;
    var e := RowEnd(t, k);
    assert PasteInsertion(t, e + 1, yanked) == yanked by {
      if e + 1 == |t| { assert t[|t| - 1..] == "\n"; }
    }
    assert t[..e + 1] == t[..e] + "\n";
  }

  /** Below a last row that is not empty, a newline goes in first. */
  lemma PasteAtEnd(t: string, k: nat, yanked: string)
    requires k <= |t| && RowEnd(t, k) == |t| && t != ""
    ensures Pasted(t, k, yanked) == if EndsWith(t, "\n") then t + yanked else t + "\n" + yanked
  {
    hide RowEnd, FlatBetween, EndsWith;
    assert t[..|t|] == t && t[|t|..] == "";
  }

  lemma WholeRowText(t: string, k: nat)
    requires k <= |t|
    ensures Flat(Row(t, k))
    ensures WholeRow(t, k) == if RowEnd(t, k) < |t| then Row(t, k) + "\n" else Row(t, k)
  {
    hide RowEnd, RowStart;
  }

  lemma DuplicateInside(t: string, k: nat)
    requires k <= |t| && RowEnd(t, k) < |t|
    ensures Split(Pasted(t, k, Row(t, k) + "\n")) == RowsBefore(t, k) + [Row(t, k)] + [Row(t, k)] + RowsAfter(t, k)
  {
    hide Split, RowStart, RowEnd, RowsBefore, Row, Flat, FlatBetween, Pasted;
    var e, cur := RowEnd(t, k), Row(t, k);
    PasteInside(t, k, cur + "\n");
    assert cur + "\n" + t[e + 1..] == (cur + "\n") + t[e + 1..];
    SplitBetween(t[..e], cur, t[e + 1..]);
    RowsThrough(t, k);
  }

  lemma DuplicateLast(t: string, k: nat)
    requires k <= |t| && RowEnd(t, k) == |t| && Row(t, k) != ""
    ensures Split(Pasted(t, k, Row(t, k))) == Split(t) + [Row(t, k)]
  {
    var cur := Row(t, k);
    assert Flat(cur) && cur == t[RowStart(t, k)..] && !EndsWith(t, "\n") by {
      hide Split, RowStart, RowEnd;
      assert t[|t| - 1] == cur[|cur| - 1];
    }
    hide Split, RowStart, RowEnd, Row, Flat, FlatBetween, Pasted;
    PasteAtEnd(t, k, cur);
    SplitConcat(t, cur);
    SplitFlat(cur);
  }

  /** The rows with row `r` once more right after itself. */
  function Duplicated(rows: seq<string>, r: nat): seq<string>
    requires r < |rows|
  {
    rows[..r + 1] + rows[r..]
  }

  /** Pasting a copy of a row below itself. */
  lemma PasteDuplicates(t: string, k: nat)
    requires k <= |t| && WholeRow(t, k) != ""
    ensures RowIndex(t, k) < |Split(t)|
    ensures Split(Pasted(t, k, WholeRow(t, k))) == Duplicated(Split(t), RowIndex(t, k))
  {
    hide Split, RowStart, RowEnd, RowIndex, RowsBefore, Row, Flat, FlatBetween, Pasted, WholeRow;
    SplitAt(t, k);
    WholeRowText(t, k);
    if RowEnd(t, k) < |t| {
      DuplicateInside(t, k);
    } else {
      DuplicateLast(t, k);
    }
  }

  lemma AfterNewline(t: string, k: nat)
    requires 0 < k <= |t| && t[k - 1] == '\n'
    ensures RowIndex(t, k) == RowIndex(t, k - 1) + 1 && Column(t, k) == 0
  {
    assert t[..k] == t[..k - 1] + "\n";
    CountConcat(t[..k - 1], "\n");
  }

  lemma RowIndexAtEnd(t: string, k: nat)
    requires k <= |t|
    ensures RowIndex(t, RowEnd(t, k)) == RowIndex(t, k)
  {
    hide RowEnd;
    var e := RowEnd(t, k);
    assert t[..e] == t[..k] + t[k..e];
    CountConcat(t[..k], t[k..e]);
    CountFlat(t[k..e]);
  }

  /** Where linewise paste of a row's copy leaves the cursor: at the start of the copy, but one row
      further when the copy is empty. */
  lemma PasteCursor(t: string, k: nat)
    requires k <= |t| && WholeRow(t, k) != ""
    ensures var at := PasteAt(t, k);
            var u := Pasted(t, k, WholeRow(t, k));
            var c := if StartsWith(PasteInsertion(t, at, WholeRow(t, k)), "\n") then at + 1 else at;
            && c <= |u|
            && RowIndex(u, c) == RowIndex(t, k) + (if Row(t, k) == "" then 2 else 1)
            && Column(u, c) == 0
  {
    hide Split, RowStart, RowEnd, RowIndex, Column, Row, Flat, FlatBetween, WholeRow;
    WholeRowText(t, k);
    RowIndexAtEnd(t, k);
    var e, cur := RowEnd(t, k), Row(t, k);
    var u := Pasted(t, k, WholeRow(t, k));
    if e < |t| {
      assert t[e] == '\n' by { EndIsNewline(t, k); }
      assert u[..e] == t[..e] && u[e] == '\n';
      SameRowIndex(t, u, e);
      AfterNewline(u, e + 1);
      assert PasteInsertion(t, e + 1, cur + "\n") == cur + "\n" by {
        if e + 1 == |t| { assert t[|t| - 1..] == "\n"; }
      }
      if cur == "" {
        assert u[e + 1] == '\n';
        AfterNewline(u, e + 2);
      } else {
        assert cur[0] != '\n' by { FlatFirst(t, k); }
      }
    } else {
      assert cur != "" && !EndsWith(t, "\n") && t != "" by { LastRowIsOpen(t, k); }
      assert u[..e] == t[..e] && u[e] == '\n';
      SameRowIndex(t, u, e);
      AfterNewline(u, e + 1);
    }
  }

  lemma SameRowIndex(t: string, u: string, k: nat)
    requires k <= |t| && k <= |u| && t[..k] == u[..k]
    ensures RowIndex(t, k) == RowIndex(u, k)
  {
  }

  lemma EndIsNewline(t: string, k: nat)
    requires k <= |t| && RowEnd(t, k) < |t|
    ensures t[RowEnd(t, k)] == '\n'
  {
  }

  lemma FlatFirst(t: string, k: nat)
    requires k <= |t| && Row(t, k) != ""
    ensures Row(t, k)[0] != '\n' && Row(t, k)[|Row(t, k)| - 1] != '\n'
  {
    hide RowStart, RowEnd;
  }

  lemma LastRowIsOpen(t: string, k: nat)
    requires k <= |t| && RowEnd(t, k) == |t| && WholeRow(t, k) != ""
    ensures Row(t, k) != "" && t != "" && !EndsWith(t, "\n")
  {
    FlatFirst(t, k);
  }

  // ----- dd

  function Deleted(t: string, k: nat): string
    requires k <= |t|
  {
    t[..DeleteStart(t, k)] + t[WholeRowEnd(t, k)..]
  }

  /** The rows left by deleting row `r`: it goes alone, except that a sole row leaves an empty one and
      a row before an empty last row takes that one with it unless it is the first. */
  function RowsWithout(rows: seq<string>, r: nat): seq<string>
    requires r < |rows|
  {
    if |rows| == 1 then [""]
    else if r == |rows| - 2 && r > 0 && rows[r + 1] == "" then rows[..r]
    else rows[..r] + rows[r + 1..]
  }

  lemma DeletedRows(t: string, k: nat)
    requires k <= |t|
    ensures RowIndex(t, k) < |Split(t)|
    ensures Split(Deleted(t, k)) == RowsWithout(Split(t), RowIndex(t, k))
  {
    hide Split, RowIndex, Row, Deleted, RowsBefore, RowsAfter, RowsWithout;
    SplitAt(t, k);
    DeletedParts(t, k);
    RowsWithoutParts(RowsBefore(t, k), Row(t, k), RowsAfter(t, k));
  }

  /** What is left, given the rows before and after the deleted one. */
  function Remaining(before: seq<string>, after: seq<string>): seq<string> {
    if after != [] && after != [""] then before + after
    else if before == [] then [""]
    else before
  }

  lemma RowsWithoutParts(before: seq<string>, row: string, after: seq<string>)
    ensures RowsWithout(before + [row] + after, |before|) == Remaining(before, after)
  {
    var rows := before + [row] + after;
    assert rows[..|before|] == before && rows[|before| + 1..] == after;
    if |after| == 1 {
      assert rows[|before| + 1] == after[0];
    }
  }

  lemma DeletedParts(t: string, k: nat)
    requires k <= |t|
    ensures Split(Deleted(t, k)) == Remaining(RowsBefore(t, k), RowsAfter(t, k))
  {
    if RowEnd(t, k) + 1 < |t| {
      DeletedInside(t, k);
    } else {
      DeletedAtEnd(t, k);
    }
  }

  lemma DeletedInside(t: string, k: nat)
    requires k <= |t| && RowEnd(t, k) + 1 < |t|
    ensures Split(Deleted(t, k)) == Remaining(RowsBefore(t, k), RowsAfter(t, k))
  {
    hide Split, RowStart, RowEnd, Flat, FlatBetween, Deleted;
    DeletedText(t, k);
    RowsAfterInside(t, k);
    if RowStart(t, k) > 0 { SplitConcat(t[..RowStart(t, k) - 1], t[RowEnd(t, k) + 1..]); }
  }

  lemma DeletedAtEnd(t: string, k: nat)
    requires k <= |t| && RowEnd(t, k) + 1 >= |t|
    ensures Split(Deleted(t, k)) == Remaining(RowsBefore(t, k), RowsAfter(t, k))
  {
    hide Split, RowStart, RowEnd, Flat, FlatBetween, Deleted;
    DeletedText(t, k);
    SplitOfEmpty();
    assert RowEnd(t, k) < |t| ==> t[RowEnd(t, k) + 1..] == "";
    if RowStart(t, k) > 0 { SplitNonEmpty(t[..RowStart(t, k) - 1]); }
  }

  lemma SplitOfEmpty()
    ensures Split("") == [""]
  {
  }

  lemma SplitNonEmpty(t: string)
    ensures |Split(t)| > 0
  {
  }

  lemma RowsAfterInside(t: string, k: nat)
    requires k <= |t| && RowEnd(t, k) + 1 < |t|
    ensures RowsAfter(t, k) == Split(t[RowEnd(t, k) + 1..])
    ensures RowsAfter(t, k) != [""] && RowsAfter(t, k) != []
  {
    hide Split, RowEnd;
    JoinSplit(t[RowEnd(t, k) + 1..]);
    SplitOfEmpty();
  }

  lemma DeletedText(t: string, k: nat)
    requires k <= |t|
    ensures var s, e := RowStart(t, k), RowEnd(t, k);
            Deleted(t, k) ==
              if e + 1 < |t| then (if s == 0 then t[e + 1..] else t[..s - 1] + "\n" + t[e + 1..])
              else if s == 0 then "" else t[..s - 1]
  {
    assert RowStart(t, k) > 0 ==> t[RowStart(t, k) - 1] == '\n';
    hide RowStart, RowEnd, FlatBetween;
    var s := RowStart(t, k);
    if s > 0 { assert t[..s] == t[..s - 1] + "\n"; }
  }

  /** A row whose deletion reaches the end of the text: the last one, or the one before an empty last one. */
  predicate ReachesEnd(rows: seq<string>, r: nat)
    requires r < |rows|
  {
    r + 1 == |rows| || (r + 2 == |rows| && rows[r + 1] == "")
  }

  lemma ReachesEndExactly(t: string, k: nat)
    requires k <= |t|
    ensures RowIndex(t, k) < |Split(t)|
    ensures ReachesEnd(Split(t), RowIndex(t, k)) <==> WholeRowEnd(t, k) == |t|
  {
    SplitAt(t, k);
    if WholeRowEnd(t, k) == |t| {
      RowsAroundLast(t, k);
    } else {
      RowsAfterInside(t, k);
    }
    hide Split, RowIndex, RowsBefore, RowsAfter, WholeRowEnd, Row;
    var before, after := RowsBefore(t, k), RowsAfter(t, k);
    assert |Split(t)| == |before| + 1 + |after|;
    if after != [] {
      assert Split(t)[|before| + 1] == after[0];
    }
  }

  /** The cursor is left at the start of the row that moved up, or at the end of the row above when the
      deletion reached the end of the text. */
  lemma DeletedCursor(t: string, k: nat)
    requires k <= |t|
    ensures DeleteStart(t, k) <= |Deleted(t, k)| && RowIndex(t, k) < |Split(t)|
    ensures var u, d, r := Deleted(t, k), DeleteStart(t, k), RowIndex(t, k);
            if r > 0 && WholeRowEnd(t, k) == |t|
            then RowIndex(u, d) == r - 1 && Column(u, d) == |Split(t)[r - 1]|
            else RowIndex(u, d) == r && Column(u, d) == 0
  {
    DeleteStartInside(t, k);
    SplitAt(t, k);
    RowIndexAtStart(t, k);
    var u, d, s := Deleted(t, k), DeleteStart(t, k), RowStart(t, k);
    if WholeRowEnd(t, k) == |t| && s > 0 {
      CursorAbove(t, k);
    } else {
      assert u[..d] == t[..s];
      assert d > 0 ==> u[d - 1] == t[s - 1] == '\n';
      SameRowIndex(t, u, d);
      StartColumn(u, d);
    }
  }

  lemma StartColumn(u: string, d: nat)
    requires d <= |u| && (d == 0 || u[d - 1] == '\n')
    ensures Column(u, d) == 0
  {
  }

  lemma CursorAbove(t: string, k: nat)
    requires k <= |t| && WholeRowEnd(t, k) == |t| && RowStart(t, k) > 0
    ensures var u, d, r := Deleted(t, k), DeleteStart(t, k), RowIndex(t, k);
            && d <= |u| && 0 < r < |Split(t)| && RowIndex(u, d) == r - 1 && Column(u, d) == |Split(t)[r - 1]|
  {
    var s := RowStart(t, k);
    var u := t[..s - 1];
    assert Deleted(t, k) == u && DeleteStart(t, k) == |u|;
    SplitAt(t, k);
    SplitAt(u, |u|);
    RowIndexAtStart(t, k);
    assert u[..|u|] == u;
    hide Split, CountNewlines, RowStart;
    assert RowsBefore(t, k) == Split(u);
    assert Split(u)[|Split(u)| - 1] == Row(u, |u|);
  }

  // ----- dd then p

  /** The buffer after `dd` and `p`. */
  function DeletedThenPasted(t: string, k: nat): string
    requires k <= |t|
  {
    var y := WholeRow(t, k);
    if y == "" then Deleted(t, k)
    else
      DeleteStartInside(t, k);
      Pasted(Deleted(t, k), DeleteStart(t, k), y)
  }

  lemma DeleteStartInside(t: string, k: nat)
    requires k <= |t|
    ensures DeleteStart(t, k) <= |Deleted(t, k)|
    ensures WholeRowEnd(t, k) == |t| ==> DeleteStart(t, k) == |Deleted(t, k)|
  {
    hide RowStart, RowEnd;
  }

  /** When `dd` then `p` gives the buffer back. A row that reaches the end of the text comes back when
      it is the first, or when the row above is not empty and there is something to paste; any other
      row changes places with the one below, and is restored only if they are equal and the one
      below is not the last. */
  predicate PasteRestores(rows: seq<string>, r: nat)
    requires r < |rows|
  {
    if r + 1 == |rows| then r == 0 || (rows[r - 1] != "" && rows[r] != "")
    else if r + 2 == |rows| then rows[r + 1] == "" && (r == 0 || rows[r - 1] != "")
    else rows[r] == rows[r + 1]
  }

  /** A row that reaches the end of the text. */
  lemma RestoreAtEnd(t: string, k: nat)
    requires k <= |t| && WholeRowEnd(t, k) == |t|
    ensures var s := RowStart(t, k);
            DeletedThenPasted(t, k) == t <==>
              s == 0 || (t[..s - 1] != "" && !EndsWith(t[..s - 1], "\n") && WholeRow(t, k) != "")
  {
    var s, y := RowStart(t, k), WholeRow(t, k);
    assert s > 0 ==> t[s - 1] == '\n';
    assert RowEnd(Deleted(t, k), DeleteStart(t, k)) == |Deleted(t, k)| by { DeleteStartInside(t, k); }
    hide RowStart, RowEnd, FlatBetween, Pasted;
    assert t == t[..s] + y;
    var u := Deleted(t, k);
    if s == 0 {
      assert u == "" && y == t;
    } else {
      assert u == t[..s - 1] && t == u + "\n" + y;
      if y != "" {
        DeleteStartInside(t, k);
        if u != "" { PasteAtEnd(u, |u|, y); }
      }
    }
  }

  lemma PasteRestoresParts(before: seq<string>, row: string, after: seq<string>)
    ensures PasteRestores(before + [row] + after, |before|) ==
              if after == [] then before == [] || (before[|before| - 1] != "" && row != "")
              else if |after| == 1 then after[0] == "" && (before == [] || before[|before| - 1] != "")
              else row == after[0]
  {
    var rows := before + [row] + after;
    assert rows[|before|] == row;
    if before != [] { assert rows[|before| - 1] == before[|before| - 1]; }
    if after != [] { assert rows[|before| + 1] == after[0]; }
  }

  lemma RestoreLastRow(t: string, k: nat)
    requires k <= |t| && WholeRowEnd(t, k) == |t|
    ensures RowIndex(t, k) < |Split(t)|
    ensures DeletedThenPasted(t, k) == t <==> PasteRestores(Split(t), RowIndex(t, k))
  {
    RestoreAtEnd(t, k);
    RowsAroundLast(t, k);
    hide Split, RowStart, RowEnd, RowIndex, Row, RowsBefore, RowsAfter, FlatBetween, DeletedThenPasted, WholeRow,
         EndsWith, PasteRestores;
    SplitAt(t, k);
    PasteRestoresParts(RowsBefore(t, k), Row(t, k), RowsAfter(t, k));
  }

  lemma RowsAroundLast(t: string, k: nat)
    requires k <= |t| && WholeRowEnd(t, k) == |t|
    ensures var before, after, s := RowsBefore(t, k), RowsAfter(t, k), RowStart(t, k);
            && (before == [] <==> s == 0)
            && (s > 0 ==> (before[|before| - 1] == "" <==> t[..s - 1] == "" || EndsWith(t[..s - 1], "\n")))
            && (if WholeRow(t, k) == "" then after == [] && Row(t, k) == ""
                else (after == [] && Row(t, k) != "") || after == [""])
  {
    SplitOfEmpty();
    var s, e := RowStart(t, k), RowEnd(t, k);
    if s > 0 { LastRowEmpty(t[..s - 1], Split(t[..s - 1])[|Split(t[..s - 1])| - 1]); }
    hide Split, RowStart, RowEnd, FlatBetween, EndsWith;
    if e < |t| { assert t[e + 1..] == ""; }
  }

  lemma FirstRowsEqual(a: string, x: string, b: string, y: string)
    requires Flat(a) && Flat(b) && a + "\n" + x == b + "\n" + y
    ensures a == b
  {
    var u, v := a + "\n" + x, b + "\n" + y;
    assert u[|a|] == '\n' && v[|b|] == '\n';
    assert |a| == |b|;
    assert a == u[..|a|] && b == v[..|b|];
  }

  lemma CutTwice(t: string, i: nat, j: nat)
    requires i <= j <= |t|
    ensures t == t[..i] + (t[i..j] + t[j..])
  {
  }

  lemma InsideParts(t: string, k: nat)
    requires k <= |t| && WholeRowEnd(t, k) < |t|
    ensures var s, rest := RowStart(t, k), t[WholeRowEnd(t, k)..];
            && (s == 0 || t[s - 1] == '\n')
            && WholeRow(t, k) == Row(t, k) + "\n"
            && t == t[..s] + (WholeRow(t, k) + rest)
            && Deleted(t, k) == t[..s] + rest && DeleteStart(t, k) == s
  {
    WholeRowText(t, k);
    CutTwice(t, RowStart(t, k), WholeRowEnd(t, k));
    hide RowEnd, Row, FlatBetween;
  }

  lemma RowEndShift(p: string, rest: string)
    requires p == "" || p[|p| - 1] == '\n'
    ensures RowEnd(p + rest, |p|) == |p| + RowEnd(rest, 0)
    ensures RowEnd(rest, 0) == |rest| && rest != "" ==> !EndsWith(p + rest, "\n")
  {
    var n, u := RowEnd(rest, 0), p + rest;
    RowBoundsUnique(u, |p|, |p|, |p| + n);
    if n == |rest| && rest != "" {
      assert u[|u| - 1] == rest[|rest| - 1];
    }
  }

  /** A pasted row lands below the first row of `rest`. */
  lemma PasteBelowFirst(p: string, rest: string, yanked: string)
    requires p == "" || p[|p| - 1] == '\n'
    requires rest != "" && EndsWith(yanked, "\n")
    ensures var n := RowEnd(rest, 0);
            Pasted(p + rest, |p|, yanked) ==
              if n < |rest| then p + (rest[..n] + "\n" + (yanked + rest[n + 1..]))
              else p + rest + "\n" + yanked
  {
    hide RowStart, RowEnd, FlatBetween, Pasted, EndsWith;
    var n, u := RowEnd(rest, 0), p + rest;
    RowEndShift(p, rest);
    if n < |rest| {
      PasteInside(u, |p|, yanked);
      assert u[..|p| + n] == p + rest[..n] && u[|p| + n + 1..] == rest[n + 1..];
    } else {
      PasteAtEnd(u, |p|, yanked);
    }
  }

  lemma SwapRestores(p: string, cur: string, rest: string, n: nat)
    requires n <= |rest| && Flat(cur) && Flat(rest[..n]) && (n < |rest| ==> rest[n] == '\n')
    ensures var y := cur + "\n";
            var swapped := if n < |rest| then p + (rest[..n] + "\n" + (y + rest[n + 1..]))
                           else p + rest + "\n" + y;
            swapped == p + (y + rest) <==> n < |rest| && cur == rest[..n]
  {
    hide Flat;
    var y := cur + "\n";
    if n < |rest| {
      var x := y + rest[n + 1..];
      var l, r := rest[..n] + "\n" + x, y + rest;
      assert (p + l)[|p|..] == l && (p + r)[|p|..] == r;
      if cur == rest[..n] {
        assert rest == rest[..n] + "\n" + rest[n + 1..];
        assert l == r;
      } else if l == r {
        FirstRowsEqual(rest[..n], x, cur, rest);
      }
    } else {
      assert |p + rest + "\n" + y| == |p + (y + rest)| + 1;
    }
  }

  /** `dd p` on an inner row, as text: the row and the one below trade places. */
  lemma SwappedText(t: string, k: nat)
    requires k <= |t| && WholeRowEnd(t, k) < |t|
    ensures var rest, cur := t[WholeRowEnd(t, k)..], Row(t, k);
            var n := RowEnd(rest, 0);
            DeletedThenPasted(t, k) == t <==> n < |rest| && cur == rest[..n]
  {
    hide RowStart, RowEnd, Row, Flat, FlatBetween, WholeRowEnd, Pasted, DeletedThenPasted;
    DeletePasteParts(t, k);
    NextRows(t, k);
    PasteSwap(t[..RowStart(t, k)], Row(t, k), t[WholeRowEnd(t, k)..]);
  }

  lemma PasteSwap(p: string, cur: string, rest: string)
    requires p == "" || p[|p| - 1] == '\n'
    requires rest != "" && Flat(cur) && Flat(rest[..RowEnd(rest, 0)])
    requires RowEnd(rest, 0) < |rest| ==> rest[RowEnd(rest, 0)] == '\n'
    ensures var n := RowEnd(rest, 0);
            Pasted(p + rest, |p|, cur + "\n") == p + (cur + "\n" + rest) <==> n < |rest| && cur == rest[..n]
  {
    hide RowEnd, Flat, FlatBetween, Pasted, EndsWith;
    EndsWithNewline(cur);
    PasteBelowFirst(p, rest, cur + "\n");
    SwapRestores(p, cur, rest, RowEnd(rest, 0));
  }

  lemma DeletePasteParts(t: string, k: nat)
    requires k <= |t| && WholeRowEnd(t, k) < |t|
    ensures var s, rest, y := RowStart(t, k), t[WholeRowEnd(t, k)..], Row(t, k) + "\n";
            && (t[..s] == "" || t[..s][|t[..s]| - 1] == '\n')
            && t == t[..s] + (y + rest)
            && DeletedThenPasted(t, k) == Pasted(t[..s] + rest, |t[..s]|, y)
            && Flat(Row(t, k))
  {
    hide RowStart, RowEnd, Row, Flat, FlatBetween, WholeRow, WholeRowEnd, Pasted, Deleted, DeleteStart;
    InsideParts(t, k);
    WholeRowText(t, k);
  }

  lemma RestoreInside(t: string, k: nat)
    requires k <= |t| && WholeRowEnd(t, k) < |t|
    ensures RowIndex(t, k) < |Split(t)|
    ensures DeletedThenPasted(t, k) == t <==> PasteRestores(Split(t), RowIndex(t, k))
  {
    hide Split, RowStart, RowEnd, RowIndex, Row, RowsBefore, RowsAfter, Flat, FlatBetween, WholeRow,
         PasteRestores, WholeRowEnd, DeletedThenPasted;
    SwappedText(t, k);
    NextRows(t, k);
    SplitAt(t, k);
    PasteRestoresParts(RowsBefore(t, k), Row(t, k), RowsAfter(t, k));
  }

  lemma EndsWithNewline(row: string)
    ensures EndsWith(row + "\n", "\n")
  {
  }

  lemma NextRows(t: string, k: nat)
    requires k <= |t| && WholeRowEnd(t, k) < |t|
    ensures var rest := t[WholeRowEnd(t, k)..];
            var n := RowEnd(rest, 0);
            && Flat(rest[..n]) && (n < |rest| ==> rest[n] == '\n')
            && RowsAfter(t, k) != [] && RowsAfter(t, k)[0] == rest[..n]
            && (|RowsAfter(t, k)| == 1 <==> n == |rest|)
            && (n == |rest| ==> rest[..n] != "")
  {
    var rest := t[WholeRowEnd(t, k)..];
    assert RowStart(rest, 0) == 0;
    SplitAt(rest, 0);
    WholeRowText(rest, 0);
    assert RowEnd(rest, 0) < |rest| ==> rest[RowEnd(rest, 0)] == '\n';
    hide Split, RowStart, RowEnd, Flat, FlatBetween;
    assert RowsAfter(t, k) == Split(rest);
    if RowEnd(rest, 0) < |rest| { SplitNonEmpty(rest[RowEnd(rest, 0) + 1..]); }
  }

  lemma RestoreExactly(t: string, k: nat)
    requires k <= |t|
    ensures RowIndex(t, k) < |Split(t)|
    ensures DeletedThenPasted(t, k) == t <==> PasteRestores(Split(t), RowIndex(t, k))
  {
    hide Split, RowIndex, PasteRestores, DeletedThenPasted;
    if WholeRowEnd(t, k) < |t| {
      RestoreInside(t, k);
    } else {
      RestoreLastRow(t, k);
    }
  }

  // ----- j and k

  /** `Vertical` in row and column terms: the row is clamped, the column kept as far as it exists. */
  lemma VerticalLands(t: string, k: nat, delta: int)
    requires k <= |t|
    ensures var rows, row := Split(t), RowIndex(t, k);
            var target := if row + delta < 0 then 0 else Min(row + delta, |rows| - 1);
            var k' := Vertical(t, k, delta);
            && k' <= |t| && row < |rows|
            && RowIndex(t, k') == target
            && Column(t, k') == Min(Column(t, k), |rows[target]|)
  {
    hide Split, RowOffset, RowStart, RowEnd, Column, RowIndex;
    RowStartIsRowOffset(t, k);
    SplitAt(t, k);
    ColumnInRow(t, k);
    var rows, row := Split(t), RowIndex(t, k);
    var target := if row + delta < 0 then 0 else Min(row + delta, |rows| - 1);
    PositionRoundTrip(t, target, Min(Column(t, k), |rows[target]|));
  }

  lemma ColumnInRow(t: string, k: nat)
    requires k <= |t|
    ensures Column(t, k) <= |Row(t, k)|
  {
    hide RowStart, RowEnd;
  }

  /** Row and column determine the position. */
  lemma PositionUnique(t: string, j: nat, k: nat)
    requires j <= |t| && k <= |t|
    requires RowIndex(t, j) == RowIndex(t, k) && Column(t, j) == Column(t, k)
    ensures j == k
  {
    hide Split, RowOffset, RowStart;
    RowStartIsRowOffset(t, j);
    RowStartIsRowOffset(t, k);
  }

  /** `j` then `k` comes back exactly when the row below reaches the current column, or there is no
      row but this one. */
  lemma DownUp(t: string, k: nat)
    requires k <= |t|
    ensures Vertical(t, k, 1) <= |t| && RowIndex(t, k) < |Split(t)|
    ensures Vertical(t, Vertical(t, k, 1), -1) == k <==>
              if RowIndex(t, k) + 1 < |Split(t)| then Column(t, k) <= |Split(t)[RowIndex(t, k) + 1]|
              else RowIndex(t, k) == 0
  {
    hide Split, RowOffset, RowStart, RowEnd, Column, RowIndex, Vertical;
    VerticalLands(t, k, 1);
    var k1 := Vertical(t, k, 1);
    VerticalLands(t, k1, -1);
    var k2 := Vertical(t, k1, -1);
    SplitAt(t, k);
    ColumnInRow(t, k);
    if RowIndex(t, k2) == RowIndex(t, k) && Column(t, k2) == Column(t, k) {
      PositionUnique(t, k2, k);
    }
  }
}
