/** Where streaming Markdown may be cut, on whole texts: what a fence marker is, how markers open and close, and
    what blank lines mean. */
module MarkdownFences {
  import opened Options
  import opened Strings
  import opened MarkdownStream

  // ----- Markers

  /** After `n` white-space characters the line goes on with three backticks or three tildes. */
  predicate MarkerAt(line: string, n: nat) {
    && n + 3 <= |line| && (forall i | 0 <= i < n :: IsWhitespace(line[i]))
    && (line[n..n + 3] == "```" || line[n..n + 3] == "~~~")
  }

  ghost predicate IsMarker(line: string) {
    exists n: nat :: MarkerAt(line, n)
  }

  lemma {:induction false} TrimStartAt(s: string) returns (n: nat)
    ensures n <= |s| && TrimStart(s) == s[n..] && forall i | 0 <= i < n :: IsWhitespace(s[i])
    ensures n < |s| ==> !IsWhitespace(s[n])
  {
    hide IsWhitespace;
    if s != "" && IsWhitespace(s[0]) {
      var m := TrimStartAt(s[1..]);
      n := m + 1;
      assert forall i | 0 < i < n :: s[i] == s[1..][i - 1];
    } else {
      n := 0;
    }
  }

  /** A line is a fence marker exactly when after some white space it goes on with three backticks or three
      tildes. */
  lemma MarkerExactly(line: string)
    ensures IsFence(line) <==> IsMarker(line)
  {
    var n := TrimStartAt(line);
    TicksShow();
    hide IsWhitespace;
    var rest := line[n..];
    if IsFence(line) {
      assert rest[..3] == line[n..n + 3];
      assert MarkerAt(line, n);
    }
    if IsMarker(line) {
      var m: nat :| MarkerAt(line, m);
      assert line[m..m + 3][0] == line[m];
      assert m == n;
      assert rest[..3] == line[n..n + 3];
    }
  }

  lemma TicksShow()
    ensures !IsWhitespace('`') && !IsWhitespace('~')
  {
  }

  /** The white-space lines are those that trim to nothing. */
  lemma BlankLine(line: string)
    ensures TrimStart(line) == "" <==> forall i | 0 <= i < |line| :: IsWhitespace(line[i])
  {
    hide IsWhitespace;
    var n := TrimStartAt(line);
  }

  // ----- Texts

  /** One line, with or without its newline. */
  predicate OneLine(line: string) {
    line != "" && '\n' !in line[..|line| - 1]
  }

  predicate Finished(text: string) {
    text == "" || text[|text| - 1] == '\n'
  }

  ghost predicate NoMarkers(text: string) {
    forall l <- LinesOf(text) :: !IsMarker(l)
  }

  predicate IsBlank(line: string) {
    forall i | 0 <= i < |line| :: IsWhitespace(line[i])
  }

  lemma NoFences(text: string)
    requires NoMarkers(text)
    ensures forall i | 0 <= i < |LinesOf(text)| :: !IsFence(LinesOf(text)[i])
  {
    hide IsFence, LinesOf, IsMarker;
    forall i | 0 <= i < |LinesOf(text)| ensures !IsFence(LinesOf(text)[i]) {
      assert LinesOf(text)[i] in LinesOf(text);
      MarkerExactly(LinesOf(text)[i]);
    }
  }

  lemma {:induction false} PlainLinesKeep(a: seq<string>, b: seq<string>)
    requires forall i | 0 <= i < |b| :: !IsFence(b[i])
    ensures FenceAfter(a + b) == FenceAfter(a)
    decreases |b|
  {
    hide IsFence;
    if b == [] {
      assert a + b == a;
    } else {
      var n := |b| - 1;
      assert (a + b)[..|a| + n] == a + b[..n];
      PlainLinesKeep(a, b[..n]);
    }
  }

  lemma NoSafeNoBoundary(s: string)
    requires forall j :: 0 < j <= |LinesOf(s)| ==> !SafeAfter(LinesOf(s), j)
    ensures Boundary(s) == None
  {
    hide LinesOf, SafeAfter;
  }

  lemma LastSafeBoundary(s: string, k: nat)
    requires 0 < k <= |LinesOf(s)| && SafeAfter(LinesOf(s), k)
    requires forall j :: k < j <= |LinesOf(s)| ==> !SafeAfter(LinesOf(s), j)
    ensures Boundary(s) == Some(|Glue(LinesOf(s)[..k])|)
  {
    hide LinesOf, SafeAfter, Glue;
  }

  // ----- Open fences

  /** Inside a fence there is no cut: after a line that opens one, whatever lines follow without a marker. */
  lemma OpenFenceHasNoCut(open: string, text: string)
    requires OneLine(open) && Finished(open) && IsMarker(open) && NoMarkers(text)
    ensures Boundary(open + text) == None
    ensures FenceAfter(LinesOf(open + text))
  {
    hide IsMarker, IsFence, LinesOf, FenceAfter, SafeAfter, Boundary;
    MarkerExactly(open);
    NoFences(text);
    LineAlone(open);
    LinesConcat(open, text);
    var lines, rest := LinesOf(open + text), LinesOf(text);
    assert lines == [open] + rest;
    FenceOne(open);
    PlainLinesKeep([open], rest);
    forall j | 0 < j <= |lines| ensures !SafeAfter(lines, j) {
      if j == 1 {
        OpeningIsNoCut(lines);
      } else {
        assert lines[..j - 1] == [open] + rest[..j - 2];
        PlainLinesKeep([open], rest[..j - 2]);
        InsideIsNoCut(lines, j);
      }
    }
    NoSafeNoBoundary(open + text);
  }

  lemma OpeningIsNoCut(lines: seq<string>)
    requires lines != [] && IsFence(lines[0])
    ensures !SafeAfter(lines, 1)
  {
    hide IsFence;
    NoFence();
    assert lines[..0] == [];
  }

  lemma InsideIsNoCut(lines: seq<string>, j: nat)
    requires 0 < j <= |lines| && FenceAfter(lines[..j - 1]) && !IsFence(lines[j - 1])
    ensures !SafeAfter(lines, j)
  {
    hide IsFence, FenceAfter;
  }

  /** A marker line closes the fence, whichever of the two markers opened it, and the text may be cut after it. */
  lemma ClosedFenceIsCut(open: string, text: string, close: string)
    requires OneLine(open) && Finished(open) && IsMarker(open) && NoMarkers(text) && Finished(text)
    requires OneLine(close) && IsMarker(close)
    ensures Boundary(open + text + close) == Some(|open + text + close|)
    ensures !FenceAfter(LinesOf(open + text + close))
  {
    hide IsMarker, IsFence, LinesOf, FenceAfter, SafeAfter, Boundary, Glue;
    MarkerExactly(close);
    OpenFenceHasNoCut(open, text);
    LineAlone(close);
    FinishedTogether(open, text);
    LinesConcat(open + text, close);
    var all := open + text + close;
    var lines, n := LinesOf(all), |LinesOf(open + text)|;
    assert lines == LinesOf(open + text) + [close] && lines[..n] == LinesOf(open + text);
    ClosingIsCut(lines);
    LastSafeBoundary(all, n + 1);
    GlueLines(all);
    assert lines[..n + 1] == lines;
    FenceOne(close);
    FenceConcat(LinesOf(open + text), [close]);
  }

  lemma FinishedTogether(a: string, b: string)
    requires a != "" && Finished(a) && Finished(b)
    ensures Finished(a + b)
  {
  }

  lemma ClosingIsCut(lines: seq<string>)
    requires lines != [] && FenceAfter(lines[..|lines| - 1]) && IsFence(lines[|lines| - 1])
    ensures SafeAfter(lines, |lines|)
  {
    hide IsFence, FenceAfter;
  }

  // ----- Blank lines

  /** A text without markers is cut after its last blank line. */
  lemma CutAfterBlank(before: string, blank: string, after: string)
    requires NoMarkers(before) && Finished(before) && OneLine(blank) && IsBlank(blank)
    requires Finished(blank) || after == ""
    requires NoMarkers(after) && forall l <- LinesOf(after) :: !IsBlank(l)
    ensures Boundary(before + blank + after) == Some(|before + blank|)
  {
    hide IsMarker, IsFence, LinesOf, FenceAfter, SafeAfter, Boundary, Glue, IsBlank;
    NoFences(before);
    NoFences(after);
    BlankIsNoFence(blank);
    LineAlone(blank);
    LinesConcat(before, blank);
    var k := |LinesOf(before)| + 1;
    assert LinesOf(before + blank) == LinesOf(before) + [blank];
    BlankJoin(before, blank, after);
    var all := before + blank + after;
    var lines := LinesOf(all);
    assert lines == LinesOf(before) + [blank] + LinesOf(after);
    assert lines[..k - 1] == LinesOf(before) && lines[k - 1] == blank && lines[..k] == LinesOf(before + blank);
    NoFence();
    PlainLinesKeep([], LinesOf(before));
    assert [] + LinesOf(before) == LinesOf(before);
    BlankIsCut(lines, k);
    forall j | k < j <= |lines| ensures !SafeAfter(lines, j) {
      var rest := LinesOf(after);
      assert lines[j - 1] == rest[j - 1 - k] && rest[j - 1 - k] in rest;
      TextIsNoCut(lines, j);
    }
    LastSafeBoundary(all, k);
    GlueLines(before + blank);
  }

  lemma BlankIsNoFence(blank: string)
    requires IsBlank(blank)
    ensures TrimStart(blank) == "" && !IsFence(blank)
  {
    hide IsWhitespace;
    BlankLine(blank);
  }

  lemma BlankJoin(before: string, blank: string, after: string)
    requires blank != "" && (Finished(blank) || after == "")
    ensures LinesOf(before + blank + after) == LinesOf(before + blank) + LinesOf(after)
  {
    hide LinesOf;
    if after == "" {
      NoLines();
      assert before + blank + after == before + blank;
    } else {
      LinesConcat(before + blank, after);
    }
  }

  lemma BlankIsCut(lines: seq<string>, k: nat)
    requires 0 < k <= |lines| && !FenceAfter(lines[..k - 1]) && TrimStart(lines[k - 1]) == "" && !IsFence(lines[k - 1])
    ensures SafeAfter(lines, k)
  {
    hide IsFence, FenceAfter;
  }

  lemma TextIsNoCut(lines: seq<string>, j: nat)
    requires 0 < j <= |lines| && !IsFence(lines[j - 1]) && !IsBlank(lines[j - 1])
    ensures !SafeAfter(lines, j)
  {
    BlankLine(lines[j - 1]);
    hide IsFence, FenceAfter, IsWhitespace;
  }

  /** Without markers and blank lines there is nothing to cut after. */
  lemma NoBlankNoCut(text: string)
    requires NoMarkers(text) && forall l <- LinesOf(text) :: !IsBlank(l)
    ensures Boundary(text) == None
  {
    hide IsMarker, IsFence, LinesOf, FenceAfter, SafeAfter, Boundary, IsBlank;
    NoFences(text);
    var lines := LinesOf(text);
    forall j | 0 < j <= |lines| ensures !SafeAfter(lines, j) {
      assert lines[j - 1] in lines;
      TextIsNoCut(lines, j);
    }
    NoSafeNoBoundary(text);
  }

  /** After whole lines that leave no fence open, a text is cut where it would be cut on its own. */
  lemma CutAfterWholeLines(before: string, text: string)
    requires Finished(before) && !FenceAfter(LinesOf(before)) && Boundary(text).Some?
    ensures Boundary(before + text) == Some(|before| + Boundary(text).value)
  {
    hide LinesOf, FenceAfter, SafeAfter, Glue, Boundary;
    LinesConcat(before, text);
    var a, b := LinesOf(before), LinesOf(text);
    var k := BoundaryLine(text);
    var lines := LinesOf(before + text);
    SafeMoves(a, b, k);
    forall j | |a| + k < j <= |lines| ensures !SafeAfter(lines, j) {
      SafeMoves(a, b, j - |a|);
    }
    LastSafeBoundary(before + text, |a| + k);
    FirstOfBoth(a, b, k);
    GlueConcat(a, b[..k]);
    GlueLines(before);
  }

  lemma FirstOfBoth(a: seq<string>, b: seq<string>, k: nat)
    requires k <= |b|
    ensures (a + b)[..|a| + k] == a + b[..k]
  {
  }

  lemma BoundaryLine(text: string) returns (k: nat)
    requires Boundary(text).Some?
    ensures 0 < k <= |LinesOf(text)| && SafeAfter(LinesOf(text), k)
    ensures forall j :: k < j <= |LinesOf(text)| ==> !SafeAfter(LinesOf(text), j)
    ensures Boundary(text).value == |Glue(LinesOf(text)[..k])|
  {
    hide LinesOf, SafeAfter, Glue;
    k := LastSafe(LinesOf(text), |LinesOf(text)|);
  }

  lemma SafeMoves(a: seq<string>, b: seq<string>, k: nat)
    requires 0 < k <= |b| && !FenceAfter(a)
    ensures SafeAfter(a + b, |a| + k) <==> SafeAfter(b, k)
  {
    hide FenceAfter;
    FenceConcat(a, b[..k - 1]);
    assert (a + b)[..|a| + k - 1] == a + b[..k - 1];
  }
}
