/** Streaming Markdown: text is held back until a place where cutting cannot fall inside a code
    fence. */
module MarkdownStream {
  import opened Options
  import opened Strings
  import Utf8Text

  // ----- Lines and fences

  /** The length of the first line with its newline, if it has one. */
  function FirstLine(s: string): (n: nat)
    requires s != ""
    ensures 0 < n <= |s| && (forall i :: 0 <= i < n - 1 ==> s[i] != '\n') && (n < |s| ==> s[n - 1] == '\n')
  {
    if s[0] == '\n' || |s| == 1 then 1 else 1 + FirstLine(s[1..])
  }

  /** `split_inclusive('\n')`. */
  function LinesOf(s: string): seq<string> {
    if s == "" then [] else [s[..FirstLine(s)]] + LinesOf(s[FirstLine(s)..])
  }

  predicate IsFence(line: string) {
    StartsWith(TrimStart(line), "```") || StartsWith(TrimStart(line), "~~~")
  }

  /** Whether the scan is inside a fence after a line. */
  predicate FenceStep(inFence: bool, line: string) {
    if IsFence(line) then !inFence else inFence
  }

  predicate FenceAfter(lines: seq<string>) {
    lines != [] && FenceStep(FenceAfter(lines[..|lines| - 1]), lines[|lines| - 1])
  }

  /** A cut right after this line is safe: it closes a fence, or it is blank outside any fence. */
  predicate SafeLine(inFence: bool, line: string) {
    if IsFence(line) then inFence else !inFence && TrimStart(line) == ""
  }

  /** A cut after the first `k` lines is safe. */
  predicate SafeAfter(lines: seq<string>, k: nat) {
    0 < k <= |lines| && SafeLine(FenceAfter(lines[..k - 1]), lines[k - 1])
  }

  function Glue(lines: seq<string>): string {
    if lines == [] then "" else Glue(lines[..|lines| - 1]) + lines[|lines| - 1]
  }

  /** A cut after `n` characters is safe: it falls after `k` lines where a cut is safe. */
  predicate SafeCutAt(s: string, n: nat, k: nat) {
    SafeAfter(LinesOf(s), k) && n == |Glue(LinesOf(s)[..k])|
  }

  ghost predicate SafeCut(s: string, n: nat) {
    exists k: nat :: SafeCutAt(s, n, k)
  }

  lemma GlueNext(lines: seq<string>, line: string)
    ensures Glue(lines + [line]) == Glue(lines) + line
  {
    assert (lines + [line])[..|lines|] == lines;
  }

  lemma {:induction false} GlueConcat(a: seq<string>, b: seq<string>)
    ensures Glue(a + b) == Glue(a) + Glue(b)
    decreases |b|
  {
    hide Glue;
    if b == [] {
      EmptyGlue(b);
      assert a + b == a;
    } else {
      var front, last := b[..|b| - 1], b[|b| - 1];
      GlueConcat(a, front);
      GlueNext(front, last);
      GlueNext(a + front, last);
      assert front + [last] == b && a + front + [last] == a + b;
    }
  }

  lemma {:induction false} GlueLines(s: string)
    ensures Glue(LinesOf(s)) == s
    ensures forall i :: 0 <= i < |LinesOf(s)| ==> LinesOf(s)[i] != ""
    decreases |s|
  {
    hide Glue;
    if s == "" {
      EmptyGlue(LinesOf(s));
    } else {
      var first, rest := s[..FirstLine(s)], s[FirstLine(s)..];
      GlueLines(rest);
      GlueConcat([first], LinesOf(rest));
      GlueOne(first);
      assert s == first + rest;
    }
  }

  lemma GlueOne(line: string)
    ensures Glue([line]) == line
  {
  }

  lemma GluePrefix(s: string, k: nat)
    requires k <= |LinesOf(s)|
    ensures Glue(LinesOf(s)[..k]) + Glue(LinesOf(s)[k..]) == s
    ensures |Glue(LinesOf(s)[..k])| <= |s| && s[..|Glue(LinesOf(s)[..k])|] == Glue(LinesOf(s)[..k])
  {
    GlueLines(s);
    assert LinesOf(s) == LinesOf(s)[..k] + LinesOf(s)[k..];
    GlueConcat(LinesOf(s)[..k], LinesOf(s)[k..]);
  }

  /** Later cuts are longer. */
  lemma {:induction false} GlueGrows(lines: seq<string>, j: nat, k: nat)
    requires j <= k <= |lines| && forall i :: 0 <= i < |lines| ==> lines[i] != ""
    ensures j < k <==> |Glue(lines[..j])| < |Glue(lines[..k])|
    ensures j == k <==> |Glue(lines[..j])| == |Glue(lines[..k])|
    decreases k - j
  {
    if j < k {
      assert lines[..k][..k - 1] == lines[..k - 1];
      GlueGrows(lines, j, k - 1);
    }
  }

  // ----- The cut

  /** The number of lines before the last safe cut, zero when there is none. */
  function LastSafe(lines: seq<string>, upTo: nat): (k: nat)
    requires upTo <= |lines|
    ensures k <= upTo
    ensures k > 0 ==> SafeAfter(lines, k)
    ensures forall j :: k < j <= upTo ==> !SafeAfter(lines, j)
  {
    if upTo == 0 then 0 else if SafeAfter(lines, upTo) then upTo else LastSafe(lines, upTo - 1)
  }

  /** Where the stream may be cut, counted in characters. */
  function Boundary(s: string): Option<nat> {
    var lines := LinesOf(s);
    var k := LastSafe(lines, |lines|);
    if k == 0 then None else Some(|Glue(lines[..k])|)
  }

  /** What one more line does to the scan. */
  lemma ScanStep(lines: seq<string>, i: nat)
    requires i < |lines|
    ensures FenceAfter(lines[..i + 1]) == FenceStep(FenceAfter(lines[..i]), lines[i])
    ensures Utf8Text.ByteLen(Glue(lines[..i + 1])) == Utf8Text.ByteLen(Glue(lines[..i])) + Utf8Text.ByteLen(lines[i])
    ensures LastSafe(lines, i + 1) == if SafeLine(FenceAfter(lines[..i]), lines[i]) then i + 1 else LastSafe(lines, i)
  {
    assert lines[..i + 1][..i] == lines[..i];
    Utf8Text.ByteLenConcat(Glue(lines[..i]), lines[i]);
  }

  /** The boundary as the byte offset that the text is sliced at. */
  method FindStreamSafeBoundary(markdown: string) returns (lastBoundary: Option<nat>)
    ensures lastBoundary.Some? <==> Boundary(markdown).Some?
    ensures lastBoundary.Some? ==> Utf8Text.At(markdown, lastBoundary.value, Boundary(markdown).value)
  {
    hide LinesOf, FenceAfter, Glue, LastSafe, TrimStart, Utf8Text.ByteLen, Utf8Text.At;
    var lines := LinesOf(markdown);
    var inFence := false;
    var cursor: nat := 0;
    lastBoundary := None;
    NothingScanned(lines);
    for i := 0 to |lines|
      invariant inFence == FenceAfter(lines[..i]) && cursor == Utf8Text.ByteLen(Glue(lines[..i]))
      invariant lastBoundary == if LastSafe(lines, i) == 0 then None
                                else Some(Utf8Text.ByteLen(Glue(lines[..LastSafe(lines, i)])))
    {
      ScanStep(lines, i);
      var line := lines[i];
      var offset := cursor;
      cursor := cursor + Utf8Text.ByteLen(line);
      var trimmed := TrimStart(line);
      if StartsWith(trimmed, "```") || StartsWith(trimmed, "~~~") {
        inFence := !inFence;
        if !inFence {
          lastBoundary := Some(offset + Utf8Text.ByteLen(line));
        }
        continue;
      }
      if inFence {
        continue;
      }
      if trimmed == "" {
        lastBoundary := Some(offset + Utf8Text.ByteLen(line));
      }
    }
    GluedBytes(markdown, LastSafe(lines, |lines|));
  }

  /** The bytes of the first lines are the byte offset of the character after them. */
  lemma GluedBytes(s: string, k: nat)
    requires k <= |LinesOf(s)|
    ensures Utf8Text.At(s, Utf8Text.ByteLen(Glue(LinesOf(s)[..k])), |Glue(LinesOf(s)[..k])|)
  {
    hide Utf8Text.ByteLen, Utf8Text.At;
    GluePrefix(s, k);
    Utf8Text.OffsetAt(s, |Glue(LinesOf(s)[..k])|);
  }

  lemma NothingScanned(lines: seq<string>)
    ensures !FenceAfter(lines[..0]) && Utf8Text.ByteLen(Glue(lines[..0])) == 0 && LastSafe(lines, 0) == 0
  {
  }

  /** The boundary found is the last safe cut, and there is none when nothing is found. */
  lemma BoundaryIsLastSafeCut(s: string)
    ensures Boundary(s).Some? ==> 0 < Boundary(s).value <= |s| && SafeCut(s, Boundary(s).value)
    ensures forall n: nat :: SafeCut(s, n) ==> Boundary(s).Some? && n <= Boundary(s).value
  {
    hide LinesOf, Glue, SafeAfter;
    var lines := LinesOf(s);
    GlueLines(s);
    var k := LastSafe(lines, |lines|);
    if k > 0 {
      GlueGrows(lines, 0, k);
      assert |Glue(lines[..0])| == 0 by { EmptyGlue(lines[..0]); }
      GluePrefix(s, k);
      assert SafeCutAt(s, Boundary(s).value, k);
    }
    forall n: nat | SafeCut(s, n) ensures k > 0 && n <= |Glue(lines[..k])| {
      var j: nat :| SafeCutAt(s, n, j);
      SafeWithin(lines, j);
      GlueGrows(lines, j, k);
    }
  }

  lemma EmptyGlue(lines: seq<string>)
    requires lines == []
    ensures Glue(lines) == ""
  {
  }

  lemma SafeWithin(lines: seq<string>, j: nat)
    requires SafeAfter(lines, j)
    ensures 0 < j <= |lines|
  {
  }

  // ----- The stream

  class MarkdownStreamState {
    var pending: string

    constructor ()
      ensures pending == ""
    {
      pending := "";
    }

    /** The slice ready for rendering, if any; rendering itself is the caller's. */
    method Push(delta: string) returns (ready: Option<string>)
      modifies this
      ensures (ready, pending) == Pushed(old(pending), delta)
    {
      pending := pending + delta;
      var split := FindStreamSafeBoundary(pending);
      if split.None? {
        return None;
      }
      BoundaryInside(pending);
      ready := Some(Utf8Text.SliceTo(pending, split.value));
      pending := Utf8Text.SliceFrom(pending, split.value);
    }

    method Flush() returns (ready: Option<string>)
      modifies this
      ensures pending == ""
      ensures ready == if Trim(old(pending)) == "" then None else Some(old(pending))
    {
      if Trim(pending) == "" {
        pending := "";
        return None;
      }
      ready := Some(pending);
      pending := "";
    }
  }

  lemma BoundaryInside(s: string)
    ensures Boundary(s).Some? ==> Boundary(s).value <= |s|
  {
    BoundaryIsLastSafeCut(s);
  }

  function Pushed(pending: string, delta: string): (Option<string>, string) {
    var all := pending + delta;
    BoundaryInside(all);
    match Boundary(all)
    case None => (None, all)
    case Some(n) => (Some(all[..n]), all[n..])
  }

  /** All slices cut off by a list of pushes, and what is left pending. */
  function PushAll(pending: string, deltas: seq<string>): (seq<string>, string)
    decreases |deltas|
  {
    if deltas == [] then ([], pending)
    else
      var (ready, rest) := Pushed(pending, deltas[0]);
      var (later, end) := PushAll(rest, deltas[1..]);
      ((if ready.Some? then [ready.value] else []) + later, end)
  }

  /** Nothing is lost, invented or reordered: slices and pending text make up what was pushed. */
  lemma {:induction false} PushesConserveText(pending: string, deltas: seq<string>)
    ensures var (slices, end) := PushAll(pending, deltas); Glue(slices) + end == pending + Glue(deltas)
    decreases |deltas|
  {
    hide Glue, Pushed, PushAll;
    if deltas == [] {
      EmptyGlue(deltas);
      NothingPushed(pending);
    } else {
      PushAllStep(pending, deltas);
      PushSplits(pending, deltas[0]);
      var (ready, rest) := Pushed(pending, deltas[0]);
      var (later, end) := PushAll(rest, deltas[1..]);
      PushesConserveText(rest, deltas[1..]);
      assert deltas == [deltas[0]] + deltas[1..];
      GlueFirst(deltas[0], deltas[1..], end);
      if ready.Some? {
        GlueFirst(ready.value, later, end);
      }
      assert "" + (rest + Glue(deltas[1..])) == rest + Glue(deltas[1..]);
      Shifted(if ready.Some? then ready.value else "", rest, pending, deltas[0], Glue(deltas[1..]));
    }
  }

  lemma PushSplits(pending: string, delta: string)
    ensures var (ready, rest) := Pushed(pending, delta);
            (if ready.Some? then ready.value else "") + rest == pending + delta
  {
    hide Boundary;
    BoundaryInside(pending + delta);
  }

  lemma Shifted(ready: string, rest: string, pending: string, delta: string, more: string)
    requires ready + rest == pending + delta
    ensures ready + (rest + more) == pending + (delta + more)
  {
    assert ready + (rest + more) == ready + rest + more;
    assert pending + (delta + more) == pending + delta + more;
  }

  /** A text that ends with a newline has its lines to itself. */
  lemma {:induction false} LinesConcat(a: string, b: string)
    requires a == "" || a[|a| - 1] == '\n'
    ensures LinesOf(a + b) == LinesOf(a) + LinesOf(b)
    decreases |a|
  {
    hide LinesOf;
    if a == "" {
      NoLines();
      assert a + b == b;
    } else {
      var n := FirstLine(a);
      FirstLineIs(a + b, n);
      LinesStep(a);
      LinesStep(a + b);
      assert (a + b)[..n] == a[..n] && (a + b)[n..] == a[n..] + b;
      LinesConcat(a[n..], b);
      assert [a[..n]] + (LinesOf(a[n..]) + LinesOf(b)) == [a[..n]] + LinesOf(a[n..]) + LinesOf(b);
    }
  }

  lemma {:induction false} FirstLineIs(s: string, n: nat)
    requires 0 < n <= |s| && (forall i :: 0 <= i < n - 1 ==> s[i] != '\n') && (n < |s| ==> s[n - 1] == '\n')
    requires s[n - 1] == '\n' || n == |s|
    ensures FirstLine(s) == n
  {
    var m := FirstLine(s);
  }

  /** The line structure of a text is that of its two parts exactly when one is empty or the first ends
      with a newline. */
  lemma LinesSplitExactly(a: string, b: string)
    ensures LinesOf(a + b) == LinesOf(a) + LinesOf(b) <==> a == "" || b == "" || a[|a| - 1] == '\n'
  {
    if a == "" || a[|a| - 1] == '\n' {
      LinesConcat(a, b);
    } else if b == "" {
      assert a + b == a;
      assert LinesOf(a) + [] == LinesOf(a);
    } else {
      OpenLineMerges(a, b);
    }
  }

  /** An unfinished last line goes on in the next part, so the parts count one line too many. */
  lemma {:induction false} OpenLineMerges(a: string, b: string)
    requires a != "" && b != "" && a[|a| - 1] != '\n'
    ensures |LinesOf(a + b)| == |LinesOf(a)| + |LinesOf(b)| - 1
    decreases |a|
  {
    hide LinesOf;
    var n := FirstLine(a);
    if n < |a| {
      FirstLineIs(a + b, n);
      CountStep(a, n, a[n..]);
      CountStep(a + b, n, a[n..] + b);
      OpenLineMerges(a[n..], b);
    } else {
      OpenLineAlone(a, b);
    }
  }

  lemma CountStep(s: string, n: nat, rest: string)
    requires s != "" && FirstLine(s) == n && rest == s[n..]
    ensures |LinesOf(s)| == 1 + |LinesOf(rest)|
  {
  }

  lemma OpenLineAlone(a: string, b: string)
    requires a != "" && b != "" && a[|a| - 1] != '\n' && FirstLine(a) == |a|
    ensures |LinesOf(a)| == 1 && |LinesOf(a + b)| == |LinesOf(b)|
  {
    hide LinesOf;
    var m := FirstLine(b);
    FirstLineIs(a + b, |a| + m);
    CountStep(a + b, |a| + m, b[m..]);
    CountStep(b, m, b[m..]);
    CountStep(a, |a|, "");
    NoLines();
  }

  lemma LinesStep(s: string)
    requires s != ""
    ensures LinesOf(s) == [s[..FirstLine(s)]] + LinesOf(s[FirstLine(s)..])
  {
  }

  lemma NoLines()
    ensures LinesOf("") == []
  {
  }

  // ----- Slices and fences

  lemma FirstLineAlone(s: string)
    requires s != ""
    ensures LinesOf(s[..FirstLine(s)]) == [s[..FirstLine(s)]]
  {
    var f := s[..FirstLine(s)];
    FirstLineIs(f, |f|);
    assert f[..|f|] == f && f[|f|..] == "";
  }

  /** Cutting a text after its first `k` lines cuts its line list there. */
  ghost predicate CutsAfter(s: string, k: nat)
    requires k <= |LinesOf(s)|
  {
    var n := |Glue(LinesOf(s)[..k])|;
    n <= |s| && LinesOf(s[..n]) == LinesOf(s)[..k] && LinesOf(s[n..]) == LinesOf(s)[k..]
  }

  lemma {:induction false} CutBetweenLines(s: string, k: nat)
    requires k <= |LinesOf(s)|
    ensures CutsAfter(s, k)
    decreases k
  {
    hide LinesOf, Glue, CutsAfter;
    if k == 0 {
      CutAtStart(s);
    } else {
      NoLines();
      LinesStep(s);
      FirstLineAlone(s);
      var f, r := s[..FirstLine(s)], s[FirstLine(s)..];
      CutBetweenLines(r, k - 1);
      assert s == f + r;
      CutStep(f, r, k - 1);
    }
  }

  lemma CutAtStart(s: string)
    ensures CutsAfter(s, 0)
  {
    hide LinesOf, Glue;
    EmptyGlue(LinesOf(s)[..0]);
    NoLines();
    assert s[..0] == "" && s[0..] == s;
  }

  lemma CutStep(f: string, r: string, j: nat)
    requires f != "" && LinesOf(f) == [f] && (r == "" || f[|f| - 1] == '\n')
    requires j <= |LinesOf(r)| && CutsAfter(r, j)
    ensures LinesOf(f + r) == [f] + LinesOf(r) && CutsAfter(f + r, j + 1)
  {
    hide LinesOf, Glue;
    var lines := LinesOf(r);
    var m := |Glue(lines[..j])|;
    LinesAfterFirst(f, r);
    LinesAfterFirst(f, r[..m]);
    Advanced(f, lines, j);
    assert LinesOf(f + r)[..j + 1] == [f] + lines[..j];
    assert (f + r)[..|f| + m] == f + r[..m] && (f + r)[|f| + m..] == r[m..];
  }

  lemma LinesAfterFirst(f: string, r: string)
    requires f != "" && LinesOf(f) == [f] && (r == "" || f[|f| - 1] == '\n')
    ensures LinesOf(f + r) == [f] + LinesOf(r)
  {
    hide LinesOf;
    if r == "" {
      NoLines();
      assert f + r == f;
    } else {
      LinesConcat(f, r);
    }
  }

  lemma Advanced(f: string, lines: seq<string>, j: nat)
    requires j <= |lines|
    ensures |Glue([f] + lines[..j])| == |f| + |Glue(lines[..j])|
    ensures ([f] + lines)[j + 1..] == lines[j..]
  {
    hide Glue;
    GlueConcat([f], lines[..j]);
    GlueOne(f);
  }

  /** Fences toggle, so the states of two parts combine as parities. */
  lemma {:induction false} FenceConcat(a: seq<string>, b: seq<string>)
    ensures FenceAfter(a + b) == (FenceAfter(a) != FenceAfter(b))
    decreases |b|
  {
    if b == [] {
      assert a + b == a;
    } else {
      var n := |b| - 1;
      assert (a + b)[..|a + b| - 1] == a + b[..n];
      FenceConcat(a, b[..n]);
    }
  }

  lemma SafeEndsOutside(lines: seq<string>, k: nat)
    requires SafeAfter(lines, k)
    ensures 0 < k <= |lines| && !FenceAfter(lines[..k]) && SafeAfter(lines[..k], k)
  {
    assert lines[..k][..k - 1] == lines[..k - 1];
  }

  /** A slice scanned on its own starts and ends outside any fence. */
  lemma SliceEndsOutside(pending: string, delta: string)
    ensures var ready := Pushed(pending, delta).0;
            ready.Some? ==> ready.value != "" && !FenceAfter(LinesOf(ready.value))
  {
    var all := pending + delta;
    BoundaryIsLastSafeCut(all);
    hide LinesOf, Glue, SafeAfter;
    var k := LastSafe(LinesOf(all), |LinesOf(all)|);
    if k > 0 {
      CutBetweenLines(all, k);
      SafeEndsOutside(LinesOf(all), k);
    }
  }

  /** The end of a slice is a safe cut of the slice itself. */
  lemma SliceIsSafe(pending: string, delta: string)
    ensures var ready := Pushed(pending, delta).0;
            ready.Some? ==> SafeAfter(LinesOf(ready.value), |LinesOf(ready.value)|)
  {
    var all := pending + delta;
    BoundaryIsLastSafeCut(all);
    hide LinesOf, Glue, SafeAfter;
    var k := LastSafe(LinesOf(all), |LinesOf(all)|);
    if k > 0 {
      CutBetweenLines(all, k);
      SafeEndsOutside(LinesOf(all), k);
    }
  }

  /** What stays pending offers no cut: each push goes as far as it can. */
  lemma PushLeavesNoCut(pending: string, delta: string)
    ensures Boundary(Pushed(pending, delta).1) == None
  {
    var all := pending + delta;
    hide LinesOf, Glue, SafeAfter;
    var lines := LinesOf(all);
    var k := LastSafe(lines, |lines|);
    if k > 0 {
      CutBetweenLines(all, k);
      SafeEndsOutside(lines, k);
      var rest := lines[k..];
      var j := LastSafe(rest, |rest|);
      if j > 0 {
        SafeShift(lines, k, j);
      }
    }
  }

  lemma SafeShift(lines: seq<string>, k: nat, j: nat)
    requires k <= |lines| && !FenceAfter(lines[..k]) && SafeAfter(lines[k..], j)
    ensures 0 < j <= |lines| - k && SafeAfter(lines, k + j)
  {
    hide FenceAfter;
    Through(lines, k, j - 1);
    FenceConcat(lines[..k], lines[k..][..j - 1]);
    assert lines[k..][j - 1] == lines[k + j - 1];
  }

  lemma Through<T>(s: seq<T>, k: nat, j: nat)
    requires k + j <= |s|
    ensures s[..k + j] == s[..k] + s[k..][..j]
  {
  }

  /** The slice ends with a fence marker that has no newline yet, and the text after it starts with one. */
  predicate Joins(slice: string, after: string) {
    && slice != "" && slice[|slice| - 1] != '\n' && after != ""
    && LinesOf(slice) != [] && IsFence(LinesOf(slice)[|LinesOf(slice)| - 1])
    && LinesOf(after) != [] && IsFence(LinesOf(after)[0])
  }

  /** How many slices join with the text after them. */
  function JoinCount(slices: seq<string>, end: string): nat {
    if slices == [] then 0
    else (if Joins(slices[0], Glue(slices[1..]) + end) then 1 else 0) + JoinCount(slices[1..], end)
  }

  /** Scanning only the pending text tells whether the whole document so far ends inside a fence exactly
      when an even number of slices join with the text after them. */
  lemma {:induction false} FenceOfWholeDocumentExactly(pending: string, deltas: seq<string>)
    ensures var (slices, end) := PushAll(pending, deltas);
            FenceAfter(LinesOf(Glue(slices) + end)) == FenceAfter(LinesOf(end)) <==> JoinCount(slices, end) % 2 == 0
    decreases |deltas|
  {
    hide LinesOf, Pushed, PushAll, FenceAfter, Glue, Joins, JoinCount, SafeAfter;
    if deltas == [] {
      EmptyGlue([]);
      NothingPushed(pending);
      NothingJoins(pending);
      assert "" + pending == pending;
    } else {
      var (ready, rest) := Pushed(pending, deltas[0]);
      var (later, end) := PushAll(rest, deltas[1..]);
      PushAllStep(pending, deltas);
      FenceOfWholeDocumentExactly(rest, deltas[1..]);
      if ready.Some? {
        SliceEndsOutside(pending, deltas[0]);
        SliceIsSafe(pending, deltas[0]);
        CutJoins(ready.value, Glue(later) + end);
        GlueFirst(ready.value, later, end);
        OneMoreJoin(ready.value, later, end);
      }
    }
  }

  lemma NothingJoins(end: string)
    ensures JoinCount([], end) == 0
  {
  }

  lemma OneMoreJoin(slice: string, later: seq<string>, end: string)
    ensures JoinCount([slice] + later, end) ==
              (if Joins(slice, Glue(later) + end) then 1 else 0) + JoinCount(later, end)
  {
    hide Joins, Glue;
    assert ([slice] + later)[1..] == later;
  }

  lemma CutJoins(slice: string, after: string)
    requires slice != "" && SafeAfter(LinesOf(slice), |LinesOf(slice)|)
    ensures FenceAfter(LinesOf(slice + after)) == FenceAfter(LinesOf(after)) <==> !Joins(slice, after)
  {
    CutIsHarmlessExactly(slice, after);
    hide FenceAfter, IsFence;
  }

  /** As long as every slice ends with a newline, scanning only the pending text tells whether the whole
      document so far ends inside a fence. */
  lemma FenceOfWholeDocument(pending: string, deltas: seq<string>)
    requires forall slice <- PushAll(pending, deltas).0 :: slice != "" && slice[|slice| - 1] == '\n'
    ensures var (slices, end) := PushAll(pending, deltas);
            FenceAfter(LinesOf(Glue(slices) + end)) == FenceAfter(LinesOf(end))
  {
    hide LinesOf, PushAll, FenceAfter, Glue;
    var (slices, end) := PushAll(pending, deltas);
    FenceOfWholeDocumentExactly(pending, deltas);
    FinishedJoinNothing(slices, end);
  }

  lemma {:induction false} FinishedJoinNothing(slices: seq<string>, end: string)
    requires forall slice <- slices :: slice != "" && slice[|slice| - 1] == '\n'
    ensures JoinCount(slices, end) == 0
  {
    hide LinesOf, Glue;
    if slices != [] {
      FinishedJoinNothing(slices[1..], end);
    }
  }

  /** A fence marker of six characters that comes in two halves: the first half closes the fence and is cut
      off, and the second, alone, looks as if it opened another. */
  function HalvedFence(): seq<string> {
    ["```\n```", "```\n"]
  }

  lemma HalvedFenceMisleads()
    ensures var (slices, end) := PushAll("", HalvedFence());
            && slices == ["```\n```"] && end == "```\n"
            && FenceAfter(LinesOf(end)) && !FenceAfter(LinesOf(Glue(slices) + end))
  {
    var slice, end := "```\n```", "```\n";
    ShortFences();
    hide LinesOf, FenceAfter, Boundary, Glue;
    assert "" + slice == slice && "" + end == end;
    PushAllStep("", HalvedFence());
    PushAllStep("", [end]);
    NothingPushed(end);
    assert |slice| == 7 && slice[7..] == "" && slice[..7] == slice;
    GlueOne(slice);
    assert Pushed("", slice) == (Some(slice), "");
    assert Pushed("", end) == (None, end);
    assert HalvedFence()[1..] == [end] && [end][1..] == [];
  }

  lemma ShortFences()
    ensures var slice, end := "```\n```", "```\n";
            && Boundary(slice) == Some(7) && Boundary(end) == None
            && FenceAfter(LinesOf(end)) && !FenceAfter(LinesOf(slice + end))
  {
    hide LinesOf, FenceAfter, Boundary, IsFence, SafeAfter;
    Fences();
    OneFence("```\n");
    TwoFences("```\n", "```");
    TwoFences("```\n", "``````\n");
    assert "```\n" + "``````\n" == "```\n```" + "```\n" && "```\n" + "```" == "```\n```";
  }

  lemma Fences()
    ensures IsFence("```") && IsFence("```\n") && IsFence("``````\n")
  {
  }

  /** A line that opens a fence is no cut. */
  lemma OneFence(line: string)
    requires line != "" && IsFence(line) && '\n' !in line[..|line| - 1]
    ensures FenceAfter(LinesOf(line)) && Boundary(line) == None
  {
    hide IsFence, FenceAfter;
    LineAlone(line);
    FenceOne(line);
    NoFence();
    var lines := LinesOf(line);
    assert lines[..0] == [];
    assert !SafeAfter(lines, 1);
  }

  /** A fence that opens and closes is a cut. */
  lemma TwoFences(first: string, second: string)
    requires IsFence(first) && IsFence(second) && first != "" && second != ""
    requires first[|first| - 1] == '\n' && '\n' !in first[..|first| - 1]
    requires '\n' !in second[..|second| - 1]
    ensures !FenceAfter(LinesOf(first + second)) && Boundary(first + second) == Some(|first + second|)
  {
    hide IsFence, FenceAfter, LinesOf, Glue, SafeAfter;
    LineAlone(first);
    LineAlone(second);
    LinesConcat(first, second);
    var lines := LinesOf(first + second);
    assert lines == [first, second] && lines[..2] == lines && lines[..1] == [first];
    FenceOne(first);
    FenceOne(second);
    FenceConcat([first], [second]);
    assert [first] + [second] == [first, second];
    ClosingCut(lines);
    GlueLines(first + second);
  }

  lemma ClosingCut(lines: seq<string>)
    requires |lines| == 2 && IsFence(lines[1]) && FenceAfter(lines[..1])
    ensures SafeAfter(lines, 2)
  {
    hide IsFence, FenceAfter;
  }

  lemma LineAlone(line: string)
    requires line != "" && '\n' !in line[..|line| - 1]
    ensures LinesOf(line) == [line]
  {
    forall i | 0 <= i < |line| - 1 ensures line[i] != '\n' {
      assert line[..|line| - 1][i] in line[..|line| - 1];
    }
    FirstLineIs(line, |line|);
    assert line[|line|..] == "" && line[..|line|] == line;
  }

  lemma NothingPushed(pending: string)
    ensures PushAll(pending, []) == ([], pending)
  {
  }

  lemma PushAllStep(pending: string, deltas: seq<string>)
    requires deltas != []
    ensures var (ready, rest) := Pushed(pending, deltas[0]);
            var (later, end) := PushAll(rest, deltas[1..]);
            && PushAll(pending, deltas) == ((if ready.Some? then [ready.value] + later else later), end)
            && (forall slice <- later :: slice in PushAll(pending, deltas).0)
            && (ready.Some? ==> ready.value in PushAll(pending, deltas).0)
  {
    hide Pushed;
    var (ready, rest) := Pushed(pending, deltas[0]);
    var (later, end) := PushAll(rest, deltas[1..]);
    assert ready.None? ==> [] + later == later;
    assert ready.Some? ==> ([ready.value] + later)[0] == ready.value;
  }

  lemma GlueFirst(slice: string, later: seq<string>, end: string)
    ensures Glue([slice] + later) == slice + Glue(later)
    ensures Glue([slice] + later) + end == slice + (Glue(later) + end)
  {
    hide Glue;
    GlueConcat([slice], later);
    GlueOne(slice);
    assert slice + Glue(later) + end == slice + (Glue(later) + end);
  }

  lemma OneSlice(slice: string, rest: string)
    requires slice != "" && slice[|slice| - 1] == '\n' && !FenceAfter(LinesOf(slice))
    ensures FenceAfter(LinesOf(slice + rest)) == FenceAfter(LinesOf(rest))
  {
    hide LinesOf, FenceAfter;
    LinesConcat(slice, rest);
    FenceConcat(LinesOf(slice), LinesOf(rest));
  }

  /** A cut is harmless for the text after it, except in one situation: the slice ends with a closing
      fence that has no newline yet, and the text that follows starts with a fence marker. Then the two
      are one line in the document but two lines in the stream. */
  lemma CutIsHarmlessExactly(slice: string, rest: string)
    requires slice != "" && SafeAfter(LinesOf(slice), |LinesOf(slice)|)
    ensures var lines := LinesOf(slice);
            FenceAfter(LinesOf(slice + rest)) == FenceAfter(LinesOf(rest)) <==>
            (slice[|slice| - 1] == '\n' || !IsFence(lines[|lines| - 1]) || rest == "" || !IsFence(LinesOf(rest)[0]))
  {
    hide LinesOf, FenceAfter, SafeAfter, IsFence;
    SafeEndsOutside(LinesOf(slice), |LinesOf(slice)|);
    var lines := LinesOf(slice);
    assert lines[..|lines|] == lines;
    if rest == "" {
      assert slice + rest == slice;
      NoLines();
      NoFence();
    } else if slice[|slice| - 1] == '\n' {
      OneSlice(slice, rest);
    } else {
      var p, last := OpenLastLine(slice);
      SafeLast(lines);
      OpenCut(p, last, rest);
      assert slice + rest == p + (last + rest);
    }
  }

  lemma NoFence()
    ensures !FenceAfter([])
  {
  }

  lemma SafeLast(lines: seq<string>)
    requires lines != [] && SafeAfter(lines, |lines|)
    ensures IsFence(lines[|lines| - 1]) || TrimStart(lines[|lines| - 1]) == ""
  {
  }

  /** A text whose last line is unfinished, taken apart before that line. */
  lemma {:induction false} OpenLastLine(s: string) returns (p: string, last: string)
    requires s != "" && s[|s| - 1] != '\n'
    ensures s == p + last && last != "" && (forall c <- last :: c != '\n') && (p == "" || p[|p| - 1] == '\n')
    ensures LinesOf(s) == LinesOf(p) + [last] && LinesOf(last) == [last]
    decreases |s|
  {
    hide LinesOf;
    LinesStep(s);
    var n := FirstLine(s);
    var first, after := s[..n], s[n..];
    FirstLineAlone(s);
    assert s == first + after;
    if after == "" {
      p, last := "", s;
      NoLines();
      assert first == s && "" + s == s;
      assert forall c <- s :: c != '\n';
      assert LinesOf(p) + [last] == [last];
    } else {
      var q, l := OpenLastLine(after);
      p, last := first + q, l;
      LinesAfterFirst(first, q);
      assert [first] + (LinesOf(q) + [l]) == [first] + LinesOf(q) + [l];
      assert first + (q + l) == first + q + l;
    }
  }

  /** What an unfinished, safe last line does to the text that continues it. */
  lemma OpenCut(p: string, last: string, rest: string)
    requires last != "" && (forall c <- last :: c != '\n') && rest != "" && (p == "" || p[|p| - 1] == '\n')
    requires IsFence(last) || TrimStart(last) == ""
    requires !FenceAfter(LinesOf(p) + [last])
    ensures LinesOf(rest) != []
    ensures FenceAfter(LinesOf(p + (last + rest))) == FenceAfter(LinesOf(rest)) <==>
            !IsFence(last) || !IsFence(LinesOf(rest)[0])
  {
    hide LinesOf, FenceAfter, IsFence;
    var m := FirstLine(rest);
    var f, after := rest[..m], rest[m..];
    LinesStep(rest);
    OpenFirstLine(last, rest);
    LinesStep(last + rest);
    assert (last + rest)[..|last| + m] == last + f && (last + rest)[|last| + m..] == after;
    LinesConcat(p, last + rest);
    FenceConcat(LinesOf(p), [last]);
    FenceConcat(LinesOf(p), LinesOf(last + rest));
    FenceConcat([last + f], LinesOf(after));
    FenceConcat([f], LinesOf(after));
    FenceOne(last);
    FenceOne(last + f);
    FenceOne(f);
    JoinedFence(last, f);
  }

  lemma OpenFirstLine(last: string, rest: string)
    requires rest != "" && (forall c <- last :: c != '\n')
    ensures FirstLine(last + rest) == |last| + FirstLine(rest)
  {
    var m, s := FirstLine(rest), last + rest;
    forall i | 0 <= i < |last| + m - 1 ensures s[i] != '\n' {
      if i < |last| {
        assert s[i] in last;
      }
    }
    FirstLineIs(s, |last| + m);
  }

  lemma FenceOne(line: string)
    ensures FenceAfter([line]) == IsFence(line)
  {
    NoFence();
    assert [line][..0] == [];
  }

  /** A fence marker stays one when its line goes on; a blank start adds nothing. */
  lemma JoinedFence(last: string, f: string)
    ensures IsFence(last) ==> IsFence(last + f)
    ensures TrimStart(last) == "" ==> IsFence(last + f) == IsFence(f) && !IsFence(last)
  {
    TrimJoined(last, f);
  }

  lemma {:induction false} TrimJoined(a: string, b: string)
    ensures TrimStart(a) == "" ==> TrimStart(a + b) == TrimStart(b)
    ensures TrimStart(a) != "" ==> TrimStart(a + b) == TrimStart(a) + b
    decreases |a|
  {
    if a == "" {
      assert a + b == b;
    } else {
      assert (a + b)[1..] == a[1..] + b;
      TrimJoined(a[1..], b);
    }
  }
}
