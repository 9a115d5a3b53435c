/** The key sequences users rely on, as runs of the editor. */
module EditorKeys {
  import opened Numbers
  import opened Options
  import opened Strings
  import Utf8Text
  import opened Rows
  import opened EditorModel
  import opened EditorLaws

  lemma StepNormal(e: Editor, s: Session, ch: char)
    requires Ready(e, s.(pending := None)) && Inv(e, s)
    ensures CursorsInside(s)
    ensures Step(e, s, Press(ch)) ==
              (NormalChar(e.(completion := None), s, ch).0, NormalChar(e.(completion := None), s, ch).1, Continue)
  {
    hide NormalChar;
  }

  lemma RunOne(e: Editor, s: Session, key: Key)
    requires Inv(e, s)
    ensures CursorsInside(s) && HistoryInv(e, s)
    ensures var (e', s', _) := Step(e, s, key); Run(e, s, [key]) == (e', s')
  {
    hide Step, Inv;
    ForgettingKeepsInv(e, s);
    StepKeepsInv(e, s, key);
    var (e', s', _) := Step(e, s, key);
    assert Run(e', s', []) == (e', s');
  }

  lemma RunTwo(e: Editor, s: Session, a: Key, b: Key)
    requires Inv(e, s)
    ensures var (e', s') := Run(e, s, [a]); Run(e, s, [a, b]) == Run(e', s', [b])
  {
    RunConcat(e, s, [a], [b]);
    assert [a] + [b] == [a, b];
  }

  /** A doubled operator leaves Normal mode as it was and yanks the row. */
  lemma RunDoubled(e: Editor, s: Session, op: char)
    requires Ready(e, s) && op in {'d', 'y'}
    ensures CursorsInside(s)
    ensures Run(e, s, [Press(op), Press(op)]) ==
              (YankRow(e.(completion := None), s), if op == 'd' then DeleteRow(s) else s)
  {
    hide Step, YankRow, DeleteRow;
    RunTwo(e, s, Press(op), Press(op));
    RunOne(e, s, Press(op));
    StepNormal(e, s, op);
    var (e1, s1) := Run(e, s, [Press(op)]);
    RunOne(e1, s1, Press(op));
    StepNormal(e1, s1, op);
    assert s1.(pending := None) == s;
  }

  /** A doubled operator followed by `p`. */
  lemma RunDoubledThenPaste(e: Editor, s: Session, op: char)
    requires Ready(e, s) && op in {'d', 'y'}
    ensures CursorsInside(s)
    ensures var e' := YankRow(e.(completion := None), s);
            var s' := if op == 'd' then DeleteRow(s) else s;
            CursorsInside(s') && Run(e, s, [Press(op), Press(op), Press('p')]) == (e', PasteAfter(e', s'))
  {
    hide Step, YankRow, DeleteRow, PasteAfter;
    RunConcat(e, s, [Press(op), Press(op)], [Press('p')]);
    assert [Press(op), Press(op)] + [Press('p')] == [Press(op), Press(op), Press('p')];
    RunDoubled(e, s, op);
    var (e1, s1) := Run(e, s, [Press(op), Press(op)]);
    RunOne(e1, s1, Press('p'));
    DoubledIsReady(e, s, op);
    StepNormal(e1, s1, 'p');
    assert s1.(pending := None) == s1;
    assert e1.(completion := None) == e1;
  }

  lemma DoubledIsReady(e: Editor, s: Session, op: char)
    requires Ready(e, s) && op in {'d', 'y'}
    ensures var (e1, s1) := (YankRow(e.(completion := None), s), if op == 'd' then DeleteRow(s) else s);
            Ready(e1, s1) && e1.completion.None?
  {
    hide RowStart, RowEnd, WholeRow;
  }

  /** `y y p` duplicates the current row just below itself and moves to the copy, for every text and
      cursor; on an empty last row it changes nothing, and a copy of an empty row is stepped over. */
  lemma YankPasteDuplicatesRow(e: Editor, s: Session)
    requires Ready(e, s)
    ensures CursorsInside(s)
    ensures var rows, r := Split(s.text), RowIndex(s.text, s.cursor);
            var (_, s') := Run(e, s, [Press('y'), Press('y'), Press('p')]);
            && r < |rows| && s'.cursor <= |s'.text|
            && s' == s.(text := s'.text, cursor := s'.cursor)
            && if r == |rows| - 1 && rows[r] == "" then s' == s
               else && Split(s'.text) == rows[..r + 1] + rows[r..]
                    && RowIndex(s'.text, s'.cursor) == r + (if rows[r] == "" then 2 else 1)
                    && Column(s'.text, s'.cursor) == 0
  {
    RunDoubledThenPaste(e, s, 'y');
    var t, k := s.text, s.cursor;
    SplitAt(t, k);
    WholeRowText(t, k);
    LastIffNoneAfter(t, k);
    hide Run, Inv, Split, RowStart, RowEnd, RowIndex, Row, RowsBefore, RowsAfter, Flat, FlatBetween, WholeRow, Column;
    assert Split(t)[RowIndex(t, k)] == Row(t, k);
    if WholeRow(t, k) != "" {
      PasteDuplicates(t, k);
      PasteCursor(t, k);
    }
  }

  lemma LastIffNoneAfter(t: string, k: nat)
    requires k <= |t|
    ensures RowsAfter(t, k) == [] <==> RowEnd(t, k) == |t|
  {
    hide Split, RowEnd;
    if RowEnd(t, k) < |t| { SplitNonEmpty(t[RowEnd(t, k) + 1..]); }
  }

  /** What `dd` makes of text, cursor and yank. */
  lemma RemovedRow(t: string, k: nat)
    requires k <= |t|
    ensures RowIndex(t, k) < |Split(t)| && DeleteStart(t, k) <= |Deleted(t, k)|
    ensures var rows, r, u, d := Split(t), RowIndex(t, k), Deleted(t, k), DeleteStart(t, k);
            && Split(u) == RowsWithout(rows, r)
            && WholeRow(t, k) == (if r + 1 < |rows| then rows[r] + "\n" else rows[r])
            && if r > 0 && ReachesEnd(rows, r)
               then RowIndex(u, d) == r - 1 && Column(u, d) == |rows[r - 1]|
               else RowIndex(u, d) == r && Column(u, d) == 0
  {
    hide Split, RowStart, RowEnd, RowIndex, Row, RowsBefore, RowsAfter, Flat, WholeRow, WholeRowEnd, RowsWithout,
         ReachesEnd, Column, Deleted, DeleteStart;
    DeletedCursor(t, k);
    ReachesEndExactly(t, k);
    SplitAt(t, k);
    WholeRowText(t, k);
    LastIffNoneAfter(t, k);
    DeletedRows(t, k);
    assert Split(t)[RowIndex(t, k)] == Row(t, k);
  }

  /** `d d` deletes the current row, keeps the others in order, and yanks it with its newline. */
  lemma DeleteRemovesRow(e: Editor, s: Session)
    requires Ready(e, s)
    ensures CursorsInside(s) && RowIndex(s.text, s.cursor) < |Split(s.text)|
    ensures var rows, r := Split(s.text), RowIndex(s.text, s.cursor);
            var (e', s') := Run(e, s, [Press('d'), Press('d')]);
            && s' == s.(text := s'.text, cursor := s'.cursor)
            && Split(s'.text) == RowsWithout(rows, r)
            && e'.yank == Yank(if r + 1 < |rows| then rows[r] + "\n" else rows[r], true)
            && s'.cursor <= |s'.text|
            && if r > 0 && ReachesEnd(rows, r)
               then RowIndex(s'.text, s'.cursor) == r - 1 && Column(s'.text, s'.cursor) == |rows[r - 1]|
               else RowIndex(s'.text, s'.cursor) == r && Column(s'.text, s'.cursor) == 0
  {
    RunDoubled(e, s, 'd');
    RemovedRow(s.text, s.cursor);
    DeletedText(s);
    hide Run, Inv, Ready, Split, RowIndex, WholeRow, RowsWithout, ReachesEnd, Column, DeleteRow, Deleted, DeleteStart;
  }

  lemma DeletedText(s: Session)
    requires CursorsInside(s)
    ensures DeleteRow(s) == s.(text := Deleted(s.text, s.cursor), cursor := DeleteStart(s.text, s.cursor))
  {
    hide DeleteStart, WholeRowEnd;
  }

  /** `d d p` gives the text back exactly when `PasteRestores` says so. */
  lemma DeletePasteRestoresExactly(e: Editor, s: Session)
    requires Ready(e, s)
    ensures CursorsInside(s) && RowIndex(s.text, s.cursor) < |Split(s.text)|
    ensures var (_, s') := Run(e, s, [Press('d'), Press('d'), Press('p')]);
            s'.text == s.text <==> PasteRestores(Split(s.text), RowIndex(s.text, s.cursor))
  {
    RunDoubledThenPaste(e, s, 'd');
    RestoreExactly(s.text, s.cursor);
    hide Run, Inv, Split, RowStart, RowEnd, RowIndex, WholeRow, PasteRestores;
  }

  /** `j k` comes back exactly when the row below is long enough, or there is only one row. */
  lemma DownUpReturnsExactly(e: Editor, s: Session)
    requires Ready(e, s)
    ensures CursorsInside(s) && RowIndex(s.text, s.cursor) < |Split(s.text)|
    ensures var rows, r := Split(s.text), RowIndex(s.text, s.cursor);
            var (_, s') := Run(e, s, [Press('j'), Press('k')]);
            && s' == s.(cursor := s'.cursor)
            && (s' == s <==>
                  if r + 1 < |rows| then Column(s.text, s.cursor) <= |rows[r + 1]| else r == 0)
  {
    hide Step, Vertical, RowStart, Run, RowIndex, Split, Column, Ready;
    RunVertical(e, s, 'j', 1);
    DownUp(s.text, s.cursor);
    RunTwo(e, s, Press('j'), Press('k'));
    var (e1, s1) := Run(e, s, [Press('j')]);
    RunVertical(e1, s1, 'k', -1);
  }

  lemma RunVertical(e: Editor, s: Session, ch: char, delta: int)
    requires Ready(e, s) && if delta == 1 then ch == 'j' else delta == -1 && ch == 'k'
    ensures Inv(e, s) && CursorsInside(s) && Vertical(s.text, s.cursor, delta) <= |s.text|
    ensures var (e', s') := Run(e, s, [Press(ch)]);
            Ready(e', s') && s' == s.(cursor := Vertical(s.text, s.cursor, delta))
  {
    VerticalInside(s.text, s.cursor, delta);
    hide Step, Vertical;
    assert s.(pending := None) == s;
    RunOne(e, s, Press(ch));
    StepNormal(e, s, ch);
  }

  // ----- Typing, history, completion

  function Typed(word: string): seq<Key> {
    seq(|word|, i requires 0 <= i < |word| => Press(word[i]))
  }

  function Times(n: nat, key: Key): (keys: seq<Key>)
    ensures |keys| == n && forall i :: 0 <= i < n ==> keys[i] == key
  {
    seq(n, i => key)
  }

  lemma InsertThenBackspace(s: Session, ch: char)
    requires CursorsInside(s) && CommandInv(s) && s.mode != Normal && s.mode != Visual
    ensures CursorsInside(InsertText(s, [ch])) && BackspaceKey(InsertText(s, [ch])) == s
  {
    var (t, k) := if s.mode == Command then (s.command, s.commandCursor) else (s.text, s.cursor);
    var u := t[..k] + [ch] + t[k..];
    assert u[..k] + u[k + 1..] == t;
  }

  /** The editor after a run of keys other than Tab: any key forgets the stored completion. */
  function Forgotten(e: Editor, keys: nat): Editor {
    if keys == 0 then e else e.(completion := None)
  }

  /** Erasing as many characters as were typed restores the session, wherever the cursor stood and
      however many bytes each character takes. */
  lemma {:induction false} TypeThenErase(e: Editor, s: Session, word: string)
    requires Inv(e, s) && s.mode != Normal && s.mode != Visual
    ensures Run(e, s, Typed(word) + Times(|word|, Plainly(Backspace))) == (Forgotten(e, |word|), s)
    decreases |word|
  {
    hide Step, Inv, Run, InsertText, BackspaceKey;
    var keys := Typed(word) + Times(|word|, Plainly(Backspace));
    if word == "" {
      assert keys == [];
      RunNone(e, s);
    } else {
      var first, last := Press(word[0]), Plainly(Backspace);
      var inner := Typed(word[1..]) + Times(|word| - 1, last);
      assert keys == [first] + (inner + [last]);
      StepTyping(e, s, word[0]);
      var e1, s1 := e.(completion := None), InsertText(s, [word[0]]);
      RunOne(e, s, first);
      RunConcat(e, s, [first], inner + [last]);
      TypeThenErase(e1, s1, word[1..]);
      RunConcat(e1, s1, inner, [last]);
      RunOne(e1, s1, last);
    }
  }

  lemma RunNone(e: Editor, s: Session)
    requires Inv(e, s)
    ensures Run(e, s, []) == (e, s)
  {
  }

  lemma StepTyping(e: Editor, s: Session, ch: char)
    requires Inv(e, s) && s.mode != Normal && s.mode != Visual
    ensures CursorsInside(s) && CommandInv(s)
    ensures var e1, s1 := e.(completion := None), InsertText(s, [ch]);
            && Step(e, s, Press(ch)) == (e1, s1, Continue)
            && Inv(e1, s1) && CursorsInside(s1) && HistoryInv(e1, s1) && s1.mode == s.mode
            && Step(e1, s1, Plainly(Backspace)) == (e1, s, Continue)
  {
    ForgettingKeepsInv(e, s);
    EditKeepsInv(e.(completion := None), s, [ch]);
    InsertThenBackspace(s, ch);
    hide BackspaceKey;
  }

  /** The session `n` presses of Up away from a draft: the n-th most recent entry, the draft kept. */
  predicate Recalled(e: Editor, s: Session, n: nat, draft: string) {
    && e.completion.None? && s.mode != Command
    && 1 <= n <= |e.history|
    && s.historyIndex == Some(|e.history| - n)
    && s.historyBackup == Some(draft)
    && s.text == e.history[|e.history| - n]
  }

  lemma FirstUp(e: Editor, s: Session)
    requires Inv(e, s) && s.mode != Command && s.historyIndex.None? && e.history != []
    ensures CursorsInside(s) && HistoryInv(e, s)
    ensures var (e', s', _) := Step(e, s, Plainly(Up)); e' == e.(completion := None) && Recalled(e', s', 1, s.text)
  {
  }

  lemma NextUp(e: Editor, s: Session, n: nat, draft: string)
    requires Inv(e, s) && Recalled(e, s, n, draft)
    ensures CursorsInside(s) && HistoryInv(e, s)
    ensures var (e', s', _) := Step(e, s, Plainly(Up)); e' == e && Recalled(e, s', Min(n + 1, |e.history|), draft)
  {
  }

  lemma NextDown(e: Editor, s: Session, n: nat, draft: string)
    requires Inv(e, s) && Recalled(e, s, n, draft)
    ensures CursorsInside(s) && HistoryInv(e, s)
    ensures var (e', s', _) := Step(e, s, Plainly(Down));
            && e' == e
            && if n > 1 then Recalled(e, s', n - 1, draft)
               else s'.text == draft && s'.cursor == |draft| && s'.historyIndex.None?
                    && s'.mode == if e.vim then Insert else Plain
  {
  }

  lemma {:induction false} UpsRecall(e: Editor, s: Session, n: nat)
    requires Inv(e, s) && s.mode != Command && s.historyIndex.None?
    requires 1 <= n && e.history != []
    ensures var (e', s') := Run(e, s, Times(n, Plainly(Up)));
            e' == e.(completion := None) && Recalled(e', s', Min(n, |e.history|), s.text)
  {
    hide Inv, Step, Recalled, Run;
    var up := Plainly(Up);
    if n == 1 {
      assert Times(1, up) == [up];
      FirstUp(e, s);
      RunOne(e, s, up);
    } else {
      UpsRecall(e, s, n - 1);
      assert Times(n, up) == Times(n - 1, up) + [up];
      RunConcat(e, s, Times(n - 1, up), [up]);
      var (e1, s1) := Run(e, s, Times(n - 1, up));
      NextUp(e1, s1, Min(n - 1, |e.history|), s.text);
      RunOne(e1, s1, up);
    }
  }

  lemma {:induction false} DownsRestore(e: Editor, s: Session, n: nat, draft: string)
    requires Inv(e, s) && Recalled(e, s, n, draft)
    ensures var (e', s') := Run(e, s, Times(n, Plainly(Down)));
            && e' == e && s'.text == draft && s'.cursor == |draft|
            && s'.historyIndex.None? && s'.mode == (if e.vim then Insert else Plain)
    decreases n
  {
    assert n >= 1;
    hide Inv, Step, Recalled, Run;
    var down := Plainly(Down);
    NextDown(e, s, n, draft);
    RunOne(e, s, down);
    if n == 1 {
      assert Times(1, down) == [down];
    } else {
      assert Times(n, down) == [down] + Times(n - 1, down);
      RunConcat(e, s, [down], Times(n - 1, down));
      var (e1, s1) := Run(e, s, [down]);
      DownsRestore(e1, s1, n - 1, draft);
    }
  }

  /** Any number of Ups shows the matching history entry, the oldest one at most, and as many Downs
      brings the draft back, the cursor at its end. */
  lemma HistoryRoundTrip(e: Editor, s: Session, n: nat)
    requires Inv(e, s) && s.mode != Command && s.historyIndex.None?
    requires 1 <= n && e.history != []
    ensures var m := Min(n, |e.history|);
            var (_, s1) := Run(e, s, Times(n, Plainly(Up)));
            var (_, s2) := Run(e, s, Times(n, Plainly(Up)) + Times(m, Plainly(Down)));
            && s1.text == e.history[|e.history| - m]
            && s2.text == s.text && s2.cursor == |s.text| && s2.historyIndex.None?
  {
    hide Inv, Run, Times;
    var m := Min(n, |e.history|);
    UpsRecall(e, s, n);
    var (e1, s1) := Run(e, s, Times(n, Plainly(Up)));
    DownsRestore(e1, s1, m, s.text);
    RunConcat(e, s, Times(n, Plainly(Up)), Times(m, Plainly(Down)));
  }

  /** Pressing Tab again and again walks through the completions of the typed prefix in order and
      round again, touching nothing but the text and cursor. */
  lemma {:induction false} TabCycles(e: Editor, s: Session, m: nat)
    requires Inv(e, s) && e.completion.None? && s.mode != Command
    requires SlashPrefix(s.text, s.cursor).Some? && Matches(e.completions, s.text) != []
    requires 1 <= m
    ensures var matches := Matches(e.completions, s.text);
            var candidate := matches[(m - 1) % |matches|];
            Run(e, s, Times(m, Plainly(Tab))) ==
              (e.(completion := Some(Completion(s.text, matches, m))), s.(text := candidate, cursor := |candidate|))
  {
    hide Run, Inv, Step, Matches, SlashPrefix;
    var tab := Plainly(Tab);
    if m == 1 {
      assert Times(1, tab) == [tab];
      FirstTab(e, s);
      RunOne(e, s, tab);
    } else {
      TabCycles(e, s, m - 1);
      assert Times(m, tab) == Times(m - 1, tab) + [tab];
      RunConcat(e, s, Times(m - 1, tab), [tab]);
      var (e1, s1) := Run(e, s, Times(m - 1, tab));
      NextTab(e1, s1);
      RunOne(e1, s1, tab);
    }
  }

  lemma FirstTab(e: Editor, s: Session)
    requires Inv(e, s) && e.completion.None? && s.mode != Command
    requires SlashPrefix(s.text, s.cursor).Some? && Matches(e.completions, s.text) != []
    ensures CursorsInside(s) && HistoryInv(e, s)
    ensures var ms := Matches(e.completions, s.text);
            Step(e, s, Plainly(Tab)) == (e.(completion := Some(Completion(s.text, ms, 1))),
                                         s.(text := ms[0], cursor := |ms[0]|), Continue)
  {
    hide TypeChar, Matches;
    assert s.text[s.cursor..] == "";
    var ms := Matches(e.completions, s.text);
    assert ms[0] + "" == ms[0];
  }

  lemma NextTab(e: Editor, s: Session)
    requires Inv(e, s) && Cycling(e, s) && s.mode != Command
    ensures CursorsInside(s) && HistoryInv(e, s)
    ensures var c := e.completion.value;
            var candidate := c.matches[c.nextIndex % |c.matches|];
            Step(e, s, Plainly(Tab)) == (e.(completion := Some(c.(nextIndex := c.nextIndex + 1))),
                                         s.(text := candidate, cursor := |candidate|), Continue)
  {
    hide TypeChar, Matches, SlashPrefix;
    assert s.text[s.cursor..] == "";
    var c := e.completion.value;
    assert c.matches[c.nextIndex % |c.matches|] + "" == c.matches[c.nextIndex % |c.matches|];
  }

  // ----- The visual anchor

  /** The anchor may be sliced at. */
  predicate AnchorOnBoundary(s: Session) {
    s.anchor.Some? ==> Utf8Text.IsBoundary(s.text, s.anchor.value)
  }

  /** The keys that change the text while a selection is open. */
  predicate EditsSelection(s: Session, key: Key) {
    s.mode == Visual && (DeletesCharacter(key) || key.code == Tab)
  }

  predicate DeletesCharacter(key: Key) {
    key.code == Delete || IsCtrl(key, 'd', 'D')
  }

  /** The key deletes a character before the anchor, and the anchor, which stays where it is, comes to lie
      inside a character. */
  predicate Strands(s: Session, key: Key) {
    && s.mode == Visual && DeletesCharacter(key) && s.cursor < |s.text| && s.anchor.Some?
    && Utf8Text.Offset(s.text, s.cursor) < s.anchor.value
    && !Utf8Text.IsBoundary(s.text, s.anchor.value + Utf8Text.Width(s.text[s.cursor]))
  }

  /** An open anchor is a boundary of the text and of every text that Tab may put in its place. Without an
      open anchor, as in a new session, this holds. */
  predicate Safe(e: Editor, s: Session) {
    && AnchorOnBoundary(s)
    && (s.anchor.Some? && e.completion.Some? ==>
          forall m <- e.completion.value.matches :: Utf8Text.IsBoundary(m, s.anchor.value))
  }

  /** With a selection open, other keys move the cursor or close the selection. */
  lemma SelectionKeepsText(e: Editor, s: Session, key: Key)
    requires Inv(e, s) && s.mode == Visual && !EditsSelection(s, key)
    ensures CursorsInside(s) && HistoryInv(e, s)
    ensures var s' := Step(e, s, key).1; s'.anchor.None? || (s'.anchor == s.anchor && s'.text == s.text)
  {
    hide RowStart, RowEnd, Vertical, Trim, Complete, NormalChar, InsertText;
  }

  /** A selection opens with its anchor at the cursor. */
  lemma SelectionOpensAtCursor(e: Editor, s: Session, key: Key)
    requires Inv(e, s) && s.mode != Visual
    ensures CursorsInside(s) && HistoryInv(e, s)
    ensures var s' := Step(e, s, key).1;
            s'.anchor.Some? ==> s'.cursor <= |s'.text| && s'.anchor == Some(Utf8Text.Offset(s'.text, s'.cursor))
  {
    hide RowStart, RowEnd, Trim, Vertical, Matches, SlashPrefix, DeleteRow, PasteAfter;
    if key.code.Char? && s.mode == Normal {
      AnchorAfterNormalChar(e.(completion := None), s, key.code.ch);
      hide NormalChar;
    }
  }

  lemma AnchorAfterNormalChar(e: Editor, s: Session, ch: char)
    requires CursorsInside(s) && s.anchor.None?
    ensures var s' := NormalChar(e, s, ch).1;
            s'.anchor.Some? ==> s'.cursor <= |s'.text| && s'.anchor == Some(Utf8Text.Offset(s'.text, s'.cursor))
  {
    hide RowStart, RowEnd, Vertical;
  }

  /** Deleting under a selection keeps the anchor on a boundary exactly when the anchor is not beyond
      the cursor, or moving it by the deleted character's bytes would have been harmless. */
  lemma DeleteKeepsAnchorExactly(e: Editor, s: Session)
    requires Inv(e, s) && s.mode == Visual && AnchorOnBoundary(s) && s.cursor < |s.text|
    ensures CursorsInside(s) && s.anchor.Some?
    ensures AnchorOnBoundary(DeleteKey(s)) <==>
              || s.anchor.value <= Utf8Text.Offset(s.text, s.cursor)
              || Utf8Text.IsBoundary(s.text, s.anchor.value + Utf8Text.Width(s.text[s.cursor]))
  {
    BoundaryAfterDelete(s.text, s.cursor, s.anchor.value);
  }

  lemma BoundaryAfterDelete(t: string, k: nat, a: nat)
    requires k < |t| && Utf8Text.IsBoundary(t, a)
    ensures Utf8Text.IsBoundary(t[..k] + t[k + 1..], a) <==>
              a <= Utf8Text.Offset(t, k) || Utf8Text.IsBoundary(t, a + Utf8Text.Width(t[k]))
  {
    hide Utf8Text.IsBoundary, Utf8Text.CharIndex, Utf8Text.Offset;
    var u, w := t[..k] + t[k + 1..], Utf8Text.Width(t[k]);
    var j := Utf8Text.CharIndex(t, a);
    Utf8Text.OffsetCharIndex(t, a);
    Utf8Text.OffsetMonotone(t, k, j);
    if j <= k {
      OffsetAfterDelete(t, k, j);
      Utf8Text.CharIndexOffset(u, j);
    } else {
      if Utf8Text.IsBoundary(u, a) {
        var i := Utf8Text.CharIndex(u, a);
        Utf8Text.OffsetCharIndex(u, a);
        OffsetAfterDelete(t, k, k);
        Utf8Text.OffsetMonotone(u, k, i);
        OffsetAfterDelete(t, k, i);
        Utf8Text.CharIndexOffset(t, i + 1);
      }
      if Utf8Text.IsBoundary(t, a + w) {
        var i := Utf8Text.CharIndex(t, a + w);
        Utf8Text.OffsetCharIndex(t, a + w);
        Utf8Text.OffsetMonotone(t, j, i);
        OffsetAfterDelete(t, k, i - 1);
        Utf8Text.CharIndexOffset(u, i - 1);
      }
    }
  }

  lemma OffsetAfterDelete(t: string, k: nat, i: nat)
    requires k < |t| && i < |t|
    ensures var u := t[..k] + t[k + 1..];
            Utf8Text.Offset(u, i) == if i <= k then Utf8Text.Offset(t, i)
                                     else Utf8Text.Offset(t, i + 1) - Utf8Text.Width(t[k])
  {
    hide Utf8Text.ByteLen;
    var u := t[..k] + t[k + 1..];
    if i <= k {
      assert u[..i] == t[..i];
    } else {
      assert u[..i] == t[..k] + t[k + 1..i + 1];
      assert t[..i + 1] == t[..k] + ([t[k]] + t[k + 1..i + 1]);
      Utf8Text.ByteLenConcat(t[..k], t[k + 1..i + 1]);
      Utf8Text.ByteLenConcat([t[k]], t[k + 1..i + 1]);
      Utf8Text.ByteLenConcat(t[..k], [t[k]] + t[k + 1..i + 1]);
      OneCharacter(t[k]);
    }
  }

  lemma OneCharacter(c: char)
    ensures Utf8Text.ByteLen([c]) == Utf8Text.Width(c)
  {
  }

  lemma PrefixBoundary(t: string, m: string, a: nat)
    requires Utf8Text.IsBoundary(t, a) && StartsWith(m, t)
    ensures Utf8Text.IsBoundary(m, a)
  {
    hide Utf8Text.IsBoundary, Utf8Text.CharIndex;
    var k := Utf8Text.CharIndex(t, a);
    Utf8Text.OffsetCharIndex(t, a);
    Utf8Text.CharIndexOffset(m, k);
    assert t[..k] == m[..k];
  }

  /** Tab replaces the text by one of the matches stored then, and those are texts it had stored before or
      start with the text. */
  lemma TabVisitsMatches(e: Editor, s: Session)
    requires Inv(e, s)
    ensures var (e', s') := Complete(e, s);
            && s' == s.(text := s'.text, cursor := s'.cursor)
            && (e'.completion.None? ==> s'.text == s.text)
            && (e'.completion.Some? ==>
                  && s'.text in e'.completion.value.matches
                  && forall m <- e'.completion.value.matches ::
                       (e.completion.Some? && m in e.completion.value.matches) || StartsWith(m, s.text))
  {
    hide Matches, IsWhitespace;
    if s.mode != Command && s.cursor == |s.text| {
      assert s.text[s.cursor..] == "";
      assert forall candidate: string :: candidate + "" == candidate;
    }
  }

  lemma TabKeepsSafe(e: Editor, s: Session)
    requires Inv(e, s) && Safe(e, s)
    ensures var (e', s') := Complete(e, s); Safe(e', s')
  {
    TabVisitsMatches(e, s);
    hide Complete, Inv, Utf8Text.IsBoundary;
    var (e', s') := Complete(e, s);
    if s.anchor.Some? && e'.completion.Some? {
      forall m <- e'.completion.value.matches ensures Utf8Text.IsBoundary(m, s.anchor.value) {
        if StartsWith(m, s.text) { PrefixBoundary(s.text, m, s.anchor.value); }
      }
    }
  }

  lemma TabStep(e: Editor, s: Session, key: Key)
    requires CursorsInside(s) && HistoryInv(e, s) && key.code == Tab
    ensures Step(e, s, key) == (Complete(e, s).0, Complete(e, s).1, Continue)
  {
    hide Complete;
  }

  lemma DeleteStep(e: Editor, s: Session, key: Key)
    requires Inv(e, s) && s.mode == Visual && DeletesCharacter(key)
    ensures CursorsInside(s) && HistoryInv(e, s) && Step(e, s, key).1 == DeleteKey(s)
  {
  }

  lemma NoCompletionSafe(e: Editor, s: Session)
    requires e.completion.None?
    ensures Safe(e, s) <==> AnchorOnBoundary(s)
  {
    hide AnchorOnBoundary;
  }

  /** Whatever the key: from a safe state the anchor stays on a boundary, and the state safe, exactly when
      the key does not strand it. */
  lemma AnchorStep(e: Editor, s: Session, key: Key)
    requires Inv(e, s) && Safe(e, s)
    ensures CursorsInside(s) && HistoryInv(e, s)
    ensures var (e', s', _) := Step(e, s, key);
            && (AnchorOnBoundary(s') <==> !Strands(s, key))
            && (Safe(e', s') <==> !Strands(s, key))
  {
    StepKeepsInv(e, s, key);
    hide Step, Utf8Text.IsBoundary, Complete, DeleteKey, Inv;
    ForgettingKeepsInv(e, s);
    var (e', s', _) := Step(e, s, key);
    if key.code == Tab {
      TabStep(e, s, key);
      TabKeepsSafe(e, s);
    } else {
      NoCompletionSafe(e', s');
      if s.mode == Visual && DeletesCharacter(key) {
        DeleteStep(e, s, key);
        DeleteStrands(e, s, key);
      } else if s.mode == Visual {
        SelectionKeepsText(e, s, key);
      } else {
        SelectionOpensAtCursor(e, s, key);
        if s'.anchor.Some? { Utf8Text.CharIndexOffset(s'.text, s'.cursor); }
      }
    }
  }

  lemma DeleteStrands(e: Editor, s: Session, key: Key)
    requires Inv(e, s) && s.mode == Visual && AnchorOnBoundary(s) && DeletesCharacter(key)
    ensures CursorsInside(s) && (AnchorOnBoundary(DeleteKey(s)) <==> !Strands(s, key))
  {
    hide Utf8Text.IsBoundary, Utf8Text.Offset, AnchorOnBoundary;
    if s.cursor < |s.text| {
      DeleteKeepsAnchorExactly(e, s);
    }
  }

  /** Drawing a selection slices the text at the anchor whenever the anchor lies between cursor and end. */
  predicate DrawsFromAnchor(s: Session) {
    && s.mode == Visual && s.anchor.Some? && s.text != "" && s.cursor <= |s.text|
    && Utf8Text.Offset(s.text, s.cursor) < s.anchor.value < Utf8Text.ByteLen(s.text)
  }

  /** Typing a one-byte letter and two two-byte ones, selecting back from the last, and deleting. */
  function StrandingKeys(): seq<Key> {
    [Press('a'), Press('\U{00E9}'), Press('\U{00E9}'), Plainly(Esc), Press('v'), Press('h'), Press('h'),
     Plainly(Delete)]
  }

  /** A run from a fresh session after which the anchor lies inside a character, where drawing the
      selection slices the text. */
  lemma DeleteCanStrandAnchor()
    ensures var e := Editor([], [], Yank("", false), true, None);
            && Inv(e, NewSession(true))
            && var s := Run(e, NewSession(true), StrandingKeys()).1;
               s.text == "\U{00E9}\U{00E9}" && !AnchorOnBoundary(s) && DrawsFromAnchor(s)
  {
    hide Run, Inv, AnchorOnBoundary, DrawsFromAnchor, StrandingKeys, SelectingKeys, SelectedBack, NewSession;
    var e, t := Editor([], [], Yank("", false), true, None), "a\U{00E9}\U{00E9}";
    TypedAndSelected(e);
    RunConcat(e, NewSession(true), SelectingKeys(), [Plainly(Delete)]);
    LastKey();
    DeleteUnderAnchor(e, t);
    Stranded();
  }

  lemma LastKey()
    ensures StrandingKeys() == SelectingKeys() + [Plainly(Delete)]
  {
  }

  lemma DeleteUnderAnchor(e: Editor, t: string)
    requires t == "a\U{00E9}\U{00E9}" && Inv(e, SelectedBack(t))
    ensures Run(e, SelectedBack(t), [Plainly(Delete)]).1 == SelectedBack("\U{00E9}\U{00E9}")
  {
    hide Run, Inv;
    RunOne(e, SelectedBack(t), Plainly(Delete));
    assert t[..0] + t[1..] == "\U{00E9}\U{00E9}";
  }

  lemma Stranded()
    ensures var s := SelectedBack("\U{00E9}\U{00E9}");
            s.text == "\U{00E9}\U{00E9}" && !AnchorOnBoundary(s) && DrawsFromAnchor(s)
  {
    hide Utf8Text.Offset, Utf8Text.ByteLen, Utf8Text.IsBoundary;
    InsideSecond();
  }

  function SelectingKeys(): seq<Key> {
    [Press('a'), Press('\U{00E9}'), Press('\U{00E9}'), Plainly(Esc), Press('v'), Press('h'), Press('h')]
  }

  function SelectedBack(t: string): Session {
    Session(t, 0, Visual, None, Some(3), "", 0, None, None)
  }

  lemma TypedAndSelected(e: Editor)
    requires e == Editor([], [], Yank("", false), true, None)
    ensures Inv(e, NewSession(true))
    ensures Run(e, NewSession(true), SelectingKeys()) == (e, SelectedBack("a\U{00E9}\U{00E9}"))
  {
    var t := "a\U{00E9}\U{00E9}";
    var typed := Session(t, 3, Insert, None, None, "", 0, None, None);
    var word := [Press('a'), Press('\U{00E9}'), Press('\U{00E9}')];
    var select := [Plainly(Esc), Press('v'), Press('h'), Press('h')];
    assert SelectingKeys() == word + select;
    RunConcat(e, NewSession(true), word, select);
    TypeThree(e);
    SelectTwo(e, typed);
  }

  lemma RunStep(e: Editor, s: Session, key: Key, next: Session, rest: seq<Key>)
    requires Inv(e, s) && Step(e, s, key).0 == e && Step(e, s, key).1 == next
    ensures Inv(e, next) && Run(e, s, [key] + rest) == Run(e, next, rest)
  {
    hide Step, Inv;
    StepKeepsInv(e, s, key);
    assert ([key] + rest)[1..] == rest;
  }

  lemma TypeThree(e: Editor)
    requires e == Editor([], [], Yank("", false), true, None)
    ensures Inv(e, NewSession(true))
    ensures Run(e, NewSession(true), [Press('a'), Press('\U{00E9}'), Press('\U{00E9}')])
         == (e, Session("a\U{00E9}\U{00E9}", 3, Insert, None, None, "", 0, None, None))
  {
    var s0 := NewSession(true);
    var s1, s2 := s0.(text := "a", cursor := 1), s0.(text := "a\U{00E9}", cursor := 2);
    var s3 := s0.(text := "a\U{00E9}\U{00E9}", cursor := 3);
    assert InsertText(s0, "a") == s1;
    assert InsertText(s1, "\U{00E9}") == s2 && InsertText(s2, "\U{00E9}") == s3;
    hide InsertText, Run;
    RunStep(e, s0, Press('a'), s1, [Press('\U{00E9}'), Press('\U{00E9}')]);
    RunStep(e, s1, Press('\U{00E9}'), s2, [Press('\U{00E9}')]);
    RunOne(e, s2, Press('\U{00E9}'));
  }

  lemma SelectTwo(e: Editor, s: Session)
    requires Inv(e, s) && e.completion.None?
    requires s == Session("a\U{00E9}\U{00E9}", 3, Insert, None, None, "", 0, None, None)
    ensures Run(e, s, [Plainly(Esc), Press('v'), Press('h'), Press('h')]) == (e, SelectedBack(s.text))
  {
    hide Run, Step, Inv, SelectedBack;
    var s1 := s.(cursor := 2, mode := Normal);
    var s2 := s1.(mode := Visual, anchor := Some(3));
    var s3 := s2.(cursor := 1);
    LeaveInsert(e, s);
    RunStep(e, s, Plainly(Esc), s1, [Press('v'), Press('h'), Press('h')]);
    OpenSelection(e, s1);
    RunStep(e, s1, Press('v'), s2, [Press('h'), Press('h')]);
    SelectLeft(e, s2);
    RunStep(e, s2, Press('h'), s3, [Press('h')]);
    SelectLeft(e, s3);
    RunOne(e, s3, Press('h'));
    assert [Press('h')] + [Press('h')] == [Press('h'), Press('h')];
    assert [Press('v')] + [Press('h'), Press('h')] == [Press('v'), Press('h'), Press('h')];
    assert [Plainly(Esc)] + [Press('v'), Press('h'), Press('h')]
        == [Plainly(Esc), Press('v'), Press('h'), Press('h')];
    BackAtStart(s3);
  }

  lemma BackAtStart(s: Session)
    requires s == Session("a\U{00E9}\U{00E9}", 1, Visual, None, Some(3), "", 0, None, None)
    ensures s.(cursor := 0) == SelectedBack(s.text)
  {
  }

  lemma LeaveInsert(e: Editor, s: Session)
    requires Inv(e, s) && e.completion.None? && s.mode == Insert && s.cursor > 0 && |s.text| == 3 && s.cursor == 3
    requires s.text[2] != '\n' && s.text[1] != '\n' && s.text[0] != '\n' && s.pending.None? && s.anchor.None?
    requires s.command == "" && s.commandCursor == 0
    ensures Step(e, s, Plainly(Esc)).0 == e && Step(e, s, Plainly(Esc)).1 == s.(cursor := 2, mode := Normal)
  {
  }

  lemma OpenSelection(e: Editor, s: Session)
    requires Inv(e, s) && e.completion.None? && s.mode == Normal && s.pending.None? && s.anchor.None?
    requires s.text == "a\U{00E9}\U{00E9}" && s.cursor == 2
    ensures Step(e, s, Press('v')).0 == e && Step(e, s, Press('v')).1 == s.(mode := Visual, anchor := Some(3))
  {
    assert s.text[..2] == "a\U{00E9}" && "a\U{00E9}"[1..] == "\U{00E9}";
    assert Utf8Text.Offset(s.text, 2) == 3;
  }

  lemma SelectLeft(e: Editor, s: Session)
    requires Inv(e, s) && e.completion.None? && s.mode == Visual && s.pending.None?
    requires s.text == "a\U{00E9}\U{00E9}" && 0 < s.cursor <= 2
    ensures Step(e, s, Press('h')).0 == e && Step(e, s, Press('h')).1 == s.(cursor := s.cursor - 1)
  {
  }

  lemma InsideSecond()
    ensures var u := "\U{00E9}\U{00E9}";
            !Utf8Text.IsBoundary(u, 3) && Utf8Text.Offset(u, 0) == 0 && Utf8Text.ByteLen(u) == 4
  {
    var u := "\U{00E9}\U{00E9}";
    assert u[1..] == "\U{00E9}" && u[..0] == "";
    assert !Utf8Text.IsBoundary(u[1..], 1);
  }

  /** No key of the run strands the anchor. */
  predicate NoneStrands(e: Editor, s: Session, keys: seq<Key>)
    requires Inv(e, s)
  {
    forall i | 0 <= i < |keys| :: !Strands(Run(e, s, keys[..i]).1, keys[i])
  }

  /** Every state of the run has its anchor on a boundary. */
  predicate AlwaysOnBoundary(e: Editor, s: Session, keys: seq<Key>)
    requires Inv(e, s)
  {
    forall i | 0 <= i <= |keys| :: AnchorOnBoundary(Run(e, s, keys[..i]).1)
  }

  /** Over every run from a safe state, a new session say: the anchor is on a boundary all the time exactly
      when no key strands it. Tab never does. */
  lemma {:induction false} AnchorStaysOnBoundary(e: Editor, s: Session, keys: seq<Key>)
    requires Inv(e, s) && Safe(e, s)
    ensures AlwaysOnBoundary(e, s, keys) <==> NoneStrands(e, s, keys)
    ensures NoneStrands(e, s, keys) ==> var (e', s') := Run(e, s, keys); Safe(e', s')
    decreases |keys|
  {
    hide Inv, Safe, Run, Strands, AnchorOnBoundary, AlwaysOnBoundary, NoneStrands;
    if keys == [] {
      NoKeys(e, s);
    } else {
      var n := |keys| - 1;
      var before, last := keys[..n], keys[n];
      assert keys == before + [last];
      AnchorStaysOnBoundary(e, s, before);
      OneKeyMore(e, s, before, last);
      var (e1, s1) := Run(e, s, before);
      RunConcat(e, s, before, [last]);
      RunOne(e1, s1, last);
      if NoneStrands(e, s, before) {
        AnchorStep(e1, s1, last);
      }
    }
  }

  lemma NoKeys(e: Editor, s: Session)
    requires Inv(e, s) && Safe(e, s)
    ensures Run(e, s, []) == (e, s) && AlwaysOnBoundary(e, s, []) && NoneStrands(e, s, [])
  {
    var none: seq<Key> := [];
    assert none[..0] == [];
  }

  lemma OneKeyMore(e: Editor, s: Session, before: seq<Key>, last: Key)
    requires Inv(e, s)
    ensures var keys := before + [last];
            && (NoneStrands(e, s, keys) <==> NoneStrands(e, s, before) && !Strands(Run(e, s, before).1, last))
            && (AlwaysOnBoundary(e, s, keys) <==>
                  AlwaysOnBoundary(e, s, before) && AnchorOnBoundary(Run(e, s, keys).1))
  {
    hide Inv, Run, Strands, AnchorOnBoundary;
    var keys := before + [last];
    assert keys[..|keys|] == keys && keys[..|before|] == before;
    forall i | 0 <= i <= |before| ensures before[..i] == keys[..i] {
    }
    forall i | 0 <= i < |before| ensures before[i] == keys[i] {
    }
  }

  // ----- Whole lines

  /** Every line handed to the program came from Enter on a text that is not the vim switch, and the
      editor is left fit for the next line with its history and completions as they were. */
  lemma {:induction false} ReadLineOutcome(e: Editor, s: Session, events: seq<Event>)
    requires Inv(e, s)
    ensures var (e', outcome) := ReadLine(e, s, events);
            && EditorInv(e') && e'.history == e.history && e'.completions == e.completions
            && (outcome.Some? ==> e'.completion.None?)
            && (outcome.Some? && outcome.value.Submitted? ==> Trim(outcome.value.line) != "/vim")
    decreases |events|
  {
    if events != [] {
      if events[0].Ignored? {
        ReadLineOutcome(e, s, events[1..]);
      } else {
        StepKeepsInv(e, s, events[0].key);
        SubmitsOnlyLines(e, s, events[0].key);
        hide Step, Trim;
        var (e', s', action) := Step(e, s, events[0].key);
        match action {
          case Continue => ReadLineOutcome(e', s', events[1..]);
          case ToggleVim => ReadLineOutcome(e'.(vim := !e'.vim), NewSession(!e'.vim), events[1..]);
          case _ =>
        }
      }
    }
  }

  lemma SubmitsOnlyLines(e: Editor, s: Session, key: Key)
    requires Inv(e, s)
    ensures CursorsInside(s) && HistoryInv(e, s)
    ensures var action := Step(e, s, key).2; action.Submit? ==> Trim(action.line) != "/vim"
  {
    hide TypeChar, Complete, InsertText, BackspaceKey, DeleteKey, MoveLeft, MoveRight, MoveHome, MoveEnd,
         Escape, HistoryUp, HistoryDown, Trim;
  }
}
