/** What the remaining keys do: cursor keys, the newline keys, deletion, the keys that change modes, and Tab. */
module EditorMotions {
  import opened Numbers
  import opened Options
  import opened Strings
  import opened Rows
  import opened EditorModel
  import opened EditorLaws
  import opened EditorKeys
  import opened EditorAnswers
  import Bytes
  import Utf8Text

  // ----- Cursor keys

  /** Where a cursor key puts the active cursor, by what it means for rows and characters. */
  predicate CursorKeyLands(s: Session, key: Key, s': Session) {
    if s.mode == Command then
      && s' == s.(commandCursor := s'.commandCursor)
      && (key.code == Left ==> s'.commandCursor == if s.commandCursor > 1 then s.commandCursor - 1 else 1)
      && (key.code == Right ==>
            s'.commandCursor == if s.commandCursor < |s.command| then s.commandCursor + 1 else |s.command|)
      && (key.code == Home ==> s'.commandCursor == 1)
      && (key.code == End ==> s'.commandCursor == |s.command|)
    else
      && s' == s.(cursor := s'.cursor) && s'.cursor <= |s.text| && s.cursor <= |s.text|
      && (key.code == Left ==> s'.cursor == if s.cursor > 0 then s.cursor - 1 else 0)
      && (key.code == Right ==> s'.cursor == if s.cursor < |s.text| then s.cursor + 1 else |s.text|)
      && (key.code == Home ==>
            RowIndex(s.text, s'.cursor) == RowIndex(s.text, s.cursor) && Column(s.text, s'.cursor) == 0)
      && (key.code == End ==>
            && RowIndex(s.text, s'.cursor) == RowIndex(s.text, s.cursor) < |Split(s.text)|
            && Column(s.text, s'.cursor) == |Split(s.text)[RowIndex(s.text, s.cursor)]|)
  }

  /** Left and Right move by one character as far as there is one, Home and End to the ends of the row, and in
      Command mode to the ends of the command; nothing else of the session changes. */
  lemma CursorKeysLand(e: Editor, s: Session, key: Key)
    requires Inv(e, s) && (key.code == Left || key.code == Right || key.code == Home || key.code == End)
    ensures CursorsInside(s) && HistoryInv(e, s)
    ensures var (e', s', action) := Step(e, s, key);
            e' == e.(completion := None) && action == Continue && CursorKeyLands(s, key, s')
  {
    hide Split, RowIndex, Column, RowStart, RowEnd;
    if s.mode != Command {
      StartOfRow(s.text, s.cursor);
      EndOfRow(s.text, s.cursor);
    }
  }

  lemma StartOfRow(t: string, k: nat)
    requires k <= |t|
    ensures RowIndex(t, RowStart(t, k)) == RowIndex(t, k) && Column(t, RowStart(t, k)) == 0
  {
    hide RowIndex, RowEnd;
    RowIndexAtStart(t, k);
    RowBoundsUnique(t, RowStart(t, k), RowStart(t, k), RowEnd(t, k));
  }

  lemma EndOfRow(t: string, k: nat)
    requires k <= |t|
    ensures RowIndex(t, RowEnd(t, k)) == RowIndex(t, k) < |Split(t)|
    ensures Column(t, RowEnd(t, k)) == |Split(t)[RowIndex(t, k)]|
  {
    hide RowIndex, Split, RowsBefore, RowsAfter;
    var s, e := RowStart(t, k), RowEnd(t, k);
    RowBoundsUnique(t, s, e, e);
    RowIndexAtStart(t, k);
    RowIndexAtStart(t, e);
    SplitAt(t, k);
    assert Split(t)[RowIndex(t, k)] == Row(t, k);
  }

  /** In Normal and Visual mode h and l are Left and Right, and j and k go down and up as `VerticalLands` says. */
  lemma LettersMove(e: Editor, s: Session, key: Key)
    requires Inv(e, s) && (s.mode == Normal || s.mode == Visual) && s.pending.None? && key.code.Char? && !key.ctrl
    ensures CursorsInside(s) && HistoryInv(e, s)
    ensures key.code.ch == 'h' ==> Step(e, s, key) == Step(e, s, Plainly(Left))
    ensures key.code.ch == 'l' ==> Step(e, s, key) == Step(e, s, Plainly(Right))
    ensures var forget := e.(completion := None);
            && (key.code.ch == 'j' ==>
                  Step(e, s, key) == (forget, s.(cursor := Vertical(s.text, s.cursor, 1)), Continue))
            && (key.code.ch == 'k' ==>
                  Step(e, s, key) == (forget, s.(cursor := Vertical(s.text, s.cursor, -1)), Continue))
            && (key.code.ch !in "hjkldypiv:" ==> Step(e, s, key) == (forget, s, Continue))
  {
    hide Vertical, RowStart, RowEnd;
  }

  /** A pending operator that is not doubled is forgotten, and the character counts for itself. */
  lemma PendingForgotten(e: Editor, s: Session, ch: char)
    requires Inv(e, s) && s.mode == Normal && s.pending.Some? && ch != s.pending.value
    ensures CursorsInside(s) && HistoryInv(e, s)
    ensures Step(e, s, Press(ch)) == Step(e, s.(pending := None), Press(ch))
  {
    hide Vertical, RowStart, RowEnd, PasteAfter, DeleteRow, YankRow;
  }

  // ----- Newlines

  /** The rows of a text cut in two: the cut row is in both parts. */
  lemma {:induction false} SplitCut(a: string, b: string)
    ensures var x, y := Split(a), Split(b);
            Split(a + b) == x[..|x| - 1] + [x[|x| - 1] + y[0]] + y[1..]
    decreases |a|
  {
    hide Split;
    if a == "" {
      SplitNothing();
      assert a + b == b && "" + Split(b)[0] == Split(b)[0];
      assert Split(b) == [Split(b)[0]] + Split(b)[1..];
      assert [""][..0] == [];
    } else {
      assert (a + b)[1..] == a[1..] + b;
      SplitCut(a[1..], b);
      SplitFirst(a);
      SplitFirst(a + b);
      CutOntoFirst(a[0], Split(a[1..]), Split(b));
    }
  }

  lemma CutOntoFirst(c: char, x: seq<string>, y: seq<string>)
    requires x != [] && y != []
    ensures var whole := x[..|x| - 1] + [x[|x| - 1] + y[0]] + y[1..];
            && (var x' := [[c] + x[0]] + x[1..];
                [[c] + whole[0]] + whole[1..] == x'[..|x'| - 1] + [x'[|x'| - 1] + y[0]] + y[1..])
            && (var x' := [""] + x;
                [""] + whole == x'[..|x'| - 1] + [x'[|x'| - 1] + y[0]] + y[1..])
  {
    var whole := x[..|x| - 1] + [x[|x| - 1] + y[0]] + y[1..];
    if |x| == 1 {
      assert [c] + (x[0] + y[0]) == [c] + x[0] + y[0];
    }
  }

  predicate IsNewlineKey(key: Key) {
    (key.ctrl && (key.code == Char('j') || key.code == Char('J'))) || (key.code == Enter && key.shift)
  }

  /** Ctrl-J and Shift-Enter cut the row at the cursor in two and go to the start of the second part, in the
      modes that type; in Command mode they put the newline into the command, in the other modes they do
      nothing. */
  lemma NewlineSplitsRow(e: Editor, s: Session, key: Key)
    requires Inv(e, s) && IsNewlineKey(key)
    ensures CursorsInside(s) && HistoryInv(e, s)
    ensures var (e', s', action) := Step(e, s, key);
            && e' == e.(completion := None) && action == Continue
            && match s.mode
               case Normal => s' == s
               case Visual => s' == s
               case Command =>
                 s' == s.(command := s.command[..s.commandCursor] + "\n" + s.command[s.commandCursor..],
                          commandCursor := s.commandCursor + 1)
               case _ =>
                 var rows, r, col := Split(s.text), RowIndex(s.text, s.cursor), Column(s.text, s.cursor);
                 && s' == s.(text := s'.text, cursor := s'.cursor) && s'.cursor <= |s'.text|
                 && r < |rows| && col <= |rows[r]|
                 && Split(s'.text) == rows[..r] + [rows[r][..col], rows[r][col..]] + rows[r + 1..]
                 && RowIndex(s'.text, s'.cursor) == r + 1 && Column(s'.text, s'.cursor) == 0
  {
    hide Split, RowIndex, Column, RowStart, RowEnd;
    if s.mode == Plain || s.mode == Insert {
      CutByNewline(s.text, s.cursor);
    }
  }

  lemma CutByNewline(t: string, k: nat)
    requires k <= |t|
    ensures var rows, r, col := Split(t), RowIndex(t, k), Column(t, k);
            var u := t[..k] + "\n" + t[k..];
            && r < |rows| && col <= |rows[r]|
            && Split(u) == rows[..r] + [rows[r][..col], rows[r][col..]] + rows[r + 1..]
            && RowIndex(u, k + 1) == r + 1 && Column(u, k + 1) == 0
  {
    hide Split, RowsBefore, RowsAfter, RowEnd, CountNewlines;
    var a, b := t[..k], t[k..];
    var u := a + "\n" + b;
    assert t == a + b;
    SplitCut(a, b);
    SplitConcat(a, b);
    LastRowOfPrefix(t, k);
    assert u[..k + 1] == a + "\n";
    CountConcat(a, "\n");
    OneNewline();
    assert u[k] == '\n';
    var x, y := Split(a), Split(b);
    PartsOfCut(x, y, Split(t));
  }

  lemma OneNewline()
    ensures CountNewlines("\n") == 1
  {
  }

  lemma PartsOfCut(x: seq<string>, y: seq<string>, rows: seq<string>)
    requires x != [] && y != [] && rows == x[..|x| - 1] + [x[|x| - 1] + y[0]] + y[1..]
    ensures var r, col := |x| - 1, |x[|x| - 1]|;
            && r < |rows| && col <= |rows[r]|
            && x + y == rows[..r] + [rows[r][..col], rows[r][col..]] + rows[r + 1..]
  {
    var r, col := |x| - 1, |x[|x| - 1]|;
    assert rows[r] == x[r] + y[0] && rows[..r] == x[..r] && rows[r + 1..] == y[1..];
    assert rows[r][..col] == x[r] && rows[r][col..] == y[0];
    assert x == x[..r] + [x[r]] && y == [y[0]] + y[1..];
  }

  /** The text up to a position has as many rows as the position has newlines before it, and the last one is
      the part of its row before the position. */
  lemma LastRowOfPrefix(t: string, k: nat)
    requires k <= |t|
    ensures |Split(t[..k])| == RowIndex(t, k) + 1
    ensures |Split(t[..k])[|Split(t[..k])| - 1]| == Column(t, k)
  {
    hide Split, RowsBefore, RowsAfter, CountNewlines;
    var a := t[..k];
    assert a[..k] == a;
    SplitRoundTrip(a);
    SplitAt(a, k);
    RowStartOfPrefix(t, k);
    NoneAfter(a, k);
    assert Row(a, k) == a[RowStart(t, k)..];
  }

  lemma NoneAfter(a: string, k: nat)
    requires k == |a|
    ensures RowsAfter(a, k) == [] && RowEnd(a, k) == k
  {
  }

  // ----- Deletion

  /** In the modes that type, Backspace is Left and then Delete, unless the cursor is at the start; in Normal
      and Visual mode it is Left. */
  lemma BackspaceIsLeftDelete(e: Editor, s: Session)
    requires Inv(e, s)
    ensures var back, leftDelete := [Plainly(Backspace)], [Plainly(Left), Plainly(Delete)];
            match s.mode
            case Normal => Run(e, s, back) == Run(e, s, [Plainly(Left)])
            case Visual => Run(e, s, back) == Run(e, s, [Plainly(Left)])
            case Command => s.commandCursor > 1 ==> Run(e, s, back) == Run(e, s, leftDelete)
            case _ => if s.cursor > 0 then Run(e, s, back) == Run(e, s, leftDelete)
                      else Run(e, s, back) == (e.(completion := None), s)
  {
    RunOne(e, s, Plainly(Backspace));
    RunOne(e, s, Plainly(Left));
    RunTwo(e, s, Plainly(Left), Plainly(Delete));
    var (e1, s1) := Run(e, s, [Plainly(Left)]);
    RunOne(e1, s1, Plainly(Delete));
    SteppedBack(e, s);
    SteppedBack(e1, s1);
    hide Run, Inv, Step, BackspaceKey, DeleteKey, MoveLeft;
    ErasedBack(s);
  }

  lemma SteppedBack(e: Editor, s: Session)
    requires CursorsInside(s) && HistoryInv(e, s)
    ensures var forget := e.(completion := None);
            && Step(e, s, Plainly(Backspace)) == (forget, BackspaceKey(s), Continue)
            && Step(e, s, Plainly(Left)) == (forget, MoveLeft(s), Continue)
            && Step(e, s, Plainly(Delete)) == (forget, DeleteKey(s), Continue)
  {
    hide BackspaceKey, MoveLeft, DeleteKey;
  }

  lemma ErasedBack(s: Session)
    requires CursorsInside(s) && CommandInv(s)
    ensures CursorsInside(MoveLeft(s))
    ensures match s.mode
            case Normal => BackspaceKey(s) == MoveLeft(s)
            case Visual => BackspaceKey(s) == MoveLeft(s)
            case Command => s.commandCursor > 1 ==> BackspaceKey(s) == DeleteKey(MoveLeft(s))
            case _ => BackspaceKey(s) == if s.cursor > 0 then DeleteKey(MoveLeft(s)) else s
  {
  }

  /** Delete and, on a line that is not empty, Ctrl-D remove the character under the cursor, if any. */
  lemma DeleteRemoves(e: Editor, s: Session, key: Key)
    requires Inv(e, s) && DeletesCharacter(key)
    requires (if s.mode == Command then s.command else s.text) != ""
    ensures CursorsInside(s) && HistoryInv(e, s)
    ensures var (e', s', action) := Step(e, s, key);
            && e' == e.(completion := None) && action == Continue
            && if s.mode == Command then
                 && s' == s.(command := s'.command)
                 && (s.commandCursor == |s.command| ==> s' == s)
                 && (s.commandCursor < |s.command| ==>
                       |s'.command| + 1 == |s.command| && s'.command[..s.commandCursor] == s.command[..s.commandCursor]
                       && s'.command[s.commandCursor..] == s.command[s.commandCursor + 1..])
               else
                 && s' == s.(text := s'.text)
                 && (s.cursor == |s.text| ==> s' == s)
                 && (s.cursor < |s.text| ==>
                       |s'.text| + 1 == |s.text| && s'.text[..s.cursor] == s.text[..s.cursor]
                       && s'.text[s.cursor..] == s.text[s.cursor + 1..])
  {
  }

  /** With nothing yanked `p` does nothing. */
  lemma PasteNothing(e: Editor, s: Session)
    requires Ready(e, s) && e.yank.text == ""
    ensures CursorsInside(s) && HistoryInv(e, s)
    ensures Step(e, s, Press('p')) == (e.(completion := None), s, Continue)
  {
  }

  // ----- Modes

  /** A selection opened and closed again, a command begun and given up, and Insert mode entered and left. */
  lemma ModeRoundTrips(e: Editor, s: Session)
    requires Ready(e, s)
    ensures var forget := e.(completion := None);
            && Run(e, s, [Press('v'), Plainly(Esc)]) == (forget, s)
            && Run(e, s, [Press('v'), Press('v')]) == (forget, s)
            && Run(e, s, [Press(':'), Plainly(Esc)]) == (forget, s)
            && Run(e, s, [Press(':'), Plainly(Backspace)]) == (forget, s)
            && Run(e, s, [Press('i'), Plainly(Esc)])
               == (forget, s.(cursor := if s.cursor > 0 then s.cursor - 1 else 0))
            && Run(e, s, [Plainly(Esc)]) == (forget, s)
  {
    VisualRoundTrip(e, s);
    CommandRoundTrip(e, s);
    InsertRoundTrip(e, s);
    RunOne(e, s, Plainly(Esc));
    hide Run, Inv;
  }

  lemma VisualRoundTrip(e: Editor, s: Session)
    requires Ready(e, s)
    ensures Run(e, s, [Press('v'), Plainly(Esc)]) == (e.(completion := None), s)
    ensures Run(e, s, [Press('v'), Press('v')]) == (e.(completion := None), s)
  {
    RunTwo(e, s, Press('v'), Plainly(Esc));
    RunTwo(e, s, Press('v'), Press('v'));
    RunOne(e, s, Press('v'));
    var (e1, s1) := Run(e, s, [Press('v')]);
    RunOne(e1, s1, Plainly(Esc));
    RunOne(e1, s1, Press('v'));
    hide Run;
  }

  /** A selection starts at the bytes before the cursor. */
  lemma SelectionStarts(e: Editor, s: Session)
    requires Ready(e, s)
    ensures CursorsInside(s) && HistoryInv(e, s)
    ensures Step(e, s, Press('v'))
         == (e.(completion := None),
             s.(mode := Visual, anchor := Some(|Bytes.Encode(s.text[..s.cursor])|)), Continue)
  {
    Utf8Text.EncodedLength(s.text[..s.cursor]);
    hide Bytes.Encode, Utf8Text.ByteLen;
  }

  lemma CommandRoundTrip(e: Editor, s: Session)
    requires Ready(e, s)
    ensures Run(e, s, [Press(':'), Plainly(Esc)]) == (e.(completion := None), s)
    ensures Run(e, s, [Press(':'), Plainly(Backspace)]) == (e.(completion := None), s)
  {
    RunTwo(e, s, Press(':'), Plainly(Esc));
    RunTwo(e, s, Press(':'), Plainly(Backspace));
    RunOne(e, s, Press(':'));
    var (e1, s1) := Run(e, s, [Press(':')]);
    RunOne(e1, s1, Plainly(Esc));
    RunOne(e1, s1, Plainly(Backspace));
    hide Run;
  }

  lemma InsertRoundTrip(e: Editor, s: Session)
    requires Ready(e, s)
    ensures Run(e, s, [Press('i'), Plainly(Esc)])
         == (e.(completion := None), s.(cursor := if s.cursor > 0 then s.cursor - 1 else 0))
  {
    RunTwo(e, s, Press('i'), Plainly(Esc));
    RunOne(e, s, Press('i'));
    var (e1, s1) := Run(e, s, [Press('i')]);
    RunOne(e1, s1, Plainly(Esc));
    hide Run;
  }

  /** A command typed from Normal mode is submitted with its colon, whatever stands in the text. */
  lemma TypedCommand(e: Editor, s: Session, word: string)
    requires Ready(e, s)
    ensures ReadLine(e, s, Ahead([Press(':')] + Typed(word), [Pressed(Plainly(Enter))]))
         == (e.(completion := None), Some(Submitted(":" + word)))
  {
    hide Inv, ReadLine, Trim, Step;
    var forget := e.(completion := None);
    var s1 := EnterCommand(s);
    var enter := [Pressed(Plainly(Enter))];
    CommandOpens(e, s);
    assert Ahead([Press(':')] + Typed(word), enter) == [Pressed(Press(':'))] + Ahead(Typed(word), enter);
    ReadOne(e, s, Press(':'), Ahead(Typed(word), enter));
    CommandTyped(forget, s1, word, enter);
    var s2 := s1.(command := ":" + word, commandCursor := |word| + 1);
    ActionExactly(forget, s2, Plainly(Enter));
    ColonIsNoSwitch(word);
    assert Step(forget, s2, Plainly(Enter)).2 == Submit(":" + word);
    ReadSubmits(forget, s2, Plainly(Enter), []);
    assert enter + [] == enter;
  }

  lemma CommandOpens(e: Editor, s: Session)
    requires Ready(e, s)
    ensures CursorsInside(s) && HistoryInv(e, s)
    ensures Step(e, s, Press(':')) == (e.(completion := None), EnterCommand(s), Continue)
  {
  }

  lemma ColonIsNoSwitch(word: string)
    ensures Trim(":" + word) != "/vim"
  {
    var s := ":" + word;
    assert s[0] == ':';
    ColonShows();
    hide IsWhitespace;
    assert TrimStart(s) == s;
    var after := TrimEndDrops(s);
    if TrimEnd(s) != "" { assert TrimEnd(s)[0] == s[0]; }
  }

  lemma ColonShows()
    ensures !IsWhitespace(':')
  {
  }

  lemma {:induction false} CommandTyped(e: Editor, s: Session, word: string, events: seq<Event>)
    requires Inv(e, s) && s.mode == Command && e.completion.None? && s.commandCursor == |s.command|
    ensures var s' := s.(command := s.command + word, commandCursor := |s.command + word|);
            Inv(e, s') && ReadLine(e, s, Ahead(Typed(word), events)) == ReadLine(e, s', events)
    decreases |word|
  {
    hide Inv, ReadLine, InsertText;
    if word == "" {
      assert s.command + word == s.command;
      assert Ahead(Typed(word), events) == events;
    } else {
      StepTyping(e, s, word[0]);
      var s1 := InsertText(s, [word[0]]);
      AppendedToCommand(s, word[0]);
      assert Ahead(Typed(word), events) == [Pressed(Press(word[0]))] + Ahead(Typed(word[1..]), events);
      ReadOne(e, s, Press(word[0]), Ahead(Typed(word[1..]), events));
      CommandTyped(e, s1, word[1..], events);
      assert s1.command + word[1..] == s.command + word;
    }
  }

  lemma AppendedToCommand(s: Session, ch: char)
    requires CursorsInside(s) && s.mode == Command && s.commandCursor == |s.command|
    ensures InsertText(s, [ch]) == s.(command := s.command + [ch], commandCursor := |s.command| + 1)
  {
    assert s.command[..s.commandCursor] == s.command && s.command[s.commandCursor..] == "";
  }

  // ----- History

  /** Up and Down do nothing in Command mode and where there is nothing to go to; otherwise, as long as they stay
      in the history, they show an entry of it with the cursor at its end, and leave Insert and Plain mode as they
      are while a selection and a pending operator are given up. */
  lemma RecallKeeps(e: Editor, s: Session, key: Key)
    requires Inv(e, s) && (key.code == Up || key.code == Down)
    ensures CursorsInside(s) && HistoryInv(e, s)
    ensures var (e', s', action) := Step(e, s, key);
            && action == Continue && e' == e.(completion := None)
            && if s.mode == Command || e.history == [] || (key.code == Down && s.historyIndex.None?) then s' == s
               else s'.historyIndex.Some? ==>
                 && s'.historyIndex.value < |e.history| && s'.text == e.history[s'.historyIndex.value]
                 && s' == s.(text := s'.text, cursor := |s'.text|, pending := None, anchor := None,
                             mode := if s.mode == Visual then Normal else s.mode,
                             historyIndex := s'.historyIndex, historyBackup := s'.historyBackup)
  {
    hide TypeChar, Complete, BackspaceKey, DeleteKey, MoveLeft, MoveRight, MoveHome, MoveEnd, Escape, InsertText, Trim;
  }

  // ----- Completion

  /** Exactly the completions that go on after the prefix are offered, in their order. */
  lemma {:induction false} MatchesExactly(completions: seq<string>, prefix: string)
    ensures forall m :: m in Matches(completions, prefix) <==> m in completions && prefix <= m && m != prefix
  {
    if completions != [] { MatchesExactly(completions[1..], prefix); }
  }

  lemma {:induction false} MatchesInOrder(a: seq<string>, b: seq<string>, prefix: string)
    ensures Matches(a + b, prefix) == Matches(a, prefix) + Matches(b, prefix)
  {
    if a == [] {
      assert a + b == b;
    } else {
      assert (a + b)[1..] == a[1..] + b;
      MatchesInOrder(a[1..], b, prefix);
    }
  }

  /** The text is the beginning of a slash command that some completion goes on after. */
  predicate CanComplete(e: Editor, s: Session) {
    && s.mode != Command && s.cursor == |s.text| && s.text != "" && s.text[0] == '/'
    && (forall c <- s.text :: !IsWhitespace(c))
    && exists m <- e.completions :: s.text <= m && m != s.text
  }

  /** Outside a cycle, Tab does something exactly when the text can be completed: it then puts the first fitting
      completion in place, as `TabCycles` says. */
  lemma TabActsExactly(e: Editor, s: Session)
    requires Inv(e, s) && e.completion.None?
    ensures CursorsInside(s) && HistoryInv(e, s)
    ensures var (e', s', action) := Step(e, s, Plainly(Tab));
            && action == Continue
            && (e'.completion.Some? <==> CanComplete(e, s))
            && (!CanComplete(e, s) ==> e' == e && s' == s)
            && (CanComplete(e, s) ==> s'.text in e.completions && s.text <= s'.text && s'.text != s.text)
  {
    hide IsWhitespace, Matches;
    MatchesExactly(e.completions, s.text);
    PrefixExactly(s.text, s.cursor);
    if CanComplete(e, s) {
      var m :| m in e.completions && s.text <= m && m != s.text;
      assert m in Matches(e.completions, s.text);
      FirstTab(e, s);
      assert Matches(e.completions, s.text)[0] in Matches(e.completions, s.text);
    } else if SlashPrefix(s.text, s.cursor).Some? && s.mode != Command {
      FirstIsIn(Matches(e.completions, s.text));
    }
  }

  lemma FirstIsIn(texts: seq<string>)
    ensures texts == [] || texts[0] in texts
  {
  }

  lemma PrefixExactly(line: string, pos: nat)
    requires pos <= |line|
    ensures SlashPrefix(line, pos) ==
              if pos == |line| && line != "" && line[0] == '/' && (forall c <- line :: !IsWhitespace(c)) then Some(line)
              else None
  {
    hide IsWhitespace;
  }
}
