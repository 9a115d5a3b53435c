/** The line editor as the program runs it: buffers addressed by UTF-8 byte offsets and updated in
    place. Slicing, inserting and draining are defined on character boundaries only, so that no
    handler cuts a character is part of every proof. Each handler is proved to do, seen through
    `View`, what the character machine of `EditorModel` does. */
module LineEditor {
  import opened Numbers
  import opened Options
  import opened Strings
  import opened Utf8Text
  import opened TextOffsets
  import Rows
  import M = EditorModel

  // ----- Edits on a buffer and its cursor

  /** Inserting at `b`, then standing after what was inserted. */
  lemma InsertMovesCursor(t: string, b: nat, s: string)
    requires IsBoundary(t, b)
    ensures At(InsertStr(t, b, s), b + ByteLen(s), CharIndex(t, b) + |s|)
  {
    hide IsBoundary, CharIndex, ByteLen, At;
    OffsetCharIndex(t, b);
    AfterInserted(SliceTo(t, b), s, SliceFrom(t, b));
  }

  lemma AfterInserted(before: string, s: string, after: string)
    ensures At(before + s + after, ByteLen(before) + ByteLen(s), |before| + |s|)
  {
    hide IsBoundary, CharIndex, ByteLen, At;
    ByteLenConcat(before, s);
    OffsetAt(before + s + after, |before + s|);
    assert (before + s + after)[..|before + s|] == before + s;
  }

  method RemovePreviousChar(t: string, b: nat) returns (shorter: string, cursor: nat)
    requires IsBoundary(t, b)
    ensures var k := CharIndex(t, b);
            if k == 0 then shorter == t && cursor == b
            else shorter == t[..k - 1] + t[k..] && At(shorter, cursor, k - 1)
  {
    hide IsBoundary, CharIndex;
    PreviousCharacter(t, b);
    if b == 0 {
      return t, b;
    }
    var start := PreviousBoundary(t, b);
    shorter := Drained(t, start, b);
    cursor := start;
    AtKept(t, shorter, start, CharIndex(t, start));
  }

  class EditSession {
    var text: string
    var cursor: nat
    var mode: M.Mode
    var pendingOperator: Option<char>
    var visualAnchor: Option<nat>
    var commandBuffer: string
    var commandCursor: nat
    var historyIndex: Option<nat>
    var historyBackup: Option<string>

    /** Both cursors may be sliced at. */
    ghost predicate Valid()
      reads this
    {
      IsBoundary(text, cursor) && IsBoundary(commandBuffer, commandCursor)
    }

    /** The session with its cursors counted in characters. */
    ghost function View(): M.Session
      requires Valid()
      reads this
    {
      M.Session(text, CharIndex(text, cursor), mode, pendingOperator, visualAnchor,
                commandBuffer, CharIndex(commandBuffer, commandCursor), historyIndex, historyBackup)
    }

    constructor (vimEnabled: bool)
      ensures Valid() && View() == M.NewSession(vimEnabled)
    {
      text, cursor := "", 0;
      mode := if vimEnabled then M.Insert else M.Plain;
      pendingOperator, visualAnchor := None, None;
      commandBuffer, commandCursor := "", 0;
      historyIndex, historyBackup := None, None;
    }

    function ActiveText(): string
      reads this
    {
      if mode == M.Command then commandBuffer else text
    }

    method SetTextFromHistory(entry: string)
      requires Valid()
      modifies this
      ensures Valid() && View() == M.SetText(old(View()), entry)
    {
      text := entry;
      cursor := ByteLen(text);
      AtEnd(text);
      pendingOperator := None;
      visualAnchor := None;
      if mode != M.Plain && mode != M.Insert {
        mode := M.Normal;
      }
    }

    method EnterInsertMode()
      requires Valid()
      modifies this
      ensures Valid() && View() == M.EnterMode(old(View()), M.Insert)
    {
      mode, pendingOperator, visualAnchor := M.Insert, None, None;
    }

    method EnterNormalMode()
      requires Valid()
      modifies this
      ensures Valid() && View() == M.EnterMode(old(View()), M.Normal)
    {
      mode, pendingOperator, visualAnchor := M.Normal, None, None;
    }

    method EnterVisualMode()
      requires Valid()
      modifies this
      ensures Valid() && View() == M.EnterVisual(old(View()))
    {
      mode, pendingOperator, visualAnchor := M.Visual, None, Some(cursor);
      OffsetCharIndex(text, cursor);
    }

    method EnterCommandMode()
      requires Valid()
      modifies this
      ensures Valid() && View() == M.EnterCommand(old(View()))
    {
      mode, pendingOperator, visualAnchor := M.Command, None, None;
      commandBuffer := "";
      commandBuffer := commandBuffer + ":";
      commandCursor := ByteLen(commandBuffer);
      AtEnd(commandBuffer);
    }

    method ExitCommandMode()
      requires Valid()
      modifies this
      ensures Valid() && View() == M.ExitCommand(old(View()))
    {
      commandBuffer := "";
      commandCursor := 0;
      EnterNormalMode();
    }
  }

  class LineEditor {
    var completions: seq<string>
    var history: seq<string>
    var yankBuffer: M.Yank
    var vimEnabled: bool
    var completionState: Option<M.Completion>

    ghost function View(): M.Editor
      reads this
    {
      M.Editor(completions, history, yankBuffer, vimEnabled, completionState)
    }

    constructor (completions: seq<string>)
      ensures View() == M.Editor(completions, [], M.Yank("", false), false, None)
    {
      this.completions := completions;
      history, yankBuffer, vimEnabled, completionState := [], M.Yank("", false), false, None;
    }

    method PushHistory(entry: string)
      modifies this
      ensures View() == old(View()).(history := if Trim(entry) == "" then old(history) else old(history) + [entry])
    {
      if Trim(entry) == "" {
        return;
      }
      history := history + [entry];
    }

    // ----- Motions

    method MoveLeft(session: EditSession)
      requires session.Valid() && M.CommandInv(session.View())
      modifies session
      ensures session.Valid() && session.View() == M.MoveLeft(old(session.View()))
    {
      if session.mode == M.Command {
        session.commandCursor := PreviousCommandBoundary(session.commandBuffer, session.commandCursor);
      } else {
        session.cursor := PreviousBoundary(session.text, session.cursor);
      }
    }

    method MoveRight(session: EditSession)
      requires session.Valid()
      modifies session
      ensures session.Valid() && session.View() == M.MoveRight(old(session.View()))
    {
      if session.mode == M.Command {
        session.commandCursor := NextBoundary(session.commandBuffer, session.commandCursor);
      } else {
        session.cursor := NextBoundary(session.text, session.cursor);
      }
    }

    method MoveLineStart(session: EditSession)
      requires session.Valid() && M.CommandInv(session.View())
      modifies session
      ensures session.Valid() && session.View() == M.MoveHome(old(session.View()))
    {
      if session.mode == M.Command {
        session.commandCursor := 1;
        FirstBoundary(session.commandBuffer);
      } else {
        session.cursor := LineStart(session.text, session.cursor);
      }
    }

    method MoveLineEnd(session: EditSession)
      requires session.Valid()
      modifies session
      ensures session.Valid() && session.View() == M.MoveEnd(old(session.View()))
    {
      if session.mode == M.Command {
        session.commandCursor := ByteLen(session.commandBuffer);
        AtEnd(session.commandBuffer);
      } else {
        session.cursor := LineEnd(session.text, session.cursor);
      }
    }

    method MoveUp(session: EditSession)
      requires session.Valid()
      modifies session
      ensures session.Valid() && session.View() == M.MoveRows(old(session.View()), -1)
    {
      if session.mode == M.Command {
        return;
      }
      session.cursor := MoveVertical(session.text, session.cursor, -1);
    }

    method MoveDown(session: EditSession)
      requires session.Valid()
      modifies session
      ensures session.Valid() && session.View() == M.MoveRows(old(session.View()), 1)
    {
      if session.mode == M.Command {
        return;
      }
      session.cursor := MoveVertical(session.text, session.cursor, 1);
    }

    // ----- Edits

    method InsertActiveText(session: EditSession, ins: string)
      requires session.Valid()
      modifies session
      ensures session.Valid() && session.View() == M.InsertText(old(session.View()), ins)
    {
      hide ByteLen, IsBoundary, CharIndex;
      if session.mode == M.Command {
        InsertMovesCursor(session.commandBuffer, session.commandCursor, ins);
        session.commandBuffer := InsertStr(session.commandBuffer, session.commandCursor, ins);
        session.commandCursor := session.commandCursor + ByteLen(ins);
      } else {
        InsertMovesCursor(session.text, session.cursor, ins);
        session.text := InsertStr(session.text, session.cursor, ins);
        session.cursor := session.cursor + ByteLen(ins);
      }
    }

    method HandleBackspace(session: EditSession)
      requires session.Valid() && M.CommandInv(session.View())
      modifies session
      ensures session.Valid() && session.View() == M.BackspaceKey(old(session.View()))
    {
      match session.mode {
        case Normal => MoveLeft(session);
        case Visual => MoveLeft(session);
        case Command =>
          OneByteIsOneChar(session.commandBuffer, session.commandCursor);
          if session.commandCursor <= 1 {
            session.ExitCommandMode();
          } else {
            session.commandBuffer, session.commandCursor :=
              RemovePreviousChar(session.commandBuffer, session.commandCursor);
          }
        case _ =>
          session.text, session.cursor := RemovePreviousChar(session.text, session.cursor);
      }
    }

    method DeleteCharUnderCursor(session: EditSession)
      requires session.Valid()
      modifies session
      ensures session.Valid() && session.View() == M.DeleteKey(old(session.View()))
    {
      if session.mode == M.Command {
        BeforeEnd(session.commandBuffer, session.commandCursor);
        if session.commandCursor < ByteLen(session.commandBuffer) {
          var end := NextBoundary(session.commandBuffer, session.commandCursor);
          var drained := Drained(session.commandBuffer, session.commandCursor, end);
          AtKept(session.commandBuffer, drained, session.commandCursor,
                 CharIndex(session.commandBuffer, session.commandCursor));
          session.commandBuffer := drained;
        }
      } else {
        BeforeEnd(session.text, session.cursor);
        if session.cursor < ByteLen(session.text) {
          var end := NextBoundary(session.text, session.cursor);
          var drained := Drained(session.text, session.cursor, end);
          AtKept(session.text, drained, session.cursor, CharIndex(session.text, session.cursor));
          session.text := drained;
        }
      }
    }

    method DeleteCurrentLine(session: EditSession)
      requires session.Valid()
      modifies this, session
      ensures session.Valid() && session.View() == M.DeleteRow(old(session.View()))
      ensures View() == M.YankRow(old(View()), old(session.View()))
    {
      DeleteRangeOnBoundaries(session.text, session.cursor);
      var (lineStart, lineEnd, deleteStart) := CurrentLineDeleteRange(session.text, session.cursor);
      yankBuffer := M.Yank(Slice(session.text, lineStart, lineEnd), true);
      var drained := Drained(session.text, deleteStart, lineEnd);
      AtKept(session.text, drained, deleteStart, CharIndex(session.text, deleteStart));
      BeforeEnd(drained, deleteStart);
      session.text := drained;
      session.cursor := Min(deleteStart, ByteLen(drained));
    }

    method YankCurrentLine(session: EditSession)
      requires session.Valid()
      modifies this
      ensures View() == M.YankRow(old(View()), session.View())
    {
      DeleteRangeOnBoundaries(session.text, session.cursor);
      var (lineStart, lineEnd, _) := CurrentLineDeleteRange(session.text, session.cursor);
      yankBuffer := M.Yank(Slice(session.text, lineStart, lineEnd), true);
    }

    method PasteAfter(session: EditSession)
      requires session.Valid()
      modifies session
      ensures session.Valid() && session.View() == M.PasteAfter(View(), old(session.View()))
    {
      hide ByteLen, IsBoundary, CharIndex, LineEnd, NextBoundary, Rows.RowEnd, Rows.FlatBetween;
      if yankBuffer.text == "" {
        return;
      }
      if yankBuffer.linewise {
        var lineEnd := LineEnd(session.text, session.cursor);
        BeforeEnd(session.text, lineEnd);
        if lineEnd < ByteLen(session.text) {
          NewlineAfter(session.text, lineEnd, CharIndex(session.text, lineEnd));
        }
        AtEnd(session.text);
        var insertAt := if lineEnd < ByteLen(session.text) then lineEnd + 1 else ByteLen(session.text);
        assert At(session.text, insertAt, M.PasteAt(session.text, CharIndex(session.text, session.cursor)));
        BeforeEnd(session.text, insertAt);
        var insertion := yankBuffer.text;
        if insertAt == ByteLen(session.text) && session.text != "" && !EndsWith(session.text, "\n") {
          insertion := "\n" + insertion;
        }
        if insertAt < ByteLen(session.text) && !EndsWith(insertion, "\n") {
          insertion := insertion + "\n";
        }
        CursorAfterPaste(session.text, insertAt, insertion);
        session.text := InsertStr(session.text, insertAt, insertion);
        session.cursor := if StartsWith(insertion, "\n") then insertAt + 1 else insertAt;
        return;
      }
      var insertAt := NextBoundary(session.text, session.cursor);
      InsertMovesCursor(session.text, insertAt, yankBuffer.text);
      session.text := InsertStr(session.text, insertAt, yankBuffer.text);
      session.cursor := insertAt + ByteLen(yankBuffer.text);
    }

    // ----- Completion

    method CompleteSlashCommand(session: EditSession)
      requires session.Valid()
      modifies this, session
      ensures session.Valid()
      ensures (View(), session.View()) == M.Complete(old(View()), old(session.View()))
    {
      if session.mode == M.Command {
        completionState := None;
        return;
      }
      BeforeEnd(session.text, session.cursor);
      if completionState.Some? && session.cursor == ByteLen(session.text)
         && session.text in completionState.value.matches {
        var state := completionState.value;
        var candidate := state.matches[state.nextIndex % |state.matches|];
        completionState := Some(state.(nextIndex := state.nextIndex + 1));
        ReplaceBeforeCursor(session, candidate);
        return;
      }
      var prefix := SlashCommandPrefix(session.text, session.cursor);
      if prefix.None? {
        completionState := None;
        return;
      }
      var matches := M.Matches(completions, prefix.value);
      if matches == [] {
        completionState := None;
        return;
      }
      var candidate;
      if completionState.Some? && completionState.value.prefix == prefix.value
         && completionState.value.matches == matches {
        var state := completionState.value;
        candidate := state.matches[state.nextIndex % |state.matches|];
        completionState := Some(state.(nextIndex := state.nextIndex + 1));
      } else {
        candidate := matches[0];
        completionState := Some(M.Completion(prefix.value, matches, 1));
      }
      ReplaceBeforeCursor(session, candidate);
    }

    /** `text.replace_range(..cursor, candidate)`, the cursor after the candidate. */
    method ReplaceBeforeCursor(session: EditSession, candidate: string)
      requires session.Valid()
      modifies session
      ensures session.Valid() && session.View() == M.ReplaceText(old(session.View()), candidate)
    {
      var rest := SliceFrom(session.text, session.cursor);
      InsertMovesCursor(rest, 0, candidate);
      assert InsertStr(rest, 0, candidate) == candidate + rest;
      session.text := candidate + rest;
      session.cursor := ByteLen(candidate);
    }

    // ----- History

    method HistoryUp(session: EditSession)
      requires session.Valid() && M.HistoryInv(View(), session.View())
      modifies session
      ensures session.Valid() && session.View() == M.HistoryUp(View(), old(session.View()))
    {
      if session.mode == M.Command || history == [] {
        return;
      }
      var nextIndex;
      if session.historyIndex.Some? {
        nextIndex := M.Before(session.historyIndex.value);
      } else {
        session.historyBackup := Some(session.text);
        nextIndex := |history| - 1;
      }
      session.historyIndex := Some(nextIndex);
      session.SetTextFromHistory(history[nextIndex]);
    }

    method HistoryDown(session: EditSession)
      requires session.Valid()
      modifies session
      ensures session.Valid() && session.View() == M.HistoryDown(View(), old(session.View()))
    {
      if session.mode == M.Command || session.historyIndex.None? {
        return;
      }
      var index := session.historyIndex.value;
      if index + 1 < |history| {
        session.historyIndex := Some(index + 1);
        session.SetTextFromHistory(history[index + 1]);
        return;
      }
      session.historyIndex := None;
      var restored := if session.historyBackup.Some? then session.historyBackup.value else "";
      session.historyBackup := None;
      session.SetTextFromHistory(restored);
      if vimEnabled {
        session.EnterInsertMode();
      } else {
        session.mode := M.Plain;
      }
    }

    // ----- Keys

    method HandleMotion(session: EditSession, ch: char)
      requires session.Valid() && M.CommandInv(session.View())
      modifies session
      ensures session.Valid() && session.View() == M.Motion(old(session.View()), ch)
    {
      if ch == 'h' {
        MoveLeft(session);
      } else if ch == 'j' {
        MoveDown(session);
      } else if ch == 'k' {
        MoveUp(session);
      } else if ch == 'l' {
        MoveRight(session);
      }
    }

    method HandleNormalChar(session: EditSession, ch: char)
      requires session.Valid() && M.CommandInv(session.View())
      modifies this, session
      ensures session.Valid()
      ensures (View(), session.View()) == M.NormalChar(old(View()), old(session.View()), ch)
    {
      hide M.DeleteRow, M.YankRow, M.PasteAfter, M.Motion;
      var operator := session.pendingOperator;
      session.pendingOperator := None;
      if operator == Some('d') && ch == 'd' {
        DeleteCurrentLine(session);
        return;
      }
      if operator == Some('y') && ch == 'y' {
        YankCurrentLine(session);
        return;
      }
      match ch {
        case 'd' => session.pendingOperator := Some(ch);
        case 'y' => session.pendingOperator := Some(ch);
        case 'p' => PasteAfter(session);
        case 'i' => session.EnterInsertMode();
        case 'v' => session.EnterVisualMode();
        case ':' => session.EnterCommandMode();
        case _ => HandleMotion(session, ch);
      }
    }

    method HandleVisualChar(session: EditSession, ch: char)
      requires session.Valid() && M.CommandInv(session.View())
      modifies session
      ensures session.Valid() && session.View() == M.VisualChar(old(session.View()), ch)
    {
      if ch == 'v' {
        session.EnterNormalMode();
      } else {
        HandleMotion(session, ch);
      }
    }

    method HandleChar(session: EditSession, ch: char)
      requires session.Valid() && M.CommandInv(session.View())
      modifies this, session
      ensures session.Valid()
      ensures (View(), session.View()) == M.TypeChar(old(View()), old(session.View()), ch)
    {
      hide M.NormalChar, M.VisualChar, M.InsertText;
      match session.mode {
        case Normal => HandleNormalChar(session, ch);
        case Visual => HandleVisualChar(session, ch);
        case _ => InsertActiveText(session, [ch]);
      }
    }

    method HandleEscape(session: EditSession)
      requires session.Valid()
      modifies session
      ensures session.Valid() && session.View() == M.Escape(old(session.View()))
    {
      match session.mode {
        case Insert =>
          if session.cursor > 0 {
            session.cursor := PreviousBoundary(session.text, session.cursor);
          }
          session.EnterNormalMode();
        case Visual => session.EnterNormalMode();
        case Command => session.ExitCommandMode();
        case _ =>
      }
    }

    method InsertNewline(session: EditSession)
      requires session.Valid()
      modifies session
      ensures session.Valid() && session.View() == M.InsertNewline(old(session.View()))
    {
      if session.mode != M.Normal && session.mode != M.Visual {
        InsertActiveText(session, "\n");
      }
    }

    method HandleKeyEvent(session: EditSession, key: M.Key) returns (action: M.Action)
      requires session.Valid() && M.CommandInv(session.View()) && M.HistoryInv(View(), session.View())
      modifies this, session
      ensures session.Valid()
      ensures (View(), session.View(), action) == M.Step(old(View()), old(session.View()), key)
    {
      hide M.TypeChar, M.InsertText, M.InsertNewline, M.DeleteKey, M.Escape, M.BackspaceKey, M.MoveLeft, M.MoveRight,
           M.HistoryUp, M.HistoryDown, M.MoveHome, M.MoveEnd, M.Complete, M.SubmitOrToggle;
      if key.code != M.Tab {
        completionState := None;
      }
      if key.ctrl {
        if key.code == M.Char('c') || key.code == M.Char('C') {
          return if session.ActiveText() != "" then M.Cancel else M.Exit;
        }
        if key.code == M.Char('j') || key.code == M.Char('J') {
          InsertNewline(session);
          return M.Continue;
        }
        if key.code == M.Char('d') || key.code == M.Char('D') {
          if session.ActiveText() == "" {
            return M.Exit;
          }
          DeleteCharUnderCursor(session);
          return M.Continue;
        }
      }
      action := M.Continue;
      match key.code {
        case Enter =>
          if key.shift {
            InsertNewline(session);
          } else {
            action := M.SubmitOrToggle(session.ActiveText());
          }
        case Esc => HandleEscape(session);
        case Backspace => HandleBackspace(session);
        case Delete => DeleteCharUnderCursor(session);
        case Left => MoveLeft(session);
        case Right => MoveRight(session);
        case Up => HistoryUp(session);
        case Down => HistoryDown(session);
        case Home => MoveLineStart(session);
        case End => MoveLineEnd(session);
        case Tab => CompleteSlashCommand(session);
        case Char(ch) => HandleChar(session, ch);
        case OtherKey =>
      }
    }

    /** The interactive loop over a stream of terminal events: no outcome while the line is still
        being edited when the events run out. */
    method ReadLine(events: seq<M.Event>) returns (outcome: Option<M.Outcome>)
      requires M.EditorInv(View()) && completionState.None?
      modifies this
      ensures (View(), outcome) == M.ReadLine(old(View()), M.NewSession(old(vimEnabled)), events)
      ensures M.EditorInv(View())
    {
      hide M.Step, M.SubmitOrToggle;
      var session := new EditSession(vimEnabled);
      for i := 0 to |events|
        invariant fresh(session) && session.Valid() && M.Inv(View(), session.View())
        invariant M.ReadLine(old(View()), M.NewSession(old(vimEnabled)), events)
               == M.ReadLine(View(), session.View(), events[i..])
      {
        if events[i].Ignored? {
          continue;
        }
        M.StepKeepsInv(View(), session.View(), events[i].key);
        var action := HandleKeyEvent(session, events[i].key);
        match action {
          case Continue =>
          case Submit(line) => return Some(M.Submitted(line));
          case Cancel => return Some(M.Cancelled);
          case Exit => return Some(M.Exited);
          case ToggleVim =>
            vimEnabled := !vimEnabled;
            session := new EditSession(vimEnabled);
        }
      }
      return None;
    }
  }

  /** `slash_command_prefix`. */
  function SlashCommandPrefix(line: string, pos: nat): (r: Option<string>)
    requires IsBoundary(line, pos)
    ensures r == M.SlashPrefix(line, CharIndex(line, pos))
  {
    BeforeEnd(line, pos);
    if pos != ByteLen(line) then None
    else
      var prefix := SliceTo(line, pos);
      assert prefix == line;
      if (exists c <- prefix :: IsWhitespace(c)) || !StartsWith(prefix, "/") then None else Some(prefix)
  }

  lemma OneByteIsOneChar(t: string, b: nat)
    requires IsBoundary(t, b)
    requires t != "" ==> t[0] == ':'
    ensures b <= 1 <==> CharIndex(t, b) <= 1
  {
    if t != "" {
      FirstBoundary(t);
      AtOrdered(t, b, CharIndex(t, b), 1, 1);
    }
  }

  lemma CursorAfterPaste(t: string, b: nat, insertion: string)
    requires IsBoundary(t, b)
    ensures At(InsertStr(t, b, insertion), b, CharIndex(t, b))
    ensures StartsWith(insertion, "\n") ==> At(InsertStr(t, b, insertion), b + 1, CharIndex(t, b) + 1)
  {
    hide IsBoundary, CharIndex, ByteLen;
    var k := CharIndex(t, b);
    var u := InsertStr(t, b, insertion);
    IsAt(t, b);
    AtKept(t, u, b, k);
    if StartsWith(insertion, "\n") {
      NewlineAfter(u, b, k);
    }
  }
}
