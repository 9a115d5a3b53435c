/** The modal line editor as a state machine over characters: cursors count characters, so there is
    no such thing as an offset inside a character here. `LineEditor` proves that the byte-offset
    editor behaves like this machine. */
module EditorModel {
  import opened Numbers
  import opened Options
  import opened Strings
  import Utf8Text
  import Rows

  datatype Mode = Plain | Insert | Normal | Visual | Command

  datatype Yank = Yank(text: string, linewise: bool)

  datatype Completion = Completion(prefix: string, matches: seq<string>, nextIndex: nat)

  datatype Editor = Editor(
    completions: seq<string>,
    history: seq<string>,
    yank: Yank,
    vim: bool,
    completion: Option<Completion>)

  /** `anchor` stays a byte offset: the code never moves it with the text. */
  datatype Session = Session(
    text: string,
    cursor: nat,
    mode: Mode,
    pending: Option<char>,
    anchor: Option<nat>,
    command: string,
    commandCursor: nat,
    historyIndex: Option<nat>,
    historyBackup: Option<string>)

  datatype KeyCode =
    | Enter | Esc | Backspace | Delete | Left | Right | Up | Down | Home | End | Tab
    | Char(ch: char)
    | OtherKey

  datatype Key = Key(code: KeyCode, ctrl: bool, shift: bool)

  datatype Action = Continue | Submit(line: string) | Cancel | Exit | ToggleVim

  datatype Event = Pressed(key: Key) | Ignored

  datatype Outcome = Submitted(line: string) | Cancelled | Exited

  // ----- What every reachable state satisfies

  predicate EditorInv(e: Editor) {
    e.yank.text != "" ==> e.yank.linewise
  }

  /** Every cursor is inside its buffer, so `Step` is defined. */
  predicate CursorsInside(s: Session) {
    && s.cursor <= |s.text|
    && s.commandCursor <= |s.command|
  }

  predicate CommandInv(s: Session) {
    if s.mode == Command then s.command != "" && s.command[0] == ':' && 1 <= s.commandCursor
    else s.command == "" && s.commandCursor == 0
  }

  predicate HistoryInv(e: Editor, s: Session) {
    && (s.historyIndex.Some? <==> s.historyBackup.Some?)
    && (s.historyIndex.Some? ==> s.historyIndex.value < |e.history|)
  }

  predicate ModeInv(e: Editor, s: Session) {
    && (s.mode == Plain <==> !e.vim)
    && (s.anchor.Some? <==> s.mode == Visual)
    && (s.pending.Some? ==> s.mode == Normal && s.pending.value in {'d', 'y'})
  }

  predicate CompletionInv(e: Editor, s: Session) {
    e.completion.Some? ==> s.text in e.completion.value.matches && s.cursor == |s.text|
  }

  predicate Inv(e: Editor, s: Session) {
    && EditorInv(e)
    && CursorsInside(s)
    && CommandInv(s)
    && HistoryInv(e, s)
    && ModeInv(e, s)
    && CompletionInv(e, s)
  }

  // ----- The session on its own

  function NewSession(vim: bool): Session {
    Session("", 0, if vim then Insert else Plain, None, None, "", 0, None, None)
  }

  function ActiveText(s: Session): string {
    if s.mode == Command then s.command else s.text
  }

  function EnterMode(s: Session, mode: Mode): Session {
    s.(mode := mode, pending := None, anchor := None)
  }

  function EnterVisual(s: Session): Session
    requires CursorsInside(s)
  {
    s.(mode := Visual, pending := None, anchor := Some(Utf8Text.Offset(s.text, s.cursor)))
  }

  function EnterCommand(s: Session): Session {
    s.(mode := Command, pending := None, anchor := None, command := ":", commandCursor := 1)
  }

  function ExitCommand(s: Session): Session {
    EnterMode(s.(command := "", commandCursor := 0), Normal)
  }

  function SetText(s: Session, entry: string): Session {
    s.(text := entry, cursor := |entry|, pending := None, anchor := None,
       mode := if s.mode != Plain && s.mode != Insert then Normal else s.mode)
  }

  // ----- Motions and edits

  function Before(k: nat): nat {
    if k == 0 then 0 else k - 1
  }

  function After(t: string, k: nat): nat {
    if k >= |t| then |t| else k + 1
  }

  function InsertText(s: Session, ins: string): Session
    requires CursorsInside(s)
  {
    if s.mode == Command then
      s.(command := s.command[..s.commandCursor] + ins + s.command[s.commandCursor..],
         commandCursor := s.commandCursor + |ins|)
    else
      s.(text := s.text[..s.cursor] + ins + s.text[s.cursor..], cursor := s.cursor + |ins|)
  }

  function MoveLeft(s: Session): Session {
    if s.mode == Command then
      s.(commandCursor := if Before(s.commandCursor) == 0 then 1 else Before(s.commandCursor))
    else s.(cursor := Before(s.cursor))
  }

  function MoveRight(s: Session): Session {
    if s.mode == Command then s.(commandCursor := After(s.command, s.commandCursor))
    else s.(cursor := After(s.text, s.cursor))
  }

  function MoveHome(s: Session): Session
    requires CursorsInside(s)
  {
    if s.mode == Command then s.(commandCursor := 1) else s.(cursor := Rows.RowStart(s.text, s.cursor))
  }

  function MoveEnd(s: Session): Session
    requires CursorsInside(s)
  {
    if s.mode == Command then s.(commandCursor := |s.command|)
    else s.(cursor := Rows.RowEnd(s.text, s.cursor))
  }

  /** The position `delta` rows away, in the column kept as far as the target row is long. */
  function Vertical(t: string, k: nat, delta: int): nat
    requires k <= |t|
  {
    var rows := Rows.Split(t);
    var row := Rows.RowIndex(t, k);
    var target := if row + delta < 0 then 0 else Min(row + delta, |rows| - 1);
    if target == row then k
    else Rows.RowOffset(rows, target) + Min(Rows.Column(t, k), |rows[target]|)
  }

  function MoveRows(s: Session, delta: int): Session
    requires CursorsInside(s)
  {
    if s.mode == Command then s else s.(cursor := Vertical(s.text, s.cursor, delta))
  }

  function BackspaceKey(s: Session): Session
    requires CursorsInside(s)
  {
    match s.mode
    case Normal => MoveLeft(s)
    case Visual => MoveLeft(s)
    case Command =>
      if s.commandCursor <= 1 then ExitCommand(s)
      else s.(command := s.command[..s.commandCursor - 1] + s.command[s.commandCursor..],
              commandCursor := s.commandCursor - 1)
    case _ =>
      if s.cursor == 0 then s
      else s.(text := s.text[..s.cursor - 1] + s.text[s.cursor..], cursor := s.cursor - 1)
  }

  function DeleteKey(s: Session): Session
    requires CursorsInside(s)
  {
    if s.mode == Command then
      if s.commandCursor < |s.command| then
        s.(command := s.command[..s.commandCursor] + s.command[s.commandCursor + 1..])
      else s
    else if s.cursor < |s.text| then
      s.(text := s.text[..s.cursor] + s.text[s.cursor + 1..])
    else s
  }

  /** The row of `k` with its newline, if it has one. */
  function WholeRow(t: string, k: nat): string
    requires k <= |t|
  {
    t[Rows.RowStart(t, k)..WholeRowEnd(t, k)]
  }

  function WholeRowEnd(t: string, k: nat): (e: nat)
    requires k <= |t|
    ensures k <= e <= |t|
  {
    var e := Rows.RowEnd(t, k);
    if e < |t| then e + 1 else e
  }

  /** Where `dd` starts deleting: a row that ends the text takes the newline before it instead. */
  function DeleteStart(t: string, k: nat): (d: nat)
    requires k <= |t|
    ensures d <= k
  {
    var s := Rows.RowStart(t, k);
    if WholeRowEnd(t, k) == |t| && s > 0 then s - 1 else s
  }

  function YankRow(e: Editor, s: Session): Editor
    requires CursorsInside(s)
  {
    e.(yank := Yank(WholeRow(s.text, s.cursor), true))
  }

  function DeleteRow(s: Session): Session
    requires CursorsInside(s)
  {
    var d := DeleteStart(s.text, s.cursor);
    s.(text := s.text[..d] + s.text[WholeRowEnd(s.text, s.cursor)..], cursor := d)
  }

  function PasteAt(t: string, k: nat): (at: nat)
    requires k <= |t|
    ensures k <= at <= |t|
  {
    var e := Rows.RowEnd(t, k);
    if e < |t| then e + 1 else |t|
  }

  /** What linewise `p` inserts: the yanked row with the newlines the insertion point lacks. */
  function PasteInsertion(t: string, at: nat, yanked: string): string
    requires at <= |t|
  {
    var led := if at == |t| && t != "" && !EndsWith(t, "\n") then "\n" + yanked else yanked;
    if at < |t| && !EndsWith(led, "\n") then led + "\n" else led
  }

  function PasteAfter(e: Editor, s: Session): Session
    requires CursorsInside(s)
  {
    if e.yank.text == "" then s
    else if e.yank.linewise then
      var at := PasteAt(s.text, s.cursor);
      var ins := PasteInsertion(s.text, at, e.yank.text);
      s.(text := s.text[..at] + ins + s.text[at..], cursor := if StartsWith(ins, "\n") then at + 1 else at)
    else
      var at := After(s.text, s.cursor);
      s.(text := s.text[..at] + e.yank.text + s.text[at..], cursor := at + |e.yank.text|)
  }

  // ----- History and completion

  function HistoryUp(e: Editor, s: Session): Session
    requires HistoryInv(e, s)
  {
    if s.mode == Command || e.history == [] then s
    else if s.historyIndex.Some? then
      var i := Before(s.historyIndex.value);
      SetText(s.(historyIndex := Some(i)), e.history[i])
    else
      var i := |e.history| - 1;
      SetText(s.(historyIndex := Some(i), historyBackup := Some(s.text)), e.history[i])
  }

  function HistoryDown(e: Editor, s: Session): Session {
    if s.mode == Command || s.historyIndex.None? then s
    else if s.historyIndex.value + 1 < |e.history| then
      var i := s.historyIndex.value + 1;
      SetText(s.(historyIndex := Some(i)), e.history[i])
    else
      var restored := if s.historyBackup.Some? then s.historyBackup.value else "";
      var s' := SetText(s.(historyIndex := None, historyBackup := None), restored);
      if e.vim then EnterMode(s', Insert) else s'.(mode := Plain)
  }

  function SlashPrefix(line: string, pos: nat): Option<string>
    requires pos <= |line|
  {
    if pos != |line| || (exists c <- line :: IsWhitespace(c)) || !StartsWith(line, "/") then None
    else Some(line)
  }

  function Matches(completions: seq<string>, prefix: string): (ms: seq<string>)
    ensures forall m <- ms :: m in completions && StartsWith(m, prefix) && m != prefix
  {
    if completions == [] then []
    else
      var rest := Matches(completions[1..], prefix);
      if StartsWith(completions[0], prefix) && completions[0] != prefix then [completions[0]] + rest
      else rest
  }

  function ReplaceText(s: Session, candidate: string): Session
    requires CursorsInside(s)
  {
    s.(text := candidate + s.text[s.cursor..], cursor := |candidate|)
  }

  predicate Cycling(e: Editor, s: Session) {
    e.completion.Some? && s.cursor == |s.text| && s.text in e.completion.value.matches
  }

  function Complete(e: Editor, s: Session): (r: (Editor, Session))
    requires CursorsInside(s)
  {
    if s.mode == Command then (e.(completion := None), s)
    else if Cycling(e, s) then
      var c := e.completion.value;
      (e.(completion := Some(c.(nextIndex := c.nextIndex + 1))),
       ReplaceText(s, c.matches[c.nextIndex % |c.matches|]))
    else
      var prefix := SlashPrefix(s.text, s.cursor);
      if prefix.None? then (e.(completion := None), s)
      else
        var ms := Matches(e.completions, prefix.value);
        if ms == [] then (e.(completion := None), s)
        else if e.completion.Some? && e.completion.value.prefix == prefix.value
                && e.completion.value.matches == ms then
          var c := e.completion.value;
          (e.(completion := Some(c.(nextIndex := c.nextIndex + 1))),
           ReplaceText(s, c.matches[c.nextIndex % |c.matches|]))
        else (e.(completion := Some(Completion(prefix.value, ms, 1))), ReplaceText(s, ms[0]))
  }

  // ----- Keys

  function NormalChar(e: Editor, s: Session, ch: char): (Editor, Session)
    requires CursorsInside(s)
  {
    var s' := s.(pending := None);
    if s.pending == Some('d') && ch == 'd' then (YankRow(e, s'), DeleteRow(s'))
    else if s.pending == Some('y') && ch == 'y' then (YankRow(e, s'), s')
    else if ch == 'd' || ch == 'y' then (e, s'.(pending := Some(ch)))
    else if ch == 'p' then (e, PasteAfter(e, s'))
    else if ch == 'i' then (e, EnterMode(s', Insert))
    else if ch == 'v' then (e, EnterVisual(s'))
    else if ch == ':' then (e, EnterCommand(s'))
    else (e, Motion(s', ch))
  }

  function Motion(s: Session, ch: char): Session
    requires CursorsInside(s)
  {
    if ch == 'h' then MoveLeft(s)
    else if ch == 'l' then MoveRight(s)
    else if ch == 'j' then MoveRows(s, 1)
    else if ch == 'k' then MoveRows(s, -1)
    else s
  }

  function VisualChar(s: Session, ch: char): Session
    requires CursorsInside(s)
  {
    if ch == 'v' then EnterMode(s, Normal) else Motion(s, ch)
  }

  function TypeChar(e: Editor, s: Session, ch: char): (Editor, Session)
    requires CursorsInside(s)
  {
    match s.mode
    case Normal => NormalChar(e, s, ch)
    case Visual => (e, VisualChar(s, ch))
    case _ => (e, InsertText(s, [ch]))
  }

  function Escape(s: Session): Session {
    match s.mode
    case Insert => EnterMode(s.(cursor := Before(s.cursor)), Normal)
    case Visual => EnterMode(s, Normal)
    case Command => ExitCommand(s)
    case _ => s
  }

  function InsertNewline(s: Session): Session
    requires CursorsInside(s)
  {
    if s.mode == Normal || s.mode == Visual then s else InsertText(s, "\n")
  }

  function SubmitOrToggle(line: string): Action {
    if Trim(line) == "/vim" then ToggleVim else Submit(line)
  }

  predicate IsCtrl(key: Key, lower: char, upper: char) {
    key.ctrl && (key.code == Char(lower) || key.code == Char(upper))
  }

  function Step(e0: Editor, s: Session, key: Key): (Editor, Session, Action)
    requires CursorsInside(s) && HistoryInv(e0, s)
  {
    var e := if key.code != Tab then e0.(completion := None) else e0;
    if IsCtrl(key, 'c', 'C') then (e, s, if ActiveText(s) != "" then Cancel else Exit)
    else if IsCtrl(key, 'j', 'J') then (e, InsertNewline(s), Continue)
    else if IsCtrl(key, 'd', 'D') then
      if ActiveText(s) == "" then (e, s, Exit) else (e, DeleteKey(s), Continue)
    else
      match key.code
      case Enter => if key.shift then (e, InsertNewline(s), Continue)
                    else (e, s, SubmitOrToggle(ActiveText(s)))
      case Esc => (e, Escape(s), Continue)
      case Backspace => (e, BackspaceKey(s), Continue)
      case Delete => (e, DeleteKey(s), Continue)
      case Left => (e, MoveLeft(s), Continue)
      case Right => (e, MoveRight(s), Continue)
      case Up => (e, HistoryUp(e, s), Continue)
      case Down => (e, HistoryDown(e, s), Continue)
      case Home => (e, MoveHome(s), Continue)
      case End => (e, MoveEnd(s), Continue)
      case Tab => var (e', s') := Complete(e, s); (e', s', Continue)
      case Char(ch) => var (e', s') := TypeChar(e, s, ch); (e', s', Continue)
      case OtherKey => (e, s, Continue)
  }

  /** `read_line` on a stream of terminal events; no outcome while the line is still being edited. */
  function ReadLine(e: Editor, s: Session, events: seq<Event>): (r: (Editor, Option<Outcome>))
    requires Inv(e, s)
    decreases |events|
  {
    if events == [] then (e, None)
    else if events[0].Ignored? then ReadLine(e, s, events[1..])
    else
      StepKeepsInv(e, s, events[0].key);
      var (e', s', action) := Step(e, s, events[0].key);
      match action
      case Continue => ReadLine(e', s', events[1..])
      case Submit(line) => (e', Some(Submitted(line)))
      case Cancel => (e', Some(Cancelled))
      case Exit => (e', Some(Exited))
      case ToggleVim => ReadLine(e'.(vim := !e'.vim), NewSession(!e'.vim), events[1..])
  }

  // ----- Invariance

  lemma VerticalInside(t: string, k: nat, delta: int)
    requires k <= |t|
    ensures Vertical(t, k, delta) <= |t|
  {
    hide Rows.Split, Rows.RowOffset, Rows.RowStart;
    Rows.RowStartIsRowOffset(t, k);
    var rows := Rows.Split(t);
    var row := Rows.RowIndex(t, k);
    var target := if row + delta < 0 then 0 else Min(row + delta, |rows| - 1);
    if target != row {
      Rows.PositionRoundTrip(t, target, Min(Rows.Column(t, k), |rows[target]|));
    }
  }

  lemma MotionKeepsInv(e: Editor, s: Session, ch: char)
    requires Inv(e, s) && e.completion.None?
    ensures Inv(e, Motion(s, ch))
  {
    hide Vertical;
    VerticalInside(s.text, s.cursor, 1);
    VerticalInside(s.text, s.cursor, -1);
  }

  lemma NormalCharKeepsInv(e: Editor, s: Session, ch: char)
    requires Inv(e, s) && e.completion.None? && s.mode == Normal
    ensures var (e', s') := NormalChar(e, s, ch); Inv(e', s')
  {
    MotionKeepsInv(e, s.(pending := None), ch);
  }

  lemma CompleteKeepsInv(e: Editor, s: Session)
    requires Inv(e, s)
    ensures var (e', s') := Complete(e, s);
            Inv(e', s') && e' == e.(completion := e'.completion)
  {
    if s.mode != Command && s.cursor == |s.text| {
      assert s.text[s.cursor..] == "";
      assert forall candidate: string :: candidate + "" == candidate;
    }
  }

  lemma EditKeepsInv(e: Editor, s: Session, ins: string)
    requires Inv(e, s) && e.completion.None?
    ensures s.mode != Normal && s.mode != Visual ==> Inv(e, InsertText(s, ins))
    ensures Inv(e, BackspaceKey(s)) && Inv(e, DeleteKey(s))
  {
  }

  lemma CursorKeysKeepInv(e: Editor, s: Session)
    requires Inv(e, s) && e.completion.None?
    ensures Inv(e, MoveLeft(s)) && Inv(e, MoveRight(s)) && Inv(e, MoveHome(s)) && Inv(e, MoveEnd(s))
    ensures Inv(e, Escape(s))
  {
  }

  lemma HistoryKeepsInv(e: Editor, s: Session)
    requires Inv(e, s) && e.completion.None?
    ensures Inv(e, HistoryUp(e, s)) && Inv(e, HistoryDown(e, s))
  {
  }

  lemma ForgettingKeepsInv(e: Editor, s: Session)
    requires Inv(e, s)
    ensures Inv(e.(completion := None), s)
    ensures CursorsInside(s) && HistoryInv(e, s) && HistoryInv(e.(completion := None), s)
  {
  }

  lemma TypeCharKeepsInv(e: Editor, s: Session, ch: char)
    requires Inv(e, s) && e.completion.None?
    ensures var (e', s') := TypeChar(e, s, ch);
            Inv(e', s') && e' == e.(yank := e'.yank)
  {
    hide Motion, InsertText;
    match s.mode {
      case Normal => NormalCharKeepsInv(e, s, ch);
      case Visual => MotionKeepsInv(e, s, ch);
      case _ => EditKeepsInv(e, s, [ch]);
    }
  }

  /** Every key keeps every invariant: cursors on characters, the ':' at the head of the command
      line, history index and backup in step, the yank linewise, modes matching the vim switch. */
  lemma StepKeepsInv(e: Editor, s: Session, key: Key)
    requires Inv(e, s)
    ensures var (e', s', action) := Step(e, s, key);
            && Inv(e', s')
            && e' == e.(yank := e'.yank, completion := e'.completion)
            && (key.code != Tab || action != Continue ==> e'.completion.None?)
  {
    hide Inv, CursorsInside, TypeChar, Complete, InsertText, BackspaceKey, DeleteKey, MoveLeft, MoveRight, MoveHome,
         MoveEnd, Escape, HistoryUp, HistoryDown, Trim, IsWhitespace;
    var e1 := e.(completion := None);
    ForgettingKeepsInv(e, s);
    if key.code == Tab {
      CompleteKeepsInv(e, s);
    } else {
      EditKeepsInv(e1, s, "\n");
      CursorKeysKeepInv(e1, s);
      HistoryKeepsInv(e1, s);
      if key.code.Char? { TypeCharKeepsInv(e1, s, key.code.ch); }
    }
  }
}
