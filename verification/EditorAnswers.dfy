/** What the editor answers to its keys: which keys end a line and with what text, which commands Tab offers,
    and where the remaining keys put the cursor. */
module EditorAnswers {
  import opened Numbers
  import opened Options
  import opened Strings
  import opened Rows
  import opened EditorModel
  import opened EditorLaws
  import opened EditorKeys

  // ----- Trimming

  predicate AllWhitespace(s: string) {
    forall c <- s :: IsWhitespace(c)
  }

  /** A trimmed text is the text without white space around it. */
  predicate IsTrimmed(s: string, inner: string, before: string, after: string) {
    && s == before + inner + after && AllWhitespace(before) && AllWhitespace(after)
    && (inner != "" ==> !IsWhitespace(inner[0]) && !IsWhitespace(inner[|inner| - 1]))
  }

  lemma {:induction false} TrimStartDrops(s: string) returns (before: string)
    ensures s == before + TrimStart(s) && AllWhitespace(before)
    ensures TrimStart(s) != "" ==> !IsWhitespace(TrimStart(s)[0])
  {
    hide IsWhitespace, AllWhitespace;
    NoWhitespace();
    if s != "" && IsWhitespace(s[0]) {
      var rest := TrimStartDrops(s[1..]);
      before := [s[0]] + rest;
      WhitespaceBoth([s[0]], rest);
      assert s == [s[0]] + (rest + TrimStart(s[1..]));
    } else {
      before := "";
    }
  }

  lemma NoWhitespace()
    ensures AllWhitespace("")
    ensures forall c: char :: IsWhitespace(c) ==> AllWhitespace([c])
  {
  }

  lemma WhitespaceBoth(a: string, b: string)
    requires AllWhitespace(a) && AllWhitespace(b)
    ensures AllWhitespace(a + b)
  {
    hide IsWhitespace;
  }

  lemma {:induction false} TrimEndDrops(s: string) returns (after: string)
    ensures s == TrimEnd(s) + after && AllWhitespace(after)
    ensures TrimEnd(s) != "" ==> !IsWhitespace(TrimEnd(s)[|TrimEnd(s)| - 1])
  {
    hide IsWhitespace, AllWhitespace;
    NoWhitespace();
    if s != "" && IsWhitespace(s[|s| - 1]) {
      var n := |s| - 1;
      var rest := TrimEndDrops(s[..n]);
      after := rest + [s[n]];
      WhitespaceBoth(rest, [s[n]]);
      assert s == TrimEnd(s[..n]) + rest + [s[n]];
    } else {
      after := "";
    }
  }

  /** `trim` removes the white space around a text and nothing else. */
  lemma TrimDrops(s: string) returns (before: string, after: string)
    ensures IsTrimmed(s, Trim(s), before, after)
  {
    hide IsWhitespace, TrimStart, TrimEnd;
    before := TrimStartDrops(s);
    after := TrimEndDrops(TrimStart(s));
    assert TrimStart(s) == Trim(s) + after;
    if Trim(s) != "" { assert TrimStart(s)[0] == Trim(s)[0]; }
  }

  /** Only one text is trimmed out of another. */
  lemma TrimmedIsTrim(s: string, inner: string, before: string, after: string)
    requires IsTrimmed(s, inner, before, after)
    ensures Trim(s) == inner
  {
    hide IsWhitespace;
    if inner == "" {
      AllBlank(s);
    } else {
      DropsBefore(before, inner + after);
      assert s == before + (inner + after);
      DropsAfter(inner, after);
    }
  }

  lemma {:induction false} AllBlank(s: string)
    requires AllWhitespace(s)
    ensures TrimStart(s) == "" && Trim(s) == ""
  {
    hide IsWhitespace;
    if s != "" { AllBlank(s[1..]); }
  }

  lemma {:induction false} DropsBefore(before: string, rest: string)
    requires AllWhitespace(before) && rest != "" && !IsWhitespace(rest[0])
    ensures TrimStart(before + rest) == rest
  {
    hide IsWhitespace;
    if before == "" {
      assert before + rest == rest;
    } else {
      assert (before + rest)[1..] == before[1..] + rest;
      DropsBefore(before[1..], rest);
    }
  }

  lemma {:induction false} DropsAfter(inner: string, after: string)
    requires AllWhitespace(after) && inner != "" && !IsWhitespace(inner[|inner| - 1])
    ensures TrimEnd(inner + after) == inner
  {
    hide IsWhitespace;
    if after == "" {
      assert inner + after == inner;
    } else {
      var n := |after| - 1;
      assert (inner + after)[..|inner| + n] == inner + after[..n];
      DropsAfter(inner, after[..n]);
    }
  }

  // ----- Keys that end a line

  predicate IsEnter(key: Key) {
    key.code == Enter && !key.shift
  }

  predicate IsCtrlC(key: Key) {
    key.ctrl && (key.code == Char('c') || key.code == Char('C'))
  }

  predicate IsCtrlD(key: Key) {
    key.ctrl && (key.code == Char('d') || key.code == Char('D'))
  }

  /** Which keys end a line, and how, for every state: Enter submits the command in Command mode and the text
      in every other mode, unless that trims to the vim switch; Ctrl-C cancels a line and leaves on an empty
      one; Ctrl-D leaves on an empty one; nothing else ends a line, and none of these changes the session. */
  lemma ActionExactly(e: Editor, s: Session, key: Key)
    requires Inv(e, s)
    ensures CursorsInside(s) && HistoryInv(e, s)
    ensures var (e', s', action) := Step(e, s, key);
            var line := if s.mode == Command then s.command else s.text;
            && (forall l :: action == Submit(l) <==> IsEnter(key) && Trim(line) != "/vim" && l == line)
            && (action == ToggleVim <==> IsEnter(key) && Trim(line) == "/vim")
            && (action == Cancel <==> IsCtrlC(key) && line != "")
            && (action == Exit <==> (IsCtrlC(key) || IsCtrlD(key)) && line == "")
            && (action != Continue ==> s' == s && e' == e.(completion := None))
  {
    hide TypeChar, Complete, InsertText, BackspaceKey, DeleteKey, MoveLeft, MoveRight, MoveHome, MoveEnd, Escape,
         HistoryUp, HistoryDown, Trim;
  }

  // ----- Whole lines

  function Presses(keys: seq<Key>): seq<Event> {
    seq(|keys|, i requires 0 <= i < |keys| => Pressed(keys[i]))
  }

  function Ahead(keys: seq<Key>, events: seq<Event>): seq<Event> {
    Presses(keys) + events
  }

  /** Typing ahead of other events is a run of the editor. */
  lemma {:induction false} TypedAhead(e: Editor, s: Session, word: string, events: seq<Event>)
    requires Inv(e, s) && s.mode != Normal && s.mode != Visual && e.completion.None? && s.mode != Command
    requires s.cursor == |s.text|
    ensures var s' := s.(text := s.text + word, cursor := |s.text + word|);
            Inv(e, s') && ReadLine(e, s, Ahead(Typed(word), events)) == ReadLine(e, s', events)
    decreases |word|
  {
    hide Inv, ReadLine, InsertText;
    if word == "" {
      assert s.text + word == s.text;
      assert Ahead(Typed(word), events) == events;
    } else {
      StepTyping(e, s, word[0]);
      var s1 := InsertText(s, [word[0]]);
      InsertedAtEnd(s, word[0]);
      assert Ahead(Typed(word), events) == [Pressed(Press(word[0]))] + Ahead(Typed(word[1..]), events);
      ReadOne(e, s, Press(word[0]), Ahead(Typed(word[1..]), events));
      TypedAhead(e, s1, word[1..], events);
      assert s1.text + word[1..] == s.text + word;
    }
  }

  lemma InsertedAtEnd(s: Session, ch: char)
    requires CursorsInside(s) && s.mode != Command && s.cursor == |s.text|
    ensures InsertText(s, [ch]) == s.(text := s.text + [ch], cursor := |s.text| + 1)
  {
    assert s.text[..s.cursor] == s.text && s.text[s.cursor..] == "";
  }

  /** One pressed key that does not end the line. */
  lemma ReadOne(e: Editor, s: Session, key: Key, events: seq<Event>)
    requires Inv(e, s)
    ensures CursorsInside(s) && HistoryInv(e, s)
    ensures var (e', s', action) := Step(e, s, key);
            && Inv(e', s')
            && (action == Continue ==> ReadLine(e, s, [Pressed(key)] + events) == ReadLine(e', s', events))
  {
    hide Inv, Step;
    ForgettingKeepsInv(e, s);
    StepKeepsInv(e, s, key);
    assert ([Pressed(key)] + events)[1..] == events;
  }

  lemma ReadSubmits(e: Editor, s: Session, key: Key, events: seq<Event>)
    requires Inv(e, s)
    ensures CursorsInside(s) && HistoryInv(e, s)
    ensures var (e', s', action) := Step(e, s, key);
            var whole := [Pressed(key)] + events;
            && (action.Submit? ==> ReadLine(e, s, whole) == (e', Some(Submitted(action.line))))
            && (action == Cancel ==> ReadLine(e, s, whole) == (e', Some(Cancelled)))
            && (action == Exit ==> ReadLine(e, s, whole) == (e', Some(Exited)))
            && (action == ToggleVim && Inv(e'.(vim := !e'.vim), NewSession(!e'.vim)) ==>
                  ReadLine(e, s, whole) == ReadLine(e'.(vim := !e'.vim), NewSession(!e'.vim), events))
  {
    hide Inv, Step;
    ForgettingKeepsInv(e, s);
    StepKeepsInv(e, s, key);
    assert ([Pressed(key)] + events)[1..] == events;
  }

  lemma FreshInv(e: Editor)
    requires EditorInv(e) && e.completion.None?
    ensures Inv(e, NewSession(e.vim)) && NewSession(e.vim).text == "" && NewSession(e.vim).cursor == 0
    ensures NewSession(e.vim).mode == if e.vim then Insert else Plain
  {
  }

  /** Typing a line into a new session, in either vim setting, and pressing Enter. */
  lemma TypedLine(e: Editor, word: string, events: seq<Event>)
    requires EditorInv(e) && e.completion.None?
    ensures Inv(e, NewSession(e.vim))
    ensures var r := ReadLine(e, NewSession(e.vim), Ahead(Typed(word), [Pressed(Plainly(Enter))] + events));
            if Trim(word) == "/vim" then
              EditorInv(e.(vim := !e.vim)) && Inv(e.(vim := !e.vim), NewSession(!e.vim))
              && r == ReadLine(e.(vim := !e.vim), NewSession(!e.vim), events)
            else r == (e, Some(Submitted(word)))
  {
    hide Inv, ReadLine, Step, Trim, NewSession;
    FreshInv(e);
    FreshInv(e.(vim := !e.vim));
    var s := NewSession(e.vim);
    TypedAhead(e, s, word, [Pressed(Plainly(Enter))] + events);
    assert s.text + word == word;
    var s' := s.(text := word, cursor := |word|);
    ActionExactly(e, s', Plainly(Enter));
    assert e.(completion := None) == e;
    if Trim(word) != "/vim" {
      assert Step(e, s', Plainly(Enter)).2 == Submit(word);
    } else {
      assert Step(e, s', Plainly(Enter)).2 == ToggleVim;
    }
    ReadSubmits(e, s', Plainly(Enter), events);
  }

  /** What is typed is what is submitted, whatever the word and the vim setting. */
  lemma TypedIsSubmitted(e: Editor, word: string)
    requires EditorInv(e) && e.completion.None? && Trim(word) != "/vim"
    ensures Inv(e, NewSession(e.vim))
    ensures ReadLine(e, NewSession(e.vim), Ahead(Typed(word), [Pressed(Plainly(Enter))]))
         == (e, Some(Submitted(word)))
  {
    hide Inv, ReadLine, Trim, NewSession, Ahead;
    TypedLine(e, word, []);
    assert [Pressed(Plainly(Enter))] + [] == [Pressed(Plainly(Enter))];
  }

  /** The vim switch is no line: it turns vim over, and the next line is read in a new session. */
  lemma SwitchThenLine(e: Editor, switch_: string, word: string)
    requires EditorInv(e) && e.completion.None? && Trim(switch_) == "/vim" && Trim(word) != "/vim"
    ensures Inv(e, NewSession(e.vim))
    ensures var enter := [Pressed(Plainly(Enter))];
            var r := ReadLine(e, NewSession(e.vim), Ahead(Typed(switch_), enter + Ahead(Typed(word), enter)));
            r == (e.(vim := !e.vim), Some(Submitted(word)))
  {
    hide Inv, ReadLine, Trim, NewSession, Ahead;
    TypedLine(e, switch_, Ahead(Typed(word), [Pressed(Plainly(Enter))]));
    TypedIsSubmitted(e.(vim := !e.vim), word);
  }

  /** Events that are no key presses do not matter. */
  function OnlyPressed(events: seq<Event>): seq<Event> {
    if events == [] then []
    else (if events[0].Pressed? then [events[0]] else []) + OnlyPressed(events[1..])
  }

  lemma {:induction false} OthersAreIgnored(e: Editor, s: Session, events: seq<Event>)
    requires Inv(e, s)
    ensures ReadLine(e, s, OnlyPressed(events)) == ReadLine(e, s, events)
    decreases |events|
  {
    hide Inv, Step;
    if events != [] {
      if events[0].Ignored? {
        assert [] + OnlyPressed(events[1..]) == OnlyPressed(events[1..]);
        OthersAreIgnored(e, s, events[1..]);
      } else {
        var key := events[0].key;
        ForgettingKeepsInv(e, s);
        StepKeepsInv(e, s, key);
        var (e', s', action) := Step(e, s, key);
        assert ([events[0]] + OnlyPressed(events[1..]))[1..] == OnlyPressed(events[1..]);
        if action == Continue {
          OthersAreIgnored(e', s', events[1..]);
        } else if action == ToggleVim {
          InvHasEditor(e', s');
          ToggledInv(e');
          OthersAreIgnored(e'.(vim := !e'.vim), NewSession(!e'.vim), events[1..]);
        }
      }
    }
  }

  lemma InvHasEditor(e: Editor, s: Session)
    requires Inv(e, s)
    ensures EditorInv(e)
  {
  }

  lemma ToggledInv(e: Editor)
    requires EditorInv(e) && e.completion.None?
    ensures Inv(e.(vim := !e.vim), NewSession(!e.vim))
  {
  }
}
