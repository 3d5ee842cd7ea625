/**
 * The key bindings: the application-wide input capture (quit) and the middle pane's input capture,
 * for the root revision (ui.go), the monolithic pkg revision (pkg/main_app.go) and the split pkg
 * revision (pkg/event_handler.go). A capture returns the new state and whether the event is passed
 * on to the widget (`return event`) or consumed (`return nil`).
 */
module KeyDispatch {
  import opened Paths
  import opened Panes
  import opened BrowserState
  import opened PaneUpdate
  import opened FileActions
  import opened PreviewPane

  datatype Outcome = Outcome(state: State, passed: bool)

  /**
   * The events the application capture stops on. The root revision looks at the rune only for
   * rune events; the pkg revisions look at the rune of every event.
   */
  predicate StopsApp(rev: Revision, ev: Event) {
    if rev == Root then (ev.key == KeyRune && ev.ch == 'q') || ev.key == KeyCtrlC
    else ev.key == KeyCtrlC || ev.ch == 'q'
  }

  /** The application capture: it stops the application on its quit keys and always passes the event. */
  function AppCapture(rev: Revision, s: State, ev: Event): (r: State)
    ensures r.stopped <==> s.stopped || StopsApp(rev, ev)
    ensures r.(stopped := s.stopped) == s
  {
    if StopsApp(rev, ev) then s.(stopped := true) else s
  }

  /** `m2` is `m` with at most the entry for `d` set. */
  predicate SetAtMost(m: map<Path, int>, m2: map<Path, int>, d: Path) {
    m2 == m || (d in m2 && m2 == m[d := m2[d]])
  }

  lemma SetAtMostCompose(m: map<Path, int>, m1: map<Path, int>, m2: map<Path, int>, d: Path)
    requires SetAtMost(m, m1, d) && SetAtMost(m1, m2, d)
    ensures SetAtMost(m, m2, d)
  {
    if m2 != m1 && m1 != m {
      assert m2 == m[d := m2[d]];
    }
  }

  /** `j` and `k`: the index one below or one above, with no bounds check. */
  function MoveTarget(index: int, ch: char): int {
    if ch == 'j' then index + 1 else index - 1
  }

  /** What a handled key makes the middle capture do; `Pass` returns the event untouched. */
  datatype Action =
    | Pass
    | GoUpDir          // goUpDirectory
    | Open             // navigateOrShowFile on the current item
    | EnterDir(path: Path)  // Right on a directory: currentDir = newPath, then updatePanes
    | Move(target: int)     // j / k: SetCurrentItem(index ± 1)
    | Add              // addNewFile
    | AskDelete        // deleteFile on the current item

  /** The capture's decision in an empty directory. */
  function EmptyAction(rev: Revision, ev: Event): Action {
    if rev == Root then
      if ev.key == KeyLeft || (ev.key == KeyRune && ev.ch == 'h') then GoUpDir
      else if ev.key == KeyRune && ev.ch == 'a' then Add
      else Pass
    else if ev.key == KeyLeft || ev.ch == 'h' then GoUpDir
    else Pass
  }

  /** The rune switch. */
  function RuneAction(index: int, ch: char): Action {
    if ch == 'j' || ch == 'k' then Move(MoveTarget(index, ch))
    else if ch == 'h' then GoUpDir
    else if ch == 'l' then Open
    else if ch == 'a' then Add
    else if ch == 'd' then AskDelete
    else Pass
  }

  /**
   * The capture's decision on a non-empty middle pane: the key switch first; `Right` stats the
   * item. The pkg revisions reach the rune switch from every key the key switch leaves, the root
   * revision only from rune events.
   */
  function KeyAction(rev: Revision, s: State, ev: Event, fs: FileSystem): Action
    requires CursorOk(s) && |s.middle| > 0
  {
    var path := ItemPath(s.currentDir, s.middle[s.cursor]);
    if ev.key == KeyEnter then Open
    else if ev.key == KeyLeft then GoUpDir
    else if ev.key == KeyRight && fs.stat(path).StatFailed? then Pass
    else if ev.key == KeyRight && fs.stat(path).isDir then EnterDir(path)
    else if rev == Root && ev.key != KeyRune then Pass
    else RuneAction(s.cursor, ev.ch)
  }

  /** The capture's decision; only a non-empty pane has a current item. */
  function Decide(rev: Revision, s: State, ev: Event, fs: FileSystem): (a: Action)
    requires CursorOk(s)
    ensures Performable(s, a)
  {
    if |s.middle| == 0 then EmptyAction(rev, ev) else KeyAction(rev, s, ev, fs)
  }

  /** An action needs a current item when it acts on it. */
  predicate Performable(s: State, a: Action) {
    (a.Open? || a.AskDelete?) ==> |s.middle| > 0
  }

  /**
   * Carrying out an action. Moving passes the event on in the pkg revisions and is consumed by
   * the root one; the split revision also remembers the new index and refreshes the preview.
   */
  function Perform(rev: Revision, settle: Settle, s: State, a: Action, fs: FileSystem): (o: Outcome)
    requires SettleOk(settle) && CursorOk(s) && Performable(s, a)
    ensures CursorOk(o.state)
    ensures o.passed <==> a.Pass? || (a.Move? && rev != Root)
    ensures a.Pass? ==> o.state == s
    ensures rev != Split ==> o.state.selected == s.selected
    ensures SetAtMost(s.selected, o.state.selected, s.currentDir)
    ensures a.Move? ==> o.state.currentDir == s.currentDir && o.state.middle == s.middle
    ensures a.Move? && 0 <= a.target < |s.middle| ==> o.state.cursor == a.target
    ensures a.Move? && rev == Split ==> s.currentDir in o.state.selected && o.state.selected[s.currentDir] == a.target
  {
    match a
    case Pass => Outcome(s, true)
    case GoUpDir => Outcome(GoUp(rev, settle, s, fs), false)
    case Open => Outcome(Navigate(rev, settle, s, s.middle[s.cursor], fs), false)
    case EnterDir(path) => Outcome(UpdatePanes(rev, settle, s.(currentDir := path), fs), false)
    case Move(target) => Outcome(Moved(rev, settle, s, target, fs), rev != Root)
    case Add => Outcome(OpenAddForm(s), false)
    case AskDelete => Outcome(DeleteFile(s, s.middle[s.cursor], fs), false)
  }

  /**
   * `j` / `k`: `SetCurrentItem(target)`; the split revision also remembers the target as the
   * directory's index and refreshes the preview.
   */
  function Moved(rev: Revision, settle: Settle, s: State, target: int, fs: FileSystem): (r: State)
    requires SettleOk(settle) && CursorOk(s)
    ensures CursorOk(r)
    ensures r.currentDir == s.currentDir && r.middle == s.middle
    ensures 0 <= target < |s.middle| ==> r.cursor == target
    ensures rev != Split ==> r.selected == s.selected
    ensures rev == Split ==> r.selected == s.selected[s.currentDir := target]
  {
    var moved := SetCurrent(settle, s, target);
    if rev == Split then Preview(rev, moved.(selected := moved.selected[moved.currentDir := target]), fs)
    else moved
  }

  /** The split revision first stores the cursor as the index remembered for the directory. */
  function Remember(rev: Revision, s: State): (r: State)
    ensures r.(selected := s.selected) == s
    ensures rev != Split ==> r == s
    ensures rev == Split ==> s.currentDir in r.selected && r.selected[s.currentDir] == s.cursor
    ensures SetAtMost(s.selected, r.selected, s.currentDir)
  {
    if rev == Split then s.(selected := s.selected[s.currentDir := s.cursor]) else s
  }

  /**
   * The middle pane's input capture. It keeps the cursor on an item, and only the split revision
   * touches the cursor memory, and there only the entry of the directory it started in.
   */
  function MiddleCapture(rev: Revision, settle: Settle, s: State, ev: Event, fs: FileSystem): (o: Outcome)
    requires SettleOk(settle) && CursorOk(s)
    ensures CursorOk(o.state)
    ensures rev != Split ==> o.state.selected == s.selected
    ensures SetAtMost(s.selected, o.state.selected, s.currentDir)
  {
    var s0 := if |s.middle| == 0 then s else Remember(rev, s);
    var o := Perform(rev, settle, s0, Decide(rev, s, ev, fs), fs);
    SetAtMostCompose(s.selected, s0.selected, o.state.selected, s.currentDir);
    o
  }

  // ---- properties ----

  /** The two quit conditions agree except on a non-rune, non-Ctrl-C event whose rune is `q`. */
  lemma QuitConditionsAgree(ev: Event)
    ensures StopsApp(Root, ev) != StopsApp(Monolithic, ev) <==> ev.key != KeyRune && ev.key != KeyCtrlC && ev.ch == 'q'
    ensures StopsApp(Monolithic, ev) == StopsApp(Split, ev)
  {
  }

  /** Ctrl-C quits every revision. */
  lemma CtrlCQuits(rev: Revision, s: State, ch: char)
    ensures AppCapture(rev, s, Event(KeyCtrlC, ch)).stopped
  {
  }

  /**
   * In an empty directory only going up is handled by the pkg revisions; the root revision also
   * opens the add form. Every other event is passed on and changes nothing.
   */
  lemma EmptyDirectoryKeys(rev: Revision, settle: Settle, s: State, ev: Event, fs: FileSystem)
    requires SettleOk(settle) && CursorOk(s) && |s.middle| == 0
    ensures var o := MiddleCapture(rev, settle, s, ev, fs);
      (o.passed ==> o.state == s) &&
      (rev != Root ==> (!o.passed <==> ev.key == KeyLeft || ev.ch == 'h')) &&
      (rev == Root ==> (!o.passed <==> ev.key == KeyLeft || (ev.key == KeyRune && (ev.ch == 'h' || ev.ch == 'a'))))
  {
  }

  /** `Enter` and `l` open the current item alike. */
  lemma EnterIsL(rev: Revision, settle: Settle, s: State, c: char, fs: FileSystem)
    requires SettleOk(settle) && CursorOk(s) && |s.middle| > 0
    ensures KeyAction(rev, s, Event(KeyEnter, c), fs) == Open == KeyAction(rev, s, Event(KeyRune, 'l'), fs)
    ensures MiddleCapture(rev, settle, s, Event(KeyEnter, c), fs) == MiddleCapture(rev, settle, s, Event(KeyRune, 'l'), fs)
  {
  }

  /** `Left` and `h` go up alike, in an empty directory too. */
  lemma LeftIsH(rev: Revision, settle: Settle, s: State, c: char, fs: FileSystem)
    requires SettleOk(settle) && CursorOk(s)
    ensures MiddleCapture(rev, settle, s, Event(KeyLeft, c), fs) == MiddleCapture(rev, settle, s, Event(KeyRune, 'h'), fs)
  {
    if |s.middle| == 0 {
      assert EmptyAction(rev, Event(KeyLeft, c)) == GoUpDir == EmptyAction(rev, Event(KeyRune, 'h'));
    } else {
      assert KeyAction(rev, s, Event(KeyLeft, c), fs) == GoUpDir == KeyAction(rev, s, Event(KeyRune, 'h'), fs);
    }
  }

  /** Opening a directory item is entering it. */
  lemma OpenDirectoryIsEnter(rev: Revision, settle: Settle, s: State, fs: FileSystem)
    requires SettleOk(settle) && CursorOk(s) && |s.middle| > 0
    requires fs.stat(ItemPath(s.currentDir, s.middle[s.cursor])) == StatOk(true)
    ensures Perform(rev, settle, s, Open, fs) == Perform(rev, settle, s, EnterDir(ItemPath(s.currentDir, s.middle[s.cursor])), fs)
  {
    var path := ItemPath(s.currentDir, s.middle[s.cursor]);
    assert Navigate(rev, settle, s, s.middle[s.cursor], fs) == UpdatePanes(rev, settle, s.(currentDir := path), fs);
  }

  /** `Right` on a directory enters it exactly as `Enter` does. */
  lemma RightOnDirectoryIsEnter(rev: Revision, settle: Settle, s: State, c: char, d: char, fs: FileSystem)
    requires SettleOk(settle) && CursorOk(s) && |s.middle| > 0
    requires fs.stat(ItemPath(s.currentDir, s.middle[s.cursor])) == StatOk(true)
    ensures KeyAction(rev, s, Event(KeyRight, c), fs) == EnterDir(ItemPath(s.currentDir, s.middle[s.cursor]))
    ensures MiddleCapture(rev, settle, s, Event(KeyRight, c), fs) == MiddleCapture(rev, settle, s, Event(KeyEnter, d), fs)
  {
    var s0 := Remember(rev, s);
    assert s0.middle == s.middle && s0.cursor == s.cursor && s0.currentDir == s.currentDir;
    assert Decide(rev, s, Event(KeyRight, c), fs) == EnterDir(ItemPath(s.currentDir, s.middle[s.cursor]));
    assert Decide(rev, s, Event(KeyEnter, d), fs) == Open;
    CaptureDoes(rev, settle, s, Event(KeyRight, c), fs);
    CaptureDoes(rev, settle, s, Event(KeyEnter, d), fs);
    OpenDirectoryIsEnter(rev, settle, s0, fs);
  }

  /**
   * `Right` on a file leaves the key switch without returning. The root revision then passes the
   * event on; the pkg revisions fall through to the rune switch, so only a character without a
   * binding passes the event on with nothing changed but the memory.
   */
  lemma RightOnFilePasses(rev: Revision, settle: Settle, s: State, c: char, fs: FileSystem)
    requires SettleOk(settle) && CursorOk(s) && |s.middle| > 0
    requires fs.stat(ItemPath(s.currentDir, s.middle[s.cursor])) == StatOk(false)
    requires rev == Root || !(c in "jkhlad")
    ensures var o := MiddleCapture(rev, settle, s, Event(KeyRight, c), fs);
      o.passed && o.state == Remember(rev, s)
  {
    assert Decide(rev, s, Event(KeyRight, c), fs) == Pass;
    CaptureDoes(rev, settle, s, Event(KeyRight, c), fs);
  }

  /** In the pkg revisions `Right` on a file is handled as the rune it carries. */
  lemma RightOnFileFallsThrough(rev: Revision, s: State, c: char, fs: FileSystem)
    requires rev != Root && CursorOk(s) && |s.middle| > 0
    requires fs.stat(ItemPath(s.currentDir, s.middle[s.cursor])) == StatOk(false)
    ensures Decide(rev, s, Event(KeyRight, c), fs) == Decide(rev, s, Event(KeyRune, c), fs)
  {
  }

  /** `Right` on an item that cannot be stat'ed passes the event on in every revision. */
  lemma RightOnFailedStatPasses(rev: Revision, settle: Settle, s: State, c: char, fs: FileSystem)
    requires SettleOk(settle) && CursorOk(s) && |s.middle| > 0
    requires fs.stat(ItemPath(s.currentDir, s.middle[s.cursor])).StatFailed?
    ensures var o := MiddleCapture(rev, settle, s, Event(KeyRight, c), fs);
      o.passed && o.state == Remember(rev, s)
  {
    assert Decide(rev, s, Event(KeyRight, c), fs) == Pass;
    CaptureDoes(rev, settle, s, Event(KeyRight, c), fs);
  }

  /** The root revision consumes `j` and `k`; the pkg revisions pass them on after moving. */
  lemma MovesPassOnlyInPkg(rev: Revision, settle: Settle, s: State, ch: char, fs: FileSystem)
    requires SettleOk(settle) && CursorOk(s) && |s.middle| > 0 && (ch == 'j' || ch == 'k')
    ensures MiddleCapture(rev, settle, s, Event(KeyRune, ch), fs).passed <==> rev != Root
  {
    assert Decide(rev, s, Event(KeyRune, ch), fs).Move?;
    CaptureDoes(rev, settle, s, Event(KeyRune, ch), fs);
  }

  /**
   * Split revision: `j` on the last item remembers an index past the end, since there is no bounds
   * check; the next refresh of the directory hands that index to the list again.
   */
  lemma MoveRemembersUncheckedIndex(settle: Settle, s: State, fs: FileSystem)
    requires SettleOk(settle) && CursorOk(s) && |s.middle| > 0 && s.cursor == |s.middle| - 1
    ensures var o := MiddleCapture(Split, settle, s, Event(KeyRune, 'j'), fs);
      s.currentDir in o.state.selected && o.state.selected[s.currentDir] == |s.middle|
  {
    DownAction(Split, s, fs);
    CaptureDoes(Split, settle, s, Event(KeyRune, 'j'), fs);
  }

  /**
   * pkg revisions: a non-empty pane passes on every event outside the bindings unchanged, except
   * that the split revision has remembered the cursor for the directory.
   */
  lemma UnboundEventsPass(rev: Revision, settle: Settle, s: State, ev: Event, fs: FileSystem)
    requires rev != Root && SettleOk(settle) && CursorOk(s) && |s.middle| > 0
    requires ev.key != KeyEnter && ev.key != KeyLeft && ev.key != KeyRight && !(ev.ch in "jkhlad")
    ensures MiddleCapture(rev, settle, s, ev, fs) == Outcome(Remember(rev, s), true)
  {
    assert Decide(rev, s, ev, fs) == Pass;
    CaptureDoes(rev, settle, s, ev, fs);
  }

  /**
   * Split revision: after moving down from a directory and going back into it, the cursor is on the
   * item below, when there is one.
   */
  lemma MoveIsRememberedAcrossVisits(settle: Settle, s: State, fs: FileSystem)
    requires SettleOk(settle) && CursorOk(s) && 0 <= s.cursor && s.cursor + 1 < |s.middle|
    requires |UpdatePanes(Split, settle, MiddleCapture(Split, settle, s, Event(KeyRune, 'j'), fs).state, fs).middle| > s.cursor + 1
    ensures UpdatePanes(Split, settle, MiddleCapture(Split, settle, s, Event(KeyRune, 'j'), fs).state, fs).cursor == s.cursor + 1
  {
    var ev := Event(KeyRune, 'j');
    DownAction(Split, s, fs);
    CaptureDoes(Split, settle, s, ev, fs);
    var o := MiddleCapture(Split, settle, s, ev, fs);
    assert o.state == Moved(Split, settle, Remember(Split, s), s.cursor + 1, fs);
    assert Remembered(o.state.selected, o.state.currentDir) == s.cursor + 1;
    SplitRestoresCursor(settle, o.state, fs);
  }

  /** On a non-empty list `j` asks for the item below. */
  lemma DownAction(rev: Revision, s: State, fs: FileSystem)
    requires CursorOk(s) && |s.middle| > 0
    ensures Decide(rev, s, Event(KeyRune, 'j'), fs) == Move(s.cursor + 1)
  {
  }

  /** The capture carries out the decided action, once the split revision has remembered the cursor. */
  lemma CaptureDoes(rev: Revision, settle: Settle, s: State, ev: Event, fs: FileSystem)
    requires SettleOk(settle) && CursorOk(s)
    ensures MiddleCapture(rev, settle, s, ev, fs) ==
            Perform(rev, settle, if |s.middle| == 0 then s else Remember(rev, s), Decide(rev, s, ev, fs), fs)
  {
  }
}
