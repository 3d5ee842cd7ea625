/**
 * The state every revision of the browser keeps, as one value: the current directory, the
 * per-directory cursor memory (`selectedPaths`, split pkg revision only), the three panes reduced
 * to item lists and texts, the open dialog, whether the application was stopped, and the file
 * system changes the browser has asked the operating system for.
 */
module BrowserState {
  import opened Paths

  /**
   * The three coexisting revisions: the root `package main` (filehandler.go, ui.go, utils.go),
   * the monolithic pkg/main_app.go, and the split pkg files that add `selectedPaths`.
   */
  datatype Revision = Root | Monolithic | Split

  /** The tcell key codes the handlers tell apart; every other key is `KeyOther`. */
  datatype Key = KeyEnter | KeyLeft | KeyRight | KeyCtrlC | KeyRune | KeyOther

  /** A key event: `Key()` and `Rune()`. */
  datatype Event = Event(key: Key, ch: char)

  /** The page shown above the main page, if any. */
  datatype Dialog =
    | NoDialog
    | AddForm
    | DeleteConfirm(target: Path, text: string)
    | FileViewer(text: string, title: string)

  /** A file system change the browser asks for: `os.MkdirAll`, `os.Create` or `os.RemoveAll`. */
  datatype Request = MakeDirAll(path: Path) | CreateFile(path: Path) | RemoveAll(path: Path)

  datatype State = State(
    currentDir: Path,
    selected: map<Path, int>,
    left: seq<string>,
    middle: seq<string>,
    cursor: int,
    middleTitle: string,
    pageTitle: string,
    previewText: string,
    previewTitle: string,
    dialog: Dialog,
    stopped: bool,
    requests: seq<Request>)

  /**
   * Where the middle list's current item ends up after `SetCurrentItem(i)` on a list of n items.
   * How tview treats an index outside the list is not visible in the source, so it is a parameter.
   */
  type Settle = (int, nat) -> int

  /** An index inside the list is taken as it is; any other index lands somewhere inside a non-empty list. */
  ghost predicate SettleOk(settle: Settle) {
    (forall i: int, n: nat :: 0 <= i < n ==> settle(i, n) == i) &&
    (forall i: int, n: nat :: 0 < n ==> 0 <= settle(i, n) < n)
  }

  /** `GetCurrentItem()` names an item whenever the middle list has one. */
  predicate CursorOk(s: State) {
    |s.middle| > 0 ==> 0 <= s.cursor < |s.middle|
  }

  /** `middlePane.SetCurrentItem(i)`. */
  function SetCurrent(settle: Settle, s: State, i: int): (r: State)
    requires SettleOk(settle)
    ensures CursorOk(r)
    ensures 0 <= i < |s.middle| ==> r.cursor == i
    ensures r.(cursor := s.cursor) == s
  {
    s.(cursor := settle(i, |s.middle|))
  }

  /** `selectedPaths[dir]`: Go's map lookup gives 0 for a directory never visited. */
  function Remembered(m: map<Path, int>, dir: Path): int {
    if dir in m then m[dir] else 0
  }

  /** The state before the first refresh: setupUI's titles, and the root revision's greeting. */
  function Initial(rev: Revision, start: Path): State {
    State(start, map[], [], [], 0, "Current", "",
          if rev == Root then "Select a file to preview." else "", "Preview",
          NoDialog, false, [])
  }
}
