/**
 * The browser as the program holds it: one object whose fields the handlers update in place (the
 * root revision keeps them in package variables, the pkg revisions in the `App` struct). Each
 * method does what its Go counterpart does, step by step, and is proved to leave the object in the
 * state the corresponding function of the model describes.
 */
module BrowserApp {
  import opened Wrappers
  import opened Paths
  import opened Markup
  import opened Entries
  import opened Panes
  import opened BrowserState
  import PaneUpdate
  import FileActions
  import PreviewPane
  import KeyDispatch

  /**
   * The loops of `updateMiddlePane` for a directory that is not shown as empty: the directories
   * first, then the files, each sorted by name, and the count the title shows (the root revision
   * counts every entry read, the pkg revisions the items listed).
   */
  method MiddleListing(rev: Revision, dir: Path, es: seq<DirEntry>) returns (items: seq<string>, count: nat)
    ensures items == MiddleItems(ListingOf(es))
    ensures count == if rev == Root then |es| else |items|
  {
    if rev == Root {
      var dirs, files := Partition(es);
      items := BuildMiddleItems(Listing(SortByName(dirs), SortByName(files)));
      count := |es|;
    } else {
      var r := GetEntries(dir, Listed(es));
      items := BuildMiddleItems(r.value);
      count := |r.value.dirs| + |r.value.files|;
    }
  }

  class App {
    const rev: Revision
    const settle: Settle
    var currentDir: Path
    var selected: map<Path, int>
    var left: seq<string>
    var middle: seq<string>
    var cursor: int
    var middleTitle: string
    var pageTitle: string
    var previewText: string
    var previewTitle: string
    var dialog: Dialog
    var stopped: bool
    var requests: seq<Request>

    /** The object's fields as one state value. */
    function Snapshot(): State
      reads this
    {
      State(currentDir, selected, left, middle, cursor, middleTitle, pageTitle,
            previewText, previewTitle, dialog, stopped, requests)
    }

    /** The cursor names an item of a non-empty list; only the split revision remembers cursors. */
    ghost predicate Valid()
      reads this
    {
      SettleOk(settle) && CursorOk(Snapshot()) && (rev != Split ==> selected == map[])
    }

    /** `NewApp` (and the root revision's `main`): set up the widgets, then refresh the panes. */
    constructor(rev: Revision, settle: Settle, start: Path, fs: FileSystem)
      requires SettleOk(settle)
      ensures this.rev == rev && this.settle == settle
      ensures Valid()
      ensures Snapshot() == PaneUpdate.UpdatePanes(rev, settle, Initial(rev, start), fs)
    {
      this.rev := rev;
      this.settle := settle;
      currentDir := start;
      selected := map[];
      left := [];
      middle := [];
      cursor := 0;
      middleTitle := "Current";
      pageTitle := "";
      previewText := if rev == Root then "Select a file to preview." else "";
      previewTitle := "Preview";
      dialog := NoDialog;
      stopped := false;
      requests := [];
      new;
      UpdatePanes(fs);
    }

    /** `middlePane.SetCurrentItem(i)`. */
    method SetCurrentItem(i: int)
      requires SettleOk(settle)
      modifies this
      ensures Snapshot() == SetCurrent(settle, old(Snapshot()), i)
    {
      cursor := settle(i, |middle|);
    }

    /** `updateLeftPane`. */
    method UpdateLeftPane(fs: FileSystem)
      modifies this
      ensures Snapshot() == PaneUpdate.LeftPane(rev, old(Snapshot()), fs)
    {
      var parent := Parent(currentDir);
      var items := PaneUpdate.LeftHead(rev, currentDir);
      if rev == Root {
        match fs.readDir(parent)
        case ReadFailed(_) =>
        case Listed(es) =>
          var dirs, _ := Partition(es);
          var more := BuildDirItems(dirs);
          items := items + more;
      } else {
        var r := GetEntries(parent, fs.readDir(parent));
        if r.Success? {
          var more := BuildSiblingItems(r.value.dirs, Base(currentDir));
          items := items + more;
        }
      }
      left := items;
    }

    /** `updateMiddlePane`. */
    method UpdateMiddlePane(fs: FileSystem)
      requires SettleOk(settle)
      modifies this
      ensures Snapshot() == PaneUpdate.MiddlePane(rev, settle, old(Snapshot()), fs)
    {
      middle := [];
      cursor := 0;
      var read := fs.readDir(currentDir);
      if read.ReadFailed? {
        return;
      }
      if PaneUpdate.ShownEmpty(rev, read.entries) {
        middleTitle := if rev == Root then PaneUpdate.RootEmptyTitle else PaneUpdate.PkgEmptyTitle;
        return;
      }
      var items, count := MiddleListing(rev, currentDir, read.entries);
      FillMiddle(items, count);
    }

    /** The end of `updateMiddlePane`: add the items, set both titles and select the first item. */
    method FillMiddle(items: seq<string>, count: nat)
      requires SettleOk(settle)
      modifies this
      ensures var filled := old(Snapshot()).(middle := items, middleTitle := ItemsTitle(count),
                                             pageTitle := PathString(currentDir));
        Snapshot() == if |items| > 0 then SetCurrent(settle, filled, 0) else filled
    {
      middle := items;
      middleTitle := ItemsTitle(count);
      pageTitle := PathString(currentDir);
      if |middle| > 0 {
        SetCurrentItem(0);
      }
    }

    /** `updatePanes`; the split revision clears the preview first and restores the remembered cursor. */
    method UpdatePanes(fs: FileSystem)
      requires SettleOk(settle)
      modifies this
      ensures Snapshot() == PaneUpdate.UpdatePanes(rev, settle, old(Snapshot()), fs)
    {
      if rev == Split {
        ghost var s0 := Snapshot();
        previewText := "";
        UpdateLeftPane(fs);
        UpdateMiddlePane(fs);
        PaneUpdate.RefillIgnoresPreview(rev, settle, s0, fs, "");
        SetCurrentItem(Remembered(selected, currentDir));
      } else {
        UpdateLeftPane(fs);
        UpdateMiddlePane(fs);
        previewText := "";
      }
    }

    /** `preview`, and the root revision's changed callback: show the item under the cursor. */
    method Preview(fs: FileSystem)
      requires Valid()
      modifies this
      ensures Valid()
      ensures Snapshot() == PreviewPane.Preview(rev, old(Snapshot()), fs)
    {
      if |middle| == 0 {
        return;
      }
      var cleaned := CleanItemName(middle[cursor]);
      var path := Join(currentDir, cleaned);
      if fs.stat(path).StatFailed? {
        return;
      }
      var shown := PreviewPane.BuildItemShown(rev, path, cleaned, fs.stat(path).isDir, fs);
      previewText := shown.text;
      if !shown.keepTitle {
        previewTitle := shown.title;
      }
    }

    /** `goUpDirectory`. */
    method GoUpDirectory(fs: FileSystem)
      requires Valid()
      modifies this
      ensures Valid()
      ensures Snapshot() == FileActions.GoUp(rev, settle, old(Snapshot()), fs)
    {
      currentDir := Parent(currentDir);
      UpdatePanes(fs);
    }

    /** `navigateOrShowFile(item)`. */
    method NavigateOrShowFile(item: string, fs: FileSystem)
      requires Valid()
      modifies this
      ensures Valid()
      ensures Snapshot() == FileActions.Navigate(rev, settle, old(Snapshot()), item, fs)
    {
      var cleaned := CleanItemName(item);
      var path := Join(currentDir, cleaned);
      match fs.stat(path)
      case StatFailed(_) =>
      case StatOk(isDir) =>
        if isDir {
          currentDir := path;
          UpdatePanes(fs);
        } else {
          match fs.readFile(path)
          case FileFailed(msg) =>
            dialog := FileViewer(ReadFileErrorPrefix + msg, "");
          case FileOk(content) =>
            dialog := FileViewer(content, FileActions.ViewingPrefix + cleaned);
        }
    }

    /** `addNewFile`: show the form. */
    method AddNewFile()
      requires Valid()
      modifies this
      ensures Valid()
      ensures Snapshot() == FileActions.OpenAddForm(old(Snapshot()))
    {
      dialog := AddForm;
    }

    /** The form's Create button, given the name typed and whether the OS call succeeded. */
    method SubmitNewFile(name: string, ok: bool, fs: FileSystem)
      requires Valid()
      modifies this
      ensures Valid()
      ensures Snapshot() == FileActions.SubmitNewFile(rev, settle, old(Snapshot()), name, ok, fs)
    {
      if name != "" {
        requests := requests + [FileActions.CreateRequest(currentDir, name)];
        if ok {
          UpdatePanes(fs);
        }
      }
      dialog := NoDialog;
    }

    /** The form's Cancel button, or closing the file viewer. */
    method Dismiss()
      requires Valid()
      modifies this
      ensures Valid()
      ensures Snapshot() == FileActions.Dismiss(old(Snapshot()))
    {
      dialog := NoDialog;
    }

    /** `deleteFile(item)`: ask for confirmation. */
    method DeleteFile(item: string, fs: FileSystem)
      requires Valid()
      modifies this
      ensures Valid()
      ensures Snapshot() == FileActions.DeleteFile(old(Snapshot()), item, fs)
    {
      var cleaned := CleanItemName(item);
      var path := Join(currentDir, cleaned);
      match fs.stat(path)
      case StatFailed(_) =>
      case StatOk(isDir) =>
        dialog := DeleteConfirm(path, FileActions.DeleteText(cleaned, isDir));
    }

    /** The confirmation's done function, given the button pressed and whether the removal succeeded. */
    method ConfirmDelete(button: string, ok: bool, fs: FileSystem)
      requires Valid() && dialog.DeleteConfirm?
      modifies this
      ensures Valid()
      ensures Snapshot() == FileActions.ConfirmDelete(rev, settle, old(Snapshot()), button, ok, fs)
    {
      if button == "Yes" {
        requests := requests + [RemoveAll(dialog.target)];
        if ok {
          UpdatePanes(fs);
        }
      }
      dialog := NoDialog;
    }

    /** The application's input capture. */
    method AppCapture(ev: Event)
      requires Valid()
      modifies this
      ensures Valid()
      ensures Snapshot() == KeyDispatch.AppCapture(rev, old(Snapshot()), ev)
    {
      if KeyDispatch.StopsApp(rev, ev) {
        stopped := true;
      }
    }

    /** `j` / `k` on a non-empty list. */
    method MoveCursor(target: int, fs: FileSystem)
      requires Valid()
      modifies this
      ensures Valid()
      ensures Snapshot() == KeyDispatch.Moved(rev, settle, old(Snapshot()), target, fs)
    {
      SetCurrentItem(target);
      if rev == Split {
        selected := selected[currentDir := target];
        Preview(fs);
      }
    }

    /** Carrying out what the middle capture decided, through the handler it calls. */
    method Perform(a: KeyDispatch.Action, fs: FileSystem) returns (passed: bool)
      requires Valid() && KeyDispatch.Performable(Snapshot(), a)
      modifies this
      ensures Valid()
      ensures KeyDispatch.Outcome(Snapshot(), passed) == KeyDispatch.Perform(rev, settle, old(Snapshot()), a, fs)
    {
      passed := false;
      match a
      case Pass =>
        passed := true;
      case GoUpDir =>
        GoUpDirectory(fs);
      case Open =>
        NavigateOrShowFile(middle[cursor], fs);
      case EnterDir(path) =>
        currentDir := path;
        UpdatePanes(fs);
      case Move(target) =>
        MoveCursor(target, fs);
        passed := rev != Root;
      case Add =>
        AddNewFile();
      case AskDelete =>
        DeleteFile(middle[cursor], fs);
    }

    /** The middle pane's input capture; the result says whether the event goes on to the list. */
    method MiddleCapture(ev: Event, fs: FileSystem) returns (passed: bool)
      requires Valid()
      modifies this
      ensures Valid()
      ensures KeyDispatch.Outcome(Snapshot(), passed) == KeyDispatch.MiddleCapture(rev, settle, old(Snapshot()), ev, fs)
    {
      var a := KeyDispatch.Decide(rev, Snapshot(), ev, fs);
      if rev == Split && |middle| > 0 {
        selected := selected[currentDir := cursor];
      }
      passed := Perform(a, fs);
    }
  }
}
