/**
 * What the browser does to the current directory and to the file system: `goUpDirectory`,
 * `navigateOrShowFile`, `addNewFile` and `deleteFile` (filehandler.go for the root revision,
 * pkg/main_app.go for the pkg revisions). A form or modal callback is a separate step: the Create
 * button, the Yes/No buttons, and closing a dialog.
 */
module FileActions {
  import opened Text
  import opened Paths
  import opened Markup
  import opened Entries
  import opened Panes
  import opened BrowserState
  import opened PaneUpdate

  const ViewingPrefix := "Viewing: "

  /** `goUpDirectory`: `currentDir = filepath.Clean(filepath.Join(currentDir, ".."))`, then refresh. */
  function GoUp(rev: Revision, settle: Settle, s: State, fs: FileSystem): (r: State)
    requires SettleOk(settle)
    ensures CursorOk(r)
    ensures r.currentDir == Parent(s.currentDir)
    ensures r.dialog == s.dialog && r.requests == s.requests && r.selected == s.selected
  {
    UpdatePanes(rev, settle, s.(currentDir := Parent(s.currentDir)), fs)
  }

  /** The path an item names: `filepath.Join(currentDir, getCleanedItemName(item))`. */
  function ItemPath(dir: Path, item: string): Path {
    Join(dir, CleanItemName(item))
  }

  /**
   * `navigateOrShowFile(item)`: a stat error changes nothing; a directory becomes the current
   * directory and the panes are refreshed; a file is shown in a viewer titled `Viewing: name`, or
   * its read error in an untitled one.
   */
  function Navigate(rev: Revision, settle: Settle, s: State, item: string, fs: FileSystem): (r: State)
    requires SettleOk(settle)
    requires CursorOk(s)
    ensures CursorOk(r)
    ensures r.selected == s.selected && r.requests == s.requests
  {
    var cleaned := CleanItemName(item);
    var path := Join(s.currentDir, cleaned);
    match fs.stat(path)
    case StatFailed(_) => s
    case StatOk(isDir) =>
      if isDir then UpdatePanes(rev, settle, s.(currentDir := path), fs)
      else
        match fs.readFile(path)
        case FileFailed(msg) => s.(dialog := FileViewer(ReadFileErrorPrefix + msg, ""))
        case FileOk(content) => s.(dialog := FileViewer(content, ViewingPrefix + cleaned))
  }

  /** `addNewFile`: the form is shown. */
  function OpenAddForm(s: State): (r: State)
    ensures r.dialog == AddForm && r.(dialog := s.dialog) == s
  {
    s.(dialog := AddForm)
  }

  /** The request the Create button makes for a non-empty name: a directory if it ends in `/`. */
  function CreateRequest(dir: Path, name: string): (q: Request)
    ensures q.MakeDirAll? <==> HasSuffix(name, "/")
    ensures q.path == Join(dir, name)
  {
    if HasSuffix(name, "/") then MakeDirAll(Join(dir, name)) else CreateFile(Join(dir, name))
  }

  /**
   * The Create button of the add form, with the text typed and whether the OS call succeeded: an
   * empty name asks for nothing; otherwise the request is made and the panes are refreshed only on
   * success; the form closes either way.
   */
  function SubmitNewFile(rev: Revision, settle: Settle, s: State, name: string, ok: bool, fs: FileSystem): (r: State)
    requires SettleOk(settle)
    ensures CursorOk(s) ==> CursorOk(r)
    ensures r.dialog == NoDialog && r.currentDir == s.currentDir && r.selected == s.selected
  {
    var done :=
      if name == "" then s
      else
        var asked := s.(requests := s.requests + [CreateRequest(s.currentDir, name)]);
        if ok then UpdatePanes(rev, settle, asked, fs) else asked;
    done.(dialog := NoDialog)
  }

  /** The Cancel button, and the button of a file viewer: back to the main page. */
  function Dismiss(s: State): (r: State)
    ensures r.dialog == NoDialog && r.(dialog := s.dialog) == s
  {
    s.(dialog := NoDialog)
  }

  /** The confirmation text: the directory form names its contents. */
  function DeleteText(name: string, isDir: bool): string {
    if isDir then "Are you sure you want to delete the directory '" + name + "' and its contents?"
    else "Are you sure you want to delete '" + name + "'?"
  }

  /** `deleteFile(item)`: a stat error shows nothing; otherwise the confirmation modal for that path. */
  function DeleteFile(s: State, item: string, fs: FileSystem): (r: State)
    ensures r.(dialog := s.dialog) == s
  {
    var cleaned := CleanItemName(item);
    var path := Join(s.currentDir, cleaned);
    match fs.stat(path)
    case StatFailed(_) => s
    case StatOk(isDir) => s.(dialog := DeleteConfirm(path, DeleteText(cleaned, isDir)))
  }

  /**
   * The done function of the confirmation modal, with the label of the button pressed and whether
   * `os.RemoveAll` succeeded: only `Yes` removes, and only a successful removal refreshes.
   */
  function ConfirmDelete(rev: Revision, settle: Settle, s: State, button: string, ok: bool, fs: FileSystem): (r: State)
    requires SettleOk(settle)
    requires s.dialog.DeleteConfirm?
    ensures CursorOk(s) ==> CursorOk(r)
    ensures r.dialog == NoDialog && r.currentDir == s.currentDir && r.selected == s.selected
  {
    var done :=
      if button == "Yes" then
        var asked := s.(requests := s.requests + [RemoveAll(s.dialog.target)]);
        if ok then UpdatePanes(rev, settle, asked, fs) else asked
      else s;
    done.(dialog := NoDialog)
  }

  // ---- properties ----

  /** Going up at the root stays at the root. */
  lemma GoUpAtRoot(rev: Revision, settle: Settle, s: State, fs: FileSystem)
    requires SettleOk(settle) && s.currentDir == []
    ensures GoUp(rev, settle, s, fs).currentDir == []
  {
  }

  /**
   * The current directory changes only to a child that stats as a directory; a stat error leaves
   * the whole state as it was, and a file only opens a viewer.
   */
  lemma NavigateMovesOnlyIntoDirectories(rev: Revision, settle: Settle, s: State, item: string, fs: FileSystem)
    requires SettleOk(settle) && CursorOk(s)
    ensures var r := Navigate(rev, settle, s, item, fs);
      var path := ItemPath(s.currentDir, item);
      (r.currentDir == if fs.stat(path) == StatOk(true) then path else s.currentDir) &&
      (fs.stat(path).StatFailed? ==> r == s) &&
      (fs.stat(path) == StatOk(false) ==> r == s.(dialog := r.dialog) && r.dialog.FileViewer?)
  {
  }

  /** A file that can be read is shown with exactly its content. */
  lemma ViewerShowsContent(rev: Revision, settle: Settle, s: State, item: string, fs: FileSystem, content: string)
    requires SettleOk(settle) && CursorOk(s)
    requires fs.stat(ItemPath(s.currentDir, item)) == StatOk(false)
    requires fs.readFile(ItemPath(s.currentDir, item)) == FileOk(content)
    ensures Navigate(rev, settle, s, item, fs).dialog == FileViewer(content, ViewingPrefix + CleanItemName(item))
  {
  }

  /**
   * Opening the i-th item of a listed directory and then going up returns to the directory:
   * the item resolves to the child `dir + [name]`, whose parent is `dir`.
   */
  lemma EnterThenUpReturns(rev: Revision, settle: Settle, s: State, fs: FileSystem, l: Listing, i: int)
    requires SettleOk(settle) && CursorOk(s)
    requires CleanNames(l) && 0 <= i < |l.dirs|
    requires fs.stat(s.currentDir + [l.dirs[i].name]) == StatOk(true)
    ensures var inside := Navigate(rev, settle, s, MiddleItems(l)[i], fs);
      inside.currentDir == s.currentDir + [l.dirs[i].name] &&
      GoUp(rev, settle, inside, fs).currentDir == s.currentDir
  {
    ItemResolves(s.currentDir, l, i);
    var child := s.currentDir + [l.dirs[i].name];
    assert child[..|child| - 1] == s.currentDir;
  }

  /**
   * The Create button: an empty name asks for nothing and refreshes nothing; a name ending in `/`
   * asks for a directory, any other name for an empty file; the panes refresh only on success.
   */
  lemma SubmitClassifiesName(rev: Revision, settle: Settle, s: State, name: string, ok: bool, fs: FileSystem)
    requires SettleOk(settle)
    ensures var r := SubmitNewFile(rev, settle, s, name, ok, fs);
      (name == "" ==> r == s.(dialog := NoDialog)) &&
      (name != "" ==>
         r.requests == s.requests + [CreateRequest(s.currentDir, name)] &&
         (HasSuffix(name, "/") ==> r.requests[|s.requests|] == MakeDirAll(Join(s.currentDir, name))) &&
         (!HasSuffix(name, "/") ==> r.requests[|s.requests|] == CreateFile(Join(s.currentDir, name))) &&
         (ok ==> r == UpdatePanes(rev, settle, s.(requests := r.requests), fs).(dialog := NoDialog)) &&
         (!ok ==> r == s.(requests := r.requests, dialog := NoDialog)))
  {
  }

  /** A directory name typed with its slash creates the child of that name. */
  lemma NewDirectoryPath(dir: Path, n: string)
    requires n != [] && n[|n| - 1] != '/'
    ensures CreateRequest(dir, n + "/") == MakeDirAll(dir + [n])
  {
    JoinDirectoryName(dir, n);
    assert HasSuffix(n + "/", "/");
  }

  /**
   * `deleteFile`: a stat error opens nothing; otherwise the modal asks about the cleaned name, for
   * the path it will remove, and only for a directory does the question mention its contents.
   */
  lemma DeleteAsksFirst(s: State, item: string, fs: FileSystem)
    ensures var r := DeleteFile(s, item, fs);
      var path := ItemPath(s.currentDir, item);
      (fs.stat(path).StatFailed? ==> r == s) &&
      (fs.stat(path).StatOk? ==>
         r.dialog == DeleteConfirm(path, DeleteText(CleanItemName(item), fs.stat(path).isDir)) &&
         r.requests == s.requests)
  {
  }

  /** Only the directory question ends with its contents; the file question does not. */
  lemma DeleteTextDistinguishes(name: string)
    ensures DeleteText(name, true) != DeleteText(name, false)
  {
    var d, f := DeleteText(name, true), DeleteText(name, false);
    assert d[32] == 't' && f[32] == '\'';
  }

  /**
   * The confirmation: anything but `Yes` asks for nothing; `Yes` asks to remove the path the
   * modal named, and refreshes only when that succeeds.
   */
  lemma ConfirmRemovesOnlyOnYes(rev: Revision, settle: Settle, s: State, button: string, ok: bool, fs: FileSystem)
    requires SettleOk(settle) && s.dialog.DeleteConfirm?
    ensures var r := ConfirmDelete(rev, settle, s, button, ok, fs);
      (button != "Yes" ==> r == s.(dialog := NoDialog)) &&
      (button == "Yes" ==>
         r.requests == s.requests + [RemoveAll(s.dialog.target)] &&
         (ok ==> r == UpdatePanes(rev, settle, s.(requests := r.requests), fs).(dialog := NoDialog)) &&
         (!ok ==> r == s.(requests := r.requests, dialog := NoDialog)))
  {
  }
}
