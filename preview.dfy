/**
 * The preview pane: `preview` (pkg/file_preview.go, and its copy in pkg/main_app.go) and the
 * root revision's changed callback (ui.go) with `previewFile` (filehandler.go). Both show the
 * item under the cursor: a file's content, or a directory's listing.
 */
module PreviewPane {
  import opened Paths
  import opened Markup
  import opened Entries
  import opened Panes
  import opened BrowserState
  import opened PaneUpdate
  import opened FileActions

  const ErrorPreviewTitle := "Preview Error"

  /** The text and title a preview sets; with `keepTitle` the title is left as it was. */
  datatype Shown = Shown(text: string, title: string, keepTitle: bool)

  /** The pkg revisions' directory preview: `GetEntries`, then the two loops; a read error keeps the title. */
  function PkgDirectoryShown(path: Path, cleaned: string, read: DirRead): Shown {
    match read
    case ReadFailed(msg) => Shown(ReadDirErrorPrefix + ReadError(path, msg), "", true)
    case Listed(es) =>
      var l := ListingOf(es);
      Shown(if |l.dirs| + |l.files| == 0 then EmptyPreview else PreviewText(l), ContentsPrefix + cleaned, false)
  }

  /** The root revision's directory preview: the raw `ReadDir` result, in read order. */
  function RootDirectoryShown(cleaned: string, read: DirRead): Shown {
    match read
    case ReadFailed(msg) => Shown(ReadDirErrorPrefix + msg, ErrorPreviewTitle, false)
    case Listed(es) => Shown(if |es| == 0 then EmptyPreview else RawPreviewText(es), ContentsPrefix + cleaned, false)
  }

  /** The root revision's directory preview, built by the loop over the entries read. */
  method BuildRootDirectoryShown(cleaned: string, read: DirRead) returns (shown: Shown)
    ensures shown == RootDirectoryShown(cleaned, read)
  {
    match read
    case ReadFailed(msg) =>
      shown := Shown(ReadDirErrorPrefix + msg, ErrorPreviewTitle, false);
    case Listed(es) =>
      var text := EmptyPreview;
      if |es| != 0 {
        text := BuildRawPreviewText(es);
      }
      shown := Shown(text, ContentsPrefix + cleaned, false);
  }

  /** The pkg revisions' directory preview: `GetEntries`, then the loops over its two lists. */
  method BuildPkgDirectoryShown(path: Path, cleaned: string, read: DirRead) returns (shown: Shown)
    ensures shown == PkgDirectoryShown(path, cleaned, read)
  {
    var r := GetEntries(path, read);
    if r.Failure? {
      return Shown(ReadDirErrorPrefix + r.error, "", true);
    }
    var l := r.value;
    var text := EmptyPreview;
    if |l.dirs| + |l.files| != 0 {
      text := BuildPreviewText(l);
    }
    shown := Shown(text, ContentsPrefix + cleaned, false);
  }

  /** What the preview shows for an item that could be stat'ed, built by the loops of its case. */
  method BuildItemShown(rev: Revision, path: Path, cleaned: string, isDir: bool, fs: FileSystem) returns (shown: Shown)
    ensures shown == ItemShown(rev, path, cleaned, isDir, fs)
  {
    if !isDir {
      shown := FileShown(rev, cleaned, fs.readFile(path));
    } else if rev == Root {
      shown := BuildRootDirectoryShown(cleaned, fs.readDir(path));
    } else {
      shown := BuildPkgDirectoryShown(path, cleaned, fs.readDir(path));
    }
  }

  /** A file's preview; only the root revision titles a read error. */
  function FileShown(rev: Revision, cleaned: string, read: FileRead): Shown {
    match read
    case FileFailed(msg) =>
      if rev == Root then Shown(ReadFileErrorPrefix + msg, ErrorPreviewTitle, false)
      else Shown(ReadFileErrorPrefix + msg, "", true)
    case FileOk(content) => Shown(content, PreviewPrefix + cleaned, false)
  }

  /** What the preview shows for an item that could be stat'ed. */
  function ItemShown(rev: Revision, path: Path, cleaned: string, isDir: bool, fs: FileSystem): Shown {
    if !isDir then FileShown(rev, cleaned, fs.readFile(path))
    else if rev == Root then RootDirectoryShown(cleaned, fs.readDir(path))
    else PkgDirectoryShown(path, cleaned, fs.readDir(path))
  }

  function Show(s: State, shown: Shown): (r: State)
    ensures r == s.(previewText := r.previewText, previewTitle := r.previewTitle)
  {
    if shown.keepTitle then s.(previewText := shown.text)
    else s.(previewText := shown.text, previewTitle := shown.title)
  }

  /**
   * The preview of the item under the cursor. Nothing happens when the middle pane is empty or the
   * item cannot be stat'ed; only the preview text and title ever change.
   */
  function Preview(rev: Revision, s: State, fs: FileSystem): (r: State)
    requires CursorOk(s)
    ensures r == s.(previewText := r.previewText, previewTitle := r.previewTitle)
  {
    if |s.middle| == 0 then s
    else
      var cleaned := CleanItemName(s.middle[s.cursor]);
      var path := Join(s.currentDir, cleaned);
      match fs.stat(path)
      case StatFailed(_) => s
      case StatOk(isDir) => Show(s, ItemShown(rev, path, cleaned, isDir, fs))
  }

  // ---- properties ----

  /** An empty middle pane, or an item that cannot be stat'ed, leaves the preview as it is. */
  lemma PreviewNoOp(rev: Revision, s: State, fs: FileSystem)
    requires CursorOk(s)
    requires |s.middle| == 0 || fs.stat(ItemPath(s.currentDir, s.middle[s.cursor])).StatFailed?
    ensures Preview(rev, s, fs) == s
  {
  }

  /** Showing the preview again changes nothing: it depends only on what it does not change. */
  lemma PreviewIdempotent(rev: Revision, s: State, fs: FileSystem)
    requires CursorOk(s)
    ensures CursorOk(Preview(rev, s, fs))
    ensures Preview(rev, Preview(rev, s, fs), fs) == Preview(rev, s, fs)
  {
    var r := Preview(rev, s, fs);
    if |s.middle| > 0 {
      var cleaned := CleanItemName(s.middle[s.cursor]);
      var path := Join(s.currentDir, cleaned);
      if fs.stat(path).StatOk? {
        ShowTwice(s, ItemShown(rev, path, cleaned, fs.stat(path).isDir, fs));
      }
    }
  }

  lemma ShowTwice(s: State, sh: Shown)
    ensures Show(Show(s, sh), sh) == Show(s, sh)
  {
  }

  /** A readable file is previewed as exactly its content, titled `Preview: name`. */
  lemma FilePreviewIsContent(rev: Revision, s: State, fs: FileSystem, content: string)
    requires CursorOk(s) && |s.middle| > 0
    requires fs.stat(ItemPath(s.currentDir, s.middle[s.cursor])) == StatOk(false)
    requires fs.readFile(ItemPath(s.currentDir, s.middle[s.cursor])) == FileOk(content)
    ensures Preview(rev, s, fs).previewText == content
    ensures Preview(rev, s, fs).previewTitle == PreviewPrefix + CleanItemName(s.middle[s.cursor])
  {
  }

  /**
   * pkg revisions: a directory that cannot be read shows the wrapped error and keeps the title;
   * the root revision titles it `Preview Error`.
   */
  lemma DirectoryReadError(rev: Revision, s: State, fs: FileSystem, msg: string)
    requires CursorOk(s) && |s.middle| > 0
    requires fs.stat(ItemPath(s.currentDir, s.middle[s.cursor])) == StatOk(true)
    requires fs.readDir(ItemPath(s.currentDir, s.middle[s.cursor])) == ReadFailed(msg)
    ensures var r := Preview(rev, s, fs);
      var path := ItemPath(s.currentDir, s.middle[s.cursor]);
      (rev != Root ==> r.previewText == ReadDirErrorPrefix + ReadError(path, msg) && r.previewTitle == s.previewTitle) &&
      (rev == Root ==> r.previewText == ReadDirErrorPrefix + msg && r.previewTitle == ErrorPreviewTitle)
  {
  }

  /**
   * The title of a directory preview in the middle pane names the directory with its slash: the
   * cleaner keeps the `/` because it trims the suffix before removing the tags.
   */
  lemma DirectoryTitleKeepsSlash(rev: Revision, s: State, fs: FileSystem, l: Listing, es: seq<DirEntry>)
    requires CursorOk(s) && s.middle == MiddleItems(l) && CleanNames(l) && 0 <= s.cursor < |l.dirs|
    requires fs.stat(s.currentDir + [l.dirs[s.cursor].name]) == StatOk(true)
    requires fs.readDir(s.currentDir + [l.dirs[s.cursor].name]) == Listed(es)
    ensures Preview(rev, s, fs).previewTitle == ContentsPrefix + l.dirs[s.cursor].name + "/"
  {
    ItemResolves(s.currentDir, l, s.cursor);
  }

  /**
   * pkg revisions: the preview of a non-empty directory lists, one per line, exactly the items the
   * middle pane shows once that directory is entered.
   */
  lemma PreviewPredictsMiddlePane(rev: Revision, settle: Settle, s: State, fs: FileSystem, es: seq<DirEntry>)
    requires rev != Root && SettleOk(settle) && CursorOk(s) && |s.middle| > 0
    requires fs.stat(ItemPath(s.currentDir, s.middle[s.cursor])) == StatOk(true)
    requires fs.readDir(ItemPath(s.currentDir, s.middle[s.cursor])) == Listed(es)
    requires |MiddleItems(ListingOf(es))| > 0
    ensures Preview(rev, s, fs).previewText == Lines(Navigate(rev, settle, s, s.middle[s.cursor], fs).middle)
  {
    var path := ItemPath(s.currentDir, s.middle[s.cursor]);
    PreviewListsMiddleItems(ListingOf(es));
    RefreshShowsListing(rev, settle, s.(currentDir := path), fs);
  }

  /** Root revision: a directory's preview lists every entry read, in read order. */
  lemma RootPreviewIsRaw(s: State, fs: FileSystem, es: seq<DirEntry>)
    requires CursorOk(s) && |s.middle| > 0 && es != []
    requires fs.stat(ItemPath(s.currentDir, s.middle[s.cursor])) == StatOk(true)
    requires fs.readDir(ItemPath(s.currentDir, s.middle[s.cursor])) == Listed(es)
    ensures Preview(Root, s, fs).previewText == Lines(RawItems(es))
  {
  }
}
