/**
 * Refreshing the panes: `updateLeftPane`, `updateMiddlePane` and `updatePanes` of each revision
 * (filehandler.go for the root revision, pkg/main_app.go for the monolithic one, pkg/ui.go for
 * the split one), as functions from the state and the file system to the new state.
 */
module PaneUpdate {
  import opened Text
  import opened Paths
  import opened Entries
  import opened Panes
  import opened BrowserState

  const RootEmptyTitle := "[red]Current (Empty Directory)[/]"
  const PkgEmptyTitle := "[red]Current (Empty)[/]"

  /** Nothing but the left pane, the middle pane and their titles differ. */
  predicate SameOutsidePanes(a: State, b: State) {
    a.currentDir == b.currentDir && a.selected == b.selected && a.previewText == b.previewText &&
    a.previewTitle == b.previewTitle && a.dialog == b.dialog && a.stopped == b.stopped &&
    a.requests == b.requests
  }

  /** The first item of the left pane. */
  function LeftHead(rev: Revision, dir: Path): seq<string> {
    if rev == Root then (if Parent(dir) != dir then [Base(Parent(dir))] else [])
    else if Parent(dir) != dir then [".."] else ["."]
  }

  /**
   * `updateLeftPane`: the first item, then the parent's directories. The root revision lists them
   * in read order, all dark cyan; the pkg revisions list them sorted, the current one in yellow.
   */
  function LeftPane(rev: Revision, s: State, fs: FileSystem): (r: State)
    ensures r == s.(left := r.left)
  {
    var parent := Parent(s.currentDir);
    var head := LeftHead(rev, s.currentDir);
    match fs.readDir(parent)
    case ReadFailed(_) => s.(left := head)
    case Listed(es) =>
      if rev == Root then s.(left := head + DirItems(DirsOf(es)))
      else s.(left := head + SiblingItems(ListingOf(es).dirs, Base(s.currentDir)))
  }

  /** Whether updateMiddlePane treats the listing as an empty directory. */
  predicate ShownEmpty(rev: Revision, es: seq<DirEntry>) {
    if rev == Root then |es| == 0 else |MiddleItems(ListingOf(es))| == 0
  }

  /**
   * `updateMiddlePane`: clear the list; on a read error stop there; on an empty directory set the red
   * title; otherwise add the items, set the count title and the page title and select item 0.
   */
  function MiddlePane(rev: Revision, settle: Settle, s: State, fs: FileSystem): (r: State)
    requires SettleOk(settle)
    ensures CursorOk(r)
    ensures SameOutsidePanes(r, s) && r.left == s.left
  {
    var cleared := s.(middle := [], cursor := 0);
    match fs.readDir(s.currentDir)
    case ReadFailed(_) => cleared
    case Listed(es) =>
      var items := MiddleItems(ListingOf(es));
      if ShownEmpty(rev, es) then
        cleared.(middleTitle := if rev == Root then RootEmptyTitle else PkgEmptyTitle)
      else
        var filled := cleared.(middle := items,
                               middleTitle := ItemsTitle(if rev == Root then |es| else |items|),
                               pageTitle := PathString(s.currentDir));
        if |items| > 0 then SetCurrent(settle, filled, 0) else filled
  }

  /**
   * `updatePanes`: both panes are refilled and the preview text is cleared; the split revision
   * then sets the cursor to the index remembered for the directory. The split revision clears the
   * preview before refilling the panes and the others after. In this model, where tview's `changed`
   * callback is not modelled, refilling the panes does not touch the preview, so both orders come to
   * the same state.
   */
  function UpdatePanes(rev: Revision, settle: Settle, s: State, fs: FileSystem): (r: State)
    requires SettleOk(settle)
    ensures CursorOk(r)
    ensures r.previewText == ""
    ensures r.currentDir == s.currentDir && r.selected == s.selected && r.previewTitle == s.previewTitle
    ensures r.dialog == s.dialog && r.stopped == s.stopped && r.requests == s.requests
  {
    var panes := MiddlePane(rev, settle, LeftPane(rev, s, fs), fs).(previewText := "");
    if rev == Split then SetCurrent(settle, panes, Remembered(panes.selected, panes.currentDir))
    else panes
  }

  /** Refilling the panes neither reads nor writes the preview text. */
  lemma RefillIgnoresPreview(rev: Revision, settle: Settle, s: State, fs: FileSystem, text: string)
    requires SettleOk(settle)
    ensures MiddlePane(rev, settle, LeftPane(rev, s.(previewText := text), fs), fs) ==
            MiddlePane(rev, settle, LeftPane(rev, s, fs), fs).(previewText := text)
  {
    var l := LeftPane(rev, s, fs);
    assert LeftPane(rev, s.(previewText := text), fs) == l.(previewText := text);
    MiddlePaneIgnoresPreview(rev, settle, l, fs, text);
  }

  lemma MiddlePaneIgnoresPreview(rev: Revision, settle: Settle, s: State, fs: FileSystem, text: string)
    requires SettleOk(settle)
    ensures MiddlePane(rev, settle, s.(previewText := text), fs) == MiddlePane(rev, settle, s, fs).(previewText := text)
  {
  }

  // ---- properties of the refreshed panes ----

  /** Only the root is its own parent. */
  lemma ParentFixedOnlyAtRoot(p: Path)
    ensures Parent(p) == p <==> p == []
  {
    if p != [] {
      assert |Parent(p)| == |p| - 1;
    }
  }

  /**
   * pkg revisions: the left pane starts with `..` below the root and with `.` at the root; an
   * unreadable parent leaves only that item, otherwise the parent's sorted directories follow.
   */
  lemma PkgLeftPane(rev: Revision, s: State, fs: FileSystem)
    requires rev != Root
    ensures var r := LeftPane(rev, s, fs);
      |r.left| >= 1 && r.left[0] == (if s.currentDir == [] then "." else "..") &&
      (fs.readDir(Parent(s.currentDir)).ReadFailed? ==> |r.left| == 1) &&
      (fs.readDir(Parent(s.currentDir)).Listed? ==>
         r.left[1..] == SiblingItems(ListingOf(fs.readDir(Parent(s.currentDir)).entries).dirs, Base(s.currentDir)))
  {
    ParentFixedOnlyAtRoot(s.currentDir);
    var r := LeftPane(rev, s, fs);
    assert r.left == LeftHead(rev, s.currentDir) + r.left[1..];
  }

  /**
   * Root revision: the parent's name comes first only below the root; then the parent's
   * directories, in read order and without a highlight.
   */
  lemma RootLeftPane(s: State, fs: FileSystem)
    ensures var r := LeftPane(Root, s, fs);
      var k := if s.currentDir == [] then 0 else 1;
      |r.left| >= k && (k == 1 ==> r.left[0] == Base(Parent(s.currentDir))) &&
      (fs.readDir(Parent(s.currentDir)).ReadFailed? ==> |r.left| == k) &&
      (fs.readDir(Parent(s.currentDir)).Listed? ==>
         r.left[k..] == DirItems(DirsOf(fs.readDir(Parent(s.currentDir)).entries)))
  {
    ParentFixedOnlyAtRoot(s.currentDir);
    var r := LeftPane(Root, s, fs);
    var k := if s.currentDir == [] then 0 else 1;
    assert |LeftHead(Root, s.currentDir)| == k;
    assert r.left[k..] == r.left[|LeftHead(Root, s.currentDir)|..];
  }

  /** A read error leaves the middle pane empty and both titles as they were. */
  lemma MiddlePaneReadError(rev: Revision, settle: Settle, s: State, fs: FileSystem)
    requires SettleOk(settle)
    requires fs.readDir(s.currentDir).ReadFailed?
    ensures var r := MiddlePane(rev, settle, s, fs);
      r.middle == [] && r.middleTitle == s.middleTitle && r.pageTitle == s.pageTitle
  {
  }

  /**
   * pkg revisions: an empty listing gives no items and the red title; otherwise the items are the
   * sorted directories then the sorted files, the title counts exactly those items, and the first is
   * selected.
   */
  lemma PkgMiddlePane(rev: Revision, settle: Settle, s: State, fs: FileSystem, es: seq<DirEntry>)
    requires SettleOk(settle) && rev != Root
    requires fs.readDir(s.currentDir) == Listed(es)
    ensures var r := MiddlePane(rev, settle, s, fs);
      var l := ListingOf(es);
      (|l.dirs| + |l.files| == 0 ==> r.middle == [] && r.middleTitle == PkgEmptyTitle) &&
      (|l.dirs| + |l.files| > 0 ==>
         r.middle == MiddleItems(l) && r.middleTitle == ItemsTitle(|r.middle|) &&
         r.pageTitle == PathString(s.currentDir) && r.cursor == 0)
  {
  }

  /**
   * Root revision: only a directory with no entries at all is shown as empty; otherwise the items
   * are the same as in the pkg revisions, but the title counts every entry read, so it exceeds the
   * number of items exactly when some entry's Info failed.
   */
  lemma RootMiddlePane(settle: Settle, s: State, fs: FileSystem, es: seq<DirEntry>)
    requires SettleOk(settle)
    requires fs.readDir(s.currentDir) == Listed(es)
    ensures var r := MiddlePane(Root, settle, s, fs);
      (es == [] ==> r.middle == [] && r.middleTitle == RootEmptyTitle) &&
      (es != [] ==>
         r.middle == MiddleItems(ListingOf(es)) && r.middleTitle == ItemsTitle(|es|) &&
         r.pageTitle == PathString(s.currentDir) &&
         (|r.middle| < |es| <==> exists i :: 0 <= i < |es| && !es[i].infoOk))
  {
    if es != [] {
      ItemCountIsKept(es);
      KeptShorter(es);
    }
  }

  /** The root revision's title can name more items than the pane holds. */
  lemma RootTitleOvercounts(settle: Settle, s: State, fs: FileSystem, name: string)
    requires SettleOk(settle)
    requires fs.readDir(s.currentDir) == Listed([DirEntry(name, false, false)])
    ensures MiddlePane(Root, settle, s, fs).middle == []
    ensures MiddlePane(Root, settle, s, fs).middleTitle == ItemsTitle(1)
  {
    RootMiddlePane(settle, s, fs, [DirEntry(name, false, false)]);
  }

  /**
   * Split revision: after a refresh the cursor is where `SetCurrentItem(selectedPaths[dir])` puts
   * it: the remembered index when it is inside the list, item 0 for a directory never visited.
   */
  lemma SplitRestoresCursor(settle: Settle, s: State, fs: FileSystem)
    requires SettleOk(settle)
    ensures var r := UpdatePanes(Split, settle, s, fs);
      r.cursor == settle(Remembered(s.selected, s.currentDir), |r.middle|) &&
      (0 <= Remembered(s.selected, s.currentDir) < |r.middle| ==> r.cursor == Remembered(s.selected, s.currentDir)) &&
      (s.currentDir !in s.selected && |r.middle| > 0 ==> r.cursor == 0)
  {
  }

  /** Root and monolithic revisions: a refresh always selects the first item, whatever was remembered. */
  lemma OtherRevisionsResetCursor(rev: Revision, settle: Settle, s: State, fs: FileSystem)
    requires SettleOk(settle) && rev != Split
    ensures var r := UpdatePanes(rev, settle, s, fs); |r.middle| > 0 ==> r.cursor == 0
  {
  }

  /** The items a refresh shows: the current directory's sorted listing, or none when it cannot be read. */
  function ListedItems(dir: Path, fs: FileSystem): seq<string> {
    match fs.readDir(dir)
    case ReadFailed(_) => []
    case Listed(es) => MiddleItems(ListingOf(es))
  }

  /** Every revision's refresh shows exactly the current directory's sorted listing. */
  lemma RefreshShowsListing(rev: Revision, settle: Settle, s: State, fs: FileSystem)
    requires SettleOk(settle)
    ensures UpdatePanes(rev, settle, s, fs).middle == ListedItems(s.currentDir, fs)
  {
    var t := LeftPane(rev, s, fs);
    assert MiddlePane(rev, settle, t, fs).middle == ListedItems(s.currentDir, fs) by {
      match fs.readDir(s.currentDir)
      case ReadFailed(_) =>
      case Listed(es) =>
        if rev == Root && es == [] {
          assert ListingOf(es) == Listing([], []);
        }
    }
  }

  /** The middle pane a refresh shows does not depend on the revision, apart from the titles. */
  lemma RevisionsShowSameItems(settle: Settle, s: State, fs: FileSystem)
    requires SettleOk(settle)
    ensures UpdatePanes(Root, settle, s, fs).middle == UpdatePanes(Monolithic, settle, s, fs).middle
    ensures UpdatePanes(Monolithic, settle, s, fs).middle == UpdatePanes(Split, settle, s, fs).middle
  {
    RefreshShowsListing(Root, settle, s, fs);
    RefreshShowsListing(Monolithic, settle, s, fs);
    RefreshShowsListing(Split, settle, s, fs);
  }
}
