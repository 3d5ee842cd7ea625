/**
 * What the three panes display, shared by all three revisions: the file system as an oracle,
 * the item lists of the left and middle panes, the directory listing of the preview pane, and
 * the titles. The loops that fill the widgets in the source are the `Build…` methods; each is
 * proved to produce the list or text its specification function describes.
 */
module Panes {
  import opened Text
  import opened Paths
  import opened Markup
  import opened Entries

  /** What `os.Stat` says about a path: whether it is a directory, or the error's text. */
  datatype StatResult = StatOk(isDir: bool) | StatFailed(msg: string)

  /** What `os.ReadFile` returns: the content, or the error's text. */
  datatype FileRead = FileOk(content: string) | FileFailed(msg: string)

  /** The file system as the browser observes it at one moment. */
  datatype FileSystem = FileSystem(
    stat: Path -> StatResult,
    readDir: Path -> DirRead,
    readFile: Path -> FileRead)

  // ---- titles and fixed texts ----

  const EmptyPreview := "[red]Empty Directory[/]"
  const ReadDirErrorPrefix := "Error reading directory: "
  const ReadFileErrorPrefix := "Error reading file: "
  const ContentsPrefix := "Contents: "
  const PreviewPrefix := "Preview: "

  /** `fmt.Sprintf("Current (%d items)", n)`. */
  function ItemsTitle(n: nat): string {
    "Current (" + NatToString(n) + " items)"
  }

  /** Distinct counts give distinct titles. */
  lemma ItemsTitleInjective(m: nat, n: nat)
    requires ItemsTitle(m) == ItemsTitle(n)
    ensures m == n
  {
    var a, b := NatToString(m), NatToString(n);
    assert "Current (" + a + " items)" == "Current (" + b + " items)";
    assert |a| == |b|;
    assert a == ItemsTitle(m)[9..9 + |a|];
    assert b == ItemsTitle(n)[9..9 + |b|];
    NatToStringInjective(m, n);
  }

  // ---- item lists ----

  function Names(es: seq<DirEntry>): seq<string> {
    seq(|es|, i requires 0 <= i < |es| => es[i].name)
  }

  /** The directory items `[darkcyan]name/[white]`, one per entry. */
  function DirItems(dirs: seq<DirEntry>): seq<string> {
    seq(|dirs|, i requires 0 <= i < |dirs| => DirItem(dirs[i].name))
  }

  /** The middle pane of a listing: every directory as a tagged item, then every file by its bare name. */
  function MiddleItems(l: Listing): (r: seq<string>)
    ensures |r| == |l.dirs| + |l.files|
    ensures forall i :: 0 <= i < |l.dirs| ==> r[i] == DirItem(l.dirs[i].name)
    ensures forall i :: 0 <= i < |l.files| ==> r[|l.dirs| + i] == l.files[i].name
  {
    DirItems(l.dirs) + Names(l.files)
  }

  /** The left pane's directories: the one named `active` in yellow, the others in dark cyan. */
  function SiblingItems(dirs: seq<DirEntry>, active: string): seq<string> {
    seq(|dirs|, i requires 0 <= i < |dirs| =>
      if dirs[i].name == active then ActiveDirItem(dirs[i].name) else DirItem(dirs[i].name))
  }

  /** The two `for … range` loops of updateMiddlePane: AddItem for each directory, then for each file. */
  method BuildMiddleItems(l: Listing) returns (items: seq<string>)
    ensures items == MiddleItems(l)
  {
    items := [];
    for i := 0 to |l.dirs|
      invariant items == DirItems(l.dirs[..i])
    {
      assert l.dirs[..i + 1] == l.dirs[..i] + [l.dirs[i]];
      items := items + [DirItem(l.dirs[i].name)];
    }
    assert l.dirs[..|l.dirs|] == l.dirs;
    for j := 0 to |l.files|
      invariant items == DirItems(l.dirs) + Names(l.files[..j])
    {
      assert l.files[..j + 1] == l.files[..j] + [l.files[j]];
      items := items + [l.files[j].name];
    }
    assert l.files[..|l.files|] == l.files;
  }

  /** The loop of the root revision's updateLeftPane: AddItem for each directory, all in dark cyan. */
  method BuildDirItems(dirs: seq<DirEntry>) returns (items: seq<string>)
    ensures items == DirItems(dirs)
  {
    items := [];
    for i := 0 to |dirs|
      invariant items == DirItems(dirs[..i])
    {
      assert dirs[..i + 1] == dirs[..i] + [dirs[i]];
      items := items + [DirItem(dirs[i].name)];
    }
    assert dirs[..|dirs|] == dirs;
  }

  /** The loop of the pkg revisions' updateLeftPane: yellow for the entry named `active`. */
  method BuildSiblingItems(dirs: seq<DirEntry>, active: string) returns (items: seq<string>)
    ensures items == SiblingItems(dirs, active)
  {
    items := [];
    for i := 0 to |dirs|
      invariant items == SiblingItems(dirs[..i], active)
    {
      assert dirs[..i + 1] == dirs[..i] + [dirs[i]];
      if dirs[i].name == active {
        items := items + [ActiveDirItem(dirs[i].name)];
      } else {
        items := items + [DirItem(dirs[i].name)];
      }
    }
    assert dirs[..|dirs|] == dirs;
  }

  /** Only an entry named `active` is shown in yellow, and it always is. */
  lemma SiblingHighlight(dirs: seq<DirEntry>, active: string, i: int)
    requires 0 <= i < |dirs|
    ensures SiblingItems(dirs, active)[i] == ActiveDirItem(dirs[i].name) <==> dirs[i].name == active
    ensures SiblingItems(dirs, active)[i] == DirItem(dirs[i].name) <==> dirs[i].name != active
  {
    var n := dirs[i].name;
    assert ActiveDirItem(n)[1] == 'y' && DirItem(n)[1] == 'd';
  }

  /** With distinct names at most one item of the left pane is highlighted. */
  lemma AtMostOneHighlight(dirs: seq<DirEntry>, active: string, i: int, j: int)
    requires DistinctNames(dirs)
    requires 0 <= i < |dirs| && 0 <= j < |dirs|
    requires SiblingItems(dirs, active)[i] == ActiveDirItem(dirs[i].name)
    requires SiblingItems(dirs, active)[j] == ActiveDirItem(dirs[j].name)
    ensures i == j
  {
    SiblingHighlight(dirs, active, i);
    SiblingHighlight(dirs, active, j);
  }

  // ---- the text of a directory preview ----

  /** The lines of a strings.Builder that wrote each item followed by a newline. */
  function Lines(items: seq<string>): string {
    if items == [] then "" else Lines(items[..|items| - 1]) + items[|items| - 1] + "\n"
  }

  lemma {:induction false} LinesConcat(a: seq<string>, b: seq<string>)
    ensures Lines(a + b) == Lines(a) + Lines(b)
    decreases |b|
  {
    if b == [] {
      assert a + b == a;
    } else {
      var b0 := b[..|b| - 1];
      assert (a + b)[..|a + b| - 1] == a + b0;
      assert (a + b)[|a + b| - 1] == b[|b| - 1];
      LinesConcat(a, b0);
    }
  }

  /**
   * The preview of a directory in the pkg revisions: `[darkcyan]d/[white]\n` for each directory,
   * then `f\n` for each file.
   */
  function PreviewText(l: Listing): string {
    Lines(DirItems(l.dirs)) + Lines(Names(l.files))
  }

  /** The preview of a directory is the middle pane that entering it would show, one item per line. */
  lemma PreviewListsMiddleItems(l: Listing)
    ensures PreviewText(l) == Lines(MiddleItems(l))
  {
    LinesConcat(DirItems(l.dirs), Names(l.files));
  }

  /** The two strings.Builder loops of `preview`. */
  method BuildPreviewText(l: Listing) returns (text: string)
    ensures text == PreviewText(l)
  {
    text := "";
    for i := 0 to |l.dirs|
      invariant text == Lines(DirItems(l.dirs)[..i])
    {
      assert DirItems(l.dirs)[..i + 1][..i] == DirItems(l.dirs)[..i];
      text := text + DirItem(l.dirs[i].name) + "\n";
    }
    assert DirItems(l.dirs)[..|l.dirs|] == DirItems(l.dirs);
    var head := text;
    for j := 0 to |l.files|
      invariant text == head + Lines(Names(l.files)[..j])
    {
      assert Names(l.files)[..j + 1][..j] == Names(l.files)[..j];
      text := text + l.files[j].name + "\n";
    }
    assert Names(l.files)[..|l.files|] == Names(l.files);
  }

  /** The root revision's directory preview: every entry `ReadDir` returned, tagged if it is a directory. */
  function RawItems(es: seq<DirEntry>): (r: seq<string>)
    ensures |r| == |es|
  {
    seq(|es|, i requires 0 <= i < |es| => if es[i].isDir then DirItem(es[i].name) else es[i].name)
  }

  function RawPreviewText(es: seq<DirEntry>): string {
    Lines(RawItems(es))
  }

  /** The strings.Builder loop of the root revision's changed callback. */
  method BuildRawPreviewText(es: seq<DirEntry>) returns (text: string)
    ensures text == RawPreviewText(es)
  {
    text := "";
    for i := 0 to |es|
      invariant text == Lines(RawItems(es)[..i])
    {
      assert RawItems(es)[..i + 1][..i] == RawItems(es)[..i];
      if es[i].isDir {
        text := text + DirItem(es[i].name) + "\n";
      } else {
        text := text + es[i].name + "\n";
      }
    }
    assert RawItems(es)[..|es|] == RawItems(es);
  }

  /** The root preview keeps the read order: a file read before a directory is listed before it. */
  lemma RawPreviewKeepsReadOrder(f: string, d: string)
    ensures RawPreviewText([DirEntry(f, false, true), DirEntry(d, true, true)]) ==
            f + "\n" + DirItem(d) + "\n"
    ensures PreviewText(ListingOf([DirEntry(f, false, true), DirEntry(d, true, true)])) ==
            DirItem(d) + "\n" + f + "\n"
  {
    var es := [DirEntry(f, false, true), DirEntry(d, true, true)];
    var items := RawItems(es);
    assert items == [f, DirItem(d)];
    assert items[..1] == [f] && items[..1][..0] == [];
    assert Lines(items[..1]) == f + "\n";
    assert Lines(items) == Lines(items[..1]) + DirItem(d) + "\n";
    var p := es[..1];
    assert p == [es[0]] && p[..0] == [];
    assert DirsOf(p) == [] && FilesOf(p) == [es[0]];
    assert DirsOf(es) == DirsOf(p) + [es[1]] == [es[1]];
    assert FilesOf(es) == FilesOf(p) == [es[0]];
    var l := ListingOf(es);
    assert SortByName([es[1]]) == [es[1]];
    assert SortByName([es[0]]) == [es[0]];
    assert l.dirs == [es[1]] && l.files == [es[0]];
    assert DirItems(l.dirs)[0] == DirItem(d);
    assert DirItems(l.dirs) == [DirItem(d)];
    assert Names(l.files) == [f];
    assert [DirItem(d)][..0] == [] && [f][..0] == [];
  }

  // ---- from a displayed item back to the child path ----

  /** A name a directory item round-trips through the cleaner for. */
  predicate DirName(n: string) {
    n != [] && n[|n| - 1] != '/' && TagFree(n) && !IsSpace(n[0])
  }

  /** A name a file item round-trips through the cleaner for. */
  predicate FileName(n: string) {
    n != [] && n[|n| - 1] != '/' && TagFree(n) && Trimmed(n)
  }

  predicate CleanNames(l: Listing) {
    (forall i :: 0 <= i < |l.dirs| ==> DirName(l.dirs[i].name)) &&
    (forall i :: 0 <= i < |l.files| ==> FileName(l.files[i].name))
  }

  /** The entry the i-th middle item was rendered from. */
  function EntryAt(l: Listing, i: int): DirEntry
    requires 0 <= i < |l.dirs| + |l.files|
  {
    if i < |l.dirs| then l.dirs[i] else l.files[i - |l.dirs|]
  }

  /**
   * Cleaning the i-th middle item and joining it to the directory gives that entry's path: the
   * directory item cleans to `n/`, whose trailing slash `filepath.Join` drops.
   */
  lemma ItemResolves(dir: Path, l: Listing, i: int)
    requires CleanNames(l)
    requires 0 <= i < |l.dirs| + |l.files|
    ensures Join(dir, CleanItemName(MiddleItems(l)[i])) == dir + [EntryAt(l, i).name]
    ensures i < |l.dirs| ==> CleanItemName(MiddleItems(l)[i]) == EntryAt(l, i).name + "/"
    ensures i >= |l.dirs| ==> CleanItemName(MiddleItems(l)[i]) == EntryAt(l, i).name
  {
    var n := EntryAt(l, i).name;
    if i < |l.dirs| {
      CleanDirItem(n);
      JoinDirectoryName(dir, n);
    } else {
      assert !HasSuffix(n, "/");
      CleanPlainName(n);
      assert StripSlashes(n) == n;
    }
  }

  /** The count in the pane's title: directories plus files, the read entries whose Info succeeded. */
  lemma ItemCountIsKept(es: seq<DirEntry>)
    ensures |MiddleItems(ListingOf(es))| == |Kept(es)|
  {
    PartitionIsKept(es);
    SortByNameCorrect(DirsOf(es));
    SortByNameCorrect(FilesOf(es));
    assert |multiset(DirsOf(es))| + |multiset(FilesOf(es))| == |multiset(Kept(es))|;
  }

  /** Some entry's Info fails exactly when fewer entries are kept than were read. */
  lemma {:induction false} KeptShorter(es: seq<DirEntry>)
    ensures |Kept(es)| <= |es|
    ensures |Kept(es)| < |es| <==> exists i :: 0 <= i < |es| && !es[i].infoOk
  {
    if es != [] {
      var p := es[..|es| - 1];
      KeptShorter(p);
      if !es[|es| - 1].infoOk {
        assert !es[|es| - 1].infoOk;
      } else if exists i :: 0 <= i < |p| && !p[i].infoOk {
        var i :| 0 <= i < |p| && !p[i].infoOk;
        assert !es[i].infoOk;
      } else {
        forall i | 0 <= i < |es| ensures es[i].infoOk {
          if i < |p| {
            assert es[i] == p[i];
          }
        }
      }
    }
  }

  // ---- the position indicator of the bottom bar ----

  /**
   * `"(" + strconv.Itoa(index) + "/" + strconv.Itoa(count) + ")"`; the pkg revisions add one to
   * the index, the root revision does not.
   */
  function PositionText(index: int, count: nat, oneBased: bool): (r: string)
    ensures |r| >= 2 && r[0] == '(' && r[|r| - 1] == ')'
  {
    "(" + IntToString(if oneBased then index + 1 else index) + "/" + NatToString(count) + ")"
  }

  /**
   * The indicator reads back: between `(` and the only `/` stands the index shown (one more than
   * `index` in the pkg revisions), and between `/` and `)` the item count.
   */
  lemma PositionTextReadsBack(index: int, count: nat, oneBased: bool) returns (k: nat)
    ensures var r := PositionText(index, count, oneBased);
      var shown := if oneBased then index + 1 else index;
      1 < k < |r| - 1 && r[0] == '(' && r[k] == '/' && r[|r| - 1] == ')' &&
      (forall m :: 0 < m < |r| - 1 && m != k ==> r[m] != '/') &&
      (shown >= 0 ==> ParseNat(r[1..k]) == shown) &&
      (shown < 0 ==> r[1] == '-' && ParseNat(r[2..k]) == -shown) &&
      ParseNat(r[k + 1..|r| - 1]) == count
  {
    var shown := if oneBased then index + 1 else index;
    var a, b := IntToString(shown), NatToString(count);
    var r := "(" + a + "/" + b + ")";
    assert r == PositionText(index, count, oneBased);
    k := 1 + |a|;
    assert r[1..k] == a;
    assert r[k + 1..|r| - 1] == b;
    ParseNatToString(count);
    if shown < 0 {
      assert r[2..k] == a[1..] == NatToString(-shown);
    }
    forall m | 0 < m < |r| - 1 && m != k ensures r[m] != '/' {
      if m < k {
        assert r[m] == a[m - 1];
        if shown < 0 && m > 1 {
          assert a[m - 1] == NatToString(-shown)[m - 2];
        }
      } else {
        assert r[m] == b[m - k - 1];
      }
    }
  }

  /** On the first item the root revision shows `(0/n)`, the pkg revisions `(1/n)`. */
  lemma FirstItemPosition(count: nat)
    ensures PositionText(0, count, false) == "(0/" + NatToString(count) + ")"
    ensures PositionText(0, count, true) == "(1/" + NatToString(count) + ")"
  {
    assert IntToString(0) == "0";
    assert IntToString(1) == "1";
  }
}
