/**
 * Directory listings: `GetEntries` (pkg/fileop.go, and its copy in pkg/utils.go) reads a
 * directory, drops the entries whose `Info()` fails, splits the rest into directories and files
 * and sorts each part by name.
 */
module Entries {
  import opened Wrappers
  import opened Paths

  /** One entry of `os.ReadDir`: its name, its type bit, and whether `entry.Info()` succeeds. */
  datatype DirEntry = DirEntry(name: string, isDir: bool, infoOk: bool)

  /** What `os.ReadDir` returns: the entries, or the error's text. */
  datatype DirRead = Listed(entries: seq<DirEntry>) | ReadFailed(msg: string)

  datatype Listing = Listing(dirs: seq<DirEntry>, files: seq<DirEntry>)

  // ---- Go's string `<`: lexicographic order of code points, the same as byte order of UTF-8 ----

  predicate NameLess(a: string, b: string)
    decreases |a|
  {
    if a == [] then b != []
    else if b == [] then false
    else if a[0] != b[0] then a[0] < b[0]
    else NameLess(a[1..], b[1..])
  }

  predicate NameLeq(a: string, b: string) {
    a == b || NameLess(a, b)
  }

  lemma NameLessIrreflexive(a: string)
    ensures !NameLess(a, a)
  {
  }

  lemma {:induction false} NameLessTransitive(a: string, b: string, c: string)
    requires NameLess(a, b) && NameLess(b, c)
    ensures NameLess(a, c)
    decreases |a|
  {
    if a != [] && b != [] && c != [] && a[0] == b[0] == c[0] {
      NameLessTransitive(a[1..], b[1..], c[1..]);
    }
  }

  lemma {:induction false} NameLessTotal(a: string, b: string)
    ensures a == b || NameLess(a, b) || NameLess(b, a)
    decreases |a|
  {
    if a != [] && b != [] && a[0] == b[0] {
      NameLessTotal(a[1..], b[1..]);
      if a[1..] == b[1..] {
        assert a == [a[0]] + a[1..] && b == [b[0]] + b[1..];
      }
    }
  }

  lemma {:induction false} NameLessAsymmetric(a: string, b: string)
    requires NameLess(a, b)
    ensures !NameLess(b, a)
    decreases |a|
  {
    if a != [] && b != [] && a[0] == b[0] {
      NameLessAsymmetric(a[1..], b[1..]);
    }
  }

  lemma NameLeqTransitive(a: string, b: string, c: string)
    requires NameLeq(a, b) && NameLeq(b, c)
    ensures NameLeq(a, c)
  {
    if a != b && b != c {
      NameLessTransitive(a, b, c);
    }
  }

  lemma NameLeqAntisymmetric(a: string, b: string)
    requires NameLeq(a, b) && NameLeq(b, a)
    ensures a == b
  {
    if a != b {
      NameLessAsymmetric(a, b);
    }
  }

  /** Ascending by name, as `sort.Slice` with `Name() < Name()` leaves a slice. */
  predicate Sorted(s: seq<DirEntry>) {
    forall i, j :: 0 <= i < j < |s| ==> NameLeq(s[i].name, s[j].name)
  }

  predicate StrictlySorted(s: seq<DirEntry>) {
    forall i, j :: 0 <= i < j < |s| ==> NameLess(s[i].name, s[j].name)
  }

  predicate DistinctNames(s: seq<DirEntry>) {
    forall i, j :: 0 <= i < j < |s| ==> s[i].name != s[j].name
  }

  // ---- the sort: `sort.Slice` is library code; an insertion sort stands for it ----

  function Insert(e: DirEntry, s: seq<DirEntry>): seq<DirEntry> {
    if s == [] then [e]
    else if NameLeq(e.name, s[0].name) then [e] + s
    else [s[0]] + Insert(e, s[1..])
  }

  function SortByName(s: seq<DirEntry>): seq<DirEntry> {
    if s == [] then [] else Insert(s[0], SortByName(s[1..]))
  }

  /** Every entry of `s` sorts at or after `n`. */
  predicate AllAtLeast(n: string, s: seq<DirEntry>) {
    forall j :: 0 <= j < |s| ==> NameLeq(n, s[j].name)
  }

  /** Every entry of `s` sorts strictly after `n`. */
  predicate AllAbove(n: string, s: seq<DirEntry>) {
    forall j :: 0 <= j < |s| ==> NameLess(n, s[j].name)
  }

  lemma {:induction false} InsertMultiset(e: DirEntry, s: seq<DirEntry>)
    ensures multiset(Insert(e, s)) == multiset(s) + multiset{e}
  {
    if s != [] && !NameLeq(e.name, s[0].name) {
      InsertMultiset(e, s[1..]);
      assert s == [s[0]] + s[1..];
    }
  }

  lemma {:induction false} InsertBound(n: string, e: DirEntry, s: seq<DirEntry>)
    requires AllAtLeast(n, s) && NameLeq(n, e.name)
    ensures AllAtLeast(n, Insert(e, s))
  {
    if s != [] && !NameLeq(e.name, s[0].name) {
      InsertBound(n, e, s[1..]);
      var t := Insert(e, s[1..]);
      assert Insert(e, s) == [s[0]] + t;
      forall j | 0 <= j < |t| + 1 ensures NameLeq(n, ([s[0]] + t)[j].name) {
        if j > 0 {
          assert ([s[0]] + t)[j] == t[j - 1];
        }
      }
    }
  }

  lemma {:induction false} InsertBoundStrict(n: string, e: DirEntry, s: seq<DirEntry>)
    requires AllAbove(n, s) && NameLess(n, e.name)
    ensures AllAbove(n, Insert(e, s))
  {
    if s != [] && !NameLeq(e.name, s[0].name) {
      InsertBoundStrict(n, e, s[1..]);
      var t := Insert(e, s[1..]);
      assert Insert(e, s) == [s[0]] + t;
      forall j | 0 <= j < |t| + 1 ensures NameLess(n, ([s[0]] + t)[j].name) {
        if j > 0 {
          assert ([s[0]] + t)[j] == t[j - 1];
        }
      }
    }
  }

  lemma ConsSorted(x: DirEntry, s: seq<DirEntry>)
    requires Sorted(s) && AllAtLeast(x.name, s)
    ensures Sorted([x] + s)
  {
    var r := [x] + s;
    forall i, j | 0 <= i < j < |r| ensures NameLeq(r[i].name, r[j].name) {
      assert r[j] == s[j - 1];
      if i > 0 {
        assert r[i] == s[i - 1];
      }
    }
  }

  lemma ConsStrict(x: DirEntry, s: seq<DirEntry>)
    requires StrictlySorted(s) && AllAbove(x.name, s)
    ensures StrictlySorted([x] + s)
  {
    var r := [x] + s;
    forall i, j | 0 <= i < j < |r| ensures NameLess(r[i].name, r[j].name) {
      assert r[j] == s[j - 1];
      if i > 0 {
        assert r[i] == s[i - 1];
      }
    }
  }

  lemma {:induction false} InsertSorted(e: DirEntry, s: seq<DirEntry>)
    requires Sorted(s)
    ensures Sorted(Insert(e, s))
  {
    if s == [] {
    } else if NameLeq(e.name, s[0].name) {
      forall j | 0 <= j < |s| ensures NameLeq(e.name, s[j].name) {
        NameLeqTransitive(e.name, s[0].name, s[j].name);
      }
      ConsSorted(e, s);
    } else {
      InsertSorted(e, s[1..]);
      NameLessTotal(e.name, s[0].name);
      InsertBound(s[0].name, e, s[1..]);
      ConsSorted(s[0], Insert(e, s[1..]));
    }
  }

  lemma {:induction false} SortByNameCorrect(s: seq<DirEntry>)
    ensures multiset(SortByName(s)) == multiset(s)
    ensures Sorted(SortByName(s))
  {
    if s != [] {
      SortByNameCorrect(s[1..]);
      InsertMultiset(s[0], SortByName(s[1..]));
      InsertSorted(s[0], SortByName(s[1..]));
      assert s == [s[0]] + s[1..];
    }
  }

  lemma {:induction false} InsertStrict(e: DirEntry, s: seq<DirEntry>)
    requires StrictlySorted(s)
    requires forall x :: x in s ==> x.name != e.name
    ensures StrictlySorted(Insert(e, s))
  {
    if s != [] {
      if NameLeq(e.name, s[0].name) {
        forall j | 0 <= j < |s| ensures NameLess(e.name, s[j].name) {
          if j > 0 {
            NameLessTransitive(e.name, s[0].name, s[j].name);
          }
        }
        ConsStrict(e, s);
      } else {
        InsertStrict(e, s[1..]);
        NameLessTotal(e.name, s[0].name);
        InsertBoundStrict(s[0].name, e, s[1..]);
        ConsStrict(s[0], Insert(e, s[1..]));
      }
    }
  }

  /** With unique names the sorted order is strict. */
  lemma {:induction false} SortByNameStrict(s: seq<DirEntry>)
    requires DistinctNames(s)
    ensures StrictlySorted(SortByName(s))
  {
    if s != [] {
      SortByNameStrict(s[1..]);
      SortByNameCorrect(s[1..]);
      var t := SortByName(s[1..]);
      forall x | x in t ensures x.name != s[0].name {
        assert x in multiset(s[1..]);
        var k :| 0 <= k < |s[1..]| && s[1..][k] == x;
        assert s[k + 1] == x;
      }
      InsertStrict(s[0], t);
    }
  }

  /** In `s`, entries with the same name are the same entry. */
  predicate NamesDetermine(s: seq<DirEntry>) {
    forall i, j :: 0 <= i < |s| && 0 <= j < |s| && s[i].name == s[j].name ==> s[i] == s[j]
  }

  /**
   * Any sorted arrangement of the same entries is the one SortByName gives, when equal names mean
   * equal entries: so whatever algorithm `sort.Slice` uses, its result is this one.
   */
  /** The head of a sorted sequence sorts at or before each of its entries. */
  lemma SortedHeadLeast(a: seq<DirEntry>, x: DirEntry)
    requires Sorted(a) && x in multiset(a)
    ensures NameLeq(a[0].name, x.name)
  {
    var k :| 0 <= k < |a| && a[k] == x;
  }

  lemma HeadsEqual(a: seq<DirEntry>, b: seq<DirEntry>)
    requires Sorted(a) && Sorted(b) && a != [] && b != []
    requires multiset(a) == multiset(b)
    requires NamesDetermine(a)
    ensures a[0] == b[0]
  {
    assert a[0] in multiset(a) && b[0] in multiset(b);
    SortedHeadLeast(a, b[0]);
    SortedHeadLeast(b, a[0]);
    NameLeqAntisymmetric(a[0].name, b[0].name);
    var m :| 0 <= m < |a| && a[m] == b[0];
  }

  /**
   * Any sorted arrangement of the same entries is the same sequence, when equal names mean
   * equal entries: whatever algorithm `sort.Slice` uses, its result is determined.
   */
  lemma {:induction false} SortedPermutationUnique(a: seq<DirEntry>, b: seq<DirEntry>)
    requires Sorted(a) && Sorted(b)
    requires multiset(a) == multiset(b)
    requires NamesDetermine(a)
    ensures a == b
    decreases |a|
  {
    assert |a| == |multiset(a)| == |b|;
    if a != [] {
      HeadsEqual(a, b);
      TailMultiset(a);
      TailMultiset(b);
      TailKeeps(a);
      SortedPermutationUnique(a[1..], b[1..]);
    }
  }

  lemma TailMultiset(a: seq<DirEntry>)
    requires a != []
    ensures multiset(a[1..]) == multiset(a) - multiset{a[0]}
  {
    assert a == [a[0]] + a[1..];
  }

  lemma TailKeeps(a: seq<DirEntry>)
    requires a != [] && Sorted(a) && NamesDetermine(a)
    ensures Sorted(a[1..]) && NamesDetermine(a[1..])
  {
    var t := a[1..];
    forall i, j | 0 <= i < j < |t| ensures NameLeq(t[i].name, t[j].name) {
      assert t[i] == a[i + 1] && t[j] == a[j + 1];
    }
    forall i, j | 0 <= i < |t| && 0 <= j < |t| && t[i].name == t[j].name ensures t[i] == t[j] {
      assert t[i] == a[i + 1] && t[j] == a[j + 1];
    }
  }

  // ---- the partition loop and its specification ----

  predicate IsKeptDir(e: DirEntry) { e.infoOk && e.isDir }

  predicate IsKeptFile(e: DirEntry) { e.infoOk && !e.isDir }

  /** The directories the loop of GetEntries keeps, in read order. */
  function DirsOf(es: seq<DirEntry>): (r: seq<DirEntry>)
    ensures forall x :: x in r ==> x in es && IsKeptDir(x)
  {
    if es == [] then []
    else DirsOf(es[..|es| - 1]) + (if IsKeptDir(es[|es| - 1]) then [es[|es| - 1]] else [])
  }

  /** The files the loop of GetEntries keeps, in read order. */
  function FilesOf(es: seq<DirEntry>): (r: seq<DirEntry>)
    ensures forall x :: x in r ==> x in es && IsKeptFile(x)
  {
    if es == [] then []
    else FilesOf(es[..|es| - 1]) + (if IsKeptFile(es[|es| - 1]) then [es[|es| - 1]] else [])
  }

  /** The entries whose Info succeeded, in read order. */
  function Kept(es: seq<DirEntry>): (r: seq<DirEntry>)
    ensures forall x :: x in r <==> x in es && x.infoOk
  {
    if es == [] then []
    else Kept(es[..|es| - 1]) + (if es[|es| - 1].infoOk then [es[|es| - 1]] else [])
  }

  /** Directories plus files are exactly the entries whose Info succeeded, counted with multiplicity. */
  lemma {:induction false} PartitionIsKept(es: seq<DirEntry>)
    ensures multiset(DirsOf(es)) + multiset(FilesOf(es)) == multiset(Kept(es))
  {
    if es != [] {
      PartitionIsKept(es[..|es| - 1]);
    }
  }

  lemma {:induction false} DirsOfDistinct(es: seq<DirEntry>)
    requires DistinctNames(es)
    ensures DistinctNames(DirsOf(es)) && DistinctNames(FilesOf(es))
  {
    if es != [] {
      var p := es[..|es| - 1];
      var last := es[|es| - 1];
      assert DistinctNames(p);
      DirsOfDistinct(p);
      forall x | x in p ensures x.name != last.name {
        var k :| 0 <= k < |p| && p[k] == x;
      }
    }
  }

  /** The listing GetEntries returns for a successful read. */
  function ListingOf(es: seq<DirEntry>): Listing {
    Listing(SortByName(DirsOf(es)), SortByName(FilesOf(es)))
  }

  /** The `for _, entry := range entries` loop: skip failed Info, append to directories or files. */
  method Partition(es: seq<DirEntry>) returns (dirs: seq<DirEntry>, files: seq<DirEntry>)
    ensures dirs == DirsOf(es) && files == FilesOf(es)
  {
    dirs, files := [], [];
    for i := 0 to |es|
      invariant dirs == DirsOf(es[..i]) && files == FilesOf(es[..i])
    {
      var e := es[i];
      assert es[..i + 1][..i] == es[..i];
      if !e.infoOk {
        continue;
      }
      if e.isDir {
        dirs := dirs + [e];
      } else {
        files := files + [e];
      }
    }
    assert es[..|es|] == es;
  }

  /** The wrapped error text of a failed read: `error reading directory <path>: <err>`. */
  function ReadError(path: Path, msg: string): string {
    "error reading directory " + PathString(path) + ": " + msg
  }

  /** `GetEntries(path)`, given what `os.ReadDir(path)` returned. */
  method GetEntries(path: Path, read: DirRead) returns (r: Result<Listing>)
    ensures read.ReadFailed? ==> r == Failure(ReadError(path, read.msg))
    ensures read.Listed? ==> r == Success(ListingOf(read.entries))
    ensures r.Success? ==> forall d :: d in r.value.dirs ==> d in read.entries && d.isDir && d.infoOk
    ensures r.Success? ==> forall f :: f in r.value.files ==> f in read.entries && !f.isDir && f.infoOk
    ensures r.Success? ==> multiset(r.value.dirs) + multiset(r.value.files) == multiset(Kept(read.entries))
    ensures r.Success? ==> Sorted(r.value.dirs) && Sorted(r.value.files)
    ensures r.Success? && DistinctNames(read.entries) ==>
      StrictlySorted(r.value.dirs) && StrictlySorted(r.value.files)
  {
    match read
    case ReadFailed(msg) =>
      r := Failure(ReadError(path, msg));
    case Listed(es) =>
      var directories, files := Partition(es);
      // sort.Slice(directories, ...) and sort.Slice(files, ...)
      SortByNameCorrect(directories);
      SortByNameCorrect(files);
      directories := SortByName(directories);
      files := SortByName(files);
      PartitionIsKept(es);
      forall d | d in directories ensures d in es && IsKeptDir(d) {
        assert d in multiset(DirsOf(es));
      }
      forall f | f in files ensures f in es && IsKeptFile(f) {
        assert f in multiset(FilesOf(es));
      }
      if DistinctNames(es) {
        DirsOfDistinct(es);
        SortByNameStrict(DirsOf(es));
        SortByNameStrict(FilesOf(es));
      }
      r := Success(Listing(directories, files));
  }

  /** Entries of one kind: a kept directory and another of the same name are the same entry. */
  lemma SameKindDetermine(s: seq<DirEntry>, dir: bool)
    requires forall x :: x in s ==> x.infoOk && x.isDir == dir
    ensures NamesDetermine(s)
  {
  }

  /** Any sorted arrangement of the kept directories (or files) is SortByName's. */
  lemma SortedArrangementUnique(xs: seq<DirEntry>, s: seq<DirEntry>, dir: bool)
    requires forall x :: x in s ==> x.infoOk && x.isDir == dir
    requires Sorted(xs) && multiset(xs) == multiset(s)
    ensures xs == SortByName(s)
  {
    SortByNameCorrect(s);
    forall x | x in xs ensures x.infoOk && x.isDir == dir {
      assert x in multiset(s);
    }
    SameKindDetermine(xs, dir);
    SortedPermutationUnique(xs, SortByName(s));
  }

  /** A sorted listing of the kept directories and files can only be ListingOf's: sort.Slice's order is this one. */
  lemma SortSliceResult(es: seq<DirEntry>, dirs: seq<DirEntry>, files: seq<DirEntry>)
    requires Sorted(dirs) && multiset(dirs) == multiset(DirsOf(es))
    requires Sorted(files) && multiset(files) == multiset(FilesOf(es))
    ensures Listing(dirs, files) == ListingOf(es)
  {
    SortedArrangementUnique(dirs, DirsOf(es), true);
    SortedArrangementUnique(files, FilesOf(es), false);
  }
}
