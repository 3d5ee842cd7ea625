/**
 * `getDirSizeAndCount` (pkg/fileop.go, and its copy in pkg/utils.go): a `filepath.WalkDir` over a
 * directory whose callback adds up the sizes and the number of everything below the root, and
 * stops the walk at the first error.
 *
 * The file system is a tree of nodes; `Visits` is the sequence of callback invocations
 * `WalkDir` makes over it, and `DirSizeAndCount` is the callback's accumulation over that sequence.
 */
module DirWalk {

  /**
   * A file-system node as the walk sees it. For the walk root `infoOk` says whether its `Lstat`
   * succeeds; below the root it says whether `d.Info()` succeeds. `readOk` says whether reading a
   * directory succeeds; `children` are its entries in the order `ReadDir` returns them.
   */
  datatype Node = Node(size: int, infoOk: bool, isDir: bool, readOk: bool, children: seq<Node>)

  /**
   * One call of the callback: whether its path is the walk root, whether its `err` argument is
   * non-nil, and (for an entry below the root) whether `d.Info()` succeeds and the size it reports.
   */
  datatype Visit = Visit(isRoot: bool, failed: bool, infoOk: bool, size: int)

  /** The callback invocations `filepath.WalkDir` makes for node `n`, in order. */
  function Visits(n: Node, isRoot: bool): seq<Visit>
    decreases n, 1
  {
    if isRoot && !n.infoOk then
      // Lstat of the root failed: fn(root, nil, err)
      [Visit(true, true, false, 0)]
    else
      [Visit(isRoot, false, n.infoOk, n.size)] +
      (if !n.isDir then []
       else if n.readOk then ChildVisits(n.children)
       // ReadDir failed: fn(path, d, err), a second call for the same directory
       else [Visit(isRoot, true, false, 0)])
  }

  function ChildVisits(cs: seq<Node>): seq<Visit>
    decreases cs, 0
  {
    if cs == [] then [] else Visits(cs[0], false) + ChildVisits(cs[1..])
  }

  /** The callback returns an error for this visit: its err argument, or a failing `d.Info()`. */
  predicate Stops(v: Visit) {
    v.failed || (!v.isRoot && !v.infoOk)
  }

  /** The index of the first visit whose callback returns an error, or |vs| if there is none. */
  function FirstStop(vs: seq<Visit>): (k: nat)
    ensures k <= |vs|
    ensures k < |vs| ==> Stops(vs[k])
    ensures forall j :: 0 <= j < k ==> !Stops(vs[j])
  {
    if vs == [] then 0
    else if Stops(vs[0]) then 0
    else 1 + FirstStop(vs[1..])
  }

  datatype Totals = Totals(size: int, count: nat)

  function Add(a: Totals, b: Totals): Totals {
    Totals(a.size + b.size, a.count + b.count)
  }

  /** What the callback adds up over visits that all return nil: every visit except the root's. */
  function Tally(vs: seq<Visit>): Totals {
    if vs == [] then Totals(0, 0) else Count(Tally(vs[..|vs| - 1]), vs[|vs| - 1])
  }

  /** The callback body for a visit that returns nil: `totalSize += info.Size(); count++`, except at the root. */
  function Count(t: Totals, v: Visit): Totals {
    if v.isRoot then t else Totals(t.size + v.size, t.count + 1)
  }

  /** What the walk returns: the totals so far, and whether an error stopped it. */
  datatype WalkResult = WalkResult(total: int, count: nat, failed: bool)

  /** The callback's accumulation, run over the visits until one returns an error. */
  method DirSizeAndCount(root: Node) returns (r: WalkResult)
    ensures var vs := Visits(root, true);
      r == WalkResult(Tally(vs[..FirstStop(vs)]).size, Tally(vs[..FirstStop(vs)]).count,
                      FirstStop(vs) < |vs|)
  {
    var vs := Visits(root, true);
    var totalSize, count, failed := 0, 0, false;
    var i := 0;
    while i < |vs| && !failed
      invariant 0 <= i <= |vs|
      invariant failed ==> i > 0 && Stops(vs[i - 1])
      invariant forall j :: 0 <= j < (if failed then i - 1 else i) ==> !Stops(vs[j])
      invariant Tally(vs[..(if failed then i - 1 else i)]) == Totals(totalSize, count)
    {
      var v := vs[i];
      assert vs[..i + 1][..i] == vs[..i];
      if v.failed {
        failed := true;
      } else if v.isRoot {
        // p == path: skip the directory itself
      } else if !v.infoOk {
        failed := true;
      } else {
        totalSize := totalSize + v.size;
        count := count + 1;
      }
      i := i + 1;
    }
    var k := if failed then i - 1 else i;
    assert k == FirstStop(vs) by {
      FirstStopIs(vs, k);
    }
    r := WalkResult(totalSize, count, failed);
  }

  /** FirstStop is the index of the first stopping visit. */
  lemma FirstStopIs(vs: seq<Visit>, k: nat)
    requires k <= |vs|
    requires k < |vs| ==> Stops(vs[k])
    requires forall j :: 0 <= j < k ==> !Stops(vs[j])
    ensures FirstStop(vs) == k
  {
  }

  // ---- what the walk adds up over a tree where nothing fails ----

  /** Every Lstat, Info and ReadDir in the subtree succeeds. */
  predicate Clean(n: Node)
    decreases n, 1
  {
    n.infoOk && (n.isDir ==> n.readOk && CleanAll(n.children))
  }

  predicate CleanAll(cs: seq<Node>)
    decreases cs, 0
  {
    cs == [] || (Clean(cs[0]) && CleanAll(cs[1..]))
  }

  /** The sizes and the number of the nodes of a subtree, the node included. */
  function Subtree(n: Node): Totals
    decreases n, 1
  {
    Add(Totals(n.size, 1), if n.isDir && n.readOk then Forest(n.children) else Totals(0, 0))
  }

  function Forest(cs: seq<Node>): Totals
    decreases cs, 0
  {
    if cs == [] then Totals(0, 0) else Add(Subtree(cs[0]), Forest(cs[1..]))
  }

  lemma {:induction false} TallyConcat(a: seq<Visit>, b: seq<Visit>)
    ensures Tally(a + b) == Add(Tally(a), Tally(b))
    decreases |b|
  {
    var ab := a + b;
    if b == [] {
      assert ab == a;
    } else {
      var b0, v := b[..|b| - 1], b[|b| - 1];
      assert ab[..|ab| - 1] == a + b0;
      assert ab[|ab| - 1] == v;
      TallyConcat(a, b0);
      calc {
        Tally(ab);
        Count(Tally(a + b0), v);
        Count(Add(Tally(a), Tally(b0)), v);
        Add(Tally(a), Count(Tally(b0), v));
      }
    }
  }

  /** Below the root, a clean subtree's visits all return nil and count each of its nodes once. */
  lemma {:induction false} CleanVisits(n: Node)
    requires Clean(n)
    ensures forall j :: 0 <= j < |Visits(n, false)| ==> !Stops(Visits(n, false)[j]) && !Visits(n, false)[j].isRoot
    ensures Tally(Visits(n, false)) == Subtree(n)
    decreases n, 1
  {
    var head := [Visit(false, false, n.infoOk, n.size)];
    if n.isDir {
      CleanChildVisits(n.children);
      TallyConcat(head, ChildVisits(n.children));
    } else {
      assert Visits(n, false) == head + [];
    }
  }

  lemma {:induction false} CleanChildVisits(cs: seq<Node>)
    requires CleanAll(cs)
    ensures forall j :: 0 <= j < |ChildVisits(cs)| ==> !Stops(ChildVisits(cs)[j]) && !ChildVisits(cs)[j].isRoot
    ensures Tally(ChildVisits(cs)) == Forest(cs)
    decreases cs, 0
  {
    if cs != [] {
      CleanVisits(cs[0]);
      CleanChildVisits(cs[1..]);
      TallyConcat(Visits(cs[0], false), ChildVisits(cs[1..]));
      var a, b := Visits(cs[0], false), ChildVisits(cs[1..]);
      forall j | 0 <= j < |a + b| ensures !Stops((a + b)[j]) && !(a + b)[j].isRoot {
        if j >= |a| {
          assert (a + b)[j] == b[j - |a|];
        }
      }
    }
  }

  /**
   * When nothing fails, the walk succeeds and returns the size and number of every node below
   * the root: the root itself is skipped.
   */
  lemma CleanWalk(root: Node)
    requires Clean(root)
    ensures var vs := Visits(root, true);
      FirstStop(vs) == |vs| &&
      Add(Tally(vs), Totals(root.size, 1)) == Subtree(root)
  {
    var vs := Visits(root, true);
    var head := [Visit(true, false, root.infoOk, root.size)];
    if root.isDir {
      CleanChildVisits(root.children);
      TallyConcat(head, ChildVisits(root.children));
      assert vs == head + ChildVisits(root.children);
      forall j | 0 <= j < |vs| ensures !Stops(vs[j]) {
        if j > 0 {
          assert vs[j] == ChildVisits(root.children)[j - 1];
        }
      }
    } else {
      assert vs == head;
    }
    FirstStopIs(vs, |vs|);
  }

  /** A root that cannot be read stops the walk at once with nothing counted. */
  lemma UnreadableRoot(root: Node)
    requires root.infoOk && root.isDir && !root.readOk
    ensures var vs := Visits(root, true);
      FirstStop(vs) == 1 && Tally(vs[..1]) == Totals(0, 0)
  {
    var vs := Visits(root, true);
    assert vs[..1] == [Visit(true, false, true, root.size)];
    assert vs[..1][..0] == [];
  }

  /** An error in the first child's Info stops the walk before anything is counted. */
  lemma FailingFirstChild(root: Node)
    requires root.infoOk && root.isDir && root.readOk
    requires root.children != [] && !root.children[0].infoOk
    ensures var vs := Visits(root, true);
      FirstStop(vs) == 1 && Tally(vs[..1]) == Totals(0, 0)
  {
    var vs := Visits(root, true);
    var c := root.children;
    assert Visits(c[0], false) != [];
    assert ChildVisits(c)[0] == Visits(c[0], false)[0];
    assert vs[1] == ChildVisits(c)[0];
    assert vs[..1] == [Visit(true, false, true, root.size)];
    assert vs[..1][..0] == [];
    FirstStopIs(vs, 1);
  }
}
