/**
 * The colour-tagged strings the panes display, and the cleaner that recovers a file name from a
 * middle-pane item (`getCleanedItemName` / `GetCleanedItemName`, four identical copies).
 */
module Markup {
  import opened Text

  const DarkCyan := "[darkcyan]"
  const White := "[white]"
  const Yellow := "[yellow]"

  /** How a directory is shown: `[darkcyan]name/[white]`. */
  function DirItem(name: string): string {
    DarkCyan + name + "/" + White
  }

  /** How the left pane shows the sibling that is the current directory: `[yellow]name/[white]`. */
  function ActiveDirItem(name: string): string {
    Yellow + name + "/" + White
  }

  /**
   * TrimSuffix "/", then ReplaceAll of the two tags, then TrimSpace, in that order: the suffix
   * test runs while the closing tag is still there.
   */
  function CleanItemName(item: string): (r: string)
    ensures Trimmed(r)
  {
    TrimSpace(ReplaceAll(ReplaceAll(TrimSuffix(item, "/"), DarkCyan, ""), White, ""))
  }

  /** The name contains neither tag the cleaner removes. */
  predicate TagFree(n: string) {
    !Contains(n, DarkCyan) && !Contains(n, White)
  }

  /** After a tag-free prefix, the first character of `t` (absent from `p`) blocks any occurrence of `p`. */
  lemma NoOccurrenceBefore(n: string, t: string, p: string)
    requires p != [] && !Contains(n, p)
    requires t != [] && t[0] !in p
    ensures forall i: nat :: i <= |n| ==> !OccursAt(n + t, p, i)
  {
    forall i: nat | i <= |n| ensures !OccursAt(n + t, p, i) {
      if i + |p| <= |n| {
        assert !OccursAt(n, p, i);
      } else {
        assert (n + t)[|n|] == t[0];
        AbsentCharBlocks(n + t, p, |n|, i);
      }
    }
  }

  /** Removing `[darkcyan]` from a directory item drops only the opening tag. */
  lemma StripOpeningTag(n: string)
    requires !Contains(n, DarkCyan)
    ensures ReplaceAll(DirItem(n), DarkCyan, "") == n + ("/" + White)
  {
    var tail := "/" + White;
    assert DirItem(n) == DarkCyan + (n + tail);
    ReplaceAllLeading(DarkCyan, n + tail, "");
    NoOccurrenceBefore(n, tail, DarkCyan);
    ReplaceAllSkips(n, tail, DarkCyan, "");
    assert |tail| < |DarkCyan|;
  }

  /** Removing `[white]` from `n/[white]` drops only the closing tag. */
  lemma StripClosingTag(n: string)
    requires !Contains(n, White)
    ensures ReplaceAll(n + ("/" + White), White, "") == n + "/"
  {
    var a := n + "/";
    assert n + ("/" + White) == a + White;
    NoOccurrenceBefore(n, "/" + White, White);
    ReplaceAllSkips(a, White, White, "");
    ReplaceAllLeading(White, "", "");
    assert White + "" == White;
    assert a + "" == a;
  }

  /**
   * Round trip of a middle-pane directory item: cleaning `[darkcyan]n/[white]` gives `n/`, not
   * `n`, because the trailing-slash trim runs before the closing tag is removed.
   */
  lemma CleanDirItem(n: string)
    requires TagFree(n)
    requires n == [] || !IsSpace(n[0])
    ensures CleanItemName(DirItem(n)) == n + "/"
  {
    var item := DirItem(n);
    assert !HasSuffix(item, "/") by {
      assert item[|item| - 1] == ']';
    }
    StripOpeningTag(n);
    StripClosingTag(n);
    assert Trimmed(n + "/");
  }

  /** A plain name (no tags, no trailing `/`, no surrounding white space) is returned unchanged. */
  lemma CleanPlainName(n: string)
    requires TagFree(n)
    requires !HasSuffix(n, "/")
    requires Trimmed(n)
    ensures CleanItemName(n) == n
  {
    ReplaceAllAbsent(n, DarkCyan, "");
    ReplaceAllAbsent(n, White, "");
  }

  /** A file whose name carries a tag cannot be told apart from the untagged name. */
  lemma CleanCorruptsTaggedName()
    ensures CleanItemName(White + "notes") == "notes"
  {
    var s := White + "notes";
    assert s[|s| - 1] == 's';
    assert !HasSuffix(s, "/");
    assert s[2] == 'h' && 'h' !in DarkCyan;
    forall i: nat | i <= |s| ensures !OccursAt(s, DarkCyan, i) {
      if i <= 2 {
        AbsentCharBlocks(s, DarkCyan, 2, i);
      }
    }
    ReplaceAllAbsent(s, DarkCyan, "");
    ReplaceAllLeading(White, "notes", "");
    assert |"notes"| < |White|;
    assert Trimmed("notes");
  }
}
