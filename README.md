# go-ranger, modelled in Dafny

go-ranger is a terminal file browser built on tview. It shows three panes:

- the left pane lists the parent directory's sub-directories;
- the middle pane lists the current directory, directories first and then files, each sorted by name;
- the right pane previews the selected item.

Keys move, open and go up. `a` adds a file or a directory, `d` deletes after a confirmation, and
`q` or Ctrl-C quits. The repository holds three revisions of the same program side by side, and the
model keeps all three apart through one `Revision` value:

- `Root`: the root `package main` (filehandler.go, ui.go, utils.go, main.go);
- `Monolithic`: pkg/main_app.go on its own;
- `Split`: the split pkg files (pkg/ui.go, pkg/event_handler.go, pkg/file_preview.go,
  pkg/fileop.go, pkg/utils.go). This revision also remembers the cursor per directory in
  `selectedPaths`.

How the model is built:

- The file system is a snapshot of three total functions (`stat`, `readDir`, `readFile`) in
  `Panes.FileSystem`. What `os.MkdirAll`, `os.Create` and `os.RemoveAll` are asked to do is recorded
  in the state's `requests`. Whether such a call succeeded is a boolean parameter.
- `os.ReadDir` returns its entries sorted by file name; `readDir` accepts entries in any order.
  Where a member speaks of "read order" (`Entries.Partition`, `Panes.BuildDirItems`,
  `Panes.BuildRawPreviewText`, `PaneUpdate.RootLeftPane`, `PreviewPane.RootPreviewIsRaw`,
  `Panes.RawPreviewKeepsReadOrder`), that is name order in the program, and the lemmas hold for
  every order.
- tview's `SetCurrentItem` is the `Settle` parameter. An index inside the list is taken as given;
  any other index lands somewhere inside a non-empty list, since the source does not show what
  tview does then.
- Paths are sequences of components (`Paths.Path`), and strings are sequences of code points.
- The pure logic lives in modules of functions and lemmas:

  | module | what it holds |
  |---|---|
  | `Text` | the Go `strings`/`fmt` calls |
  | `Paths` | `filepath.Dir/Base/Join` |
  | `Markup` | colour tags and `getCleanedItemName` |
  | `Entries` | `GetEntries` and the name sort |
  | `DirWalk` | `getDirSizeAndCount` |
  | `Sizes` | `convertFileSize`, `formatBytes`, `GetDiskInfo` |
  | `Panes`, `PaneUpdate` | pane contents and `updatePanes` |
  | `PreviewPane` | the preview handler |
  | `FileActions` | going up, opening, adding, deleting |
  | `KeyDispatch` | the two input captures |

- The program's mutable state is the class `BrowserApp.App`. Its fields are updated in place by
  one method per Go handler. Each method is proved to leave `Snapshot()` equal to the matching
  function of the model.
- The Go loops are methods with loop invariants, each proved equal to a specification function:
  the partition, the item builders, the preview text, `formatBytes`, and the directory walk.

## Model

| member | source | states |
|---|---|---|
| Text.TrimLeft | pkg/fileop.go:90 | `strings.TrimLeftFunc(s, unicode.IsSpace)`: never longer than `s`, never starting with white space, and a string that does not start with white space is unchanged |
| Text.TrimRight | pkg/fileop.go:90 | the same at the right end |
| Text.TrimLeftDrops | pkg/fileop.go:90 | the left trim removes a prefix of `s`, and every character of that prefix is white space |
| Text.TrimRightDrops | pkg/fileop.go:90 | the right trim keeps a prefix of `s`, and every character it removes is white space |
| Text.TrimSpace | pkg/fileop.go:90 | the result has no white space (Go's `unicode.IsSpace`) at either end, and an already trimmed string is unchanged |
| Text.TrimSpaceDrops | pkg/fileop.go:90 | `strings.TrimSpace` returns a slice `s[i..j]` of its input, and every character outside that slice is white space: together with `TrimSpace` the result is the longest such slice |
| Text.TrimRightKeepsFirst | pkg/fileop.go:90 | trimming at the right never changes the first character that survives |
| Text.HasSuffix | pkg/main_app.go:385 | `strings.HasSuffix`: the string ends with the suffix (used by `TrimSuffix` and by the add form, whose properties are in `TrimSuffix` and `FileActions.CreateRequest`) |
| Text.TrimSuffix | pkg/fileop.go:87 | when `s` ends with the suffix, the result plus the suffix is `s`; otherwise `s` is unchanged |
| Text.ReplaceAll | pkg/fileop.go:88-89 | `strings.ReplaceAll` for a non-empty pattern: occurrences are replaced leftmost first, without overlap, and replaced text is not scanned again; its properties are `ReplaceAllSkips`, `ReplaceAllAbsent` and `ReplaceAllLeading` |
| Text.ReplaceAllSkips | pkg/fileop.go:88-89 | when no occurrence of the pattern starts inside `a`, replacing in `a + b` leaves `a` as it is |
| Text.NoOccurrenceInTail | pkg/fileop.go:88-89 | dropping the first character keeps the rest of `a` free of the pattern |
| Text.ReplaceAllAbsent | pkg/fileop.go:88-89 | a string that does not contain the pattern is unchanged |
| Text.ReplaceAllLeading | pkg/fileop.go:88-89 | a leading occurrence is replaced and the scan resumes right after it |
| Text.AbsentCharBlocks | pkg/fileop.go:88-89 | a character the pattern lacks cannot lie inside an occurrence of it |
| Text.NatToString | utils.go:22 | `%d` of a natural number is a non-empty string of digits with no leading zero |
| Text.IntToString | utils.go:22 | `%d` of an integer is non-empty and starts with `-` exactly when the integer is negative; the digits read back as the integer, or after the `-` as its magnitude |
| Text.MinusDigits | utils.go:22 | `-` followed by the printed magnitude reads back, after the sign, as the magnitude |
| Text.ParseNatToString | utils.go:53-55 | reading the printed digits back gives the number |
| Text.NatToStringInjective | pkg/ui.go:105 | distinct numbers print differently |
| Paths.Base | pkg/ui.go:71 | `filepath.Base`: `/` for the root, otherwise the last component; `Join` states how it reads back a joined name |
| Paths.Parent | pkg/main_app.go:104 | `filepath.Dir`: the root is its own parent; otherwise the last component is dropped and nothing else |
| Paths.StripSlashes | filehandler.go:147 | the name `filepath.Join` appends never ends in `/` |
| Paths.Join | filehandler.go:147 | an empty cleaned name gives the directory itself; otherwise the parent of the result is the directory and its base is the name without trailing slashes; the result extends the directory by at most one component |
| Paths.JoinDirectoryName | pkg/main_app.go:336 | joining a directory item's name with its trailing `/` enters exactly that sub-directory |
| Paths.PathString | filehandler.go:101 | the page title of a directory is an absolute path text |
| Markup.CleanItemName | pkg/fileop.go:86-91 | the cleaned name has no white space at either end |
| Markup.NoOccurrenceBefore | pkg/fileop.go:88-89 | a tag-free name followed by a character the tag lacks has no occurrence of the tag that starts within the name |
| Markup.StripOpeningTag | pkg/fileop.go:88 | removing `[darkcyan]` from a directory item leaves the name, `/` and the closing tag |
| Markup.StripClosingTag | pkg/fileop.go:89 | removing `[white]` then leaves the name and `/` |
| Markup.CleanDirItem | pkg/fileop.go:86-91 | a directory item `[darkcyan]n/[white]` cleans to `n/` for a tag-free name not starting with white space |
| Markup.CleanPlainName | pkg/fileop.go:86-91 | a tag-free trimmed file name without a trailing `/` is unchanged by cleaning |
| Markup.CleanCorruptsTaggedName | filehandler.go:118-123 | a file whose real name is `[white]notes` cleans to `notes`, so the handlers open a different path |
| Entries.NameLess | pkg/fileop.go:67 | Go's string `<`: lexicographic order on characters, a proper prefix first (for UTF-8 text the same order as Go's byte comparison); its order properties are the `NameLess*` lemmas |
| Entries.NameLessIrreflexive | pkg/fileop.go:67-68 | Go's string `<` is irreflexive |
| Entries.NameLessTransitive | pkg/fileop.go:67-68 | Go's string `<` is transitive |
| Entries.NameLessTotal | pkg/fileop.go:67-68 | any two distinct names are ordered one way |
| Entries.NameLessAsymmetric | pkg/fileop.go:67-68 | Go's string `<` is asymmetric |
| Entries.NameLeqTransitive | pkg/fileop.go:67-68 | the non-strict order is transitive |
| Entries.NameLeqAntisymmetric | pkg/fileop.go:67-68 | the non-strict order is antisymmetric |
| Entries.Insert | pkg/fileop.go:67-68 | one insertion step of the reference sort; `InsertMultiset` and `InsertSorted` state what it does |
| Entries.SortByName | pkg/fileop.go:67-68 | the reference sort that stands for `sort.Slice` by name; `SortByNameCorrect` and `SortedPermutationUnique` state that it is the one sorted permutation |
| Entries.InsertMultiset | pkg/fileop.go:67-68 | inserting adds exactly the one entry |
| Entries.InsertBound | pkg/fileop.go:67-68 | inserting an entry at or above a lower bound keeps the bound |
| Entries.InsertBoundStrict | pkg/fileop.go:67-68 | the same for a strict lower bound |
| Entries.ConsSorted | pkg/fileop.go:67-68 | a least entry in front of a sorted list keeps it sorted |
| Entries.ConsStrict | pkg/fileop.go:67-68 | the same for strictly sorted lists |
| Entries.InsertSorted | pkg/fileop.go:67-68 | inserting into a sorted list keeps it sorted |
| Entries.SortByNameCorrect | pkg/fileop.go:67-68 | the sorted list is a permutation of the input, in ascending name order |
| Entries.InsertStrict | pkg/fileop.go:67-68 | inserting a new name into a strictly sorted list keeps it strict |
| Entries.SortByNameStrict | pkg/fileop.go:67-68 | with distinct names the sorted list is strictly ascending |
| Entries.SortedHeadLeast | pkg/fileop.go:67-68 | the head of a sorted list is at or below every entry of it |
| Entries.HeadsEqual | pkg/fileop.go:67-68 | two sorted permutations of a list whose names determine its entries start alike |
| Entries.TailMultiset | pkg/fileop.go:67-68 | the tail holds the entries minus the head |
| Entries.TailKeeps | pkg/fileop.go:67-68 | the tail of such a list is again sorted and determined by names |
| Entries.SortedPermutationUnique | pkg/fileop.go:67-68 | any two sorted arrangements of the same entries are equal when names determine entries, so `sort.Slice` has one possible result |
| Entries.DirsOf | pkg/fileop.go:59-60 | every listed directory was read, is a directory, and its `Info()` succeeded |
| Entries.FilesOf | pkg/fileop.go:61-62 | every listed file was read, is not a directory, and its `Info()` succeeded |
| Entries.Kept | pkg/fileop.go:54-57 | exactly the read entries whose `Info()` succeeded |
| Entries.PartitionIsKept | pkg/fileop.go:53-64 | directories and files together are a permutation of the kept entries |
| Entries.DirsOfDistinct | pkg/fileop.go:53-64 | distinct names in the directory stay distinct in both lists |
| Entries.ListingOf | pkg/fileop.go:44-71 | the listing `GetEntries` returns for the entries read: the sorted directories, then the sorted files, of the kept entries; `GetEntries` and `SortSliceResult` tie it to the code |
| Entries.Partition | pkg/fileop.go:53-64 | the loop keeps exactly the directories and exactly the files, in read order; the root revision's loop at filehandler.go:68-80 is the same |
| Entries.GetEntries | pkg/fileop.go:44-71 | a read failure gives the error naming the path; otherwise directories and files of the listing, each from the read entries with `Info()` succeeding, together a permutation of the kept entries, each sorted, and strictly so when names are distinct (pkg/utils.go:122-149 is an identical copy) |
| Entries.SameKindDetermine | pkg/fileop.go:67-68 | within one kind of kept entry the name determines the entry |
| Entries.SortedArrangementUnique | filehandler.go:83-88 | any ascending arrangement of the directories (or the files) is the model's sorted list |
| Entries.SortSliceResult | pkg/fileop.go:66-70 | whatever sorted permutations `sort.Slice` produces, the listing is the model's `ListingOf` |
| DirWalk.Visits | pkg/fileop.go:25-39 | the calls `filepath.WalkDir` makes of the callback, in walk order: the root first, then each child's sub-tree; `CleanVisits` and `UnreadableRoot` state what they add up to |
| DirWalk.FirstStop | pkg/fileop.go:25-39 | the walk stops at the first visit that fails and at no earlier one |
| DirWalk.FirstStopIs | pkg/fileop.go:25-39 | the first failing visit is unique |
| DirWalk.DirSizeAndCount | pkg/fileop.go:22-41 | the loop's sizes and count are the totals of the visits before the first failure, and it fails exactly when some visit does (pkg/utils.go:100-119 is an identical copy) |
| DirWalk.TallyConcat | pkg/fileop.go:36-37 | totals add over concatenated visits |
| DirWalk.CleanVisits | pkg/fileop.go:25-39 | a tree without failures is walked to the end, and its visits add up to the tree's size and count |
| DirWalk.CleanChildVisits | pkg/fileop.go:25-39 | the same for a list of sub-trees |
| DirWalk.CleanWalk | pkg/fileop.go:29-31 | walking a tree without failures counts every entry except the root itself |
| DirWalk.UnreadableRoot | pkg/fileop.go:26-28 | an unreadable root stops the walk with nothing counted |
| DirWalk.FailingFirstChild | pkg/fileop.go:32-35 | a first child whose `Info()` fails stops the walk with nothing counted |
| Sizes.Pow1024 | utils.go:10-16 | every power of 1024 is positive |
| Sizes.Pow1024Monotone | utils.go:67-71 | powers of 1024 grow with the exponent |
| Sizes.UnitExponentBounds | utils.go:67-71 | the unit exponent of a size of at least 1 KiB puts it between two successive powers of 1024 |
| Sizes.UnitExponentUnique | utils.go:67-71 | only one exponent does so |
| Sizes.UnitExponentMonotone | utils.go:67-71 | a larger size never has a smaller unit |
| Sizes.ConvertFileSize | utils.go:9-32 | 0 is `0 bytes`; below 1024 the exact count in bytes (negatives included); otherwise the size over the largest power of 1024 not above it, with two decimals, in KB, MB or GB, and TB for everything from 1 TiB up |
| Sizes.ZeroIsSmallCase | utils.go:19-22 | the special case for 0 prints what the general small case would |
| Sizes.NegativeSizes | utils.go:21-22 | a negative size is printed exactly: `-`, then digits that read back as the magnitude of the size, then ` bytes` |
| Sizes.SmallSizesExact | utils.go:19-22 | a size from 0 to 1023 is printed exactly, as digits that read back as the size followed by ` bytes` |
| Sizes.ConvertFileSizeExponent | utils.go:23-30 | the unit chosen is the unit exponent, capped at TB |
| Sizes.ConvertFileSizeMonotone | utils.go:18-31 | a larger size never gets a smaller unit |
| Sizes.DivBounds | utils.go:68 | (proof helper) Euclidean division places a number between consecutive multiples of the divisor |
| Sizes.MulLeq | utils.go:69 | (proof helper) multiplication by a natural number keeps order |
| Sizes.DivUnique | utils.go:68 | (proof helper) the quotient is determined by a quotient-remainder decomposition |
| Sizes.Regroup | utils.go:68-69 | (proof helper) regrouping of a nested quotient-remainder decomposition |
| Sizes.RemainderBound | utils.go:68-69 | (proof helper) a nested remainder stays below the combined divisor |
| Sizes.DivDiv | utils.go:68 | dividing twice is dividing by the product |
| Sizes.NextDivisor | utils.go:68-70 | one more loop turn keeps the divisor at or below the size and `n` equal to the size over the divisor |
| Sizes.FormatBytes | utils.go:61-75 | below 1024 the exact count in B; otherwise the size over the largest power of 1024 not above it, with one decimal, and `units[exp]` is always inside the six-unit table |
| Sizes.PowerBelowTwoTo64 | utils.go:67-71 | a divisor that fits in uint64 has an exponent of at most 5 |
| Sizes.LoopExit | utils.go:68-73 | when the loop ends, the exponent is the unit exponent and indexes the unit table |
| Sizes.ByteUnitsSuffice | utils.go:73-74 | every uint64 of at least 1 KiB has a unit in the table |
| Sizes.SameUnitBelowTerabytes | pkg/utils.go:14-37 | below 1 TiB `convertFileSize` and `formatBytes` choose the same unit |
| Sizes.Wrap | utils.go:43 | the uint64 conversion agrees with the value modulo 2^64 and keeps values that fit |
| Sizes.Mul64 | utils.go:44-45 | uint64 multiplication wraps modulo 2^64 and is exact when the product fits |
| Sizes.Sub64 | utils.go:46 | uint64 subtraction wraps modulo 2^64 and is exact when it does not go below zero |
| Sizes.GetDiskInfo | utils.go:37-40 | it succeeds exactly when `Statfs` does, and a failure carries `Statfs`'s error |
| Sizes.BytesOf | utils.go:43-55 | free and total are the block counts times the block size modulo 2^64, used is total minus free modulo 2^64, and each `_bytes` text reads back as its number |
| Sizes.Described | utils.go:53-55 | the `%d` texts read back as the numbers they describe |
| Sizes.DiskBytesExact | utils.go:43-46 | when nothing overflows, the three counts are the exact products and their difference |
| Sizes.Distribute | utils.go:46 | (proof helper) multiplication distributes over the subtraction |
| Sizes.DiskUsedWraps | utils.go:46 | when free exceeds total, used wraps round to 2^64 minus the difference |
| Panes.ItemsTitleInjective | pkg/ui.go:105 | the middle title determines the item count it shows |
| Panes.MiddleItems | pkg/ui.go:95-103 | one item per entry: the directories tagged as `[darkcyan]name/[white]` first, then the plain file names, in order |
| Panes.BuildMiddleItems | pkg/ui.go:95-103 | the two loops add exactly those items |
| Panes.BuildDirItems | filehandler.go:42-48 | the loop adds the parent's directories, tagged, in read order |
| Panes.BuildSiblingItems | pkg/ui.go:69-76 | the loop adds the sibling directories, the current one in yellow |
| Panes.SiblingHighlight | pkg/ui.go:69-76 | a sibling is yellow exactly when it is the current directory, and dark cyan exactly when it is not |
| Panes.AtMostOneHighlight | pkg/ui.go:71-72 | when names are distinct at most one sibling is highlighted |
| Panes.LinesConcat | pkg/file_preview.go:34-41 | the preview text of two item lists joined is the two texts joined |
| Panes.PreviewListsMiddleItems | pkg/file_preview.go:34-41 | a directory preview shows, one per line, the items the middle pane would list for it |
| Panes.BuildPreviewText | pkg/file_preview.go:34-41 | the loops build exactly that text |
| Panes.RawItems | ui.go:111-123 | one line per entry read |
| Panes.BuildRawPreviewText | ui.go:111-123 | the root revision's loop builds the lines in read order |
| Panes.RawPreviewKeepsReadOrder | ui.go:111-123 | a file read before a directory comes first in the root preview, but after it in the pkg preview |
| Panes.ItemResolves | pkg/main_app.go:335-336 | joining the cleaned i-th item onto the directory gives the path of the i-th entry; a directory item cleans to its name and `/` |
| Panes.ItemCountIsKept | pkg/ui.go:105 | the pkg title counts exactly the kept entries |
| Panes.KeptShorter | filehandler.go:68-73 | fewer entries are kept than read exactly when some entry's `Info()` failed |
| Panes.PositionText | ui.go:83-86 | the position text of the bottom bar, `(index/count)`; the pkg revisions show `index + 1` (pkg/ui.go:154); its read-back is `PositionTextReadsBack` |
| Panes.PositionTextReadsBack | ui.go:83-86 | the text is `(`, a number, `/`, a number, `)` with no other `/`; the text between `(` and `/` reads back as the index shown (the index, or index + 1 in the pkg revisions, pkg/ui.go:154), with its sign, and the text after `/` reads back as the count |
| Panes.FirstItemPosition | ui.go:83-86 | on the first item the root revision shows `(0/n)` and the pkg revisions, which add one (pkg/main_app.go:196), show `(1/n)` |
| BrowserState.Initial | pkg/ui.go:16-28 | the state after `setupUI`: the start directory, no memory, empty panes, titles `Current` and `Preview`, and in the root revision the text `Select a file to preview.` (ui.go:35); `App.constructor` starts from it |
| BrowserState.SetCurrent | pkg/ui.go:108-110 | `SetCurrentItem` keeps the cursor on an item, takes an index inside the list as given, and changes nothing else |
| PaneUpdate.LeftHead | pkg/ui.go:57-63 | the first item of the left pane: `..` below the root and `.` at it in the pkg revisions, the parent's base below the root and nothing at it in the root revision (filehandler.go:23-27); stated by `ParentFixedOnlyAtRoot` |
| PaneUpdate.ShownEmpty | pkg/ui.go:90-93 | when the middle pane shows its empty title: no items in the pkg revisions, no entries read in the root revision (filehandler.go:60-63); `RootTitleOvercounts` shows where the two differ |
| PaneUpdate.LeftPane | filehandler.go:20-49 | only the left pane changes |
| PaneUpdate.MiddlePane | pkg/ui.go:80-111 | the cursor stays inside the list, and only the middle pane, its titles and the cursor change |
| PaneUpdate.UpdatePanes | pkg/ui.go:113-125 | the preview is cleared; directory, cursor memory, preview title, dialog and requests are unchanged (in this model, where the `changed` callback is not modelled) |
| PaneUpdate.RefillIgnoresPreview | pkg/ui.go:113-119 | in this model, where the `changed` callback is not modelled, clearing the preview before the panes are refilled gives the same state as clearing it after |
| PaneUpdate.MiddlePaneIgnoresPreview | pkg/ui.go:80-111 | refilling the middle pane neither reads nor changes the preview |
| PaneUpdate.ParentFixedOnlyAtRoot | pkg/ui.go:57-63 | a directory is its own parent exactly at the root, where `.` is shown instead of `..` |
| PaneUpdate.PkgLeftPane | pkg/ui.go:55-78 | `.` at the root and `..` below it, then the parent's sorted directories with the current one highlighted, or nothing more on a read error |
| PaneUpdate.RootLeftPane | filehandler.go:20-49 | the parent's name below the root only, then the parent's directories in read order, or nothing more on a read error |
| PaneUpdate.MiddlePaneReadError | filehandler.go:54-58 | a read error leaves the middle pane empty and both titles as they were |
| PaneUpdate.PkgMiddlePane | pkg/ui.go:80-111 | an empty listing gives no items and the red title; otherwise the sorted items, a title counting them, the path as page title and the first item selected |
| PaneUpdate.RootMiddlePane | filehandler.go:51-107 | only a directory with no entries is shown empty; otherwise the same items, but the title counts every entry read, which exceeds the items exactly when some `Info()` failed |
| PaneUpdate.RootTitleOvercounts | filehandler.go:100 | a directory whose one entry fails `Info()` lists nothing under the title `Current (1 items)` |
| PaneUpdate.SplitRestoresCursor | pkg/ui.go:123 | after a refresh the split revision selects the remembered index when it is inside the list, and item 0 for a directory not visited before |
| PaneUpdate.OtherRevisionsResetCursor | pkg/main_app.go:154-156 | the other revisions always select the first item |
| PaneUpdate.RefreshShowsListing | pkg/main_app.go:127-157 | every revision's refresh shows exactly the current directory's sorted listing, or nothing when it cannot be read |
| PaneUpdate.RevisionsShowSameItems | filehandler.go:51-107 | the three revisions show the same middle items |
| PreviewPane.RootDirectoryShown | ui.go:104-124 | the root revision's directory preview: a read error under `Preview Error`, `[red]Empty Directory[/]` for no entries, otherwise the raw lines under `Contents: ` and the cleaned name; stated by `RootPreviewIsRaw` |
| PreviewPane.PkgDirectoryShown | pkg/file_preview.go:25-43 | the pkg directory preview: a read error naming the path with the title left as it was, `[red]Empty Directory[/]` for an empty listing, otherwise the sorted items one per line; stated by `PreviewPredictsMiddlePane` and `DirectoryReadError` |
| PreviewPane.FileShown | pkg/file_preview.go:44-52 | a file preview: its content under `Preview: ` and the cleaned name, or the read error (under `Preview Error` in the root revision, the old title in the pkg ones); stated by `FilePreviewIsContent` |
| PreviewPane.ItemShown | pkg/file_preview.go:25-52 | a file shows its content, a directory the preview of its revision; stated by `BuildItemShown` |
| PreviewPane.BuildRootDirectoryShown | ui.go:104-124 | the root revision's directory preview loop gives the specified text and title |
| PreviewPane.BuildPkgDirectoryShown | pkg/file_preview.go:27-43 | the pkg directory preview loop gives the specified text and title |
| PreviewPane.BuildItemShown | pkg/file_preview.go:18-52 | the preview of one item follows its stat, directory and file branches |
| PreviewPane.Show | pkg/file_preview.go:43-51 | showing changes only the preview text and title |
| PreviewPane.Preview | pkg/file_preview.go:11-53 | the preview handler changes only the preview text and title |
| PreviewPane.PreviewNoOp | pkg/file_preview.go:12-23 | with no item, or an item whose stat fails, nothing changes |
| PreviewPane.PreviewIdempotent | pkg/file_preview.go:11-53 | previewing the same item twice is previewing it once |
| PreviewPane.ShowTwice | pkg/file_preview.go:43-51 | showing the same text twice is showing it once |
| PreviewPane.FilePreviewIsContent | pkg/file_preview.go:50-51 | a readable file shows its content under `Preview: ` and its cleaned name |
| PreviewPane.DirectoryReadError | pkg/file_preview.go:27-30 | an unreadable directory shows the error; the pkg revisions keep the old title, the root one titles it `Preview Error` |
| PreviewPane.DirectoryTitleKeepsSlash | pkg/file_preview.go:43 | a directory's preview title keeps the trailing `/` of its cleaned item |
| PreviewPane.PreviewPredictsMiddlePane | pkg/file_preview.go:34-41 | in the pkg revisions a directory's preview lists what the middle pane shows after entering it |
| PreviewPane.RootPreviewIsRaw | ui.go:111-123 | the root revision previews a directory's entries in read order, without sorting or tags |
| FileActions.ItemPath | filehandler.go:146-147 | the path of an item: its cleaned name joined onto the current directory; `Panes.ItemResolves` states that it is the path of the entry listed |
| FileActions.GoUp | pkg/main_app.go:97-100 | going up moves to the parent and keeps the dialog, the requests and the cursor memory |
| FileActions.Navigate | pkg/main_app.go:334-373 | opening an item keeps the cursor on an item and changes neither the cursor memory nor the requests |
| FileActions.OpenAddForm | pkg/main_app.go:408-411 | `a` shows the add form and changes nothing else |
| FileActions.CreateRequest | pkg/main_app.go:382-399 | a name ending in `/` asks for `MkdirAll`, any other for `Create`, of the name joined to the directory |
| FileActions.SubmitNewFile | pkg/main_app.go:375-412 | submitting closes the form and keeps the directory and cursor memory |
| FileActions.Dismiss | pkg/main_app.go:403-406 | cancelling closes the dialog and changes nothing else |
| FileActions.DeleteFile | pkg/main_app.go:414-446 | `d` changes nothing but the dialog |
| FileActions.ConfirmDelete | pkg/main_app.go:431-442 | answering closes the dialog and keeps the directory and cursor memory |
| FileActions.GoUpAtRoot | filehandler.go:262-265 | going up at the root stays at the root |
| FileActions.NavigateMovesOnlyIntoDirectories | filehandler.go:145-184 | the directory changes exactly when the item is a directory; a failed stat changes nothing; a file opens only the viewer |
| FileActions.ViewerShowsContent | filehandler.go:172-180 | a readable file is shown in the viewer under `Viewing: ` and its cleaned name |
| FileActions.EnterThenUpReturns | pkg/main_app.go:334-373 | entering the i-th directory item and going up returns to the starting directory |
| FileActions.SubmitClassifiesName | filehandler.go:187-224 | an empty name only closes the form; any other asks for exactly one creation, `MkdirAll` when it ends in `/`, and refreshes the panes on success only |
| FileActions.NewDirectoryPath | filehandler.go:194-211 | `n/` asks for `MkdirAll` of the sub-directory `n` |
| FileActions.DeleteAsksFirst | filehandler.go:227-259 | a failed stat changes nothing; otherwise the confirmation asks about the cleaned name, for the path it will remove, says whether it is a directory, and nothing is removed yet |
| FileActions.DeleteText | filehandler.go:236-239 | the confirmation text, naming the directory and its contents or the file; `DeleteTextDistinguishes` states that it tells the two apart |
| FileActions.DeleteTextDistinguishes | filehandler.go:236-239 | the confirmation text tells a directory from a file |
| FileActions.ConfirmRemovesOnlyOnYes | filehandler.go:245-252 | only `Yes` asks for `RemoveAll` of the target, once, and a success refreshes the panes |
| KeyDispatch.StopsApp | pkg/event_handler.go:17-23 | the quit test: the root revision stops on a `q` rune and on Ctrl-C (ui.go:130-141); the pkg revisions on Ctrl-C and on any event whose character is `q`; compared in `QuitConditionsAgree` |
| KeyDispatch.MoveTarget | pkg/event_handler.go:63-72 | `j` targets the index one down and `k` the index one up, with no bounds check; `MoveRemembersUncheckedIndex` shows the unchecked index |
| KeyDispatch.EmptyAction | pkg/event_handler.go:27-34 | in an empty directory Left or `h` goes up, and the root revision also opens the add form on `a` (ui.go:144-154); every other key passes; stated by `EmptyDirectoryKeys` |
| KeyDispatch.RuneAction | pkg/event_handler.go:63-89 | the rune switch: `j`/`k` move, `h` goes up, `l` opens, `a` adds, `d` asks to delete, any other character passes |
| KeyDispatch.KeyAction | pkg/event_handler.go:38-89 | the key switch: Enter opens, Left goes up, Right enters a directory and passes when the stat fails; a Right on a file and any other key go to the rune switch, except that in the root revision only rune events reach it and every other event passes; stated by `EnterIsL`, `LeftIsH` and the `RightOn*` lemmas |
| KeyDispatch.AppCapture | pkg/event_handler.go:17-23 | the application stops exactly on the quit keys, and nothing else changes |
| KeyDispatch.SetAtMostCompose | pkg/event_handler.go:35 | two updates of the cursor memory at the same directory change only that directory |
| KeyDispatch.Decide | pkg/event_handler.go:25-92 | what the capture decides can always be carried out from the current state |
| KeyDispatch.Perform | pkg/event_handler.go:38-91 | the cursor stays on an item; the event passes on exactly for unbound keys and, in the pkg revisions, for `j`/`k`; only the split revision updates the memory, at the current directory; a move keeps the directory and list and lands on its target inside the list |
| KeyDispatch.Moved | pkg/event_handler.go:63-73 | `j`/`k` keep the directory and list, land on the target inside the list, and in the split revision store the target unchecked |
| KeyDispatch.Remember | pkg/event_handler.go:35 | the split revision stores the cursor for the current directory; the others change nothing |
| KeyDispatch.MiddleCapture | pkg/event_handler.go:25-92 | the cursor stays on an item, and the cursor memory changes at most at the current directory (never outside the split revision) |
| KeyDispatch.QuitConditionsAgree | ui.go:130-141 | the revisions disagree exactly on a non-rune, non-Ctrl-C event whose character is `q`: the pkg revisions stop the application on it and the root revision does not; the Monolithic and Split revisions always agree |
| KeyDispatch.CtrlCQuits | pkg/main_app.go:206-212 | Ctrl-C stops every revision |
| KeyDispatch.EmptyDirectoryKeys | pkg/event_handler.go:27-34 | in an empty directory only going up is handled (and `a` in the root revision); everything else passes through unchanged |
| KeyDispatch.EnterIsL | pkg/event_handler.go:39-81 | Enter and `l` do the same |
| KeyDispatch.LeftIsH | pkg/event_handler.go:43-77 | Left and `h` do the same |
| KeyDispatch.OpenDirectoryIsEnter | pkg/event_handler.go:39-42 | opening a directory item is entering it |
| KeyDispatch.RightOnDirectoryIsEnter | pkg/event_handler.go:46-61 | Right on a directory enters it, as Enter does |
| KeyDispatch.RightOnFilePasses | ui.go:165-179 | in the root revision, and in the pkg revisions for any character without a binding (not one of `jkhlad`), Right on a file passes the event on and changes nothing but the cursor memory |
| KeyDispatch.RightOnFileFallsThrough | pkg/event_handler.go:46-89 | in the pkg revisions Right on a file leaves the key switch and is then decided by the rune switch, exactly as a rune event with the same character |
| KeyDispatch.RightOnFailedStatPasses | pkg/event_handler.go:46-61 | Right on an item whose stat fails passes the event on and changes nothing but the cursor memory, in every revision |
| KeyDispatch.MovesPassOnlyInPkg | pkg/main_app.go:252-258 | `j`/`k` pass the event on in the pkg revisions and swallow it in the root one |
| KeyDispatch.MoveRemembersUncheckedIndex | pkg/event_handler.go:63-67 | `j` on the last item stores an index one past the end |
| KeyDispatch.UnboundEventsPass | pkg/event_handler.go:91 | any other event passes through, having only stored the cursor |
| KeyDispatch.MoveIsRememberedAcrossVisits | pkg/ui.go:123 | after `j` in the split revision a refresh of the same directory selects the item moved to |
| KeyDispatch.DownAction | pkg/event_handler.go:63-69 | `j` on a non-empty list is a move one item down |
| KeyDispatch.CaptureDoes | pkg/event_handler.go:25-92 | the capture is storing the cursor and carrying out the decided action |
| BrowserApp.MiddleListing | pkg/ui.go:95-105 | the loops give the sorted items; the root revision's count is the entries read, the pkg one the items |
| BrowserApp.App.constructor | main.go:30-48 | startup shows the working directory as a refresh of the initial state does |
| BrowserApp.App.SetCurrentItem | pkg/ui.go:108-110 | the object's state becomes `SetCurrent` of the old one |
| BrowserApp.App.UpdateLeftPane | pkg/ui.go:55-78 | the object's state becomes `LeftPane` of the old one |
| BrowserApp.App.UpdateMiddlePane | pkg/ui.go:80-111 | the object's state becomes `MiddlePane` of the old one |
| BrowserApp.App.FillMiddle | pkg/ui.go:95-110 | the items and titles are stored and the first item is selected when there is one |
| BrowserApp.App.UpdatePanes | pkg/ui.go:113-125 | the object's state becomes `UpdatePanes` of the old one, in the order each revision clears and refills |
| BrowserApp.App.Preview | pkg/file_preview.go:11-53 | the object's state becomes `Preview` of the old one |
| BrowserApp.App.GoUpDirectory | pkg/main_app.go:97-100 | the object's state becomes `GoUp` of the old one |
| BrowserApp.App.NavigateOrShowFile | pkg/main_app.go:334-373 | the object's state becomes `Navigate` of the old one |
| BrowserApp.App.AddNewFile | pkg/main_app.go:408-411 | the add form is shown |
| BrowserApp.App.SubmitNewFile | pkg/main_app.go:381-402 | the object's state becomes `SubmitNewFile` of the old one |
| BrowserApp.App.Dismiss | pkg/main_app.go:403-406 | the dialog is closed |
| BrowserApp.App.DeleteFile | pkg/main_app.go:414-446 | the object's state becomes `DeleteFile` of the old one |
| BrowserApp.App.ConfirmDelete | pkg/main_app.go:431-442 | the object's state becomes `ConfirmDelete` of the old one |
| BrowserApp.App.AppCapture | pkg/event_handler.go:17-23 | the object's state becomes `AppCapture` of the old one |
| BrowserApp.App.MoveCursor | pkg/event_handler.go:63-73 | the object's state becomes `Moved` of the old one |
| BrowserApp.App.Perform | pkg/event_handler.go:38-91 | the state and the pass-through flag are `Perform` of the old state |
| BrowserApp.App.MiddleCapture | pkg/event_handler.go:25-92 | the state and the pass-through flag are `MiddleCapture` of the old state |

## Left out

- File system access, `unix.Statfs` and `os.Getwd` are not performed. Their results are parameters: the `FileSystem` snapshot, a `Statfs` result, the start directory. `os.MkdirAll`, `os.Create` and `os.RemoveAll` are recorded as requests with a success flag. `log.Fatal` and the log calls are not modelled.
- Widget layout, colours other than the item tags, focus, page switching and `setupUI` are not modelled. Only the state the handlers read and write is kept.
- The `changed` callback that tview fires on its own when `AddItem` or `SetCurrentItem` moves the current item is not modelled. The preview is a separate operation (`App.Preview`), so the preview shown after a refresh, for example after `SetCurrentItem(selectedPaths[dir])` in pkg/ui.go, is not part of `UpdatePanes`. In the program every revision wires `changed` to the preview (ui.go:94, pkg/main_app.go:202-204, pkg/event_handler.go:13-15), so the order of clearing matters there: the root and monolithic revisions clear the preview text last (filehandler.go:113, pkg/main_app.go:166), wiping the text the callback wrote but keeping its title, while the split revision clears first (pkg/ui.go:114) and ends the refresh showing the preview of the first or remembered item. `PaneUpdate.RefillIgnoresPreview` holds only in this model.
- What tview does with an index outside the list is not visible in the source. `Settle` only promises an item inside a non-empty list.
- `updateBottomBarInfo`: only the position text is modelled. The owner, mode and modification time come from `syscall.Stat_t` and the clock.
- Sizes.ConvertFileSize: the `%.2f` float formatting is not modelled. The result records value, divisor, unit and decimals instead of the printed text.
- Sizes.FormatBytes: the `%.1f` float formatting is not modelled, and the result records value, divisor and unit instead of the printed text.
- Sizes.BytesOf: the `usage_percentage` entry is floating point and is not modelled. The `free`/`total`/`used` texts are `FormatBytes` of the three counts and are not stored in `DiskBytes`.
- `sort.Slice` is modelled by its result: a sorted permutation, which is unique here because names determine entries within one kind. Its algorithm is not modelled.
- `filepath.Join` and `filepath.Clean` are modelled for names without interior `/`, `.` or `..` components. `Join` strips trailing slashes only.
- DirWalk.DirSizeAndCount: the int64 overflow of `totalSize` is not modelled, and the error returned is reduced to a failed flag.
- `CreateEntry` (pkg/fileop.go:74-83, pkg/utils.go:152-161) is not called by the browser. It is not part of this model.
- The split revision's `App` struct declaration with `selectedPaths` is not part of this model's sources. Its fields are taken from how pkg/ui.go and pkg/event_handler.go use them.
- The five copies of `getCleanedItemName`/`GetCleanedItemName` (filehandler.go:118, pkg/main_app.go:326, pkg/utils.go:83, pkg/utils.go:164, pkg/fileop.go:86) are modelled once, as `Markup.CleanItemName`. The two copies of `GetEntries` and of `getDirSizeAndCount` are also modelled once each.
- KeyDispatch.MiddleCapture: the model ends at the capture's pass-on flag. What tview's `List` then does with an event passed on (Up and Down moving its cursor and firing `changed`, `j`/`k` passed on by the pkg revisions) is not modelled.
- The moving keys follow the code: `j`/`k` set the index without a bounds check, and the split revision stores that unchecked index. The cursor is not clamped.
