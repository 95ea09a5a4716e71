# Advent of Code 2022 solutions modelled in Dafny

This project models the puzzle solutions of the repository (days 1 to 5
and 7 to 9) one module per source file.

- **day7.py**, the main part, has four modules:
  - `VfsSpec` is the value-level description of the virtual filesystem. It holds an arena `map<NodeId, Node>` of files and directories, each with a parent id and an ordered child list. It also defines the true recursive size (`TrueSize`), the ancestors of a node, and the cache invariant.
  - `VfsTree` has the class `FileSystem`. Its methods are the mutating operations of `VFsObject`, `VFile` and `VDirectory`. The fields the source updates in place are the arena `nodes` and the size cache `cache`; a directory is a key of `cache` exactly while its `_size` is set.
  - `VfsShell` has the class `CommandLine`, the interpreter of the `$ cd` / `$ ls` transcript.
  - `VfsSearch` has `recurse_filesystem` and `find_smallest`.

  Every `FileSystem` method keeps `Valid()`. Its heart is that a set cache entry equals the true recursive size. It also requires that a set directory's subdirectories are set too, which is why invalidating a directory also unsets all of its ancestors.
- **day9.py** (`Rope`): the chain of linked `Position` objects is the `seq<Knot>` field of class `Rope`. Knot `k + 1` follows knot `k`.
- **day8.py** (`Forest`): the grid of tree dictionaries is an `array2<Tree>` updated in place. A ghost snapshot `h` of the heights supplies the specification.
- **day5.py** (`Crates`): the two stack dictionaries and their key order are the fields of class `Dock`. Each move method is proved against a specification function on maps.
- **day4.py** (`Cleanup`), **day3.py** (`Rucksack`), **day2.py** (`Rps`) and **day1.py** (`Calories`) are the small scripts over given lines or text.
- `PyStr` holds the Python string built-ins the scripts use (`strip`, `split`, `split(sep, maxsplit)`, `split()`, `int()`, `count`), each with its own lemmas.
- `Common` holds `Option`, `Result`, the comprehension `MapAll` and `Sum`.

Exceptions the source raises become `Err` values of a `Result`, or of an `Option` of an error. Python's dictionaries keyed by strings are `map<string, _>`.

Behaviour of day7.py worth noting:

- **The `ls` output processor.** It is a method of `CommandLine` that reads `_cur_dir` when it runs. It is not bound to the directory current at `ls` time, so a `cd` issued between the `ls` and its output would redirect the output. It is modelled as the flag `listing`.
- **Listing lines.** They are split at single spaces (`split(" ")`), not at any whitespace. The name is the stripped second field, so in `dir a b` the name is `a`.
- **`recalculate_size`.** It does not stop at the first unset ancestor. Its loop visits every ancestor, and each unset one returns at once. By the cache invariant every ancestor of an unset directory is already unset, so the resulting cache is the same.
- **A second `$ ls` in a row.** It does not fail: `process_command_line` clears `in_cmd` before `run_command`. "Command while output is expected" can only happen when `run_command` is called directly. `VfsShell.CommandLine.ProcessCommandLine` states this.
- **`cd ..` at the top.** It sets the current directory to None. The next `cd` then creates a fresh top directory.

## Model

| member | source | states |
|---|---|---|
| Common.MapAll | day1.py:6 | a comprehension over a function that may raise succeeds iff every element does, with the results in order; otherwise it fails with the error of the first element that raises |
| Common.MapTwo | day4.py:7 | a two-element comprehension of non-raising elements gives the two results |
| PyStr.RStripSpec | day4.py:5 | `rstrip` keeps a prefix, drops only whitespace and leaves no trailing whitespace |
| PyStr.LStripSpec | day3.py:13 | `lstrip` keeps a suffix, drops only whitespace and leaves no leading whitespace |
| PyStr.StripSpec | day7.py:183 | `strip` leaves neither leading nor trailing whitespace |
| PyStr.StripTrailing | day7.py:183 | stripping a space-free word padded with whitespace gives the word |
| PyStr.RStripNewline | day4.py:5 | right-stripping a line that ends in a non-space and a newline drops only the newline |
| PyStr.Find | day7.py:182 | the leftmost occurrence of a separator: it occurs there, at no earlier index, and None only when it does not occur |
| PyStr.Split | day7.py:182 | `split(sep)` gives at least one piece, and the pieces joined with the separator are the input |
| PyStr.SplitPiecesLackSep | day1.py:5 | no piece of `split(sep)` contains the separator |
| PyStr.SplitPiecesFree | day4.py:7 | no piece of `split(c)` contains the separator character |
| PyStr.SplitJoin | day4.py:7 | splitting on a character inverts joining with it pieces that do not contain it |
| PyStr.SplitTwo | day4.py:7 | `p + c + q` with `c` in neither part splits into exactly `[p, q]` |
| PyStr.SplitSingle | day3.py:13 | `split(c)` gives a single piece iff `c` does not occur |
| PyStr.SplitMax | day7.py:226 | `split(sep, maxsplit)` gives between 1 and maxsplit + 1 pieces that join back to the input |
| PyStr.SplitMaxHead | day7.py:226 | without the separator the string stays whole; with a split allowed, the first piece is free of the separator |
| PyStr.SplitMaxAtChar | day7.py:226 | with a split allowed and the separator present, the first piece is the separator-free text before its first occurrence, and the rest is split with one split fewer |
| PyStr.SplitMaxWhole | day7.py:226 | with no split allowed or no separator, the string stays whole |
| PyStr.SplitMaxJoin | day7.py:226 | `split(c, maxsplit)` inverts joining at most maxsplit + 1 separator-free pieces |
| PyStr.Word | day1.py:6 | the leading non-whitespace run: a space-free prefix ending at whitespace or the end, non-empty when the string starts with a non-space |
| PyStr.SplitWsWords | day1.py:6 | every piece of `split()` is a non-empty run without whitespace |
| PyStr.SplitWsLosesOnlySpace | day1.py:6 | the pieces of `split()` concatenated are the input with its whitespace removed |
| PyStr.NatToString | day4.py:7 | `str(n)` is a non-empty string of digits |
| PyStr.NatToStringRoundTrip | day4.py:7 | the digits of `str(n)` have value `n` |
| PyStr.ParseInt | day1.py:6 | a value `int()` returns is the value of a non-empty digit string or its negation |
| PyStr.ParseIntOfNatToString | day4.py:7 | `int(str(n)) == n` |
| PyStr.ParseIntOfDigits | day1.py:6 | an unsigned digit string parses to its digit value |
| PyStr.IntOr | day1.py:6 | `int()` raising the caller's error exactly where Python raises ValueError, and otherwise giving the parsed value |
| PyStr.CountChar | day7.py:203 | `s.count(c)` is at most the length, and 0 exactly when `c` does not occur |
| VfsSpec.InvalidationRestoresCache | day7.py:139-148 | after a change to directory `d`, removing `d` and its ancestors from a sound, closed cache (nothing when `d` was already unset and not forced) gives a sound, closed cache of the changed tree |
| VfsSpec.ReachSizeBound | day7.py:266-284 | no node below a directory is larger than the directory, which makes the pruning of `find_smallest` sound |
| VfsSpec.AncestorsChain | day7.py:143-148 | any two ancestors of a node lie on one chain: one is an ancestor of the other |
| VfsSpec.IndexOf | day7.py:124 | the index `list.remove` takes out: an occurrence of `x` with no earlier one |
| VfsSpec.RemoveFirst | day7.py:124 | `list.remove(x)` takes out exactly one occurrence of `x` and nothing else |
| VfsTree.FileSystem.RecalculateSize | day7.py:139-148 | the cache loses exactly the invalidated entries: `d` and every ancestor when `d` was set or `force` holds, nothing otherwise |
| VfsTree.FileSystem.Size | day7.py:99-108 | the result is the true recursive size; the tree is unchanged and every directory below becomes cached |
| VfsTree.FileSystem.SumChildren | day7.py:101-106 | the loop over the children sums their sizes, caching every directory below them |
| VfsTree.FileSystem.HasChild | day7.py:127-132 | true iff some child has that name |
| VfsTree.FileSystem.GetChild | day7.py:134-137 | Some iff some child has that name, and then a child of that name |
| VfsTree.FileSystem.AddChild | day7.py:110-121 | a duplicate name fails and leaves children and cache untouched; otherwise the child is appended and the directory with its ancestors is uncached when it was cached |
| VfsTree.FileSystem.RemoveChild | day7.py:123-125 | a non-child fails with ValueError and changes nothing; otherwise its first occurrence is removed and the cache invalidated from the directory up |
| VfsTree.FileSystem.Detach | day7.py:55-56 | removal from the old parent's children when the old parent lists the node, and failure with nothing changed when it does not |
| VfsTree.FileSystem.SetParent | day7.py:49-62 | detach first; None only clears the parent; a directory becomes the parent before the duplicate check, so a duplicate leaves the node detached yet pointing at it |
| VfsTree.FileSystem.Attach | day7.py:58-62 | point the detached node at the directory, then add it as a child |
| VfsTree.FileSystem.Create | day7.py:37-47 | a name with `\r` or `\n` fails and changes nothing; otherwise a fresh parentless node is made, then attached to the parent |
| VfsTree.FileSystem.AddFresh | day7.py:45-47 | the fresh node is the next id, parentless, with no effect on the cache |
| VfsTree.FileSystem.NewFile | day7.py:77-86 | through the shared creation code of day7.py:37-47: a negative size fails first, then a bad name, each changing nothing; otherwise a file of that size is created as the next id: appended to the parent's children, uncaching the parent and its ancestors when the parent was cached, or, when the name is taken, left in the arena unlisted with the cache untouched; existing nodes keep their names |
| VfsTree.FileSystem.NewDirectory | day7.py:150-159 | through the shared creation code of day7.py:37-47: a bad name fails and changes nothing; otherwise an empty directory whose `is_root` holds exactly when the name is "/" is created as the next id, with the same effect on the parent's children and the cache as a new file |
| VfsTree.FileSystem.Path | day7.py:27-35 | the bare name without a parent; otherwise a longer string ending in the name |
| VfsTree.FileSystem.PathAbsolute | day7.py:27-35 | every path below a root-flagged directory starts with "/" |
| VfsSearch.PreorderElems | day7.py:254-263 | the directories the recursion visits are exactly the directories at and below the start |
| VfsSearch.PreorderNoDup | day7.py:254-263 | the recursion visits no directory twice |
| VfsSearch.RecurseCountsEachOnce | day7.py:254-263 | each directory at and below the start is visited exactly once |
| VfsSearch.RecurseFilesystem | day7.py:254-263 | the sum, over the directory and every directory below it, of its size when at most `m` or when `m` is 0 (files are never added directly); the tree is unchanged |
| VfsSearch.RecurseChildren | day7.py:259-261 | the loop adds the recursive sums of the directory children in child order |
| VfsSearch.FindSmallest | day7.py:266-284 | None exactly when the directory is smaller than `k`; otherwise the least size at least `k` among it and the directories below it |
| VfsSearch.SearchChildren | day7.py:274-284 | the loop over the children ends with the least qualifying size below the directory |
| VfsSearch.SearchChild | day7.py:277-282 | one child: a skipped child holds no qualifying size, and a searched one lowers the best to the least of its subtree |
| VfsSearch.BelowThreshold | day7.py:277 | a directory smaller than `k` has nothing of size at least `k` below it |
| VfsShell.CommandParts | day7.py:226 | without a space the whole command and no argument; otherwise a space-free name, a space and the argument as a prefix of the command |
| VfsShell.ListingName | day7.py:182-183 | None iff the line has no space (IndexError); otherwise the second field stripped |
| VfsShell.ListingKind | day7.py:188-191 | "dir" gives a directory; otherwise a file whose size is `int()` of the first field, or None when that raises |
| VfsShell.ListingSplit | day7.py:182 | a listing line splits at its one space into the kind field and the name with its newline |
| VfsShell.ListingRoundTrip | day7.py:181-191 | reading a printed listing line gives back its name and kind |
| VfsShell.CommandRoundTrip | day7.py:226 | reading `name arg` or `name` gives back the command and its argument |
| VfsShell.CommandLine.constructor | day7.py:175-179 | no current or top directory, not in a command, no output processor |
| VfsShell.CommandLine.LsOutput | day7.py:181-191 | the whole new state: a line without a space, no current directory or a current file fail with nothing changed; a name already present is ignored; an unreadable size fails; a negative size or a name with a line break fails with the filesystem unchanged; otherwise `dir X` adds a directory and `N X` a file of size N as the next id, appended to the current directory's children and uncaching it and its ancestors when it was cached; nothing but the filesystem changes |
| VfsShell.CommandLine.CmdLs | day7.py:193-198 | an argument raises NotImplementedError and changes nothing; otherwise output mode is entered and the processor handed back, nothing else changing |
| VfsShell.CommandLine.CmdCd | day7.py:200-218 | no argument or several "/" fail with nothing changed; the first `cd` creates the top directory as the next id and makes it both current and top; later ones go on from the current directory as `CdFromCurrent` states |
| VfsShell.CommandLine.CdFromCurrent | day7.py:210-218 | a current file fails with nothing changed; an existing child of that name is entered, the filesystem unchanged; otherwise ".." goes to the parent, and any other valid name becomes a new child directory (the next id, appended to the current directory's children, the cache invalidated from it up) that is entered; a name with a line break fails with the filesystem unchanged |
| VfsShell.CommandLine.Dispatch | day7.py:237 | `cd` and `ls` have exactly the effect `CmdCd` and `CmdLs` state, including the filesystem changes of `cd` |
| VfsShell.CommandLine.RunCommand | day7.py:220-237 | an unknown command fails first, then a command while output is expected, both changing nothing; `ls` enters output mode with the processor set; `cd` has its full effect and clears the processor when it succeeds, and a failing handler keeps the processor |
| VfsShell.CommandLine.ProcessCommandLine | day7.py:239-251 | an empty line fails; a `$` line clears `in_cmd` and runs the stripped rest as `RunCommand` states; any other line fails outside a command, is ignored without a processor, and otherwise has the full effect of `LsOutput` |
| VfsShell.CommandLine.Replay | day7.py:290-292 | the states of the run form a trace from the start to the end state: every line before the reported position took one step without an error, and on an error, the line at that position took the last step and raised it |
| VfsShell.KindOf | day7.py:240-243 | a line is blank iff empty and a command iff it starts with `$` |
| VfsShell.CommandLineNeverInOutput | day7.py:239-245 | a `$` line never fails as a command inside output, since `in_cmd` is cleared first |
| VfsShell.ListedDirectoryAdded | day7.py:181-191 | a listed `dir x` for a new name adds exactly that directory as the next id at the end of the current directory's children, the current directory unchanged |
| VfsShell.ListedDirectoryEntered | day7.py:210-218 | a `cd x` after `dir x` was listed enters the directory just added, not another child |
| VfsShell.RanStep | day7.py:290-292 | a run of n successful lines followed by one more successful step is a run of n + 1 lines |
| Rope.SignInt | day9.py:26-31 | -1, 0 or 1 according to the sign, and times the number gives its absolute value |
| Rope.Offset | day9.py:11-16 | only L, R, U and D have an offset, each one unit step, horizontal exactly for L and R |
| Rope.OffsetsOpposite | day9.py:11-16 | L and R, and U and D, are opposite steps, and the four are distinct |
| Rope.FollowStep | day9.py:62-78 | a non-touching follower moves a nonzero step toward the leader and touches it afterwards; within distance two it is the sign of each distance |
| Rope.FollowAfterKingStep | day9.py:62-79 | a follower that touched before one king step of its leader moves itself at most one in each coordinate |
| Rope.WalkLinear | day9.py:45-51 | `n` unit steps arrive at start + n * step |
| Rope.LineAt | day9.py:50-51 | the j-th cell walked is j + 1 steps from the start |
| Rope.AddAllFacts | day9.py:53-54 | the visited list only grows, gains exactly the cells walked, and never repeats one |
| Rope.WalkMeets | day9.py:50 | a walk of nonzero steps reaches its n-step target only after exactly n steps |
| Rope.Rope.constructor | day9.py:33-37 | one knot at the given cell whose visited list starts at the origin |
| Rope.Rope.CreateLinked | day9.py:87-93 | a follower at the knot's cell, with a visited list at the origin; a second call fails |
| Rope.Rope.Visit | day9.py:53-79 | the knots become exactly `AfterVisit` of the old knots, and no visited list repeats a cell |
| Rope.Rope.MoveUsingCoordinates | day9.py:39-79 | the knots become exactly `AfterMove` of the old knots: the knot jumps to its target, then visits each cell on the way |
| Rope.Rope.WalkCells | day9.py:50-79 | the loop of unit steps leaves the knots at `AfterWalk` of the knots it started with |
| Rope.Rope.Move | day9.py:81-85 | an unknown letter fails with nothing changed; otherwise the head moves `step` times in that direction and the chain stays touching |
| Rope.VisitFrame | day9.py:53-79 | a visit leaves the knots ahead unchanged, records the cell for the knot unless it is there already, and the knots behind only add to their lists, never repeating a cell |
| Rope.MoveFrame | day9.py:39-51 | a move leaves the knots ahead unchanged and puts the knot `n` steps from its start, its list gaining the cells walked |
| Rope.WalkFrame | day9.py:50-54 | after `i` cells of a walk the knot's list has gained exactly those cells, the knots ahead unchanged |
| Rope.VisitMovesFollower | day9.py:62-79 | a follower still touching the visited cell stays with everything behind it; otherwise it takes its `FollowStep` toward the cell and records where it lands |
| Rope.VisitChain | day9.py:53-79 | a visit one king step from the previous cell keeps every follower touching the knot ahead |
| Rope.MoveChain | day9.py:39-79 | a move by king steps keeps every knot from `k` on touching the knot it follows |
| Rope.WalkChain | day9.py:50-79 | after `i` cells of a walk the chain behind the knot touches the `i`-th cell |
| Rope.StepLine | day9.py:121-122 | a line moves the rope iff it has two fields, the second an integer, the first a known letter and the count not negative |
| Rope.RunLines | day9.py:119-122 | the lines in order keep the number of knots |
| Rope.RunLinesStops | day9.py:119-122 | once a line has failed the run ends with that error |
| Rope.RunLinesKeepsRope | day9.py:119-122 | from a touching chain, every successful run leaves every knot touching its leader, visited lists only grown and free of repeats |
| Rope.NewRope | day9.py:107-111 | a head and nine followers at the origin, each visited list at the origin, all touching |
| Rope.RunLine | day9.py:121-122 | one line of the loop moves the rope exactly as `StepLine` says, or fails with its error, and keeps it touching |
| Rope.Simulate | day9.py:102-125 | a head and nine followers; the answers are the visited counts of knot 1 and knot 9 after `RunLines` from the start, or the error of the line that stopped it, and every knot touches its leader |
| Forest.Step | day8.py:149-152 | each direction moves one unit along exactly one axis |
| Forest.Distance | day8.py:158-172 | the viewing distance counts trees up to and including the first at least as tall, or to the edge |
| Forest.VisibleBySight | day8.py:21-22 | a tree is visible iff it is taller than every tree to some edge of its row or column |
| Forest.EdgeVisible | day8.py:93-101 | every tree on the grid's edge is visible |
| Forest.Hidden | day8.py:21-22 | a tree with a tree as tall in each of the four directions is not visible |
| Forest.HiddenBehind | day8.py:113-115 | no tree left of one visible from the left is visible from the right, so the right pass may stop there |
| Forest.ExampleVisible | day8.py:14-39 | the example grid 30373/25512/65332/33549/35390 has 21 visible trees |
| Forest.ScorePositive | day8.py:177-189 | an interior tree scores at least 1 |
| Forest.ScoreEdge | day8.py:174-175 | a tree on the edge scores 0 |
| Forest.ScoreAtMost | day8.py:177-189 | an interior tree scores at most the product of its distances to the four edges |
| Forest.SetVisibility | day8.py:73-86 | a visible flag is never cleared, otherwise it becomes "taller than the running maximum"; the new running maximum is the larger of the two; nothing else changes |
| Forest.MarkEdges | day8.py:93-101 | every edge cell becomes visible, nothing else changes |
| Forest.ScanRows | day8.py:103-115 | every interior flag says "clear to the left or to the right" |
| Forest.ScanRow | day8.py:104-115 | one row: each interior flag says "clear to the left or to the right" |
| Forest.ScanLeft | day8.py:105-111 | the left pass sets each interior flag to "clear to the left" and returns the last such column |
| Forest.ScanRight | day8.py:113-115 | the right pass from the last column down to the last tree visible from the left adds "clear to the right" |
| Forest.ScanColumns | day8.py:117-130 | every interior flag additionally says "clear upward or downward" |
| Forest.ScanColumn | day8.py:118-130 | one column: the top and bottom passes |
| Forest.ScanDown | day8.py:119-123 | the top pass adds "clear upward" to each interior flag |
| Forest.ScanUp | day8.py:128-130 | the bottom pass adds "clear downward" to each interior flag |
| Forest.CalculateVisibility | day8.py:89-130 | afterwards every flag says whether its tree is visible, and nothing else has changed |
| Forest.ViewingDistance | day8.py:143-172 | the loop counts exactly the viewing distance in that direction |
| Forest.DistanceStep | day8.py:158-170 | one step of the loop: a tree at least as tall ends the count, any other adds one and goes on |
| Forest.ScenicScore | day8.py:140-189 | 0 on the edge, else the product of the four viewing distances |
| Forest.CalculateAllScenicScores | day8.py:133-137 | every cell's scenic score is written and no height or flag changes |
| Crates.ChunksSplit | day5.py:25-34 | the chunks concatenate to the input; every chunk has length `size` except a shorter, non-empty last one |
| Crates.FixedWidthSplit | day5.py:25-34 | the loop produces exactly those chunks |
| Crates.Chunks | day5.py:25-34 | no chunks exactly for the empty string, and every chunk is non-empty and at most `size` long |
| Crates.CleanItem | day5.py:42 | removing whitespace and brackets leaves none of them and keeps a clean item as it is |
| Crates.DrawingRow | day5.py:42 | no cells exactly for an empty line, and each cell is at most 4 characters with no whitespace or bracket left |
| Crates.DrawingRowOfRender | day5.py:42 | reading a drawn row of cells gives back one item per cell: the crate letter or nothing |
| Crates.Digits | day5.py:14 | the longest digit prefix |
| Crates.After | day5.py:14 | the text after a literal prefix, exactly when the string starts with it |
| Crates.Number | day5.py:14 | a digit run and the rest, split where the digits end |
| Crates.LineBody | day5.py:14 | the line without at most one final newline, where `$` may match |
| Crates.ParseMove | day5.py:12-22 | only a line `move N from A to B` with digit runs parses, and then to N as an integer and A and B as strings |
| Crates.ParseMoveOf | day5.py:12-22 | every such line, with or without its newline, parses to its three numbers |
| Crates.Reverse | day5.py:62 | `items.reverse()`: the same length, element i from the end |
| Crates.ColumnItems | day5.py:56-61 | the non-empty cells of a column |
| Crates.StackTop | day5.py:56-63 | the top of each stack is the highest crate drawn in its column |
| Crates.BuiltKeys | day5.py:54-65 | the dictionaries have exactly the labels as keys, listed once each in insertion order |
| Crates.BuiltAt | day5.py:55-65 | the stack of a label holds its column bottom to top, unless a later column reuses the label |
| Crates.Dock.constructor | day5.py:3-4 | both dictionaries empty |
| Crates.Dock.Load | day5.py:53-65 | both simulations start with the same stacks, one per label column; an empty drawing or a short row is an error |
| Crates.Dock.LoadColumns | day5.py:54-65 | the loop over the labels builds those stacks in key order |
| Crates.OneAtATimeMoves | day5.py:76-79 | n single moves put the reversed top n crates on the destination, failing at the first pop of an empty stack |
| Crates.OneAtATimeSelf | day5.py:76-79 | with source and destination equal, each crate goes straight back |
| Crates.OneAtATimeUnknown | day5.py:76-79 | a stack label that does not exist fails at once |
| Crates.AsBlockMoves | day5.py:81-84 | the top n crates move as a block in order; n == 0 moves the whole stack, because `[-0:]` is the whole list |
| Crates.AsBlockSelf | day5.py:81-84 | with source and destination equal and a stack `s`: n == 0 or n >= 2|s| empties it, n <= |s| leaves it, and otherwise it keeps its first 2|s| - n crates |
| Crates.OneAtATimeConserves | day5.py:76-79 | for any n, the crates of the two stacks are preserved as a multiset and every other stack is unchanged |
| Crates.AsBlockConserves | day5.py:81-84 | the same for block moves, for any n |
| Crates.OneAtATimeReversesBlock | day5.py:76-84 | simulation 1 leaves the source as simulation 2 does and puts down the reverse of its block |
| Crates.PopPush | day5.py:77-79 | succeeds iff both labels exist and the source is non-empty; on failure nothing changes; the labels stay, no other stack changes, and a move between two stacks shortens one and lengthens the other by one |
| Crates.OneAtATime | day5.py:76-79 | the labels stay, no other stack changes, zero moves change nothing, and an error names an unknown label or the empty source |
| Crates.AsBlock | day5.py:81-84 | succeeds iff both labels exist, with nothing changed on failure; the labels stay and no other stack changes |
| Crates.Dock.PopAppend | day5.py:77-79 | one pop and append, failing on an empty stack or an unknown label |
| Crates.Dock.MoveOneAtATime | day5.py:76-79 | the loop is simulation 1's n steps |
| Crates.Dock.MoveAsBlock | day5.py:81-84 | extend then delete is simulation 2's block move |
| Crates.Dock.Perform | day5.py:71-86 | both simulations over all movements, stopping at the first error |
| Crates.Run | day5.py:71-86 | both simulations keep the same stack labels |
| Crates.Tops | day5.py:89-101 | the answer exists exactly when no stack is empty |
| Crates.TopsSpell | day5.py:89-101 | with one-letter crates the answer spells each stack's top crate in label order |
| Crates.Dock.Answers | day5.py:89-101 | the first answer exists exactly when no stack of simulation 1 is empty; the second only when the first does, and then exactly when no stack of simulation 2 is empty |
| Cleanup.AssignmentOf | day4.py:7 | `x-y` converts to `[x, y]` |
| Cleanup.ParseLineOf | day4.py:3-8 | a line `a-b,c-d` with its newline parses to `[[a, b], [c, d]]` |
| Cleanup.ParseAssignment | day4.py:7 | succeeds iff every dash-separated piece is an integer, and then gives those integers in order; otherwise ValueError |
| Cleanup.ParseLine | day4.py:5-7 | succeeds iff every comma-separated part of the stripped line parses, with at least one assignment; otherwise ValueError |
| Cleanup.ParseData | day4.py:3-8 | succeeds iff every line parses, then one pair per line in order; otherwise ValueError from some line |
| Cleanup.At | day4.py:16 | indexing succeeds exactly in range, and otherwise raises IndexError |
| Cleanup.Within | day4.py:16 | raises only IndexError, exactly where the short-circuited chained comparisons reach a missing bound; with two bounds each, true iff both bounds of `a` lie in `b` |
| Cleanup.Classify | day4.py:13-24 | raises only IndexError, and exactly when an assignment has fewer than two bounds |
| Cleanup.ClassifyCases | day4.py:16-24 | the branch taken follows the first containment test, then the second, then the two end-in tests |
| Cleanup.WithinMeansIncludes | day4.py:16 | for a well-formed interval the first test holds iff the other interval includes all its sections |
| Cleanup.ClassifyMeaning | day4.py:16-24 | a pair is contained iff one interval includes the other, and overlapped iff they share a section |
| Cleanup.Keep | day4.py:13-24 | the kept pairs are no more than the input |
| Cleanup.KeepMembers | day4.py:13-24 | a pair is kept iff it is in the input and classified as one of the kinds kept |
| Cleanup.FullyCovered | day4.py:13-21 | a pair is in `fully_covered` iff it is in the input and one assignment lies within the other |
| Cleanup.OverLapped | day4.py:13-24 | a pair is in `over_lapped` iff it is in the input and classified without error as anything but apart |
| Cleanup.Survey | day4.py:13-24 | the loop succeeds iff no pair raises and then yields the fully-covered and overlapped lists; otherwise the error of the first pair that raises |
| Cleanup.KeepOfInput | day4.py:13-24 | each list keeps pairs of the input in input order, each at most once |
| Cleanup.KeepNarrower | day4.py:16-24 | keeping fewer kinds keeps a subsequence of what more kinds keep |
| Cleanup.CoveredWithinOverlapped | day4.py:26-27 | fully covered pairs are a subsequence of the overlapped ones, so there are no more of them |
| Rucksack.PriorityOfLetters | day3.py:7-8 | a to z are worth 1 to 26 and A to Z 27 to 52, alphabetically |
| Rucksack.PriorityInjective | day3.py:24-27 | distinct letters have distinct priorities |
| Rucksack.ListOf | day3.py:34 | `list(S)` holds each element of the set once |
| Rucksack.Pack | day3.py:13-37 | an odd-length line fails; otherwise the recorded rucksack of that line |
| Rucksack.Halves | day3.py:20-21 | the compartments are equal halves that concatenate to the line |
| Rucksack.Phase | day3.py:39-52 | the line number modulo 3 says which line of its group a line is, and `line_no / 3` is the group number |
| Rucksack.Regroup | day3.py:39-52 | the third line of a group fails exactly when the group's three lines share nothing; otherwise the group state moves on one line, recording the finished group with a shared badge |
| Rucksack.Survey | day3.py:11-55 | the loop succeeds iff no line is odd or closes a group with no shared character; it records every rucksack and, for every third line, the group with a badge shared by its three lines |
| Rucksack.SetSumRemove | day3.py:57-61 | the sum over a set of priorities may take any element first |
| Rucksack.ListSumIsSetSum | day3.py:24-27 | summing the priorities of distinct characters is summing their set, in any order |
| Rucksack.SackSum | day3.py:20-27 | a rucksack's error priorities sum to its shared characters' priorities, each counted once |
| Rucksack.TotalErrorsMeaning | day3.py:57-61 | the part 1 total is the sum over lines of the priorities of the characters both halves share |
| Rucksack.TotalErrors | day3.py:57-61 | with positive priorities the total is never negative, and positive exactly when some rucksack has an error |
| Rucksack.TotalBadges | day3.py:63-67 | with letter badges worth their priority, the total lies between 1 and 52 per group |
| Rucksack.BadgeDetermined | day3.py:39-48 | a group whose lines share one character has that badge and its priority |
| Rps.Lookup | day2.py:43-44 | a dictionary lookup succeeds exactly for a key, and otherwise raises KeyError |
| Rps.MoveKey | day2.py:19-22 | each move letter is worth 1 to 3 |
| Rps.OutcomeKeys | day2.py:28-39 | every key of `outcomes` is two moves, and its result is worth 0, 3 or 6 |
| Rps.GetScore | day2.py:42-47 | defined exactly for the keys of `outcomes`, and then 1 to 9 |
| Rps.GetScoreParts | day2.py:42-47 | the score is the result's score plus the own move's score |
| Rps.GetScoreStrategy | day2.py:50-60 | keeps the opponent letter and appends its `strategy` answer, scoring 1 to 9 |
| Rps.StrategyResults | day2.py:50-60 | the alternative strategy wins against rock, loses against paper and draws against scissors |
| Rps.ChosenMoveGivesResult | day2.py:8-16 | the move `mapping` picks for an opponent move and a result produces that result |
| Rps.OutcomesAntisymmetric | day2.py:28-39 | equal moves draw, and of two distinct moves one wins exactly when the other loses |
| Rps.SplitGameLine | day2.py:69 | `"A Y".split()` is the two letters |
| Rps.RoundOf | day2.py:69-75 | a guide line is played as the opponent's move and the move giving the wanted result, scoring that result plus the move |
| Rps.Decode | day2.py:69 | succeeds iff the line has two words that are both keys, giving their two codes; IndexError exactly when a word is missing before a lookup fails |
| Rps.Choose | day2.py:70 | IndexError exactly for an empty game, success exactly for a key, and then the opponent letter followed by the chosen move |
| Rps.TotalScore | day2.py:63-79 | the total lies between 1 and 9 points per game line |
| Calories.Groups | day1.py:5 | at least one group |
| Calories.GroupValues | day1.py:6 | succeeds iff every whitespace-separated word is an integer, and then gives them in order |
| Calories.GroupsOfData | day1.py:5 | the groups joined by blank lines are the file, and none holds a blank line |
| Calories.Totals | day1.py:6-8 | one total per group |
| Calories.TotalsMeaning | day1.py:6-8 | the totals exist iff every group's numbers convert, and each is the sum of its group's numbers |
| Calories.Max | day1.py:10 | an element at least every element |
| Calories.Insert | day1.py:12 | one element longer, holding exactly the old elements and the new one |
| Calories.InsertSorted | day1.py:12 | inserting into a descending list keeps it descending and adds exactly the new element |
| Calories.SortDescending | day1.py:12 | the sort is a non-increasing permutation of the totals |
| Calories.Top3 | day1.py:14 | the first min(3, n) sorted totals |
| Calories.TopIsMax | day1.py:10-14 | the first of `top3` is the part 1 answer |
| Calories.Top3Largest | day1.py:12-14 | `top3` is drawn from the totals, and no total left out is larger than one in it |
| Calories.Answers | day1.py:10-17 | both answers exist iff every number converts; part 1 is a total at least every total |

## Left out

- Reading the input files and every `print`, including the one inside `get_score`, are left out. Each script is modelled over given lines or text, and the results are returned.
- The colour display functions of day8 are left out, because they only write to a terminal.
- The `isinstance` checks are left out, because typed Dafny values cannot be of the wrong class. Exception messages, the exception classes themselves, `__repr__` and `__str__` are left out as well.
- The capacity arithmetic in day7's `main` is left out; it is external parameters.
- `isspace` is modelled by its ASCII members: space, `\t`, `\n`, `\v`, `\f`, `\r` and `\x1c` to `\x1f`. The non-ASCII whitespace Python also accepts, such as U+0085 and U+00A0, is not modelled. `isdigit` and `islower` are modelled for ASCII only. `int()` is modelled without underscores and without non-ASCII digits.
- Set iteration order is left open. `Rucksack.ListOf` returns the elements in an unspecified order, and the badge `pop` takes one element of the shared set.
- day3 rebinds `group_badge` from a set to a character. The model keeps the running set and the badge in separate variables.
- The regular expressions are modelled directly, not with a regex engine:
  - the name check as "contains `\r` or `\n`";
  - `re.sub(r"[\s\[\]]", ...)` as removing whitespace and brackets;
  - the movement line as a structured parse.
- VfsTree.FileSystem.AddChild: requires that the child's parent already points at the directory. This is the state `_set_parent` creates before calling it. A direct `add_child` of a node owned elsewhere would break the parent back-pointer, and that case is not modelled.
- VfsTree.FileSystem.SetParent: requires that the node is not an ancestor of its new parent. The source does not check this, and a cycle would make `size` and `path` recurse forever.
- VfsTree.FileSystem.Path: the contract states the bare-name case and that the path ends in the node's name. The "/" prefix below a root is stated separately by `PathAbsolute`.
- Rope.Rope.MoveUsingCoordinates: requires `step >= 0`. With a negative step and a nonzero direction the source loops forever. `Rope.Simulate` reports that case as the error `Diverges` instead of running it.
- Forest.CalculateVisibility: requires a grid with at least one row, and a non-zero width when it has three rows or more. On an empty grid, or a zero-width one that reaches the row passes, the source raises IndexError, and that error is not modelled. The `array2` also makes the grid rectangular; the source takes the width from row 0 and would index a shorter later row out of range.
- Rope.Rope.Move: the default `step=1` is not a separate entry point; every caller passes the step, as `main` does.
- Crates.Dock.Load: a drawing row shorter than the label row raises IndexError in the source. The model reports it as `RaggedDrawing`.
- PyStr.SplitMaxHead: proves only that the first piece of `split(c, maxsplit)` is free of the separator, which is all `CommandParts` needs. The general statement about all pieces is `SplitMaxJoin`, read in the other direction.
- The example transcript of day7 and its expected sizes are not proved; the example grid of day8 is.
