# dtpstree core in Dafny

This project models the core of `dtpstree`, a tool that prints the process
table as a tree. It starts from a snapshot of process records and:

- **Builds a forest.** The admitted records go into a node store indexed by
  pid. In ascending pid order, each admitted node is then linked under the
  node its parent pid names, if there is one (`Proc::child`). Every node keeps
  two sorted multimaps of its children: one by pid, one by name.
- **Highlights a chain.** The selected node and all its ancestors are marked
  (`Proc::highlight`).
- **Chooses roots.** In user mode, a root is a node that runs as the user and
  has no ancestor that does. Otherwise, a root is a node without a parent
  (`Proc::root`).
- **Computes display text.** Each node shows its name, or its first argument
  with titles on, followed by the pid and user-name decorations
  (`Proc::print()`).
- **Compacts subtrees.** Three pieces work together:
  - the pairwise test `compact(one, two)`, which also carries highlights
    upward;
  - the memoised per-node `compact()`;
  - the pass `compact(NameMap&)` over a group of siblings. It gives each
    surviving representative a count and marks the siblings it absorbs with
    the count 1.
- **Renders the forest.** `Proc::print(tree, children)` walks the forest and
  drives the line renderer, class `Tree`. `Tree` keeps a stack of open
  levels, a buffer of segments, a column counter with a width limit and a
  latch that closes the line, and a count of open `n*[` groups. `done()`
  writes the line with one escape pair per run of line-drawing segments.
- **Parses options.** `options()` folds the option switches into a flag set,
  and `value<>` classifies numbers.

The driver `tree()` ties these steps together.

Modules, in dependency order:

- `Wrappers`: `Option`.
- `Text`: decimal rendering, the byte-wise string order, repeated characters.
- `Multimap`: `std::multimap` as a sorted sequence of pairs.
- `Options`: flags, `strtol`, `value<>` and `options()`.
- `Forest`: records, the build loops, and class `Forest`. `Forest` holds the
  node store, with `highlighted`, `roots`, `memo` (`compact_`) and `dup`
  (`duplicate_`) as its mutable state. It also holds `highlight`, `root` and
  the display text.
- `Equivalence`: `compact(one, two)`.
- `Groups`: the group pass as a pure reference function over an abstract
  group.
- `Grouping`: that pass read back on the forest.
- `Compaction`: the imperative `compact()` and `compact(NameMap&)`, proved
  against the reference pass.
- `Output`: class `Tree` and the pure functions that specify it.
- `Render`: `Proc::print(tree, children)` and `Proc::print(Tree&)`.
- `Driver`: `tree()`.

Inputs the program gets from the operating system are parameters of the model:

- The process records and their argument vectors come from `kvm_getprocs` and
  `kvm_getargv`. They are the `records` sequence.
- `strvis` is the function `visual`.
- The `getpwuid` lookup is the function `userName`.
- The terminal probe in `Tree`'s constructor is a `Setup` value: the glyph
  set, `vt100_`, `maxWidth_` and `suppress_`.
- The `getopt_long` tokens are a sequence of `Event`s.
- `getpid()` is the parameter `self`.
- The uid of the `getpwnam` lookup is the parameter `uid`.

Two behaviours of the code that are easy to misread:

- **Showing pids switches compaction off; the numeric sort does not.** `-p`
  turns `NoCompact` on (dtpstree.cpp:1050). `-n` only sets `NumericSort`
  (dtpstree.cpp:1047-1048).
- **A group is keyed by the command name, not the display text.** A group of
  siblings is ordered and scanned by the name key `name()`. The display text
  `print()` is only compared to accept a pair (dtpstree.cpp:672-697).

## Model

| member | source | states |
|---|---|---|
| Text.Digit | dtpstree.cpp:398 | the digit character of 0..9, whose code lies `d` above `'0'` |
| Text.DigitValue | dtpstree.cpp:953 | the value of a digit character, inverse of `Digit` |
| Text.NatToString | dtpstree.cpp:398 | the decimal text of a count: nonempty, all digits, no leading zero, `"0"` for 0 |
| Text.NatToStringValue | dtpstree.cpp:398 | reading the decimal text of a count back gives the count (round trip) |
| Text.IntToString | dtpstree.cpp:801 | the decimal text of a pid: nonempty, starting with `-` exactly when negative |
| Text.Repeat | dtpstree.cpp:464 | `n` copies of one character, as `std::string(n, c)` |
| Text.StrLessIrreflexive | dtpstree.cpp:577 | the name order of the name multimaps is irreflexive |
| Text.StrLessTransitive | dtpstree.cpp:577 | the name order is transitive |
| Text.StrLessAsymmetric | dtpstree.cpp:577 | the name order is asymmetric |
| Text.StrLessTotal | dtpstree.cpp:577 | of two different names one sorts first |
| Multimap.UpperBound | dtpstree.cpp:691 | `upper_bound`: every key before it is not greater than `k`, and the key at it is |
| Multimap.Insert | dtpstree.cpp:612-613 | `insert` adds exactly one entry and loses none (multiset) |
| Multimap.InsertAt | dtpstree.cpp:612-613 | the new entry goes in at the upper bound of its key, the rest in order around it |
| Multimap.InsertIndex | dtpstree.cpp:612-613 | entry by entry: old entries before the bound, the new one at it, the rest shifted by one |
| Multimap.InsertHas | dtpstree.cpp:1169 | the entries after `insert` are the old ones and the new one |
| Multimap.InsertLast | dtpstree.cpp:1169 | a key no entry exceeds is appended at the end |
| Multimap.Keys | dtpstree.cpp:1173 | the keys in iteration order, one per entry |
| Multimap.Values | dtpstree.cpp:726 | the mapped values in iteration order, one per entry |
| Multimap.CountOne | dtpstree.cpp:686-688 | `count` of an entry's key is at least 1, and is 1 exactly when no other entry has the key |
| Multimap.CountAbsent | dtpstree.cpp:686 | `count` is 0 exactly when no entry has the key |
| Options.RunLength | dtpstree.cpp:953 | the length of the leading run of digits in the base: all digits, the next one not |
| Options.DigitRun | dtpstree.cpp:953 | the leading run of digits is a prefix of the text and is all digits |
| Options.SkipSpaces | dtpstree.cpp:953 | `strtol` skips exactly the leading white space |
| Options.Radix | dtpstree.cpp:953 | base 0 picks 8, 10 or 16, and the digits start at or after the sign |
| Options.StrToL | dtpstree.cpp:953 | `strtol` never consumes more than the text |
| Options.StrToLDecimal | dtpstree.cpp:953 | a decimal numeral without a leading zero is read whole at its decimal value |
| Options.StrToLNegative | dtpstree.cpp:953 | a minus sign before such a numeral negates it and is consumed |
| Options.StrToLZero | dtpstree.cpp:953 | `"0"` is read as 0, consuming one character |
| Options.Value | dtpstree.cpp:957-978 | invalid exactly when nothing or not everything was consumed; in range only inside the bounds, with `strtol`'s value |
| Options.DecimalValueReadsBack | dtpstree.cpp:1129-1135 | a count written in decimal is in range iff it is at most `INT_MAX`, too large otherwise |
| Options.NegativeIsTooSmall | dtpstree.cpp:965-969 | a negative decimal number is too small for a pid |
| Options.WordIsInvalid | dtpstree.cpp:957-964 | a word starting with no space, sign or digit is invalid |
| Options.ParseOptions | dtpstree.cpp:1012-1146 | `options()` is the switch loop then the argument loop, and every run leaves consistent flags |
| Options.ParseSwitches | dtpstree.cpp:1012-1122 | the switch loop leaves consistent flags with at most one selection |
| Options.ParseArguments | dtpstree.cpp:1124-1144 | the argument loop keeps the flags consistent |
| Options.Update | dtpstree.cpp:1018-1019 | `flags \|= on; flags &= ~clear`: a flag is set iff it was set or turned on, and is not cleared |
| Options.GlyphSwitches | dtpstree.cpp:1017-1067 | only `-A`, `-G` and `-U` touch the glyph flags; each sets its own set and clears the other two |
| Options.SelectionSwitches | dtpstree.cpp:1024-1116 | only `-g`, `-r`, `--pid` and `--user` touch the selections; each sets its own and clears the rest |
| Options.ParseEventsSplit | dtpstree.cpp:1012-1122 | the switch loop over a sequence is the loop over a prefix then over the rest |
| Options.UntouchedKept | dtpstree.cpp:1012-1122 | events that do not touch a set of flags leave those flags as they were |
| Options.LastWins | dtpstree.cpp:1012-1122 | the last event that sets one flag of a family and clears the others decides the family |
| Options.LastGlyphWins | dtpstree.cpp:1017-1067 | the last of `-A`, `-G`, `-U` is the only glyph flag left |
| Options.LastSelectionWins | dtpstree.cpp:1024-1116 | the last of `-g`, `-r`, `--pid`, `--user` is the only selection left |
| Options.NoneChosen | dtpstree.cpp:1009-1122 | without a glyph option no glyph flag is set; without a selecting option no selection is |
| Options.ParsePositionalSnoc | dtpstree.cpp:1124-1144 | the argument loop over one more argument is one more pass |
| Options.LastPositionalWins | dtpstree.cpp:1124-1144 | the program runs iff no argument is a number out of range; then the last one decides: a number selects that pid (Pid, not User), anything else that user (User, not Pid) |
| Options.Keeps | dtpstree.cpp:1015-1116 | an update of the switch's shape keeps the flags consistent and the selection single |
| Options.SwitchesSafe | dtpstree.cpp:1015-1116 | every case of the switch has that shape |
| Options.StepUpdates | dtpstree.cpp:1012-1122 | a pass of the switch that does not exit changes the flags by its update and nothing else |
| Options.SwitchKeeps | dtpstree.cpp:1015-1116 | the update of each case keeps the flags consistent |
| Options.StepKeepsConsistent | dtpstree.cpp:1012-1122 | each pass of the switch keeps the flags consistent and the selection single |
| Options.PositionalKeepsConsistent | dtpstree.cpp:1131-1143 | each pass of the argument loop keeps the flags consistent |
| Forest.Child | dtpstree.cpp:605-614 | `child` refuses a self-link; otherwise it sets the parent and adds one entry to each index of the parent, leaving every other node as it was |
| Forest.PidInsertSorted | dtpstree.cpp:1169 | inserting a new pid keeps the pid multimap strictly ascending |
| Forest.NameInsertSorted | dtpstree.cpp:613 | inserting a larger pid keeps the name index ordered by name, then pid |
| Forest.FilterAdd | dtpstree.cpp:1167-1169 | one admitted record becomes an unlinked node and one entry of the pid multimap |
| Forest.FilteredOrder | dtpstree.cpp:1167-1169 | after the filter loop the multimap's keys are the admitted pids, ascending |
| Forest.LinkStep | dtpstree.cpp:1175-1183 | one pass of the link loop keeps the nodes and links exactly the pids the loop links |
| Forest.LinkedAll | dtpstree.cpp:1173-1184 | after the link loop the store is the forest of the snapshot |
| Forest.Build | dtpstree.cpp:1167-1184 | the nodes are the admitted records; each is linked under its parent exactly when its parent pid is not -1, names a node and is not itself; both child indexes are complete and ordered |
| Forest.SnapshotRanked | dtpstree.cpp:1173-1184 | with an acyclic parent relation, every linked node ranks below its parent |
| Forest.Name | dtpstree.cpp:593-599 | `name()`: the `strvis` rendering of the command name, the value the `name_` cache holds |
| Forest.Forest.Title | dtpstree.cpp:777-787 | with ShowTitles off or no argument vector, the name; with ShowTitles and a first argument, that argument through `visual` |
| Forest.Forest.UidChange | dtpstree.cpp:789-790 | never without UidChanges; a root shows its user iff User is not set and its uid is not 0; a linked node iff its uid differs from its parent's; an unlinked node that is not a root never |
| Forest.Forest.Display | dtpstree.cpp:771-821 | the title, then the decorations: nothing, `(pid)`, `(user)`, `(pid,user)`, or with Arguments `,pid` and `,user` each when shown |
| Forest.DecorationForms | dtpstree.cpp:789-815 | the five shapes of the decorations: none, `(pid)`, `(user)`, `(pid,user)`, and `,pid,user` with arguments |
| Forest.Forest.constructor | dtpstree.cpp:1167-1184 | the forest of the snapshot, with its flags and lookups, nothing highlighted, no roots, no memo and every count 0 |
| Forest.Forest.AncestorsClosed | dtpstree.cpp:616-622 | the ancestors of a node hold it, rank above it and are closed under the parent link |
| Forest.Forest.AncestorsLeast | dtpstree.cpp:616-622 | every set holding the node and closed under the parent link holds its ancestors |
| Forest.Forest.Highlight | dtpstree.cpp:616-622 | the node and all its ancestors become highlighted, and nothing else |
| Forest.Forest.Root | dtpstree.cpp:632-655 | the answer of `root(uid)`; in user mode `root_` is only ever set, otherwise it is assigned |
| Forest.Forest.UidOnChainAncestors | dtpstree.cpp:638-646 | the upward walk of `root` finds the uid iff some ancestor runs as it |
| Forest.Forest.RootsOffChain | dtpstree.cpp:632-655 | in user mode no root lies above another root |
| Equivalence.Children | dtpstree.cpp:855-859 | the children by name are ordered and are children ranked below the node |
| Equivalence.EquivalentReflexive | dtpstree.cpp:831-846 | `compact(a, a)` holds |
| Equivalence.EquivalentSymmetric | dtpstree.cpp:831-846 | `compact(a, b)` implies `compact(b, a)` |
| Equivalence.EquivalentTransitive | dtpstree.cpp:831-846 | `compact(one, two)` is transitive |
| Equivalence.EquivalentJoin | dtpstree.cpp:831-846 | two nodes accepted with a third are accepted with each other |
| Equivalence.CompactPair | dtpstree.cpp:831-846 | the answer is equal texts, children on both sides or neither, and equivalent first children; the highlights are those `PairMarks` gives |
| Equivalence.PairMarksChain | dtpstree.cpp:842-843 | `compact(a, b)` never clears a highlight, marks only the first-child chain of `a`, and marks nothing when it fails |
| Equivalence.PairMarksLifts | dtpstree.cpp:842-843 | when accepted and `b` is highlighted, `a` comes out highlighted |
| Equivalence.PairMarksDisjoint | dtpstree.cpp:839-843 | on disjoint chains, exactly the nodes whose partners were highlighted get marked |
| Groups.Upper | dtpstree.cpp:691 | the upper bound of an entry's name lies within the group |
| Groups.SameName | dtpstree.cpp:686-691 | the entries from `i` to the upper bound are exactly the later ones sharing its name |
| Groups.Picks | dtpstree.cpp:691-697 | which entries the inner loop at `i` takes, one flag per entry |
| Groups.Sweep | dtpstree.cpp:691-697 | the inner loop keeps one count per entry |
| Groups.Visit | dtpstree.cpp:672-701 | one turn of the outer loop keeps one count per entry |
| Groups.Run | dtpstree.cpp:669-703 | the pass keeps one count per entry |
| Groups.SweepEffect | dtpstree.cpp:691-697 | each taken entry's count goes from 0 to 1, the total grows by the number taken |
| Groups.UniformStep | dtpstree.cpp:681-684 | the running answer stays true iff each survivor is compact and shows the text of the earlier survivors |
| Groups.AbsorbedInTurn | dtpstree.cpp:676-697 | an absorbed entry is taken by the inner loop of its absorber's turn |
| Groups.PassOutcome | dtpstree.cpp:667-704 | the answer is uniformity of the survivors; an entry gets count 1 iff an earlier survivor absorbs it; a survivor holds 1 + the entries it absorbed; the first survives; counts sum to the group size |
| Grouping.SortedByName | dtpstree.cpp:672 | the name multimap iterates in name order |
| Grouping.PassOver | dtpstree.cpp:667-704 | the pass over a sibling group read from the forest: one count per entry |
| Grouping.GroupOf | dtpstree.cpp:672-697 | the group the pass reads is well formed and holds the multimap's entries |
| Grouping.GroupFacts | dtpstree.cpp:679-695 | each entry carries its node's `compact()`, `print()` and `compact(one, two)`, which is an equivalence |
| Grouping.PassAnswer | dtpstree.cpp:681-684 | the pass answers whether its survivors are uniform |
| Grouping.UniformMeaning | dtpstree.cpp:681-684 | uniform means every survivor is compactable and all survivors show one text |
| Grouping.GroupUniform | dtpstree.cpp:667-704 | `compact(NameMap&)` answers true iff every survivor is compactable and all survivors show one text |
| Grouping.AbsorberMeaning | dtpstree.cpp:691-697 | absorption read on the forest is absorption in the reference pass |
| Grouping.Absorbed | dtpstree.cpp:676-697 | an entry is absorbed iff an earlier compactable survivor with its name accepts it; the first entry survives |
| Grouping.CompactOfUniform | dtpstree.cpp:624-630 | `compact()` holds iff the node's surviving children are compactable and show one text |
| Grouping.CompactLeaf | dtpstree.cpp:670 | a node without children is compactable |
| Grouping.FirstRepresents | dtpstree.cpp:839 | for a compactable node, the first child survives and every survivor is compactable and shows its text |
| Grouping.EquivalentUniform | dtpstree.cpp:839 | for two equivalent compactable nodes, all surviving children on both sides are compactable and show one text |
| Compaction.SiblingsApart | dtpstree.cpp:586 | the subtrees of distinct siblings share no node |
| Compaction.LiftedAbsorbers | dtpstree.cpp:842-843 | after the pass, an absorbed entry's highlight has been copied to its absorber |
| Compaction.Compact | dtpstree.cpp:624-630 | `compact()` answers `CompactOf` and memoises it; only nodes below are newly highlighted; an absorbed child's highlight reaches its absorber |
| Compaction.CompactGroup | dtpstree.cpp:667-704 | `compact(NameMap&)` answers the reference pass and leaves its counts; every entry's subtree is compacted; absorbers inherit the highlights of what they absorb |
| Compaction.VisitEntry | dtpstree.cpp:672-701 | one turn of the outer loop does what a turn of the reference pass does |
| Compaction.Gather | dtpstree.cpp:686-700 | the inner loop and the write of the total leave the reference sweep's counts |
| Compaction.CompactEntry | dtpstree.cpp:679 | `proc->compact()` of an entry answers `CompactOf` and changes no count of the group |
| Compaction.Pair | dtpstree.cpp:695 | `compact(proc, pr0c)` answers `Equivalent` and lifts the highlight of the second to the first |
| Compaction.SetDup | dtpstree.cpp:699-700 | writing `duplicate_` changes exactly that entry's count |
| Compaction.Accept | dtpstree.cpp:695-696 | one inner turn bumps the count of a taken entry by one and adds the new count |
| Compaction.Absorb | dtpstree.cpp:691-697 | the inner loop's total and counts are the reference sweep's |
| Compaction.AbsorbOne | dtpstree.cpp:693-696 | one inner turn is one step of the reference sweep |
| Output.Bound | dtpstree.cpp:529 | the limit is in force exactly when `maxWidth_` is set and Long is off |
| Output.Clip | dtpstree.cpp:548-553 | the cut keeps the first `w - 1` characters and ends in `+` |
| Output.AddFits | dtpstree.cpp:513-570 | the private `print` keeps the buffer invariant |
| Output.AddRoom | dtpstree.cpp:527-569 | a piece that fits is appended whole |
| Output.AddTruncates | dtpstree.cpp:529-535 | a piece past the limit fills exactly the columns left, ends in `+`, and closes the line |
| Output.AddCutsPrevious | dtpstree.cpp:536-566 | a piece arriving at the limit cuts the previous segment; one of no width aborts |
| Output.AddAllWhenFull | dtpstree.cpp:515-516 | once the line is full every later piece is ignored |
| Output.AddAllRoom | dtpstree.cpp:527-569 | pieces that fit together are appended whole |
| Output.AddArgFits | dtpstree.cpp:412-450 | `printArg` keeps the buffer invariant |
| Output.ArgRoom | dtpstree.cpp:446-449 | an argument with room is appended after a space |
| Output.ArgTruncates | dtpstree.cpp:423-441 | an argument past the limit, or not last with under four columns to spare, fills exactly the columns left, ending in `...` when four or more are left |
| Output.ArgsWhenFull | dtpstree.cpp:414-415 | once the line is full every later argument is ignored |
| Output.Rail | dtpstree.cpp:357-374 | the connector of a level is its indentation plus two columns wide |
| Output.Rails | dtpstree.cpp:355-375 | one connector per open level |
| Output.RailsAt | dtpstree.cpp:355-375 | connector `k` stands for level `k` |
| Output.ConnectorsMeasured | dtpstree.cpp:351-390 | every connector is as wide as its text |
| Output.Marked | dtpstree.cpp:363-365 | marking the last level keeps the stack's depth |
| Output.LabelAdds | dtpstree.cpp:394-407 | the label is the `n*[` prefix, then the text, highlighted when asked |
| Output.PrintSound | dtpstree.cpp:347-410 | `print` keeps the buffer invariant |
| Output.PrintRoom | dtpstree.cpp:347-410 | with room, `print` appends connectors, then for `dup > 0` the text `dup*[` and one more open group, then the text; it opens one level |
| Output.CloseBrackets | dtpstree.cpp:462-467 | `done()` writes exactly `duplicate_` copies of `]` when they fit |
| Output.DoneEnds | dtpstree.cpp:460-502 | `done()` writes the closed line (unless aborted) and empties the buffer; with `suppress_` and a limit it flushes instead of a newline iff the line fills `maxWidth_` |
| Output.DoneWithin | dtpstree.cpp:460-502 | every line `done()` writes takes at most the limit |
| Output.DrawingBetween | dtpstree.cpp:477-479 | after `n` segments line drawing is on exactly inside a run of box-drawing segments that goes on |
| Output.EscapesBalanced | dtpstree.cpp:471-491 | each box-drawing segment, and no other, is written in the line-drawing set, and the line ends in ASCII |
| Output.Tree.constructor | dtpstree.cpp:249 | an empty renderer with the probed settings |
| Output.Tree.Put | dtpstree.cpp:513-570 | the private `print` on the buffer |
| Output.Tree.Cut | dtpstree.cpp:529-567 | the truncation of the private `print` |
| Output.Tree.DrawRails | dtpstree.cpp:351-376 | the connector loop of `print` |
| Output.Tree.DrawRail | dtpstree.cpp:357-374 | one connector, marking the last level for a last child |
| Output.Tree.DrawJoint | dtpstree.cpp:377-390 | the joint of a first child on its parent's line |
| Output.Tree.DrawConnectors | dtpstree.cpp:349-390 | the connectors of `print` |
| Output.Tree.Print | dtpstree.cpp:347-410 | `print(string, highlight, duplicate)` on the state |
| Output.Tree.PrintLabel | dtpstree.cpp:392-409 | the `n*[` prefix, the text and the new level |
| Output.Tree.PrintName | dtpstree.cpp:407-409 | the text and the level it opens |
| Output.Tree.PrintCounter | dtpstree.cpp:394-405 | the prefix `n*[` and one more open group |
| Output.Tree.PrintArg | dtpstree.cpp:412-450 | `printArg(arg, last)` on the state |
| Output.Tree.Pop | dtpstree.cpp:452-458 | `pop(children)` on the state |
| Output.Tree.Done | dtpstree.cpp:460-502 | `done()` on the state |
| Output.Tree.CloseGroups | dtpstree.cpp:462-467 | one `]` per open group, and the count reset |
| Output.Tree.Flush | dtpstree.cpp:469-501 | the line written and the buffer emptied |
| Output.Tree.WriteLine | dtpstree.cpp:469-498 | the line's bytes go to standard output, then a newline or a flush |
| Output.Tree.Select | dtpstree.cpp:504-510 | `operator()(first, last)` sets where the next node stands |
| Render.Kids | dtpstree.cpp:849-859 | the children of the chosen index are children ranked below the node |
| Render.KidsRanked | dtpstree.cpp:849-859 | every entry of either child index is a node whose parent is the node and which ranks below it |
| Render.ViewRanked | dtpstree.cpp:726-746 | in the view of a forest every child has a card and ranks below its parent |
| Render.ShownFrame | dtpstree.cpp:717-753 | printing a subtree only adds lines and gives back the open levels; a node of count 1 prints nothing |
| Render.SiblingsFrame | dtpstree.cpp:726-750 | the child loop only adds lines and keeps the open levels |
| Render.SelfFrame | dtpstree.cpp:755-769 | the node's own line only adds lines and opens one level |
| Render.DoneFrame | dtpstree.cpp:460-502 | `done()` only adds lines |
| Render.ShownWithin | dtpstree.cpp:717-753 | printing a subtree keeps the buffer invariant, and every line fits the limit |
| Render.SiblingsWithin | dtpstree.cpp:726-750 | the child loop keeps the buffer invariant, and every line fits |
| Render.SelfWithin | dtpstree.cpp:755-769 | the node's own line keeps the buffer invariant |
| Render.OnesAfterAll | dtpstree.cpp:735-741 | the later children of count 1 are all of them iff every later child is absorbed |
| Render.NextShownSkips | dtpstree.cpp:735-741 | the scan of `l4st` moves the iterator only over children of count 1 and stops at the first other one |
| Render.NextShownIs | dtpstree.cpp:735-741 | a position with only children of count 1 between the start and it, and a child of another count at it or the end, is where the scan stops |
| Render.NextEnd | dtpstree.cpp:729-744 | the loop ends after a child exactly when the shortcut on `_index` fires or no later child has a count other than 1 |
| Render.LastMeans | dtpstree.cpp:729-744 | with the counts of a compacted group and a turn count `_index` not ahead of the iterator, the loop ends after a child iff no later child is shown |
| Render.WalkAlike | dtpstree.cpp:746 | the reference walk does not depend on where the node before it was said to stand |
| Render.WalkSkip | dtpstree.cpp:719-720 | walking over absorbed children changes nothing but where the next node stands |
| Render.SiblingsWalk | dtpstree.cpp:726-750 | the child loop, with its shortcut, its scan that moves the iterator, its turn count and its break, prints what a walk over every child prints, up to where the next node stands |
| Render.SiblingsStep | dtpstree.cpp:746-749 | one turn of the child loop: the child's subtree, then the rest from one past where the scan left the iterator, unless `l4st` held |
| Render.DupsOf | dtpstree.cpp:730-738 | the counts `l4st` reads on the forest are those of its view |
| Render.ScanLater | dtpstree.cpp:735-741 | the scan moves past the later children of count 1 and steps back one: it stops before the first other child, or at the last child with `l4st` when there is none |
| Render.PrintSelf | dtpstree.cpp:755-769 | `print(tree)`: the node's text, then with Arguments its arguments and the end of the line |
| Render.PrintArgs | dtpstree.cpp:763-765 | every argument after the first, through `visual`, the last one marked |
| Render.PrintNode | dtpstree.cpp:717-753 | `print(tree, children)` prints the subtree as `Shown` |
| Render.PrintChildren | dtpstree.cpp:724-752 | the child loop prints `Siblings` from the first child on the first turn |
| Render.LastChild | dtpstree.cpp:729-744 | `l4st` of the child at the iterator on turn `_index`, and where the scan leaves the iterator, as `Next` says |
| Render.PrintChild | dtpstree.cpp:728-749 | one turn: the selection with `!_index` and `l4st`, the child's subtree, and where the iterator stands for the next turn |
| Driver.TextsShow | dtpstree.cpp:771-821 | the texts of the forest are those `print()` shows with its roots |
| Driver.RootsInHas | dtpstree.cpp:1236-1242 | the pid-order roots are the nodes `root(uid)` accepts |
| Driver.NamesOfHas | dtpstree.cpp:1222-1228 | the names multimap holds each accepted root under its name, in name order |
| Driver.RootIndex | dtpstree.cpp:1222-1228 | the names multimap is ordered and holds nodes of the forest |
| Driver.RootsApart | dtpstree.cpp:1222-1231 | the subtrees of distinct roots share no node |
| Driver.SameRoots | dtpstree.cpp:1218-1249 | the name-order and pid-order loops print the same roots, those `root(uid)` accepts |
| Driver.HighlightTarget | dtpstree.cpp:1186-1192 | the target and its ancestors are highlighted; an absent pid changes nothing |
| Driver.CollectRoots | dtpstree.cpp:1220-1228 | the loop sets the roots and builds the names multimap |
| Driver.CompactRoots | dtpstree.cpp:1230-1231 | `compact(names)` over the roots leaves the reference counts; every root's subtree is compacted and absorbers inherit highlights |
| Driver.PrintByName | dtpstree.cpp:1246-1247 | the roots are printed in name order |
| Driver.PrintByPid | dtpstree.cpp:1236-1242 | the roots are printed in pid order |
| Driver.PrintIfRoot | dtpstree.cpp:1238-1241 | one node is printed iff it is a root |
| Driver.CompactPid | dtpstree.cpp:1204-1205 | the selected subtree is compacted |
| Driver.ShowPid | dtpstree.cpp:1198-1216 | in Pid mode the selected node, when present, is compacted unless switched off and printed by the chosen index; otherwise nothing is printed |
| Driver.ShowRoots | dtpstree.cpp:1218-1249 | the roots are collected, compacted unless switched off, and printed in the chosen order |
| Driver.PrintForest | dtpstree.cpp:1186-1249 | `tree()` after the build: highlight, then the Pid or roots branch |
| Driver.TreeOf | dtpstree.cpp:1150-1251 | the whole of `tree()`: the forest of the snapshot and the lines `Printed` describes |

## Left out

- The `kvm` layer (`kvm_openfiles`, `kvm_getprocs`, `kvm_getargv`). Process records and argument vectors are an input sequence, and the failures to open the snapshot (dtpstree.cpp:1153-1163) are outside the model.
- `delete` of the nodes at the end of `tree()`, and the `malloc`/`free`/`asprintf` handling in `Tree`: memory management with no effect on output.
- Terminal and locale probing in `Tree`'s constructor (`isatty`, `setlocale`, `wctomb`/`mbtowc`, `setupterm`/`tgetent`): its result is the `Setup` parameter.
- Multibyte and wide-character conversion in the private `print`: every character takes one column.
- `strvis` and `getpwuid`/`getpwnam`: the functions `visual` and `userName`, and the uid parameter. The failing `getpwnam` lookup in `main` and the NULL `pw_name` are outside the model.
- `getopt_long` tokenising, `help()` and the version and licence text: the switches are `Event`s, and `help` and `-V` end in an `Exit` outcome with the status the source uses.
- The `ERANGE` tests of `value<>`: `errno` is cleared after `strtol`, so the tests never fire.
- Glob and regex selection: parsed into flags, never acted on (dtpstree.cpp:1263).
- The 16-bit flag word is a set of flags. No flag combination depends on the bit values.
- Options.StrToL: the clamping to `LONG_MIN`/`LONG_MAX` is not modelled, and neither is the narrowing of the `long` result to `pid_t` (dtpstree.cpp:953, 978). Every clamped value is far outside `0..INT_MAX`, so `Value` classifies it the same way. The value stored in `pid` for a non-number is `strtol`'s unclamped value.
- Forest.Build: requires each pid to occur once in the snapshot (`DistinctPids`). The source keeps the nodes in a multimap that would accept a repeated pid (dtpstree.cpp:1165-1169), but kernel pids are unique, and the node store here is indexed by pid.
- Forest.Forest.constructor: requires `DistinctPids` for the same reason as `Forest.Build`. It also requires a rank map that witnesses an acyclic parent relation, because `highlight` and the user-mode `root` walk upward and would not end on a cycle.
- Forest.Forest.Title: when ShowTitles is set and the argument vector is present but empty, the model falls back to the name. In that case the source passes the NULL `*argv` to `visual`, that is `strlen(NULL)` (dtpstree.cpp:781-782).
- Forest.Forest.Display: the memoisation of `print_` and `name_` is a pure function here. This is safe because `root_`, the only mutable state the text reads, is settled before the first `print()`: in the roots branch the `root(uid)` loop runs before compaction and printing, and in Pid mode no `root` call is made at all.
- Output.PopPen: `Tree.Pop` needs an open level. On an empty stack, which `Pop` never meets, the function leaves the stack as it is.
- Render.Siblings: a child that did not rank below its parent would be passed over. In the view of a forest every child ranks below its parent (`Render.ViewRanked`), so the guard never fires.
- Render.LastMeans: requires `Grouped`, the shape of the counts the shortcut expects of `compact(NameMap&)`: a child of count `n` above 1 is followed by at least `n - 1` children of count 1. A forest in which compaction is switched off has all counts 0, so that shape also holds. It also requires a turn count no larger than the position, which the loop keeps.
- Render.SiblingsWalk: its equality to the reference `Walk` is proved only for child lists whose counts are `Grouped`. That the counts `compact(NameMap&)` leaves are `Grouped`, in either child index, is not proved.
- Render.PrintChildren: proved equal to `Siblings`, which follows the source's loop as written: the scan of `l4st` moves the loop's own iterator and `--child` steps it back (dtpstree.cpp:735-741), and `_index` counts turns, so it falls behind the position once a child of count 1 has been passed over. That this prints what the reference `Walk` prints up to where the next node stands (`Render.SiblingsWalk`) is proved only for child lists whose counts are `Grouped`. That the counts `compact(NameMap&)` leaves are `Grouped` in the child lists of either index, by name or by pid, is not proved.
- The aborting branch of the private `print`: `std::wstring(width - 1)` with a previous segment of no columns throws, which ends the process. The model sets `aborted`, after which nothing more is written.
- Equivalence.CompactPair: `compact(one, two)` compares only the first child in name order. Two nodes with children `[n, n]` and `[n]` are accepted as equivalent, though their whole subtrees differ. The model keeps this behaviour. `Grouping.EquivalentUniform` states what the test does guarantee among compactable nodes.
