# Tree-sitter's C runtime: a verified model

Tree-sitter parses incrementally and with many parse stacks at once, and it owes its speed to
sharing: trees are shared between parses, stack nodes between stacks, capture lists between query
states, and every node caches a summary of what lies below it. This project models the parts of
`lib/src` that keep this sharing right, and proves what the rest of the runtime relies on.

- **Lengths and subtrees** (`Length`, `Subtree`, `Summaries`, `ErrorGroups`, `SummaryFacts`,
  `Meaning`): the monoid of byte and row/column lengths; the data of a node, inline leaf or heap cell, and its
  summary from its children, with aliases, error costs and their refunds.
- **The subtree pool** (`SubtreePool`, `Ownership`): a store of cells with reference counts, a
  free list and a work stack. Retain, release, clone, make-mutable, new leaf, new node, summarise.
- **Editing** (`Edit`, `EditText`, `EditMarks`, `EditColumns`, `PoolEdit`): what an edit does to a
  tree, as a function on trees, and the worklist that does it in shared memory.
- **Balancing** (`Rotation`, `Balance`, `Halving`, `OwnPrecedence`, `Depths`, `Compress`,
  `ParserBalance`): rotations of repetitions in place, with cancellation and resumption.
- **The graph-structured stack** (`StackGraph`, `StackSteps`, `StackHistory`, `StackGrowth`,
  `StackFull`, `StackReach`, `Stack`, `StackPath`, `StackPop`, `StackRoutes`, `StackPending`): all
  version operations, recursive merging of links, and popping along all paths.
- **The query cursor** (`QueryCaptures`, `CaptureLists`, `FinishedHeap`, `StableSort`,
  `QueryStates`, `Pruning`, `QueryCursor`): the pool of capture lists, the heap of finished matches, the
  longest-match pruning, and the three ways to take matches out.
- **Walks and indexes** (`Places`, `VisibleNodes`, `TreeCursor`, `Node`, `ReusableNode`,
  `Lookahead`, `Ranges`): fast walks that must agree with plain recursive definitions.
- `Gathering`, `Sequences` and `Options` are helpers.

Classes keep the form of the C structures: their fields are the structures' fields, their methods
change them in place, and ghost parameters say who else holds references.

## Main results

- **Editing keeps the layout.** After any ordered edit every inner node is still as long as its
  children together and padded like its first child; the tree's length is the end of the new text
  plus what followed the old, and the inserted text goes to exactly one child of a node.
- **Edited trees follow the text.** If a tree stands for a text, node by node, then after an edit it
  stands for the edited text: at every node the padding and the length are those of its piece of the
  new text, in bytes, rows and columns.
- **The worklist edit is the recursive edit.** Editing a shared tree in the pool yields the tree
  that the recursive definition yields, keeps all counts exact, and changes nothing that any other
  handle can see.
- **Change marks are sound exactly when no blank node is exposed** (see Findings).
- **Reference counts are conserved.** Each count is the number of child slots plus outside handles
  through every pool operation; what is live after a release is exactly what the remaining handles
  can reach; make-mutable changes no tree that anyone else sees.
- **Summaries mean what they say.** The lookahead is that of the child that went furthest, the first
  leaf is the first leaf, external tokens, visible and named children are those below.
- **Error grouping is cost-neutral.** An error node costs its extent, what the subtrees in it cost and a
  hundred for each node that users see of them, however they are grouped in `_ERROR` nodes; a refund
  never exceeds the cost.
- **Balancing is invisible.** It terminates; wherever it is cancelled and however often it is
  resumed, the finished tree has its leaves, padding, size, lookahead, error cost and node counts,
  and it shows the same forest of visible nodes under the same aliases; shared cells and cells of
  other trees are untouched, and when it is over every inner node that could be changed has been
  visited. Visible, named and leaf nodes keep all their data. Only the finished tree has to be
  summarised: other trees in the pool may have been edited since.
- **Balancing balances.** A visited node has had exactly the halving rows of rotations that are
  possible, as its left side is higher than its right one. The cached depths that decide this are the
  heights of the trees: summarising makes them so, and compressing keeps them so for everything still
  to be visited. A left edge of `n` links with nothing deep beside it is left with one link more than
  `n - 1` has ones in binary.
- **Compression accounts for every dynamic precedence it drops** (see Findings).
- **Every stack link is exact.** In every state reached by stack operations, a node's position and
  cost are those of the node below plus those of the subtree on the link, so all paths between two
  nodes have the same length and cost; the counts of nodes and subtrees are exact throughout.
- **Merging loses no history and invents none.** A history is a sequence of node keys (state, bytes,
  cost) and, between them, what makes two subtrees interchangeable: the symbol, and unless they are
  erroneous the bytes, the child count, the extra flag and the scanner state. Every history that the
  merged version showed is shown afterwards unless a node below has run out of room for links; old
  links keep their subtree or one of higher precedence that is interchangeable with it; nodes are
  linked only where nodes with the same keys were linked before.
- **Popping enumerates paths.** Slices are real, different paths whose links count just the wanted
  number, one for each discontinuity and for each subtree that is not an extra; no beginning of such
  a path counts as many. A slice holds the subtrees on its path from the bottom up. Slices of one
  version are contiguous and equally long, every new version has a slice, and none is missing unless
  sixty-four separate paths were open at once; a graph with fewer ways down never gets there.
- **Longest-match pruning loses nothing and leaves nothing to prune.** What stays is alive and, at its
  end, waits for an alternative; no state makes another one redundant; what finishes was at its end
  with no alternative left. Capture lists have one owner each and never exceed the limit, and a stolen
  list leaves no trace.
- **Matches come out in order.** The next match is the one that finished first, under any
  interleaving; the next capture is the first one by position and pattern of all states, and unless
  something new was matched in between it does not come before the one returned last.
- **Cursor indices are preorder ranks** after every movement, positions are prefix sums, and going
  to a descendant reaches the visible node with just that number.
- **Child lookup and range descent agree with the recursive definitions**: the numbered visible
  child, the smallest relevant node that spans a range, and for an empty range the one reached over
  the first children that go on behind it or stand empty at it.
- **The reusable-node walk goes forward in preorder** and knows the byte offset and the last
  external token of everything passed.
- **The lookahead iterator lists exactly the symbols a lookup finds**, each once.
- **The range sweep computes the symmetric difference**, sorted and separated, with rows and columns
  that are those of the ranges given.

## Findings

Places where a property that the code is meant to have fails, with the exact condition and an input.

- **Unmarked nodes inside replaced text** (`lib/src/subtree.c:661-794`, relied on at
  `lib/src/parser.c:790`). A node without text and lookahead that starts together with its parent,
  strictly inside the replaced text, is passed over and keeps no mark.
  `EditMarks.FreshEditMarks`: the marks of an edited tree are sound if and only if there is no
  such node. `EditMarks.AnExposedNode` gives a tree and an edit.
- **Columns shifted unnoticed** (`lib/src/subtree.c:741-757`). A child that depends on its column is to
  be marked when an edit shifts the columns of its row, "until reaching a line break". But the first
  child beyond the edit that depends on no column ends the search. `EditColumns.ColumnsAreMarked`: such
  a child is marked if and only if none before it, beyond the replaced text, is indifferent to columns.
  `EditColumns.AColumnLeftBehind` is a tree whose third child moves from column 5 to 6 without a mark.
  On the first row of a parent that depends on columns all is well: `EditColumns.FirstRowIsMarked`.
- **Forgotten columns** (`lib/src/subtree.c:371-377`). Whether the first child is on the first row is
  judged by the size that its parent has from before, which is nothing for a new node but not for one
  that is summarised again (`lib/src/subtree.c:328-335`). `SummaryFacts.ColumnsAreSummarized`: a summary
  says rightly whether a child on the first row depends on its column if and only if the old size is of
  one row, or the first child does not depend on columns, or a later one on the first row does too.
  `SummaryFacts.AColumnIsForgotten` is a node that depends on its column and, summarised again, does not.
- **Overlooked children** (`lib/src/tree_cursor.c:266-306` against
  `lib/include/tree_sitter/api.h:903-911`). The search for the first child beyond a byte enters
  the first hidden child that ends beyond it and never leaves it again, so it can return nothing
  although a later child qualifies. `TreeCursors.SearchMisses` says exactly when;
  `TreeCursors.AnOverlookedChild` is an instance; `TreeCursors.SearchIsComplete` shows that it
  finds a child whenever there is one in trees whose hidden nodes end with visible ones.
- **Forgotten dynamic precedence** (`lib/src/subtree.c:292-336` with `lib/src/subtree.c:421`,
  against `lib/src/parser.c:1030`). A reduction adds its production's dynamic precedence to that
  of the children; summarising a rotated repetition anew adds only the children's.
  `Compressing.Compress`: the root of the repetition loses exactly the sum of what the rotated
  nodes' own productions had added, and keeps its precedence if and only if that sum is zero.
  `Summaries.RotationForgetsPrecedence` is the same for one rotation, and
  `Summaries.APrecedenceIsForgotten` three nested repetitions that go from precedence 1 to 0.
- **An alias at the end** (`lib/src/subtree.c:302-325`). A rotation takes the last child of the
  innermost of three repetition nodes away and puts a hidden node in its place. If the production
  has an alias for its last child, as in `repeat(seq(a, alias(b, c)))`, the child loses the alias and
  the hidden node gets it. `Meanings.RotationKeepsVisibleTree`: whatever the other nodes are, the
  visible tree stays the same if and only if there is no such alias; `Meanings.AliasIsLost` is an
  instance. Aliases elsewhere do no harm, and `ParserBalancing.BalancingIsInvisible` allows them.
- **Full stack nodes** (`lib/src/stack.c:249`). A link that finds its node full is dropped without
  a word. `Stacks.Stack.AddLink`: a link that matches none of the node's is kept, and with it what can
  be read over it, if and only if the node has fewer than eight links. `StackFull.ANinthAlternative`
  is a stack of two mergeable versions whose ninth reading of a byte is lost. What a whole merge
  keeps, it keeps where no node that the merged version leads to is full afterwards.
- **Versions of pending pops** (`lib/src/stack.c:552-559`, whose caller uses them at
  `lib/src/parser.c:184-212`). Popping a pending subtree renumbers the first resulting version, after
  which every later version is one lower, but only the first slice is told.
  `StackPending.PopPendingSubtrees`: a slice's version is where its path leads if and only if it is the
  first slice, so all are right if and only if there is at most one. `StackPending.BothArePending` is a
  node with two pending subtrees, both of which are popped.
- **Two captures of one span** (`lib/src/query.c:3682-3737`). Comparing capture lists can miss a
  containment when a node is captured twice, `QueryCaptures.TwoCapturesOfANode`, and when a node and
  its only child are both captured, `QueryCaptures.TwoNodesOfASpan`. `QueryCaptures.ComparedExactly`:
  of lists in traversal order it calls one contained in the other if and only if, for every span, the
  captures that the one has there begin those that the other has there. Where no two captures have
  the same span, that is containment: `QueryCaptures.ComparedIsComplete`. In any case what it calls
  contained is contained, so pruning stays safe.
- **Copying a paused version** (`lib/src/stack.c:697-706`). This hazard is in the function alone: the
  copy shares the lookahead of a paused version without counting it, so the counts stay exact if and
  only if the version holds no counted lookahead (`Stacks.Stack.CopyVersion`;
  `Stacks.ACopiedLookahead` is an instance). No caller gets there. The only one,
  `lib/src/parser.c:1522`, copies versions that are active, and `Stacks.Stack.Valid` includes, and every
  operation keeps, that an active version holds no lookahead; copying it keeps all counts exact.

## Assumptions

- Stacks are acyclic: a ghost function `level` on a node's state, bytes and cost decreases along
  links. The code itself guards only against a link from a node to itself.
- Aliases (`Rotations.AliasesOk`): a repetition node that begins with one of the same repetition, of
  two or more children, has no aliases, and the latter has none for its last child (see Findings); and
  no production aliases the end of the document (`VisibleNodes.EndUnaliased`).
- Parse tables: groups are not empty, disjoint, have values, and hold tokens only or none
  (`Lookaheads.GroupsOk`, `Lookaheads.TableOk`).
- Reused trees: a node has external tokens if and only if one of its leaves does
  (`ReusableNodes.TokensOk`), as in every summarised tree (`SummaryFacts.TokensAreTrue`).
- The tree to be balanced agrees with its own summaries (`ParserBalancing.CellsAgree`).
- Numbers do not overflow, except where the code relies on it: the eight-bit operation count of
  balancing and the `UINT32_MAX` sentinel of ranges are modelled.

## Model

| member | source | states |
|---|---|---|
| `Lengths.LengthMonoid` | lib/src/length.h:25-37 | lengths are a monoid under addition, and subtraction cancels on the left |
| `Lengths.SubCancels` | lib/src/length.h:25-37 | subtracting a length and adding it again restores the first one if and only if it was not before it in bytes and in rows and columns |
| `Summaries.SummarizedIsTrue` | lib/src/subtree.c:348-486 | in a tree whose nodes agree with their children, every cached summary is what recomputing the whole tree would give |
| `Summaries.RotationKeepsSummary` | lib/src/subtree.c:292-336 | rotating ((P z) Q) R into (P (z Q)) R and summarising the moved nodes again keeps padding, size, lookahead, error cost and all counts of the outermost node, if z has no alias |
| `Meanings.RotationKeepsVisibleTree` | lib/src/subtree.c:302-325 | a rotation keeps the forest of visible nodes, whatever the other nodes are, if and only if the innermost node's production has no alias for its last child |
| `Meanings.AliasIsLost` | lib/src/subtree.c:302-325 | a token that is last and has an alias: after the rotation the visible nodes are others |
| `Summaries.RotationForgetsPrecedence` | lib/src/subtree.c:292-336 | a rotation lowers the dynamic precedence by what the three productions had added, and keeps it if and only if that is zero |
| `Summaries.APrecedenceIsForgotten` | lib/src/subtree.c:292-336 | three nested repetitions of tokens with precedence 1 end up with precedence 0 |
| `ErrorGroups.GroupCost` | lib/src/subtree.c:399-419 | an error node costs its own extent plus what its contents charge once all `_ERROR` groups in it are dissolved, for any nesting |
| `ErrorGroups.RefundIsCovered` | lib/src/subtree.c:399-419 | the extent that a parent refunds for an `_ERROR` group is never more than the group costs |
| `ErrorGroups.GroupingIsNeutral` | lib/src/parser.c:1417-1456 | error nodes with the same ungrouped contents have the same cost, padding and size, however the contents are grouped |
| `SummaryFacts.ErrorsCost` | lib/src/subtree.c:399-419 | an error node with children costs 500, 1 for each byte and 30 for each row of its size, what the subtrees in it cost with all `_ERROR` groups dissolved, and 100 for every visible node at the top of those that are not extra |
| `SummaryFacts.OthersCost` | lib/src/subtree.c:399-405 | any other node costs what its children cost |
| `SummaryFacts.LookaheadIsReached` | lib/src/subtree.c:387-398 | a summarised node has looked ahead just as far as one of its children |
| `SummaryFacts.FirstLeafIsCached` | lib/src/subtree.c:463-468 | the cached symbol and state of a summarised node are those of its first leaf |
| `SummaryFacts.TokensAreTrue` | lib/src/subtree.c:444 | a summarised node has external tokens if and only if one of its children has, all the way down |
| `SummaryFacts.ColumnsAreSummarized` | lib/src/subtree.c:371-377 | a summary says that a node depends on its column just when a child on its first row does, if and only if the size it had before is of one row, or its first child does not depend on columns, or a later one on the first row does as well |
| `SummaryFacts.AColumnIsForgotten` | lib/src/subtree.c:371-384 | two children, for which a node summarised once depends on its column and summarised twice does not |
| `SubtreePools.SubtreePool.SummarizeChildren` | lib/src/subtree.c:348-486 | the loop over the children leaves in the cell just the summary of the children and changes nothing else; its repeat depth is one more than the larger one of its first and last child if it is hidden, has two children and begins with its own symbol, and else zero |
| `Depths.DepthIsHeight` | lib/src/subtree.c:473-484 | where the cells of a tree cache what their children say, the repeat depth is the height of the tree as a nested repetition |
| `SubtreePools.SubtreePool.Allocate` | lib/src/subtree.c:137-143 | a cell from the free list or a new one, not live before; all live cells stay and counts are exact with one more handle |
| `SubtreePools.SubtreePool.NewLeaf` | lib/src/subtree.c:166-224 | a leaf is inline just if symbol, extents and lookahead fit; the caller gets one counted handle to a leaf with the given fields, external tokens and column dependency included where it is not inline, and without cost |
| `SubtreePools.SubtreePool.NewNode` | lib/src/subtree.c:491-528 | a node takes over the shares of its children, agrees with them, says truly how deep they are nested, and is the only new handle |
| `SubtreePools.SubtreePool.Retain` | lib/src/subtree.c:570-575 | one more counted handle, nothing else |
| `SubtreePools.SubtreePool.Clone` | lib/src/subtree.c:260-277 | a new cell with the same data and children, each child counted once more |
| `SubtreePools.CloneIsInvisible` | lib/src/subtree.c:260-290 | cloning for one owner keeps counts exact and every reference keeps the tree it stands for |
| `SubtreePools.SubtreePool.MakeMut` | lib/src/subtree.c:284-290 | the result stands for the same tree and has one owner; nobody else sees a change; counts stay exact |
| `SubtreePools.LiveIsReachable` | lib/src/subtree.c:577-606 | with exact positive counts every live cell can be reached from a handle: nothing leaks |
| `SubtreePools.ReleasedExactly` | lib/src/subtree.c:577-606 | what is live after a release is exactly what the remaining handles could reach before |
| `SubtreePools.SubtreePool.Release` | lib/src/subtree.c:577-606 | giving up the last share frees exactly the cells that became unreachable, each once; other cells keep their content and counts are exact |
| `Edits.EditKeepsLayout` | lib/src/subtree.c:661-794 | an edit keeps the byte layout at every node; the new length is the end of the new text plus the rest, if the edit touches the tree, and the old length otherwise; likewise for the padding |
| `Edits.InsertedOnce` | lib/src/subtree.c:735-791 | the inserted text goes whole to exactly one child of a node that the edit touches and to no child of one that it does not |
| `EditTexts.EditSpells` | lib/src/subtree.c:661-794 | if a tree stands for a text, padding and length of every node in bytes, rows and columns, then the edited tree stands for the edited text |
| `EditTexts.EditMovesLengths` | lib/src/subtree.c:676-705 | what follows the replaced text follows the new text by the same bytes, rows and columns, in the padding and in the whole length; a padding that is cut ends where the new text does; the rest keeps its extents |
| `EditMarks.FreshEditMarks` | lib/src/subtree.c:661-794 | nodes left unmarked by an edit are unchanged and clear of it, with all they looked at, if and only if no blank node starts with its parent strictly inside the replaced text |
| `EditMarks.AnExposedNode` | lib/src/subtree.c:672-674 | a summarised, unmarked tree and an ordered edit after which the marks are not sound |
| `EditMarks.SummarizedIsLaidOut` | lib/src/subtree.c:384-398 | summarised trees are laid out, and their nodes have looked ahead as far as any node inside |
| `EditColumns.ColumnsAreMarked` | lib/src/subtree.c:741-757 | a child beyond the replaced text, on the row where that ends, that depends on its column and whose column shifts, is marked if and only if no child before it is beyond the replaced text and indifferent to columns |
| `EditColumns.FirstRowIsMarked` | lib/src/subtree.c:741-757 | in a node that depends on columns every child beyond the replaced text on the first row is marked |
| `EditColumns.AColumnLeftBehind` | lib/src/subtree.c:744-757 | a summarised, unmarked tree whose third child depends on its column, which an insertion shifts from 5 to 6, and is left unmarked |
| `PoolEdits.EditSubtree` | lib/src/subtree.c:645-798 | the worklist yields the tree that editing recursively yields, whose lengths are those of the edited text, keeps counts exact, and every other handle keeps its tree |
| `Compressing.RotateDown` | lib/src/subtree.c:302-325 | rotations go down the left edge while links are singly owned, at most as often as asked, keep what the tree means, and stop early only where no further rotation is possible: the store is exactly the one so rotated |
| `Compressing.SummarizeUp` | lib/src/subtree.c:328-335 | climbing back summarises every moved cell from clean children, restores the work stack, forgets what the moved productions had added, and leaves true depths in all moved cells |
| `Compressing.Compress` | lib/src/subtree.c:292-336 | the tree means what it did, counts are exact, all cells it should not touch are as they were; but for what inner nodes cache, the store is the one with as many rotations as were asked for and possible; the repetition's precedence drops by exactly what the rotated productions had added, and stays if and only if that is zero; the moved cells say truly how deep they are nested, and so do all those still to be visited that did before |
| `Depths.CompressedDepths` | lib/src/subtree.c:328-335 | after the summaries on the way up, depths are true in every cell of the tree below those already visited, if they were before |
| `OwnPrecedences.TopLoses` | lib/src/subtree.c:328-335 | summarising a rotated spine again takes from its top the sum of what the productions of all rotated cells had added |
| `ParserBalancing.Parser.CheckProgress` | lib/src/parser.c:1574-1593 | operations are counted, and the callback is asked once the count reaches its bound |
| `ParserBalancing.Parser.CompressNode` | lib/src/parser.c:1930-1954 | unless cancelled, the store is the one with rows of half the excess depth of the left side, half of that, and so on, of rotations, but for what inner nodes cache; the excess is the height of the first child less that of the last, if depths were true when balancing began; the balancing invariant and the set of live cells are kept |
| `Depths.LeansTruly` | lib/src/parser.c:1934-1938 | with true depths below, the cell is found to be as high as its tree, and to lean by as much as its first child's tree is higher than its last child's |
| `Halvings.TurnedEdge` | lib/src/subtree.c:302-325 | a row of rotations for which the left edge is long enough makes it shorter by one link each |
| `Halvings.EveningShortens` | lib/src/parser.c:1934-1942 | of a left edge of exactly `n` links balancing leaves exactly `n` less the excess plus as many as the excess has ones in binary, at most its logarithm, wherever the edge is as long as the rows need |
| `Halvings.EveningStraight` | lib/src/parser.c:1934-1942 | a repetition of `n` links with true depths and nothing deep beside its left edge leans by `n - 1`, and is left with one link more than `n - 1` has ones in binary |
| `ParserBalancing.Parser.BalanceSubtree` | lib/src/parser.c:1912-1967 | balancing terminates, keeps its invariant towards the store it began on through every cancellation and resumption, true depths of what is still to be visited included, leaves only nodes that have been evened out, and stops early only when the callback says so |
| `ParserBalancing.Parser.FinishParse` | lib/src/parser.c:2228-2234 | the flag for resuming with balancing is set exactly when it was cancelled |
| `ParserBalancing.BalancingIsInvisible` | lib/src/parser.c:1912-1967 | wherever balancing stops, the finished tree has the leaves and the summary it had and shows the same forest of visible nodes under the same aliases, visible nodes and leaves keep all data, shared cells and cells of other trees are untouched, and other handles see what they saw |
| `ParserBalancing.EveryInnerNodeIsVisited` | lib/src/parser.c:1956-1963 | when the work stack is empty, every singly owned inner node on a chain from the root has been visited |
| `StackGraphs.PathsAgree` | lib/src/stack.c:138-179 | all paths between two stack nodes have the same length in bytes and the same cost |
| `StackGraphs.ProgressIsVisible` | lib/src/stack.c:124-136 | what a subtree adds to the node count is the number of nodes that users see in it, and one more for a group of an error |
| `StackReach.FreedExactly` | lib/src/stack.c:90-122 | the nodes left after a release are exactly those that the remaining handles lead to |
| `Stacks.Stack.ReleaseNode` | lib/src/stack.c:90-122 | giving up a reference frees the nodes and subtrees that only it kept alive, and keeps all counts exact |
| `Stacks.Stack.AddLink` | lib/src/stack.c:200-264 | every old link keeps an interchangeable subtree, and with it every history, subtrees included; nothing that can be read over the new link is lost unless a node below is full; a link that matches none is kept if and only if there is room, and otherwise the first match decides: the subtree of higher precedence stays, or the nodes are merged; the node's count and precedence are the largest over its links; all counts and links stay exact, and no other keys are linked |
| `StackHistories.EquivalentIsSameLabel` | lib/src/stack.c:181-198 | between nodes of the same keys, two subtrees are equivalent if and only if they have the same label |
| `StackHistories.UnmatchedIsUnread` | lib/src/stack.c:249 | what can be read over a link that matches none of a node's cannot be read below the node |
| `StackFull.ANinthAlternative` | lib/src/stack.c:249 | a graph with exact counts and two mergeable nodes, one of them full, in which the other's history is not shown by the full one and its link matches none of that one's |
| `Stacks.Stack.MergeInto` | lib/src/stack.c:228-245 | a node shows every history, subtrees included, of another with the same state, position and cost, unless a node below is full; nodes as high up are not touched |
| `Stacks.Stack.Push` | lib/src/stack.c:512-523 | the version's new node has one link to its old node, over the pushed subtree, whose share the stack takes over; its position, in bytes, rows and columns, its cost, node count and precedence add up; all links stay exact |
| `Stacks.Stack.AddVersion` | lib/src/stack.c:286-302 | another version on a node, with its own share of the node and of the last external token |
| `Stacks.Stack.RenumberVersion` | lib/src/stack.c:676-689 | one version takes the place of another; exactly what only the replaced one kept alive is freed |
| `Stacks.Stack.SwapVersions` | lib/src/stack.c:691-695 | two versions change places and all counts stay exact |
| `Stacks.Stack.CopyVersion` | lib/src/stack.c:697-706 | a second version on the same node; counts stay exact if and only if no counted lookahead is held by the copied version, and so always if that is active |
| `Stacks.ACopiedLookahead` | lib/src/stack.c:697-706 | a paused version with a counted lookahead, whose copy the count does not cover |
| `Stacks.Stack.Merge` | lib/src/stack.c:708-732 | versions merge just if their nodes agree in state, position and cost and they are active with equal scanner states; the first then shows its own histories, subtrees included, and those of the second unless a node that it leads to is full; no keys are linked that were not |
| `StackGrowth.ReadsOldLinks` | lib/src/stack.c:200-264 | every history that can be read after merging goes along links between keys that were linked before |
| `Stacks.Stack.Pause` | lib/src/stack.c:738-743 | the version takes the lookahead over from its caller |
| `Stacks.Stack.Resume` | lib/src/stack.c:757-764 | the caller gets the lookahead back |
| `Stacks.Stack.Clear` | lib/src/stack.c:766-778 | one version on the base node is left, and exactly what it leads to |
| `Stacks.Stack.Delete` | lib/src/stack.c:440-457 | no node is left and every subtree the stack held has been given up |
| `StackPops.Iterate` | lib/src/stack.c:324-419 | each slice is a different path on which the callback pops by the count of its links and whether all that counts is pending, and stops at no node before; it holds the subtrees on the path from the bottom up; every such path has a slice unless sixty-four separate paths are open at once, and every new version a slice; the old stack is not disturbed |
| `StackPops.WalkFollows` | lib/src/stack.c:394-417 | an iterator has collected the subtrees on its path, counted one for each discontinuity and each subtree that is not an extra, and is pending just if all that counts is a pending subtree |
| `StackPops.PopSubtrees` | lib/src/stack.c:534-536 | the slices are the paths whose links count just the wanted number while no beginning counts as many, each once, with the subtrees on the path from the bottom up, and all of them unless too many paths are open |
| `StackPops.PopAllSubtrees` | lib/src/stack.c:592-599 | popping everything yields the paths to nodes without links, each once, with their subtrees from the bottom up, and all of them unless too many paths are open |
| `StackPops.PopCountPaths` | lib/src/stack.c:525-532 | the count callback pops a path exactly when its links count as many as wanted and those of no shorter part of it do |
| `StackPops.SlicesOfOneVersion` | lib/src/stack.c:304-322 | slices that share a version cover the same bytes at the same cost |
| `StackRoutes.FewRoutes` | lib/src/stack.c:382-392 | if there are fewer than sixty-four ways down from a node, no pop from it is ever cut short |
| `StackPending.PendingPaths` | lib/src/stack.c:539-550 | the pending callback pops a path exactly when it goes over extras to one counted link, the last, over a subtree that was pushed as pending |
| `StackPending.PopPendingSubtrees` | lib/src/stack.c:552-559 | the slices are those paths; the version is then where the first of them leads and the versions before the new ones stay as they were; of the slices exactly the first has a version that is where its path leads |
| `StackPending.BothArePending` | lib/src/stack.c:552-559 | an exact graph in which two subtrees of the same size and cost are pending on one node, and both are popped |
| `QueryCaptures.CompareCaptures` | lib/src/query.c:3682-3737 | the loop over both lists yields the recursive comparison |
| `QueryCaptures.ComparedIsSound` | lib/src/query.c:3682-3737 | a list that the comparison calls contained is a subsequence of the other |
| `QueryCaptures.ComparedExactly` | lib/src/query.c:3682-3737 | of lists in traversal order, one is called contained in the other if and only if for every span its captures there begin the other's captures there |
| `QueryCaptures.ComparedIsComplete` | lib/src/query.c:3682-3737 | where no two captures have the same span, a contained list is called contained |
| `QueryCaptures.TwoNodesOfASpan` | lib/src/query.c:3682-3737 | a parent and its only child, both captured, and the child alone: contained, but the comparison says no |
| `QueryCaptures.TwoCapturesOfANode` | lib/src/query.c:3700-3725 | two lists, one contained in the other, for which the comparison says no |
| `CaptureLists.CaptureListPool.Acquire` | lib/src/query.c:483-505 | an empty list that was free, or a new one while the limit allows; no other list changes |
| `FinishedHeaps.FinishedStates.Heapify` | lib/src/query.c:636-645 | what has been pushed since the last time is sifted in: a heap of the same elements |
| `FinishedHeaps.FinishedStates.Pop` | lib/src/query.c:598-602 | the root is removed; a heap of the other elements is left |
| `FinishedHeaps.FinishedStates.Erase` | lib/src/query.c:605-626 | the element at any index is removed; a heap of the other elements is left |
| `FinishedHeaps.RootIsFirst` | lib/src/query.c:532-546 | no element of a heap comes before the root |
| `StableSorts.SortIsStable` | lib/src/query.c:3761-3777 | elements that rank alike keep their order |
| `QueryCursors.QueryCursor.Exec` | lib/src/query.c:3478-3525 | beginning anew frees every list and leaves nothing in progress or finished |
| `QueryCursors.QueryCursor.AddState` | lib/src/query.c:3779-3840 | a new state without captures joins right after the last state that does not start deeper, or as deep with a later pattern; if that one has the same depth, pattern and step, nothing changes |
| `QueryCursors.QueryCursor.PrepareToCapture` | lib/src/query.c:3845-3890 | a state gets an empty list of its own, from the pool or from the state with the earliest capture, which dies; every other state keeps its captures |
| `QueryCursors.QueryCursor.CopyState` | lib/src/query.c:3922-3945 | the copy follows its original and has the same captures in a list of its own; every other state keeps its captures or has died because its list was taken |
| `QueryCursors.QueryCursor.CaptureNodes` | lib/src/query.c:3892-3917 | the captures are added to the state's list, or the state dies because the pool was exhausted and it had none; every other state keeps its captures or has died because its list was taken |
| `QueryCursors.QueryCursor.MatchStep` | lib/src/query.c:4361-4424 | a state that survives has added the parent's captures, if it needed a parent, and then the node's, and moves to the next step; otherwise it is gone; other states are left alone |
| `QueryCursors.QueryCursor.SortStates` | lib/src/query.c:3761-3777 | the states are sorted by depth, pattern and first capture, stably |
| `QueryStates.SortedStates` | lib/src/query.c:3742-3759 | of two states in order the later one is no shallower, as deep not of an earlier pattern, and else, if the earlier one has captures, has some as well that do not start before |
| `QueryCursors.QueryCursor.Prune` | lib/src/query.c:4515-4629 | no dead state is left and none at its end that waits for no alternative; what finishes was at its end and waited for none; of two states left, or finished, or one left and one finished, of the same depth, pattern and step, whose captures overlap, neither makes the other redundant, and the one with fewer captures is marked as having an alternative; marks are justified; every state dropped is covered by one that stays or is finished, finished ones get the next numbers, and lists keep one owner each |
| `QueryCursors.PruningLosesNothing` | lib/src/query.c:4515-4629 | with no dead states, each state has a remaining one of the same depth, pattern and step whose captures contain its own and which is immediate only if it was |
| `QueryCursors.DoneStatesFinish` | lib/src/query.c:4606-4625 | where no state is dead or marked and none has an alternative, every state at its end finishes, or one that covers it does |
| `QueryCursors.QueryCursor.Advance` | lib/src/query.c:4030-4649 | any sequence of matching steps keeps the cursor's invariant, numbers what finishes in order, and reports a match just if one finished; after the end of a node every state left is alive and, at its end, waits for an alternative |
| `QueryCursors.QueryCursor.NextMatch` | lib/src/query.c:4651-4693 | the match returned is the one that finished first of those not returned yet, with its captures; if there was none, it finished during this call |
| `QueryCursors.QueryCursor.RemoveMatch` | lib/src/query.c:4695-4733 | the match with the id is dropped, finished or in progress, and nothing else |
| `QueryCursors.QueryCursor.PickCapture` | lib/src/query.c:4754-4848 | what is returned is the first capture, by position and pattern, of all states after the skipping of captures out of range, and just it is consumed |
| `QueryCursors.QueryCursor.NextCapture` | lib/src/query.c:4735-4871 | the returned capture comes before every capture that any other state of the cursor still has to offer, and unless there was matching in between not before the one returned last |
| `QueryCursors.ReturnedStartsFirst` | lib/src/query.c:4740-4871 | the returned capture starts before the next one of every other state, or at the same byte with a pattern that is not later |
| `QueryCursors.CapturesComeInOrder` | lib/src/query.c:4754-4848 | if each state's captures start one after the other and nothing new is found, the first capture ahead does not come before the one that was returned last |
| `Ranges.RangeArray.GetChangedRanges` | lib/src/get_changed_ranges.c:46-104 | a byte is in the output if and only if it is in exactly one of the lists; the output is ordered, not empty in any range, and separated, and its ends, rows and columns included, are ends of ranges in the lists or the sentinel |
| `Ranges.Intersects` | lib/src/get_changed_ranges.c:30-44 | stopping early agrees with looking at all ranges |
| `Lookaheads.LookupGroups` | lib/src/language.h:82-102 | scanning the groups finds the value of the first group that lists the symbol, or zero |
| `Lookaheads.Lookup` | lib/src/language.h:82-102 | the lookup finds the value in the row of a large state and in the groups of a small one |
| `Lookaheads.ListedIsFound` | lib/src/language.h:82-198 | in either encoding the entries to be listed are exactly the symbols whose lookup is not zero, each once |
| `Lookaheads.LookaheadIterator.constructor` | lib/src/language.h:118-144 | a new iterator has all the entries of its state before it |
| `Lookaheads.LookaheadIterator.Next` | lib/src/language.h:146-198 | each step takes the first remaining entry, with its value and next state; there is none exactly at the end, and then for good |
| `ReusableNodes.ReusableNode.Advance` | lib/src/reusable_node.h:39-60 | the walk goes to the next node in preorder that is not inside the one it leaves; exactly that one's leaves have been passed |
| `ReusableNodes.ReusableNode.Descend` | lib/src/reusable_node.h:62-74 | the walk goes to the first child, if there is one, passing no leaf |
| `ReusableNodes.ReusableNode.AdvancePastLeaf` | lib/src/reusable_node.h:76-79 | exactly one leaf is passed |
| `ReusableNodes.LastExternalToken` | lib/src/subtree.c:800-812 | the loop finds the rightmost leaf with external tokens |
| `VisibleNodes.RankCounts` | lib/src/subtree.c:424-442 | the rank of a place counts the visible nodes before it in preorder |
| `VisibleNodes.SummarizedIsCounted` | lib/src/subtree.c:424-442 | in a summarised tree the cached counts are the numbers of visible children and descendants |
| `VisibleNodes.SummarizedCountsNamed` | lib/src/subtree.c:424-442 | in a summarised tree the cached count of named children is the number of visible children that are named, by their alias if they have one |
| `TreeCursors.EveryEntryIsExact` | lib/src/tree_cursor.c:65-102 | each stack entry's index counts the visible nodes before it, and its position adds up all leaves before it |
| `TreeCursors.VisibleEntryIsKid` | lib/src/tree_cursor.c:23-37 | a visible entry is one of the visible children of its nearest visible ancestor |
| `TreeCursors.SiblingsOfKid` | lib/src/tree_cursor.c:316-350 | the siblings still ahead of visible child `j` are the visible children after `j` |
| `TreeCursors.TreeCursor.GotoFirstChild` | lib/src/tree_cursor.c:195-224 | the cursor goes to the first visible child; if there is none it stays |
| `TreeCursors.TreeCursor.GotoLastChild` | lib/src/tree_cursor.c:226-264 | the cursor goes to the last visible child; if there is none it stays |
| `TreeCursors.TreeCursor.GotoNextSibling` | lib/src/tree_cursor.c:316-366 | the cursor goes to the next visible child of the visible parent; if there is none it stays |
| `TreeCursors.TreeCursor.GotoParent` | lib/src/tree_cursor.c:415-424 | the cursor goes to the nearest visible ancestor; if there is none it stays |
| `TreeCursors.TreeCursor.GotoFirstChildForByteAndPoint` | lib/src/tree_cursor.c:266-306 | the cursor goes to the child that the recursive search finds, and returns its number; if there is none it stays |
| `TreeCursors.SearchIsSound` | lib/src/tree_cursor.c:266-306 | what the search finds is the first visible child that ends beyond the goal |
| `TreeCursors.SearchMisses` | lib/src/tree_cursor.c:266-306 | the search finds nothing although a visible child ends beyond the goal if and only if it enters a hidden child in which none does |
| `TreeCursors.SearchIsComplete` | lib/src/tree_cursor.c:266-306 | where no hidden node goes on after its last visible child, the search finds a child if and only if one ends beyond the goal |
| `TreeCursors.AnOverlookedChild` | lib/src/tree_cursor.c:266-306 | a summed up tree with counted nodes in which the search overlooks the second child |
| `TreeCursors.TreeCursor.GotoDescendant` | lib/src/tree_cursor.c:426-475 | the cursor goes to the visible node with just this number in preorder; past the last it stays at the root |
| `Nodes.NodeChildIterator.Next` | lib/src/node.c:80-105 | each step yields the next child at its prefix-sum position, with its alias |
| `Nodes.Child` | lib/src/node.c:139-174 | the visible child with this number in the flattened list, and none exactly from the cached count on |
| `Nodes.DescendantPosition` | lib/src/node.c:57-105 | a node found by descending starts after the leaves before it and its own padding |
| `Nodes.RelevantChild` | lib/src/node.c:108-120 | a child is relevant just if users see it and, unless they ask for all, it is named by its alias or by itself |
| `Nodes.DescendantForByteRange` | lib/src/node.c:353-397 | the node found spans the range and is relevant, or is the start; if the range is not empty, every relevant node below the start that spans it is that node or above it; if it is empty, the node is the last relevant one on the way down over the first children, in order, that go on behind the byte or stand empty at it |
| `Nodes.SmallestAtByte` | lib/src/node.c:353-397 | for an empty range without an empty node at the byte, every relevant node that starts at or before it and goes on behind it is the node found or above it |

## Left out

- Query parsing, the step linker and query analysis: the patterns that come out of them are parameters.
- The lexer, external scanners, progress callbacks and parse tables' contents: functions of the model's parameters.
- `ts_parser__advance`, error recovery and `ts_parser__condense_stack`: only the stack, pool and balancing operations they use.
- Wasm, allocators, logging, DOT graphs, string output, the Rust, web and command-line layers.
- Fragile flags, the keyword flag, `has_external_scanner_state_change` and external scanner state bytes; equality of scanner states is a parameter of the stack.
- Unsigned overflow and bit-field widths, such as the twelve bits of `consumed_capture_count`.
- `ts_subtree_compare`, `ts_subtree_set_symbol`, missing leaves and error leaves: they add no state of their own.
- `ts_stack_pop_error` and `ts_stack_record_summary`: their callbacks have a state of their own.
- `ts_tree_cursor_goto_previous_sibling`, field names and depths: the iterator of the first does not restore the descendant index.
- `ts_node` siblings, fields and named children, which share the loops of those modelled.
- `ts_subtree_get_changed_ranges`, which compares two trees with included ranges; only the sweep over two lists is modelled.
- Stacks.Stack.AddLink: a missing subtree's precedence counts as zero, where the code would read through a null pointer.
- Stacks.Stack.MergeInto: says what is kept only where no node below is full, because a full node drops what does not match.
- Stacks.Stack.Push: requires that `level` goes down to the node below, because the code does not exclude cycles by itself.
- StackPops.Iterate: takes callbacks without a state of their own, so pops with one are not covered.
- QueryCursors.QueryCursor.Advance: takes the matching steps as a script, because how nodes match is up to the patterns.
- QueryCursors.QueryCursor.NextCapture: does not say that all captures of a match are returned, because states may be dropped when the pool is exhausted.
- Nodes.Child: covers the lookup with anonymous nodes only.
- Nodes.SmallestAtByte: excludes empty nodes at the byte, at which the code itself stops early; the row above it says which node is found then.
- EditColumns.ColumnsAreMarked: speaks of one node and its children, in the node's own coordinates, in which the code compares columns.
- ParserBalancing.Parser.CompressNode: says that the excess is one of heights only if depths were true when balancing began, because balancing a node does not bring the depth of its parent up to date, and a later parse may reuse that.
- Compressing.Compress: leaves open the column dependency of the cells it summarises again, which their parents do not use.
