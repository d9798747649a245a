# treedb, verified

A model in Dafny of the data structures of treedb and of what its map operations do to them, with proofs of
the properties that the program relies on.

treedb keeps *maps*. A map is one tree of *branches*, which any number of *views* show in part: a view has
*vbranches* for some branches, and its client shows behind each of them how many branches are hidden there.
Every insertion, move or deletion changes the tree, has to be followed by every view, is announced to their
clients, and is patched into the *head file*, from which the tree is read when the map is opened. Branches,
views and vbranches are looked up in red-black tables, and the program brings a doubly linked list with a
cursor and a sort of its own.

`dafny verify dfyconfig.toml` checks everything.

## Layout

- `RbTree`, `RbOrder`, `RbMemory`, `RbTable`, `RbTraverser`, `RbMap`: the red-black table of `src/lib/rb.c`. A
  `Table` is a heap of nodes with a ghost tree; the stacks `pa` and `da` are sequences that hold a path in it,
  and each loop keeps a tree that is red-black but for one defect at the end of that path.
- `Forest`, `BranchTree`: the branch tree. A branch pointer is a key of the map `branches`; the ghost map `chain`
  gives for each branch the way up to its root, which is what makes the tree acyclic.
- `Overlay`, `Reveal`, `Views`, `Expansion`, `Repair`, `Cloning`: what views show. An overlay maps the branches that a
  view shows to their vbranches; `viewers` holds for every branch the list of the views that have a vbranch there.
- `Sight`, `MapSteps`, `Deletion`, `Counting`: what one step does to every overlay, which messages it sends, and
  that the counts in them are right.
- `Telling`, `Ordering`, `Laws`: that the messages are true and complete, and that branches and vbranches are put where
  they belong, without the functions that define a step.
- `HeadFile`, `HeadWriter`, `HeadLoader`: the head file as a sequence of records.
- `Texts`, `PathNames`, `PathSteps`: comparing texts, printing and reading ids, and paths of names.
- `TreeMap`, `MapRuns`, `Findings`: the operations of a map, whole runs of them, and short runs after which an
  invariant no longer holds.
- `LinkCells`, `ListOrder`, `ListSift`, `LinkedList`, `ListRuns`, `ListFindings`: the linked list. `ListSift` says
  what the quicksort makes of entries and values, and `LinkedList` does it with links.

A `TreeMap` is `Sound()` when its tree is one tree with true counters, its index holds exactly the branches, and
its head file is the image of the tree; it is `Valid()` when, in addition, every view shows a valid overlay: the
root is shown, each vbranch hangs below the vbranch of the parent of its branch, and its children are none or
one for every child of its branch.

## Model

| member | source | states |
|---|---|---|
| `RbTable.Table.Find` | src/lib/rb.c:63-82 | the item found is the stored one that compares equal; none exactly if no stored item does |
| `RbTable.Table.Probe` | src/lib/rb.c:88-199 | keeps search order, colours, equal black heights and the count; the new node stands at its rank in the order of the nodes, or nothing changes and the node of the equal item is returned; every push fits the 48 slots of the stacks |
| `RbTable.Table.FixInsert` | src/lib/rb.c:124-195 | a tree that is red-black but for one red node below a red one becomes red-black, with the same nodes in the same order |
| `RbTable.Table.Replace` | src/lib/rb.c:216-228 | the items are the old ones with the new item in the place of an equal one, or at its rank; the answer is the item that was replaced, and null if that was the same item |
| `RbTable.Table.Unlink` | src/lib/rb.c:260-305 | whichever node takes the place of the deleted one, the other nodes keep their order and the tree is red-black but for one lost black below the path that the stacks hold |
| `RbTable.Table.FixDelete` | src/lib/rb.c:307-422 | a tree that lacks one black below a path becomes red-black, with the same nodes in the same order; the push for a red sibling fits the stacks |
| `RbTable.Table.Delete` | src/lib/rb.c:232-428 | the nodes are the old ones without the one that carried the match, none of them copied, and the table is a red-black search tree with a count that is one less; without a match nothing changes |
| `RbTable.Table.Destroy` | src/lib/rb.c:860-883 | ends for every tree and hands out each item once, in ascending order |
| `RbTable.Table.TakeApart` | src/lib/rb.c:867-880 | the loop ends by the measure (nodes left, nodes on the left of the root), and rotating does not change the order of what is still to be handed out |
| `RbTree.HeightBound` | src/lib/rb.h:54 | a red-black tree of black height h has at least 2^h - 1 nodes, and its height is at most 2h, or 2h + 1 below a red root |
| `RbTree.Shallow` | src/lib/rb.h:54 | a red-black tree with a black root and fewer than 2^h - 1 nodes has a height of at most 2h - 2, so that with fewer than 2^24 - 1 items 48 slots are enough |
| `RbTree.RecolorStep` | src/lib/rb.c:129-134 | recolouring moves a red-red edge two levels up, and changes nothing else that the invariants speak of |
| `RbTree.RotateStep` | src/lib/rb.c:135-158 | either rotation removes the red-red edge and keeps the in-order sequence |
| `RbTree.SiblingStep` | src/lib/rb.c:324-339 | a red sibling is rotated away without a change of the order or of the one lost black |
| `RbTree.LightenStep` | src/lib/rb.c:341-345 | a black sibling with black children passes the lost black on to the level above |
| `RbTree.PivotStep` | src/lib/rb.c:346-367 | with a red nephew the rotation, single or double, makes up for the lost black |
| `RbOrder.FoundIff` | src/lib/rb.c:63-82 | in a strictly ascending sequence an item is found exactly if it is a member that compares equal |
| `RbTraverser.Traverser.Extreme` | src/lib/rb.c:472-521 | selects the first or the last node of the in-order sequence |
| `RbTraverser.Traverser.Insert` | src/lib/rb.c:567-589 | adds the item unless an equal one is there, and stands on the node at its rank |
| `RbTraverser.Traverser.Refresh` | src/lib/rb.c:432-456 | the stack that is built anew is the path to the current node of the tree as it is now |
| `RbTraverser.Traverser.Step` | src/lib/rb.c:616-717 | the neighbour, in the in-order sequence of the table as it is now, of the node that the traverser stood on; from the null node the first or the last |
| `RbTraverser.StepAfter` | src/lib/rb.c:432-456 | after any insertions, and any deletions of other items, the next step goes to the neighbour in the changed table of the item that the traverser stood on |
| `RbTraverser.Traverse` | src/lib/rb.c:616-664 | stepping from the null node until null returns visits every item once, in ascending order |
| `RbMap.Perform` | src/lib/rb.c:63-428 | one replace, delete or find answers as a map from keys to items does and leaves the items of the updated map, for any keys that are equal when the comparison says 0 |
| `RbMap.Run` | src/lib/rb.c:63-428 | so does every sequence of them |
| `RbMap.DeletedIsRemoval` | src/lib/rb.c:232-428 | cutting the match out of the ascending sequence is removing its key from the map |
| `RbMap.ReplacedIsUpdate` | src/lib/rb.c:216-228 | replacing in the ascending sequence is updating the map at the key |
| `BranchTree.BranchTree.Add` | src/branch.c:65-98 | the branch stands at the position that was asked for if the list is that long, and else at its end, and the others are the old list in its order; parent and child links stay mutual, no child is listed twice, the ways up stay finite, and all counters are the true numbers of branches below |
| `BranchTree.BranchTree.Detach` | src/branch.c:101-135 | the branch is out of the list in which it was, the others keep their order, and it is the root of a tree of its own; links, ways up and counters as for Add |
| `Forest.ClampPlaced` | src/branch.c:76-88 | for a list l and any position pos: if 0 <= pos <= length of l the entry is at pos, and otherwise last; without it the list is l |
| `Forest.DetachedPlace` | src/branch.c:101-135 | in terms of the list before and after: it had the branch at one index, and is the same without that entry |
| `BranchTree.BranchTree.GetPos` | src/branch.c:148-165 | the first position in the child list of the parent, -1 if there is none |
| `BranchTree.BranchTree.Increase` | src/branch.c:225-232 | exactly the counters of the branches above change |
| `BranchTree.BranchTree.Calculate` | src/branch.c:234-244 | every branch under the given one has been counted once by each branch above it |
| `BranchTree.GainedFromZero` | src/branch.c:234-244 | counting from zero from the root gives every branch the exact number of branches below it |
| `Forest.DetachedTrees` | src/branch.c:101-135 | detaching keeps the links, the ways up and the counts of all branches |
| `Forest.AttachedTrees` | src/branch.c:65-98 | attaching a tree to a branch outside of it keeps them as well |
| `Forest.Acyclic` | src/map.c:461-471 | no branch lies above its own parent |
| `Overlay.SeenTogether` | src/map.c:1824-1857 | siblings are seen together: a child is visible exactly if its parent shows children |
| `Overlay.RevealedValid` | src/view.c:253-387 | showing the way to a branch, from any valid overlay, gives a valid one in which the branch is visible |
| `Overlay.RevealedKeeps` | src/view.c:253-387 | every vbranch is kept, and a branch that had to be opened lists all of its children in the order of the tree |
| `Reveal.RevealedOpens` | src/view.c:270-341 | the definition from the top down opens the branches on the way up to the first visible one, and no other |
| `Reveal.PendingDone` | src/view.c:321-334 | what the loop has built from the bottom up, hung below the first visible branch, is what the definition from the top down shows |
| `Views.Views.RevealPath` | src/view.c:270-341 | the loop ends at the deepest branch on the way that was visible, with all missing levels shown and each vbranch listed once at its branch |
| `Views.Views.ExpandTo` | src/view.c:253-387 | shows the way and, if asked, the children, returns the deepest branch on the way that was visible before (null for the root), and leaves each view listed once at each branch exactly if it did not have to show the children of an open branch |
| `Views.Views.NewVBranch` | src/branch.c:167-191 | the lists of vbranches stay free of doubles exactly if the view did not show the branch before |
| `Views.Views.DetachVBranch` | src/branch.c:194-223 | the view is no longer listed at the branch, and all other listings stay |
| `Views.Views.Detach` | src/vbranch.c:96-124 | the vbranch is out of the child list of its parent, and still listed at its branch |
| `Views.Views.Add` | src/vbranch.c:59-94 | the vbranch stands in the child list at the index that its branch has among the given siblings, at the end if that list is shorter, and the others keep their order |
| `Views.Views.Sees` | src/view.c:270-281 | the search loop finds a vbranch exactly if the view shows the branch |
| `Views.Views.FindEndpoint` | src/map.c:571-590 | the climb finds the deepest visible branch above, or none |
| `Sight.DeepestFirst` | src/map.c:571-590 | the deepest visible branch of a way up is the one that is visible with none before it visible, and no other |
| `Views.Views.MoveView` | src/map.c:499-781 | for one view, in all four cases of what it sees of source and destination: the overlay and the messages that MoveSeen and MoveNotices define |
| `Telling.MoveTells` | src/map.c:499-781 | what a move tells any view but the asking one is true and complete: each insertion below another branch names a branch that was not visible, each move one that was, with the id of its new parent, which the view shows, and its new place; all that has come into sight lies at or below an inserted branch, a visible branch with another parent has been moved by a notice, and that notice comes only when the children of the destination are known to the client |
| `Ordering.MoveInPlace` | src/vbranch.c:59-124 | where a view puts the branch: in the list of the destination at the index that the branch had below its old parent, or at the end of a shorter list, and out of any list in which it was; all other lists are as they were |
| `Ordering.MoveOrdered` | src/vbranch.c:68-68 | the lists of a view were in the order of the tree: they are so after the move exactly if the view is not the asker of MoveSeenValid, and does not show the branch at an index other than that of the branch |
| `Views.Views.MoveAll` | src/map.c:499-781 | every view has followed, each once; the loop keeps those that have followed apart from those that are as they were |
| `Views.Views.DeleteAll` | src/map.c:816-890 | every view has taken its vbranch of the branch out and has been told, the asking one apart |
| `Views.Views.InsertShown` | src/map.c:192-228 | exactly the views that show the parent open, and the asking one, have got a vbranch for the new branch |
| `Views.Views.InsertCounted` | src/map.c:231-299 | exactly the others are told to count one more at the deepest visible branch |
| `Sight.MoveSeenValid` | src/map.c:499-781 | the overlay of one view is valid for the new tree exactly if it is not that of an asker who sees the destination open but not the branch |
| `Sight.InsertSeenValid` | src/map.c:132-228 | the overlay of one view is valid after an insertion exactly if it is not that of an asker who shows the parent closed over children |
| `Overlay.PrunedShown` | src/map.c:816-845 | the overlay of one view is valid after a branch without children is gone |
| `Sight.MoveCounts` | src/map.c:565-616 | what a move announces to a view about a visible branch is by how much the number of branches hidden behind it changes, unless the move opens that branch |
| `Sight.InsertCounts` | src/map.c:230-299 | the same of an insertion, for every visible branch |
| `Sight.DeleteCounts` | src/map.c:846-889 | the same of a deletion |
| `Telling.InsertTells` | src/map.c:132-299 | what an insertion tells any view but the asking one is true and complete, in the sense of MoveTells: a view that shows the new branch is told its id, its parent and its place, and the asking one of the branches that had to be opened |
| `Telling.DeleteTells` | src/map.c:816-890 | the same of a deletion of a branch without children |
| `Telling.DeletionIsTold` | src/map.c:816-845 | the only deletion that a view is told of is that of the branch, and the views that are told are exactly those that showed it, without the asking one; for any number of children |
| `Telling.ExpandTells` | src/map.c:1212-1230 | what an expansion tells is true and complete exactly if it does not open the root over children |
| `Ordering.InsertInPlace` | src/vbranch.c:59-94 | every list of children that showed those of the parent in the order of the tree does so after an insertion; from any other list, the new vbranch is at the index that the branch has, or last, and the others keep their order; lists of other branches do not change |
| `Ordering.InsertOrdered` | src/map.c:132-228 | the lists of a view were in the order of the tree: they are so after an insertion exactly if it is not the asker of InsertSeenValid |
| `Ordering.DeleteOrdered` | src/map.c:816-845 | lists in the order of the tree stay so when a branch without children is gone |
| `Ordering.WidenedOrdered` | src/view.c:146-230 | completing lists leaves those in order that were so |
| `Expansion.Expand` | src/view.c:146-196 | from any partial list of children the vbranch lists all of them in the order of the tree, those that it had are kept, and each new one is listed once at its branch |
| `Expansion.ViewExpand` | src/view.c:198-230 | from any overlay whose lists are parts of those of the tree: exactly the branches down to 3 - level levels below are shown in addition, all lists fewer than that many levels down are complete, complete lists stay as they are, lists that are newly complete are in the order of the tree, all other lists stay partial, and a valid overlay stays valid |
| `Expansion.WithinFull` | src/view.c:222-227 | what is shown down to a level is complete above it |
| `Expansion.RightLength` | src/view.c:210-211 | a list of the right length is complete, and no other is |
| `Expansion.ValidIsPartial` | src/map.c:1824-1857 | an overlay is valid exactly if its lists are parts of those of the tree, and each of them is empty or complete |
| `Expansion.WidenedValid` | src/view.c:198-230 | if one list only was neither empty nor complete, completing it makes the overlay valid |
| `Cloning.CloneView` | src/view.c:77-122 | the new view has the overlay of the old one, vbranch for vbranch |
| `Cloning.DestroyView` | src/view.c:124-144 | the view is gone, other views are as they were, and no list of a branch names it |
| `HeadFile.ImageUnique` | src/io.c:36-58 | there is one file only that is up to date with a tree, slot for slot |
| `HeadFile.MovedClean` | src/io.c:162-172 | after a move, within one list in either direction or between two, only the records that are rewritten are out of date |
| `HeadFile.GrownClean` | src/io.c:181-190 | the same after an insertion |
| `HeadFile.CutClean` | src/io.c:174-179 | the same after a deletion, for any position from which on the siblings are rewritten that is not behind that of the branch |
| `Deletion.CutReady` | src/map.c:916-925 | the 8 bits that are kept of the old position are such a position |
| `HeadWriter.HeadWriter.SaveHead` | src/io.c:60-83 | the record of the branch is up to date, and no other record has changed |
| `HeadWriter.HeadWriter.ChildsReordered` | src/io.c:153-160 | the records of the children from the position on are up to date |
| `HeadWriter.HeadWriter.BranchMoved` | src/io.c:162-172 | the file is the image of the tree again, if no other records than those of a move were out of date |
| `HeadWriter.HeadWriter.BranchNew` | src/io.c:181-190 | the file has one record more and is the image of the tree |
| `HeadWriter.HeadWriter.BranchDeleted` | src/io.c:174-179 | the records of the branch, its parent and the siblings from the position on are up to date, and the others are as they were |
| `HeadWriter.HeadWriter.WalkSave` | src/io.c:11-34 | exactly the records of the branches under the given one are filled in |
| `HeadWriter.HeadWriter.Resave` | src/io.c:36-58 | the walk from the root writes the image of the tree |
| `HeadLoader.Load` | src/io.c:192-279 | the image of any tree with ids of their own, other than 0, is read back as that tree with its child order, whatever the order of the slots, with nothing left of what fresh memory held |
| `HeadLoader.Reload` | src/map.c:1683-1691 | with the counters computed from zero it is the stored tree with the counters that it had |
| `TreeMap.TreeMap.constructor` | src/map.c:1705-1765 | an empty map meets all invariants |
| `TreeMap.TreeMap.IsAbove` | src/map.c:461-469 | the climb finds the branch exactly if it lies on the way up |
| `TreeMap.TreeMap.Move` | src/map.c:437-792 | tree, index, file and counters stay sound; made exactly if the branch is where the caller says and not above the destination; the branch is then at the position that was asked for, or last, and no other has changed its parent or its place among its siblings; all overlays stay valid exactly if the asker is not in the case that the code leaves out, and in the order of the tree exactly if, in addition, no view shows the branch at another index; every view is told what is true and all that is new, and all announced counts are right; a refusal changes nothing and tells the asker the true place |
| `TreeMap.TreeMap.Insert` | src/map.c:117-302 | the same of an insertion, which is refused exactly if the id is taken or the parent unknown; the new branch has the next slot, and every view that shows it has it at its place among its siblings, by InsertInPlace |
| `Laws.MovedPlaces` | src/map.c:783-787 | after a move the branch is at the position below the destination that was asked for, or last; its old siblings are the same without it, and no other branch has changed its parent, its id or its children |
| `Laws.RefusalIsTold` | src/map.c:474-493 | the one notice after a refused move names the branch, its parent and the index at which that parent lists it |
| `Repair.MoveAllPartial` | src/map.c:499-781 | after a move, in every case, all overlays are partial at most: only the asker can have a list that is neither empty nor complete, and only that of the destination |
| `Repair.InsertAllPartial` | src/map.c:132-228 | the same after an insertion, for the list of the parent |
| `TreeMap.TreeMap.Delete` | src/map.c:794-929 | every second child is moved to the root, one after the other, each as by a move, and then the branch is removed: for any number of children, what all views show and are told of each of these steps, and that the deletion is told to exactly the views that showed the branch; the map stays sound, and its overlays valid, exactly if there is at most one child, with right counts over both steps then; the children that are left over are indexed, out of reach of the root, and stored with a parent that the file does not hold |
| `Deletion.SkippedOdd` | src/map.c:802-807 | the loop leaves over the children at odd positions, as its index advances while the list gets shorter |
| `Deletion.SkippedNone` | src/map.c:802-807 | none is left over exactly if there is at most one child |
| `Texts.Agree` | src/map.c:329-329 | the loop over two texts, as far as they agree, says whether they have equal lengths and, at every index, the same character or the two forms of one of the 26 letters |
| `Texts.SameTextLetters` | src/map.c:329-329 | the same said of the comparison of lower-case forms |
| `TreeMap.TreeMap.FindChild` | src/map.c:325-333 | a child is found exactly if one has such a text, and it is the first of them in the list |
| `PathNames.ChildIsEarliest` | src/map.c:325-333 | so for the definition that speaks of paths |
| `Texts.ReadId` | src/helpers.c:12-48 | reading the digits two by two gives the number that they stand for, 0 if there are not sixteen or one of them is no digit |
| `Texts.HexRead` | src/helpers.c:12-48 | a number printed with as many digits as it may need is read back, behind any digits that come before it |
| `PathNames.GeneratedIdRead` | src/map.c:335-337 | the id that is made is what is read from the eight digits of 1 and the eight digits of the number of slots, as long as that is below 2^32 |
| `TreeMap.TreeMap.InsertPath` | src/map.c:311-345 | uses the longest part of the path that is there, each name by the first child whose text agrees, and makes the rest, one slot for each name, each as by an insertion that all views follow; changes nothing if all of it is there; succeeds exactly if the ids that are made for the missing names are free; after a success the names lead to the branch that was returned exactly if none of the new ones had to be cut; branches are only added, behind those that are there |
| `TreeMap.TreeMap.AppendNamed` | src/map.c:334-339 | the new branch is the last child; its id is read from the printed number of slots, which has grown by one then, so that no id is made twice; refused exactly if that id is taken |
| `PathNames.ReachedMore` | src/map.c:322-341 | one more name: the names lead to the new branch, or stay stuck where a name had to be cut |
| `PathNames.IdsFreeMore` | src/map.c:335-337 | an id is taken when its turn comes exactly if it was taken before the first one was made |
| `MapRuns.InsertPathTwice` | src/map.c:311-345 | a second call with the same names, none of which has to be cut, returns the same branch and changes nothing |
| `TreeMap.TreeMap.CreateView` | src/map.c:65-77 | the new view shows the root alone, and all other views are as they were |
| `TreeMap.TreeMap.ExpandTo` | src/map.c:1202-1231 | the map stays valid exactly if the branch did not show its children; the view is told of the deepest branch that was visible before, which is all that it has to know, and of nothing if the branch is the root; lists in the order of the tree stay so |
| `TreeMap.TreeMap.Unfold` | src/map.c:1234-1261 | the list of a branch that is shown is completed, whatever part of it was there, and the view is told all that has come into sight; nothing changes if it was complete or the branch is not shown; the map is valid afterwards if no other list was partial; lists in the order of the tree stay so |
| `TreeMap.TreeMap.CloneView` | src/view.c:117-122 | keeps the map valid; the new view shows what the old one shows |
| `TreeMap.TreeMap.DestroyView` | src/map.c:1160-1163 | keeps the map valid; the view is listed nowhere |
| `TreeMap.TreeMap.Resave` | src/io.c:36-58 | writing the whole file anew changes no record |
| `TreeMap.TreeMap.Reload` | src/map.c:1683-1691 | reading the file of a valid map gives its tree, with ids, slots, parents, child order and counters |
| `MapRuns.Perform` | src/map.c:117-929 | one request takes the map from its state to one that stands in the relation Stepped to it, with the answer of the operation |
| `MapRuns.Run` | src/map.c:117-929 | a run of requests outside of the cases under Findings: each of them does and answers what its operation should, from state to state, places branches and vbranches by the laws of its operation, and tells the views what is true and all that is new; in each state there is one acyclic tree with true counters below the root, an index of exactly its branches, distinct slots below the number of slots, an up to date file, and a valid overlay in every view; it stops at the first request that is one of these cases |
| `MapRuns.Life` | src/io.c:11-83 | such a run from the empty map, after which the file that was patched step by step equals the file of a full walk, and reads back as the tree |
| `Findings.InsertBelowClosed` | src/map.c:145-206 | a run after which an overlay is not valid: a view inserts below a branch that it shows closed over a child |
| `Findings.MoveFromOutOfSight` | src/map.c:565-565 | a run after which an overlay is not valid: a view moves a branch that it does not show to one that it shows open |
| `Findings.MoveAmongSiblings` | src/vbranch.c:68-68 | a run after which a valid overlay lists children in another order than the tree: a visible branch is moved from one end of its siblings to the other |
| `Findings.DeleteWithTwoChildren` | src/map.c:802-807 | a run after which the map is not sound: a branch with two children is deleted |
| `Findings.ExpandOpen` | src/view.c:348-382 | a run after which a view is listed twice at a branch: an open branch is expanded |
| `Findings.InsertLongName` | src/map.c:177-177 | a run after which a path that was inserted is not there: its name has 5001 characters |
| `Findings.ExpandVisible` | src/view.c:329-330 | a run in which nothing has to be expanded and a vbranch is returned: the way to a visible child of the root is asked for |
| `Findings.ExpandClosedRoot` | src/map.c:1212-1214 | a run in which a view comes to show more and is told nothing: its closed root is expanded |
| `Findings.AnswerWhen` | src/view.c:250-252 | null is returned if nothing was expanded, and only then, exactly if the branch is not the root and something has to be expanded, or it is the root and nothing has to be |
| `Findings.UnfoldAfterInsert` | src/map.c:1240-1241 | after the run of InsertBelowClosed the view unfolds the branch, and the map is valid again |
| `Findings.UnfoldAfterMove` | src/map.c:1240-1241 | the same after the run of MoveFromOutOfSight |
| `ListFindings.RemoveOnlyEntry` | src/lib/linklist.c:549-552 | a run after which the tail of an empty list is not null: its only entry is removed by remove_entry |
| `ListFindings.SortAfterInsert` | src/lib/linklist.c:380-391 | a run in which a sort fails: an entry was inserted between two others, and becomes a pivot whose links change |
| `LinkedList.LinkedList.PickEntry` | src/lib/linklist.c:399-450 | the entry at the index, whether the walk starts at the head, the tail or the cursor, which then stands there; null beyond the end |
| `LinkedList.LinkedList.PushEntry` | src/lib/linklist.c:259-282 | the entry is the last one, all links are right and the cursor is the entry at its position |
| `LinkedList.LinkedList.UnshiftEntry` | src/lib/linklist.c:320-345 | the entry is the first one, and the cursor has moved along |
| `LinkedList.LinkedList.PopEntry` | src/lib/linklist.c:228-254 | the last entry is out, and the cursor is not on it |
| `LinkedList.LinkedList.ShiftEntry` | src/lib/linklist.c:288-314 | the first entry is out, and the cursor has moved along |
| `LinkedList.LinkedList.RemoveEntry` | src/lib/linklist.c:539-575 | the entry at the index is out; head, tail, links and cursor are right exactly if it was not the only entry |
| `LinkedList.LinkedList.FetchEntry` | src/lib/linklist.c:456-467 | the entry at the index is out, for every index and every list; null beyond the end |
| `LinkedList.LinkedList.InsertEntry` | src/lib/linklist.c:350-394 | the entry is at the index, behind as many empty entries as it takes to get there; if it went between two others it does not name its list, and otherwise all entries name it if they did before |
| `LinkedList.LinkedList.MoveEntry` | src/lib/linklist.c:469-489 | taking out and putting in again, with the padding of an insertion; false exactly if there is no such entry |
| `LinkedList.LinkedList.SwapValues` | src/lib/linklist.c:492-516 | two positions in range have exchanged their values, and nothing else has changed |
| `LinkedList.SwapSteps` | src/lib/linklist.c:492-516 | two moves, the later one to the place of the earlier one and back, exchange two values |
| `LinkedList.LinkedList.PutValue` | src/lib/linklist.c:705-719 | replaces the value in range and inserts beyond; answers the old value |
| `LinkedList.PutAtIndex` | src/lib/linklist.c:350-394 | putting a value into a sequence by an insertion: it is at the index, behind empty ones if the sequence was shorter, and without it the sequence is the old one |
| `ListRuns.Perform` | src/lib/linklist.c:608-740 | one value operation does to the list, and answers, what it does to a sequence, wherever the cursor stands |
| `ListRuns.Run` | src/lib/linklist.c:608-740 | so does every sequence of them |
| `LinkedList.LinkedList.MoveBefore` | src/lib/linklist.c:1086-1113 | relinking takes the entry to just before the pivot, with head and tail of the list right, also where the two are neighbours; of all entries only the pivot has to name the list |
| `LinkedList.LinkedList.MoveAfter` | src/lib/linklist.c:1119-1146 | the same to just after the pivot |
| `LinkedList.LinkedList.Partition` | src/lib/linklist.c:1072-1160 | ends, as the two ends of the part that is left come closer in each turn; entries, values and links are what Sift makes of them, or the program fails exactly where Sift says so |
| `LinkedList.LinkedList.QuickSort` | src/lib/linklist.c:1057-1184 | ends, as the ranges get shorter; entries, values and links are what Quick makes of them, or the program fails exactly where Quick says so |
| `LinkedList.LinkedList.Sort` | src/lib/linklist.c:1186-1195 | for every comparator that orders values, and whatever entries name the list: the sort fails exactly if a pivot whose links are to be changed does not name the list, and never if all entries name it; otherwise the list is linked from head to tail, holds the same values with the same multiplicities, and each compares as not less than all later ones |
| `ListSift.SiftWhen` | src/lib/linklist.c:1075-1160 | a partition goes through exactly if its pivot names the list, or as many values before the pivot belong behind it as values behind it belong before it |
| `ListSift.SiftSplits` | src/lib/linklist.c:1072-1160 | the values of the range have changed places, none before the pivot is below it and none after it above; nothing outside of the range has changed |
| `ListSift.QuickSorts` | src/lib/linklist.c:1057-1184 | the range is in descending order, its values are the same, and nothing outside of it has changed |
| `ListSift.WholeNamed` | src/lib/linklist.c:1186-1195 | a list all of whose entries name it can be sorted, and they still name it then |
| `ListOrder.SwapStep` | src/lib/linklist.c:1151-1158 | a swap of two values takes both to their side of the pivot |
| `ListOrder.DownStep` | src/lib/linklist.c:1086-1117 | moving a value to before the pivot keeps both sides |
| `ListOrder.UpStep` | src/lib/linklist.c:1119-1149 | moving a value to after the pivot keeps both sides |
| `ListOrder.PartsSorted` | src/lib/linklist.c:1180-1183 | sorting one part and then the other sorts the whole |

## Findings

What the program or its comments promise, but the code does not keep. The input is a run that shows it; the
member in brackets proves the exact condition under which the promise is kept.

| where | as written | input | intended | confidence |
|---|---|---|---|---|
| src/map.c:145 | an asking view that shows the parent closed over children gets a vbranch for the new child alone | `Findings.InsertBelowClosed` | every overlay stays valid; so it is exactly if the asking view does not show the parent without the children that it has (`TreeMap.TreeMap.Insert`) | proved |
| src/map.c:565 | nothing is done for an asking view that sees the destination open but not the branch | `Findings.MoveFromOutOfSight` | every overlay stays valid; so it is exactly if the asking view shows the branch, or no children of the destination (`TreeMap.TreeMap.Move`) | proved |
| src/vbranch.c:68 | the vbranch is put at the index that the branch has below its old parent, as the branch itself is moved afterwards (src/map.c:783-787) | `Findings.MoveAmongSiblings` | a view lists children in the order of the tree; so it does exactly if no view that shows the branch afterwards has put it at another index than the tree, and the asker is not the one of src/map.c:565 (`Ordering.MoveOrdered`, `TreeMap.TreeMap.Move`) | proved |
| src/map.c:804 | the index advances while the list of children gets shorter, so that every second one stays | `Findings.DeleteWithTwoChildren` | all children go to the root; so they do exactly if there is at most one (`TreeMap.TreeMap.Delete`) | proved |
| src/map.c:1212 | the children of an open branch are made a second time | `Findings.ExpandOpen` | a view has one vbranch for a branch; so it is exactly if the branch does not show its children (`TreeMap.TreeMap.ExpandTo`) | proved |
| src/view.c:329 | the vbranch that was found is returned when nothing had to be expanded | `Findings.ExpandVisible` | null if nothing was expanded, and only then, by the comment at src/view.c:250-252; so it is exactly if the branch is not the root and is hidden, or closed over children that are asked for, or if it is the root and is not (`Findings.AnswerWhen`) | proved |
| src/map.c:1214 | a closed root is opened, null is returned, and the view is told nothing | `Findings.ExpandClosedRoot` | a view is told of what it shows in addition; so it is exactly if the branch is not the root, or has no children (`TreeMap.TreeMap.ExpandTo`) | proved |
| src/map.c:177 | the text is cut to 5000 characters, and the whole name is looked for | `Findings.InsertLongName` | a path that has been inserted is there; so it is exactly if no new name is longer (`TreeMap.TreeMap.InsertPath`) | proved |
| src/lib/linklist.c:549 | the tail is not reset with the head | `ListFindings.RemoveOnlyEntry` | the list stays linked; so it is exactly if the entry is not the only one (`LinkedList.LinkedList.RemoveEntry`). No caller in the program passes the only entry: fetch_entry sends position 0 to shift_entry (src/lib/linklist.c:460-461), so that `LinkedList.LinkedList.FetchEntry` holds for every list, and destroy_entry gets here only with an entry that still names its list (src/lib/linklist.c:213-218) | proved |
| src/lib/linklist.c:383 | an entry that goes between two others does not get to know its list, which the sort reads | `ListFindings.SortAfterInsert` | every list can be sorted; so it can exactly if no partition has a pivot that does not name the list and unequal numbers of values to exchange (`LinkedList.LinkedList.Sort`, `ListSift.SiftWhen`) | proved |

## Left out

- A vbranch is known by its view and its branch. Where the program makes a second vbranch for a branch, the list
  at the branch shows it, and the overlay names the newer one.
- Child lists are shorter than 65535 entries before an addition, as `child_n` has 16 bits (`src/branch.h:37`); a
  file has fewer than 2^32 bytes; tables have fewer than 2^24 - 1 items, beyond which the fixed stacks are too
  short; lists have fewer than 2^31 entries, beyond which the distance to the cursor is cut to an int.
- The generation counter of a table does not wrap around.
- `vbranch_index`: a deletion leaves its entry (`src/map.c:836`), so that it is no mirror of the overlay; lookups
  by it are modelled by what the view shows.
- The number of slots does not wrap around: ids that are made from 2^32 or more slots go on counting.
- The state in which a sort that fails leaves the list, and the ends of another list that an entry might name.
- `list_foreach_value`, which removes entries without regard to the cursor (`src/lib/linklist.c:752-770`), and the
  wrappers for tagged values.
- The callback of `rb_destroy` on null items, and `rb_copy`.
- Memory: allocation succeeds, and freed objects are not used again.
- JSON, SQLite, Redis, the queues between threads, timestamps, marks and the flag `visible`. Messages are values
  with the ids that they name; the text of a branch is a string that the loader is given.
- `rqueue.c`, `queue.c`, `refcnt.c`: lock-free code that depends on memory reclamation.
- `map_init_view` as a whole: which branches a new view shows first depends on searches; its parts are modelled.
- XML import, directories, printing, and the helpers for hexadecimal and UTF-8 except for cutting a text.
