# Balanced trees, pthread protocols and small algorithms, verified

The repository is a collection of small C and C++ programs. This project models
the fourteen whose correctness is not plain from reading them, and proves what
they are for: structures changed in place, concurrent protocols, and algorithms
whose specification is much harder than their code.

- **2-3 tree** (`TwoThree*.dfy`). `CTree` on `CNode` objects with parent links:
  insertion with splits up to the root, deletion with its 19 numbered cases,
  search, the three stateless iterators behind `print`, and `removeAll`. A ghost
  tree names the node that carries each of its parts; what a method does to the
  nodes is stated as a function on that tree, and the functions are proved to
  keep the keys in order and the shape.
- **Red-black tree** (`RedBlack*.dfy`). Insertion, rotations and recolouring on
  linked nodes. A new node is red, which `fixViolation` takes for granted.
- **Binomial heap** (`Binomial*.dfy`). Merge and union of any two heaps, insertion,
  search and decrease-key.
- **Barrier program** (`BarrierProgram.dfy`, `BarrierJoin.dfy`), **work crew**
  (`WorkCrew.dfy`, `CrewOutcome.dfy`, `CrewProgress.dfy`), **pipeline**
  (`Pipeline.dfy`, `PipelineProgress.dfy`), **work queue** (`WorkQueue.dfy`,
  `WorkQueueServers.dfy`, `WorkQueueRundown.dfy`), **alarm thread**
  (`AlarmList.dfy`, `AlarmMissed.dfy`, `AlarmProgress.dfy`). Each is a state machine
  with one step per critical section and waits that may wake at any time; the critical
  sections are methods of a class, and the steps use the functions these methods are
  proved against. The theorems are about every run and every number of threads: what
  is kept, what comes out, and for each thread exactly when it has to wait.
- **Articulation points** (`Connectivity.dfy`, `ArticulationPoints.dfy`,
  `CutVertices.dfy`, `GraphSearch.dfy`), **cycle detection by union-find**
  (`EdgeWalks.dfy`, `UnionFindCycle.dfy`), **edit distance**
  (`EditDistance.dfy`), **subtree test** (`SubtreeTest.dfy`), **triplet count**
  (`Triplets.dfy`), **cuckoo hashing** (`Cuckoo*.dfy`). `SortedKeys.dfy`,
  `PowersOfTwo.dfy` and `LinkedItems.dfy` serve several of them.

`dafny verify dfyconfig.toml` checks everything.

## Where the code does not do what it seems to promise

The code is modelled as it is. These promises fail, and for each the exact
condition is proved.

- `globalRotation` is meant for leaves, but does not ask whether the node is one.
  `getMaxNode` also stops at an inner node whose right child was just cleared, and
  cases 9, 11 and 14 can then give that node a key and no second child. Deletion
  always takes just the key out of the keys in order; it leaves a 2-3 tree if and
  only if this does not happen (`DeletedShape`, with the input `MisfireExample`).
  `MisfiresExactly` reads off the tree before the call when it does.
- `print` is documented to return `SUCCESS`; on a tree that is not empty it
  returns `FAILURE` (`Print`).
- `workq_server` assigns in line 152 where it means to compare, so the queue's tail
  is lost whenever an element is taken. `AddCrashesExactly` says when `workq_add`
  then has nothing to link to. The counting protocol is proved for runs of the code
  as written, up to that point, and of the code with the comparison.
- A call of `crew_start` need not return: a worker that cannot open a directory goes
  on with the next item without taking its count back (`ClosedExample`), and the
  worker that brings the count to 0 leaves for good, so that one is lost with every
  call (`TwoCallsExample`). All calls of a run to its end have returned if and only
  if every directory opens and there are at least as many workers as calls
  (`AllReturnExactly`). When a call does return, everything below its path was
  processed (`StartReturnsWhenDone`).
- The alarm thread uses 0 for "waits for nothing". With an alarm of time 0 it can
  wait for an alarm that is not the earliest (`MissedAlarm`); `MissedExactly` says
  for which times, and `EarliestKeptExactly` at which step.
- In the barrier program the last thread raises the increments after the barrier
  has let the others go. `main` can join and print a thread before its increment is
  raised for the last time: any thread but the last one (`JoinOrder`, `EarlyPrint`).
  The final state is the same in every run (`SameEnd`).
- `Merge` of the binomial heap passes trees of the second list without a link to
  them. The result is a heap, but it has lost keys unless the degrees meet
  (`UnitedExactly`, with the input `LostExample`); for insertion they always do.
- `place` of the cuckoo tables says that a cycle is present when its calls are used up.
  A cycle is always reported, but not all that is reported is one (`FalseCycle`):
  `ReportedExactly` says when a key is, and `NeverEndsExactly` what a cycle is.
- `insert` of the red-black tree does not expect a key that is there already: the new
  node stays outside the tree, and the repair reads through its null parent. It does
  so exactly for these keys (`Insert`).
- `Decrease_key` on an empty heap reads through a null pointer (`DecreaseKey`), and
  `place` reads outside its tables exactly for the keys `BoundsExactly` names.

## Model

| member | source | states |
|---|---|---|
| TwoThreeTree.CTree.DeleteItem | computation/src 2-3TreeImplementation/CTree.h:473-548 | The key is found exactly if it is among the keys (IsEmpty, NotFound otherwise, tree untouched); afterwards the keys in order are the old ones without it, links and node set agree, and the tree is a 2-3 tree again if and only if no rotation around the root hits an inner hole |
| TwoThreeTree.CTree.Insert | computation/src 2-3TreeImplementation/CTree.h:153-240 | DuplicateValue exactly if the key is there, and then nothing changes; otherwise the keys in order are the old ones with the key in its place, and the tree is again a well-formed 2-3 tree whose new nodes are fresh |
| TwoThreeTree.CTree.FindKey | computation/src 2-3TreeImplementation/CTree.h:247-269 | find returns a place of the key if and only if it is among the keys in order: the node the search stops at, and which of its two keys it is |
| TwoThreeTree.CTree.Search | computation/src 2-3TreeImplementation/CTree.h:278-340 | The loop stops at the node the specification of the search names and reports the key found exactly if that node has it; IsEmpty without a root |
| TwoThreeTree.CTree.RemoveAll | computation/src 2-3TreeImplementation/CTree.h:97-146 | Every node of the tree is deleted exactly once, in postorder, and in the log of all reads and deletions no node is read or deleted after it has been deleted; an empty tree is left; IsEmpty without a root |
| TwoThreeTree.CTree.RemoveOne | computation/src 2-3TreeImplementation/CTree.h:116-139 | One round: the node is deleted while its parent and all that is to its right are still there, the next node of the postorder is reached, and the log goes on without a read of a deleted node |
| TwoThreeTree.CTree.RemoveLoop | computation/src 2-3TreeImplementation/CTree.h:114-141 | The whole loop deletes the nodes in postorder, leaves none, and reads none it has deleted |
| TwoThreeTree.CTree.MinBelow | computation/src 2-3TreeImplementation/CTree.h:126-132 | The next node of the postorder is reached by reads of nodes that are still there |
| TwoThreeTree.CTree.DeleteNode | computation/src 2-3TreeImplementation/CTree.h:126 | A deletion is of a node that is there, and goes into the log |
| TwoThreeTree.CTree.Print | computation/src 2-3TreeImplementation/CTree.h:1002-1049 | Each traversal delivers, in its recursive order, exactly the keys of the tree, each once, then stops, and the count is their number; the code stays Failure on a tree that is not empty |
| TwoThreeTree.CTree.GetNextInorderKey | computation/src 2-3TreeImplementation/CTree.h:1059-1110 | One step adds exactly the next key to the keys visited in order; it ends exactly when all have been visited; from an inner node it arrives at the leaf that begins the next child |
| TwoThreeTree.CTree.GetNextPreorderKey | computation/src 2-3TreeImplementation/CTree.h:1181-1231 | The same for the preorder |
| TwoThreeTree.CTree.GetNextPostorderKey | computation/src 2-3TreeImplementation/CTree.h:1120-1171 | The same for the postorder |
| TwoThreeTree.CTree.GetMinNode | computation/src 2-3TreeImplementation/CTree.h:441-450 | The node at the end of the left links |
| TwoThreeTree.CTree.GetMaxNode | computation/src 2-3TreeImplementation/CTree.h:457-466 | The node at the end of the right links, an inner hole included |
| TwoThreeTree.CTree.LocalRotation | computation/src 2-3TreeImplementation/CTree.h:590-729 | Succeeds exactly if one of cases 1 to 8 applies, and then replaces the parent's subtree by the rotated one and nothing else; otherwise the nodes are as before |
| TwoThreeTree.CTree.GlobalRotation | computation/src 2-3TreeImplementation/CTree.h:737-826 | Succeeds exactly if one of cases 9 to 14 applies, without a check that the node is a leaf, and then moves one key around the root; otherwise the nodes are as before |
| TwoThreeTree.CTree.RotateThreeRoot | computation/src 2-3TreeImplementation/CTree.h:758-801 | Cases 9 to 12, below a root of two keys |
| TwoThreeTree.CTree.RotateTwoRoot | computation/src 2-3TreeImplementation/CTree.h:802-823 | Cases 13 and 14, below a root of one key |
| TwoThreeTree.CTree.LocalNodeMerger | computation/src 2-3TreeImplementation/CTree.h:834-894 | After failed rotations, succeeds exactly below a parent of two keys, and deletes exactly one node |
| TwoThreeTree.CTree.GlobalNodeMerger | computation/src 2-3TreeImplementation/CTree.h:903-949 | After those have failed it always succeeds and makes the parent the next hole, with the merged node as its only child |
| TwoThreeTree.CTree.SwapWithInOrderSuccessor | computation/src 2-3TreeImplementation/CTree.h:959-993 | The key and its in-order successor exchange places, and the leaf that now holds the key is returned |
| TwoThreeTree.CTree.RemoveFromLeaf | computation/src 2-3TreeImplementation/CTree.h:557-582 | A leaf of two keys keeps the other one |
| TwoThreeTree.CTree.RepairStep | computation/src 2-3TreeImplementation/CTree.h:526-543 | One pass either leaves the repaired tree or moves the hole to its parent, one level up, in the same situation |
| TwoThreeTree.CTree.Merge | computation/src 2-3TreeImplementation/CTree.h:530-543 | After the rotations have failed a merger ends the repair or makes the parent the next hole |
| TwoThreeTree.CTree.DropRoot | computation/src 2-3TreeImplementation/CTree.h:515-525 | A hole at the root is deleted and its only child becomes the root, without a parent |
| TwoThreeTree.CTree.RepairLoop | computation/src 2-3TreeImplementation/CTree.h:513-544 | The loop ends, because the hole strictly rises, with the tree the specification of the repair gives |
| TwoThreeTree.CTree.DeleteFound | computation/src 2-3TreeImplementation/CTree.h:498-546 | All that deleteItem does once it has found the key |
| TwoThreeTree.CTree.Split | computation/src 2-3TreeImplementation/CTree.h:384-434 | Splits the node and leaves the added node beside the tree, the two together holding each node once |
| TwoThreeTree.CTree.SplitRound | computation/src 2-3TreeImplementation/CTree.h:196-236 | One round either finishes the insertion or leaves a three-node parent, one level up, with the risen key still belonging between the halves |
| TwoThreeTree.CTree.AddAbove | computation/src 2-3TreeImplementation/CTree.h:215-233 | A parent with one key takes the risen key and the added node, on the side the comparison says, and the tree is finished |
| TwoThreeTree.CTree.NewRootAbove | computation/src 2-3TreeImplementation/CTree.h:205-212 | The halves of a split root come below a new root, the added half to the left |
| TwoThreeTree.CTree.SplitUpward | computation/src 2-3TreeImplementation/CTree.h:193-237 | The loop ends at the first node with room or above the root, with the key in its place |
| TwoThreeTree.CTree.PlantRoot | computation/src 2-3TreeImplementation/CTree.h:162-168 | The first key makes a tree of one node |
| TwoThreeTree.CTree.InsertAt | computation/src 2-3TreeImplementation/CTree.h:184-237 | All that insert does once the search has stopped without the key |
| TwoThreeNode.CNode.constructor | computation/src 2-3TreeImplementation/CNode.h:77-105 | The new node has one key, or none if none is given, and two children, whose parent links are set if they exist |
| TwoThreeNode.CNode.Empty | computation/src 2-3TreeImplementation/CNode.h:110-119 | The new node has neither keys nor links |
| TwoThreeNode.CNode.SetChild | computation/src 2-3TreeImplementation/CNode.h:148-156 | The child link is set, and so is the parent link of the child if there is one |
| TwoThreeNode.CNode.SetParent | computation/src 2-3TreeImplementation/CNode.h:163-167 | Only the parent link changes |
| TwoThreeNode.CNode.SetSmallKey | computation/src 2-3TreeImplementation/CNode.h:198-210 | The small key and its flag are set |
| TwoThreeNode.CNode.UnsetSmallKey | computation/src 2-3TreeImplementation/CNode.h:198-204 | Without a key only the flag is cleared and the old value stays |
| TwoThreeNode.CNode.SetBigKey | computation/src 2-3TreeImplementation/CNode.h:230-242 | The big key and its flag are set |
| TwoThreeNode.CNode.UnsetBigKey | computation/src 2-3TreeImplementation/CNode.h:230-236 | Without a key only the flag is cleared and the old value stays |
| TwoThreeLocal.Rotate1 | computation/src 2-3TreeImplementation/CTree.h:610-622 | Case 1: the hole takes a key and a subtree from the right sibling of three below a parent of two; the assignments leave exactly the rotated subtree, every other node unchanged |
| TwoThreeLocal.Rotate2 | computation/src 2-3TreeImplementation/CTree.h:624-636 | Case 2: the hole takes a key and a subtree from the middle sibling to the left; the assignments leave exactly the rotated subtree, every other node unchanged |
| TwoThreeLocal.Rotate3 | computation/src 2-3TreeImplementation/CTree.h:638-654 | Case 3: the hole takes a key and a subtree from the right sibling through the middle one; the assignments leave exactly the rotated subtree, every other node unchanged |
| TwoThreeLocal.Rotate4 | computation/src 2-3TreeImplementation/CTree.h:656-667 | Case 4: the hole takes a key and a subtree from the right sibling to the middle; the assignments leave exactly the rotated subtree, every other node unchanged |
| TwoThreeLocal.Rotate5 | computation/src 2-3TreeImplementation/CTree.h:669-680 | Case 5: the hole takes a key and a subtree from the left sibling to the middle; the assignments leave exactly the rotated subtree, every other node unchanged |
| TwoThreeLocal.Rotate6 | computation/src 2-3TreeImplementation/CTree.h:682-694 | Case 6: the hole takes a key and a subtree from the left sibling of three below a parent of two; the assignments leave exactly the rotated subtree, every other node unchanged |
| TwoThreeLocal.Rotate7 | computation/src 2-3TreeImplementation/CTree.h:696-708 | Case 7: the hole takes a key and a subtree from the middle sibling to the right; the assignments leave exactly the rotated subtree, every other node unchanged |
| TwoThreeLocal.Rotate8 | computation/src 2-3TreeImplementation/CTree.h:710-726 | Case 8: the hole takes a key and a subtree from the left sibling through the middle one; the assignments leave exactly the rotated subtree, every other node unchanged |
| TwoThreeGlobal.RotateRoot9 | computation/src 2-3TreeImplementation/CTree.h:764-772 | Case 9: the left side of the root takes from the middle; one key goes up to the root and one down, no subtree moves, every other node is unchanged |
| TwoThreeGlobal.RotateRoot10 | computation/src 2-3TreeImplementation/CTree.h:774-781 | Case 10: the middle takes from the left; one key goes up to the root and one down, no subtree moves, every other node is unchanged |
| TwoThreeGlobal.RotateRoot11 | computation/src 2-3TreeImplementation/CTree.h:783-791 | Case 11: the middle takes from the right; one key goes up to the root and one down, no subtree moves, every other node is unchanged |
| TwoThreeGlobal.RotateRoot12 | computation/src 2-3TreeImplementation/CTree.h:793-800 | Case 12: the right takes from the middle; one key goes up to the root and one down, no subtree moves, every other node is unchanged |
| TwoThreeGlobal.RotateRoot13 | computation/src 2-3TreeImplementation/CTree.h:805-812 | Case 13: the right takes from the left; one key goes up to the root and one down, no subtree moves, every other node is unchanged |
| TwoThreeGlobal.RotateRoot14 | computation/src 2-3TreeImplementation/CTree.h:814-822 | Case 14: the left takes from the right; one key goes up to the root and one down, no subtree moves, every other node is unchanged |
| TwoThreeMerger.Merge15 | computation/src 2-3TreeImplementation/CTree.h:854-866 | Case 15: the left hole absorbs the middle child; one node is deleted and the others hold exactly the merged subtree |
| TwoThreeMerger.Merge16 | computation/src 2-3TreeImplementation/CTree.h:867-878 | Case 16: the left child absorbs the middle hole; one node is deleted and the others hold exactly the merged subtree |
| TwoThreeMerger.Merge17 | computation/src 2-3TreeImplementation/CTree.h:879-891 | Case 17: the right hole absorbs the middle child; one node is deleted and the others hold exactly the merged subtree |
| TwoThreeMerger.Merge18 | computation/src 2-3TreeImplementation/CTree.h:922-934 | Case 18: the left hole absorbs the right child and the parent becomes the hole; one node is deleted and the others hold exactly the merged subtree |
| TwoThreeMerger.Merge19 | computation/src 2-3TreeImplementation/CTree.h:935-946 | Case 19: the left child absorbs the right hole and the parent becomes the hole; one node is deleted and the others hold exactly the merged subtree |
| TwoThreeLocal.RotatedInorder | computation/src 2-3TreeImplementation/CTree.h:590-729 | Cases 1 to 8 keep all keys in order |
| TwoThreeRepair.RotatedPerfect | computation/src 2-3TreeImplementation/CTree.h:590-729 | Cases 1 to 8 leave all leaves at one depth again |
| TwoThreeRepair.GloballyRotatedAhead | computation/src 2-3TreeImplementation/CTree.h:737-826 | Cases 9 to 14 keep all keys in order, whatever node is the hole |
| TwoThreeRepair.GloballyRotatedPerfect | computation/src 2-3TreeImplementation/CTree.h:737-826 | Cases 9 to 14 leave a 2-3 tree if the hole is a leaf, and no 2-3 tree of any height if it is not |
| TwoThreeRepair.MergedPerfect | computation/src 2-3TreeImplementation/CTree.h:834-949 | At any hole a rotation or a merger applies; cases 15 to 17 finish the tree and 18 and 19 leave a hole with a proper only child |
| TwoThreeRepair.StillRepairable | computation/src 2-3TreeImplementation/CTree.h:535-539 | After cases 18 and 19 the loop is in the same situation one level up, with the same keys |
| TwoThreeRepair.RepairedInorder | computation/src 2-3TreeImplementation/CTree.h:513-544 | The repair of a hole loses, adds and moves no key |
| TwoThreeRepair.RepairedPerfect | computation/src 2-3TreeImplementation/CTree.h:513-544 | The repair leaves a 2-3 tree if no rotation around the root is applied to an inner hole, and no 2-3 tree if one is |
| TwoThreeSearch.FindFinds | computation/src 2-3TreeImplementation/CTree.h:278-340 | In a sorted 2-3 tree the search stops at the key if and only if the tree has it, else at the leaf between the neighbouring keys |
| TwoThreeDeletion.DeletedKeys | computation/src 2-3TreeImplementation/CTree.h:473-548 | For every 2-3 tree and key: the keys in order after the deletion are the old ones without the key |
| TwoThreeDeletion.DeletedShape | computation/src 2-3TreeImplementation/CTree.h:473-548 | For every 2-3 tree and key: the result is a 2-3 tree if and only if the deletion lets no rotation misfire |
| TwoThreeMisfire.MisfiresExactly | computation/src 2-3TreeImplementation/CTree.h:473-548 | For every 2-3 tree and key, read off the tree before the call: the result is no 2-3 tree if and only if a leaf of one key runs empty, every node on the way up and its only sibling have one key, up to a node that ends a child of the root and is entered from its left child, no node beside that one has two keys, the next child of the root begins with a leaf of two keys, and the empty leaf is not itself filled from the leaf before it |
| TwoThreeMisfire.LeafMisfires | computation/src 2-3TreeImplementation/CTree.h:513-544 | The repair that starts at an empty leaf misfires exactly if the hole rises to such a node |
| TwoThreeMisfire.GlobalGuards | computation/src 2-3TreeImplementation/CTree.h:737-826 | In a 2-3 tree with one hole, cases 9 to 14 apply exactly if the hole ends a child of the root and the next one has a key to spare, or, for a leaf, begins one and the one before has |
| TwoThreeDeletion.MisfireExample | computation/src 2-3TreeImplementation/CTree.h:814-822 | Deleting 1 from a tree of the keys 1 to 8 makes case 14 hit an inner hole: the result is no 2-3 tree |
| TwoThreeDeletion.KeyInside | computation/src 2-3TreeImplementation/CTree.h:500-504 | Taking the successor in the place of an inner key and removing it from its leaf removes the key from the keys in order |
| TwoThreeDeletion.TakeFromLeaf | computation/src 2-3TreeImplementation/CTree.h:557-582 | Taking a key out of a leaf takes it out of the keys in order |
| TwoThreeInsertion.SplitKeys | computation/src 2-3TreeImplementation/CTree.h:398-431 | All three ways to split keep the keys in order: added node, risen key, rest |
| TwoThreeInsertion.PointsBack | computation/src 2-3TreeImplementation/CTree.h:213-228 | The key that rises from a split compares, in the parent, to the very place of the halves |
| TwoThreeInsertion.SplicedAtLeaf | computation/src 2-3TreeImplementation/CTree.h:184-189 | At the leaf the search stops at, adding the key puts it in its place among all keys |
| TwoThreeInsertion.WithSorted | computation/src 2-3TreeImplementation/CTree.h:153-240 | Adding an absent key keeps the order and adds just that key |
| TwoThreeGrowth.SplitNode | computation/src 2-3TreeImplementation/CTree.h:384-434 | The assignments of split, in all three branches, on the node split, its subtrees and the new node |
| TwoThreeGrowth.Add | computation/src 2-3TreeImplementation/CTree.h:348-373 | An empty node gets a small key, a node of one key a second one in order; an equal key or a full node is a Failure without change |
| TwoThreeGrowth.AddSubtree | computation/src 2-3TreeImplementation/CTree.h:216-233 | The assignments that add the risen key and node to a node of one key |
| TwoThreeTraversal.NextBelow | computation/src 2-3TreeImplementation/CTree.h:1079-1087 | After a key of an inner node comes the first key of the leaf that begins the next child |
| TwoThreeTraversal.ClimbOrder | computation/src 2-3TreeImplementation/CTree.h:1089-1107 | In a sorted tree the comparisons of the climb tell from which child it comes |
| TwoThreeTraversal.UpToBegins | computation/src 2-3TreeImplementation/CTree.h:1059-1110 | The keys up to any position are a beginning of all keys in order |
| TwoThreeOrders.PostClimb | computation/src 2-3TreeImplementation/CTree.h:1139-1169 | When a subtree is finished in postorder, its parent goes on with the next subtree or with the key that is due |
| TwoThreeOrders.PreClimb | computation/src 2-3TreeImplementation/CTree.h:1207-1228 | When a subtree is finished in preorder, its parent goes on with the next subtree, the second key, or is finished |
| TwoThreeOrders.SameKeys | computation/src 2-3TreeImplementation/CTree.h:1002-1049 | Preorder and postorder hold the keys of the inorder, each as often |
| TwoThreeOrders.VisitedKeys | computation/src 2-3TreeImplementation/CTree.h:1002-1049 | Each of the three orders visits every key of a sorted tree exactly once |
| TwoThreeOrders.RemainingNext | computation/src 2-3TreeImplementation/CTree.h:114-139 | After a deletion the nodes still to come are all there, and linked as before |
| TwoThreeOrders.AllNodes | computation/src 2-3TreeImplementation/CTree.h:114-141 | The postorder of the nodes has every node of the tree exactly once |
| TwoThreeOrders.NodesLeftmost | computation/src 2-3TreeImplementation/CTree.h:124-133 | Going down to the leftmost node is going to the next node in postorder |
| GraphSearch.Graph.AP | computation/articulation/articulation/articulation.cpp:94-122 | For every undirected graph, self-loops and parallel edges included, the vertices printed are exactly the cut vertices, in ascending order |
| GraphSearch.Graph.Search | computation/articulation/articulation/articulation.cpp:112-116 | A search from every vertex not yet reached leaves every vertex visited and finished |
| GraphSearch.Graph.APUtil | computation/articulation/articulation/articulation.cpp:42-92 | The recursive search from a vertex explores exactly below it and restores what the search knows of the vertices it has left; it terminates |
| GraphSearch.Graph.AddEdge | computation/articulation/articulation/articulation.cpp:30-34 | Each end comes behind the neighbours of the other, both ends if they are one vertex, and no other list changes |
| GraphSearch.Graph.constructor | computation/articulation/articulation/articulation.cpp:24-28 | A graph without edges |
| CutVertices.MarksAreCutVertices | computation/articulation/articulation/articulation.cpp:76-85 | After the search a vertex is marked if and only if two other vertices are connected and every path between them goes through it |
| CutVertices.MarkedIsCut | computation/articulation/articulation/articulation.cpp:76-85 | A root with two children, or a vertex with a child whose low is not below its discovery time, separates two vertices that were connected |
| CutVertices.UnmarkedLinks | computation/articulation/articulation/articulation.cpp:76-85 | Around an unmarked vertex, whatever was connected still is |
| CutVertices.LeavesOnlyTo | computation/articulation/articulation/articulation.cpp:72-90 | Edges leave the subtree of a child that cannot get past a vertex only to that vertex |
| CutVertices.KidEscapes | computation/articulation/articulation/articulation.cpp:72-90 | A child whose low is below the discovery time has a way around the vertex to the root |
| ArticulationPoints.Enter | computation/articulation/articulation/articulation.cpp:52-56 | Entering a vertex keeps the search tree and what is known of finished vertices |
| ArticulationPoints.Descend | computation/articulation/articulation/articulation.cpp:66-70 | Making a neighbour a child allows the recursive call |
| ArticulationPoints.Return | computation/articulation/articulation/articulation.cpp:66-86 | After the recursive call, low, mark and number of children say what they should of one more neighbour |
| ArticulationPoints.SeeVisited | computation/articulation/articulation/articulation.cpp:88-90 | A visited neighbour is an ancestor or a descendant, as depth-first search has no cross edges, and low takes its discovery time unless it is the parent |
| ArticulationPoints.Leave | computation/articulation/articulation/articulation.cpp:58-92 | A vertex all of whose neighbours were seen is finished: low is the least discovery time its subtree sees, and the mark says whether a child is stuck |
| ArticulationPoints.NeighbourComparable | computation/articulation/articulation/articulation.cpp:58-92 | No cross edges: a visited neighbour is above or below |
| BarrierProgram.SameEnd | barrier_main.c:113-176 | For any number of threads, array size and loop counts, every complete interleaving ends in the same state: increments t+OUTLOOPS+1, elements c+1 plus INLOOPS times the sum of the increments used, and the barrier as at the start of a cycle |
| BarrierProgram.StepKeeps | barrier_main.c:57-143 | Every step of every thread keeps the invariant that ties cycle, counter, waiting threads, increments and array elements |
| BarrierProgram.RunKeeps | barrier_main.c:57-176 | The invariant holds throughout every run |
| BarrierProgram.NoneLeavesEarly | barrier_main.c:57-96 | No thread gets through a barrier another thread has not entered |
| BarrierProgram.OneReleasePerCycle | barrier_main.c:67-76 | Each finished cycle of the barrier had exactly one call that returned -1 |
| BarrierProgram.NoRace | barrier_main.c:123-140 | No increment is raised while any thread is adding its own |
| BarrierProgram.NeverStuck | barrier_main.c:57-143 | Until all threads have returned, some step is possible: the counter is reset in time and nobody waits for a cycle that is over |
| BarrierProgram.WaitsExactly | barrier_main.c:57-143 | A thread cannot go on if and only if it is at a barrier that some thread has still to enter, or, before it is created, while one before it is not; what others do otherwise does not hold it up |
| BarrierProgram.JoinedThread | barrier_main.c:161-172 | The array of a thread that has returned is final; its increment is, if and only if no thread has still to raise it |
| BarrierJoin.JoinOrder | barrier_main.c:161-172 | main joins the threads in order and prints each: the increment it prints is final in every run if and only if the thread is the last one |
| BarrierJoin.EarlyPrint | barrier_main.c:134-140 | For any parameters and any thread but the last there is a run in which it and all before it have returned and its increment is one too low |
| BarrierJoin.GoesOn | barrier_main.c:113-143 | The schedule that holds the last thread back goes on until all others have returned |
| BarrierJoin.RunShortens | barrier_main.c:57-143 | Every step of every thread brings the program nearer to its end, so every run ends |
| BarrierProgram.BarrierObject.constructor | barrier_main.c:12-29 | Threshold and counter are the number of threads, the cycle is 0 |
| BarrierProgram.BarrierObject.Enter | barrier_main.c:57-90 | EINVAL without a change if the barrier is not valid, else what the steps of the program use: the last thread resets the counter and begins a cycle |
| BarrierProgram.BarrierObject.Destroy | barrier_main.c:31-53 | EINVAL, EBUSY while threads wait, else the barrier is invalid |
| RedBlackTree.RBTree.Insert | computation/RedBlackTree/RedBlackTree/RedBlackTree.cpp:244-253 | Black root, no red node below a red one, equal black heights, search order and links both ways again; exactly that key added, unless it is there: then the tree is as before and, which the result says, the repair reads the color of a null parent; height at most twice the binary logarithm of n+1 |
| RedBlackTree.RBTree.FixViolation | computation/RedBlackTree/RedBlackTree/RedBlackTree.cpp:151-241 | The loop ends with the tree the specification of the repair gives, on the linked nodes |
| RedBlackTree.RBTree.BSTInsert | computation/RedBlackTree/RedBlackTree/RedBlackTree.cpp:57-77 | The recursion puts the new node at its place, sets both links, and touches nothing else; with the key of a node that is there it changes nothing |
| RedBlackTree.RBTree.Place | computation/RedBlackTree/RedBlackTree/RedBlackTree.cpp:244-249 | The new red node is in the tree at the place of its key, or, if the key is there already, outside the tree, red and without a parent |
| RedBlackTree.RBTree.RotateLeft | computation/RedBlackTree/RedBlackTree/RedBlackTree.cpp:102-124 | The subtree is rotated to the left in the whole linked tree, the root included |
| RedBlackTree.RBTree.RotateRight | computation/RedBlackTree/RedBlackTree/RedBlackTree.cpp:126-148 | The subtree is rotated to the right in the whole linked tree, the root included |
| RedBlackTree.RBTree.Recolor | computation/RedBlackTree/RedBlackTree/RedBlackTree.cpp:173-179 | Case 1: parent and uncle black, grandparent red |
| RedBlackTree.RBTree.TurnGrandparentRight | computation/RedBlackTree/RedBlackTree/RedBlackTree.cpp:181-199 | Cases 2 and 3 with the parent on the left: rotations and the exchange of colors |
| RedBlackTree.RBTree.TurnGrandparentLeft | computation/RedBlackTree/RedBlackTree/RedBlackTree.cpp:217-236 | Cases 2 and 3 with the parent on the right |
| RedBlackFix.InsertedIsRedBlack | computation/RedBlackTree/RedBlackTree/RedBlackTree.cpp:244-253 | For every red-black search tree and absent key, insertion and repair give one with just that key more |
| RedBlackFix.FixedRedBlack | computation/RedBlackTree/RedBlackTree/RedBlackTree.cpp:151-241 | From one red node too many the loop gets to a red-black tree |
| RedBlackFix.FixedKeys | computation/RedBlackTree/RedBlackTree/RedBlackTree.cpp:151-241 | The repair keeps all keys in order |
| RedBlackFix.BstInsertedKeys | computation/RedBlackTree/RedBlackTree/RedBlackTree.cpp:57-77 | BSTInsert adds the key in its place |
| RedBlackTree.HasKeyExactly | computation/RedBlackTree/RedBlackTree/RedBlackTree.cpp:57-77 | The comparisons on the way down meet the key exactly if the tree has it |
| RedBlackFix.RecoloredWell | computation/RedBlackTree/RedBlackTree/RedBlackTree.cpp:173-179 | Case 1 keeps black heights and moves the only possible violation two levels up |
| RedBlackFix.TurnedWell | computation/RedBlackTree/RedBlackTree/RedBlackTree.cpp:181-199 | Cases 2 and 3 keep black heights and leave no violation |
| RedBlackFix.RedBlackHeight | computation/RedBlackTree/RedBlackTree/RedBlackTree.cpp:27-42 | A red-black tree of n keys has 2^height at most (n+1)^2 |
| WorkCrew.StartReturnsWhenDone | crew.c:309-400 | When a call of crew_start returns, every file below its path has been processed exactly once, and no directory there failed to open |
| WorkCrew.CountCovers | crew.c:100-127 | In every run the count is at least the queued items and the items in work, and 0 exactly if there is none and nothing was abandoned |
| WorkCrew.AbandonedNeverReturns | crew.c:139-144 | Once a directory could not be opened no call of crew_start returns or starts any more: its count is never taken back |
| CrewOutcome.AllReturnExactly | crew.c:95-400 | Every run that has come to its end: all calls of crew_start have returned if and only if every directory below their paths can be opened and there are at least as many workers as calls |
| CrewOutcome.RunEnds | crew.c:95-400 | Every run goes on to such an end |
| CrewOutcome.RunLength | crew.c:95-400 | The number of steps taken and the number the state still allows add up to one number |
| CrewOutcome.OneWorkerPerCall | crew.c:251-262 | The workers that have left are as many as the calls that began, less one while work is under way: each call retires one worker |
| CrewOutcome.StuckBecause | crew.c:95-267 | Where no step is possible all calls have returned, or a directory was abandoned, or there is work and all workers have left |
| CrewOutcome.ReturnsAtMostWorkers | crew.c:251-400 | Whatever the run, all calls can only return if every directory opens and there is a worker for each of them |
| CrewOutcome.ClosedExample | crew.c:139-144 | One worker and a directory that cannot be opened: the call never returns |
| CrewOutcome.TwoCallsExample | crew.c:251-262 | One worker and two plain files, each with a call of its own: the second call never returns |
| CrewProgress.WorkerWaitsExactly | crew.c:67-120 | A worker that has not left cannot go on if and only if nothing is queued, or, before its first item, nothing is outstanding; it does not wait for other workers |
| CrewProgress.CallerWaitsExactly | crew.c:309-400 | A call that has not returned cannot go on if and only if something is queued, in work or abandoned |
| CrewProgress.FirstInFirstOut | crew.c:100-186 | In every run what has been put on the queue is what has been taken, in that order, and then what is queued; and each item taken is in work, done or abandoned |
| WorkCrew.AllBelowDone | crew.c:146-191 | With nothing outstanding, everything reachable through listed directories from a starting path is done exactly once |
| WorkCrew.StepKeeps | crew.c:95-267 | Every step of workers and callers keeps the invariant of count, queue and items |
| WorkCrew.ListDue | crew.c:146-191 | An entry that is listed becomes due, it alone, and was not before |
| WorkCrew.Crew.Put | crew.c:176-186 | The item is linked behind the last one, or becomes the first, and is counted; the links again lead through all items, each once |
| WorkCrew.Crew.Take | crew.c:117-120 | The first item is returned, the links lead through the others, and it stays counted |
| WorkCrew.Crew.FinishOne | crew.c:248-250 | The count goes down, and the worker learns whether it was the last |
| Pipeline.ResultsInOrder | pipe.c:46-255 | In every run the k-th result is the k-th value accepted plus the number of stages; what is accepted and not delivered is in the stages, once each and in order |
| Pipeline.EmptyWhenClaimed | pipe.c:229-246 | pipe_result can report empty exactly when every value started has been claimed |
| Pipeline.NeverStuck | pipe.c:46-141 | While a result is claimed and not delivered, some stage or sender can go on |
| PipelineProgress.StallsOnlyWhenFull | pipe.c:200-246 | In every run, if a value that was started waits and only new calls or a collection are possible, then every stage and the last slot hold a value, and one more than there are stages is inside |
| PipelineProgress.StartsExactly | pipe.c:46-92 | pipe_start can be called at any time, and a value it has counted can go in next if and only if the first stage holds none |
| PipelineProgress.StageWaitsExactly | pipe.c:94-141 | A stage cannot go on if and only if it has no value or the next one has not given up its own |
| PipelineProgress.ResultsExactly | pipe.c:247-253 | A claimed result can be collected if and only if the last slot holds a value |
| PipelineProgress.StartedAreCounted | pipe.c:202-225 | In every run the values of all calls of pipe_start are those that wait and those accepted |
| PipelineProgress.EachValueComesOut | pipe.c:46-255 | Every run can go on, with no value more, until each value that was started has been delivered, once, raised by one for each stage |
| Pipeline.StepKeeps | pipe.c:46-255 | Every step keeps the values under way, although a value is in two stages during a hand-off |
| Pipeline.PipeCreate | pipe.c:146-198 | stages+1 linked stages, all free, the last leading nowhere |
| Pipeline.Pipe.constructor | pipe.c:146-198 | head and tail are the ends of the linked stages, and nothing is active |
| Pipeline.Pipe.Claim | pipe.c:235-246 | Empty if nothing is active, else one value is claimed |
| WorkQueue.ServersCounted | workq.c:117-243 | In every run 0 <= idle <= counter <= parallelism, a queue that is not empty has a server if there may be servers at all, and elements are taken in the order they were added |
| WorkQueueServers.ServerForEachAdd | workq.c:210-238 | After every addition that does not crash a server is waiting or has just been created, or there are as many servers as there may be |
| WorkQueueServers.CreatedExactly | workq.c:223-237 | A step creates a server if and only if it adds an element, no server waits, and fewer have not left than there may be; it creates one |
| WorkQueueServers.WakesExactly | workq.c:212-222 | workq_add signals, and workq_destroy broadcasts, if and only if a server waits |
| WorkQueueServers.ServerDoes | workq.c:117-183 | A server with the mutex takes the first element if there is one; if not it leaves, counted off, if and only if it was asked to quit or its last wait timed out, and else waits |
| WorkQueueServers.TimedOutLeaves | workq.c:129-183 | A server whose wait timed out with the queue empty leaves, and the counter is one less |
| WorkQueueServers.LeavesOnly | workq.c:159-183 | A server leaves only with the queue empty, and with quit set or after its last wait timed out |
| WorkQueueServers.EverybodyGoesOn | workq.c:46-243 | Every server that has not left can go on, a waiting one by a signal or a timeout, and so can every addition under way; the destroyer can exactly when all servers have left |
| WorkQueueRundown.AddsAccepted | workq.c:187-243 | In every run the elements of all calls of workq_add are those being added and those accepted, and a call that gets the mutex and does not crash has its element accepted |
| WorkQueueRundown.DestroyCloses | workq.c:46-90 | workq_destroy makes the queue invalid, and sets quit and waits if and only if a server has not left; it changes neither queue nor servers |
| WorkQueueRundown.EachElementServed | workq.c:103-243 | With a parallelism of at least one every run that has not crashed can go on, without another call, until each element accepted has been through the engine once |
| WorkQueueRundown.DestroyCanReturn | workq.c:46-98 | From every run that has not crashed in which workq_destroy waits it can return, without another call |
| WorkQueue.DestroyFindsNothing | workq.c:46-98 | When workq_destroy returns all servers are gone, the queue is empty, and every element accepted has been through the engine once for each time it was accepted; with a parallelism below one no server ever was, and all elements are still in the queue |
| WorkQueue.DestroyerIsWoken | workq.c:160-183 | While the destroyer waits quit is set, and the step that brings the number of servers to 0 is one that broadcasts |
| WorkQueue.NothingAfterDestroy | workq.c:46-98 | With no add in flight at that moment, no further step is possible |
| WorkQueue.AddCrashesExactly | workq.c:149-153 | As line 152 is written, workq_add has no last element to link to exactly if the queue has elements and the last change was a server taking one |
| WorkQueue.CrashExample | workq.c:149-153 | Two adds, one element taken, a third add: the third has no last element |
| WorkQueue.ComparingNeverCrashes | workq.c:149-153 | With a comparison in line 152 the last element is known whenever there is one |
| WorkQueue.StepKeeps | workq.c:46-243 | Every step of adders, servers and destroyer keeps the invariant |
| WorkQueue.WorkQueueObject.constructor | workq.c:6-43 | The empty, valid queue |
| WorkQueue.WorkQueueObject.Add | workq.c:210-238 | The element is linked behind the last one, or becomes the first, and a server is created exactly if none is idle and there may be one more |
| WorkQueue.WorkQueueObject.AfterEngine | workq.c:159-183 | From the mutex after the engine call to the next wait, engine call or return |
| WorkQueue.WorkQueueObject.Close | workq.c:46-98 | The queue is invalid, and quit is set and waited for exactly if there are servers |
| WorkQueue.WorkQueueObject.TakeFirst | workq.c:149-153 | The links lead through the other items, and the last one is no longer known, whether there are others or not |
| WorkQueue.WorkQueueObject.Serve | workq.c:117-183 | From taking the mutex, or waking, to the next wait, engine call or return, with or without a broadcast |
| AlarmList.EachAlarmOnce | alarm_cond.c:24-119 | In every run each inserted alarm is in the list, held or fired, exactly once; the list is in order of time; nothing has fired before its time |
| AlarmProgress.FiresEarliest | alarm_cond.c:85-117 | In every run alarms fire one at a time, none before its time, and one that was not waited for is no later than any that stays listed |
| AlarmProgress.HoldsEarliest | alarm_cond.c:85-97 | An alarm the thread begins to wait for is not due yet, no later than any listed, and current_alarm is its time |
| AlarmProgress.WaitsExactly | alarm_cond.c:70-112 | The thread cannot go on if and only if the list is empty, or the alarm it waits for is not due and current_alarm is its time; then alarms can be inserted |
| AlarmProgress.InsertWakes | alarm_cond.c:51-59 | An insertion with which the thread need not wait any longer signals it |
| AlarmProgress.AllFired | alarm_cond.c:64-119 | When the thread waits and the times of all alarms have come, the list is empty and each has fired once |
| AlarmProgress.EachAlarmFires | alarm_cond.c:64-119 | Every run can go on, without another insertion, until each alarm inserted has fired once |
| AlarmProgress.EachInserted | alarm_cond.c:139-160 | There is an alarm for each insertion, of its time, in that order |
| AlarmList.EarliestKeptExactly | alarm_cond.c:51-110 | A step keeps "while current_alarm is the held alarm's time no listed alarm is earlier" if and only if it is not an insertion that sets current_alarm back to that time with an earlier alarm in the list |
| AlarmList.EarliestAlways | alarm_cond.c:51-110 | It holds in every run without alarms of time 0 |
| AlarmList.MissedAlarm | alarm_cond.c:51-59 | With an alarm of time 0 it does not: the thread goes on waiting for a later one |
| AlarmMissed.MissedExactly | alarm_cond.c:51-110 | Inserting given times in their order can break it, in some run, if and only if one positive time comes both before and after a time 0, with only later times between the 0 and the second |
| AlarmMissed.Missed | alarm_cond.c:51-110 | The run that does: the first is waited for when the 0 and the others come |
| AlarmMissed.RunKnown | alarm_cond.c:51-110 | In every run, while an alarm is held: it is the earliest and current_alarm its time, or current_alarm is earlier, or a time 0 has come since |
| AlarmMissed.BetweenMatters | alarm_cond.c:51-110 | 9, 0, 10, 9 can break it and 9, 0, 5, 9 cannot |
| AlarmList.InsertedInTime | alarm_cond.c:24-45 | Insertion keeps the list in order of time |
| AlarmList.InsertedItems | alarm_cond.c:24-45 | Insertion adds just the alarm |
| AlarmList.InsertedAt | alarm_cond.c:24-45 | An alarm comes behind all that are earlier and in front of the first that is not |
| AlarmList.AlarmQueue.AlarmInsert | alarm_cond.c:24-61 | The links of the list are changed so that it holds the alarm in front of the first one that is not earlier; current_alarm is lowered, and the thread signalled, exactly if it was 0 or later |
| AlarmList.StepKeeps | alarm_cond.c:24-119 | Every step of inserter and alarm thread keeps the invariant |
| UnionFindCycle.IsCycle | computation/training/training/FindCycleInGraph.h:55-77 | For every edge list, self-loops and parallel edges included, the answer is 1 exactly if some of the edges, each used once, lead back to where they started |
| UnionFindCycle.Joined | computation/training/training/FindCycleInGraph.h:66-75 | After an edge between different roots, equal roots again mean connected by the edges so far, and there is still no cycle |
| UnionFindCycle.Closed | computation/training/training/FindCycleInGraph.h:71-72 | Equal roots: the edge closes a cycle |
| UnionFindCycle.Find | computation/training/training/FindCycleInGraph.h:38-43 | find terminates, as the parent links lead upwards in rank, at a root |
| UnionFindCycle.FindAfterUnion | computation/training/training/FindCycleInGraph.h:46-51 | Union changes the root of exactly the vertices that had the first root, and find still terminates |
| UnionFindCycle.Union | computation/training/training/FindCycleInGraph.h:46-51 | The root of one is hung below the root of the other and nothing else changes; if it is one root it becomes its own parent, and find has no end any more |
| EdgeWalks.EdgeCloses | computation/training/training/FindCycleInGraph.h:63-72 | An edge between vertices that earlier edges connect closes a cycle |
| EdgeWalks.CycleConnects | computation/training/training/FindCycleInGraph.h:63-72 | A cycle that needs an edge connects its ends without it |
| EdgeWalks.TrailFromWalk | computation/training/training/FindCycleInGraph.h:63-65 | Connected vertices are connected without using an edge twice |
| EditDistance.DistIsShortestScript | computation/EditDistance/EditDistance/EditDistance.cpp:18-42 | The recursion, with its shortcut on equal last characters, gives the least number of insertions, removals and replacements that turn one string into the other |
| EditDistance.DistIsMetric | computation/EditDistance/EditDistance/EditDistance.cpp:18-42 | It is 0 only for equal strings, symmetric, and satisfies the triangle inequality |
| EditDistance.ScriptTurns | computation/EditDistance/EditDistance/EditDistance.cpp:20-41 | The choices of the recursion make up a script that turns the first string into the second |
| EditDistance.NoShorterScript | computation/EditDistance/EditDistance/EditDistance.cpp:18-42 | No script is shorter |
| EditDistance.TrianglePrefix | computation/EditDistance/EditDistance/EditDistance.cpp:18-42 | The triangle inequality for all prefixes |
| EditDistance.Neighbours | computation/EditDistance/EditDistance/EditDistance.cpp:28-41 | A character more on either side changes the distance by at most one |
| EditDistance.CommonSuffix | computation/EditDistance/EditDistance/EditDistance.cpp:31-32 | The shortcut taken any number of times |
| EditDistance.Min | computation/EditDistance/EditDistance/EditDistance.cpp:13-16 | No more than any of the three, and one of them |
| BinomialHeap.BinomialHeap.Insert | computation/BinomialHeap/BinomialHeap/BinomialHeap.cpp:83-93 | The heap is again one of binomial trees in heap order, with the key and its node more, and the degrees of its roots are the positions of the 1 bits of the number of nodes |
| BinomialHeap.BinomialHeap.Merge | computation/BinomialHeap/BinomialHeap/BinomialHeap.cpp:142-185 | For any two lists of trees the links set lead through exactly the trees the specification of the loop names, and only sibling links change |
| BinomialHeap.BinomialHeap.Union | computation/BinomialHeap/BinomialHeap/BinomialHeap.cpp:95-138 | For any two heaps: a heap again, in heap order, with all nodes of the first and those of the second in trees whose degrees stay; no key is lost if and only if the degrees meet |
| BinomialHeap.BinomialHeap.MergeWith | computation/BinomialHeap/BinomialHeap/BinomialHeap.cpp:101-103 | The merged list, and the nodes that the links still lead to |
| BinomialHeap.BinomialHeap.Consolidate | computation/BinomialHeap/BinomialHeap/BinomialHeap.cpp:102-137 | The loop ends with the list the specification of linking gives, in heap order |
| BinomialHeap.BinomialHeap.TakeNext | computation/BinomialHeap/BinomialHeap/BinomialHeap.cpp:120-124 | A root takes its right neighbour as a child |
| BinomialHeap.BinomialHeap.GoBelowNext | computation/BinomialHeap/BinomialHeap/BinomialHeap.cpp:125-133 | A root goes below its right neighbour, and the link to it is moved |
| BinomialHeap.BinomialHeap.BinomialLink | computation/BinomialHeap/BinomialHeap/BinomialHeap.cpp:64-70 | The first root becomes the first child of the second, whose degree grows |
| BinomialHeap.BinomialHeap.Search | computation/BinomialHeap/BinomialHeap/BinomialHeap.cpp:268-282 | The first node with the key, children before siblings, or none exactly if there is none |
| BinomialHeap.FoundInOrder | computation/BinomialHeap/BinomialHeap/BinomialHeap.cpp:268-282 | Of several nodes with the key the search finds a root before what is below it, and that before the next root |
| BinomialHeap.BinomialHeap.DecreaseKey | computation/BinomialHeap/BinomialHeap/BinomialHeap.cpp:286-315 | Heap order is kept and one occurrence of the key is replaced, without a change to the trees; an absent key or a larger new key changes nothing; on an empty heap the search reads through a null pointer |
| BinomialHeap.BinomialHeap.BubbleUp | computation/BinomialHeap/BinomialHeap/BinomialHeap.cpp:304-313 | Exchanging keys upwards restores heap order and keeps keys and trees |
| BinomialUnion.UnitedExactly | computation/BinomialHeap/BinomialHeap/BinomialHeap.cpp:95-185 | For any two heaps, Union gives a heap, whose keys are all keys of both if and only if the degrees meet: but for a first one below all of the first list, each degree of the second is one of the first or beyond its end, and if some are beyond it, its last degree is in both |
| BinomialUnion.MergeKeepsExactly | computation/BinomialHeap/BinomialHeap/BinomialHeap.cpp:167-182 | The loop of Merge passes no tree without a link to it exactly if the degrees meet |
| BinomialUnion.MergedTrees | computation/BinomialHeap/BinomialHeap/BinomialHeap.cpp:142-185 | Merge of any two heaps keeps all trees of the first, and of the second just those whose degree is one of the first, or is the first of the second and below all of the first, or is beyond the end of the first when the last degree there is in both; it adds none |
| BinomialUnion.NodesKept | computation/BinomialHeap/BinomialHeap/BinomialHeap.cpp:142-185 | The nodes of the merged list are those of the first and of the trees that stay |
| BinomialUnion.LostExample | computation/BinomialHeap/BinomialHeap/BinomialHeap.cpp:167-182 | A tree of two nodes merged into a heap of one node is lost |
| BinomialUnion.InsertedIsHeap | computation/BinomialHeap/BinomialHeap/BinomialHeap.cpp:83-138 | For every heap and new key, inserting gives a heap of one node more with just that key more |
| BinomialValues.MergedPairs | computation/BinomialHeap/BinomialHeap/BinomialHeap.cpp:142-185 | What Merge leaves of two heaps has degrees in order, none more than twice |
| BinomialValues.ConsolidatedIsHeap | computation/BinomialHeap/BinomialHeap/BinomialHeap.cpp:104-137 | Linking restores growing degrees, with up to three neighbours of one degree on the way, and loses neither nodes nor keys |
| BinomialValues.DegreesAreOnes | computation/BinomialHeap/BinomialHeap/BinomialHeap.cpp:83-138 | Root degrees of a heap are the 1 bits of its size, in increasing order |
| BinomialValues.KidsSize | computation/BinomialHeap/BinomialHeap/BinomialHeap.cpp:64-70 | A tree of degree d has 2^d nodes |
| SubtreeTest.IsSubtree | computation/BinarySubTree/BinarySubTree/BinarySubTree.cpp:55-84 | True exactly if S is empty or a complete subtree of T, for all trees that fit the buffers with keys other than the two marks |
| SubtreeTest.StoreInorder | computation/BinarySubTree/BinarySubTree/BinarySubTree.cpp:28-38 | The string is appended to the buffer and the index moved behind it |
| SubtreeTest.StorePreOrder | computation/BinarySubTree/BinarySubTree/BinarySubTree.cpp:42-52 | The string is appended to the buffer and the index moved behind it |
| SubtreeTest.PrefixFree | computation/BinarySubTree/BinarySubTree/BinarySubTree.cpp:42-52 | No preorder string begins another one |
| SubtreeTest.SubtreeAt | computation/BinarySubTree/BinarySubTree/BinarySubTree.cpp:42-52 | At every place of a preorder string the string of a subtree begins |
| SubtreeTest.WithinOccurs | computation/BinarySubTree/BinarySubTree/BinarySubTree.cpp:69-83 | Both strings of a subtree occur in those of the tree |
| SubtreeTest.OccursExactly | computation/BinarySubTree/BinarySubTree/BinarySubTree.cpp:69-83 | The preorder string occurs exactly if the tree is a subtree, and then the inorder string occurs too |
| Triplets.CountTriplets | computation/Triplets/Triplets/Triplets.cpp:69-106 | The number of index triples i<j<k of the array as given whose values sum to less than the bound; the array is sorted afterwards |
| Triplets.TripletsAre | computation/Triplets/Triplets/Triplets.cpp:69-106 | What is counted are exactly the triples i<j<k with a sum below the bound |
| Triplets.CountIsSize | computation/Triplets/Triplets/Triplets.cpp:69-106 | Counting along the sequence is the number of choices of indices |
| Triplets.CountOfPermutation | computation/Triplets/Triplets/Triplets.cpp:71-72 | Sorting does not change the number |
| Triplets.FirstFitsAll | computation/Triplets/Triplets/Triplets.cpp:95-102 | If first and last are small enough, the first goes with all others: k-j at a time |
| Triplets.LastTooLarge | computation/Triplets/Triplets/Triplets.cpp:90-93 | If they are too large, the last is in no pair |
| CuckooHash.Cuckoo.PlaceAll | computation/Cucoo/Cucoo/Cucoo.cpp:106-120 | Each key in turn is placed as place does, from empty tables on, and what is reported is what place left over; every stored key is at its own slot and in one table; it leaves the tables exactly if a key has no position in them; else the keys stored or reported are exactly those given, and with distinct keys none is both |
| CuckooHash.Cuckoo.Place | computation/Cucoo/Cucoo/Cucoo.cpp:54-88 | An absent key displaces the one at its position, that one the one at its position in the other table, and so on, until a position is free or the calls are used up, when the key in hand is reported; a key that is there changes nothing; keys are conserved: stored afterwards, with the one reported, is stored before with the new key; a negative key without positions reads outside the tables |
| CuckooHash.Cuckoo.InitTable | computation/Cucoo/Cucoo/Cucoo.cpp:27-32 | All positions are free |
| CuckooHash.ReportedExactly | computation/Cucoo/Cucoo/Cucoo.cpp:54-88 | An absent key leads to a report if and only if as many displacements as calls are left are possible, each key absent and at its own position in turn; the key they end with is reported |
| CuckooHash.FreeIsPositioned | computation/Cucoo/Cucoo/Cucoo.cpp:86-87 | An absent key whose own position is free is stored there, and nothing else changes |
| CuckooCycle.NeverEndsExactly | computation/Cucoo/Cucoo/Cucoo.cpp:48-62 | Displacing would never end if and only if the key comes out again with the tables as they were |
| CuckooCycle.CycleReported | computation/Cucoo/Cucoo/Cucoo.cpp:48-62 | What never ends is always reported as a cycle; what is reported is one if as many calls are allowed as there are tables of these keys |
| CuckooExamples.FalseCycle | computation/Cucoo/Cucoo/Cucoo.cpp:56-62 | With the keys 0, 11, 1, 12, 22 a cycle is reported and 22 left out, though there is none and one call more would place it |
| CuckooExamples.Collision | computation/Cucoo/Cucoo/Cucoo.cpp:80-87 | 20 and 53 have one position in the first table: 53 gets it, 20 goes to the second table, and nothing is reported |
| CuckooHash.WrittenInPlace | computation/Cucoo/Cucoo/Cucoo.cpp:80-87 | Writing an absent key over a position displaces just the key that was there |
| CuckooHash.FoundByHash | computation/Cucoo/Cucoo/Cucoo.cpp:68-73 | A key is stored exactly if it is at one of its two slots, and it is at one only |
| CuckooHash.BoundsExactly | computation/Cucoo/Cucoo/Cucoo.cpp:38-45 | Both positions of a key are inside the tables if and only if it is not negative, or it and its quotient are multiples of the length, as C divides |
| CuckooHash.HashDigits | computation/Cucoo/Cucoo/Cucoo.cpp:38-45 | The two positions of a key that is not negative are its last two digits in base 11 |

## Left out

Of the programs modelled:

- TwoThreeTree.CTree.Insert: keys are integers instead of the template type; allocation does not fail.
- TwoThreeTree.CTree.DeleteItem: takes the key by value. The source takes its address, and if that is the address `find` returned for a key of an inner node, `swapWithInOrderSuccessor` overwrites what it points to (`CTree.h:976-984`), and `removeFromLeaf` then looks for the wrong key.
- TwoThreeTree.CTree.RemoveAll: that no deleted node is read is stated of the reads in the log, which every read of the loop goes through.
- TwoThreeTree.CTree.Print: the keys are returned instead of written to the console.
- GraphSearch.Graph.AP: the vertices are returned instead of written to the console; the static clock is a field of the graph, so it goes on from one call to the next as in the source.
- RedBlackTree.RBTree.Insert: the constructor's unset colour is taken to be red, and after the null read of a key that is there already nothing more is modelled. `inorder` and `levelOrder` only print.
- BinomialHeap.BinomialHeap.Union: `Extract_Min`, `Delete` and `Revert_list` are not modelled; they leave parent links to the node taken out. `Display` only prints.
- BarrierProgram.StepKeeps: the cycle is an unbounded integer, where the source compares an `int` with an `unsigned long`; creating a thread and initialising its data is one step; pthread errors and cancellation do not happen.
- WorkCrew.StepKeeps: a directory is the list of entries that can be read from it, or cannot be opened; symbolic links and other files are plain items. Searching a file, path buffers and pthread errors are not modelled, and the count does not overflow.
- Pipeline.StepKeeps: values are unbounded; the array that records numbers waiting for stage 0, which nothing reads, is dropped.
- WorkQueue.StepKeeps: one thread calls `workq_destroy` once; creating a server does not fail, and a wait fails only by timing out.
- AlarmList.StepKeeps: reading commands, messages and the clock is not modelled; time is a number that does not go back.
- SubtreeTest.IsSubtree: `strstr` is modelled by what it decides.
- Triplets.CountTriplets: `std::sort` is modelled by a method that sorts; sums do not overflow.
- UnionFindCycle.IsCycle: `malloc` does not fail; the edges' vertices are in range, which the source does not check.
- Which waiting thread a signal reaches is not modelled: a wait may end at any time. That signals are sent is stated for `workq_add`, `workq_destroy` and `alarm_insert` (`WakesExactly`, `InsertWakes`).
- Liveness under a scheduler is not modelled. That every run of the work crew and of the barrier program ends is proved (`RunEnds`, `RunShortens`); that every alarm can fire, every started value can come out, and every accepted element can be served, whatever has happened, is proved too (`EachAlarmFires`, `EachValueComesOut`, `EachElementServed`).

Not modelled at all:

- `AVL.cpp`: a rotation computes the new root's height from a stale one, so the balance does not hold.
- `Cyclic.cpp`, `FindMedian.cpp`, `ThreadedTree.cpp`, `susp.c`: the code does not do what it is for.
- `barrier.c` and `alarm_mutex.c`: variants of the barrier and the alarm thread above.
- `Game.cpp`, `FindLongestPath.cpp`: fixed small tables.
- List, tree, socket, signal, template and shell exercises: only easy members.
