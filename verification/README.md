# DiStore, verified

DiStore is a key-value store.  A compute node keeps a skip list (the search layer) over the anchors of
data nodes, which are record arrays of fixed capacity in remote memory (the data layer).  Threads that
insert into the same node compete for it; the winner serves the losers.  This project models the parts
of DiStore that decide whether it keeps its data, and proves what they promise.

Check it with `dafny verify dfyconfig.toml` (Dafny 4.11).

## The model

- `Keys` - keys and anchors.  The source compares byte strings; here an integer stands for each string,
  and `RankIsOrder` proves that strings of bounded length are ordered and distinct exactly as their
  integers.  The head of the skip list has an anchor below all of them.
- `Levels`, `SearchLayer` - what a skip list's pointers must be, as values, and the skip list itself: a
  class over linked nodes, every pointer write of insert, calibrate, update, remove and the level-0 link
  proved against it.  `random_level` is an argument of any value from 1 to 16.  A node's inline array of
  forward pointers is a sequence field.
- `Interleaving` - the search layer under concurrency: any number of writers link nodes at level 0, one
  thread calibrates, any number of readers descend.  Every write of a shared pointer is a step, and so is
  every single read of one by a reader, in the loop tests and in the tests after the loops.  `calibrate`
  reads only pointers above level 0, which nobody else writes; its reads of one pointer in a row are one
  step.  `InterleavingProgress` shows that nothing gets stuck.  `Refinement` ties the list's `insert` to its
  step.
- `Contention`, `ContentionSafety`, `ContentionFates`, `ContentionProgress`, `ContentionTargets` and
  `ContentionRuns` - the protocol of `try_win_for_insert`, `try_win_for_update`, `failed_write`,
  `help_others` and `drain_pending` as a transition system with one step per atomic operation, for any
  number of threads, nodes and requests; what every run keeps, how an operation goes on and ends, that no
  holder of a node is held up, on which node a request is answered, and some runs.  The winner stores its own record first, growing its buffer until it has room; after that, growing
  the buffer and serving requests come in any order, which covers the order the source takes and more.
- `DataLayer`, `Split`, `PutPaths` - the record array with its fingerprint filter (the hash is an
  arbitrary function), the selection and partition of a split, and the four put paths, with any number of
  requests that wait while the winner serves, slip in just before it counts, or come after the count.
- `Placement`, `LocalStage`, `ComputeNodes` - which node a key belongs to, the local stage, and a compute
  node in sequential use: skip list, remote images and local nodes together are one map.
- `Pages`, `Allocator` - the compute node's allocator, first as values (the books of what was handed
  out), then as the classes that implement it.  Page size and chunk classes are the release build's;
  segment size and group size are parameters.
- `MemoryNode`, `RemotePointer` - the segment bitmap, and the packing of node id and address.
- `Failures` - runs of these methods that end badly.

Remote reads and writes are atomic copies between a store of images and a buffer.  Clocks and the
network have no part in the model.

## What does not hold

Where the code does not do what it is meant to, the model keeps the code, and says when it does:

- `fuzzy_search` reads its walker's pointer up to four times after its loops, at five places.  It returns
  null, or a node that is not the nearest one, exactly in the cases `ReadEndsRightIff` gives: null if the
  last comparison finds a node between walker and key, the key's own included; a wrong node if one is
  linked between the equality test and the read of the pointer to be returned.  `FuzzySearchCanGiveUp` and
  `FuzzySearchCanMiss` are runs; `UndisturbedSearchIsRight` says when nothing of this happens.
- `max_depth` bounds the losers admitted at a time, not the requests that wait: an admitted loser may
  enqueue late, in a later hold of its winner.  `ManyMayWait` is a run to any number of requests.
- So a split may meet more records than its halves have slots for.  A put decides by the requests it
  counts, and then meets those too that come after the count.  `put12` loses records exactly if it counts
  more than 4 and more than 19 are wanted on the node; `put14`, which writes its right half as a node of 10
  although it tags it as one of 12, exactly if it counts more than 2 and more than 18 are wanted; `put16`
  exactly if it counts 1 or 2 and, with the late ones, more than 19 are wanted (`LacksSlots`; `Failures`
  has a run for each).  `put10` tells what does not fit to retry.
- A request carries no node, although src/components/handover_locktable/handover_locktable.hpp:28-30
  means winners to check it.  A late one is answered on whatever nodes its owner holds by then
  (`AnsweredWhereItBelongs` says when that is the right one, `AnsweredElsewhere` is a run where it is not).
- A winner looks at its own node's anchor only, so it also grants a key that a node split off since has
  taken over (`GrantedWhereItBelongs` says exactly when, `GrantedOffRange` is a run).
- `async_update` links a node before it sets the node's `backward`.  An insert that reads the pointer in
  between and wins the node dereferences null (`CrashesIff`, `CrashIsFinal`; `BackwardIsMissing` is a run).
- A request that slips in after `help_others` found the queue empty is counted, so a node with room may be
  split; few records are divided into all but the greatest, and the greatest (`LeftSize`,
  `Put16SplitsThree`).  If there is only one record, the left half is empty, and the right half's anchor may be the node's own
  (`SplitAnchor`, `Put16RepeatsAnchor`).
- `morph_node` counts non-zero fingerprints, so a key whose fingerprint is zero can make it pick a type
  that is too small (`MorphFits`, `MorphCanLoseARecord`).  `ComputeNodes` assumes that no key put has
  fingerprint zero.
- In the local stage, putting the second anchor again (or the only anchor) breaks the ranges of the two
  nodes, at once or by the flush, and updating it misses it (`LocalNodes.Put`, `LocalNodes.Update`;
  `PutBreaksRanges` and `UpdateMisses` are runs).
- A page of chunks of up to 16 bytes never looks full, because its offset is a byte, and hands its chunks
  out again from the 257th request on (`AllocateMany`, `ServeRequests`).
- The segments of a memory node begin a page behind its region's start, while the bitmap is made for the
  whole region, and rounded up.  So segments are handed out that end beyond the region, exactly if no free
  slot's segment lies inside (`MemoryNodeAllocator.Allocate`; `SegmentPastHeader` and `SegmentPastCount`
  are runs).
- A get of a key below every anchor reads the placeholder the head is given, and whatever lies behind it.
  It finds nothing, as it should, exactly if a read brings the checksum zero and then at most sixteen
  records, none of which answers to the key (`RemoteGet`); zeroed memory does.  Otherwise it retries as long as the
  checksum is not zero, or looks past what it has read, or returns a record that is not in the store
  (`PlaceholderMisleads`).
- Packing does not keep addresses of the upper canonical half (`PackingKeeps`), against the comment at
  src/components/memory/remote_memory/remote_memory.hpp:8-10.

## Model

| member | source | states |
|---|---|---|
| ContentionSafety.NodesAreOwnedByTheirWinners | src/components/node/compute_node/compute_node.hpp:237-304 | in every state of every run, a node's `ctx` names a thread exactly when that thread is between its successful compare-and-swap and its release of the node; no two threads hold a node; an insert that has won holds its data node and that node's `backward` |
| ContentionSafety.OnlyTheOwnerReleases | src/components/node/compute_node/compute_node.cpp:537-539 | over any step of any run a node stays with its owner, or becomes free by a step of that owner: the pair released is the pair acquired |
| ContentionSafety.NoWaitCycle | src/components/node/compute_node/compute_node.cpp:879-908 | no thread on its way through `failed_write` holds a node, and no chain of "blocked on the context of" returns to a thread on it, in any state of any run |
| ContentionSafety.ChainGetsLater | src/components/node/compute_node/compute_node.hpp:248-302 | along a chain of blocked threads the failed compare-and-swaps get strictly later |
| ContentionSafety.WaitsEnd | src/components/node/compute_node/compute_node.cpp:879-908 | every blocked thread is blocked, through finitely many others, on a thread that is not |
| ContentionSafety.AtMostFourAdmitted | src/components/node/compute_node/compute_node.cpp:884-907 | since `max_depth` was last set to 4, at most four losers got a positive depth, however their `fetch_sub` interleaves with the owner's writes of -1 and 0 |
| ContentionSafety.RequestsAreConserved | src/components/node/compute_node/compute_node.cpp:892-903 | a request sent is at all times in exactly one place: once in the queue of the context it was sent to, in that owner's hand, or answered, and then by that owner |
| ContentionSafety.AnswersAreFinal | src/components/node/compute_node/compute_node.cpp:297-306 | no later step of a run changes an answered request: it is answered at most once |
| ContentionSafety.AnswersAreTrue | src/components/node/compute_node/compute_node.hpp:328-357 | only the context's owner answers, and always with the record that was asked for: a reply that tells an insert to retry changed no buffer of any thread; a reply of success leaves the key in the owner's buffer for its side of the anchor, with the old value if it was there and the sender's if not, and every other key as it was |
| ContentionFates.OperationsEnd | src/components/node/compute_node/compute_node.cpp:410-435 | over any step, a thread keeps its operation until that is over, and an insert is over only when its winner has released its nodes or when its request has been answered and not told to retry: a loser goes on waiting for the same thread or tries again with the very same operation on the same node |
| ContentionFates.InsertsAreDone | src/components/node/compute_node/compute_node.cpp:879-908 | in every run, an insert that is over has either won, with its key in its own buffer before it let go of its nodes, or was dealt with in one step by the thread it lost to: inserted if absent in that thread's buffer for the key's side of its anchor, which had room, or, if that thread is busy with an update by then, treated as an update |
| ContentionFates.WinnerHasStored | src/components/node/compute_node/compute_node.hpp:359-394 | in every run, a winner on its way out was serving the same operation before, with its own record stored |
| ContentionFates.OwnComesFirst | src/components/node/compute_node/compute_node.hpp:367-371 | a winner deals with no request, and does not leave, before its own record is stored; storing it inserts it if absent exactly if there is room, and an update replaces the value |
| ContentionProgress.HolderLetsGo | src/components/node/compute_node/compute_node.cpp:462-547 | from every state a run reaches, a thread that holds a node and has not crashed gets by its own steps alone, whatever the others do or fail to do, to where it holds none: an insert that could not win the predecessor tries the same operation again, a winner has stored its record, growing its buffer if need be, and is done |
| ContentionFates.LosersTurn | src/components/node/compute_node/compute_node.cpp:884-907 | a loser spins exactly on a context of its own kind, sends its own key and value exactly if it found a positive depth, and an insert is over exactly if the answer does not say retry |
| ContentionFates.LosersAreOfAKind | src/components/node/compute_node/compute_node.cpp:467-475 | in every run, the kind a loser compares with is that of the operation its winner competes with, as long as the winner does |
| ContentionFates.DoorsOpenAndShut | src/components/node/compute_node/compute_node.hpp:248-304 | what each write of `max_depth` by an owner means for those that have lost to it: who can stop spinning and who would be admitted |
| ContentionFates.DrainsFirst | src/components/node/compute_node/compute_node.cpp:297-306 | a thread competes only once it has found its own queue empty, and a get never does |
| ContentionFates.QueuesAreFifo | src/components/handover_locktable/handover_locktable.hpp:20-58 | requests join a queue at its end, and only its owner takes them, from its front |
| ContentionSafety.RunKeepsInv | src/components/handover_locktable/handover_locktable.hpp:20-58 | the invariant behind the results above holds in every state of every run, for any number of threads, nodes and requests |
| ContentionSafety.CrashesIff | src/components/node/compute_node/compute_node.hpp:254-262 | in every run, an insert reads a null predecessor exactly if some thread is between linking its node and setting that node's `backward`, and it crashes exactly if it then wins the node |
| ContentionSafety.CrashIsFinal | src/components/node/compute_node/compute_node.hpp:254-262 | a thread that has crashed stays where it is and keeps its node in all later states |
| ContentionTargets.AnsweredWhereItBelongs | src/components/handover_locktable/handover_locktable.hpp:28-30 | whenever a winner serves a request, its sender still waits with the operation it was sent for; it is answered on the node it was sent for exactly if the owner holds that node then and the key is on its side of the anchor; and the owner does hold it if the sender lost its competition during the present hold |
| ContentionTargets.RunKeepsMeant | src/components/node/compute_node/compute_node.hpp:237-304 | in every state of every run, a thread that lost to its owner during the owner's present hold competed for a node the owner holds |
| ContentionTargets.GrantedWhereItBelongs | src/components/node/compute_node/compute_node.hpp:336-355 | a winner grants a request exactly if the buffer on the key's side of its own anchor has room; if the node was responsible for the key at some earlier time of the run, it still is at the answer exactly if no node with an anchor above that node's and not above the key was linked since |
| ContentionRuns.ManyMayWait | src/components/node/compute_node/compute_node.cpp:884-907 | for every n there is a run to a state in which an insert winner has n requests in its queue |
| ContentionRuns.AnsweredElsewhere | src/components/node/compute_node/compute_node.hpp:328-357 | a run in which a request is answered on a node it was not sent for, its owner having let go of that node |
| ContentionRuns.GrantedOffRange | src/components/node/compute_node/compute_node.hpp:336-355 | a run in which a request is granted on the node it was sent for, although another node has taken its key over |
| ContentionRuns.BackwardIsMissing | src/components/node/compute_node/compute_node.cpp:1056-1060 | a run in which an insert wins a node whose `backward` it has read as null |
| Interleaving.LevelsAreSortedSublists | src/components/search_layer/search_layer.hpp:56-58 | in every reachable interleaving of level-0 links, calibrate micro-steps and readers, following any level visits exactly the nodes linked on it in strictly ascending order; so every level is a sorted sublist of the one below |
| Interleaving.DrainedStatesAgree | src/components/node/compute_node/compute_node.cpp:1052-1071 | once the queue is drained, all forward pointers and the list's height depend only on which anchors were made with which level: neither the order of the splits nor the interleaving nor direct `insert` matters |
| Interleaving.ReadReturnsFloor | src/components/search_layer/search_layer.cpp:79-97 | a `fuzzy_search` whose last test and decision are one step returns the node with the greatest anchor at most the key, the head if there is none, whatever interleaved with its descent |
| Interleaving.ReadEndsRightIff | src/components/search_layer/search_layer.cpp:88-96 | every test after the loops reads the pointer again; a search that ends is right exactly if at its last read nothing lies between its walker and its key but the key's own node where the equality test found it, and it gives up exactly if the last read is the comparison and some node lies between |
| Interleaving.UndisturbedSearchIsRight | src/components/search_layer/search_layer.cpp:79-97 | over any run, a search is right if the nodes between its walker and its key are the same when it leaves its last loop and when it has returned |
| Interleaving.LeavesLastLoop | src/components/search_layer/search_layer.cpp:82-86 | a reader that leaves its last loop has no node between its walker and its key but perhaps the key's own |
| Interleaving.FuzzySearchCanGiveUp | src/components/search_layer/search_layer.cpp:92-96 | runs in which `fuzzy_search` returns null: a nearer node is linked in time, or the key's own node is |
| Interleaving.FuzzySearchCanMiss | src/components/search_layer/search_layer.cpp:88-90 | a run in which it returns another node although the key has one of its own |
| InterleavingProgress.CanDrain | src/components/node/compute_node/compute_node.cpp:1052-1072 | from every reachable state, whatever writers and calibration have under way can be finished while all readers stand still, and then every node is linked on all its levels |
| InterleavingProgress.SearchReturns | src/components/search_layer/search_layer.cpp:79-97 | from every reachable state, a search that is left alone returns, and has changed nothing of the list |
| Refinement.InsertIsAStep | src/components/search_layer/search_layer.cpp:3-34 | `insert` on a quiet list is the insert step of the interleaving model |
| Interleaving.RunKeepsInv | src/components/search_layer/search_layer.cpp:53-77 | pointers are exactly those the linked levels ask for, every node missing levels waits in exactly one place, and the predecessors `calibrate` recorded stay right under concurrent level-0 links |
| Levels.LinkStep | src/components/search_layer/search_layer.cpp:24-27 | linking a node at one level behind its predecessor leaves every pointer of the list the one the linked heights determine |
| Levels.SplicedIn | src/components/search_layer/search_layer.cpp:24-27 | an insert puts the new node between its predecessor and that one's old successor on each of its levels and changes no other pointer |
| Levels.SplicedOut | src/components/search_layer/search_layer.cpp:115-120 | a remove makes the predecessor take over the removed node's pointer and changes no other |
| Levels.SettledUnique | src/components/search_layer/search_layer.cpp:3-34 | anchors and heights determine all forward and backward pointers: how the list came about does not matter |
| Levels.InsertKeepsSettled | src/components/search_layer/search_layer.cpp:30-32 | after `insert` the backward pointers are again the exact inverse of level 0 |
| Levels.RemoveKeepsSettled | src/components/search_layer/search_layer.cpp:114-123 | after `remove` the backward pointers are again the exact inverse of level 0 |
| Levels.RaiseKeepsBottom | src/components/search_layer/search_layer.cpp:73-76 | calibrating a node changes no pointer of level 0 |
| SearchLayer.SkipList.Insert | src/components/search_layer/search_layer.cpp:3-34 | the anchor joins the sorted map with its location, linked on exactly its lowest levels; every level stays a sublist of the one below; exact backward links stay exact |
| SearchLayer.SkipList.Calibrate | src/components/search_layer/search_layer.cpp:53-77 | a node linked at the bottom only is afterwards linked on all its levels, with level 0 and the map unchanged |
| SearchLayer.SkipList.LinkBottom | src/components/node/compute_node/compute_node.cpp:1056-1060 | the right half is linked behind its node at level 0; all other backward pointers, the old successor's included, stay as they were |
| SearchLayer.SkipList.FuzzySearch | src/components/search_layer/search_layer.cpp:79-97 | on a list at rest: the node with the greatest anchor at most the key, the head if there is none, never null |
| SearchLayer.SkipList.SearchNode | src/components/search_layer/search_layer.cpp:171-188 | the node stored under the anchor, null exactly if the map has none |
| SearchLayer.SkipList.Update | src/components/search_layer/search_layer.cpp:36-44 | replaces the location of an anchor that is there, refuses any other, and changes nothing else of the map |
| SearchLayer.SkipList.Remove | src/components/search_layer/search_layer.cpp:99-132 | the anchor leaves the map and every level, backward links stay exact, the list's height drops to the highest level in use; false exactly if the anchor is not there, and then nothing changes |
| SearchLayer.SkipList.InsertThenRemove | src/components/search_layer/search_layer.cpp:3-132 | removing an anchor right after inserting it puts every forward and backward pointer of every node back |
| SearchLayer.SkipList.Descend | src/components/search_layer/search_layer.cpp:7-13 | the descent remembers on every level the last node before the key |
| SearchLayer.SkipListNode.constructor | src/components/search_layer/search_layer.hpp:25-47 | a fresh node of the given level, linked nowhere |
| Keys.RankIsOrder | src/components/search_layer/search_layer.cpp:8 | strings are ordered and distinct exactly as the integers that stand for them here |
| DataLayer.LinkedNode.Store | src/components/data_layer/data_layer.hpp:65-82 | inserts the key if it is absent, fails exactly if the node is full, keeps keys distinct and fingerprints in step |
| DataLayer.LinkedNode.Find | src/components/data_layer/data_layer.hpp:84-97 | the value in the slot that has the key, and none exactly if no used slot has it: the fingerprint filter never hides a stored key, whatever the hash |
| DataLayer.LinkedNode.Update | src/components/data_layer/data_layer.hpp:99-115 | replaces the value of a stored key in place; false exactly if the key is not there |
| DataLayer.AfterStoreInserts | src/components/data_layer/data_layer.hpp:65-82 | a store on a node with room is insert-if-absent on the node's map, one on a full node changes nothing, and keys stay distinct |
| DataLayer.AfterUpdateChanges | src/components/data_layer/data_layer.hpp:99-115 | an update changes the value of its key and nothing else of the node's map |
| DataLayer.MorphFits | src/components/node/compute_node/compute_node.hpp:398-419 | the type `morph_node` picks has room for all records exactly if it counted more fingerprints than the next smaller capacity, which it does whenever no used fingerprint is zero |
| DataLayer.MorphCanLoseARecord | src/components/node/compute_node/compute_node.hpp:401-408 | concrete fingerprints, one used one being zero, for which the picked type is too small |
| Split.ConstructReorderMap | src/components/node/compute_node/compute_node.hpp:429-458 | the selection loop picks the `left_cap + 1` least records in ascending order; once all are picked, it names the greatest one again and again |
| Split.SplitBuffer | src/components/node/compute_node/compute_node.cpp:1021-1049 | for any number of records: the left node gets exactly the `left_cap` least records, but never the greatest of all, the right one the others, and the anchor is the right one's least key |
| Split.SplitConserves | src/components/node/compute_node/compute_node.cpp:1039-1049 | the halves together are the old records as a multiset |
| Split.SplitSides | src/components/node/compute_node/compute_node.cpp:1025-1028 | the left half has the keys below the anchor and the right half those at or above it |
| Split.SplitLookup | src/components/node/compute_node/compute_node.cpp:1039-1049 | a lookup on the side its key belongs to finds what a lookup before the split found |
| Split.SplitDistinct | src/components/node/compute_node/compute_node.cpp:1039-1049 | both halves keep distinct keys |
| Split.MarksAreBelow | src/components/node/compute_node/compute_node.cpp:1025-1028 | giving the last picked record back leaves the marks on exactly the records below the anchor |
| PutPaths.HelpOthers | src/components/node/compute_node/compute_node.hpp:328-357 | no request is lost or doubled, and they are answered in their order; the node gains exactly the requests of its range, if absent, the predecessor those below, and what is granted is there; one below the anchor fails only on a predecessor with the full number of records of its type, or that is no data node; serving stops exactly at the first request of the node's range that finds the node full, which goes back to the end of the queue |
| PutPaths.TryPutToExistingNode | src/components/node/compute_node/compute_node.hpp:359-394 | the own record goes in first; what is left pending is exactly what `Counted` says, and what slips in before the count; anything else is left only if the node is full |
| PutPaths.HelpPred | src/components/node/compute_node/compute_node.hpp:306-326 | on a predecessor of 10, 12, 14 or 16 the request is stored exactly if fewer than 10, 12, 14 or 16 records are there; on anything else it fails |
| PutPaths.AnswersMean | src/components/node/compute_node/compute_node.hpp:336-355 | after any serving, what was granted is on the node of its range, and what was refused below the anchor found no room |
| PutPaths.PutAllMeans | src/components/node/compute_node/compute_node.cpp:73-99 | what a batch of inserts makes of a map, key by key: keys there before keep their values, and new ones have the value of their first record in the batch |
| PutPaths.ThreadBuffer.Put10 | src/components/node/compute_node/compute_node.cpp:451-547 | with any number of requests, waiting, slipping in before the count or late, they go into sixteen slots, and one of the node's range is told to retry only once these are full; the records fit the new type exactly if enough fingerprints were counted, and always if none is zero |
| PutPaths.ThreadBuffer.Put12 | src/components/node/compute_node/compute_node.cpp:550-645 | with any number of requests, waiting, slipping in before the count or late: which of write, morph and split is taken, and how many records each half gets; every record has a slot within the capacity of its node's type unless more than 4 were counted and more than 19 are wanted, and exactly then not; without late ones, exactly if at most 19 are wanted; requests are left only once the buffer is full |
| PutPaths.ThreadBuffer.Put14 | src/components/node/compute_node/compute_node.cpp:648-742 | the same with 2 counted and 18 wanted for the slots that are written, and 2 counted and 20 wanted for the capacity of the type tag |
| PutPaths.ThreadBuffer.Put16 | src/components/node/compute_node/compute_node.cpp:745-877 | with any number of requests, waiting, slipping in before the count or late: the split point and both types; every record has a slot within the capacity of its node's type unless 1 or 2 were counted and more than 19 are wanted, and exactly then not; so always, if none is late |
| PutPaths.ThreadBuffer.PutByType | src/components/node/compute_node/compute_node.cpp:406-448 | for every type: the node, or its halves, hold the old records and what was granted, inserted in order where absent; no request is lost; all records can be written exactly if the slots suffice for what was counted and is wanted |
| PutPaths.ThreadBuffer.EagerMorph | src/components/node/compute_node/compute_node.cpp:910-945 | what waits goes into the node, as far as its sixteen slots have room, and the node becomes one of 16 |
| PutPaths.ThreadBuffer.SplitNode | src/components/node/compute_node/compute_node.cpp:995-1050 | old records and what waited, as far as the 21 slots have room, divided around the new anchor, for any number of them |
| PutPaths.SizeIsWanted | src/components/node/compute_node/compute_node.hpp:340-355 | a node that serves what waits as long as it has room ends up with the number of keys in its old records, the winner's own and all requests of its range, or full |
| PutPaths.RoomForAll | src/components/node/compute_node/compute_node.cpp:481-500 | where the slots suffice for the old records and one for each of the batch, nothing is left and nothing of the node's range is refused |
| Failures.OverfullHappens | src/components/node/compute_node/compute_node.cpp:683-718 | a full node of 14 with five new records, and a full node of 12 with eight, want more slots than their splits have |
| Failures.Put14LosesARecord | src/components/node/compute_node/compute_node.cpp:683-718 | a put on a full node of 14 that grants all of four requests and has a record without a slot |
| Failures.Put12LosesTwoRecords | src/components/node/compute_node/compute_node.cpp:584-609 | a put on a full node of 12 that grants all of eight requests and has two records without a slot |
| Failures.Put16LosesARecord | src/components/node/compute_node/compute_node.cpp:769-835 | a put on a full node of 16 that counts its own record, grants three late requests, and has a record without a slot |
| Failures.Put16SplitsThree | src/components/node/compute_node/compute_node.hpp:374-391 | a put on a node of 16 with one record, for which a request slips in before the count: the node is split in two and one |
| Failures.Put16RepeatsAnchor | src/components/node/compute_node/compute_node.hpp:429-458 | the same with one key only: the left half is empty and the right half gets the node's own anchor |
| Placement.PutPlaces | src/components/node/compute_node/compute_node.cpp:73-99 | inserting a batch on the node responsible for its keys inserts it in the store, and keeps each node's keys from its anchor up to the next |
| Placement.SplitPlaces | src/components/node/compute_node/compute_node.cpp:995-1050 | splitting a node around one of its keys changes nothing in the store |
| Placement.SplitAnchor | src/components/node/compute_node/compute_node.cpp:1025-1026 | the right half's anchor is new, and lies between its node and the next anchor, exactly if it is not the node's own; it is not, if the left half keeps a record |
| Placement.UpdatePlaces | src/components/data_layer/data_layer.hpp:99-115 | updating a key on the node responsible for it updates it in the store |
| LocalStage.LocalNodes.QuickPutPickNode | src/components/node/compute_node/compute_node.cpp:374-404 | moving, swapping and setting local anchors keeps the two nodes a faithful picture of the store, and the node picked is the one responsible for the key |
| LocalStage.LocalNodes.Put | src/components/node/compute_node/compute_node.cpp:308-321 | the local stage is insert-if-absent, with node 0 in [anchor 0, anchor 1) and node 1 from anchor 1 on; these ranges break, at once or by the flush, exactly if the key is the second anchor, or the only anchor, put again |
| LocalStage.LocalNodes.Get | src/components/node/compute_node/compute_node.cpp:104-111 | a local lookup returns what the store has |
| LocalStage.LocalNodes.Update | src/components/node/compute_node/compute_node.cpp:153-160 | a local update succeeds exactly if the key is there and is not the second anchor, or the only one: that key is looked for on the wrong node |
| LocalStage.UpdateEither | src/components/node/compute_node/compute_node.cpp:153-160 | which of the two nodes an update reaches and what becomes of the store |
| Failures.SomeKeyClashes | src/components/node/compute_node/compute_node.cpp:374-404 | every local stage that holds a key holds one that breaks the ranges of its nodes when put again |
| Failures.PutBreaksRanges | src/components/node/compute_node/compute_node.cpp:374-404 | two keys are put, one of them again, and the nodes are out of order |
| Failures.UpdateMisses | src/components/node/compute_node/compute_node.cpp:153-160 | two keys are put, and an update of one of them finds nothing |
| ComputeNodes.ComputeNode.PutSequence | src/components/node/compute_node/compute_node.cpp:73-99 | any sequence of puts with any number of calibrations in between, through local stage, flush, every morph and split: the store is the map with the records inserted where absent, up to the first key that is below every anchor of the remote store, or clashes with the local stage |
| ComputeNodes.ComputeNode.NewKeysNeverClash | src/components/node/compute_node/compute_node.cpp:374-404 | a key that is not in a local store does not stop such a sequence |
| ComputeNodes.ComputeNode.RemotePut | src/components/node/compute_node/compute_node.cpp:406-448 | a put with any number of requests of losers of its node, whenever they come: index and data in agreement, the store is the old map with the own record and all granted ones inserted where absent, no request lost, up to four all granted if none is late; it throws exactly if every anchor is above the key |
| ComputeNodes.ComputeNode.RemoteGet | src/components/node/compute_node/compute_node.cpp:113-146 | a key at or above some anchor: what the store has; a key below every anchor: what the reads of the head's placeholder give, which is right exactly if one has the checksum zero, and the first such at most sixteen records, none of which answers to the key |
| ComputeNodes.GlimpsedMeans | src/components/data_layer/data_layer.hpp:84-97 | what a lookup in whatever lies at the placeholder comes to: nothing, or a look past what was read, exactly if no record within the first sixteen and within `next` has the key's fingerprint and the key |
| ComputeNodes.FirstAnswers | src/components/data_layer/data_layer.hpp:84-97 | and otherwise the value of the first such record |
| Failures.PlaceholderMisleads | src/components/node/compute_node/compute_node.cpp:132-145 | placeholders for which a get of a key below every anchor never returns, looks past what it has read, or finds a record that is not in the store; and zeroed memory, for which it is right |
| ComputeNodes.ComputeNode.Put | src/components/node/compute_node/compute_node.cpp:73-99 | one put, in whichever stage the store is |
| ComputeNodes.ComputeNode.Get | src/components/node/compute_node/compute_node.cpp:101-146 | one lookup, in whichever stage the store is: a local store always answers as the map |
| ComputeNodes.ComputeNode.QuickPut | src/components/node/compute_node/compute_node.cpp:308-372 | a put of the local stage, flush included, is insert-if-absent on the store |
| ComputeNodes.ComputeNode.Flush | src/components/node/compute_node/compute_node.cpp:324-371 | the flush leaves two remote nodes under the two anchors, holding exactly the old local records and the new key |
| ComputeNodes.ComputeNode.AsyncUpdate | src/components/node/compute_node/compute_node.cpp:1052-1072 | the right half gets an anchor of the given level, linked at the bottom, and a calibration request at the end of the queue exactly if it has more than one level; index and data agree again |
| ComputeNodes.ComputeNode.CalibrateOne | src/components/node/compute_node/compute_node.cpp:47-54 | the first request leaves the queue, its node is linked on all its levels, and nothing else of the list or the store changes |
| ComputeNodes.ComputeNode.DrainedIsComplete | src/components/node/compute_node/compute_node.cpp:1062-1070 | between operations of a compute node, a node not linked on all its levels has its request in the queue; so once the queue is empty, every node is on all its levels |
| ComputeNodes.ComputeNode.WriteBackSplitted | src/components/node/compute_node/compute_node.hpp:501-541 | both halves are written to fresh places before the anchor is led to the left one; no two anchors share a place; the predecessor and the links between remote nodes are left out |
| ComputeNodes.ComputeNode.WriteBackMorphed | src/components/node/compute_node/compute_node.hpp:470-499 | a morphed node is written to a fresh place and its anchor led there, with the new type; the predecessor and its link are left out |
| ComputeNodes.ComputeNode.WriteBackCurrent | src/components/node/compute_node/compute_node.hpp:372-386 | a node with room is written back where it came from |
| Pages.ClassFits | src/components/memory/compute_node/compute_node.hpp:213-227 | the chunk of the class chosen is at least as large as requested, and less than twice as large exactly for requests above 8 bytes; exactly requests up to 16 bytes get the smallest class |
| Pages.ChunksSound | src/components/memory/compute_node/compute_node.cpp:5-9 | each chunk lies inside one page behind the first page of its segment, has its class's size, is found by `page()`, and is disjoint from every other chunk handed out |
| Pages.ChunksApart | src/components/memory/compute_node/compute_node.cpp:5-9 | two chunks never overlap |
| Pages.WithChunkOk | src/components/memory/compute_node/compute_node.cpp:5-9 | the next slot of a page that is not full is a chunk not handed out before |
| Pages.WithPageOk | src/components/memory/compute_node/compute_node.cpp:63-76 | the next page of a segment was not offered before, and lies in no other segment |
| Pages.RepeatsIff | src/components/memory/compute_node/compute_node.cpp:5-9 | n allocations from a new page give some address twice exactly if n is above 256 |
| Allocator.PageMirror.AllocateMany | src/components/memory/compute_node/compute_node.cpp:5-17 | of n requests, each after asking whether a slot is left, a new page refuses some exactly if its slots do not suffice and its class is not the smallest, and hands an address out twice exactly if its class is the smallest and n is above 256 |
| Allocator.ServeRequests | src/components/memory/compute_node/compute_node.cpp:5-17 | a new page that serves n requests of one size hands an address out twice exactly if the size is at most 16 and n is above 256 |
| Allocator.PageMirror.Allocate | src/components/memory/compute_node/compute_node.cpp:5-9 | the chunk at the offset, which moves on modulo 256 |
| Allocator.PageGroup.Allocate | src/components/memory/compute_node/compute_node.cpp:28-39 | the first page that can serve the class gives the chunk, and no other page changes; none exactly if no page can |
| Allocator.PageGroup.Available | src/components/memory/compute_node/compute_node.cpp:41-61 | Ok exactly if some page can serve the class, EmptyPage exactly if none can but one is of the class |
| Allocator.SegmentTracker.OfferPage | src/components/memory/compute_node/compute_node.cpp:63-76 | a page not offered before, filed under its base address; used and available pages still make up the segment |
| Allocator.SegmentTracker.OfferPageGroup | src/components/memory/compute_node/compute_node.cpp:78-85 | a full group of new pages, with as many pages less available |
| Allocator.SegmentTracker.AssignNewSeg | src/components/memory/compute_node/compute_node.hpp:170-174 | the new segment is current, with all pages but the first available |
| Allocator.ComputeNodeAllocator.Refill | src/components/memory/compute_node/compute_node.cpp:142-157 | a new group of unused pages exactly if the segment can supply one, and otherwise nothing changes |
| Allocator.ComputeNodeAllocator.RefillSinglePage | src/components/memory/compute_node/compute_node.cpp:159-174 | every full page of the class is replaced by a new one that serves it, every other page of the group stays, and the segment has exactly as many pages less; it never runs out on the way |
| Allocator.ComputeNodeAllocator.Allocate | src/components/memory/compute_node/compute_node.cpp:87-124 | for sizes above 16: a chunk never handed out before, of the right class, from a page of the calling thread, exactly if the thread's group can serve the class or the current segment can supply a group; the group stays as it is if it can serve the class, has just its full pages of the class replaced if there are some, and is a new one otherwise, and the segment loses as many pages; no other thread's group changes |
| Allocator.ComputeNodeAllocator.SuppliedMeans | src/components/memory/compute_node/compute_node.cpp:108-122 | what an allocation leaves of the threads' groups and of the segment's pages, in each of these three cases, page by page |
| Allocator.ComputeNodeAllocator.LackIs | src/components/memory/compute_node/compute_node.cpp:41-61 | what decides between these three: which pages can serve the class and which are full |
| Allocator.ComputeNodeAllocator.AllocateOrGrow | src/components/node/compute_node/compute_node.cpp:265-277 | where a segment has room for a group, the compute node's allocate always gives a chunk; it asks for one new segment exactly if the thread's group cannot serve the class and the current segment cannot supply a group |
| Allocator.ComputeNodeAllocator.GroupsApart | src/components/memory/compute_node/compute_node.hpp:234-235 | no two threads share a page |
| Allocator.ComputeNodeAllocator.PagesConserved | src/components/memory/compute_node/compute_node.hpp:158-161 | `offset + available_pages` is constant per segment |
| Allocator.ComputeNodeAllocator.ChunkFound | src/components/memory/compute_node/compute_node.cpp:126-139 | a chunk's page is the key under which the mirror that produced it is filed in its segment |
| MemoryNode.Bitmap.GetEmpty | src/components/memory/memory.hpp:62-73 | takes the least free slot and changes no other bit; none exactly if all are taken |
| MemoryNode.Bitmap.FindEmpty | src/components/memory/memory.hpp:50-60 | the least free slot |
| MemoryNode.Bitmap.Unset | src/components/memory/memory.hpp:75-79 | frees exactly its slot |
| MemoryNode.SetBit | src/components/memory/memory.hpp:65-66 | setting a bit through its mask changes that bit only |
| MemoryNode.ClearBit | src/components/memory/memory.hpp:78 | clearing a bit through its mask changes that bit only |
| MemoryNode.MemoryNodeAllocator.Allocate | src/components/memory/memory_node/memory_node.hpp:17-26 | a segment that is not out, at the least free slot; it ends inside the region exactly if some free slot's segment does |
| Failures.SegmentPastHeader | src/components/node/memory_node/memory_node.hpp:108-131 | a region of one segment's size: the first segment ends a page beyond it |
| Failures.SegmentPastCount | src/components/memory/memory_node/memory_node.hpp:12-25 | a region with room for one segment behind the header: the second segment begins where the region ends |
| MemoryNode.MemoryNodeAllocator.Deallocate | src/components/memory/memory_node/memory_node.hpp:28-32 | recovers the slot an address was allocated for and frees that slot only |
| MemoryNode.MemoryNodeAllocator.LiveDisjoint | src/components/memory/memory_node/memory_node.hpp:23-25 | segments out at the same time are disjoint |
| MemoryNode.SlotRecovered | src/components/memory/memory_node/memory_node.hpp:29-30 | dividing the offset gives the slot back |
| RemotePointer.PackingKeeps | src/components/memory/remote_memory/remote_memory.hpp:29-36 | packing keeps the node id exactly if it is below 64 and the address exactly if it is below 2^48; the tag and null tests are right |
| RemotePointer.OffsetKeeps | src/components/memory/remote_memory/remote_memory.hpp:94-104 | offsetting moves the address and keeps the node id, as long as the address stays below 2^48 |
| RemotePointer.ChunkAddress | src/components/memory/remote_memory/remote_memory.hpp:57-63 | every chunk cut from a packed segment keeps the node id, and its address is the segment's plus its distance into it |
| RemotePointer.ChunkPointer | src/components/memory/remote_memory/remote_memory.hpp:106-111 | `page()` of a chunk is the key under which its page's mirror is filed |

## Left out

- Interleaving.DrainedStatesAgree: `insert` is a step of an otherwise quiet list, which is where the source uses it; `Refinement.InsertIsAStep` says that it is one.
- Interleaving.ReadReturnsFloor: takes the last loop test and the decision as one step; what the separate reads of the source do is `Interleaving.ReadEndsRightIff`.
- SearchLayer.SkipList.Insert: anchors are distinct, as in every use the source makes of it; memory of removed nodes is not modelled.
- SearchLayer.SkipList.Remove: needs some anchor at or above the key, because the source reads the successor without a test; needs exact backward links and calibrated nodes, because the source frees the node.
- SearchLayer.SkipList.LinkBottom: sets the new node's `backward` before it is linked, while the source sets it right after; the step in between is `ServePublish` in `Contention`.
- ComputeNodes.ComputeNode.RemotePut: two kinds of batch are excluded (`Troubled`): those for which a split has no slots, by the condition `PutPaths.ThreadBuffer.PutByType` gives, and those that make it split the node's own anchor off; so are keys with fingerprint zero; requests of losers of the predecessor are part of `PutPaths`, not of this claim, because a put that finds room does not write the predecessor back; the write-back of an unchanged predecessor is left out.
- ComputeNodes.ComputeNode.RemoteGet: what lies at the head's placeholder is an argument, arbitrary and read afresh in every retry.
- ComputeNodes.ComputeNode.Put: a key that clashes with the local stage is excluded, because the store no longer knows such a key's node; what happens then is `LocalStage.LocalNodes.Put`.  The same goes for `QuickPut`.
- ComputeNodes.ComputeNode.AsyncUpdate: places in remote memory are numbered; that they do not overlap is the subject of `Allocator`.
- Allocator.ComputeNodeAllocator.Allocate: sizes up to 16, for which the claim is false; refills are atomic, as they are under the source's mutex; `page_id`, which nothing reads, is not modelled.
- Allocator.ComputeNodeAllocator.AllocateOrGrow: the new segment is one a memory node had free; sizes up to 16 as above.
- RemotePointer.PackingKeeps: shifts and masks are written as arithmetic on words; on the overload for pointers the node id is masked by the complement of 0xc0, which agrees with this one for ids below 64.
- Checksums of data nodes, the retry of a lookup on one that does not match, and the links between remote nodes (`llink`, `rlink`).
- `ComputeNode::update` beyond its competition and its local branch: it writes back from another offset of the buffer than it read to.
- `scan`, `inplace_split_node` (never called), `free` and the recycling of segments.
- RDMA, eRPC, sockets, configuration files, statistics and the workload generators.
- That a waiting thread is ever answered: requests left in a queue are answered at the owner's next operation.
- The search again after a split: `put_dispatcher` retries on the same node, so ranges are claimed for sequential runs only (see `GrantedWhereItBelongs`).
