# Verification of the storage engine's concurrent core

This project models seven parts of the in-memory transaction engine in Dafny and proves what they
promise. `dafny verify dfyconfig.toml` checks all of it.

**The B-tree** (`BTree*.dfy`) is the ordered multimap behind the indexes. Node memory is a map from
addresses to records (values, children, count, room) beside the parent and position links; freeing
a node removes its address, so a stale pointer cannot be followed. `BTreeWeave`, `BTreeHeap`,
`BTreeCut` and `BTreeReshape` say what splitting, merging and sharing do to the in-order listing of
any linked tree; the node operations in `BTreeNode`, `BTreeSplit` and `BTreeRoot` are the loops of
the source, each shown to be such a reshaping; `BTreeRoom`, `BTreeInsert`, `BTreeErase`, `BTreeMend`
and `BTree.dfy` put them together. The class `BTreeMultimap.BTree` is specified by one sorted
sequence: insertion puts one value in, erasure takes one out, iterators are ranks.

**The DBX optimistic protocol** (`Dbx*.dfy`) is a state machine over the steps that the latch, the
counters and the hardware transaction make atomic; testing the counter of a garbage entry and freeing
the version are two steps, with anything in between. Its two theorems range over all runs: committed
transactions are serializable in commit order, and versions are reclaimed safely. No restriction to
one read-write access per record and transaction is needed. `DbxRuns` tells from the steps and the log
alone when a commit goes through (exactly if nobody has since written what it saw), what it reads and
writes, and which garbage is freed. `DbxManager` holds the loops themselves, each refining a step.

**The wait-die lock queue** (`LockWait`, `LockContent`, `LockSystem`): one record's queue, the code
that implements it, and all records' queues together: no deadlock, and the smallest timestamp never
dies.

**Timestamps, log, reorder, replay** (`Timestamps`, `LogFormat`, `ValueLog`, `Reorder`, `Replay`,
`Recovery`). `Recovery` joins them: the store that any execution of committing threads ends in is
what comes back from the bytes they logged, however the replay threads interleave.

**Version chains** (`History`, `Snapshots`, `HistoryList`, `MvLock`): snapshots under writes and pruning
while all threads' timestamp slots grow, how commits take and show their timestamps, the doubly linked
list that implements the chain, and the read/write/certify lock.

**H-Store partition locking** (`HStore`, `HStorePartitions`, `ShardProcedures`): ordered locking of
partition sets, the sets the two executors compute, and the selects of the shard procedures they are
computed for. **Shard routing** (`ShardRouting`, `ShardLoading`): a record's partition, its key's, and
the one the shard procedures look in.

## What does not hold as written

Each is stated with a concrete input, and where a caller could avoid it with the exact condition.

- The minimum thread timestamp is computed with two loads per slot. If a slot that is below the
  running minimum grows between its two loads, the pruning threshold can pass a live snapshot, which
  then reads the record's initial data (`History.TornReadExample`). The threshold passes a snapshot if
  and only if the loads are torn there (`History.MinLoopExact`, `History.ThresholdExact`), and the
  snapshot is lost if and only if that happens to a write that prunes a version it needs
  (`History.SnapshotReads`, `History.SnapshotExact`).
- A snapshot is the maximum of the thread slots, and a commit sets its slot after it has installed its
  versions. So a slower commit with a smaller timestamp can install a version the snapshot then reads
  (`Snapshots.LateExample`): that happens if and only if its thread had taken the timestamp before the
  reader's loop ended and has not shown it since (`Snapshots.LateIff`), and a reader keeps what it reads
  if and only if there is no such write and none is lost (`History.SnapshotExact`).
- The local timestamp counter has 32 bits. The order of commit timestamps holds if and only if the
  bumped counter fits (`Timestamps.AboveIffFits`, `Timestamps.OverflowExample`).
- The log merge takes timestamp 2^64-1 for "none" and drops such entries and all behind them: it is a
  permutation if and only if there are none (`Reorder.PermutationIff`, `Reorder.DropExample`).
- With no partition columns and column 0 in the primary key, the key-side hash takes the zero in an
  unused array slot for column 0 (`ShardRouting.ConfusedExample`). The hashes agree if and only if
  column 0 begins with four zero bytes (`ShardRouting.ConfusedDiffers`), the partitions if and only if
  its first word is 0 modulo their number (`ShardRouting.ConfusedRoutes`); other records can be
  inserted but not found (`ShardRouting.ShardTable.SelectKeyRecord`).
- Sharded tables put a record in the partition of their own hash, as the benchmark's partition function
  does not override it. A record whose one partition column holds an identifier is one partition behind
  the one the shard procedures look in (`ShardLoading.LoadingExample`); without partition columns it is
  in partition 0. They look in the right one if and only if there is one partition (`ShardLoading.OneBehind`), or the partition count
  divides the identifier minus 1 (`ShardLoading.AllInFirst`).
- Equal timestamps on one key make replay depend on the order (`Replay.TieExample`). The order does not
  matter if and only if the updates of a key that share its largest timestamp are equal, where that
  timestamp is above the record's (`Replay.ConfluentIff`). Within one execution such ties do not occur,
  because a commit is strictly above what it overwrites (`Recovery.StepNew`).
- Replay does not bring inserted records back, and follows a null pointer at the update of a record that
  is not in the table. If inserted records get into the table, so that later transactions can update
  them, recovery works if and only if none has (`Recovery.RecoversStore`, `Replay.ReplayableIff`,
  `Recovery.InsertedExample`). In the managers with scalable timestamps the call that would put them there
  is commented out.
- The logger's test for "no epoch yet" compares an unsigned field with -1 as integers and never
  succeeds. So the first commit writes an empty chunk of epoch 2^64-1 unless that is its own epoch
  (`ValueLog.ThreadLog.FirstCommit`), and the debug assertion `last_epoch_ + 1 == epoch` fires there
  unless the epoch is 0. Without assertions the reload is not disturbed by that chunk
  (`ValueLog.LogAndReload`).

## Model

| member | source | states |
|---|---|---|
| `BTreeMultimap.BTree.InsertMulti` | ThirdParty/BTree/btree.h:1796-1808 | on any well-formed tree: the contents become the old ones with the value behind exactly those whose key is not larger; the result is the iterator on it; the tree stays well-formed |
| `BTreeMultimap.BTree.Erase` | ThirdParty/BTree/btree.h:1860-1920 | on any well-formed tree: exactly the value pointed at goes, the result points at the value that followed it or is the end; the tree stays well-formed (no empty node, all links, edges and the size right) |
| `BTreeMultimap.BTree.BoundOrEnd` | ThirdParty/BTree/btree.h:968-988 | lower and upper bound: the iterator in front of the first value the search does not pass, end included; everything before is passed and nothing behind |
| `BTreeMultimap.BTree.Begin` | ThirdParty/BTree/btree.h:944-946 | the iterator of rank 0 |
| `BTreeMultimap.BTree.End` | ThirdParty/BTree/btree.h:950-952 | the iterator of rank size |
| `BTreeMultimap.BTree.Size` | ThirdParty/BTree/btree.h:1135-1139 | the number of values, read from the root leaf's count or from the internal root's size field |
| `BTreeMultimap.BTree.PointsUnique` | ThirdParty/BTree/btree.h:1663-1723 | a rank has one iterator: equal ranks mean the same node and position, and it is on the value of that rank |
| `BTreeMultimap.FirstRoot` | ThirdParty/BTree/btree.h:1799-1801 | the first root is a leaf with room for one value, the empty tree's end |
| `BTreeMultimap.EraseAt` | ThirdParty/BTree/btree.h:1860-1920 | the whole erase on the node memory: what is left lists the old values without that one, and the iterator is in front of its successor |
| `BTreeMultimap.TakeOut` | ThirdParty/BTree/btree.h:1862-1877 | a value of an internal node first changes places with the last one of the leaf before it; then a leaf value goes |
| `BTreeMultimap.StepOver` | ThirdParty/BTree/btree.h:1909-1919 | after the tree has been mended: from the place of the removed value to its successor, past the swapped-in value if the removal was internal |
| `BTreeInsert.InternalInsert` | ThirdParty/BTree/btree.h:2197-2226 | v stands in front of the given iterator afterwards, everything else in its old order; root, rightmost and size follow |
| `BTreeInsert.MakeRoom` | ThirdParty/BTree/btree.h:2206-2220 | three cases of a full leaf (small root grows, full root, inner leaf): the gap of the in-order sequence is kept and there is room |
| `BTreeInsert.GrowRoot` | ThirdParty/BTree/btree.h:2208-2216 | a full leaf root below node size is swapped into one twice as large; contents and place kept |
| `BTreeInsert.LeafPlace` | ThirdParty/BTree/btree.h:2200-2205 | an internal insertion point becomes the place behind the value before it in a leaf: the same gap |
| `BTreeInsert.InsertValue` | ThirdParty/BTree/btree.h:1420-1436 | on a leaf: the value is in at the position, the rest of the tree untouched |
| `BTreeInsert.SplitLeafRoot` | ThirdParty/BTree/btree.h:2053-2091 | a full leaf root gets an internal root over it and is split; the gap is kept |
| `BTreeRoom.RebalanceOrSplit` | ThirdParty/BTree/btree.h:1985-2091 | on a full node: ends at a node with room, at the same gap of the whole tree's in-order sequence, or, for an internal node, at the slot of the same child; a full parent is treated first, recursively; no node is made if a sibling can take values |
| `BTreeRoom.SplitUnderFull` | ThirdParty/BTree/btree.h:2047-2052 | after the recursion on the full parent the child's link is the parent iterator's node and position |
| `BTreeRoom.TryLeft` | ThirdParty/BTree/btree.h:1993-2019 | shares values with the left sibling exactly if that leaves room at the insertion, as many as the bias says; the gap is kept |
| `BTreeRoom.TryRight` | ThirdParty/BTree/btree.h:2021-2045 | likewise with the right sibling |
| `BTreeRoom.ToMove` | ThirdParty/BTree/btree.h:1997-2002 | how many values move: all the room there is, or half of it if the insertion stays on this side, at least one |
| `BTreeRoom.SplitRoot` | ThirdParty/BTree/btree.h:2062-2091 | a full internal root: its contents move down a level, then the node is split; the root node itself stays the same |
| `BTreeRoom.SplitAt` | ThirdParty/BTree/btree.h:2074-2091 | split below a parent with room; the iterator moves into the new node exactly if its position lies behind the split value |
| `BTreeMend.MendUp` | ThirdParty/BTree/btree.h:1886-1907 | the walk up from a short leaf: it terminates at the root, leaves no empty node behind, and keeps track of the removed value's place |
| `BTreeErase.TryMergeOrRebalance` | ThirdParty/BTree/btree.h:2107-2156 | a short node is merged if and only if it, a sibling and the value between fit in one node; else it borrows, or is left with at least one value |
| `BTreeErase.StillShort` | ThirdParty/BTree/btree.h:2126-2155 | when neither merging nor borrowing applies the node still has a value: the shortcuts never leave an empty one |
| `BTreeErase.MergeNodes` | ThirdParty/BTree/btree.h:2094-2104 | merging siblings keeps the listing and every place; rightmost follows |
| `BTreeErase.TryMergeLeft` | ThirdParty/BTree/btree.h:2108-2118 | merge into the left sibling exactly if both and the delimiter fit; the iterator follows |
| `BTreeErase.TryMergeOrBorrowRight` | ThirdParty/BTree/btree.h:2119-2138 | merges the right sibling in exactly if it fits, else borrows half the difference exactly if that sibling is above the minimum and the node is empty or not erased from at its front |
| `BTreeErase.TryBorrowLeft` | ThirdParty/BTree/btree.h:2139-2155 | borrows half the difference from the left sibling exactly if that is above the minimum and the node is empty or not erased from at its back |
| `BTreeErase.HowMany` | ThirdParty/BTree/btree.h:2133-2134 | as many as make the two nodes equal, the sibling keeping one more if need be; never all of it and never more than fits |
| `BTreeMend.TryShrink` | ThirdParty/BTree/btree.h:2158-2183 | an empty root goes: no tree if it was a leaf, else its only child takes over; listing and places kept |
| `BTreeMend.ShrinkRoot` | ThirdParty/BTree/btree.h:2168-2182 | leaf child becomes the root; an internal child is swapped into the root node |
| `BTreeRemove.RemoveValue` | ThirdParty/BTree/btree.h:1439-1454 | on a leaf: the listing without that value |
| `BTreeRemove.SwapValues` | ThirdParty/BTree/btree.h:1869 | two values of the tree change places; nothing else in the listing changes |
| `BTreeNode.RebalanceRightToLeft` | ThirdParty/BTree/btree.h:1457-1501 | left ++ delimiter ++ right is conserved, and so are the children, whose parent and position links are right; all other nodes untouched |
| `BTreeNode.RebalanceLeftToRight` | ThirdParty/BTree/btree.h:1504-1546 | the same in the other direction |
| `BTreeSplit.Split` | ThirdParty/BTree/btree.h:1549-1587 | the node is cut around the value that goes to the parent: values and children conserved, links of both halves and of the parent right; the cut position is biased by the insertion |
| `BTreeSplit.Merge` | ThirdParty/BTree/btree.h:1590-1619 | left ++ delimiter ++ right in one node, children adopted, slot removed from the parent, the right node gone |
| `BTreeSplit.DestCount` | ThirdParty/BTree/btree.h:1552-1562 | the biased split: the right node gets nothing if the insertion is at the end, all but the delimiter if it is at the beginning, else half |
| `BTreeSplit.InsertInParent` | ThirdParty/BTree/btree.h:1573-1578 | delimiter and new child go into the parent behind the split child; positions of those behind move up |
| `BTreeSplit.SplitOff` | ThirdParty/BTree/btree.h:1566-1586 | the upper values and children move to the new node, relinked |
| `BTreeSplit.RemoveSlot` | ThirdParty/BTree/btree.h:1449-1453 | the rotation loop: the sequence without that value |
| `BTreeSplit.RemoveFromParent` | ThirdParty/BTree/btree.h:1439-1454 | value i and child i+1 go; positions of those behind move down |
| `BTreeSplit.TakeAll` | ThirdParty/BTree/btree.h:1594-1614 | the loop that moves all values and children of the right node |
| `BTreeNode.InsertSlot` | ThirdParty/BTree/btree.h:1422-1426 | the rotation loop: the value is in at its position, the rest in order |
| `BTreeNode.SwapRange` | ThirdParty/BTree/btree.h:1474-1477 | a loop of swaps exchanges two ranges |
| `BTreeNode.AdoptKids` | ThirdParty/BTree/btree.h:1486-1490 | children moved slot by slot are linked to their new parent and position; nobody else's links change |
| `BTreeNode.ValuesRightToLeft` | ThirdParty/BTree/btree.h:1469-1481 | the value loops of the rebalance: both rows afterwards |
| `BTreeNode.ValuesLeftToRight` | ThirdParty/BTree/btree.h:1515-1529 | likewise, from left to right |
| `BTreeNode.KidsRightToLeft` | ThirdParty/BTree/btree.h:1486-1496 | the child loops of the rebalance: both child rows and all links afterwards |
| `BTreeNode.KidsLeftToRight` | ThirdParty/BTree/btree.h:1531-1541 | likewise, from left to right |
| `BTreeRoot.SwapContents` | ThirdParty/BTree/btree.h:1622-1658 | the two nodes have changed values, children and count |
| `BTreeRoot.Reparent` | ThirdParty/BTree/btree.h:1648-1653 | exactly the children's parent links change |
| `BTreeRoot.PushRoot` | ThirdParty/BTree/btree.h:2062-2071 | the root's content one level down in a new only child, all links right |
| `BTreeRoot.PullRoot` | ThirdParty/BTree/btree.h:2175-2181 | the inverse |
| `BTreeRoot.NewRoot` | ThirdParty/BTree/btree.h:2055-2061 | an internal root over a leaf: its child, and the leftmost leaf behind it |
| `BTreeRoot.MakeRoot` | ThirdParty/BTree/btree.h:2170-2174 | a leaf becomes the root again |
| `BTreeReshape.ShiftContext` | ThirdParty/BTree/btree.h:1457-1546 | whatever moves values between siblings conserving left ++ delimiter ++ right keeps the tree well-formed, its listing, and the place of every other node |
| `BTreeCut.CutContext` | ThirdParty/BTree/btree.h:1549-1587 | likewise for a split |
| `BTreeCut.CutShape` | ThirdParty/BTree/btree.h:1549-1587 | a split of a well-linked tree leaves a well-linked tree: equal leaf depth, links both ways |
| `BTreeCut.JoinShape` | ThirdParty/BTree/btree.h:1590-1619 | likewise for a merge |
| `BTreeCut.CutListing` | ThirdParty/BTree/btree.h:1549-1587 | the halves and the value between list what the node listed |
| `BTreeReshape.PushContext` | ThirdParty/BTree/btree.h:2062-2071 | moving the root's content a level down keeps listing and places |
| `BTreeReshape.PushShape` | ThirdParty/BTree/btree.h:2062-2071 | and keeps the tree well-linked |
| `BTreeReshape.PullShape` | ThirdParty/BTree/btree.h:2175-2181 | and so does the inverse |
| `BTreeTree.MovedTwice` | ThirdParty/BTree/btree.h:1985-2091 | keeping the gap composes over several reshapings |
| `BTreeTree.MovedBelow` | ThirdParty/BTree/btree.h:2047-2052 | reshaping at the parent's level leaves the child's own gap where it was |
| `BTreeTree.CutMovedPlace` | ThirdParty/BTree/btree.h:2087-2090 | where a position of the split node is afterwards |
| `BTreeTree.CutTree` | ThirdParty/BTree/btree.h:1549-1587 | a split keeps sizes, edges and shape |
| `BTreeTree.ShiftTree` | ThirdParty/BTree/btree.h:1457-1546 | so does sharing values |
| `BTreeErase.MergeTree` | ThirdParty/BTree/btree.h:1590-1619 | so does a merge |
| `BTreeSet.SetValue` | ThirdParty/BTree/btree.h:1869 | overwriting a value in any node overwrites the listing at its rank and nothing else |
| `BTreeHeap.ListingAround` | ThirdParty/BTree/btree.h:1663-1683 | the tree lists what is before a node, the node's own, what is after it |
| `BTreeGap.PrefixNext` | ThirdParty/BTree/btree.h:1663-1683 | an iterator's value follows what is before it |
| `BTreeGap.PrefixUp` | ThirdParty/BTree/btree.h:1666-1674 | the end of a node is the place its parent has for it |
| `BTreeGap.ChildPlace` | ThirdParty/BTree/btree.h:1675-1681 | where the first child behind a value begins |
| `BTreeGap.RightEdgeUnique` | ThirdParty/BTree/btree.h:1218-1224 | only one leaf is on the right edge: the one the internal root remembers |
| `BTreeWalk.Increment` | ThirdParty/BTree/btree.h:1663-1683 | one value further in the in-order sequence, or the end |
| `BTreeWalk.Decrement` | ThirdParty/BTree/btree.h:1703-1723 | one value back |
| `BTreeWalk.ClimbRight` | ThirdParty/BTree/btree.h:1666-1674 | up to the first ancestor that has something more to list |
| `BTreeWalk.ClimbLeft` | ThirdParty/BTree/btree.h:1706-1714 | up to the first ancestor with something before it |
| `BTreeWalk.DescendFirst` | ThirdParty/BTree/btree.h:1677-1681 | down first children to a leaf that nothing below the node precedes |
| `BTreeWalk.DescendLast` | ThirdParty/BTree/btree.h:1717-1721 | down last children to a leaf |
| `BTreeOrder.Scan` | ThirdParty/BTree/btree.h:1663-1683 | from begin to end visits exactly the in-order sequence |
| `BTreeOrder.ThereAndBack` | ThirdParty/BTree/btree.h:1663-1723 | decrement undoes increment: the same node and position |
| `BTreeOrder.PlaceUnique` | ThirdParty/BTree/btree.h:1663-1723 | two iterators with equally much before them are the same |
| `BTreeOrder.ValueAt` | ThirdParty/BTree/btree.h:1663-1683 | an iterator is on the listing's value of its rank |
| `BTreeSearch.LinearSearchPlain` | ThirdParty/BTree/btree.h:594-603 | the first position the comparison does not pass |
| `BTreeSearch.BinarySearchPlain` | ThirdParty/BTree/btree.h:625-636 | the same on a sorted node |
| `BTreeSearch.LinearSearchCompareTo` | ThirdParty/BTree/btree.h:608-620 | the first position not below the key, exact bit set iff the key there is equal |
| `BTreeSearch.BinarySearchCompareTo` | ThirdParty/BTree/btree.h:641-660 | the same result, although it searches what is left of an equal key again |
| `BTreeSearch.Decoded` | ThirdParty/BTree/btree.h:2248-2262 | mask and bit recover position and equality |
| `BTreeSearch.FirstNotUnique` | ThirdParty/BTree/btree.h:594-660 | the first position not passed is determined: the searches cannot differ |
| `BTreeSearch.PassedBefore` | ThirdParty/BTree/btree.h:375-419 | in a sorted row exactly the values before the boundary are passed |
| `BTreeSearch.NodeBoundary` | ThirdParty/BTree/btree.h:2265-2295 | the whole listing's boundary lies at the node's own |
| `BTreeSearch.Locate` | ThirdParty/BTree/btree.h:2265-2295 | the descent ends at the leaf place where the key belongs in the whole listing |
| `BTreeSearch.InternalLast` | ThirdParty/BTree/btree.h:2186-2195 | from behind a node's last value up to the value it is in front of, or none |
| `BTreeSearch.Bound` | ThirdParty/BTree/btree.h:2265-2295 | the first value not passed, or none |
| `DbxSerial.RunsSerializable` | Database/Transaction/TxnManagerDbx.tpp:35-206 | for any interleaving of selects, commits and aborts: in every reachable state the records hold what the committed transactions give one after the other in commit order; what each read, recorded when it read it, is the state just before its commit; and every step is safe |
| `DbxSerial.RunsReclaimSafely` | Database/Transaction/TxnManagerDbx.tpp:145-202 | in every reachable state counters count the outstanding accesses; all a running transaction can read is allocated and holds what it held when first seen; nobody can read a version whose counter has been found 0 and which is about to be freed; every version has exactly one holder |
| `DbxRuns.CommitsIff` | Database/Transaction/TxnManagerDbx.tpp:97-115 | in any run: a commit goes through if and only if, for each of its accesses, no transaction that has committed since the step in which that access saw its record has written the record |
| `DbxRuns.TimestampsCount` | Database/Content/DbxContent.h:18-21 | in every reachable state a record's timestamp is the number of writes to it by the transactions committed so far |
| `DbxRuns.AllRecorded` | Database/Transaction/TxnManagerDbx.tpp:35-80 | every transaction about to end has asked for each access in a Count step and seen it in a See step of the run |
| `DbxRuns.SeenThen` | Database/Transaction/TxnManagerDbx.tpp:44-72 | until its transaction ends an access has the record, timestamp and data of its See step, and its copy holds the last update the transaction made to it, or what was seen |
| `DbxRuns.AskedFor` | Database/Transaction/TxnManagerDbx.tpp:35-72 | and it is on the record, and for reading or writing, as asked |
| `DbxRuns.CommitReads` | Database/Transaction/TxnManagerDbx.tpp:97-115 | the log entry of a commit has, access by access, the record asked for and what that record held when it was seen |
| `DbxRuns.CommitTouches` | Database/Transaction/TxnManagerDbx.tpp:123-130 | it writes exactly the records asked for to be written |
| `DbxRuns.CommitWrites` | Database/Transaction/TxnManagerDbx.tpp:123-130 | after the commit such a record holds the last update made through its last access, or what that access saw |
| `DbxRuns.CommitLeaves` | Database/Transaction/TxnManagerDbx.tpp:123-130 | every other record holds what it held |
| `DbxRuns.OthersWriteNothing` | Database/Transaction/TxnManagerDbx.tpp:180-200 | a step that adds nothing to the log, a failed commit among them, changes no record |
| `DbxRuns.GarbageFreed` | Database/Transaction/TxnManagerDbx.tpp:161-174 | each time a thread looks through its garbage every entry is looked at: it is freed, or stays and its counter was not 0 when tested; garbage on a record without outstanding accesses is freed |
| `DbxRuns.CanStep` | Database/Transaction/TxnManagerDbx.tpp:35-206 | in every reachable state every thread has a step to take, and one whose accesses are all complete can commit |
| `DbxInvariant.StepSafe` | Database/Transaction/TxnManagerDbx.tpp:145-202 | no step reads or frees what is not there: no use after free, no double free, no counter below zero |
| `DbxSerial.StepKeeps` | Database/Transaction/TxnManagerDbx.tpp:35-206 | every step of any thread keeps the invariant |
| `DbxSerial.StepSerial` | Database/Transaction/TxnManagerDbx.tpp:90-206 | every step keeps the serial explanation; a commit appends to it |
| `DbxSerial.CommitSerial` | Database/Transaction/TxnManagerDbx.tpp:95-141 | the commit region: if validation succeeds, what was recorded at the reads is what the records hold, and the writes go on top |
| `DbxSerial.FreshReads` | Database/Transaction/TxnManagerDbx.tpp:97-115 | validated timestamps mean current values |
| `DbxSerial.SwapsWrite` | Database/Transaction/TxnManagerDbx.tpp:123-139 | the pointer swaps are the transaction's writes in order, also when a record is accessed twice |
| `DbxSerial.SwapsKeep` | Database/Transaction/TxnManagerDbx.tpp:123-139 | ownership and views hold after every swap |
| `DbxSerial.OthersKeepContents` | Database/Transaction/TxnManagerDbx.tpp:145-202 | nothing but a commit changes what the records hold: aborts leave no trace |
| `DbxSerial.PreviousNeverZero` | Database/Transaction/TxnManagerDbx.tpp:152-160 | DecrementCounter never returns 0, so an old version always goes to the garbage list |
| `DbxSerial.CommitKeeps` | Database/Transaction/TxnManagerDbx.tpp:95-141 | the commit region keeps the invariant, committed or not |
| `DbxInvariant.CountKeeps` | Database/Transaction/TxnManagerDbx.tpp:37-43 | counting before reading keeps the invariant |
| `DbxInvariant.SeeKeeps` | Database/Transaction/TxnManagerDbx.tpp:44-48 | so does reading timestamp and version together |
| `DbxInvariant.CopyKeeps` | Database/Transaction/TxnManagerDbx.tpp:59-72 | and the private copy |
| `DbxInvariant.ReleaseKeeps` | Database/Transaction/TxnManagerDbx.tpp:146-191 | and giving up an access |
| `DbxInvariant.ScanKeeps` | Database/Transaction/TxnManagerDbx.tpp:161-162 | and testing a garbage entry's counter, which takes it out of everyone's reach if it is 0 |
| `DbxInvariant.ReclaimKeeps` | Database/Transaction/TxnManagerDbx.tpp:163-169 | and freeing it, a separate step, however many steps of other threads lie between test and free |
| `DbxInvariant.ZeroUnviewed` | Database/Transaction/TxnManagerDbx.tpp:162 | counter 0 means that no access still to be released has seen the version |
| `DbxInvariant.SeeUnviewed` | Database/Transaction/TxnManagerDbx.tpp:44-48 | and no later read can see it again: what is seen is current, so it is nobody's garbage |
| `DbxInvariant.PushKeeps` | Database/Transaction/TxnManagerDbx.tpp:175 | and handing an old version to the garbage list |
| `DbxInvariant.FreeKeeps` | Database/Transaction/TxnManagerDbx.tpp:191-199 | and freeing an aborted copy |
| `DbxInvariant.CounterAbove` | Database/Content/DbxContent.h:27-33 | while an access is outstanding its counter is above zero |
| `DbxManager.Validate` | Database/Transaction/TxnManagerDbx.tpp:97-115 | true iff every access has the timestamp its record still has |
| `DbxManager.Database.CommitRegion` | Database/Transaction/TxnManagerDbx.tpp:95-141 | the region as code refines the Commit step; it returns whether the log has grown |
| `DbxManager.Database.SwapAll` | Database/Transaction/TxnManagerDbx.tpp:123-139 | the swap loop gives the state after all swaps |
| `DbxManager.Database.NewAccess` | Database/Transaction/TxnManagerDbx.tpp:37-43 | refines the Count step |
| `DbxManager.Database.SelectRegion` | Database/Transaction/TxnManagerDbx.tpp:44-48 | refines the See step |
| `DbxManager.Database.CopyFrom` | Database/Transaction/TxnManagerDbx.tpp:59-72 | refines the Copy step |
| `DbxManager.Database.ReleaseNext` | Database/Transaction/TxnManagerDbx.tpp:146-152 | refines the Release step; the value before is never 0 |
| `DbxManager.Database.ScanNext` | Database/Transaction/TxnManagerDbx.tpp:161-162 | refines the Scan step: the test of one entry's counter |
| `DbxManager.Database.FreeGarbage` | Database/Transaction/TxnManagerDbx.tpp:163-169 | refines the Reclaim step: the free, with other threads' steps since the test |
| `DbxManager.Database.PushGarbage` | Database/Transaction/TxnManagerDbx.tpp:175 | refines the Push step |
| `DbxManager.Database.FreeCopy` | Database/Transaction/TxnManagerDbx.tpp:191-199 | refines the Free step |
| `DbxManager.Database.IncrementCounter` | Database/Content/DbxContent.h:27-29 | the value before; one more |
| `DbxManager.Database.DecrementCounter` | Database/Content/DbxContent.h:31-33 | the value before; one less |
| `DbxManager.Database.IncrementTimestamp` | Database/Content/DbxContent.h:18-21 | the value after |
| `LockSystem.NoDeadlock` | Database/Content/LockWaitContent.h:38-129 | in every reachable state of all records' queues no waits-for path is a cycle and the live transaction with the largest timestamp is not blocked |
| `LockSystem.RequestOutcome` | Database/Content/LockWaitContent.h:38-79 | in any run, after a request its transaction owns the record or waits for it, unless an owner that excludes it has a smaller timestamp, and then it does neither; all owners are live |
| `LockSystem.SmallestNeverDies` | Database/Content/LockWaitContent.h:42-60 | in any run a request by the live transaction with the smallest timestamp is granted or waits |
| `LockSystem.EdgesGoUp` | Database/Content/LockWaitContent.h:38-79 | every wait, for an owner or for a waiter ahead, is for a strictly larger timestamp of a live transaction |
| `LockSystem.NoCycle` | Database/Content/LockWaitContent.h:38-129 | a waits-for path never returns to where it began |
| `LockSystem.BlockedHasOwner` | Database/Content/LockWaitContent.h:81-129 | a blocked transaction always waits for an owner: no wake-up is lost |
| `LockSystem.LargestRuns` | Database/Content/LockWaitContent.h:38-79 | the largest timestamp is never blocked |
| `LockSystem.SomeoneAheadRuns` | Database/Content/LockWaitContent.h:38-129 | from any blocked transaction a waits-for path leads to one that can go on |
| `LockSystem.RunsKeep` | Database/Content/LockWaitContent.h:38-129 | the system invariant holds in every reachable state |
| `LockSystem.StepKeeps` | Database/Content/LockWaitContent.h:38-129 | every step keeps it, flags included: down exactly while the transaction waits |
| `LockWait.AcquireKeeps` | Database/Content/LockWaitContent.h:38-79 | the queue invariant: one writer or only readers, agreeing with type and count; waiters strictly descending and below every owner; the head in real conflict; none when the lock is free |
| `LockWait.ReleaseKeeps` | Database/Content/LockWaitContent.h:81-129 | kept by a release too |
| `LockWait.AcquireOutcome` | Database/Content/LockWaitContent.h:38-79 | where a request ends, in terms of owners and waiters alone: granted, waiting or dying under exactly those conditions; the requester is the new head owner, one more waiter, or in neither; everyone else stays |
| `LockWait.WithoutOne` | Database/Content/LockWaitContent.h:84-118 | after a release the releasing transaction is no owner any more and all other owners still are |
| `LockWait.WaitBelow` | Database/Content/LockWaitContent.h:42-75 | who may wait is below all owners |
| `LockWait.BufferedSorted` | Database/Content/LockWaitContent.h:150-168 | a new waiter goes where the line stays descending |
| `LockWait.BufferedMembers` | Database/Content/LockWaitContent.h:150-168 | nobody is lost from the line, only the new one is added |
| `LockWait.DebufferFree` | Database/Content/LockWaitContent.h:169-180 | a lock that has become free is granted to the head alone if it writes, else to the leading readers, and to nobody else |
| `LockContent.LockWaitContent.AcquireLock` | Database/Content/LockWaitContent.h:38-79 | returns false if and only if an owner that excludes the request has a smaller timestamp; otherwise the requester is then an owner, or a waiter with its flag down; the queue is the one the queue operation gives |
| `LockContent.LockWaitContent.ReleaseLock` | Database/Content/LockWaitContent.h:81-129 | likewise; exactly the granted waiters' flags go up |
| `LockContent.LockWaitContent.BufferWaiter` | Database/Content/LockWaitContent.h:150-168 | the list walk inserts at the right place |
| `LockContent.LockWaitContent.DebufferWaiters` | Database/Content/LockWaitContent.h:169-180 | the loop grants the same waiters as the recursion |
| `LockContent.CanWait` | Database/Content/LockWaitContent.h:43-52 | true iff no owner has a smaller timestamp |
| `LockContent.Unlink` | Database/Content/LockWaitContent.h:84-118 | the first owner with the timestamp leaves the list |
| `Timestamps.CommitTsGood` | Database/Transaction/TransactionManager.h:176-200 | strictly above all that was read or overwritten, of the current epoch, on the thread's residue, never going back; a bumped counter lies in the block of thread_count behind max's |
| `Timestamps.AboveIffFits` | Database/Transaction/TransactionManager.h:176-200 | with 32-bit truncation the order holds if and only if the bumped counter fits |
| `Timestamps.OverflowExample` | Database/Transaction/TransactionManager.h:188-199 | a concrete wrap-around that breaks the order |
| `Timestamps.ThreadsApart` | Database/Transaction/TransactionManager.h:176-200 | calls of two threads with different ids never make the same timestamp, whatever epochs, clocks and records each has met, as long as both bumped counters fit |
| `Timestamps.NextClockGood` | Database/Transaction/TransactionManager.h:181-195 | the thread's clock after a call: it moves only if it has to, to the thread's id in a new epoch, and into the block of thread_count behind what was read if that is not below it |
| `Timestamps.BumpBounds` | Database/Transaction/TransactionManager.h:189-192 | the bump lies in the block of thread_count behind max's, on the thread's place there |
| `Timestamps.BumpResidue` | Database/Transaction/TransactionManager.h:190 | the modular arithmetic of the bump |
| `Timestamps.TimestampSource.Generate` | Database/Transaction/TransactionManager.h:176-200 | the code gives that timestamp and clock, wrap-around included; it is above what was read if and only if the bumped counter fits |
| `ValueLog.LogAndReload` | Database/Replayer/ValueReplayer.h:42-129 | log any commits, clean up, reload: exactly those transactions with their timestamps in commit order, each with one element for every access that is not a read, in order: kind 1 with table and data for an update, kind 0 for an insert; the file used up |
| `ValueLog.ThreadLog.CommitTransaction` | Database/Logger/ValueLogger.h:16-93 | the transactions held by file and buffer together are the old ones and the new one, whose elements are for its updates (kind 1) and inserts (kind 0) in order; a new epoch sends the buffer out first, under the old epoch |
| `ValueLog.AllLogged` | Database/Logger/ValueLogger.h:58-88 | what is logged for a transaction, as the replayer takes it: one element for every update (kind 1) and insert (kind 0), with its table and data, in order, none for reads |
| `ValueLog.ThreadLog.FirstCommit` | Database/Logger/ValueLogger.h:19-45 | the first commit of a new logger writes a chunk of no transactions, marked with epoch -1, before anything else, unless its epoch is that number |
| `ValueLog.ThreadLog.CleanUp` | Database/Logger/BaseLogger.h:89-122 | the last chunk goes out: epoch -1, size, buffer; the file holds everything committed |
| `ValueLog.ThreadLog.WriteChunk` | Database/Logger/ValueLogger.h:22-54 | epoch, size and buffer go to the file as one chunk |
| `ValueLog.ThreadLog.PutTxn` | Database/Logger/ValueLogger.h:55-92 | timestamp, size and elements stand in the buffer; nothing before them is touched |
| `ValueLog.ThreadLog.PutElements` | Database/Logger/ValueLogger.h:57-88 | the element loop with its running offset |
| `ValueLog.ThreadLog.PutElement` | Database/Logger/ValueLogger.h:63-67 | the four copies of one element |
| `ValueLog.ReloadLog` | Database/Replayer/ValueReplayer.h:56-121 | parses any file of well-formed chunks back to their transactions, in order, to the last byte |
| `ValueLog.ReadTxn` | Database/Replayer/ValueReplayer.h:87-117 | parses one transaction and its size |
| `ValueLog.ReadElement` | Database/Replayer/ValueReplayer.h:98-114 | parses one element and its size |
| `ValueLog.ElementFields` | Database/Replayer/ValueReplayer.h:98-114 | where an element's kind, table, size and data stand in its bytes |
| `ValueLog.TxnFields` | Database/Replayer/ValueReplayer.h:87-94 | where a transaction's timestamp, size and elements stand |
| `ValueLog.ChunkFields` | Database/Replayer/ValueReplayer.h:57-62 | where a chunk's epoch, size and transactions stand |
| `ValueLog.ReadChunkBody` | Database/Replayer/ValueReplayer.h:85-119 | parses a chunk to its last byte |
| `LogFormat.NumberOfBytes` | Database/Replayer/ValueReplayer.h:57-61 | reading back the bytes of a number gives the number |
| `LogFormat.ByteAt` | Database/Logger/ValueLogger.h:56 | the bytes of a number are little-endian: byte i is the digit of the i-th power of 256 |
| `LogFormat.FieldValue` | Database/Replayer/ValueReplayer.h:87-94 | likewise for a 64-bit field |
| `LogFormat.PieceAt` | Database/Replayer/ValueReplayer.h:86-118 | the k-th piece of a concatenation begins where the pieces before it end |
| `Reorder.MergeBatch` | Database/Replayer/BaseCommandReplayer.h:177-198 | the merge loop stops, with the merge of the lists: each entry the next one in its turn, every list used up or stuck at an entry of timestamp 2^64-1 |
| `Reorder.MergeUnique` | Database/Replayer/BaseCommandReplayer.h:177-198 | the merge of given lists is determined: no other output is one |
| `Reorder.FindNext` | Database/Replayer/BaseCommandReplayer.h:178-189 | the smallest head, of the lowest thread that has it; -1 if there is none |
| `Reorder.MergeSorted` | Database/Replayer/BaseCommandReplayer.h:177-198 | sorted input gives sorted output, ties to the lower thread |
| `Reorder.MergeStable` | Database/Replayer/BaseCommandReplayer.h:177-198 | what comes from a thread is its list from the start, in its order |
| `Reorder.MergeConserves` | Database/Replayer/BaseCommandReplayer.h:177-198 | the output is exactly what has been passed in the lists |
| `Reorder.PermutationIff` | Database/Replayer/BaseCommandReplayer.h:190-193 | a permutation of all entries if and only if no entry has the timestamp that means "none" |
| `Reorder.DropExample` | Database/Replayer/BaseCommandReplayer.h:190-193 | an entry that is dropped |
| `Reorder.ReorderLog` | Database/Replayer/BaseCommandReplayer.h:155-201 | every batch of the serial log is the merge of the threads' batches, epochs in order |
| `Reorder.ReorderedSorted` | Database/Replayer/BaseCommandReplayer.h:155-201 | with epoch-prefixed timestamps the whole reordered log is sorted |
| `Reorder.FlatSorted` | Database/Replayer/BaseCommandReplayer.h:155-201 | sorted batches of growing epochs are sorted end to end |
| `Replay.Confluent` | Database/Replayer/ValueReplayer.h:131-165 | any two orders of the same updates end in the same store if of each key at most one update, its newest and newer than the record, may be left behind |
| `Replay.ConfluentIff` | Database/Replayer/ValueReplayer.h:131-165 | and only if: all orders of the updates agree if and only if the updates of a key that share its largest timestamp, where that is above the record's, are equal |
| `Replay.ReplayedNewest` | Database/Replayer/ValueReplayer.h:145-158 | a key ends with its maximum-timestamp update, or as it was |
| `Replay.ReplayableIff` | Database/Replayer/ValueReplayer.h:141-146 | whatever the order, replay gets through if and only if the table has the record of every update; else it follows a null pointer |
| `Replay.InterleavingsAgree` | Database/Replayer/ValueReplayer.h:31-36 | every interleaving of the threads' logs ends like the serial replay |
| `Replay.InterleavingHolds` | Database/Replayer/ValueReplayer.h:31-36 | an interleaving holds exactly the updates of all logs |
| `Replay.TieExample` | Database/Replayer/ValueReplayer.h:146 | with equal timestamps on a key the order decides |
| `Replay.Table.ProcessLog` | Database/Replayer/ValueReplayer.h:131-165 | one thread's loop applies its log's updates in order; it gets to the end if and only if the table has the records of all of them |
| `Replay.Table.ProcessElement` | Database/Replayer/ValueReplayer.h:137-162 | an update is applied iff its timestamp is larger than the record's; found iff the table has its record |
| `Recovery.RecoversStore` | Database/Replayer/ValueReplayer.h:131-165 | commit, log, crash, replay: for every execution, with transactions that read, update and insert, whether or not inserted records get into the table, and for every interleaving of the replay threads: the records present at the start come back, values and timestamps, if and only if no committed transaction has updated another record; else replay follows a null pointer. Where inserts are not put into the table all comes back |
| `Recovery.Recover` | Database/Replayer/ValueReplayer.h:21-39 | the same through the bytes: log, reload and replay every thread's commits |
| `Recovery.InsertedExample` | Database/Replayer/ValueReplayer.h:139-145 | an execution that inserts a record and updates it in the next epoch, which replay cannot handle |
| `Recovery.StepNew` | Database/Transaction/TxnManagerOcc.tpp:129-166 | a commit's timestamp is strictly above that of every record it read or overwrites |
| `Recovery.MaxTsAmong` | Database/Transaction/TxnManagerOcc.tpp:130-136 | the maximum a commit's timestamp is made from is one of these timestamps |
| `Recovery.StepStore` | Database/Transaction/TxnManagerOcc.tpp:143-166 | what a commit does to each record: updated, it has the commit timestamp and the last update's data; there before and not updated, it is as it was; new, it has the data of its first insert, and is there only if inserts get into the table |
| `Recovery.StepThread` | Database/Transaction/TxnManagerOcc.tpp:137-175 | it logs the transaction for its thread, whose clock is then at the commit timestamp, and leaves the other threads alone |
| `Recovery.OverwriteIsReplay` | Database/Transaction/TxnManagerOcc.tpp:143-166 | overwriting at commit is what replay of the updates does |
| `Recovery.StepKeeps` | Database/Transaction/TxnManagerOcc.tpp:125-175 | every commit keeps: the records present at the start are the replay of all commits so far as long as no other has been updated, timestamps of a key grow, and the logs together hold all commits |
| `Recovery.RunKeeps` | Database/Transaction/TxnManagerOcc.tpp:87-175 | in every state of every execution |
| `Recovery.LoggedWrites` | Database/Logger/ValueLogger.h:58-88 | the logged elements replay to exactly the transaction's writes |
| `History.SnapshotStable` | Database/Content/SiLockContent.h:32-116 | over slots that grow, a reader that took its timestamp with the maximum loop reads the same version after any number of later writes and prunings, as long as no write has a commit timestamp up to the snapshot and no write that prunes has loads torn at the snapshot |
| `History.SnapshotExact` | Database/Content/SiLockContent.h:32-116 | exactly: it reads the same if and only if no write is late (with a commit timestamp up to the snapshot) and none loses its version; or it had no version to read, a late write gave it one and that was lost |
| `History.SnapshotReads` | Database/Content/SiLockContent.h:32-116 | what it reads: the data of the last late write, else what it read before; the initial data if a write has lost it: a write that prunes, whose loads are torn at the snapshot, with a version above the snapshot but below the threshold standing on the one the snapshot reads |
| `Snapshots.LateIff` | Database/Transaction/TxnManagerSiLock.tpp:95-132 | in any run of commits, each taking its timestamp from the counter, installing, then setting its slot: a version installed after a reader's maximum loop is in the reader's snapshot if and only if its writer had taken a timestamp up to the snapshot before the loop ended and has not shown it since |
| `Snapshots.NoneLate` | Database/Transaction/TxnManagerSiLock.tpp:95-132 | so there is none if no thread has such a timestamp when the loop ends |
| `Snapshots.LateExample` | Database/Transaction/TxnManagerSiLock.tpp:95-132 | two commits and a reader: a version of timestamp 1 is installed after snapshot 2 was taken, and changes what it reads |
| `Snapshots.SlotsGrow` | Database/Transaction/GlobalTimestamp.h:52-54 | the slots only grow, which the loops rest on |
| `Snapshots.TakenBefore` | Database/Transaction/GlobalTimestamp.h:17-19 | what is up to a shown timestamp has been taken from the counter before |
| `History.ReadNewest` | Database/Content/SiLockContent.h:32-48 | a read finds the version with the largest timestamp not above the reader's |
| `History.ReadInitial` | Database/Content/SiLockContent.h:41-43 | and the initial data if there is none |
| `History.WriteExact` | Database/Content/SiLockContent.h:56-75 | the same for one write and any threshold |
| `History.PruneExact` | Database/Content/SiLockContent.h:103-116 | reads at t survive pruning if and only if no version readable at t is dropped while a newer one is not readable |
| `History.PrunedKeeps` | Database/Content/SiLockContent.h:103-116 | everything from the threshold on and the newest below it stay |
| `History.LowThresholdSafe` | Database/Content/SiLockContent.h:103-116 | a threshold at or below the reader changes no read |
| `History.WriteKeepsSnapshot` | Database/Content/SiLockContent.h:56-75 | one write and its pruning change no read at or above the threshold |
| `History.MinLoopExact` | Database/Transaction/GlobalTimestamp.h:42-50 | with slots that only grow and slot i at or below b, the threshold ends up above b if and only if the last slot behind i compared at or below b was below the running minimum and grew above b between its two loads |
| `History.ThresholdExact` | Database/Transaction/GlobalTimestamp.h:42-50 | so a pruning threshold passes a live snapshot if and only if its loads are torn there |
| `History.SlotBelow` | Database/Transaction/GlobalTimestamp.h:30-38 | the slot of a reader never shows more than the timestamp it took |
| `History.MinLoopUntorn` | Database/Transaction/GlobalTimestamp.h:42-50 | without such a change it is the minimum of the slots |
| `History.MinLoopAmong` | Database/Transaction/GlobalTimestamp.h:42-50 | the result is a value that was loaded |
| `History.TornReadExample` | Database/Transaction/GlobalTimestamp.h:44-48 | three threads, more than 100 versions, two writes: the double load loses a live snapshot's version |
| `History.MaxLoopAbove` | Database/Transaction/GlobalTimestamp.h:30-38 | the double load of the maximum does no harm: slots only grow |
| `History.MaxLoopAmong` | Database/Transaction/GlobalTimestamp.h:30-38 | the result is a value that was loaded, the first one or one assigned |
| `History.MaxLoopBelow` | Database/Transaction/GlobalTimestamp.h:30-38 | so it passes no bound on the values loaded |
| `History.MaxLoopQuiet` | Database/Transaction/GlobalTimestamp.h:30-38 | without a change between the loads it is the maximum of the slots |
| `History.TookShown` | Database/Transaction/GlobalTimestamp.h:30-38 | over growing slots some slot really showed the reader's timestamp at a moment of its loop |
| `HistoryList.GetMinTimestamp` | Database/Transaction/GlobalTimestamp.h:42-50 | the loop, with each slot's two loads given; the result is one of the values loaded |
| `HistoryList.GetMaxTimestamp` | Database/Transaction/GlobalTimestamp.h:30-38 | likewise; the result is at least every value compared, and is the first value or one assigned |
| `HistoryList.SiLockContent.ReadAccess` | Database/Content/SiLockContent.h:32-48 | the newest version not above the timestamp, or the initial data |
| `HistoryList.SiLockContent.WriteAccess` | Database/Content/SiLockContent.h:56-75 | the new version at the head, pruned if the list is long; links both ways, head, tail and length right |
| `HistoryList.SiLockContent.CollectGarbage` | Database/Content/SiLockContent.h:96-101 | prunes exactly when the list is longer than the limit |
| `HistoryList.SiLockContent.ClearHistory` | Database/Content/SiLockContent.h:103-116 | frees from the tail what pruning drops, and nothing else |
| `HistoryList.SiLockContent.PushHead` | Database/Content/MvLockContent.h:61-73 | the new entry in front, linked |
| `HistoryList.FreeTail` | Database/Content/MvLockContent.h:149-162 | the freeing loop stops where pruning stops |
| `MvLock.StepKeeps` | Database/Content/MvLockContent.h:78-139 | read count and flags agree with the holders; one writer or certifier at most, a certifier alone; the asserts hold |
| `MvLock.CertifyAlone` | Database/Content/MvLockContent.h:118-132 | in no run is a record certified while anyone reads it, or held for writing by two |
| `MvLock.GrantsExactly` | Database/Content/MvLockContent.h:78-139 | who gets what, in terms of the holders alone: a reader is refused only by a certifier, a writer by a writer or a certifier, a certifier by a reader; a grant adds exactly the thread to the holders, a release takes it out, a refusal changes nothing |
| `MvLock.RunKeeps` | Database/Content/MvLockContent.h:78-139 | in every reachable state |
| `MvLock.MvLockContent.AcquireReadLock` | Database/Content/MvLockContent.h:78-89 | granted iff there is no certifier; the thread is one more reader exactly then |
| `MvLock.MvLockContent.AcquireWriteLock` | Database/Content/MvLockContent.h:98-109 | granted iff there is no writer and no certifier; the thread is the writer exactly then |
| `MvLock.MvLockContent.AcquireCertifyLock` | Database/Content/MvLockContent.h:118-132 | granted iff there is no reader; the write lock becomes the certify lock exactly then |
| `MvLock.MvLockContent.ReleaseReadLock` | Database/Content/MvLockContent.h:91-96 | one reader less |
| `MvLock.MvLockContent.ReleaseWriteLock` | Database/Content/MvLockContent.h:111-116 | no writer |
| `MvLock.MvLockContent.ReleaseCertifyLock` | Database/Content/MvLockContent.h:134-139 | no certifier |
| `HStore.NoDeadlock` | Database/Executor/HStoreExecutor.h:141-147 | in every reachable state, while a thread is unfinished some thread can step |
| `HStore.NoOverlap` | Database/Executor/HStoreExecutor.h:141-147 | two transactions with a common partition never run at the same time |
| `HStore.StepKeeps` | Database/Content/HStoreContent.h:31-41 | the owner map is exactly what the threads hold |
| `HStore.Exclusive` | Database/Content/HStoreContent.h:31-41 | the same for any state that keeps the invariant |
| `HStore.SomeoneSteps` | Database/Content/HStoreContent.h:31-35 | ascending acquisition: the one waiting for the highest partition waits for nobody |
| `HStore.HolderHigher` | Database/Content/HStoreContent.h:31-35 | who holds a partition and waits, waits for a higher one |
| `HStore.StepWorks` | Database/Executor/HStoreExecutor.h:139-154 | every step uses up one unit of work |
| `HStore.RunWorks` | Database/Executor/HStoreExecutor.h:139-154 | a run has as many steps as work has been done, so no run is longer than the work there is at the start |
| `HStore.RunEnds` | Database/Executor/HStoreExecutor.h:139-154 | where a run can go no further, every thread has finished all its transactions |
| `HStore.HStoreContent.LockPartitions` | Database/Content/HStoreContent.h:31-35 | afterwards the thread holds what it held and the whole set |
| `HStore.HStoreContent.UnlockPartitions` | Database/Content/HStoreContent.h:37-41 | afterwards it holds the set no more; others untouched |
| `HStorePartitions.SmallbankPartitionIds` | SmallbankBenchmark/SmallbankHStoreExecutor.h:107-128 | the locked set is exactly the set of partitions of the selects of the tuple's shard procedure |
| `HStorePartitions.TpccPartitionIds` | TpccBenchmark/TpccHStoreExecutor.h:92-112 | likewise, with the loop over a new order's lines, whatever the procedure reads |
| `HStorePartitions.SmallbankOwns` | Database/Executor/HStoreExecutor.h:139-154 | in every reachable state a thread that executes a Smallbank tuple owns the partition of every select of its procedure |
| `HStorePartitions.TpccOwns` | Database/Executor/HStoreExecutor.h:139-154 | likewise for TPC-C, whatever the procedure reads |
| `HStorePartitions.RunOwns` | Database/Executor/HStoreExecutor.h:139-154 | in every reachable state an executing thread owns the whole of its current set |
| `HStorePartitions.TodoRest` | Database/Executor/HStoreExecutor.h:139-154 | a thread takes its tuples in order |
| `HStorePartitions.SmallbankParts` | SmallbankBenchmark/ShardProcedures/AmalgamateShardProcedure.h:20-46 | the selects of the Smallbank procedures go to the partitions of their customers and to no others |
| `ShardProcedures.NewOrderParts` | TpccBenchmark/ShardProcedures/NewOrderShardProcedure.h:21-106 | the selects of a new order, items, stock and the rest, go to the home warehouse and to every line's supplier |
| `ShardProcedures.RoundRobin` | TpccBenchmark/ShardProcedures/PaymentShardProcedure.h:19 | identifiers go round the partitions: 1 to partition 0, each next one to the next partition |
| `ShardProcedures.StockParts` | TpccBenchmark/ShardProcedures/NewOrderShardProcedure.h:47-60 | the stock loop goes to the suppliers |
| `ShardProcedures.HomeOnly` | TpccBenchmark/ShardProcedures/DeliveryShardProcedure.h:21-113 | the selects of every other TPC-C procedure go to the home warehouse, whatever it reads |
| `HStorePartitions.InOrderAscends` | Database/Content/HStoreContent.h:31-35 | the set in iteration order is ascending |
| `HStorePartitions.InOrderMember` | Database/Content/HStoreContent.h:31-35 | and complete: exactly the members of the set |
| `ShardRouting.HashesAgree` | Database/Storage/RecordSchema.h:189-201 | record side and key side compute the same hash modulo 2^32, unless the unused zero slot is taken for column 0 |
| `ShardRouting.ConfusedDiffers` | Database/Storage/RecordSchema.h:189-201 | in that one case (no partition columns, column 0 primary) they agree if and only if column 0 begins with four zero bytes |
| `ShardRouting.ConfusedRoutes` | Database/Storage/ShardTable.h:135-141 | and there both sides choose the same partition if and only if the first word of column 0 is 0 modulo the partition count |
| `ShardRouting.ConfusedExample` | Database/Storage/RecordSchema.h:189-201 | a concrete schema and record where they differ |
| `ShardRouting.HashIsSum` | Database/Storage/SchemaRecord.h:135-141 | the hash is the sum of the partition columns' first words, in 32 bits |
| `ShardRouting.WordOf` | Database/Storage/SchemaRecord.h:138 | such a word is the little-endian 32-bit number |
| `ShardLoading.OneBehind` | Database/Storage/ShardTable.h:89-98 | a record whose one partition column holds an identifier is put one partition behind the one the shard procedures look in, so they find it there if and only if there is only one: the insert calls the table's own hash, not the benchmark's partition function |
| `ShardLoading.LoadingExample` | Database/Storage/ShardTable.h:89-98 | warehouse 1 of two partitions: put in partition 1, looked up in partition 0 |
| `ShardLoading.AllInFirst` | Database/Storage/ShardTable.h:89-98 | without partition columns, as in Smallbank, it is put in partition 0, where they look if and only if the partition count divides the identifier minus 1 |
| `ShardRouting.KeyWalk` | Database/Storage/RecordSchema.h:193-199 | the key loop meets exactly the partition columns, in step with the record loop |
| `ShardRouting.KeyColumn` | Database/Storage/SchemaRecord.h:107-112 | each primary column stands in the key at its offset |
| `ShardRouting.KeysEqual` | Database/Storage/SchemaRecord.h:101-116 | equal keys mean equal primary columns, and the other way round |
| `ShardRouting.ColumnFits` | Database/Storage/RecordSchema.h:51-59 | offsets add up: every column lies within the record |
| `ShardRouting.ShardTable.SelectKeyRecord` | Database/Storage/ShardTable.h:135-141 | after any inserts, on any schema: the first record inserted with equal primary columns, or none; on the confused schema with several partitions none, unless the first word of the key is 0 modulo their number |
| `ShardRouting.ShardTable.InsertRecord` | Database/Storage/ShardTable.h:89-109 | accepted iff no record with the key was inserted before, on any schema |
| `ShardRouting.TableGrows` | Database/Storage/ShardTable.h:89-109 | an accepted record goes to the partition of its hash and is the first with its key; the index stays what the inserts make it |
| `ShardRouting.RecordReached` | Database/Storage/ShardTable.h:135-141 | a record is in the partition its key is looked up in exactly if the lookup reaches it |
| `ShardRouting.ShardTable.RecordPartitionHashcode` | Database/Storage/SchemaRecord.h:135-141 | the hash loop over the partition columns |
| `ShardRouting.ShardTable.KeyPartitionHashcode` | Database/Storage/RecordSchema.h:189-201 | the hash loop over the key |
| `ShardRouting.KeyPartition` | Database/Storage/ShardTable.h:135-141 | likewise for the first record inserted with a key |
| `ShardRouting.SamePartition` | Database/Storage/ShardTable.h:264-266 | records with equal keys go to the same partition, on every schema |

## Left out

- Node objects: a node's arrays are sequences in a record of the memory map that the class holds and
  replaces; update in place, aliasing of arrays and object construction are not modelled. Links,
  allocation and freeing are explicit in the map.
- Key type: keys are integers, for which the source chooses linear search in a node; the binary and
  compare-to searches are proved to give the same positions but are not used in the descent.
- `insert_unique`, insertion with a hint, range erase, `clear`, copying, `swap` of whole trees and the
  safe_btree and container wrappers: built from the operations here.
- BTreeMultimap.BTree.Erase: requires the iterator to be on a value, as the source does; dangling
  iterators are not modelled.
- BTreeWalk.Decrement: before the first value the iterator stays on the leaf at position -1, as in the
  source; nothing is promised about going on from there.
- DBX inserts and deletes: the index insert is commented out, and deletes skip counter and validation.
- DbxSerial.RunsSerializable: the records are those present at the start; the epoch, logging and the
  hardware transaction's fall-back path are not modelled.
- LockContent.LockWaitContent.ReleaseLock: called by owners only; the fall-back for others searches
  the owner list a second time and cannot succeed.
- LockSystem.NoDeadlock: a blocked transaction does nothing and asks for no record twice, live
  timestamps differ.
- LockWait.AcquireKeeps: the lock type of an owner that has not waited is recorded for the proofs
  only; the source does not store it.
- ValueLog.ThreadLog.CommitTransaction: reads, updates and inserts; a delete copies its key without
  the running offset. Epochs may skip, which the source asserts they do not.
- ValueLog.ReloadLog: the file is one the logger produces, handed over as ghost chunks; compression,
  file calls and a damaged file are not modelled.
- Recovery.RecoversStore: each record is written at most once per transaction, and deletes are left out.
  Commits are atomic, under the locks the committing transaction holds on all its records.
- Reorder.ReorderLog: equal batch counts and epochs, which the source asserts or assumes.
- The command logger and the parser of its log.
- History.SnapshotExact: the versions have data of their own, so that a changed read shows.
- Snapshots.LateIff: every thread has registered its slot, timestamps do not pass 64 bits, and which
  records a commit installs is left open. That the writes of one record come with growing timestamps,
  which the source asserts, is required of them in History.Writes.
- HistoryList.GetMinTimestamp: the values its loads see are parameters, since other threads write the
  slots meanwhile; memory orders weaker than sequential consistency are not modelled.
- MvLock.StepKeeps: holders release only what they hold; the history of MvLockContent is the same code
  as SiLockContent's and is modelled once.
- HStore.HStoreContent.LockPartitions: requires that no other thread holds a partition of the set. On a
  held one the source spins, which is the absence of an enabled Lock step in the state machine.
- HStore.NoDeadlock: a thread that stops early because another one has finished is a thread with a
  shorter list.
- HStorePartitions.TpccPartitionIds: at most 2^31 partitions, which the procedures keep in an int;
  what the procedures read is a parameter; inserts are not selects. The procedures are modelled as they
  are: they look up a payment's customer under the home warehouse.
- ShardLoading.OneBehind: tables with several partition columns, or one that is not the identifier the
  procedures go by (stock is partitioned by item), are left out.
- ShardRouting.ShardTable.SelectKeyRecord: secondary indexes and deletion are left out (deletion
  erases secondary entries by primary key); where the hash reads a word at the front of the key the key
  is at least that long, as the source reads past a shorter one.
- MvToContent, ToContent and MvLockWaitContent: as written they do not keep their own list invariants.
- ZeroMQ communication, NUMA placement, thread pinning, profilers, workload generators, floating-point
  money arithmetic, cuckoo and TBB indexes.
