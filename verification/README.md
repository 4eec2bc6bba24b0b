# Verified models of the containers, text formats and cipher

This project models the algorithmic core of the repository and proves what the rest of it relies on.

| part | modules | repository file |
|---|---|---|
| lazily rehashed concurrent hash map | HashIndex, HashPlacement, HashTable, HashRehash, HashRun, HashSegments, HashRange, HashSteps, HashProgress | tbb/concurrent_hash_map.h |
| batched priority queue | PriorityQueue | tbb/concurrent_priority_queue.h |
| aggregator | Aggregator | tbb/aggregator.h |
| per-thread table | ThreadTable, ThreadSizes, ThreadCopy | tbb/enumerable_thread_specific.h |
| LRU cache | LruCache | tbb/concurrent_lru_cache.h |
| JSON | Json, JsonRoundTrip, JsonMeaning, JsonGrammar, JsonDecimals, JsonCode | CDBServer/cjson.c |
| XML | XmlText, XmlReferences, XmlDoc, XmlRoundTrip, XmlLayout, XmlCode | CDBServer/tinyxml2.cpp |
| arrays and memory pool | MemPool | CDBServer/tinyxml2.h |
| cipher | Des, DesText, DesBoxes, DesKeys, DesCode | WOTEDUtils/Class1.cs |

Options, Bytes and Unicode hold what several parts share.

## How the parts are built

**Hash map.** HashIndex is about bucket indices only: the parent of a bucket (its index without the top bit), the filled
buckets, and the *home* of a hash, the deepest filled bucket on its parent path. HashPlacement states the placement
invariant (every node lies in its home) and what marking, filling, growing, linking and unlinking do to it. HashTable is
the class with buckets, mask and size, whose methods update them in place and refine a plain map; every call takes any
mask that was current earlier. HashRehash adds `rehash()`, HashRun whole sequences of calls, HashSegments the addresses
of buckets in segments, and HashRange iteration and splitting. HashSteps is the concurrent machine: threads hold their
own masks and bucket locks, and every access to shared memory is a step. Its runs start from any table at rest, and it
keeps a history of effects, which is shown to be a linearization. HashProgress shows that its threads never wait for each
other in a circle.

**Priority queue.** The two passes, `heapify` and `reheap` are methods over one vector. The specification says only that
some order of the batch, given to a sequential queue, yields exactly the answers that were reported.

**Aggregator, per-thread table, LRU cache.** State machines with any number of threads; each `Run` is an arbitrary
interleaving. Operations of the aggregator are named by their address, which a later call of the same thread uses again.
The per-thread table is the list of arrays itself, slot by slot.

**Texts and cipher.** Each has a recursive definition of what is read and written, loops that are proved equal to it
on every input (malformed texts included), and theorems about the definition. For JSON and XML these are a round trip
for printed trees, and a grammar, written apart from the parser, with the exact statement which texts are read and as
what (`JsonGrammar.ReadExactly`, `XmlLayout.ReadExactly`); JsonMeaning and XmlReferences say what strings, escapes and
character references stand for. The cipher is inverted in DesText; DesBoxes and DesKeys say what its tables, subkeys
and rounds do. JsonDecimals reads numbers in exact arithmetic. Straight-line code of the original, such as the
substitution tables and the switches over single characters, is a function that these loops call. `GetStr` works in
place on an array. The memory pool follows the free chain through the slots of its blocks.

## Where the code differs from what it says, and exact conditions

- `rehash()` does not always leave every bucket rehashed. `reserve` takes a table whose size is zero for a new one and
  creates rehashed segments, although an emptied table can still carry markers in its lower segments; the scan then
  looks at a last segment that has none. `HashRehash.Rehash` gives the condition for all inputs, in terms a caller can
  evaluate before the call, and `HashRehash.EmptiedThenRehashed` the calls that lead there, for every key and hash
  function. The same event limits stale masks: they are safe down to the level `floor`, which only this event raises, and
  which is 1 otherwise.
- The per-thread table says that each array is half the size of its predecessor
  (tbb_concurrent_hash_map/include/tbb/enumerable_thread_specific.h:97-98). It is at most half. The sizes halve exactly
  as long as no thread installs an array over a root of fewer slots than its own count (ThreadSizes); five threads that
  count before any array exists reach sizes 4 and 16.
- The LRU cache with a history of zero items asks an empty list for its last element when the last handle of an
  item is released; a release is defined exactly if the limit is at least one or there is another user.
- GetStr: an escaped string comes back exactly if it holds no CR. For an unknown entity the loop advances the write
  position without writing, so its ampersand survives exactly if there is one at that position; a raw text survives as a
  whole exactly if it holds no CR, no reference that can be read and no `&#` at its end. `&lt;&a;` becomes `<la;`
  (`XmlText.UnknownEntityIsStale`).
- A character reference is read backwards from its semicolon to the nearest mark, so `&#1#2;` and `&#x1x2;` stand for
  their last number, and numbers are taken modulo 2^32. `XmlReferences.CharacterRefIs` states it for all texts.
- A CDATA section or a comment comes back exactly if it holds neither its own end mark nor a CR.
- A tag with a slash at both ends is read as an empty element, an end tag may have attributes, which are dropped, and
  attributes need no white space between them. `XmlLayout` has all that is accepted.
- The JSON parser takes more than RFC 8259: any control character is a blank, a number may be a sign alone or begin with
  zeros, any byte may be escaped, surrogates without their other half vanish, and a string may end with the text.
- The depth limit of 100 counts the document itself, so elements with content nest at most 98 deep.
- Elements with a repeated attribute name are rejected, and a closing tag without an opening one at document level ends
  parsing silently. `XmlRoundTrip.RoundTrip` puts the conditions on a document together.
- The cipher is not DES as FIPS PUB 46-3 has it: the boxes and the rounds are those of the standard, but the second
  half of the key bits is chosen in another order (`DesKeys.ChoiceAgainstStandard`, `DesKeys.OtherSchedule`).
- The cipher drops zero characters, ignores the third key if the second is empty, and fails on non-empty data with an
  empty first key.

## Model

| member | source | states |
|---|---|---|
| HashIndex.AncestorReady | tbb_concurrent_hash_map/include/tbb/concurrent_hash_map.h:633-643 | if every filled bucket above the floor has a filled parent, every shorter suffix of a filled bucket's index (down to the floor) is a filled bucket too |
| HashIndex.HomeIsReady | tbb_concurrent_hash_map/include/tbb/concurrent_hash_map.h:651-681 | the parent path of every hash ends in a filled bucket |
| HashIndex.HomeIsDeepest | tbb_concurrent_hash_map/include/tbb/concurrent_hash_map.h:651-681 | the home of a hash is the filled bucket with the longest matching suffix of the hash, an independent characterisation of the recursive definition |
| HashIndex.HomeUnderGrowth | tbb_concurrent_hash_map/include/tbb/concurrent_hash_map.h:259-272 | a larger mask over unfilled new buckets changes the home of no hash |
| HashIndex.HomeUnderFill | tbb_concurrent_hash_map/include/tbb/concurrent_hash_map.h:651-681 | filling a bucket moves exactly the hashes whose suffix is that bucket and whose home was its parent |
| HashIndex.HomeIfSame | tbb_concurrent_hash_map/include/tbb/concurrent_hash_map.h:228-235 | if the old and the new mask cut the same bucket and it is filled, it is the home |
| HashIndex.HomeIfNextEmpty | tbb_concurrent_hash_map/include/tbb/concurrent_hash_map.h:237-256 | if the first deeper bucket of the hash still carries the marker, the bucket of the old mask is the home |
| HashIndex.HomeIfNextFilled | tbb_concurrent_hash_map/include/tbb/concurrent_hash_map.h:237-256 | if the first deeper bucket of the hash is filled, the bucket of the old mask is not the home |
| HashIndex.NextIsChild | tbb_concurrent_hash_map/include/tbb/concurrent_hash_map.h:237-256 | the bucket that check_rehashing_collision looks at is a child of the one the caller holds |
| HashIndex.HomeAfterSubtree | tbb_concurrent_hash_map/include/tbb/concurrent_hash_map.h:1304-1313 | after the whole unfilled subtree of a bucket is marked, hashes that lived there live at hash & mask, and no other home changes |
| HashPlacement.SplitMembers | tbb_concurrent_hash_map/include/tbb/concurrent_hash_map.h:665-680 | a node moves to the new bucket exactly if its hash under the doubled mask is that bucket; otherwise it stays |
| HashPlacement.SplitKeepsAll | tbb_concurrent_hash_map/include/tbb/concurrent_hash_map.h:665-680 | staying and moved nodes together are the old chain as a multiset: none lost, none duplicated |
| HashPlacement.MarkKeeps | tbb_concurrent_hash_map/include/tbb/concurrent_hash_map.h:654 | storing the empty chain in place of the marker keeps the placement invariant while the bucket waits for its nodes |
| HashPlacement.FillKeeps | tbb_concurrent_hash_map/include/tbb/concurrent_hash_map.h:651-681 | after rehash_bucket every node is again in the deepest filled bucket on its path, and exactly that bucket became filled |
| HashPlacement.GrowKeeps | tbb_concurrent_hash_map/include/tbb/concurrent_hash_map.h:157-163 | a larger table of marked buckets keeps the placement of all nodes |
| HashPlacement.GrowFilledKeeps | tbb_concurrent_hash_map/include/tbb/concurrent_hash_map.h:275-280 | growing an empty table with already rehashed buckets keeps the placement invariant above a raised floor, and leaves a marker exactly if there was one |
| HashPlacement.InsertKeeps | tbb_concurrent_hash_map/include/tbb/concurrent_hash_map.h:259-262 | linking a new node into its home bucket keeps the placement and adds exactly that node |
| HashPlacement.RemoveKeeps | tbb_concurrent_hash_map/include/tbb/concurrent_hash_map.h:1225-1232 | unlinking one node keeps the placement and removes exactly that node |
| HashPlacement.HomeDecides | tbb_concurrent_hash_map/include/tbb/concurrent_hash_map.h:619-625 | a key is in the table exactly if its home bucket's chain has a node with it |
| HashPlacement.StaleMaskSafe | tbb_concurrent_hash_map/include/tbb/concurrent_hash_map.h:228-256 | for every placed table and every earlier mask above the floor: if the bucket of the old mask is filled and check_mask_race answers no, the key is stored exactly if that bucket's chain has it |
| HashTable.ConcurrentHashMap.SearchBucket | tbb_concurrent_hash_map/include/tbb/concurrent_hash_map.h:619-625 | the first node of the chain with the key, or the end if there is none |
| HashTable.ConcurrentHashMap.CheckMaskRace | tbb_concurrent_hash_map/include/tbb/concurrent_hash_map.h:228-234 | answers yes exactly if the filled bucket of the stale mask is not the home of the hash; the mask is refreshed, and a yes implies that it was stale |
| HashTable.ConcurrentHashMap.CheckRehashingCollision | tbb_concurrent_hash_map/include/tbb/concurrent_hash_map.h:237-256 | the slow half of the same test: exact for every stale mask above the floor |
| HashTable.ConcurrentHashMap.Acquire | tbb_concurrent_hash_map/include/tbb/concurrent_hash_map.h:633-643 | bucket_accessor: afterwards the bucket is filled, the placement invariant holds, and besides what was filled before only buckets on the parent path are |
| HashTable.ConcurrentHashMap.RehashBucket | tbb_concurrent_hash_map/include/tbb/concurrent_hash_map.h:651-681 | recursive filling from the parent terminates, keeps the invariant and loses no node |
| HashTable.ConcurrentHashMap.MoveNodes | tbb_concurrent_hash_map/include/tbb/concurrent_hash_map.h:665-680 | the in-place loop turns the two chains into the staying and the moved part and touches no other bucket |
| HashTable.ConcurrentHashMap.EnableSegment | tbb_concurrent_hash_map/include/tbb/concurrent_hash_map.h:182-205 | the mask grows by one segment (or to the first block), old buckets are untouched, and no home changes |
| HashTable.ConcurrentHashMap.InsertNewNode | tbb_concurrent_hash_map/include/tbb/concurrent_hash_map.h:259-272 | one more node, and the segment to enable exactly when the size reaches the mask; no bucket is filled |
| HashTable.ConcurrentHashMap.InsertAbsent | tbb_concurrent_hash_map/include/tbb/concurrent_hash_map.h:1142-1184 | the stored map gains exactly the new pair; the mask grows exactly if the new size reaches it, and no bucket is filled |
| HashTable.ConcurrentHashMap.Lookup | tbb_concurrent_hash_map/include/tbb/concurrent_hash_map.h:1112-1188 | with any stale mask above the floor: find answers membership and insert behaves as on a plain map; the returned node holds the stored value |
| HashTable.ConcurrentHashMap.Unlink | tbb_concurrent_hash_map/include/tbb/concurrent_hash_map.h:1225-1232 | removes exactly the node pointed to and counts it |
| HashTable.ConcurrentHashMap.Erase | tbb_concurrent_hash_map/include/tbb/concurrent_hash_map.h:1240-1274 | with any stale mask above the floor: true exactly if the key was there, and the map loses that key only |
| HashTable.ConcurrentHashMap.Exclude | tbb_concurrent_hash_map/include/tbb/concurrent_hash_map.h:1210-1237 | erasing by accessor removes the very node held, or answers false exactly if it was erased before |
| HashTable.CountOfKeys | tbb_concurrent_hash_map/include/tbb/concurrent_hash_map.h:259-260 | with unique keys the number of nodes is the number of keys of the stored map |
| HashTable.NextDecides | tbb_concurrent_hash_map/include/tbb/concurrent_hash_map.h:245-254 | at the bucket the race check inspects, the marker is there exactly if the caller's bucket is still the home |
| HashTable.NextMask | tbb_concurrent_hash_map/include/tbb/concurrent_hash_map.h:241-244 | the doubling loop stops at the first level at which the hash leaves the old bucket |
| HashRehash.MarkRehashedLevels | tbb_concurrent_hash_map/include/tbb/concurrent_hash_map.h:217-224 | marks exactly the whole unfilled subtree of a bucket, across all segments |
| HashRehash.FilledAncestor | tbb_concurrent_hash_map/include/tbb/concurrent_hash_map.h:1297-1302 | halving the mask stops at the home of the bucket's index |
| HashRehash.SubtreeFilledPlaced | tbb_concurrent_hash_map/include/tbb/concurrent_hash_map.h:1304-1313 | scattering the ancestor's chain over its marked subtree restores the placement of all nodes |
| HashRehash.ScatterChain | tbb_concurrent_hash_map/include/tbb/concurrent_hash_map.h:1305-1313 | the loop moves each node to hash & mask, whichever bucket of the subtree that is |
| HashRehash.FillSubtree | tbb_concurrent_hash_map/include/tbb/concurrent_hash_map.h:1296-1314 | one scanned marker fills its whole family; the map and the filled buckets stay |
| HashRehash.Reserve | tbb_concurrent_hash_map/include/tbb/concurrent_hash_map.h:275-280 | enough buckets afterwards; on a non-empty table no bucket becomes filled; on an empty one markers stay exactly if there were any |
| HashRehash.ScanLastSegment | tbb_concurrent_hash_map/include/tbb/concurrent_hash_map.h:1288-1315 | the scan leaves no marker exactly if there was none or the last segment was not raised by an empty reserve |
| HashRehash.Rehash | tbb_concurrent_hash_map/include/tbb/concurrent_hash_map.h:1286-1315 | exactly when no marker is left after rehash(): none at entry, or growth while non-empty, or no growth and a marker in the last segment; the stored nodes never change |
| HashRehash.FullyRehashed | tbb_concurrent_hash_map/include/tbb/concurrent_hash_map.h:1286-1315 | without markers a bucket holds exactly the nodes with hash & mask equal to its index |
| HashRehash.EmptiedThenRehashed | tbb_concurrent_hash_map/include/tbb/concurrent_hash_map.h:275-280 | for every hash function and key: a new map, one insert, one erase of the same key and rehash(257) leave a bucket with the marker |
| HashRun.Perform | tbb_concurrent_hash_map/include/tbb/concurrent_hash_map.h:1112-1315 | each call with any admissible stale mask answers as the plain map does and keeps the two in agreement |
| HashRun.RunAll | tbb_concurrent_hash_map/include/tbb/concurrent_hash_map.h:1112-1315 | over every sequence of find, count, insert, both erases and rehash, all answers are those of a plain map, the stored nodes are its entries, and my_size is their number |
| HashRun.SizeAgrees | tbb_concurrent_hash_map/include/tbb/concurrent_hash_map.h:259-260 | nodes and map entries are equally many, so no key has two nodes |
| HashRun.RunsStartAtRest | tbb_concurrent_hash_map/include/tbb/concurrent_hash_map.h:1112-1315 | every table that calls and rehash() can leave, raised floor included, is a starting state of the concurrent runs |
| HashSegments.SegmentHolds | tbb_concurrent_hash_map/include/tbb/concurrent_hash_map.h:137-149 | every index lies in the segment that segment_index_of names |
| HashSegments.SegmentUnique | tbb_concurrent_hash_map/include/tbb/concurrent_hash_map.h:137-149 | and in no other |
| HashSegments.BucketHasSlot | tbb_concurrent_hash_map/include/tbb/concurrent_hash_map.h:208-214 | get_bucket maps each index up to the mask to an allocated slot, from which the index can be read back: one-to-one, merged first block included |
| HashSegments.SlotHasBucket | tbb_concurrent_hash_map/include/tbb/concurrent_hash_map.h:208-214 | every allocated slot is the bucket of some index up to the mask: onto |
| HashSegments.SegmentStart | tbb_concurrent_hash_map/include/tbb/concurrent_hash_map.h:327-330 | the test k & (k-2), on w-bit words, is zero exactly at the first index of a segment |
| HashSegments.NextAddress | tbb_concurrent_hash_map/include/tbb/concurrent_hash_map.h:327-330 | inside a segment the next bucket is the next address |
| HashSegments.SegmentTable.EnableSegment | tbb_concurrent_hash_map/include/tbb/concurrent_hash_map.h:182-205 | one-to-one addressing is kept and the mask grows; older segment pointers stay |
| HashSegments.SegmentTable.FillFirstBlock | tbb_concurrent_hash_map/include/tbb/concurrent_hash_map.h:193-203 | the merged first allocation serves segments 1 to first_block - 1 of the table |
| HashSegments.SegmentTable.GetBucket | tbb_concurrent_hash_map/include/tbb/concurrent_hash_map.h:208-214 | the address it returns is an allocated slot with that index |
| HashSegments.AddressesStay | tbb_concurrent_hash_map/include/tbb/concurrent_hash_map.h:182-205 | a bucket keeps its address under every later growth |
| HashRange.StepAddress | tbb_concurrent_hash_map/include/tbb/concurrent_hash_map.h:327-330 | incrementing the bucket pointer is right wherever the bit test says so |
| HashRange.AdvanceToNextBucket | tbb_concurrent_hash_map/include/tbb/concurrent_hash_map.h:323-338 | stops at the next bucket that holds a node, skipping empty and unrehashed ones, or at the end |
| HashRange.IteratorFrom | tbb_concurrent_hash_map/include/tbb/concurrent_hash_map.h:383-392 | a new iterator stands at the first node at or after its bucket |
| HashRange.Increment | tbb_concurrent_hash_map/include/tbb/concurrent_hash_map.h:395-399 | one step consumes exactly the current node of the remaining iteration |
| HashRange.SetMidpoint | tbb_concurrent_hash_map/include/tbb/concurrent_hash_map.h:473-489 | the midpoint lies strictly inside a divisible range, or is its end |
| HashRange.WholeRange | tbb_concurrent_hash_map/include/tbb/concurrent_hash_map.h:458-465 | range() denotes all nodes of all buckets |
| HashRange.Split | tbb_concurrent_hash_map/include/tbb/concurrent_hash_map.h:439-448 | both halves are non-empty, meet at the midpoint, and their iterations concatenate to the original |
| HashRange.Visit | tbb_concurrent_hash_map/include/tbb/concurrent_hash_map.h:395-399 | running an iterator from begin to end yields exactly the nodes of the range |
| HashRange.IterationIsComplete | tbb_concurrent_hash_map/include/tbb/concurrent_hash_map.h:323-338 | every stored node is visited exactly once although some buckets are not rehashed |
| HashRange.Pieces | tbb_concurrent_hash_map/include/tbb/concurrent_hash_map.h:439-448 | every recursive splitting concatenates to the full iteration, with no empty piece of a non-empty range |
| HashRange.PiecesShareNothing | tbb_concurrent_hash_map/include/tbb/concurrent_hash_map.h:439-448 | two different pieces have no node in common |
| HashSteps.FillKeepsInv | tbb_concurrent_hash_map/include/tbb/concurrent_hash_map.h:651-681 | moving the nodes of a bucket while other threads run keeps the concurrent invariant |
| HashSteps.LinkKeepsInv | tbb_concurrent_hash_map/include/tbb/concurrent_hash_map.h:1142-1147 | linking after a negative race check keeps it |
| HashSteps.UnlinkKeepsInv | tbb_concurrent_hash_map/include/tbb/concurrent_hash_map.h:1255-1268 | unlinking under the write lock keeps it |
| HashSteps.EnableKeepsInv | tbb_concurrent_hash_map/include/tbb/concurrent_hash_map.h:1177-1184 | publishing the larger mask keeps it, whatever masks other threads hold |
| HashSteps.NextKeeps | tbb_concurrent_hash_map/include/tbb/concurrent_hash_map.h:1112-1274 | every step of every thread keeps the invariant: locks, placement, pending buckets, stale masks and history |
| HashSteps.RunInv | tbb_concurrent_hash_map/include/tbb/concurrent_hash_map.h:1112-1274 | the invariant in every state of every interleaving that starts from any table at rest |
| HashSteps.RunStaleMask | tbb_concurrent_hash_map/include/tbb/concurrent_hash_map.h:1126-1156 | in every run, when a thread has completed the two reads of its race check with answer no, the key is stored exactly if the held bucket has it |
| HashSteps.RunHeldIsFilled | tbb_concurrent_hash_map/include/tbb/concurrent_hash_map.h:633-643 | a bucket that a thread holds after acquire never carries the marker |
| HashSteps.EffectOnce | tbb_concurrent_hash_map/include/tbb/concurrent_hash_map.h:1112-1274 | each call takes effect in exactly one step between its start and its end, and its answer is fixed there |
| HashSteps.RunLinearizable | tbb_concurrent_hash_map/include/tbb/concurrent_hash_map.h:1112-1274 | the order of these effects is a legal history of a plain map from the nodes stored at the start to exactly those stored now, one per key |
| HashSteps.MaskGrows | tbb_concurrent_hash_map/include/tbb/concurrent_hash_map.h:182-205 | the mask is one less than a power of two and never shrinks; only the winner of the segment CAS publishes, and once |
| HashSteps.NextKeepsSize | tbb_concurrent_hash_map/include/tbb/concurrent_hash_map.h:259-262 | my_size plus the pending counts of running calls is the number of keys, kept by every step |
| HashSteps.RunSizeAtRest | tbb_concurrent_hash_map/include/tbb/concurrent_hash_map.h:259-262 | whenever no call runs, my_size is the number of keys |
| HashProgress.SomeoneAdvances | tbb_concurrent_hash_map/include/tbb/concurrent_hash_map.h:633-681 | in every state of the invariant, from any running thread the chain of lock holders leads to ever shallower buckets and so to a thread that can go on |
| HashProgress.NoDeadlock | tbb_concurrent_hash_map/include/tbb/concurrent_hash_map.h:1112-1274 | in every state of every run in which a call is in progress some call can make a step of its work, other than starting over |
| PriorityQueue.RootIsTop | tbb_concurrent_hash_map/include/tbb/concurrent_priority_queue.h:438-452 | no element of the heap part exceeds the root |
| PriorityQueue.SunkIsHeap | tbb_concurrent_hash_map/include/tbb/concurrent_priority_queue.h:456-473 | sinking the last element from a hole restores the heap |
| PriorityQueue.SunkKeepsElements | tbb_concurrent_hash_map/include/tbb/concurrent_priority_queue.h:456-473 | and exchanges exactly the element of the hole for the last one |
| PriorityQueue.TailTaken | tbb_concurrent_hash_map/include/tbb/concurrent_priority_queue.h:372-381 | a pop that takes the tail is explained by placing it right after the push of that element |
| PriorityQueue.RootTakenTailJoins | tbb_concurrent_hash_map/include/tbb/concurrent_priority_queue.h:412-428 | a pop of the root that pulls a tail element into the heap is explained by that push joining the order after it |
| PriorityQueue.RootTakenNoTail | tbb_concurrent_hash_map/include/tbb/concurrent_priority_queue.h:412-428 | a pop of the root without a tail is explained and shortens the heap |
| PriorityQueue.FirstPassExplained | tbb_concurrent_hash_map/include/tbb/concurrent_priority_queue.h:360-401 | after the first pass an order of the settled operations explains every answer given so far |
| PriorityQueue.SecondPassExplained | tbb_concurrent_hash_map/include/tbb/concurrent_priority_queue.h:404-429 | the second pass completes that order to the whole batch and keeps the heap |
| PriorityQueue.BatchIsExplained | tbb_concurrent_hash_map/include/tbb/concurrent_priority_queue.h:354-435 | for every heap and every batch, failed allocations included, some order of the batch run by a sequential max-priority queue gives exactly the answers and the final elements |
| PriorityQueue.ConcurrentPriorityQueue.SiftUp | tbb_concurrent_hash_map/include/tbb/concurrent_priority_queue.h:442-450 | one more element joins the heap; the elements are the same |
| PriorityQueue.ConcurrentPriorityQueue.Heapify | tbb_concurrent_hash_map/include/tbb/concurrent_priority_queue.h:438-452 | the whole vector becomes a heap with the same elements |
| PriorityQueue.ConcurrentPriorityQueue.Reheap | tbb_concurrent_hash_map/include/tbb/concurrent_priority_queue.h:456-473 | the in-place loop equals the specified sinking and shortens the vector by one |
| PriorityQueue.ConcurrentPriorityQueue.HandleOperations | tbb_concurrent_hash_map/include/tbb/concurrent_priority_queue.h:354-435 | the code itself: answers explained by some order, mark equal to the size, whole array a heap |
| Aggregator.RunInv | tbb_concurrent_hash_map/include/tbb/aggregator.h:108-177 | the protocol invariant in every interleaving, including reuse of an operation's address |
| Aggregator.OneHandler | tbb_concurrent_hash_map/include/tbb/aggregator.h:149-177 | at most one thread is between setting and clearing handler_busy, although the flag is tested and set in two steps |
| Aggregator.MailboxHasHeir | tbb_concurrent_hash_map/include/tbb/aggregator.h:118-129 | the mailbox is non-empty exactly if one thread is on its way to handle it |
| Aggregator.HandledOnce | tbb_concurrent_hash_map/include/tbb/aggregator.h:108-135 | no operation is handled twice, and when execute returns its own operation was handled exactly once |
| Aggregator.LinkReadBeforeFinish | tbb_concurrent_hash_map/include/tbb/aggregator.h:73-88 | a link is read only while its operation is unfinished and its owner still waits |
| Aggregator.NoDeadlock | tbb_concurrent_hash_map/include/tbb/aggregator.h:108-177 | while a call is in progress some thread can move |
| ThreadTable.RunInv | tbb_concurrent_hash_map/include/tbb/enumerable_thread_specific.h:171-241 | the table invariant in every interleaving |
| ThreadTable.HalfFull | tbb_concurrent_hash_map/include/tbb/enumerable_thread_specific.h:197-240 | at most half the slots of any array are ever claimed |
| ThreadTable.SearchesEnd | tbb_concurrent_hash_map/include/tbb/enumerable_thread_specific.h:180-195 | every probe path meets an unclaimed slot within half the array, so no search loop runs longer |
| ThreadTable.PathIsShort | tbb_concurrent_hash_map/include/tbb/enumerable_thread_specific.h:180-195 | a run of claimed slots on a probe path is at most half the array long |
| ThreadTable.NotHere | tbb_concurrent_hash_map/include/tbb/enumerable_thread_specific.h:180-195 | meeting an empty slot proves that the key is nowhere in the array |
| ThreadTable.CreatedOnce | tbb_concurrent_hash_map/include/tbb/enumerable_thread_specific.h:200-201 | create_local runs once per thread, exists says whether it ran before, and different threads have different objects |
| ThreadTable.SameObject | tbb_concurrent_hash_map/include/tbb/enumerable_thread_specific.h:171-241 | any two lookups of a thread return the same object, however many larger roots came between |
| ThreadTable.SizesDecrease | tbb_concurrent_hash_map/include/tbb/enumerable_thread_specific.h:204-222 | each array is at least twice as large as the next in the list |
| ThreadSizes.InstallDoubles | tbb_concurrent_hash_map/include/tbb/enumerable_thread_specific.h:204-222 | an array installed over a root is exactly twice as large as it if and only if the number of the installing thread is at most the size of that root |
| ThreadSizes.HalvesUnlessJumped | tbb_concurrent_hash_map/include/tbb/enumerable_thread_specific.h:97-98 | in every run the sizes halve along the list exactly if no thread ever installed an array over a root smaller than its number |
| ThreadSizes.SizesMayJump | tbb_concurrent_hash_map/include/tbb/enumerable_thread_specific.h:97-98 | a reachable state of five threads whose list is an array of sixteen slots followed by one of four |
| ThreadCopy.CopyOne | tbb_concurrent_hash_map/include/tbb/enumerable_thread_specific.h:135-144 | one insertion into the copy adds exactly that key, with the copied object |
| ThreadCopy.CopyArray | tbb_concurrent_hash_map/include/tbb/enumerable_thread_specific.h:132-146 | copies exactly the keys not copied from a newer array |
| ThreadCopy.ElementwiseCopy | tbb_concurrent_hash_map/include/tbb/enumerable_thread_specific.h:122-150 | the single-array copy holds exactly the keys of the list, each once, with the copy of its object |
| ThreadCopy.RestCanBeCopied | tbb_concurrent_hash_map/include/tbb/enumerable_thread_specific.h:122-150 | every state between calls of every run meets the precondition of the copy |
| LruCache.ConcurrentLruCache.RetrieveSerial | tbb_concurrent_hash_map/include/tbb/concurrent_lru_cache.h:240-257 | the new state is the one that RetrievedIs characterises; a value is needed exactly if the key was absent |
| LruCache.ConcurrentLruCache.SignalEndOfUsageSerial | tbb_concurrent_hash_map/include/tbb/concurrent_lru_cache.h:259-280 | the new state is the one that SignalledIs characterises |
| LruCache.ConcurrentLruCache.EvictItems | tbb_concurrent_hash_map/include/tbb/concurrent_lru_cache.h:270-275 | the loop drops exactly the last items of the list, from the list and from the map |
| LruCache.SignalledIs | tbb_concurrent_hash_map/include/tbb/concurrent_lru_cache.h:259-280 | with a history of at least one: what a release does to the list, the map, and every other entry |
| LruCache.RetrievedIs | tbb_concurrent_hash_map/include/tbb/concurrent_lru_cache.h:240-257 | what a retrieval does: one more user, the list without the item and otherwise as it was, value and readiness kept, every other entry unchanged |
| LruCache.EvictionsFit | tbb_concurrent_hash_map/include/tbb/concurrent_lru_cache.h:266-276 | the eviction loop never asks an empty list for its back exactly if the limit is at least one or other handles remain |
| LruCache.ReleaseIsDefined | tbb_concurrent_hash_map/include/tbb/concurrent_lru_cache.h:266-276 | in every state of every run, for every limit: a handle can be released if and only if the limit is at least one or the item has another user |
| LruCache.NoHistoryIsStuck | tbb_concurrent_hash_map/include/tbb/concurrent_lru_cache.h:266-276 | with limit zero a run reaches a handle that cannot be released: the first one made |
| LruCache.NextKeeps | tbb_concurrent_hash_map/include/tbb/concurrent_lru_cache.h:240-280 | every step of every thread keeps the cache invariant, for every limit |
| LruCache.RunInv | tbb_concurrent_hash_map/include/tbb/concurrent_lru_cache.h:240-280 | in every run: counters equal retrievals not yet signalled; the list holds exactly the zero-counter entries, once each, latest release first, never above the limit; unready items are being filled by one thread |
| LruCache.HandleShowsValue | tbb_concurrent_hash_map/include/tbb/concurrent_lru_cache.h:89-99 | a returned handle shows the value of its key, computed once in this stay |
| LruCache.EvictsLongestUnused | tbb_concurrent_hash_map/include/tbb/concurrent_lru_cache.h:267-276 | an evicted item is used by nobody and was released before every other item of the full list, all of which stay |
| LruCache.LeavesOnlyWhenFull | tbb_concurrent_hash_map/include/tbb/concurrent_lru_cache.h:240-280 | in every run, over every kind of step: an item leaves the cache only when the last handle of another one is released and the list is full, and it is the last of the list |
| LruCache.OrderOfUnused | tbb_concurrent_hash_map/include/tbb/concurrent_lru_cache.h:240-280 | in every run each step leaves the list of unused items as it is, takes one item out, or puts a new one in front and drops the last of a full list |
| JsonRoundTrip.NumberBack | CDBServer/cjson.c:98-140 | a printed 32-bit integer is read back, INT_MIN included |
| JsonRoundTrip.StringBack | CDBServer/cjson.c:145-238 | unescaping an escaped NUL-free string gives it back |
| JsonRoundTrip.QuotedBack | CDBServer/cjson.c:145-238 | the same for the quoted form with the rest of the text |
| JsonRoundTrip.EscapeIsRfc | CDBServer/cjson.c:205-238 | every printed string body is a sequence of characters as section 7 of RFC 8259 allows |
| JsonRoundTrip.EscapedIsSame | CDBServer/cjson.c:205-238 | escaping leaves a string as it is if and only if section 7 of RFC 8259 allows all its bytes to stand for themselves |
| JsonRoundTrip.ScalarBack | CDBServer/cjson.c:165-188 | the escape of every character but NUL, as one or two code units by section 7 of RFC 8259, is read as bytes that are well-formed UTF-8 for that character |
| Unicode.Utf8Back | CDBServer/cjson.c:181-188 | the bytes written for a code below 2^21 are read as that code by section 3 of RFC 3629, in no more bytes than needed |
| Unicode.ToUtf8 | CDBServer/cjson.c:181-188 | the switch that falls through writes these bytes |
| JsonMeaning.CharIs | CDBServer/cjson.c:165-193 | each way to write a character in section 7 of RFC 8259 (a byte, the eight short escapes, one or two code units in hex digits of either case) is read as the bytes it stands for, defined apart from the parser |
| JsonMeaning.BodyMeaningIs | CDBServer/cjson.c:145-202 | every string body of RFC 8259 with paired, non-zero code units is read as what its characters mean |
| JsonGrammar.LooseBodyIs | CDBServer/cjson.c:145-202 | the same for every body the parser takes: any byte may be escaped, and code zero and surrogates without their other half stand for nothing |
| JsonGrammar.BodyOf | CDBServer/cjson.c:145-202 | whatever body is read is one of these |
| JsonGrammar.LooseNumberIs | CDBServer/cjson.c:98-118 | a sign, a zero and further digits, not all of which have to be there, are read as the integer the digits stand for, where no fraction or exponent follows |
| JsonGrammar.NumberOfText | CDBServer/cjson.c:98-118 | whatever integer is read was written so |
| JsonDecimals.ReadDecimal | CDBServer/cjson.c:98-118 | the loops of parse_number over digits, fraction and exponent, in exact arithmetic |
| JsonDecimals.DecimalIs | CDBServer/cjson.c:98-118 | every number of RFC 8259, with or without sign, fraction and exponent, is read as the real number it denotes, and the text after it is left |
| JsonDecimals.IntegersAgree | CDBServer/cjson.c:98-118 | where trees hold a number it is the integer of that same value, and the same text is left |
| JsonGrammar.DocIs | CDBServer/cjson.c:277-289 | every value of the grammar, with gaps between its tokens, is read as what it means, and the text after it is left |
| JsonGrammar.DocOf | CDBServer/cjson.c:277-289 | whatever value is read, its text is one of the grammar that means this value |
| JsonGrammar.ReadExactly | CDBServer/cjson.c:254-289 | for every text: the parser returns a value and a rest if and only if the text is a gap, a text of the grammar that means this value, and the rest; with the end check the rest is a gap up to the end |
| JsonGrammar.RfcText | CDBServer/cjson.c:254-289 | every JSON text of RFC 8259 with 32-bit integers, blanks included, is read as the value it denotes |
| JsonRoundTrip.ValueBack | CDBServer/cjson.c:277-307 | any printable value at any depth, in either layout, is read back and exactly consumed |
| JsonRoundTrip.ItemsBack | CDBServer/cjson.c:310-393 | the items of a printed array are read back in order |
| JsonRoundTrip.MembersBack | CDBServer/cjson.c:396-497 | the members of a printed object are read back in order, repeated names included |
| JsonRoundTrip.RoundTrip | CDBServer/cjson.c:254-307 | parsing either printed form of a tree returns the tree and consumes the whole text, with or without the end check |
| JsonCode.PrintStringPtr | CDBServer/cjson.c:205-238 | the two loops (escaping needed or not) write the specified quoted string |
| JsonCode.PrintArray | CDBServer/cjson.c:338-393 | the printing loops write the specified array text |
| JsonCode.PrintObject | CDBServer/cjson.c:432-497 | the printing loops write the specified object text |
| JsonCode.Print | CDBServer/cjson.c:292-307 | prints every tree as specified |
| JsonCode.SkipBlanks | CDBServer/cjson.c:251 | the loop removes the leading bytes from 1 to 32 |
| JsonCode.ReadNumber | CDBServer/cjson.c:98-118 | the digit loop reads the specified number |
| JsonCode.ReadString | CDBServer/cjson.c:145-202 | the loop decodes escapes, surrogate pairs included, as specified |
| JsonCode.ReadChar | CDBServer/cjson.c:154-193 | the body of that loop computes the step whose meaning CharIs and LooseBodyIs give |
| JsonCode.Read | CDBServer/cjson.c:277-289 | dispatches as specified on every text |
| JsonCode.ReadArray | CDBServer/cjson.c:310-335 | the loop over items and commas agrees with the recursive parser, errors included |
| JsonCode.ReadObject | CDBServer/cjson.c:396-429 | the loop over members agrees with the recursive parser, errors included |
| XmlText.TextRoundTrip | CDBServer/tinyxml2.cpp:267-365 | decoding an escaped string gives it back exactly if it has no CR (line ends, section 2.11 of XML 1.0), for both entity sets |
| XmlText.PlainRoundTrip | CDBServer/tinyxml2.cpp:267-365 | text without entity processing comes back if and only if it has no CR |
| XmlText.EscapedLines | CDBServer/tinyxml2.cpp:267-365 | decoding any escaped string gives the string with its line ends normalized |
| XmlText.EntityBack | CDBServer/tinyxml2.cpp:328-346 | each predefined entity (section 4.6 of XML 1.0) decodes to its character |
| XmlRoundTrip.EscapedIsFree | CDBServer/tinyxml2.cpp:2485-2535 | an escaped value holds no angle bracket and, in an attribute, no quote of either kind |
| XmlRoundTrip.EscapedIsSame | CDBServer/tinyxml2.cpp:2485-2535 | it is the value itself if and only if that holds no ampersand, no angle bracket and, in an attribute, no quote |
| XmlText.PrintString | CDBServer/tinyxml2.cpp:2485-2535 | the run-by-run loop writes the escaped string for either entity set |
| XmlText.FindPattern | CDBServer/tinyxml2.cpp:2506-2519 | the table search finds the entity of every escaped byte |
| XmlText.GetStr | CDBServer/tinyxml2.cpp:267-365 | in place: the piece becomes its decoded text and a NUL, bytes outside it are unchanged, and the write position never passes the piece |
| XmlText.DecodeLoop | CDBServer/tinyxml2.cpp:279-354 | the write pointer never passes the read pointer, so unread input is intact |
| XmlText.TextStays | CDBServer/tinyxml2.cpp:307-346 | for every text: GetStr leaves it as it is, unknown entities included, if and only if no position holds a CR, begins a reference that can be read, or begins a final ampersand-hash |
| XmlText.UnknownByte | CDBServer/tinyxml2.cpp:341-345 | at an unknown entity the byte put out is an ampersand if and only if the byte at the write position is one, in particular if nothing was shortened before |
| XmlText.UnknownKept | CDBServer/tinyxml2.cpp:341-345 | for every text: the result is the one that keeps all unknown entities if and only if each of them finds an ampersand at the write position |
| XmlText.GetCharacterRef | CDBServer/tinyxml2.cpp:456-540 | the search for the semicolon and the backward loop over the digits, with 32-bit wrap-around, agree with the definition that CharacterRefIs characterises, early returns included |
| XmlText.FindEntity | CDBServer/tinyxml2.cpp:328-340 | the loop over the entity table finds the entity the text begins with, or none |
| XmlReferences.CharacterRefIs | CDBServer/tinyxml2.cpp:456-540 | a character reference in full: kept as text exactly if there is no semicolon or a byte that is no digit comes between the last mark and the semicolon; otherwise the UTF-8 bytes of the number, modulo 2^32 |
| XmlReferences.DigitsRef | CDBServer/tinyxml2.cpp:456-540 | a reference by any decimal digits, or hex digits of either case, leading zeros included, is the character of their value |
| XmlReferences.ReferenceBack | CDBServer/tinyxml2.cpp:456-540 | for every code below 2^21: the reference by its numeral, decimal or hex, is read as the UTF-8 bytes of that code |
| XmlReferences.TokenPiece | CDBServer/tinyxml2.cpp:279-346 | a plain byte, a line end of either kind, a predefined entity or a reference is one piece with its meaning, whatever follows |
| XmlReferences.TextMeaning | CDBServer/tinyxml2.cpp:267-365 | GetStr of every mixture of such tokens is what they mean, one after the other |
| XmlRoundTrip.CDataRoundTrip | CDBServer/tinyxml2.cpp:1137-1145 | for every NUL-free value: the printed CDATA section is read back if and only if the value holds neither the end mark nor a CR |
| XmlRoundTrip.CommentRoundTrip | CDBServer/tinyxml2.cpp:1202-1215 | the same for comments |
| XmlRoundTrip.DeclarationBack | CDBServer/tinyxml2.cpp:1032-1051 | a printed declaration is read, with its line ends normalized, if and only if it stands at document level with only declarations before it; otherwise it is the declaration error |
| XmlRoundTrip.TextBack | CDBServer/tinyxml2.cpp:193-215 | text up to an end tag that does not start earlier is read exactly |
| XmlRoundTrip.NameBack | CDBServer/tinyxml2.cpp:218-235 | a valid name is read up to the first other character |
| XmlRoundTrip.AttributeBack | CDBServer/tinyxml2.cpp:1346-1371 | a printed attribute is read back with the line ends of its value normalized |
| XmlRoundTrip.AttributesBack | CDBServer/tinyxml2.cpp:1805-1862 | printed attributes are read back in order, with the kind of tag end, if their names are distinct, and give the attribute error if not |
| XmlRoundTrip.CloseBack | CDBServer/tinyxml2.cpp:1053-1063 | a closing tag ends its level with its name |
| XmlRoundTrip.ElementBack | CDBServer/tinyxml2.cpp:1888-1914 | a printed element is read back, or its first error in reading order is reported: repeated attribute names, depth, or a declaration inside |
| XmlRoundTrip.NodesBack | CDBServer/tinyxml2.cpp:988-1090 | printed siblings are read back in order at every depth, or the first error among them is reported |
| XmlRoundTrip.NodesSpoiled | CDBServer/tinyxml2.cpp:988-1090 | a tree with an end mark inside its own section is never read back, whatever the rest of the text becomes |
| XmlRoundTrip.Outcome | CDBServer/tinyxml2.cpp:988-1090 | the exact result for every document without such marks, declarations and unknown pieces included: the tree with normalized line ends, or the first error |
| XmlRoundTrip.RoundTrip | CDBServer/tinyxml2.cpp:988-1090 | parsing the compact print of a document gives the document back if and only if no marked piece holds its own end mark or looks like another kind, no value holds a CR, attribute names are distinct in each element, the declarations come first, and the height plus one is below the depth limit |
| XmlRoundTrip.StrayEndTag | CDBServer/tinyxml2.cpp:1053-1063 | an end tag after the document ends parsing without an error and drops what follows |
| XmlLayout.AttributeIs | CDBServer/tinyxml2.cpp:1346-1371 | an attribute with white space anywhere around its parts and either quote is read as its name and decoded value |
| XmlLayout.TagIs | CDBServer/tinyxml2.cpp:1805-1862 | the attributes of a tag in any layout are read in order, with the kind of tag end; a repeated name is the attribute error |
| XmlLayout.FormsAre | CDBServer/tinyxml2.cpp:988-1090 | the nodes of a level in any layout are read one after the other, up to the first error in reading order, mismatched end tags included |
| XmlLayout.LevelFormsOf | CDBServer/tinyxml2.cpp:988-1090 | whatever level is read without an error, its text is one of the grammar that means these nodes |
| XmlLayout.FormsRead | CDBServer/tinyxml2.cpp:2371-2385 | for every text of the grammar: the document it means, or its first error |
| XmlLayout.ReadExactly | CDBServer/tinyxml2.cpp:2371-2385 | for every text: parsing gives these nodes if and only if the text, after white space and a byte order mark, is not empty and spells them by the grammar without an error |
| XmlLayout.SlashAtBothEnds | CDBServer/tinyxml2.cpp:1888-1914 | a tag with a slash at both ends is read as an empty element |
| XmlCode.XmlPrinter.OpenElement | CDBServer/tinyxml2.cpp:2550-2568 | writes the start of the tag, after sealing an open one, and stacks the name |
| XmlCode.XmlPrinter.PushAttribute | CDBServer/tinyxml2.cpp:2571-2579 | writes the attribute with its value escaped |
| XmlCode.XmlPrinter.CloseElement | CDBServer/tinyxml2.cpp:2622-2647 | closes the innermost open element in the short or the long form and unstacks it |
| XmlCode.XmlPrinter.PushText | CDBServer/tinyxml2.cpp:2660-2673 | writes a text or a CDATA section |
| XmlCode.XmlPrinter.Accept | CDBServer/tinyxml2.cpp:1956-1967 | the visitor writes exactly the print of the node and leaves stack and depth as they were |
| XmlCode.PrintDocument | CDBServer/tinyxml2.cpp:726-737 | the printer object writes the specified compact print of the whole document |
| XmlCode.ReadText | CDBServer/tinyxml2.cpp:193-215 | the pointer loop finds the end tag as specified |
| XmlCode.ReadAttributes | CDBServer/tinyxml2.cpp:1805-1862 | the loop agrees with the recursive parser, duplicate and malformed attributes included |
| XmlCode.ReadKind | CDBServer/tinyxml2.cpp:656-723 | recognises the node kind and the position behind its mark |
| XmlCode.ReadLevel | CDBServer/tinyxml2.cpp:988-1090 | the sibling loop agrees with the recursive parser on every text, all errors included |
| XmlCode.ReadElement | CDBServer/tinyxml2.cpp:1888-1914 | parses name, attributes and content as specified, the depth limit included |
| XmlCode.ReadDocument | CDBServer/tinyxml2.cpp:2371-2385 | the whole parser on every text, byte order mark included |
| MemPool.DynArray.EnsureCapacity | CDBServer/tinyxml2.h:300-314 | the contents survive reallocation; a new buffer is twice the asked capacity |
| MemPool.DynArray.Push | CDBServer/tinyxml2.h:223-228 | appends, in place or in a new buffer |
| MemPool.DynArray.SwapRemove | CDBServer/tinyxml2.h:279-284 | replaces the element by the last one and shortens by one |
| MemPool.TakeFirst | CDBServer/tinyxml2.h:388-390 | taking the head of the free chain keeps chain and live set a partition of all slots |
| MemPool.GiveBack | CDBServer/tinyxml2.h:404-409 | putting a live slot at the head keeps the partition |
| MemPool.MemPoolT.NewBlock | CDBServer/tinyxml2.h:374-387 | a new block's slots are linked into one chain; live slots are untouched |
| MemPool.MemPoolT.Alloc | CDBServer/tinyxml2.h:373-398 | hands out a slot that is not live; both counters move by one |
| MemPool.MemPoolT.Free | CDBServer/tinyxml2.h:399-410 | exactly the given slot stops being live; null changes nothing |
| MemPool.MemPoolT.Clear | CDBServer/tinyxml2.h:353-364 | no block and no live slot remains |
| MemPool.RunPool | CDBServer/tinyxml2.h:353-410 | over every sequence of allocations and frees the slots held are distinct, are exactly the live ones, and are counted |
| Des.PermutationsInverse | WOTEDUtils/Class1.cs:804-817 | the initial and the final permutation undo each other in both orders |
| Des.RoundUndone | WOTEDUtils/Class1.cs:726-745 | a round with swapped halves and the same subkey undoes itself |
| Des.RoundsUndone | WOTEDUtils/Class1.cs:775-793 | any number of rounds is undone by the reversed subkeys |
| Des.CryptUndone | WOTEDUtils/Class1.cs:713-802 | the network with reversed subkeys undoes the network, for every key list |
| Des.DecUndoesEnc | WOTEDUtils/Class1.cs:713-802 | dec undoes enc for every 64-bit block and key |
| Des.RotationsComeRound | WOTEDUtils/Class1.cs:1145-1160 | the shifts of the sixteen rounds add up to a full turn of both key halves |
| DesText.UnitBack | WOTEDUtils/Class1.cs:428-479 | the sixteen bits of a character give the character back |
| DesText.WordBack | WOTEDUtils/Class1.cs:428-479 | each sixteen bits of a block are, as a binary number, the character at that place, or zero beyond the end |
| DesText.BlockBack | WOTEDUtils/Class1.cs:643-663 | a block of up to four characters comes back without its zero characters |
| DesText.HexBack | WOTEDUtils/Class1.cs:673-703 | sixteen hex digits give the 64 bits back |
| DesText.HexIs | WOTEDUtils/Class1.cs:673-685 | each four bits are written as the hex digit, in upper case, of their binary value |
| DesText.HexRead | WOTEDUtils/Class1.cs:695-703 | sixteen characters are read if and only if all are hex digits of either case, and each gives the four bits of its value |
| DesText.ChainUndone | WOTEDUtils/Class1.cs:301-391 | decrypting with the key chain backwards undoes encrypting with it |
| DesText.RoundTrip | WOTEDUtils/Class1.cs:75-391 | for every string and keys: encryption succeeds exactly if the string is empty or the first key is not, and then decryption returns the string without its zero characters |
| DesText.BlockOf | WOTEDUtils/Class1.cs:75-288 | the cipher text has sixteen digits for each block of four characters, and each block is encrypted by itself |
| DesText.NothingLost | WOTEDUtils/Class1.cs:643-663 | that is the string itself exactly if it has no zero character |
| DesText.KeyUnits | WOTEDUtils/Class1.cs:403-419 | the key blocks hold the characters of the key string in order, zero-padded to blocks of four |
| DesText.ChainUnits | WOTEDUtils/Class1.cs:75-288 | which characters of the three key strings the key chain holds: all of the first, then of the second, then of the third if there is a second |
| DesText.ChainInOrder | WOTEDUtils/Class1.cs:75-288 | a block goes through each key of the chain once, the first one first |
| DesBoxes.RowPermutes | WOTEDUtils/Class1.cs:859-957 | each row of each substitution box is a permutation of the sixteen values |
| DesBoxes.OneBitChangesTwo | WOTEDUtils/Class1.cs:859-957 | for every 48-bit input, flipping one bit changes at least two bits of the output of its box, and no other box |
| DesBoxes.StandardS1 | WOTEDUtils/Class1.cs:859-957 | the rows of box 1 are those of FIPS PUB 46-3 |
| DesBoxes.StandardS2 | WOTEDUtils/Class1.cs:859-957 | the rows of box 2 are those of FIPS PUB 46-3 |
| DesBoxes.StandardS3 | WOTEDUtils/Class1.cs:859-957 | the rows of box 3 are those of FIPS PUB 46-3 |
| DesBoxes.StandardS4 | WOTEDUtils/Class1.cs:859-957 | the rows of box 4 are those of FIPS PUB 46-3 |
| DesBoxes.StandardS5 | WOTEDUtils/Class1.cs:859-957 | the rows of box 5 are those of FIPS PUB 46-3 |
| DesBoxes.StandardS6 | WOTEDUtils/Class1.cs:859-957 | the rows of box 6 are those of FIPS PUB 46-3 |
| DesBoxes.StandardS7 | WOTEDUtils/Class1.cs:859-957 | the rows of box 7 are those of FIPS PUB 46-3 |
| DesBoxes.StandardS8 | WOTEDUtils/Class1.cs:859-957 | the rows of box 8 are those of FIPS PUB 46-3 |
| DesKeys.SubkeysTellKeys | WOTEDUtils/Class1.cs:1131-1310 | for all 64-bit keys: two keys have the same subkeys if and only if they agree at every position but the last of each eight |
| DesKeys.ChoiceAgainstStandard | WOTEDUtils/Class1.cs:1138-1144 | a key bit is taken from the position of permuted choice 1 of FIPS PUB 46-3 if and only if it is in the first half |
| DesKeys.OtherSchedule | WOTEDUtils/Class1.cs:1131-1310 | so the subkeys are not those of the standard: a key whose first subkey differs |
| DesKeys.SameSubkeys | WOTEDUtils/Class1.cs:1131-1310 | all sixteen subkeys are the same if and only if each half of the selected key bits is all zeros or all ones |
| DesKeys.WeakKey | WOTEDUtils/Class1.cs:713-802 | with such a key encrypting twice gives every block back |
| DesKeys.ExpandIs | WOTEDUtils/Class1.cs:819-847 | each box sees its own four bits of the half and the two beside them, around the end |
| DesKeys.PPermuteIsBijective | WOTEDUtils/Class1.cs:959-995 | each bit of the half goes to one place, and no two to the same |
| DesKeys.Complementation | WOTEDUtils/Class1.cs:713-802 | complementing the key and the block complements the encrypted block |
| DesKeys.CryptIsComputation | WOTEDUtils/Class1.cs:713-802 | the result is that of the enciphering computation of FIPS PUB 46-3: halves that follow its recurrence, one subkey a round, and the last permutation of the exchanged halves |
| DesCode.InitPermuteLoop | WOTEDUtils/Class1.cs:804-817 | the nested loops compute the specified permutation |
| DesCode.FinallyPermuteLoop | WOTEDUtils/Class1.cs:996-1063 | the same for the final permutation |
| DesCode.ExpandPermuteLoop | WOTEDUtils/Class1.cs:819-847 | the same for the expansion |
| DesCode.SBoxPermuteLoop | WOTEDUtils/Class1.cs:859-957 | the same for the eight substitution boxes |
| DesCode.CryptLoop | WOTEDUtils/Class1.cs:713-802 | the round loop computes the specified network |
| DesCode.RotateInPlace | WOTEDUtils/Class1.cs:1145-1157 | one in-place turn of both halves of the key array |
| DesCode.SelectKeyBits | WOTEDUtils/Class1.cs:1138-1144 | the nested loops put the selected bits of the key into the array by rows |
| DesCode.SelectSubKey | WOTEDUtils/Class1.cs:1161-1208 | the assignments to tempKey select the specified positions |
| DesCode.PPermuteAssignments | WOTEDUtils/Class1.cs:959-995 | the assignments of pPermute compute the specified permutation |
| DesCode.GenerateKeysLoop | WOTEDUtils/Class1.cs:1131-1310 | selecting the key bits and rotating them in place round by round yields the subkeys that SubkeysTellKeys characterises |
| DesCode.StrToBtLoop | WOTEDUtils/Class1.cs:428-479 | the loops write the bits of up to four characters, zero-padded |
| DesCode.ByteToStringLoop | WOTEDUtils/Class1.cs:643-663 | the loops put the characters together and drop zeros |
| DesCode.Bt64ToHexLoop | WOTEDUtils/Class1.cs:673-685 | the loop writes sixteen hex digits |
| DesCode.HexToBt64Loop | WOTEDUtils/Class1.cs:695-703 | the loop reads them back, failing on other characters |
| DesCode.StrEncLoop | WOTEDUtils/Class1.cs:75-288 | the block loop with its remainder computes the specified cipher text, the failing case included |
| DesCode.StrDecLoop | WOTEDUtils/Class1.cs:301-391 | the block loop computes the specified plain text |

## Left out

- Memory: weak orderings, exceptions, allocation failure (except failed pushes of the priority queue) and reclamation.
  All atomic accesses are sequentially consistent steps.
- Hash map: word widths (the 32-bit shift in the marking, 64 segments); item locks and the restart after waiting long for
  one; `clear`, copying, swapping, `equal_range` and the unlocked lookup. Chains are sequences, with a node's identity as
  a field, so relinking through `next` pointers is not captured.
- Hash map under concurrency: the nodes of one `rehash_bucket` move in one step, as parent and child are then locked for
  writing; the bucket lock is an abstract reader/writer lock whose upgrade may release and retake. `rehash()`, which must
  not run beside other calls, is in the class only. The segment table and the table of buckets are separate models,
  connected by the bucket index.
- Per-thread table: `table_clear` and the specialisation on native thread-local storage; at most 2^62 threads.
- LRU cache: the two serial operations are steps of their own, which is what the aggregator provides.
- Priority queue: the vector is a sequence; the constructors and `push`/`try_pop` wrappers around the batch are left out.
- JsonCode.ReadNumber: in trees, larger integers, fractions and exponents give the result `Unmodelled`, as printing
  them needs floating point; `JsonDecimals.ReadDecimal` reads them, without the rounding of `double` and the overflow
  of `int`.
- JsonCode.ReadString: so do escapes whose hex digits are malformed, which depend on what `sscanf` leaves unchanged.
- JSON: buffer sizes of the printers and the `next`/`prev`/`child` links.
- XML: the indented layout, whitespace collapsing, writing a byte order mark, files, error messages and line numbers.
  Blank texts and texts next to each other lie outside the round trip, as the printed form cannot keep them apart. The
  parse buffer is a value; decoding in place is modelled by `XmlText.GetStr`. Node links are sequences.
- Memory pool: a block is a sequence of slots; block sizes are given by the item size as in the code.
- Cipher: `strEncSign*`, `naturalOrdering`, and the copies of the cipher in other languages.
- The server: sockets, completion ports, database access, message packing and COM calls; `MemPool.cpp` and
  `Database_map.cpp`.
