# Verified models of the vexspoke cores

vexspoke is a CPU library in C23. This project models its concurrent protocols, its search structures, its
sorts and its codecs in Dafny 4.11 and proves what they are for. Each C routine that changes state step by
step is a method over arrays or object fields, proved against a specification on values; the properties are
lemmas about those specifications. `dafny verify dfyconfig.toml` checks everything.

## What is modelled

**Protocols.** Each protocol is a state machine whose steps are single atomic loads, stores, exchanges and slot
copies, in any interleaving of any number of calls, under sequential consistency.

- *Tagged free list* (`BitPool*.dfy`): the ABA-tagged lock-free pool. A run is safe at every instant iff every
  allocation that wins its exchange installs the link that is there behind the slot it takes; the 16-bit tag
  guarantees that for wins fewer than 2^16 exchanges late, and a run is exhibited in which it fails at 2^16. What a
  call that meets nobody does, and what the type id of a slot tells, is stated beside it.
- *Thread registry* (`Registry.dfy`): probe and compare-and-swap on a table of 256 slots; every call is wait-free.
- *Ring buffer* (`RingBuffer.dfy`, `NextPow2.dfy`): under its spin lock it is an atomic FIFO queue, also after its
  64-bit counters wrap; its capacity is the least power of two at or above the request.
- *Mailbox* (`Dispatch.dfy`, `DispatchRuns.dfy`): two buffers that change places; callbacks that post or drain are calls
  like others. What is accepted runs in order, and posts and drains are refused only for the reasons stated.
- *Reactive cell* (`Reactive.dfy`, `Observers.dfy`): coalesced delivery of the last word, and tombstoned observers.

**Search.** Geometry and weights are exact reals.

- *Dijkstra* (`Walks.dfy`, `MinQueue.dfy`, `Dijkstra.dfy`): the private heap with its push budget of
  `4n + 16` modulo 2^32, lazy deletion, and the path scratch of 1024 nodes, clipped as the code clips it. The
  answer comes with the states of the search, which say whether a push was refused.
- *Bounding volumes* (`Slabs.dfy`, `RayPoints.dfy`, `BvhShape.dfy`, `BvhQuery.dfy`, `Bvh.dfy`, `BvhComb.dfy`): what a ray
  meets, told by its points; in-place build, every box the least around its primitives; and the traversal with a stack
  of 64 rows that shortens the ray as it finds hits: what it loses when the stack is full, which trees need more, and
  66 primitives for which a ray loses its only hit.
- *k-d tree* (`KdShape.dfy`, `KdSearch.dfy`): quickselect build, pruned nearest and radius queries.
- *Segment index* (`Segments.dfy`, `SegmentRank.dfy`, `SegmentIndex.dfy`): postings of dotted names, also when one is
  refused half-way, and queries that equal a naive scan with a stable ranking.

**Sorts.** `Ordering.dfy` says what sorted and stable mean; `RadixSort*.dfy`, `MergeSort.dfy` and `QuickSort.dfy` hold the
LSD radix sort with values, the bottom-up merge sort and the introspective quicksort with its heap sort.

**Codecs and input.**

- *JSON* (`Json*.dfy`): builder and parser are inverses. The builder leaves exactly the compact rendering iff it
  fits; the parser accepts exactly a grammar iff pool and arena have room, and leaves nodes that denote the value. The
  grammar is spelled out place by place in the text (`JsonGrammar.dfy`), and escapes as UTF-8 (`JsonEscapes.dfy`).
  For every text, malformed ones too, it is said when the parser leaves its arena. Numbers are their text: the scanner
  stands for `strtod` and is a parameter.
- *WebSocket* (`Utf8.dfy`, `WebSocket*.dfy`): the receiving side of RFC 6455, for every byte stream. The transport
  takes a given number of sends; clock and readiness are parameters of a poll. UTF-8 is checked against
  section 3 of RFC 3629.
- *PNG* (`PngFilter.dfy`, `PngChunks.dfy`, `PngFiles.dfy`): scanline reconstruction (section 6 of RFC 2083), the two chunk
  passes, and which files, as they are written, they accept. The checksum is a parameter.
- *Keys* (`KeySlots.dfy`, `KeyMap.dfy`, `KeyGestures.dfy`): tap and hold gestures of keys and mouse buttons, the resolver's
  account of presses, and what it fires, told from the events alone.

`Slices.dfy`, `Shuffling.dfy`, `Powers.dfy`, `Options.dfy`, `Bytes.dfy` and `Vectors.dfy` are shared by these.

Seven places where the code does less than its description or a caller would expect are kept as the code has them
and stated by the members named:

- A foreign unlock is refused only if the low 30 bits of the thread ids differ (`RingBuffer.ForeignUnlock`).
- The JSON parser reads an empty container one level deeper than the builder opens one; the two agree on all other
  values (`JsonLimits.NestingLimits`).
- A copied string may fill the JSON scratch arena exactly, and the next copy is then made behind it instead of
  failing: exactly if some, not all, of the copies that any text begins fill it (`JsonParser.Parser.Parse`,
  `JsonScratch.BeyondIff`, `JsonScratch.ArenaLeft`); an arena as long as the text is never left
  (`JsonScratch.LongArenaSuffices`). Behind the arena the model does not follow the parser.
- The 16-bit tag does not stop an allocation from winning an exchange exactly 2^16 exchanges late
  (`BitPoolTagLimit.TagWrapBreaksPool`). The pool stays safe iff every win installs the link that is there
  (`BitPoolRuns.SafeIffLinksHold`).
- A zero component of a ray's direction counts as 10^-30. A ray that keeps clear of the faces across that component is
  not affected (`RayPoints.ClearMeetsIffInside`); one that runs in an upper face of a box is reported to miss it
  (`RayPoints.DriftsOutOfFace`).
- A JSON escape of a surrogate becomes three bytes that are not UTF-8, and pairs are not joined: a string of ASCII
  characters and escapes is read as UTF-8 iff no escape is a surrogate (`JsonEscapes.EscapesAreUtf8IffScalars`).
- The ray traversal loses rows when its stack is full, silently. It reports a wrong hit iff a lost row holds a
  nearer primitive (`BvhQuery.WrongIffLost`), which needs 66 primitives and happens with 66
  (`BvhQuery.StackSuffices`, `BvhComb.CombLosesItsHit`).

## Model

| member | source | states |
|---|---|---|
| BitPool.Pack | src/bit/bit.c:78-91 | tag and address survive packing into one word |
| BitPool.PackSurjective | src/bit/bit.c:78-91 | every 64-bit word is the packing of its two parts, so words are equal exactly when the parts are |
| BitPool.TagsTellApart | src/bit/bit.c:137-163 | fewer than 2^16 exchanges apart, equal tags mean the same head |
| BitPool.BuildFreeList | src/bit/bit.c:103-126 | the carved arena threads every slot onto one list, in order |
| BitPool.PopKeeps | src/bit/bit.c:137-163 | the winning exchange of an allocation takes the first slot and nothing else, however late, if it installs the link behind that slot |
| BitPool.PushKeeps | src/bit/bit.c:168-211 | the winning exchange of a free, however late, puts the slot in front of an unchanged list |
| BitPool.StepKeeps | src/bit/bit.c:137-211 | every atomic step keeps list, ownership and thread knowledge consistent, unless it is an allocation that wins its exchange with a link that is not there; the list loses its first slot to an allocation that wins, gains one in front by a free that wins, and stays otherwise |
| BitPoolRuns.SafeIffLinksHold | src/bit/bit.c:103-211 | in every interleaving: at every instant the free list is acyclic, no slot has two owners, and free, held and in-flight slots add up to the capacity, iff every allocation that wins an exchange installs the link that is there behind the slot it takes |
| BitPoolRuns.StaleWinIsUnsafe | src/bit/bit.c:150-158 | an allocation that wins with another link breaks the pool at once |
| BitPoolRuns.EveryPromptRunIsSafe | src/bit/bit.c:103-211 | every interleaving in which no allocation wins 2^16 or more exchanges late is safe at every instant |
| BitPoolRuns.AllocDelivers | src/bit/bit.c:137-163 | a finished allocation hands over a slot nobody owned, stamped with its type |
| BitPoolRuns.NullMeansExhausted | src/bit/bit.c:137-163 | in a safe run, an allocation returns null iff every slot was owned when the call last loaded the head |
| BitPoolCalls.StampedIffInUse | src/bit/bit.c:137-211 | in every safe run a slot carries a type id exactly while a client holds it or a call hands it over, which is what the guard against double frees goes by |
| BitPoolCalls.FailsOnlyIfBeaten | src/bit/bit.c:142-211 | an exchange that does not fail by itself fails only if another has succeeded since the head was loaded, and wins otherwise |
| BitPoolCalls.LoneAllocTakesFirst | src/bit/bit.c:137-163 | an allocation that meets nobody takes the first free slot, stamped with type and size |
| BitPoolCalls.LoneAllocFindsNone | src/bit/bit.c:142-148 | an allocation that meets nobody and finds no slot free changes nothing |
| BitPoolCalls.LoneFreePutsBack | src/bit/bit.c:168-211 | a free that meets nobody puts its slot in front of the free ones, without a stamp |
| BitPoolTagLimit.TagWrapBreaksPool | src/bit/bit.c:137-163 | with three slots and two threads there is a run, one allocation winning exactly 2^16 late with a link that is not there, after which a held slot heads the free list |
| Registry.NotAllPassed | src/atomic/registry.c:61-82 | with at most 256 threads no thread is passed by a whole table of others |
| Registry.StepKeeps | src/atomic/registry.c:61-82 | every load and compare-and-swap keeps the probe invariant: what lies before a holder's slot is held by others |
| Registry.EveryRunIsSafe | src/atomic/registry.c:61-82 | in every interleaving no thread holds two slots, calls stay within 256 probes, and a thread gets the same index again |
| Registry.SlotsStay | src/atomic/registry.c:61-82 | a held slot never changes |
| Registry.CallsAreWaitFree | src/atomic/registry.c:61-82 | whatever other threads do, a call is over after at most 512 steps of its own, and was given a slot that holds its thread |
| NextPow2.Round | src/atomic/ring.c:71-81 | the least power of two at or above a request up to 2^63, and 0 beyond |
| NextPow2.SpreadFills | src/atomic/ring.c:71-81 | six shifts and ors set every bit below the highest |
| RingBuffer.ForeignUnlock | src/atomic/spin.c:77-138 | an unlock by another thread is refused iff the low 30 bits of the ids differ |
| RingBuffer.SlotOfCounter | src/atomic/ring.c:118-157 | a wrapped counter selects the slot of the true count |
| RingBuffer.StepKeeps | src/atomic/ring.c:118-157 | every step of a push or pop keeps lock, counters and the replayed queue consistent |
| RingBuffer.LeaveKeeps | src/atomic/spin.c:127-138 | the holder's unlock always finds its own ticket and frees the lock |
| RingBuffer.EveryRunIsAQueue | src/atomic/ring.c:118-157 | in every interleaving what calls return replays as an atomic FIFO queue of the capacity, what is logged stays logged, and no two threads are inside |
| RingBuffer.LoneCallReturns | src/atomic/ring.c:118-157 | a call that finds the lock free and meets nobody returns within seven steps: a push is refused iff the ring is full, a pop iff it is empty, and else the item goes in behind or the first comes out |
| Dispatch.StepKeeps | src/deferred/dispatch.c:48-106 | every step keeps accepted = run + rest of the batch + pending, and the buffers apart; a drain during a drain changes nothing |
| Dispatch.EveryRunDeliversInOrder | src/deferred/dispatch.c:48-106 | in every interleaving accepted items run once, in post order, by one drain at a time; what was accepted or has run stays |
| Dispatch.NobodyIsStuck | src/deferred/dispatch.c:48-106 | every call can take its next step whatever the allocator answers, so no read or write leaves its buffer |
| DispatchRuns.RefusedIffFull | src/deferred/dispatch.c:53-67 | a post that has the lock is refused iff the buffer is full and the allocator gives none larger |
| DispatchRuns.FullBufferGrows | src/deferred/dispatch.c:53-67 | a full buffer grows to 8 places or to twice as many, keeping what it held |
| DispatchRuns.GivenPostIsAccepted | src/deferred/dispatch.c:48-74 | in every interleaving a post that took the lock and was not denied memory has its item accepted by the time it gives the lock back, at its place behind all accepted before |
| DispatchRuns.DrainRunsAll | src/deferred/dispatch.c:76-106 | in every interleaving a drain that took flag and lock has, at its end, run exactly what was accepted before its swap |
| DispatchRuns.FreeIsTaken | src/deferred/dispatch.c:51-90 | a call that tries the lock or the flag takes it iff it is free, and else is over at once |
| DispatchRuns.LonePostIsAccepted | src/deferred/dispatch.c:48-74 | a post that finds the lock free, is given memory and meets nobody is accepted |
| DispatchRuns.LoneDrainRunsAll | src/deferred/dispatch.c:76-106 | a drain that finds flag and lock free and meets nobody runs everything accepted |
| Reactive.StepKeeps | src/reactive/reactive.c:238-338 | whenever value and shadow differ, the flag, a store or a drain still accounts for it |
| Reactive.EveryRunSettles | src/reactive/reactive.c:238-338 | changes chain from the first word to the shadow, batches never exceed stores, and the last word is not lost |
| Reactive.ChainLinks | src/reactive/reactive.c:318-329 | each reported change starts where the one before ended and is a change |
| Reactive.DrainDelivers | src/reactive/reactive.c:298-338 | in every interleaving a drain that finds the flag lowers it, tells every observer the word it loads, and tells a change exactly if the word differs from the last one seen |
| Reactive.NothingToDrain | src/reactive/reactive.c:298-304 | a drain that finds the flag down does nothing |
| Observers.ObserverList.Add | src/reactive/reactive.c:106-131 | one observer more, in the first tombstone; nobody moves |
| Observers.ObserverList.Remove | src/reactive/reactive.c:134-146 | the first binding of the observer becomes a tombstone if there is one, and that is said truthfully |
| MinQueue.MinQ.Push | src/algo/dijkstra.c:147-165 | adds an item unless the budget is used up, and keeps the heap |
| MinQueue.MinQ.Pop | src/algo/dijkstra.c:167-199 | removes a least item, or says the queue is empty |
| MinQueue.RootIsMinimum | src/algo/dijkstra.c:167-199 | the root of a heap is not farther than any item |
| Walks.LabelsAreLowerBounds | src/algo/dijkstra.c:201-293 | labels no edge improves are below the weight of every walk |
| Dijkstra.SettleKeepsComplete | src/algo/dijkstra.c:237-243 | a node taken from the queue at its label is settled for good |
| Dijkstra.RelaxKeepsComplete | src/algo/dijkstra.c:247-257 | relaxing an edge keeps every label reachable from the queue unless its push is refused |
| Dijkstra.GoalLabelIsLeast | src/algo/dijkstra.c:237-266 | when the goal is settled or the queue is empty, its label is the least walk weight |
| Dijkstra.BudgetIs | src/algo/dijkstra.c:201-235 | below 2^30 - 4 nodes the budget is four pushes a node and sixteen, and covers exactly the graphs with no more edges; there it wraps to 0 |
| Dijkstra.ClipShows | src/algo/dijkstra.c:272-286 | node by node, which part of the path is shown: the last 1024 nodes at most, and of those the first that fit |
| Dijkstra.WholePathShown | src/algo/dijkstra.c:272-286 | a goal within 1024 nodes is shown as a whole path of exactly the reported weight |
| Dijkstra.ShortestPath | src/algo/dijkstra.c:201-293 | the answer is the goal's label at the end of a best-first search, 0 if it has none; the output is the clipped prefix of a real walk of that weight; if no push was refused no walk is lighter, whatever the number of edges, and an edge total within the budget refuses none |
| Slabs.IntersectRay | src/algo/bvh.c:111-139 | hit and entry of the slab test, with its early exits, are those of all three slabs at once; what that means for the points of the ray is said by the next three |
| RayPoints.MeetsIffInside | src/algo/bvh.c:111-139 | a ray whose direction has no zero component meets a box iff at some parameter, from its start to the limit, its point lies in the box; the reported entry is the least such parameter |
| RayPoints.ZeroDrifts | src/algo/bvh.c:111-139 | a zero component acts as 10^-30 does |
| RayPoints.ClearMeetsIffInside | src/algo/bvh.c:111-139 | so the same holds of a ray with zero components that keeps clear of the faces it runs along |
| RayPoints.DriftsOutOfFace | src/algo/bvh.c:111-139 | and not of every ray: one that runs in an upper face is reported to miss the box |
| Slabs.BiggerBoxIsMetEarlier | src/algo/bvh.c:111-139 | a ray that meets a box meets every box around it, no later |
| BvhShape.HeightBelowCount | src/algo/bvh.c:192-275 | a tree over n primitives has at most 2n-1 rows, and if it forks height at most n-2 |
| BvhShape.BoundsAreLeast | src/algo/bvh.c:205-217 | merging boxes one by one gives the least box around them |
| BvhShape.RepresentsFrame | src/algo/bvh.c:192-275 | rows and order elsewhere do not disturb a built subtree |
| Bvh.BvhTree.Partition | src/algo/bvh.c:244-258 | reorders a range in place so that exactly the centroids before the split come first |
| Bvh.BvhTree.BuildRecursive | src/algo/bvh.c:192-275 | builds a subtree whose boxes are the least around their primitives, whose leaves partition a permutation of its range, and whose forks cut it in the middle of its widest axis |
| Bvh.BvhTree.Build | src/algo/bvh.c:277-296 | a built tree covers all primitives once; a wrong count is refused without effect |
| BvhQuery.PruneLosesNothing | src/algo/bvh.c:298-354 | a box the shortened ray does not meet holds no nearer primitive |
| BvhQuery.NearestIsFirstPoint | src/algo/bvh.c:298-354 | the hit of a brute-force scan is the first point of the ray, zero components counting as 10^-30, that lies in the box of some primitive |
| BvhQuery.WrongIffLost | src/algo/bvh.c:298-354 | any hit is a genuine slab hit, and it is the nearest of a brute-force scan iff no row that found no place on the stack holds a nearer primitive |
| BvhQuery.StackSuffices | src/algo/bvh.c:344-350 | no ray loses a row of a tree that needs at most 64 stack places, as it does below height 64 or with at most 65 primitives; if it needs more, every ray that meets all boxes and hits nothing loses one |
| BvhComb.CombLosesItsHit | src/algo/bvh.c:242-266 | in every tree the build can make of 66 primitives, each twice as far out as the next, a ray across them loses the last leaf and with it its only hit |
| BvhComb.Cast | src/algo/bvh.c:277-354 | building over these 66 and casting that ray reports no hit |
| Bvh.BvhTree.IntersectRay | src/algo/bvh.c:298-354 | the hit of the traversal on values, which tells what was lost: the nearest one, that is the first point of the ray in a box, iff no lost row holds a nearer primitive, and always if the tree needs at most 64 stack places |
| KdSearch.PartitionAxis | src/algo/kd_tree.c:76-87 | a pivot with nothing greater before it and nothing smaller behind it |
| KdSearch.QuickSelectAxis | src/algo/kd_tree.c:89-101 | the k-th place separates the range on the axis |
| KdSearch.BuildRecursive | src/algo/kd_tree.c:103-120 | a tree that reads off the permuted range, ordered on every plane, of logarithmic height |
| KdSearch.Build | src/algo/kd_tree.c:122-131 | the tree holds the caller's points once each, cut at medians in planes that take turns, height at most 1 + floor(log2 n) levels |
| KdShape.FarChildIsFar | src/algo/kd_tree.c:156-182 | beyond the split plane every point is at least the plane's distance away |
| KdShape.LawOfCosines | src/algo/kd_tree.c:149-154 | the squared distance is the Euclidean one, by the law of cosines and its value for unit steps |
| KdSearch.Nearest | src/algo/kd_tree.c:184-198 | the nearest point of a linear scan if one is nearer than 1e30, else the root and the sentinel |
| KdSearch.QueryRadius | src/algo/kd_tree.c:200-235 | the payloads within the radius, or as many of them as fit |
| KdSearch.RadiusIsLinearScan | src/algo/kd_tree.c:200-235 | with room for all, exactly the multiset of a linear scan over the original points |
| RadixSort.CollectSorted | src/algo/sort.c:396-421 | one pass over a sequence sorted by the lower bytes sorts it by one byte more |
| RadixSort.CollectKeeps | src/algo/sort.c:396-421 | one pass keeps the order of equal keys |
| RadixSort.PassesSort | src/algo/sort.c:396-421 | after p passes the entries are a stable ordering by the low p bytes |
| RadixSortPairs.Histogram | src/algo/sort.c:397-408 | counts turned into offsets where each bucket of the pass starts |
| RadixSortPairs.Scatter | src/algo/sort.c:409-414 | every entry lands in the next free place of its bucket: the target is the whole pass |
| RadixSortPairs.SortPairs | src/algo/sort.c:373-429 | the caller's arrays hold the stable sort, every value with its key |
| RadixSort.StableIsPermutation | src/algo/sort.c:373-429 | a stable ordering is a permutation |
| MergeSort.MergeRuns | src/algo/sort.c:269-287 | merges two neighbouring runs, the left one first on ties |
| MergeSort.MergeInOrder | src/algo/sort.c:269-287 | merging ordered runs gives an ordered run |
| MergeSort.MergeKeepsTies | src/algo/sort.c:269-287 | merging keeps elements that compare equal in their order |
| MergeSort.PassDoublesRuns | src/algo/sort.c:264-294 | a pass over ordered runs leaves ordered runs of twice the length |
| MergeSort.RunsGrow | src/algo/sort.c:290-294 | saturating growth of the run length still ends with one run |
| MergeSort.Sort | src/algo/sort.c:245-298 | the stable sort for every consistent comparator, a permutation, copied back from scratch when needed; refused on aliasing |
| QuickSort.InsertionSortRange | src/algo/sort.c:78-90 | sorts a range in place |
| QuickSort.SiftDown | src/algo/sort.c:137-152 | restores the heap below a place |
| QuickSort.HeapSortRange | src/algo/sort.c:154-167 | sorts a range in place |
| QuickSort.MedianLast | src/algo/sort.c:177-195 | the last element becomes the median of first, middle and last |
| QuickSort.PartitionRange | src/algo/sort.c:177-208 | cuts a range at a pivot |
| QuickSort.QuickSortRange | src/algo/sort.c:210-232 | sorts a range for every depth limit; each call inside it has less room, and room for log2 of its length is enough, so no more calls are ever nested |
| QuickSort.Sort | src/algo/sort.c:234-243 | in order and a permutation, with room for log2 of the count nested calls |
| QuickSort.RoomFor | src/algo/sort.c:234-243 | every length has exactly one such room, the binary logarithm rounded down |
| Segments.FewSegments | src/algo/segment_index.c:164-183 | a name that fits its buffer has at most 12 non-empty segments, so no query is cut |
| Segments.SegmentsSpell | src/algo/segment_index.c:164-183 | segments have no dots, and with dots between them spell the name, of which one at the very end counts for nothing |
| Segments.TierMeans | src/algo/segment_index.c:443-477 | a match is contained if something stands behind it, a suffix if something stands only before it, and else exact |
| Segments.PostingsAre | src/algo/segment_index.c:113-134 | postings are rising and are exactly the places of their segment |
| Segments.HitsAreAllMatches | src/algo/segment_index.c:443-477 | along any segment of the query every match of the naive scan is found, once |
| SegmentRank.CompareConsistent | src/algo/segment_index.c:186-200 | the ranking is a total preorder |
| SegmentRank.RankMeans | src/algo/segment_index.c:186-200 | what ranks before what: exact before suffix before contained, then the earlier start, the shorter name, the name first in a dictionary |
| SegmentRank.RankedIsStableSort | src/algo/segment_index.c:203-217 | insertion one by one is a stable sort by the ranking |
| SegmentRank.TopInsert | src/algo/segment_index.c:203-217 | keeping only the best at every step loses none of the final best |
| SegmentIndex.FindPosting | src/algo/segment_index.c:137-161 | binary search and run scan decide membership |
| SegmentIndex.InsertMatch | src/algo/segment_index.c:203-217 | the kept array becomes the best of what it held and the new match |
| SegmentIndex.Index.Add | src/algo/segment_index.c:361-396 | a folded name becomes the next entry with the postings of its segments up to the first that is refused; the entry is returned iff none is |
| SegmentIndex.Index.SplitFold | src/algo/segment_index.c:164-183 | the segments of the folded query, none if one is empty |
| SegmentIndex.FoundByAny | src/algo/segment_index.c:426-436 | what is found does not depend on which segment is rarest |
| SegmentIndex.Index.Query | src/algo/segment_index.c:416-482 | the total is the number of matches of a naive scan over the segments posted, and the output is the first of their ranking, which is in order and stable |
| JsonWriter.JsonWriter.Append | src/net/json.c:582-612 | appends and terminates, or stops the builder for good |
| JsonWriter.JsonWriter.AddKey | src/net/json.c:735-753 | a due comma, the quoted key and a colon |
| JsonWriter.JsonWriter.StringVal | src/net/json.c:755-765 | a due comma and the escaped string |
| JsonWriter.JsonWriter.NumberVal | src/net/json.c:767-782 | a due comma and the number text, refused from 32 characters on |
| JsonWriter.JsonWriter.BeginObject | src/net/json.c:689-699 | opens an object unless 32 containers are open |
| JsonWriter.JsonWriter.EndArray | src/net/json.c:724-733 | closes a container, which then owes its sibling a comma |
| JsonWriter.EmitRenders | src/net/json.c:582-806 | the calls for a tree leave its rendering iff it fits, else a stopped builder |
| JsonWriter.WrittenReadsBack | src/net/json.c:582-806 | a builder that is still ok holds the rendering of the tree, and that reads back as the tree |
| JsonLimits.NestingLimits | src/net/json.c:286-288 | a value is written iff at most 32 containers nest, read iff at most 32 surround a value; the two differ exactly if an empty container stands inside 32 others |
| JsonLimits.ReadsIffShallow | src/net/json.c:286-349 | a rendered value nested at most 32 deep is read back, any other is refused |
| JsonLimits.WritesIffShallow | src/net/json.c:689-722 | some buffer lets the builder finish a value iff its containers nest at most 32 deep and its numbers are short |
| JsonLimits.ReadButNotWritten | src/net/json.c:286-289 | an empty array inside 32 arrays is read, and no buffer lets the builder write it |
| JsonDocument.RenderNulFree | src/net/json.c:582-612 | the rendering of a tree without NUL has none, so the parser takes it whole |
| JsonDocument.WriteTree | src/net/json.c:582-806 | the calls for a tree, on the builder itself |
| JsonDocument.WriteAndParse | src/net/json.c:351-374 | a tree written into a buffer and parsed from there is the same tree in the pool, iff builder, buffer, pool and arena have room for it |
| JsonRoundTrip.CharsReadBack | src/net/json.c:128-208 | escaping and decoding a string are inverse |
| JsonRoundTrip.DocumentReadsBack | src/net/json.c:351-374 | the rendering of a value nested at most 32 deep is read back as that value |
| JsonGrammar.ReadsIffSays | src/net/json.c:112-374 | a text is read as a value iff it spells that value, place by place: blanks, words, numbers, strings of characters and escapes, and containers with a comma between items; and the value nests at most 32 deep |
| JsonGrammar.MarksAreRead | src/net/json.c:128-208 | a string body is read as what its marks say: characters as they are, eight signs behind a backslash, and codes in four digits of either case as the bytes of their encoding |
| JsonGrammar.ReadIsMarks | src/net/json.c:128-208 | and nothing else is read as a string body |
| JsonEscapes.EscapesAreUtf8IffScalars | src/net/json.c:165-192 | a string of ASCII characters and escapes is read as the UTF-8 encoding of its codes iff none of them is a surrogate, and else as bytes that are not UTF-8 |
| JsonEscapes.RenderedIsWritten | src/net/json.c:614-638 | the builder escapes exactly the seven characters that have a sign of their own, each by that sign |
| JsonParser.Parser.ReadHex4 | src/net/json.c:169-182 | four hexadecimal digits, or failure |
| JsonParser.Parser.CopyDecoded | src/net/json.c:149-201 | the decoded string stands behind the used scratch, which stays, iff it decodes and fits there |
| JsonParser.Parser.ParseStringBody | src/net/json.c:128-208 | succeeds iff the body decodes and its copy, if it needs one, fits; the view is the decoded string; leaves the arena iff a copy is begun behind it, whether or not it decodes |
| JsonParser.Parser.AddItem | src/net/json.c:225-253 | one more item hooked behind the tail |
| JsonParser.Parser.ParseContainer | src/net/json.c:214-284 | succeeds iff the container reads and fits in pool and arena; the nodes denote it; leaves the arena iff the account of the copies it begins says so, malformed or not |
| JsonParser.Parser.ParseValue | src/net/json.c:286-349 | succeeds iff the value reads and fits in pool and arena; leaves the arena iff the account of the copies it begins says so, malformed or not |
| JsonParser.Parser.Parse | src/net/json.c:351-374 | accepts iff the document reads and fits in pool and arena; what it accepts is what the text says, and the pool denotes it from node 0; any text leaves the arena iff the account of the copies it begins says so, and never one as long as the text |
| JsonScratch.TakenIff | src/net/json.c:149-207 | all copies are made iff they and their terminators fit, the last terminator not counted |
| JsonScratch.BeyondIff | src/net/json.c:149-207 | a copy is begun behind the arena iff some, not all, of the copies fill it exactly |
| JsonScratch.LongArenaSuffices | src/net/json.c:149-207 | an arena as long as the text is never full and never left, whatever the text |
| JsonScratch.ArenaLeft | src/net/json.c:149-207 | two escaped newlines in an arena of one character, the array closed or not: the second is copied behind it |
| JsonPool.ChainGrows | src/net/json.c:245-247 | hooking a wrapper behind the tail appends its item |
| JsonParser.Parser.Member | src/net/json.c:384-394 | the value of the first member with the key, or none |
| JsonParser.Parser.ElementAt | src/net/json.c:396-404 | the value at the position, or none |
| Utf8.Utf8Valid | src/net/websocket.c:410-449 | goes through exactly the well-formed code points |
| Utf8.ValidIffEncoding | src/net/websocket.c:410-449 | bytes pass iff they are the shortest-form encoding of scalar values |
| WebSocketWire.FrameReadsBack | src/net/websocket.c:530-568 | a lawful frame is read back whichever length form it uses |
| WebSocket.FailsIffViolates | src/net/websocket.c:530-709 | a connection fails on the next frame iff that is cut off, breaks a wire rule or breaks a rule of its turn, each listed on the bytes |
| WebSocket.CloseArrives | src/net/websocket.c:606-676 | a close is answered by its own payload if none was sent before and the transport takes it; its code is the first two bytes, the higher first, or 1005, its reason the rest |
| WebSocketWire.ReadsIffLawful | src/net/websocket.c:530-603 | a frame is read iff it is whole, unreserved, unmasked, within the cap and, if a control frame, final and short |
| WebSocket.EventsAreSane | src/net/websocket.c:571-709 | for every byte stream: text is valid UTF-8, nothing exceeds the cap, and an error or close is last |
| WebSocket.MessagesArrive | src/net/websocket.c:571-709 | however messages are cut, whatever pings and pongs interleave and whatever comes behind: exactly they are delivered, in order, and the connection stands between messages with every ping answered |
| WebSocket.StreamEnds | src/net/websocket.c:571-709 | whole messages, perhaps the beginning of one more, and then the end, a violation or a close: the whole messages are delivered, and then nothing, one error or the close |
| WebSocketStreams.WireFrameEncodes | src/net/websocket.c:530-568 | a frame that keeps to the rules was encoded by what is read from it, length form included |
| WebSocketStreams.EveryStreamEnds | src/net/websocket.c:571-709 | every byte stream is such a stream: frames of whole messages, the beginning of one more, and its end, first violation or close; so for all bytes exactly the whole messages are delivered, and then nothing, one error or the close |
| WebSocketClient.Client.ReadFrameHeader | src/net/websocket.c:530-568 | the header, or failure |
| WebSocketClient.Client.Reserve | src/net/websocket.c:457-470 | the buffer doubles, stays within twice the cap and keeps its contents |
| WebSocketClient.Client.AppendMessage | src/net/websocket.c:452-473 | appends iff the message stays within the cap |
| WebSocketClient.Client.ReadPayload | src/net/websocket.c:678-690 | reading in chunks of 4096 is reading the whole payload |
| WebSocketClient.Client.ConsumeFrame | src/net/websocket.c:571-709 | does to the connection what the frame reference says |
| WebSocketClient.Client.Poll | src/net/websocket.c:904-957 | polls until the deadline as the poll on values does, for every clock and every answer of the transport |
| WebSocketClient.PollIsNextEvent | src/net/websocket.c:904-957 | a poll hands out the next event of the stream or nothing; an error is that of the stream, a hang-up at its end, or a broken transport |
| WebSocketClient.PollsHandOutEvents | src/net/websocket.c:904-957 | however a reader polls, it gets the events of the stream in order, none twice and none left out |
| WebSocketClient.PollReadsOn | src/net/websocket.c:904-957 | a poll that hands out nothing has read a frame for every time the transport was ready before the deadline, and met no broken transport |
| PngFilter.ReconUndoesFilter | src/image/png.c:87-117 | a reconstructed row is the row that was filtered, for all five filters |
| PngFilter.ImageReadsBack | src/image/png.c:87-117 | any image, any choice of filters, any bytes per pixel: reconstruction gives the image |
| PngFilter.PaethIsChosen | src/image/png.c:101-109 | the fourth predictor is the one among left, up and upper left nearest to left + up - upper left, the first of them on ties |
| PngFilter.ReconRebuildsImage | src/image/png.c:87-117 | byte by byte: every reconstructed byte is the byte read plus, by its filter, nothing, left, up, half their sum or the nearest of the three, modulo 256 |
| PngFilter.UnfilterRow | src/image/png.c:91-114 | reconstructs one row in place, or rejects its filter byte |
| PngFilter.Unfilter | src/image/png.c:87-117 | reconstructs all rows in place, each byte as its filter says; accepts iff all filters are known or rows are empty |
| PngChunks.Survey | src/image/png.c:156-210 | gives every file the code of its first broken rule, accepts exactly legal chunk sequences, reads sizes off the header and sizes the image data |
| PngChunks.AcceptedIffLegal | src/image/png.c:156-210 | the verdict by the first broken rule accepts exactly the legal sequences |
| PngChunks.Gather | src/image/png.c:230-243 | after an accepted survey no access leaves file or buffer, and all image data is gathered |
| PngFiles.ChunkReadsBack | src/image/png.c:160-178 | a chunk is read as it was written: length, kind, data and checksum, most significant byte first |
| PngFiles.HeaderReadsBack | src/image/png.c:179-198 | a header is supported iff it is that of an image with some pixels, no more than 2^26, of 8 bits, not interlaced, in one of four colour types; sizes and samples are read as written |
| PngFiles.FilesAccepted | src/image/png.c:156-210 | of the files written chunk by chunk exactly those are accepted that have one supported header before all image data, some image data and no other critical chunk; the image data is that of their chunks |
| KeyMap.Keyboard.PushEvent | src/input/key.c:363-408 | what each event does to its key's slot, and what is queued |
| KeyMap.Mouse.PushEvent | src/input/mouse.c:306-347 | the same for a mouse button, under the modifiers of the keyboard |
| KeySlots.PressKeeps | src/input/key.c:371-395 | a press adds to the taps in flight at most what it pays |
| KeySlots.FirePays | src/input/key_map.c:165-242 | a gesture that shows is paid for by presses not spent before |
| KeyMap.BestIsMostSpecific | src/input/key_map.c:328-349 | the chosen binding is eligible, the most specific, the first of its kind |
| KeyMap.Map.Resolve | src/input/key_map.c:323-380 | at most one binding of a key or mouse button fires; declined gestures expire |
| KeyMap.Map.Bind | src/input/key_map.c:387-422 | replaces the same combo and function in place, else appends |
| KeyMap.ResolveKeeps | src/input/key_map.c:323-380 | what fires is under the exact modifiers and paid for, and the account stays lawful |
| KeyMap.EveryRunIsPaid | src/input/key_map.c:323-380 | in every run taps, doubles and triples never outweigh presses |
| KeyMap.HoldFiresOnce | src/input/key_map.c:165-242 | two holds of a key fire for different presses, and a tap after a hold needs a later press |
| KeyGestures.EveryRunTells | src/input/key.c:363-408 | in every run the slot of a key tells its story: whether and since when it is down, the presses of its running sequence, its last release and hold |
| KeyGestures.FiresIffWins | src/input/key_map.c:323-380 | in every run a resolve fires the combo of the first most specific binding whose gesture the events make ready under the modifiers held, and nothing iff there is none |
| KeyGestures.TapsWait | src/input/key_map.c:165-218 | in every run no tap, double or triple fires before the window of the last press of its sequence has passed, and it is the one its presses count to: 1, 2, or 3 and more |
| KeyGestures.SettledFires | src/input/key_map.c:323-380 | in every run a sequence that has settled fires if a binding asks for it, unless a more specific binding or an earlier one of its kind fires instead |

## Left out

- Floating point: weights, coordinates and times of rays are exact reals; rounding, NaN and infinities are not modelled. A zero ray direction uses the reciprocal the code substitutes.
- Weak memory: all protocols are modelled under sequential consistency.
- Allocation failure: modelled where a caller sees it (mailbox growth); elsewhere allocation succeeds. 32-bit node, entry and posting counts do not overflow.
- BitPool.StepKeeps: clients free only slots they hold and allocate with non-zero type ids; under that discipline the best-effort double-free scan never finds anything, and it is a step that only reads.
- Dijkstra.ShortestPath: optimality and exact unreachability are proved when weights are not negative and no push was refused; a search with a refused push may still be optimal.
- JsonParser.Parser.Parse: is not followed once a copy begins behind the arena; the value `strtod` gives a number is not modelled.
- JsonWriter.JsonWriter.NumberVal: takes the formatted text of the number; `snprintf` is not modelled.
- WebSocketClient.Client.Poll: a send succeeds while the transport takes sends; frame and pong counters are not modelled; masking of outgoing frames is not modelled, and neither is a transport that delivers part of a frame and then stalls.
- RingBuffer.EveryRunIsAQueue: an element is one word copied in one step; the lock's timed try is not modelled.
- Registry.EveryRunIsSafe: thread roles are not modelled.
- Dispatch.EveryRunDeliversInOrder: telemetry counters and `Dispatch_free` are not modelled; the lock is taken and given back by the call that holds it.
- Reactive.EveryRunSettles: callbacks that start a drain of the same cell are outside the property, as are delivery hooks; the observers told of empty words are not repeated, they are told exactly the batches whose word is 0.
- SegmentIndex.Index.Add: names fold by an assumed function whose results fit the 24-byte buffer; what allocator and hash map answer are parameters.
- KeyMap.Map.Resolve: the clock is read once per resolve; listeners and windows are not part of the model.
- PngChunks.Survey: the signature test, inflation and the expansion to RGBA are not modelled.
- RadixSortPairs.SortPairs: the key-only radix sorts make the same passes without values and are not repeated.
- Selection sort, bubble sort and the int32 partition of `src/algo/sort.c`: easier members of the same kind.
- `Json_path`, the typed JSON getters and the one-shot writers: thin layers over what is modelled.
- Handshake, URL parsing, sockets, TLS, audio, console, math, strings and the type tables: input and output plumbing or foreign code.
