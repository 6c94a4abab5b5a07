# A verified model of LAME's data structures, decoders and protocols

LAME is the control program of a small robot. It bundles the AprilTag C library, and its own
message format is framed with COBS. This Dafny project models the algorithms of both that carry
non-trivial invariants and proves what they are for. `dafny verify dfyconfig.toml` checks it.

State that the C code updates in place is updated in place here too: arrays and classes with
`modifies` clauses, loops with invariants. Each such method is tied to a mathematical
specification (functions on sequences, sets, maps and multisets), and the theorems are lemmas
about the specification.

| file | models |
|---|---|
| `UnionFind.dfy` | disjoint sets: union by size, path compression, against the equivalence closure |
| `Segmentation.dfy` | labelling of pixel components, sequential and in chunks that are stitched |
| `SteppedConnect.dfy`, `Interleaving.dfy` | the connects of several threads, interleaved access by access |
| `MaxHeap.dfy` | the binary heap and its filtering iterator |
| `LineFit.dfy` | running moments and least-squares lines over windows of a contour |
| `SegmentAgg.dfy`, `ContourReduction.dfy` | greedy polygon reduction with lazily invalidated heap entries, against the naive greedy run, for any error and for the line fit |
| `HashTable.dfy`, `HashIterator.dfy`, `WrapAround.dfy`, `Probing.dfy` | the open-addressing hash table and its iterator, against a map, and the entries that wrap around its end |
| `TagCode.dfy`, `TagDecoder.dfy`, `TagImage.dfy`, `Bits.dfy` | rotation of codes, the decode table of Hamming balls, and decoding of drawn and sampled tags |
| `Matrix.dfy`, `Plu.dfy`, `Parity.dfy` | PLU factorisation in place, solving and inversion |
| `BitReader.dfy`, `Huffman.dfy`, `JpegBlock.dfy`, `JpegStreams.dfy` | JPEG entropy decoding against ITU-T T.81, and which tables keep it inside the block |
| `WorkerPool.dfy` | the mutex and condition variable protocol as interleaved steps |
| `Cobs.dfy`, `Packets.dfy` | COBS in place (Cheshire and Baker, IEEE/ACM Transactions on Networking 7(2), 1999) and the packets framed with it |
| `Winding.dfy`, `Points.dfy` | point in polygon by quadrants |
| `HullWalk.dfy`, `HullOrder.dfy`, `ConvexHull.dfy`, `Orientation.dfy`, `HullExamples.dfy` | gift wrapping, with points on common lines: the walk, the input orders that lead it astray, the polygon |
| `Reconcile.dfy` | dropping overlapping detections of one tag |
| `Arithmetic.dfy`, `FiniteSets.dfy`, `Options.dfy` | small facts used by the others |

## How to read the model

* `double` and `float` are `real`; C integers are mathematical integers unless their width
  matters, in which case it is written out: bytes and their wrap-around in `Cobs.dfy`, 32-bit
  window and 16-bit words in `BitReader.dfy` and `Huffman.dfy`, 64-bit codes in the tag decoder.
* Callbacks are parameters: the hash and equality functions, the line-fit error `fit(left, right)`
  and the overlap test are arbitrary functions; `fit` is partial and need not be defined on equal
  indices. Hashing needs only what `zhash.h` asks for: equality is an equivalence and equal keys
  have equal hashes.
* Functions of the C library and of the camera geometry are parameters as well: `Trig` holds a
  cosine, a sine and an arc tangent of two arguments, of which `IsTrig` asks that sines and cosines
  give unit vectors, the laws of the double angle, and that the arc tangent is the angle of its
  arguments; `project` is the homography and `thresh` the interpolated threshold of a position.
* In `HashIterator.dfy`, `Flat` says that no entry is stored below its home slot, as happens to
  entries that wrap around the end of the table (`WrappedOf`). `ComesTwice` counts: for every slot
  h, the kept keys with a home from h on are fewer than the slots from h on and the kept keys that
  wrap around together.
* In `TagDecoder.dfy`, `added` is the set of entries put into the table so far, `InTable` says that
  an entry is a word within t bits of a code, but not the marker, with its exact distance, and
  `IsAnswer` is the answer to a query: the first of its four turns that the table can find.
* In `WorkerPool.dfy` a step is one access to the shared fields or one mutex or condition
  operation; `Next` is the step of one thread, and a run is any interleaving. `Initial` is the
  moment `workerpool_run` is entered, with the workers anywhere, some of the tasks perhaps taken or
  returned already: every state to which a pool just created can come while tasks are added is of
  this kind (`EntriesReached`). A worker has reported the end (`Ended`) from the moment it counts
  itself until it is woken. `Leads` relates two states joined by some schedule.
* In `SteppedConnect.dfy` a step of a thread is one read or write of one record of the table.
* In `Plu.dfy` the array holds L below the diagonal and U from the diagonal on; `IsPlu` says that
  their product is the original matrix with its rows in the order of `piv`, column by column.
* In `JpegBlock.dfy` the encoder (`ItemBits`, `AcItems`, `BlockBits`, `ScanBits`) follows
  sections F.1.2.1 to F.1.2.3 of ITU-T T.81; it exists only for the round trips. `CanOverrun`
  looks at the symbols of a table only, and `Clean` says that words without a code look up
  symbol 0, as in a table defined once.
* In `HullWalk.dfy`, `Bounds(p, q)` says that no point lies to the right of the edge from p to q,
  and `Walk` is the sequence of points the loop visits. In `HullOrder.dfy`, `Blocks(f)` says that
  the edge from the first input point to entry f bounds the others, that f is at least 2, that
  all entries before f lie on this line and that none lies beyond f. In `ConvexHull.dfy`, `Polygon`
  holds the vertices kept (`Kept`) when the walk first returns to its start.

## Where promise and code differ

* `workerpool_run` counts wake-ups, and a pool may be run before its workers have reached the
  wait, as `apriltag_detector_detect` permits. `WorkerPool.SafeEntries` says that every run returns
  with all tasks returned and all workers parked if and only if all workers have reported the end
  of the list at entry; `WorkerPool.FinishingEntries` that every run returns after all tasks if and
  only if they had all returned before, or at most one worker has not reported the end and none is
  about to although tasks are left. `WorkerPool.FreshPoolReturnsEarly` is a failing schedule of a
  pool just created. A spurious wake-up, which POSIX permits, breaks even the safe entries
  (`WorkerPool.SpuriousWakeReturnsEarly`); the other theorems are about runs without any.
* Removing during an iteration keeps the iterator valid, says `zhash.h`. No pair is ever missed,
  but a pair may be returned twice. `HashIterator.RemoveWhere` says for each table and each test
  exactly when: if of the keys that stay fewer would wrap around without the removed ones than do
  now. For some test that is so if and only if an entry is stored below its home slot
  (`WrappedComesTwice`, and the input in `WrappedPairTwice`).
* `matd_inverse` returns null on regular matrices too: on some that are within the tolerance of a
  singular one in every entry, and on no others (`Plu.Inverse`). `Plu.TinyButRegular` covers
  diag(1e-9, 1, 1).
* The JPEG decoder writes outside the block on some streams. `JpegStreams.InsideIffNoOverrun` says
  for which tables it never does; `FourRunsOverrun` gives a stream for every table with the symbol
  for sixteen zeros.
* Gift wrapping can miss points or not end when several input points lie on a line that bounds the
  others. `HullOrder.WalkExact` says on which inputs the walk goes around: those in which no such
  line has its front end behind two or more entries that all lie on it and come first. For the
  others the polygon returned, if any, leaves a point outside (`ConvexHull.PolygonExact`).
  `HullExamples` has a square on which the walk goes around, and a triangle on which it leaves a
  corner outside. Equal points on the outline can end it after two steps
  (`HullExamples.TwinsReturned`). The promise that unnecessary colinear points are omitted holds but
  for the first and the last vertex (`HullExamples.LastPointKept`).
* Chunked labelling leaves out row h - 2 when the chunk size divides h - 1.
  `Segmentation.ChunkedMatchesSequential` says exactly when the result is the sequential one.
* `encodeCOBS` reads the byte after the message. `Cobs.ComesBackExactly` says for each message and
  each such byte whether the message comes back: always for the byte zero, and for another byte
  exactly if the message is empty or ends with a zero, or its rest after the last zero only repeats
  that byte and the section length read from it reaches beyond the message. At length 255 its loop
  does not end, at any other it does (`Cobs.LoopEnds`).
* The location and encoder packets have no end byte: they are accepted exactly if the byte left in
  the buffer at that place was the end byte (`Packets.LocationArrives`, `EncoderArrives`).
* Three packet creators test for a shorter buffer than they write. Their contracts say for which
  two lengths the bytes written exceed the length passed.
* The window of the bit reader has 32 bits. `BitReader.RefillLimit` says exactly up to which
  request no valid bit is shifted out; `bd_consume_bits` asserts a weaker bound, and its callers
  stay below the exact one.
* Removing from the heap at an index only sifts down. `MaxHeap.RemovedOrdered` says exactly when
  the heap order survives.
* The decode table marks free slots with the all-ones word, which never decodes
  (`TagDecoder.MarkerNeverDecodes`). All words near a code are found if and only if that word is
  near none (`TagDecoder.AllFoundIffMarkerFar`); up to 7 x 7 cells it never is
  (`TagDecoder.MarkerFarSmall`), and `TagDecoder.AllWhiteLost` is a family of 64 bits where it is.

## Model

| member | source | states |
|---|---|---|
| SegmentAgg.QuadSegmentAgg | Robot/apriltags/apriltag_quad_thresh.c:566-674 | For any error that is defined on pairs of different indices: succeeds for every contour of at least four vertices; the live sets form a run of the naive algorithm that in each step drops a vertex of least merge error; returns the four survivors in ascending order; the error is never asked for two equal indices |
| SegmentAgg.Reduction.constructor | Robot/apriltags/apriltag_quad_thresh.c:568-605 | Every vertex starts live, with one current candidate in the heap and correct ring links |
| SegmentAgg.Reduction.Round | Robot/apriltags/apriltag_quad_thresh.c:607-659 | One round leaves the live set alone and shrinks the heap, or drops a cheapest live vertex; the heap is never found empty and the pool of 3*sz records never overrun |
| SegmentAgg.Reduction.Unlink | Robot/apriltags/apriltag_quad_thresh.c:629-631 | Exactly the vertex leaves the ring, and its two neighbours point at each other |
| SegmentAgg.Reduction.AddChildren | Robot/apriltags/apriltag_quad_thresh.c:633-655 | The two new candidates are the joins to the left and to the right over the updated ring, with their errors |
| SegmentAgg.Reduction.Collect | Robot/apriltags/apriltag_quad_thresh.c:664-669 | The live vertices, each once and in ascending order |
| SegmentAgg.HeapNotEmpty | Robot/apriltags/apriltag_quad_thresh.c:613-616 | While vertices are live the heap holds an entry, so the failure return cannot be reached |
| SegmentAgg.DropStale | Robot/apriltags/apriltag_quad_thresh.c:618-624 | Dropping an entry one of whose vertices is dead keeps the whole invariant |
| SegmentAgg.FreshIsCurrent | Robot/apriltags/apriltag_quad_thresh.c:618-624 | An entry whose three vertices are all live still names the current neighbours, although it may be old |
| SegmentAgg.TopIsCheapest | Robot/apriltags/apriltag_quad_thresh.c:613-627 | The best entry, if not stale, belongs to a live vertex of least merge error |
| SegmentAgg.NeighboursUnique | Robot/apriltags/apriltag_quad_thresh.c:584-603 | The live neighbours of a vertex on the ring are determined by the live set alone |
| SegmentAgg.UnlinkKeepsRing | Robot/apriltags/apriltag_quad_thresh.c:629-631 | Unlinking keeps the ring linking exactly the live vertices in cyclic order |
| SegmentAgg.UnlinkKeepsInv | Robot/apriltags/apriltag_quad_thresh.c:629-658 | After unlinking and adding two candidates every live vertex again has a current entry in the heap |
| ContourReduction.ReduceContour | Robot/apriltags/apriltag_quad_thresh.c:566-674 | The reduction with the line fit as its error: a run of the naive algorithm in which the error of two indices is the least weighted mean of the squared distances, from any line, of the points between them: the mse that quad_segment_agg asks fit_line for |
| LineFit.Cumulate | Robot/apriltags/apriltag_quad_thresh.c:824-898 | Entry i of the table is the sum of the moments of points 0 to i |
| LineFit.WindowMoments | Robot/apriltags/apriltag_quad_thresh.c:237-280 | These are the moments and the number of the points from i0 to i1 around the contour |
| LineFit.SumWindow | Robot/apriltags/apriltag_quad_thresh.c:237-280 | Two subtractions and an addition of table entries give the moments and size of any window, wrap-around included |
| LineFit.FitLine | Robot/apriltags/apriltag_quad_thresh.c:232-356 | For a cosine, a sine and an arc tangent that satisfy their laws: the line goes through the centroid of the window and its unit normal has half the angle of (cyy - cxx, -2 cxy); mse is the weighted mean of the squared distances of the window from it, err that times the number of points, and no line whatsoever has a smaller weighted sum of squared distances |
| LineFit.FitErrorIsLeast | Robot/apriltags/apriltag_quad_thresh.c:282-356 | The mse of a window is the weighted mean of the squared distances from a line with a unit normal for which their weighted sum is least, for any two different indices |
| LineFit.SquaresFromMoments | Robot/apriltags/apriltag_quad_thresh.c:341-347 | The weighted sum of the squares of a linear form over points is a quadratic form in their moments |
| LineFit.ErrorIsResidual | Robot/apriltags/apriltag_quad_thresh.c:282-286 | The error computed from the moments is the sum of squared distances from the line through the centroid, for every direction |
| LineFit.CentroidBest | Robot/apriltags/apriltag_quad_thresh.c:282-283 | Of parallel lines the one through the centroid has the least error |
| LineFit.DirectionBest | Robot/apriltags/apriltag_quad_thresh.c:296-298 | Half the angle of (cyy - cxx, -2 cxy) is the direction of least error |
| MaxHeap.ZMaxHeap.EnsureCapacity | Robot/apriltags/common/zmaxheap.c:118-137 | Grows the storage, if it is too small, to sixteen or less than twice what is asked for, without changing the contents |
| MaxHeap.ZMaxHeap.Add | Robot/apriltags/common/zmaxheap.c:139-164 | Keeps the heap order and adds exactly the one entry |
| MaxHeap.ZMaxHeap.RemoveIndex | Robot/apriltags/common/zmaxheap.c:186-246 | Fails exactly for an index out of range; otherwise returns that entry and leaves the last entry sifted down from its place; a heap stays a heap exactly if StaysOrdered says so |
| MaxHeap.ZMaxHeap.RemoveMax | Robot/apriltags/common/zmaxheap.c:248-251 | Fails exactly on an empty heap; otherwise removes one entry that no entry exceeds and keeps the heap order |
| MaxHeap.ZMaxHeap.MaxHeapify | Robot/apriltags/common/zmaxheap.c:306-322 | The recursive exchange with the larger child is a sift-down |
| MaxHeap.ZMaxHeap.Rebuild | Robot/apriltags/common/zmaxheap.c:350-354 | Turns any contents into a heap with the same entries |
| MaxHeap.ZMaxHeapIterator.Next | Robot/apriltags/common/zmaxheap.c:261-299 | Returns the entries in storage order and counts the current one as kept |
| MaxHeap.ZMaxHeapIterator.Remove | Robot/apriltags/common/zmaxheap.c:301-304 | Takes back the entry returned last |
| MaxHeap.ZMaxHeapIterator.Finish | Robot/apriltags/common/zmaxheap.c:342-355 | A heap again, holding exactly the kept entries; untouched if nothing was removed |
| MaxHeap.FilterHeap | Robot/apriltags/common/zmaxheap.c:253-355 | A complete iteration with any pattern of removals ends in a heap of exactly the survivors |
| MaxHeap.RootIsMaximal | Robot/apriltags/common/zmaxheap.c:50 | The order between parents and children makes the first entry maximal |
| MaxHeap.SiftUpRestores | Robot/apriltags/common/zmaxheap.c:150-163 | Sifting up repairs a heap that is wrong only at one entry and its parent |
| MaxHeap.SiftDownRestores | Robot/apriltags/common/zmaxheap.c:210-243 | Sifting down repairs a heap that is wrong only between one entry and its children, from any starting level on |
| MaxHeap.AddKeepsHeap | Robot/apriltags/common/zmaxheap.c:139-164 | Adding keeps the order and changes the multiset by one entry |
| MaxHeap.RemoveMaxKeepsHeap | Robot/apriltags/common/zmaxheap.c:186-251 | Removing the first entry keeps the order, changes the multiset by that entry, and it is maximal |
| MaxHeap.RemovedOrdered | Robot/apriltags/common/zmaxheap.c:186-246 | Removal at an index keeps the heap order if and only if the index is the first or the last or the last entry does not exceed the parent of the index |
| MaxHeap.HeapifyNext | Robot/apriltags/common/zmaxheap.c:306-322 | One call of the rebuilding loop extends the ordered part by one entry |
| HashTable.ZHash.constructor | Robot/apriltags/common/zhash.c:62-95 | An empty map in a table of a power of two slots: eight for a capacity of at most two, and else at least four and less than eight times the capacity |
| HashTable.MaskIsMod | Robot/apriltags/common/zhash.c:125-126 | Masking by a power of two minus one is the remainder |
| HashTable.PowerTest | Robot/apriltags/common/zhash.c:74-80 | The bit trick recognises exactly the powers of two |
| HashTable.ZHash.Probe | Robot/apriltags/common/zhash.c:125-136 | The probe loop ends, at the first slot from home that is free or holds an equal key |
| HashTable.ZHash.Get | Robot/apriltags/common/zhash.c:123-139 | Agrees with the map: found exactly if an equal key is stored, and then with its value |
| HashTable.ZHash.Put | Robot/apriltags/common/zhash.c:152-206 | Updates the map at that key; if an equal key was stored, returns the key and value it replaced; keeps at least two slots per entry, growing the table to four per entry exactly if they would be fewer, and never while a deletion re-inserts |
| HashTable.ZHash.Grow | Robot/apriltags/common/zhash.c:182-203 | Moving all entries to a larger table leaves the map unchanged and never grows again on the way |
| HashTable.ZHash.Remove | Robot/apriltags/common/zhash.c:208-251 | Removes exactly the equal key from the map and returns the key and value that were stored; everything else stays reachable in the same table |
| HashTable.ZHash.RemoveAt | Robot/apriltags/common/zhash.c:223-244 | Emptying a slot and re-inserting the rest of its run removes that key only, and moves no entry from the slot or above it to below it |
| HashTable.ZHash.Reinsert | Robot/apriltags/common/zhash.c:227-243 | The re-insertion loop restores reachability for every entry, over runs that wrap around the end too |
| HashTable.PlainEquality | Robot/apriltags/common/zhash.c:123-251 | With ordinary equality the three operations are those of a finite map |
| HashTable.ProbeFinds | Robot/apriltags/common/zhash.c:127-136 | If every entry is reachable from its home, a probe for a stored key stops at its slot |
| HashTable.StopTells | Robot/apriltags/common/zhash.c:127-138 | The slot where the probe stops is full exactly if the map has the key, and holds the right value |
| HashTable.StoreKeepsReachable | Robot/apriltags/common/zhash.c:154-190 | Storing where the probe stopped keeps every entry reachable |
| HashTable.StoreUpdatesMap | Robot/apriltags/common/zhash.c:154-190 | Storing where the probe stopped is the map update |
| HashTable.StartDeleting | Robot/apriltags/common/zhash.c:223-228 | After a slot is emptied only the rest of its run, up to the next free slot, may be unreachable |
| HashTable.ClearNext | Robot/apriltags/common/zhash.c:229-236 | Taking the next entry of the run out leaves the entries already dealt with reachable |
| HashTable.ReinsertNext | Robot/apriltags/common/zhash.c:237-239 | Putting it back lands within the part of the run already dealt with |
| HashTable.DoneDeleting | Robot/apriltags/common/zhash.c:240-242 | When the loop meets a free slot every entry is reachable again |
| HashIterator.ZHashIterator.Next | Robot/apriltags/common/zhash.c:291-313 | Moves to the next occupied slot, skipping only free ones, or reports the end |
| HashIterator.ZHashIterator.Remove | Robot/apriltags/common/zhash.c:332-357 | Removes exactly the pair returned last and steps back |
| HashIterator.Keys | Robot/apriltags/common/zhash.c:423-438 | A complete iteration returns every key of the map once and nothing else |
| HashIterator.AllKeysOnce | Robot/apriltags/common/zhash.c:291-313 | Reading the slots in order meets each key of the map exactly once |
| HashIterator.FilterDrops | Robot/apriltags/common/zhash.c:332-357 | Removing during an iteration never moves a pair not yet seen below the iterator |
| HashIterator.RemoveWhere | Robot/apriltags/common/zhash.c:277-357 | Iterating and removing what the test selects: every pair of the table is returned, dropped or not, and nothing else; the map ends with the pairs kept; some pair is returned twice if and only if, of the keys that are kept, fewer would wrap around in a table without the dropped ones than do in this one, a count of keys and slots before the call; never if no entry is stored below its home slot |
| HashIterator.RepeatsDrops | Robot/apriltags/common/zhash.c:332-357 | A removal keeps the account of the pairs met: each is still stored up to the iterator, or is one of the kept keys that have stopped wrapping around, which come again |
| WrapAround.Moved | Robot/apriltags/common/zhash.c:223-244 | An entry that a deletion moves wraps around afterwards only if it did before or has moved below the emptied slot; it stops wrapping around exactly if it moves from below that slot to it or above |
| WrapAround.OverflowBound | Robot/apriltags/common/zhash.c:148-180 | In any table without duplicates: the keys with a home from slot h on are at most as many as the slots from h on and the wrapped keys together |
| WrapAround.OverflowReached | Robot/apriltags/common/zhash.c:148-180 | In a probed table with a free slot that bound is reached for some h: the number of wrapped keys depends on the homes alone, not on the history |
| WrapAround.CrowdedExactly | Robot/apriltags/common/zhash.c:332-357 | When only the kept keys are left, some of them have stopped wrapping around exactly if the count said so before |
| HashIterator.WrappedComesTwice | Robot/apriltags/common/zhash.c:332-357 | Whenever an entry is stored below its home slot there is a test for which a pair comes twice: none does for any test if and only if no entry is |
| HashIterator.DropsLastTwice | Robot/apriltags/common/zhash.c:332-357 | Dropping just the pair in the last slot is such a test |
| HashIterator.WrappedPairTwice | Robot/apriltags/common/zhash.c:332-357 | Eight slots, identity hash, keys 7 and 15, 7 removed while iterating: 15 is returned twice |
| UnionFind.Sets.constructor | Robot/apriltags/common/unionfind.h:58-68 | Every id from 0 to maxid inclusive is its own set |
| UnionFind.Sets.GetRepresentative | Robot/apriltags/common/unionfind.h:95-116 | Returns the root; every record on the way from the id then hangs directly below it and every other is as it was; no representative and no size changes |
| UnionFind.Sets.GetSetSize | Robot/apriltags/common/unionfind.h:118-122 | The number of ids related to the given one by the pairs connected so far |
| UnionFind.Sets.Connect | Robot/apriltags/common/unionfind.h:124-156 | Two ids share a representative exactly if they are related by the equivalence closure of the connected pairs; other classes are untouched; sizes stay exact; the table is the one with both ways collapsed and the root of the smaller set, of two equal ones that of the first id, below the other |
| UnionFind.DepthIsLogarithmic | Robot/apriltags/common/unionfind.h:132-155 | Two to the length of the parent chain is at most the size of the class |
| UnionFind.RedirectKeepsTrees | Robot/apriltags/common/unionfind.h:103-115 | One step of path compression keeps every representative and size |
| UnionFind.CollapsedSameTrees | Robot/apriltags/common/unionfind.h:95-119 | Hanging all records on the way from x below the root changes no representative and no size |
| UnionFind.LinkAll | Robot/apriltags/common/unionfind.h:139-155 | Hanging the smaller root below the larger merges the two classes and keeps all sizes exact |
| UnionFind.MergeAddsPair | Robot/apriltags/common/unionfind.h:124-156 | Merging the classes of a and b adds exactly the pair (a, b) to the closure |
| UnionFind.PathSharesRep | Robot/apriltags/common/unionfind.h:124-156 | Ends of a chain of connected pairs share a representative |
| UnionFind.RelatedIsLeast | Robot/apriltags/common/unionfind.h:124-156 | Being related is the least equivalence that contains the connected pairs |
| Segmentation.DoUnionfindLine | Robot/apriltags/apriltag_quad_thresh.c:1095-1116 | One row connects exactly the neighbour pairs that start in it |
| Segmentation.LabelSequential | Robot/apriltags/apriltag_quad_thresh.c:1526-1531 | Two pixels get the same label exactly if a path of neighbouring equal pixels joins them, diagonals counting for white only |
| Segmentation.ScanFindsComponents | Robot/apriltags/apriltag_quad_thresh.c:1095-1116 | The closure of the scanned pairs is the connected-component relation |
| Segmentation.RunTasks | Robot/apriltags/apriltag_quad_thresh.c:1119-1126 | The tasks together connect exactly the pairs of their rows |
| Segmentation.MakeTasks | Robot/apriltags/apriltag_quad_thresh.c:1533-1555 | The tasks are the chunks, in order, all within the image |
| Segmentation.Stitch | Robot/apriltags/apriltag_quad_thresh.c:1559-1562 | Stitching scans the last row of every task but the last |
| Segmentation.LabelChunked | Robot/apriltags/apriltag_quad_thresh.c:1526-1562 | Chunked labelling connects exactly the pairs of the task rows and the stitched rows, for the chunk size of ten tasks per thread; if it does not divide h - 1, two pixels get the same label exactly if they lie in one component |
| Segmentation.ChunkSize | Robot/apriltags/apriltag_quad_thresh.c:1533-1534 | Ten chunks per thread have more rows than there are, and with one row less per chunk they have not |
| Segmentation.ChunkedTableLabels | Robot/apriltags/apriltag_quad_thresh.c:1526-1562 | Any table of those pairs labels the components if the chunk size does not divide h - 1 |
| Segmentation.ChunkedLabelsComponents | Robot/apriltags/apriltag_quad_thresh.c:1526-1562 | For all images of a size the chunked pairs give the components if and only if the chunk size does not divide h - 1 |
| Segmentation.RowsCovered | Robot/apriltags/apriltag_quad_thresh.c:1539-1562 | Task rows and stitched rows are disjoint and cover all rows, except that the last row is missing exactly if the chunk size divides h - 1 |
| Segmentation.TasksTouchDisjointRows | Robot/apriltags/apriltag_quad_thresh.c:1540-1546 | Whatever some tasks have connected, related pixels lie in one chunk |
| SteppedConnect.StepConfined | Robot/apriltags/common/unionfind.h:95-156 | One access of a thread in the middle of a lookup or a connect reads and writes a record of its own part only, and leads nowhere else |
| SteppedConnect.StepLocal | Robot/apriltags/common/unionfind.h:95-156 | What such an access does depends on no other record |
| SteppedConnect.ConnectReaches | Robot/apriltags/common/unionfind.h:95-156 | Access by access, a thread alone connects its next pair: the table stands for one pair more, and is the very one that Sets.Connect leaves |
| SteppedConnect.AllReaches | Robot/apriltags/common/unionfind.h:95-156 | A thread alone connects all its pairs, within ten accesses per record and ten more for each pair |
| Interleaving.EachAsAlone | Robot/apriltags/apriltag_quad_thresh.c:1119-1126 | However the accesses of threads with disjoint parts interleave, each thread and its part are where they would be without the others; records of no part stay as they were |
| Interleaving.SameEnd | Robot/apriltags/apriltag_quad_thresh.c:1548-1557 | All complete interleavings end with the same table |
| Interleaving.AnyInterleavingConnects | Robot/apriltags/apriltag_quad_thresh.c:1548-1557 | After any complete interleaving the table stands for the pairs of all threads |
| Interleaving.EnoughTurns | Robot/apriltags/apriltag_quad_thresh.c:1548-1557 | A schedule that gives each thread as many turns as it needs alone at most is complete, however the turns are mixed |
| Interleaving.TasksInterleave | Robot/apriltags/apriltag_quad_thresh.c:1533-1557 | For the tasks of an image, interleaved access by access in any way: if the schedule is complete the table in the end stands for exactly the pairs of the task rows |
| Interleaving.TasksFinish | Robot/apriltags/apriltag_quad_thresh.c:1533-1557 | Every schedule that gives each task ten turns per record and ten more for each pair of its rows is complete, and ends with that table |
| Segmentation.ChunkedMatchesSequential | Robot/apriltags/apriltag_quad_thresh.c:1528-1562 | Chunked and sequential labelling give the same partition for every image of a size if and only if the chunk size does not divide h - 1 |
| TagCode.Rotate90 | Robot/apriltags/apriltag.c:133-149 | The shift loop computes the rotated grid |
| TagCode.RotatedCell | Robot/apriltags/apriltag.c:133-149 | Cell (r, c) of the result is cell (d-1-c, r) of the argument |
| TagCode.FourTurns | Robot/apriltags/apriltag.c:133-149 | Four quarter turns are the identity, for every d |
| TagCode.RotationKeepsDistance | Robot/apriltags/apriltag.c:133-149 | A quarter turn keeps the Hamming distance of any two words |
| TagDecoder.QuickDecode.Add | Robot/apriltags/apriltag.c:172-183 | Adds one entry and keeps every earlier one reachable |
| TagDecoder.QuickDecode.Find | Robot/apriltags/apriltag.c:296-305 | The probe ends at an entry for the word or at a free slot |
| TagDecoder.QuickDecode.AddCode | Robot/apriltags/apriltag.c:229-259 | For one code: exactly the words that one, two or three flips of distinct bits make of it are added, up to maxhamming of them, and three for more, with their distances |
| TagDecoder.QuickDecodeInit | Robot/apriltags/apriltag.c:196-286 | For every family: the slots hold exactly the words within maxhamming bits of a code, with their distances, but for the word that marks free slots; for a maxhamming above three, those within three; the table has three slots for each code and each ordered choice of bits to flip |
| TagDecoder.AddedIsBall | Robot/apriltags/apriltag.c:232-254 | Flipping up to t ordered bits gives exactly the words within distance t, at their exact distance |
| TagDecoder.LookupExact | Robot/apriltags/apriltag.c:296-305 | A probe finds an added entry for the word if there is one, and otherwise a free slot |
| TagDecoder.ProbeFindsNear | Robot/apriltags/apriltag.c:296-305 | A probe succeeds if and only if the word is within t bits of a code and not the marker |
| TagDecoder.QuickDecodeCodeword | Robot/apriltags/apriltag.c:289-314 | Returns the first of the four turns that the table can find with the entry for it; its distance is below 255 if and only if one of the turns is within t bits of a code and not the marker, and otherwise it is 255 and the id 65535 |
| TagDecoder.NearUnique | Robot/apriltags/apriltag.c:289-314 | With codes more than 2t apart, the code within t bits is unique |
| TagDecoder.DecodesTurnedCode | Robot/apriltags/apriltag.c:289-314 | A code turned k times with at most t bits flipped decodes to its id, the exact flip count, and the missing turns, unless the word is the marker, which never decodes |
| TagDecoder.MarkerFarSmall | Robot/apriltags/apriltag.c:226-227 | Up to d = 7 no word can be confused with the free-slot marker |
| TagDecoder.AllFoundIffMarkerFar | Robot/apriltags/apriltag.c:226-227 | Every word near a code can be found if and only if the marker is near no code |
| TagDecoder.MarkerTurns | Robot/apriltags/apriltag.c:289-307 | No other word turns into the marker, in up to four turns |
| TagDecoder.MarkerNeverDecodes | Robot/apriltags/apriltag.c:289-314 | The word of 64 ones gets the entry with id 65535 and distance 255, whatever the family |
| TagDecoder.AllWhiteLost | Robot/apriltags/apriltag.c:226-227 | A family of 64 bits for which the marker is not far: its only code does not decode |
| TagImage.ToImage | Robot/apriltags/apriltag.c:1505-1534 | The picture shows white ring, black border and the cells of the code, every pixel determined |
| TagImage.Sample | Robot/apriltags/apriltag.c:681-718 | For any projection and any threshold per position: the cells that show white in the image are packed into one word in row order; a sample outside the image is not white |
| TagImage.SampleCell | Robot/apriltags/apriltag.c:682-715 | One sample: the pixel that the middle of the cell is projected to, each coordinate cut off towards zero, against the level at the middle of the cell; outside the image it is not white |
| TagImage.MiddleIsPosition | Robot/apriltags/apriltag.c:685-690 | The tag coordinate computed for column k is the middle of column blackBorder + k of 2 * blackBorder + d between -1 and 1 |
| TagImage.DrawnIsShown | Robot/apriltags/apriltag.c:685-707 | A picture seen straight on shows the cells whose pixel is above the level at the middle of that cell, however the level varies over the tag |
| TagImage.SampledCode | Robot/apriltags/apriltag.c:1523-1531 | Drawing a code and sampling it in the order of the decoder gives the code back |
| TagImage.SampledTurn | Robot/apriltags/apriltag.c:681-718 | Turning the picture is rotating the sampled word |
| TagImage.FlipsAreDistance | Robot/apriltags/apriltag.c:681-718 | The number of differing cells is the Hamming distance of the sampled words |
| TagImage.PictureDecodes | Robot/apriltags/apriltag.c:681-720 | A drawn code, turned and with at most t flipped cells, decodes to its id, flip count and missing turns, unless it shows 64 white cells |
| TagImage.ReadTag | Robot/apriltags/apriltag.c:681-720 | The same for the sampled image, through the decode table, for any projection and threshold |
| TagImage.DrawAndRead | Robot/apriltags/apriltag.c:1505-1534 | Drawing a code and reading the picture back gives its id, no flips and no turn |
| Plu.Factor | Robot/apriltags/common/matd.c:1501-1578 | The factors in place reproduce every column of any square matrix, singular or not; pivsign is the sign of the permutation; no multiplier exceeds one; singular is set exactly if some pivot is below the tolerance |
| Plu.PluIsFactorisation | Robot/apriltags/common/matd.c:1601-1642 | A = P * (L * U) for every square matrix |
| Plu.MakeP | Robot/apriltags/common/matd.c:1601-1611 | The permutation matrix of piv |
| Plu.MakeL | Robot/apriltags/common/matd.c:1613-1627 | The unit lower factor |
| Plu.MakeU | Robot/apriltags/common/matd.c:1629-1642 | The upper factor |
| Plu.FactorInto | Robot/apriltags/common/matd.c:1501-1642 | The three matrices built from the factorisation multiply to the matrix |
| Plu.FindPivot | Robot/apriltags/common/matd.c:1527-1535 | The first row from j on whose entry in column j has the largest absolute value |
| Plu.FactorColumn | Robot/apriltags/common/matd.c:1515-1571 | One column step extends the product identity to column j; the sign flips exactly if rows were swapped |
| Plu.ReduceEntry | Robot/apriltags/common/matd.c:1516-1525 | Subtracting one dot product settles one more entry of the column |
| Plu.SwapKeeps | Robot/apriltags/common/matd.c:1537-1547 | Swapping whole rows together with piv keeps the product identity |
| Plu.ScaleKeeps | Robot/apriltags/common/matd.c:1566-1570 | Dividing by the pivot completes the column; a zero pivot means the column below is zero |
| Parity.SwapFlipsSign | Robot/apriltags/common/matd.c:1543-1546 | Exchanging any two entries of a permutation changes the parity of its inversions |
| Plu.SolveLower | Robot/apriltags/common/matd.c:1656-1663 | Forward substitution ends with L * y equal to the permuted right-hand side |
| Plu.SolveUpper | Robot/apriltags/common/matd.c:1665-1676 | Back substitution ends with U * x = y if no pivot is zero |
| Plu.Solve | Robot/apriltags/common/matd.c:1648-1679 | If no pivot is zero the result x satisfies A * x = b |
| Plu.SolutionSolves | Robot/apriltags/common/matd.c:1644-1654 | The permutation and the two substitutions together solve A * x = b |
| Plu.SolutionsUnique | Robot/apriltags/common/matd.c:1648-1679 | With non-zero pivots the solution is unique |
| Plu.InverseByFactors | Robot/apriltags/common/matd.c:527-540 | Null is returned for every singular matrix, and only for matrices that differ by less than the tolerance in every entry from a singular one; otherwise the result is a two-sided inverse. The ghosts g and piv are the pivoted factorisation of the run, and null means exactly that g has a tiny pivot |
| Plu.RightInverseIsLeft | Robot/apriltags/common/matd.c:527-540 | A * X = I implies X * A = I |
| Plu.Inverse | Robot/apriltags/common/matd.c:485-544 | In every dimension a result is a two-sided inverse; dimensions one and two fail exactly on a zero determinant; higher ones fail on every singular matrix, and only within the tolerance of one |
| Plu.TinyPivotNearSingular | Robot/apriltags/common/matd.c:1501-1578 | A factorisation with partial pivoting and a tiny pivot is one of a matrix within the tolerance, entry by entry, of a singular one |
| Plu.InverseNotSingular | Robot/apriltags/common/matd.c:485-544 | A matrix with an inverse is not singular: no vector but zero is mapped to zero |
| Plu.TinyButRegular | Robot/apriltags/common/matd.c:485-544 | A diagonal matrix with a first entry below the tolerance, such as diag(1e-9, 1, 1), has an inverse, and every pivoted factorisation of it a tiny pivot: it gets null |
| Plu.InverseOfTwo | Robot/apriltags/common/matd.c:512-525 | Two by two: fails exactly on a zero determinant, otherwise the two-sided inverse |
| Matrix.MulAssoc | Robot/apriltags/common/matd.c:1644-1647 | Matrix products associate, which the chain from P*L*U*x to b needs |
| BitReader.BitDecoder.Ensure | Robot/apriltags/common/pjpeg.c:168-193 | For every request whose bits still fit the window: refilling keeps the low bits of the window equal to the next bits of the unstuffed stream, ones after its end, and fetches no byte more than needed |
| BitReader.BitDecoder.PeekBits | Robot/apriltags/common/pjpeg.c:195-200 | The next n bits of the stream, nothing consumed, for every request the window can serve |
| BitReader.BitDecoder.ConsumeBits | Robot/apriltags/common/pjpeg.c:202-213 | The next n bits of the stream, and the position moves by n, for every request the window can serve |
| BitReader.UnstuffStuffed | Robot/apriltags/common/pjpeg.c:180-187 | Unstuffing a stuffed byte string gives it back, whatever follows |
| BitReader.RefillExact | Robot/apriltags/common/pjpeg.c:168-193 | From a given number of valid bits, no valid bit is lost exactly if the bits held after the refill fit the window |
| BitReader.RefillLimit | Robot/apriltags/common/pjpeg.c:160-193 | From every number of valid bits, that is so exactly if at most 25 bits are asked for |
| Huffman.Expand | Robot/apriltags/common/pjpeg.c:393-426 | Succeeds exactly if the blocks of all codes leave the all-ones word free; then the lookup agrees with the bit-serial DECODE procedure on every 16-bit word |
| Huffman.FillBlock | Robot/apriltags/common/pjpeg.c:419-423 | Fills the block of one code and nothing else |
| Huffman.StartIsCode | Robot/apriltags/common/pjpeg.c:404-424 | The block of a code begins with the code word of Annex C followed by zeros |
| Huffman.DecodeInBlock | Robot/apriltags/common/pjpeg.c:404-424 | On every word of a block DECODE stops at the length of that code, with that code |
| Huffman.DecodeBeyond | Robot/apriltags/common/pjpeg.c:404-424 | Words beyond the blocks are decoded at no length |
| Huffman.FilledAgrees | Robot/apriltags/common/pjpeg.c:404-424 | A table filled block by block is the table of DECODE |
| Huffman.AllOnesUnused | Robot/apriltags/common/pjpeg.c:416-417 | Under the overflow check no code consists of ones only |
| JpegBlock.ExtendInverts | Robot/apriltags/common/pjpeg.c:587-592 | Sign extension of the additional bits gives the value back, for every value |
| JpegBlock.ExtendAscends | Robot/apriltags/common/pjpeg.c:587-592 | The additional bits number the values of a category in ascending order, negative ones first, and their magnitudes have as many binary digits as the category |
| JpegBlock.LookupSymbol | Robot/apriltags/common/pjpeg.c:583-585 | A window that begins with the code of a symbol looks up that symbol and its length, whatever bits follow |
| JpegBlock.ReadItem | Robot/apriltags/common/pjpeg.c:583-592 | A coded symbol with its additional bits is read back as that symbol and value |
| JpegBlock.AcRoundTrip | Robot/apriltags/common/pjpeg.c:598-624 | The AC loop reads back run lengths, ZRL and EOB coefficient for coefficient, from any point of the block |
| JpegBlock.BlockRoundTrip | Robot/apriltags/common/pjpeg.c:581-624 | A block coded as in F.1.2.1 and F.1.2.2 is read back exactly and reading stops at its end |
| JpegBlock.ScanRoundTrip | Robot/apriltags/common/pjpeg.c:581-624 | The same for a sequence of blocks with differential DC |
| JpegBlock.StuffedRoundTrip | Robot/apriltags/common/pjpeg.c:168-193 | From blocks to padded, stuffed bytes and back, whatever follows the scan |
| JpegBlock.DecodeBlock | Robot/apriltags/common/pjpeg.c:569-624 | The loop over the bit reader computes the decoding function on the unstuffed stream; it reports an index beyond the block, which JpegStreams.InsideIffNoOverrun excludes |
| JpegBlock.DecodeAc | Robot/apriltags/common/pjpeg.c:598-624 | The AC loop computes the decoding function, position and coefficients included, and leaves coefficient 0 alone |
| JpegBlock.DecodeScan | Robot/apriltags/common/pjpeg.c:566-624 | Successive blocks, each predicted from the one before |
| JpegStreams.StaysInside | Robot/apriltags/common/pjpeg.c:600-623 | If no sequence of symbols of the table leads from coefficient c beyond coefficient 63, no stream does, whatever it holds |
| JpegStreams.OverrunRead | Robot/apriltags/common/pjpeg.c:600-623 | A stream that encodes such a sequence is read past the end of the block |
| JpegStreams.InsideIffNoOverrun | Robot/apriltags/common/pjpeg.c:600-623 | For usable tables, the AC table defined once: no byte stream makes the decoder leave the block if and only if no sequence of steps over the symbols, run length plus one each, jumps from 1 over 64 |
| JpegStreams.FourRunsOverrun | Robot/apriltags/common/pjpeg.c:611-622 | A table with the symbol for sixteen zeros does not meet that: four of them lead to coefficient 64, and the stream is given |
| JpegStreams.DefineTable | Robot/apriltags/common/pjpeg.c:393-426 | Filling a table that starts with zeros: succeeds exactly if the codes fit, and the result is what the theorems on streams ask of a table |
| JpegStreams.DecodeFile | Robot/apriltags/common/pjpeg.c:393-624 | From the code counts and symbols of two tables to the blocks of a scan: the blocks come back for every encodable scan and every tail; if the tables are safe, every input decodes inside the blocks |
| WorkerPool.StepKeepsInv | Robot/apriltags/common/workerpool.c:67-101 | From a run that began after all workers had reported the end of the list, every step of every thread keeps mutual exclusion and the task accounting |
| WorkerPool.StepKeepsSound | Robot/apriltags/common/workerpool.c:67-101 | From any entry, every step until the call returns keeps what NoDeadlock and RunTerminates need |
| WorkerPool.NoDeadlock | Robot/apriltags/common/workerpool.c:67-101 | From any entry, until workerpool_run returns some thread can move |
| WorkerPool.EntriesReached | Robot/apriltags/common/workerpool.c:103-169 | A pool just created is an entry, and adding tasks and steps of the workers, in any order, lead from entries to entries |
| WorkerPool.EachTaskRunsExactlyOnce | Robot/apriltags/common/workerpool.c:183-205 | On every run that began after all workers had reported the end of the list no task is called twice; on return every task has been called once and every worker is parked |
| WorkerPool.RunTerminates | Robot/apriltags/common/workerpool.c:183-205 | From any entry, before workerpool_run returns a run has at most 22 states per worker, 10 per task and 11 more, and is not stuck |
| WorkerPool.StuckWhenReturned | Robot/apriltags/common/workerpool.c:183-205 | If all workers had reported the end at entry, a run is over exactly when the call has returned |
| WorkerPool.SafeEntries | Robot/apriltags/common/workerpool.c:103-205 | For every number of workers and tasks and every entry: every run returns with all tasks called once and all workers parked if and only if all workers have reported the end of the list at entry |
| WorkerPool.FinishingEntries | Robot/apriltags/common/workerpool.c:103-205 | For every entry: every run returns with all tasks returned if and only if they had all returned before, or at most one worker has not reported the end and none is about to although tasks are left |
| WorkerPool.UnparkedEntryFails | Robot/apriltags/common/workerpool.c:67-205 | With one worker that has not reported the end, and for any worker, there is a run that returns while that one is not parked |
| WorkerPool.TwoUnparkedFail | Robot/apriltags/common/workerpool.c:67-205 | With two such workers and a task that has not returned there is a run that returns before some task has |
| WorkerPool.HastyFails | Robot/apriltags/common/workerpool.c:67-205 | With a worker about to report the end although tasks have been added since it looked, there is such a run as well |
| WorkerPool.FreshPoolReturnsEarly | Robot/apriltags/common/workerpool.c:103-205 | Two workers, one task, a pool just created: the schedule in which the call returns while the task is still running, without a spurious wake-up |
| WorkerPool.ReadyForNextRun | Robot/apriltags/common/workerpool.c:183-205 | After a run that began after all workers had reported the end, all are parked, and the pool is an entry of that kind for the next one, with any tasks |
| WorkerPool.SpuriousWakeReturnsEarly | Robot/apriltags/common/workerpool.c:77-84 | Even with all workers parked at entry: a schedule with one spurious wake-up in which the call returns while its only task has not finished |
| Cobs.EncodeCOBS | Robot/include/Packet.h:93-115 | The buffer holds the pieces up to the last zero, the tail as it was and a final zero; nothing beyond is touched; the loop makes as many turns as LoopEnds counts |
| Cobs.DecodeCOBS | Robot/include/Packet.h:117-148 | The in-place loop is the decoding function, length included |
| Cobs.DecodedBytes | Robot/include/Packet.h:117-148 | Whatever the buffer holds: decoding goes up to the first zero behind the first byte, or to two bytes before the end; up to there each byte becomes the one behind it or zero, and beyond nothing changes |
| Cobs.EncodedHasOneZero | Robot/include/Packet.h:93-115 | The only zero of an encoded message is its last byte |
| Cobs.EncodedAt | Robot/include/Packet.h:93-115 | Byte by byte: a byte that is not zero stands one place further on; the first byte and each one in the place behind a zero say how far it is to the next zero of the message or to its end |
| Cobs.RoundTrip | Robot/include/Packet.h:93-148 | Decoding a buffer that starts with an encoded message restores it and returns its length |
| Cobs.ComesBackExactly | Robot/include/Packet.h:93-148 | For each message and each byte x found after it: the message comes back if and only if x is zero, or the message is empty or ends with a zero, or what follows its last zero consists of x only and the section length read from x reaches beyond the message |
| Cobs.TerminatorNeeded | Robot/include/Packet.h:93-148 | So all messages of length n come back if and only if the byte after the message was zero or n is zero |
| Cobs.LoopEnds | Robot/include/Packet.h:98-112 | Turn by turn over the buffer, the section start and the byte counter: the encoding loop ends if and only if the length is below 255, whatever the buffer holds |
| Packets.ReadPacketHeader | Robot/include/Packet.h:155-174 | Short buffers are rejected unchanged; otherwise decodes in place and accepts exactly if the decoded message begins with 0xAB and ends with 0x7F, with the opcode, the length and the payload, if any, of the message |
| Packets.FrameAccepted | Robot/include/Packet.h:155-174 | A framed message of 4 to 253 bytes is accepted if and only if its first byte is 0xAB and its last is 0x7F |
| Packets.FrameArrives | Robot/include/Packet.h:155-174 | Then it is accepted with its opcode, length and payload |
| Packets.CreateNoPayloadPacket | Robot/include/Packet.h:177-187 | Refuses short buffers unchanged; otherwise the framed four bytes |
| Packets.CreateDrivePacket | Robot/include/Packet.h:244-260 | Refuses short buffers unchanged; otherwise the framed fields of the payload; the bytes written stay within the length passed if and only if the length is neither 9 nor 10 |
| Packets.CreateSetQualityCameraPacket | Robot/include/Packet.h:262-274 | Refuses short buffers unchanged; otherwise the framed quality; the bytes written stay within the length passed if and only if the length is neither 5 nor 6 |
| Packets.CreateSetCameraLocationPacket | Robot/include/Packet.h:276-289 | Refuses short buffers unchanged; otherwise the framed fields of the payload; the bytes written stay within the length passed if and only if the length is neither 6 nor 7 |
| Packets.CreateReportLocationPacket | Robot/include/Packet.h:291-314 | Refuses short buffers unchanged; otherwise the framed fields of the payload with the heading clamped, followed by the byte that was left in the buffer, as no end byte is written |
| Packets.CreateReportEncoderPacket | Robot/include/Packet.h:316-343 | The same for six encoder values |
| Packets.NoPayloadArrives | Robot/include/Packet.h:155-187 | A created packet without payload is accepted with its opcode |
| Packets.DriveArrives | Robot/include/Packet.h:244-260 | A created drive packet is accepted and parses to the original signed fields |
| Packets.QualityArrives | Robot/include/Packet.h:383-389 | A created quality packet is accepted and parses to the original quality |
| Packets.CameraLocationArrives | Robot/include/Packet.h:391-398 | A created camera location packet is accepted and parses to the original fields |
| Packets.LocationArrives | Robot/include/Packet.h:155-174 | A created location packet is accepted if and only if the byte left in the buffer was the end byte, and then parses to the original fields, a heading above 180 as 180 and one below -180 as -180 |
| Packets.EncoderArrives | Robot/include/Packet.h:155-174 | A created encoder packet is accepted if and only if the byte left in the buffer was the end byte, and then parses to the original fields |
| Packets.WordArrives | Robot/include/Packet.h:300-306 | A signed word is sent high byte first and read back |
| Packets.UnendedRejected | Robot/include/Packet.h:155-174 | A frame whose message does not end with the end byte is rejected |
| Winding.ContainsPoint | Robot/apriltags/common/g2d.c:321-410 | For a point on no edge: inside exactly if the winding number, counted by signed crossings of the rightward ray, is not zero |
| Winding.CountEdge | Robot/apriltags/common/g2d.c:355-397 | The contribution of one edge to the accumulator |
| Winding.EdgeTurns | Robot/apriltags/common/g2d.c:349-397 | The quarter turns of an edge are the change of quadrant plus four times its signed crossing |
| Winding.SumTurns | Robot/apriltags/common/g2d.c:332-400 | The accumulator along a chain of edges telescopes to quadrants plus four times the crossings |
| Winding.QuartersAreWinding | Robot/apriltags/common/g2d.c:332-402 | Around the polygon the accumulator is exactly four times the winding number |
| ConvexHull.FindLeft | Robot/apriltags/common/g2d.c:197-209 | The first of the leftmost points |
| ConvexHull.FindNext | Robot/apriltags/common/g2d.c:226-263 | From a point on the outline the search finds an edge of the hull if and only if it is not stuck: stuck means that the entry looked at first lies behind on the bounding line and all entries ahead come before all entries off the line |
| HullWalk.SearchExact | Robot/apriltags/common/g2d.c:226-263 | The same for the search as a function, and the entry found does not lie behind |
| HullOrder.WalkExact | Robot/apriltags/common/g2d.c:223-290 | For points not all on one line and distinct on the outline: the walk returns to its start along edges of the hull if and only if no bounding line has its front end at an entry behind two or more entries that all lie on that line and come first in the input |
| HullOrder.AroundNotBlocked | Robot/apriltags/common/g2d.c:223-290 | A walk that goes around shows that no line blocks |
| HullOrder.StuckBlocks | Robot/apriltags/common/g2d.c:223-263 | The first search that gets stuck shows a line that blocks: all entries up to its front end lie on it |
| ConvexHull.InnerFirstIsClear | Robot/apriltags/common/g2d.c:223-263 | No line blocks, for instance, if the first input point lies inside |
| HullWalk.TurnsOnce | Robot/apriltags/common/g2d.c:223-290 | The walk goes right below the points and left above them, and turns back only at the top of the left side |
| HullWalk.BackToStart | Robot/apriltags/common/g2d.c:265-267 | From the top of the left side the search finds the very entry the walk started from |
| ConvexHull.Hull | Robot/apriltags/common/g2d.c:190-293 | If the loop ends, the result is the polygon of its first return to the start. For points not all on one line and distinct on the outline: if no line blocks, it is a closed polygon of distinct input points with no input point to the right of any edge, whose vertices but the first and the last are corners; if a line blocks, some input point lies to the right of an edge. Two different points give such a polygon too. If no line that bounds the points holds a third entry, all other points are strictly to the left of each edge |
| ConvexHull.PolygonExact | Robot/apriltags/common/g2d.c:190-293 | The polygon of a first return encloses the points if no line blocks, and leaves a point outside if one does |
| ConvexHull.WrongPolygon | Robot/apriltags/common/g2d.c:223-290 | Whatever the walk does after a step that is no edge of the hull, the polygon returned leaves a point outside |
| ConvexHull.KeptOutline | Robot/apriltags/common/g2d.c:265-290 | Along edges of the hull the vertices kept form a convex outline |
| ConvexHull.ClearEnds | Robot/apriltags/common/g2d.c:223-290 | If no line blocks the loop ends |
| ConvexHull.Colinear | Robot/apriltags/common/g2d.c:269-281 | Whether the new point lies on the line of the last two |
| ConvexHull.OutlineGrows | Robot/apriltags/common/g2d.c:283-289 | Adding a vertex keeps the outline convex and along bounding lines |
| ConvexHull.OutlineMoves | Robot/apriltags/common/g2d.c:283-285 | So does overwriting the last vertex by one further along its edge |
| ConvexHull.OutlineDistinct | Robot/apriltags/common/g2d.c:265-289 | No vertex of the outline occurs twice |
| ConvexHull.SharpIsClear | Robot/apriltags/common/g2d.c:190-293 | If no bounding line holds a third entry no line blocks |
| ConvexHull.OutlineNeedsSharp | Robot/apriltags/common/g2d.c:190-293 | For distinct points that is exact for the strict promise: if a polygon with all other points strictly to the left of each edge exists, no bounding line holds a third entry |
| ConvexHull.GeneralIsSharp | Robot/apriltags/common/g2d.c:190-293 | No bounding line holds a third entry in particular if no two points are equal and no three on a line |
| ConvexHull.LineEnds | Robot/apriltags/common/g2d.c:223-290 | For points all on one line the loop ends if and only if the start is one of the first two entries |
| HullExamples.SquareFound | Robot/apriltags/common/g2d.c:223-290 | A square with the middle of a side as its last point: the walk goes from corner to corner |
| HullExamples.CornerMissed | Robot/apriltags/common/g2d.c:223-290 | A triangle with the middle of a side before one of its ends: the walk leaves that corner outside |
| HullExamples.CornerBlocks | Robot/apriltags/common/g2d.c:223-290 | In that triangle the side with the three points blocks |
| HullExamples.LastPointKept | Robot/apriltags/common/g2d.c:265-287 | Four points for which the last vertex lies on the line of its neighbours and is kept |
| HullExamples.ColinearPointsMissed | Robot/apriltags/common/g2d.c:234-287 | Three points on a line: in one order the far end is missed, in another the loop does not end |
| HullExamples.TwinsReturned | Robot/apriltags/common/g2d.c:223-290 | Two equal leftmost points that come first: the loop ends after two steps with these two, whatever the other points are |
| Reconcile.Prefer | Robot/apriltags/apriltag.c:1308-1318 | Keeps the first if it has fewer bit errors, then a larger margin, then more goodness, then corners that come before, and the second if these say so; the chained comparisons are the lexicographic order of the keys |
| Reconcile.KeysOrder | Robot/apriltags/apriltag.c:1308-1318 | The lexicographic order of the keys is that preference |
| Reconcile.Round | Robot/apriltags/apriltag.c:1286-1345 | One pass of the inner loop with swap-removal settles detection i0 or drops it |
| Reconcile.ReconcileDetections | Robot/apriltags/apriltag.c:1282-1349 | Terminates; no two survivors of equal id and family overlap; from each detection a chain of detections of equal id and family leads to a survivor, each overlapping the one before and at least as preferred; a detection better than every other of its id and family that it overlaps survives |
| Reconcile.ChainImproves | Robot/apriltags/apriltag.c:1305-1338 | Along a chain of defeats the tag stays the same and preference does not fall |
| Reconcile.SurvivorAtLeastAsGood | Robot/apriltags/apriltag.c:1282-1349 | Every detection has a survivor of the same tag that is at least as preferred |
| Reconcile.DropKeepsAccount | Robot/apriltags/apriltag.c:1326-1338 | Removing a loser while its winner stays keeps every detection accounted for |
| Reconcile.UnbeatenYieldsToNone | Robot/apriltags/apriltag.c:1305-1338 | A detection preferred to all it overlaps loses no comparison |

## Left out

- Sockets, serial port, image transfer, cameras, joystick, command line, user interface and logging: input and output.
- `quad_segment_maxima`, which the live call site uses instead of `quad_segment_agg`, and edge refinement, gray models, homographies, SVD and Cholesky: trigonometry, roots and floating-point tolerance.
- Rounding of floating-point numbers, and overflow of 32-bit sizes, counters and DC predictions: arithmetic is exact.
- Memory management: allocation failure, freeing, stack limits, null pointers, and the memory layout of entries (one array of entries stands for the parallel arrays of the heap).
- `matd_op`: its expression parser does not follow its documented precedence.
- `matd_t` scalars (matrices of zero rows) in `matd_inverse`, and the determinant of larger matrices.
- `zhash_copy`, `zhash_values` and the map functions repeat the iteration of `zhash_keys`; `thash` repeats `zhash`.
- JPEG markers, restart intervals, components other than one, zigzag reordering, dequantisation and the inverse DCT; the counts and symbols of a Huffman table are taken as already read.
- The sorting of contour points by angle.
- Thread creation and destruction of the worker pool and its single-threaded mode; adding a task is one step, although no lock protects it against a worker that reads the list.
- Weaker memory orders than sequential consistency, in the worker pool and between the tasks of the labelling.
- The decision margin that `quad_decode` returns, and the sampled picture it leaves for debugging.
- MaxHeap.ZMaxHeapIterator.Finish: after an incomplete iteration with removals the entries not yet visited are lost, as in the code.
- TagDecoder.QuickDecodeInit: the table size must stay within a 32-bit integer, as the code assumes.
- ConvexHull.Hull: the loop must end; for points that coincide on the outline, or all lie on one line, its contract says only which polygon is returned, and `LineEnds` and `TwinsReturned` what happens to some of them.
- JpegStreams.InsideIffNoOverrun: the table must be defined once, on zeros; a table defined again over another keeps the old entries beyond its codes, and for it only `StaysInside` applies.
- JpegBlock.DecodeBlock: it stops with a flag where the code would write outside the block.
- LineFit.FitLine: cosine, sine and arc tangent are parameters with their laws, because the C library is not modelled; the gradient weights are arbitrary positive numbers.
- WorkerPool.EachTaskRunsExactlyOnce: all workers have reported the end at entry and no wake-up is spurious, because the promise fails otherwise.
- Packets.CreateDrivePacket: the buffer must hold the eleven bytes written if the code's own test passes; what lies beyond a shorter buffer is not modelled. The same for the quality and camera location creators.
- Reconcile.ReconcileDetections: overlap of two outlines is an arbitrary relation on their corners.
- Cobs.EncodeCOBS: lengths up to 254, because the loop does not end at 255 (`Cobs.LoopEnds`).
- Cobs.ComesBackExactly: messages up to 253 bytes, because the decoder takes the encoded length, two more, as a byte. The same for `Cobs.RoundTrip`.
