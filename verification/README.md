# Ocamlnet: verified models of its low-level and concurrent parts

This project models ten pieces of Ocamlnet in Dafny and proves what they are for.

| modules | what they model |
|---|---|
| `Words`, `Values`, `ValueCopy`, `ValueGraph`, with `HashTable` and `RingQueue` | `netsys_init_value_1` and `netsys_copy_value`: copying an OCaml value, with its cycles and sharing, into a flat buffer |
| `Queens`, `QueensSearch`, `QueensCount`, `QueensShared`, `QueensReader`, `QueensSender`, `QueensMessages`, `QueensPipeline` | the n-queens programs: search, symmetry, and five ways of counting |
| `SpawnActions`, `SpawnTranslate` | the two interpreters of a list of descriptor actions in the spawn module |
| `ProcessPool` | the process pool of the JSERV connector |
| `WatchTable` | the table of watched subprocesses |
| `TlsTunnel` | the two-way TLS tunnel loop |
| `NotEvent` | notification events, over a pipe and over eventfd |
| `Utf8Slice` | the accelerated UTF-8 reader |
| `Chameneos` | the rendezvous game over camlboxes |
| `ManyMult` | the master/worker scheduler over camlboxes |
| `FiniteSets`, `Sequences` | definitions and counting lemmas used by several of these |

How the parts are built:

- C and OCaml code that updates things in place is a class or a method over arrays, and its
  contract ties the new state to a function of the old one. Results about whole inputs are
  lemmas about these functions.
- Concurrent programs are step relations. A run is any sequence of steps from an initial
  state, so every interleaving is covered. For each program there is an invariant kept by
  every step and a safety result for all runs. For the programs that are to end there is also
  a rank that every step lowers, and a proof that an unfinished state has a next step;
  together they say that every run ends, and how. The rank of the process pool starts with
  the shutdown, and its connection handlers are taken to return.
- The kernel, OpenSSL, `malloc`, camlboxes and hash functions appear as parameters or as
  steps of the environment with their usual contracts.

Where a property is not true of the code, the code is modelled as it is and the exact
condition is proved:

- A hash table that grows when it is more than half full keeps a free cell exactly when it
  starts with three cells or more (`HashTable.GrowthRule`); two adds fill a table of two
  cells (`HashTable.TwoCellsFill`). The program uses 256.
- `netsys_queue_size` is the number of elements exactly when the contents do not wrap around
  (`RingQueue.NQueue.Size`, `RingQueue.WrappedSize`). It only decides when storage is freed.
- After a copy the table that has grown is given back. The queue is given back only when it
  still holds more than 256 elements, which is not so after a copy that has succeeded
  (`ValueCopy.Copier.Unprepare`).
- The data pointer of a bigarray whose data is copied into the buffer is not moved with the
  other pointers. It is right exactly when the buffer stays where it was written
  (`ValueGraph.BigarrayData`, `ValueGraph.BigarrayNotMoved`).
- A pointer into a code range stays as it is exactly when it is not the root of the value
  (`ValueGraph.CodeField`): pass two looks every pointer up without looking at the ranges
  (`ValueGraph.CodeRootRedirected`).
- The posix_spawn translation of a single action agrees with the action, in the tables
  during the spawn and in what exec leaves, exactly under `Guard`
  (`SpawnTranslate.StepAgrees`). A dup2 onto the descriptor that the translation uses as a
  helper is translated rightly. Closing this descriptor is not, nor is using it as the
  source of a dup2 before it was taken over; neither is an ignoring close of a descriptor
  that is out of range, nor a dup2 of a close-on-exec descriptor onto itself
  (`SpawnTranslate.Disagreements`).
- The two-way split of `Shared_hashtable_2` and `Message_passing_2` does not split: for boards
  of size two or more everything goes to the first side (`QueensShared.NoSecondSide`).
- After the mode byte is set to 's' the pool can still accept one connection, exactly when
  a worker has read 'n' before and is about to accept (`ProcessPool.LateExactly`). The bound
  is reached (`ProcessPool.LateConnection`).
- The UTF-8 reader takes bytes 80 to BF for the first byte of a pair. What it accepts is the
  encoding of its result exactly when the first byte is not one of these
  (`Utf8Slice.AcceptedIsEncoding`, `Utf8Slice.TailAccepted`), and the same holds for a whole
  slice (`Utf8Slice.AcceptedSlice`). In Java mode its test for the null character has the two
  bytes in the wrong order, so a list is decoded exactly when it has no null character
  (`Utf8Slice.JavaDecodes`, `Utf8Slice.JavaNullRejected`).
- A call that watches a subprocess and cannot start the helper thread ends without closing
  the pipe it has made. The open pipe ends are those that atoms own and one for each such
  call (`WatchTable.Run`, `WatchTable.FailedWatch`).
- `killpg_subprocess` is documented to signal a group that still has a watched process. The
  code looks for a watched process of any group. It does what is documented exactly under
  `ProbeGuard` (`WatchTable.WatchList.KillGroupOf`); a run that leads to a signal for a group
  without members is `WatchTable.DeadGroupSignalled`.

## Model

| member | source | states |
|---|---|---|
| RingQueue.NQueue.constructor | src/netsys/netsys_c_queue.c:9-25 | a new queue is empty, for every size from one up |
| RingQueue.NQueue.Clear | src/netsys/netsys_c_queue.c:28-32 | the queue is empty and keeps its storage |
| RingQueue.NQueue.Grow | src/netsys/netsys_c_queue.c:52-84 | doubling keeps the elements and their order, from the wrapped and from the unwrapped layout |
| RingQueue.NQueue.Add | src/netsys/netsys_c_queue.c:44-90 | appends one element; one slot stays free, so that equal ends mean empty |
| RingQueue.NQueue.Take | src/netsys/netsys_c_queue.c:93-109 | removes the oldest element, and reports an empty queue exactly when there is none |
| RingQueue.NQueue.Size | src/netsys/netsys_c_queue.c:35-41 | the computed size is the number of elements if and only if the contents do not wrap around |
| RingQueue.WrappedSize | src/netsys/netsys_c_queue.c:35-41 | four operations after which two elements are counted as four |
| RingQueue.Run | src/netsys/netsys_c_queue.c:9-109 | for every initial size and every sequence of add, take and clear, each reply is that of a first-in first-out sequence |
| HashTable.GrowthRule | src/netsys/netsys_c_htab.c:118-131 | the growth test leaves a free cell after the next add if and only if there are at least three cells |
| HashTable.TwoCellsFill | src/netsys/netsys_c_htab.c:36-52 | two adds leave a table of two cells without a free cell, the growth test refusing both times, and no number of probes for another key then ends |
| HashTable.OneCellFills | src/netsys/netsys_c_htab.c:36-52 | the same for one add to a table of one cell, which is then full |
| HashTable.FirstFreeIs | src/netsys/netsys_c_htab.c:36-52 | the probe loop stops at the first free cell of the probe sequence, wraparound included |
| HashTable.StoppedAtFree | src/netsys/netsys_c_htab.c:134-154 | a probe that meets a free cell has shown that the key is absent, wraparound included |
| HashTable.PlacedAtFree | src/netsys/netsys_c_htab.c:36-52 | filling the first free cell of a probe sequence keeps every earlier key findable and adds one binding |
| HashTable.BindingsAreMap | src/netsys/netsys_c_htab.c:55-94 | collecting the cells in storage order gives back the map they represent |
| HashTable.Htab.constructor | src/netsys/netsys_c_htab.c:97-103 | a new table represents the empty map |
| HashTable.Htab.Clear | src/netsys/netsys_c_htab.c:106-115 | the table represents the empty map and keeps its storage |
| HashTable.Htab.Lookup | src/netsys/netsys_c_htab.c:134-154 | the bound value, or null exactly for absent keys; the loop ends for every hash function |
| HashTable.Htab.ProbeFree | src/netsys/netsys_c_htab.c:36-52 | the probe loop ends at the first free cell of the key's probe sequence |
| HashTable.Htab.Add1 | src/netsys/netsys_c_htab.c:36-52 | exactly one binding is added to the map, in the first free cell of its probe sequence |
| HashTable.Htab.Grow | src/netsys/netsys_c_htab.c:55-94 | rehashing into a larger array represents the same map |
| HashTable.Htab.Add | src/netsys/netsys_c_htab.c:118-131 | adds the binding, and doubles the cells exactly when more than half of them are used; null keys and values are refused and change nothing |
| HashTable.Run | src/netsys/netsys_c_htab.c:36-154 | for every hash function, every initial size from three up and every sequence of lookups, clears and adds of absent keys, each reply is that of a finite map |
| Values.HeaderParts | src/netsys/netsys_c_mem.c:1083-1119 | tag, colour and size are read back from the header word that was written |
| Values.Supported | src/netsys/netsys_c_mem.c:796-958 | which blocks are rejected, left in place or scanned, from the tag number, the size, the custom identifier and the flags alone |
| Values.ManagedBits | src/netsys/netsys_c_mem.c:1056-1064 | the flag word of a copied bigarray says who owns the data and keeps all other bits |
| Values.DataSize | src/netsys/netsys_c_mem.c:993-1008 | the data of a bigarray takes just as many words as its bytes need; the kind is the lowest byte of the flag word |
| Values.PointersAre | src/netsys/netsys_c_mem.c:847-875 | the pointers followed in a block are its fields that are block addresses outside the code ranges, whose upper ends do not belong to them |
| ValueCopy.InCodeRange | src/netsys/netsys_c_mem.c:852-864 | the search finds out whether a field lies in one of the listed code ranges |
| ValueCopy.Enqueue | src/netsys/netsys_c_mem.c:847-875 | appends to the queue the pointers of a block, in order |
| ValueCopy.BigarrayWords | src/netsys/netsys_c_mem.c:993-1008 | the loop over the dimensions yields the data size rounded up to words |
| ValueCopy.OutOfSpace | src/netsys/netsys_c_mem.c:823-835 | if the next block does not fit, the whole value does not fit |
| ValueCopy.LayDown | src/netsys/netsys_c_mem.c:960-1064 | writes one block and the skipped data of a bigarray and nothing else; refuses exactly when this does not fit, after at most the block itself has been written |
| ValueCopy.ProcessBlock | src/netsys/netsys_c_mem.c:796-1064 | buffer, table and allocated data go from describing `order` to describing `order` and this block; its pointers are queued |
| ValueCopy.Visit | src/netsys/netsys_c_mem.c:769-1073 | one round keeps the rest of the breadth-first walk the same, for blocks already copied, skipped, unsupported or new |
| ValueCopy.PassOne | src/netsys/netsys_c_mem.c:769-1073 | the loop ends; the result is that of the walk, the buffer is the image of the walk, or the value does not fit; nothing is written behind the image |
| ValueCopy.RoundHeader | src/netsys/netsys_c_mem.c:1089-1119 | the cursor of pass two always stands on a header that pass one laid down, including the skip header of bigarray data |
| ValueCopy.FixOne | src/netsys/netsys_c_mem.c:1089-1119 | one round redirects the fields of a scanned block, or skips an opaque block or skipped data, and moves on by the right distance |
| ValueCopy.FixInPlace | src/netsys/netsys_c_mem.c:1095-1112 | exactly the fields that are addresses of copied blocks are replaced |
| ValueCopy.PassTwo | src/netsys/netsys_c_mem.c:1083-1121 | the image of pass one becomes the redirected image; the rest of the buffer is unchanged |
| ValueCopy.InitValue1 | src/netsys/netsys_c_mem.c:669-1130 | for every heap, root and flags: the return code, the length, and the full contents of the buffer in terms of the walk; -4 is returned only when the value really does not fit |
| ValueCopy.SameWalk | src/netsys/netsys_c_mem.c:1369-1446 | counting and copying visit the same blocks in the same order |
| ValueCopy.SameSize | src/netsys/netsys_c_mem.c:1369-1446 | counting and copying need the same number of words |
| ValueCopy.CountAndCopy | src/netsys/netsys_c_mem.c:1369-1446 | the block sized by the counting run is filled exactly and the copying run never fails for lack of space |
| ValueCopy.Copier.Prepare | src/netsys/netsys_c_mem.c:1138-1187 | whatever an earlier call has left, the table and the queue are empty and valid afterwards; storage is kept, or new with 256 cells |
| ValueCopy.Copier.Unprepare | src/netsys/netsys_c_mem.c:1160-1195 | the table is given back exactly when it has more than 256 cells; the queue when more than 256 elements are left in it, so not when it has run empty |
| ValueCopy.Copier.CopyValue | src/netsys/netsys_c_mem.c:1339-1479 | immediate values and atoms are returned as they are; otherwise the result is that of the walk, with the exact contents of the new block; the table that is kept never has more than 256 cells |
| ValueCopy.CopyAll | src/netsys/netsys_c_mem.c:1339-1490 | over any sequence of calls that share the table and the queue, failing calls included, each call has the result it would have had alone |
| ValueGraph.WalkSound | src/netsys/netsys_c_mem.c:769-1073 | what is copied can be reached from the queue |
| ValueGraph.RejectSound | src/netsys/netsys_c_mem.c:769-1073 | a rejection has a reachable unsupported block as its cause |
| ValueGraph.WalkClosed | src/netsys/netsys_c_mem.c:769-1073 | the copied blocks are distinct and closed under following pointers |
| ValueGraph.CopiesReachable | src/netsys/netsys_c_mem.c:769-1073 | pass one rejects if and only if an unsupported block is reachable; otherwise it copies exactly the reachable blocks, each once, the root first, and leaves skipped atoms alone |
| ValueGraph.ParseImage | src/netsys/netsys_c_mem.c:1083-1121 | reading the buffer header by header from its start finds exactly the blocks of the walk |
| ValueGraph.ReloAt | src/netsys/netsys_c_mem.c:836-845 | the table maps each original to the place of its copy |
| ValueGraph.MovedDistinct | src/netsys/netsys_c_mem.c:836-845 | different originals have different copies |
| ValueGraph.FoundIsCopy | src/netsys/netsys_c_mem.c:1095-1112 | a redirected block has the tag and size of the original, and each field is the original one or its copy's address |
| ValueGraph.Isomorphic | src/netsys/netsys_c_mem.c:769-1125 | the relocated buffer is an isomorphic graph: one copy for each block, nothing else, and pointers follow the bijection |
| ValueGraph.ImageDescribed | src/netsys/netsys_c_mem.c:945-1112 | for every copied block, from its tag and identifier alone: fields of scanned blocks are redirected, strings and numbers equal, a custom block gets the operation table of the target for its identifier where there is one, and a bigarray its new data pointer, owner bits and no proxy |
| ValueGraph.CopyValueMeans | src/netsys/netsys_c_mem.c:1339-1479 | immediate values and atoms are their own copies; otherwise a call fails if and only if a block that it cannot copy is reachable; if not, there is one copy for each reachable block that is not an atom, nothing else, each as `ImageDescribed` says, and the result is the copy of the root |
| ValueGraph.CopyValueData | src/netsys/netsys_c_mem.c:1030-1056 | the data of each copied bigarray is in the memory that was allocated for it |
| ValueGraph.CopiesGraph | src/netsys/netsys_c_mem.c:669-1130 | both passes together: the buffer is isomorphic to the reachable part of the heap and starts with the root; of all addresses in code ranges only the root is in the table |
| ValueGraph.CodeNotReached | src/netsys/netsys_c_mem.c:847-875 | the walk enters no code range, except at the root |
| ValueGraph.CodeField | src/netsys/netsys_c_mem.c:1095-1112 | a copied pointer into a code range is unchanged, unless it is the root, which becomes the copy of the root |
| ValueGraph.CodeRootRedirected | src/netsys/netsys_c_mem.c:1095-1112 | a root inside a code range that points to itself is redirected |
| ValueGraph.SameObservations | src/netsys/netsys_c_mem.c:769-1125 | following any path of field numbers in the copy finds what it finds in the original, or its copy |
| ValueGraph.BigarrayData | src/netsys/netsys_c_mem.c:1005-1064 | bigarray data is found behind its block, and the data pointer leads there if and only if the buffer is not relocated |
| ValueGraph.BigarrayNotMoved | src/netsys/netsys_c_mem.c:1038-1056 | a relocated buffer in which the data pointer leads to the old place |
| ValueGraph.BigarrayExternal | src/netsys/netsys_c_mem.c:1009-1034 | bigarray data copied to fresh memory is complete and where the copied block points |
| Queens.RotateInto | examples/multicore/nqueens.ml:44-51 | the loop that fills a fresh array computes the rotation |
| Queens.RotAt | examples/multicore/nqueens.ml:44-51 | rotation moves the queen of column k and row r to column n-1-r and row k, both ways, and keeps rows distinct |
| Queens.RotFour | examples/multicore/nqueens.ml:44-51 | four rotations are the identity |
| Queens.MirrorTwice | examples/multicore/nqueens.ml:38-42 | mirroring twice is the identity |
| Queens.RotMirror | examples/multicore/nqueens.ml:38-51 | mirroring then rotating is rotating three times then mirroring |
| Queens.TransformationsClosed | examples/multicore/nqueens.ml:56-64 | the list of eight is closed under rotation and mirroring |
| Queens.TransformationsAreOrbit | examples/multicore/nqueens.ml:56-64 | the list holds exactly the boards that some sequence of rotations and mirrorings leads to |
| Queens.SameOrbit | examples/multicore/nqueens.ml:56-64 | two boards of the same list have the same list |
| Queens.BMinIsLeast | examples/multicore/nqueens.ml:166-171 | the representative is the least board of the list in the order of the comparison used |
| Queens.BMinCanonical | examples/multicore/nqueens.ml:161-171 | two boards have the same representative if and only if they are equivalent |
| Queens.BMinFirstHalf | examples/multicore/nqueens.ml:275-281 | the representative of a board of size two or more has its first queen in the first half of the rows |
| Queens.MirrorSolution | examples/multicore/nqueens.ml:38-42 | mirroring keeps queens from attacking each other |
| Queens.RotSolution | examples/multicore/nqueens.ml:44-51 | rotation keeps queens from attacking each other |
| Queens.SolutionByMoves | examples/multicore/nqueens.ml:91-112 | a board is a solution if and only if no queen can go to the place of another by a move of chess |
| Queens.OrbitOfSolution | examples/multicore/nqueens.ml:56-64 | all eight transformations of a solution are solutions |
| QueensSearch.MarksFree | examples/multicore/nqueens.ml:96-99 | the three marks are set if and only if no placed queen attacks the field |
| QueensSearch.MarksPut | examples/multicore/nqueens.ml:100-104 | clearing three marks accounts for the new queen |
| QueensSearch.Search | examples/multicore/nqueens.ml:91-112 | every call emits exactly the continuations of the placed queens and leaves the row and diagonal marks as it found them |
| QueensSearch.Try | examples/multicore/nqueens.ml:100-109 | putting a queen, searching on and taking it away restores the marks |
| QueensSearch.Solve | examples/multicore/nqueens.ml:75-119 | the run for one first queen emits the continuations of that queen, in order |
| QueensSearch.ExtensionsExact | examples/multicore/nqueens.ml:91-112 | a board is emitted if and only if it is a solution that continues the placed queens |
| QueensSearch.ExtensionsOnce | examples/multicore/nqueens.ml:91-112 | no board is emitted twice |
| QueensSearch.SolveExact | examples/multicore/nqueens.ml:75-119 | for every size and first row, exactly the solutions with that first queen are emitted, each once |
| QueensSearch.AllEmittedExact | examples/multicore/nqueens.ml:124-145 | the runs over all first rows emit every solution exactly once |
| QueensCount.SeenNew | examples/multicore/nqueens.ml:130-140 | the table of all transformations seen keeps eight bindings for each class, symmetric boards included |
| QueensCount.Collect | examples/multicore/nqueens.ml:127-141 | after any emitted boards the table stands for the classes of all boards seen |
| QueensCount.EightPerClass | examples/multicore/nqueens.ml:143 | an eighth of the number of bindings is the number of classes |
| QueensCount.Sequential | examples/multicore/nqueens.ml:124-145 | the sequential program prints the number of equivalence classes of solutions |
| QueensCount.JobsAreClasses | examples/multicore/nqueens.ml:161-187 | the workers together hand on exactly the representatives of the solutions |
| QueensCount.CountedAll | examples/multicore/nqueens.ml:338-350 | any table that holds each handed-on board once has as many entries as there are classes |
| QueensCount.ClassesCounted | examples/multicore/nqueens.ml:124-145 | the number that all programs report is the length of any list of pairwise inequivalent solutions that meets every class |
| QueensShared.StepInv | examples/multicore/nqueens.ml:161-187 | every step keeps mutual exclusion, fresh lookups and duplicate-free tables |
| QueensShared.NoDeadlock | examples/multicore/nqueens.ml:161-187 | while a worker is unfinished some worker can go on |
| QueensShared.SharedEnds | examples/multicore/nqueens.ml:161-187 | every run is finite, and one that cannot go on has all workers finished |
| QueensShared.FinishedTables | examples/multicore/nqueens.ml:265-292 | at the end the tables are disjoint and hold every board handed on, once |
| QueensShared.SharedCount | examples/multicore/nqueens.ml:338-350 | in every interleaving, one shared table or two, the count is the number of classes |
| QueensShared.NoSecondSide | examples/multicore/nqueens.ml:265-292 | no board that a worker hands on belongs to the second side, from size two on |
| QueensShared.SecondTableEmpty | examples/multicore/nqueens.ml:265-292 | in every run the second shared table is always empty, from size two on |
| QueensReader.ReadOk | examples/multicore/nqueens.ml:457-485 | every step of the receiving loop keeps: each message in one place, sender order, End last, the counter of missing Ends, and a table of exactly the boards looked at, each once |
| QueensReader.ReceiveOk | examples/multicore/nqueens.ml:413-433 | so does a message that arrives, at any moment, from a sender that has not sent End |
| QueensReader.AllEnded | examples/multicore/nqueens.ml:457-485 | the counter is zero exactly when the End of every sender is handled |
| QueensReader.NothingLeft | examples/multicore/nqueens.ml:457-485 | when the counter is zero no message is left in the box |
| QueensReader.FinishedTable | examples/multicore/nqueens.ml:457-494 | a finished reader holds exactly the boards that were sent to it, each once, and all senders have closed |
| QueensReader.ReaderProgress | examples/multicore/nqueens.ml:457-485 | a reader that has something to read can go on |
| QueensReader.OpenSender | examples/multicore/nqueens.ml:457-485 | a reader that waits for an End has a sender that is not done |
| QueensReader.ReadWork | examples/multicore/nqueens.ml:457-485 | every step of the loop uses up some of the work that is left |
| QueensSender.Put | examples/multicore/nqueens.ml:414-431 | batching loses no board and adds none |
| QueensSender.WorkerOne | examples/multicore/nqueens.ml:407-433 | the box receives exactly the boards of the worker in batches of bounded size, then one End |
| QueensSender.WorkerTwo | examples/multicore/nqueens.ml:550-611 | each of the two boxes receives exactly the boards of its side in batches of bounded size, then one End |
| QueensSender.NotClosed | examples/multicore/nqueens.ml:575-611 | a sender has closed a box exactly when it has nothing more to send there |
| QueensMessages.StepInv | examples/multicore/nqueens.ml:407-485 | every step of workers and collector keeps the invariant |
| QueensMessages.Progress | examples/multicore/nqueens.ml:407-485 | until everybody is done, the collector can go on or a worker can send |
| QueensMessages.MessagesEnd | examples/multicore/nqueens.ml:407-494 | every run is finite, and one that cannot go on has everybody done |
| QueensMessages.MessageCount | examples/multicore/nqueens.ml:407-494 | in every interleaving the message-passing program counts the classes |
| QueensMessages.BoxFits | examples/multicore/nqueens.ml:407-485 | in every run the camlbox has no more messages than slots |
| QueensPipeline.OutLook | examples/multicore/nqueens.ml:650-668 | what a collector has in its table is always sent on or in its current batch |
| QueensPipeline.StepInv | examples/multicore/nqueens.ml:550-775 | every step of workers, both collectors and the master collector keeps the invariant, while all of them run |
| QueensPipeline.CollectorTable | examples/multicore/nqueens.ml:617-676 | a finished collector has exactly the boards of its side |
| QueensPipeline.MainLast | examples/multicore/nqueens.ml:732-752 | when the master collector has finished, everybody has |
| QueensPipeline.Progress | examples/multicore/nqueens.ml:550-775 | no deadlock through the three bounded boxes: until everybody is done, somebody can go on |
| QueensPipeline.RankDecreases | examples/multicore/nqueens.ml:550-775 | every step lowers the rank |
| QueensPipeline.PipelineEnds | examples/multicore/nqueens.ml:550-775 | every run is finite, and one that cannot go on has everybody done |
| QueensPipeline.PipelineCount | examples/multicore/nqueens.ml:550-775 | in every interleaving of the two-stage program the master collector counts the classes |
| QueensPipeline.BoxesFit | examples/multicore/nqueens.ml:550-775 | in every run none of the three camlboxes has more messages than slots |
| QueensPipeline.SecondCollectorEmpty | examples/multicore/nqueens.ml:599-607 | in every finished run the second collector has received no board, from size two on |
| SpawnActions.Process.Dup | src/netsys/netsys_c_spawn.c:338-345 | the lowest free descriptor, not close-on-exec; fails exactly for a bad descriptor or a full table |
| SpawnActions.CloseAllExcept | src/netsys/netsys_c_spawn.c:318-327 | the loop over all descriptors does what the action says and spares the control pipe |
| SpawnActions.Perform | src/netsys/netsys_c_spawn.c:294-353 | after each action the table is the ideal table plus one close-on-exec entry that the ideal table does not use, also after relocation; EBADF exactly when the ideal action fails |
| SpawnActions.ForkExec | src/netsys/netsys_c_spawn.c:294-363 | for every action list the hidden pipe changes nothing: same failing action, and the same table after exec |
| SpawnActions.IdealMeans | src/netsys/netsys_c_spawn.c:294-353 | for every list and table, by looking back from the end: the first action that cannot be done is the one that fails, and afterwards a descriptor is open if and only if it was not closed, or not kept, since it got its file, and refers to this file |
| SpawnActions.ExecMeans | src/netsys/netsys_c_spawn.c:294-363 | the new program has just the descriptors whose file came from an open one of the parent, and was duplicated or had no close-on-exec flag |
| SpawnTranslate.AddExcept | src/netsys/netsys_c_spawn.c:714-737 | the loop lists a dup2 and a close for every descriptor to be closed and no call in it fails |
| SpawnTranslate.AddAction | src/netsys/netsys_c_spawn.c:681-752 | lists the translation of one action, and fails exactly when a descriptor is out of range |
| SpawnTranslate.AddActions | src/netsys/netsys_c_spawn.c:681-752 | lists the translation of all actions, or fails at the first that cannot be listed |
| SpawnTranslate.RunFileConcat | src/netsys/netsys_c_spawn.c:681-752 | performing listed actions is sequential |
| SpawnTranslate.CloseOneCloses | src/netsys/netsys_c_spawn.c:687-703 | dup2 then close closes a descriptor whether it was open or not |
| SpawnTranslate.CloseManyCloses | src/netsys/netsys_c_spawn.c:714-737 | the listed pairs close everything but the kept descriptors and the helper one |
| SpawnTranslate.StepAgrees | src/netsys/netsys_c_spawn.c:681-752 | translation and action agree if and only if `Guard` holds: for the tables during the spawn, and for both failing or both leaving the same descriptors after exec |
| SpawnTranslate.Disagreements | src/netsys/netsys_c_spawn.c:681-752 | one failing input of each kind that the guard shuts out |
| SpawnTranslate.SpawnAgrees | src/netsys/netsys_c_spawn.c:681-752 | for every guarded list, dup2 onto the helper included, both fail or both succeed with equal tables after exec |
| SpawnTranslate.PlainIsGuarded | src/netsys/netsys_c_spawn.c:562-568 | lists that do not name the helper descriptor, stay in range and have no dup2 onto itself are guarded, as the helper is a free descriptor |
| SpawnTranslate.TakingIsGuarded | src/netsys/netsys_c_spawn.c:738-748 | so are lists that duplicate onto the helper and do not close it |
| SpawnTranslate.SameAfterExec | src/netsys/netsys_c_spawn.c:294-353 | for every guarded list both implementations succeed together and give the new program the same descriptors |
| ProcessPool.StepInv | OBSOLETE/netcgi1/netcgi_jserv_app.ml:506-591 | every step of workers and master keeps the lock, pipe and late-connection invariants |
| ProcessPool.PoolSafe | OBSOLETE/netcgi1/netcgi_jserv_app.ml:506-703 | in every run at most one worker waits for a connection, at most one connection is accepted after 's', and the master leaves only when all workers have closed the pipe |
| ProcessPool.LateConnection | OBSOLETE/netcgi1/netcgi_jserv_app.ml:563-591 | a run that accepts a connection after 's' exists |
| ProcessPool.LateExactly | OBSOLETE/netcgi1/netcgi_jserv_app.ml:563-591 | once 's' is set, a further connection is possible if and only if some worker is about to accept |
| ProcessPool.RankDecreases | OBSOLETE/netcgi1/netcgi_jserv_app.ml:593-703 | once 's' is set it stays set and every step lowers the rank |
| ProcessPool.PoolProgress | OBSOLETE/netcgi1/netcgi_jserv_app.ml:593-703 | until the master has left, some process can take a step |
| ProcessPool.ShutdownCompletes | OBSOLETE/netcgi1/netcgi_jserv.ml:140-202 | after 's' every run is finite and ends with all workers gone and the master out of its loop |
| ProcessPool.MessagesKept | OBSOLETE/netcgi1/netcgi_jserv_app.ml:617-696 | in every run messages are read in the order in which they were written and none is lost |
| ProcessPool.StoppingExactly | OBSOLETE/netcgi1/netcgi_jserv_app.ml:680-696 | in every run the mode is 's' if and only if the master has read a shutdown request; a restart request changes nothing |
| ProcessPool.OnlyShutdownStops | OBSOLETE/netcgi1/netcgi_jserv_app.ml:563-696 | in a run whose handlers ask for no shutdown the mode is never 's' and no worker leaves its loop |
| ProcessPool.LateOnce | OBSOLETE/netcgi1/netcgi_jserv_app.ml:563-591 | in every run at most one connection is accepted after 's' |
| ProcessPool.AcceptingSince | OBSOLETE/netcgi1/netcgi_jserv_app.ml:563-591 | a worker about to accept has found a connection with its last select and has then read the mode once, which was not 's' |
| WatchTable.WatchList.constructor | src/netsys/netsys_c_subprocess.c:279-289 | a new table watches nothing |
| WatchTable.WatchList.FreeAtom | src/netsys/netsys_c_subprocess.c:401-436 | finds the first free atom, and doubles the list exactly when there is none; atoms keep their indices |
| WatchTable.WatchList.Watch | src/netsys/netsys_c_subprocess.c:341-480 | a new handle with the state the process has now; other atoms keep their contents; after the error of waitpid nothing stays open, after a failed delayed initialisation exactly one new pipe end does |
| WatchTable.WatchList.Ignore | src/netsys/netsys_c_subprocess.c:483-503 | the pipe end is closed if the atom still owns one, and only then |
| WatchTable.WatchList.Forget | src/netsys/netsys_c_subprocess.c:506-526 | the atom is freed and its pipe end, if any, closed |
| WatchTable.WatchList.Status | src/netsys/netsys_c_subprocess.c:534-576 | the status of a handle is known exactly when its process is no longer pending |
| WatchTable.WatchList.Kill | src/netsys/netsys_c_subprocess.c:579-602 | one signal to the child, or none if it has terminated; never to a reaped process |
| WatchTable.WatchList.KillAll | src/netsys/netsys_c_subprocess.c:642-677 | exactly the watched, unreaped processes that the two flags select are signalled, once each and in table order |
| WatchTable.WatchList.SigchldProcess | src/netsys/netsys_c_subprocess.c:105-146 | a pending atom whose process is a zombie becomes terminated with the status of the zombie, and is freed if it is ignored; no other atom changes, and exactly these processes are reaped |
| WatchTable.WatchList.KillGroups | src/netsys/netsys_c_subprocess.c:680-718 | exactly one signal for each positive group of a watched, unreaped process that the flag selects, and none for any other |
| WatchTable.WatchList.KillGroupOf | src/netsys/netsys_c_subprocess.c:605-639 | signals the group when any atom is pending; this is what is documented if and only if the handle has no group, or its process has not ended, or no other watched process is left, or one of the others is in the group |
| WatchTable.ProbeExact | src/netsys/netsys_c_subprocess.c:621-629 | for a handle in use: its own process being there suffices, and otherwise the probe is right exactly under the guard |
| WatchTable.DeadGroupSignalled | src/netsys/netsys_posix.mli:760-764 | a run of calls and events after which the signal goes to a group of which no process is left |
| WatchTable.WatchList.CleanupAfterFork | src/netsys/netsys_c_subprocess.c:310-338 | all inherited pipe ends that atoms own are closed, each once; the table is new and the helper has to be started again |
| WatchTable.FailedWatch | src/netsys/netsys_c_subprocess.c:382-399 | a first call that cannot start the helper leaves a pipe end open that no atom owns |
| WatchTable.OpenExactly | src/netsys/netsys_c_subprocess.c:105-470 | the open pipe ends are those of atoms in use, not ignored and not terminated, and the lost ones, without overlap |
| WatchTable.Run | src/netsys/netsys_c_subprocess.c:105-718 | over every sequence of calls, child events, SIGCHLD processing and forks: the open pipe ends are those that atoms own and one for each call whose delayed initialisation failed; each is closed once; no reaped process is signalled; and what each handle knows is in accordance with the events |
| WatchTable.StatusAfter | src/netsys/netsys_c_subprocess.c:105-576 | over every run a handle stands for a process that was started and then watched; it is reported as terminated if and only if the process has ended before the watching call or before a later SIGCHLD, with the status it ended with |
| TlsTunnel.TunnelBuf.Append | src/equeue-ssl/infos/easy_tls/easy-tls.c:1157-1174 | bytes read go behind those already waiting, within 16384 bytes |
| TlsTunnel.TunnelBuf.Consume | src/equeue-ssl/infos/easy_tls/easy-tls.c:1200-1218 | bytes written are taken from the front, and an empty buffer starts at offset zero |
| TlsTunnel.SslConnection.Write | src/equeue-ssl/infos/easy_tls/easy-tls.c:1135-1155 | requires of every retry the same offset and the earlier bytes as a prefix; what it takes is added to the output |
| TlsTunnel.TlsWriteAttempt | src/equeue-ssl/infos/easy_tls/easy-tls.c:1135-1155 | exactly the bytes taken leave the front of the buffer; a blocked write leaves the bytes waiting at the same place for the retry; flags and result for each outcome of the call |
| TlsTunnel.TlsReadAttempt | src/equeue-ssl/infos/easy_tls/easy-tls.c:1157-1176 | exactly the bytes read are added at the end; flags and result for each outcome of the call |
| TlsTunnel.Tunnel.WriteTls | src/equeue-ssl/infos/easy_tls/easy-tls.c:1004-1015 | when the attempt is made, what it moves, the flags for each outcome; keeps the retry rule; the other direction is dropped when the connection is closed |
| TlsTunnel.Tunnel.WriteClear | src/equeue-ssl/infos/easy_tls/easy-tls.c:1017-1028 | the same towards the clear side |
| TlsTunnel.FlagsMean | src/equeue-ssl/infos/easy_tls/easy-tls.c:1070-1132 | the four flags after the calls of an iteration, from what each call returned |
| TlsTunnel.Finish | src/equeue-ssl/infos/easy_tls/easy-tls.c:1050-1068 | the end of an iteration: error, end, another round, or a wait with exactly the flags that the calls have set |
| TlsTunnel.Tunnel.Iteration | src/equeue-ssl/infos/easy_tls/easy-tls.c:976-1065 | which of the four attempts are made and what they move; the outcome is an error, the end, another round or a wait if and only if the calls returned so; the wait is for the TLS side to be readable if and only if a TLS call wanted to read, writable if and only if one wanted to write, and for the clear side if and only if the call there would have blocked; it is never for nothing; all assertions of the loop hold |
| TlsTunnel.TlsProxy | src/equeue-ssl/infos/easy_tls/easy-tls.c:976-1065 | in every run the bytes delivered on each side are a prefix of the bytes received on the other, and the rest is in the buffer as long as the loop goes on |
| NotEvent.StepInv | src/netsys/netsys_c_event.c:73-160 | the state is always the number of threads between CAS and write, plus bytes in the pipe, plus threads between read and reset; so the pipe holds at most one byte |
| NotEvent.PipeRefines | src/netsys/netsys_c_event.c:73-160 | every step of the pipe form is a step of the coalescing flag |
| NotEvent.SignalNotLost | src/netsys/netsys_c_event.c:73-160 | a signal that no consume has covered is still a byte in the pipe or a thread on its way |
| NotEvent.SignalConsumable | src/netsys/netsys_c_event.c:73-160 | after a signal that is not covered, at most three more steps lead to the end of a consume that covers it |
| NotEvent.FdRefines | src/netsys/netsys_c_event.c:390-437 | the eventfd form allows exactly the observations of the coalescing flag |
| NotEvent.SameBehaviour | src/netsys/netsys_c_event.c:390-437 | whatever a run of the pipe form shows, the eventfd form shows too, and they agree on whether the event is set |
| NotEvent.PipeShows | src/netsys/netsys_c_event.c:73-160 | the converse: every sequence of signals and consumptions that an eventfd allows is shown by a run of the pipe form |
| Utf8Slice.Fill | src/netstring/netaccel_c.c:171-250 | the loop stores exactly the characters and lengths of the longest complete valid prefix that fits |
| Utf8Slice.ReadUtf8 | src/netstring/netaccel_c.c:148-270 | argument checks, counts, the end marker, the malformed case, and which entries stay unchanged |
| Utf8Slice.OneExactly | src/netstring/netaccel_c.c:176-235 | for all bytes in both modes: a character is read if and only if its encoding begins there, more bytes are waited for if and only if the first byte is 80 to F7 and fewer bytes than it calls for are left, and all else is malformed |
| Utf8Slice.SliceExactly | src/netstring/netaccel_c.c:171-257 | for all bytes a slice is one character after the other; it ends with the bytes or the room, or where no character begins, and there it is malformed if and only if the bytes are not cut off |
| Utf8Slice.ReadEncoded | src/netstring/netaccel_c.c:176-240 | the reader inverts the encoding of every allowed character, whatever follows |
| Utf8Slice.ReadPart | src/netstring/netaccel_c.c:188-235 | a character that is cut off is never taken for another one |
| Utf8Slice.SliceOfEncoding | src/netstring/netaccel_c.c:171-257 | reading any prefix of an encoding into any room gives the characters that are complete and fit; lengths sum up to the bytes used |
| Utf8Slice.DecodeEncode | src/netstring/netaccel_c.c:171-257 | decoding after encoding is the identity |
| Utf8Slice.ResumeAnywhere | src/netstring/netaccel_c.c:171-257 | through any cuts and any slice sizes the calls deliver a prefix of the list and have used exactly its bytes |
| Utf8Slice.ResumeToEnd | src/netstring/netaccel_c.c:171-257 | no sequence of calls fails, and it delivers the whole list if and only if it used all bytes |
| Utf8Slice.CallProgress | src/netstring/netaccel_c.c:171-257 | a call with room and one complete character delivers something |
| Utf8Slice.ReadWhole | src/netstring/netaccel_c.c:171-257 | as many calls as there are characters, with all bytes there and any room, read the whole list |
| Utf8Slice.AcceptedIsEncoding | src/netstring/netaccel_c.c:184-235 | an accepted character was encoded as RFC 3629 says if and only if the first byte is not a continuation byte |
| Utf8Slice.TailAccepted | src/netstring/netaccel_c.c:188-203 | an accepted pair that is not the encoding of its character |
| Utf8Slice.AcceptedSlice | src/netstring/netaccel_c.c:171-257 | bytes that are accepted as a whole are the encoding of the result if and only if no character starts with a continuation byte |
| Utf8Slice.JavaOne | src/netstring/netaccel_c.c:179-203 | in Java mode every character but the null character is read back from its Java encoding, and the null character is malformed |
| Utf8Slice.JavaRead | src/netstring/netaccel_c.c:179-203 | a Java-encoded list is read up to its first null character, where it is malformed |
| Utf8Slice.JavaDecodes | src/netstring/netaccel_c.c:179-203 | a Java-encoded list is decoded to itself if and only if it has no null character |
| Utf8Slice.JavaNullRejected | src/netstring/netaccel_c.c:188-194 | a list that fails |
| Chameneos.StepInv | examples/multicore/chameneos.ml:122-186 | every step of the creatures and of the meeting place keeps the invariant |
| Chameneos.GameSafe | examples/multicore/chameneos.ml:122-242 | in every run no creature meets itself, the place is empty when it refuses, the request slots in use are at most two more than the creatures, and an answer goes only to a creature that waits and has none, so the failing branch of `meet` is not reached |
| Chameneos.GameTotal | examples/multicore/chameneos.ml:312-346 | a finished game has recorded exactly twice the configured number of meetings |
| Chameneos.MeetingsMutual | examples/multicore/chameneos.ml:155-170 | in every run two creatures that meet are told of each other: at the end each has met any other as often as the other way round, and itself never |
| Chameneos.RankDecreases | examples/multicore/chameneos.ml:122-288 | every step brings the game closer to its end |
| Chameneos.GameProgress | examples/multicore/chameneos.ml:122-288 | with two creatures or more an unfinished game can go on |
| Chameneos.LoneCreatureWaits | examples/multicore/chameneos.ml:122-186 | in every run a single creature never gets a meeting and never finishes |
| Chameneos.GameEnds | examples/multicore/chameneos.ml:312-346 | every run is finite, and with two creatures or more ends with the full number of meetings |
| ManyMult.StepPlaces | examples/camlbox/manymult.ml:171-219 | every step keeps each task in exactly one place |
| ManyMult.SchedulerSafe | examples/camlbox/manymult.ml:123-219 | in every run the free slots add up, a submission finds a worker, no camlbox overflows, and no task is lost or answered twice |
| ManyMult.MasterPolicy | examples/camlbox/manymult.ml:171-219 | in every run tasks are submitted in their order, each to the first worker with a slot left, and the master waits only when all slots are in use or nothing is left to submit |
| ManyMult.AllAnswered | examples/camlbox/manymult.ml:221-226 | when nothing is unresponded, every task has its response |
| ManyMult.RankDecreases | examples/camlbox/manymult.ml:97-219 | every step lowers the rank |
| ManyMult.InFlight | examples/camlbox/manymult.ml:201-219 | the master waits only when some worker has a request |
| ManyMult.SchedulerProgress | examples/camlbox/manymult.ml:97-219 | as long as something is unresponded, somebody can go on |
| ManyMult.SchedulerEnds | examples/camlbox/manymult.ml:171-226 | every run is finite and ends with all tasks answered |

## Left out

Of the modelled components:

- CopyValue: the separate allocation of very large blocks is not modelled; the garbage collector does not move or change the value between the counting and the copying run.
- InitValue1: failures of `malloc` (return code -1), overflow of machine words, and padding bytes of bigarray data are not modelled; the colours of the source blocks play no part.
- InitValue1: the order of adding to the table and copying bigarray data inside one block is not visible in the model; the data behind a bigarray is at least as long as the bigarray says.
- Htab.constructor: the arithmetic of the hash function is replaced by an arbitrary function into the cells.
- PipelineCount: the start of the processes and the exchange of the box identifiers are not modelled.
- PerformFile: a listed close of a descriptor that is not open fails, as POSIX says; some C libraries report only descriptors that are out of range, and then a plain close succeeds more often than with fork and exec.
- Perform: only descriptor actions are modelled; change of directory, signal masks and process groups are not.
- Watch: only the write ends of pipes are followed; the read end, which a failed delayed initialisation loses too, is not, and neither is a failing `pipe`, `fcntl` or `malloc`. The caller does not watch a process twice at once, and uses no handle after giving it up, which the code does not check.
- Ignore: an atom that is ignored after its process has terminated stays in use for ever; no claim is made that it is reclaimed.
- ReadUtf8: the two slice arrays are different arrays.
- SignalNotLost: the memory is sequentially consistent; overflow of the eventfd counter and destruction of the event are not modelled.
- GameTotal: the colours of the creatures are not modelled.
- SchedulerSafe: the Ready and Terminate phases and the arithmetic of the matrices are not modelled.
- CopyValueData: the allocator does not give the same memory to two bigarrays.
- Iteration: the shutdown message to the TLS side and the report on the certificate of the peer are not modelled.
- SameObservations: words of scanned blocks that are not redirected must not happen to be addresses of copies; this holds for immediate values, and for code addresses as the code is not inside the buffer.

Other parts of the repository:

- `netsys_init_value`: the preparation of its arguments.
- `int_blit`, `int_series` and `read_iso88591` of the accelerators: short loops.
- The RPC, XDR, FastCGI, AJP and HTTP protocols, the property files and the random numbers of the JSERV connector.
- Poll, epoll, semaphores, clocks, locale, syslog, multicast and the Win32 helpers: thin layers over system calls.
- Shared-memory heaps and the internals of camlboxes, mutexes and condition variables of the multicore library.
