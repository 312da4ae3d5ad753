# A verified model of a small real-time kernel

The repository is a real-time kernel in C with an embedded Lisp and a maze-solving mouse. This
project models its hardest parts in Dafny and proves what they are for.

- **The Lisp heap** (`LispGraph`, `Collector`, `Allocator`): a copying collector that moves every
  reachable object between two heaps. The heap is a map from addresses to sized objects, and a
  write destroys whatever it overlaps, so that overlap would be noticed. Collections and allocations
  are proved unobservable: every path from a root leads to the same place, sharing and cycles
  included. An allocation fails exactly when the reachable objects leave too little room.
- **The Lisp reader and printer** (`Reader`): which values survive being printed and read back, as
  an if-and-only-if over all values.
- **Pipes** (`RingBuffer`, `Semaphores`, `Pipe`): a ring buffer that refines a bounded queue, and any number of
  threads interleaving the semaphore calls of a pipe over such a queue. Every run keeps the token
  discipline of the two gates, keeps bytes in order and structs in one piece, and cannot deadlock.
- **Timers** (`WeightedHeap`, `Timer`): a complete binary heap of linked nodes, found by the bits of
  their number, and two such heaps that carry deadlines over the wrap of the clock.
- **The maze** (`Bitmap`, `MazeMap`, `FloodFill`, `SubMove`): bit-packed walls, an event-driven flood
  fill that ends with shortest distances, and a motion planner whose runs never hit a wall and never
  end on an edge.
- **Threads and locks** (`Scheduler`, `Resource`, `LinkedList`, `Common`): where every thread is over every run,
  round-robin dispatch, a reader/writer lock without overtaking, and the list behind all queues.
- **Interrupt levels** (`Isr`): nested disable counts against one hardware level.

Objects that the C code updates in place are classes with loops; each method is tied to a function
or predicate on values, and what is promised is proved about those. The Lisp reader and printer are
recursive functions. A pipe with many threads, and the scheduler, are state machines whose runs are
sequences of steps; the classes of the scheduler and of the reader/writer lock are proved to take
exactly those steps.

Ghost parameters and fields record what the code does not store: the layout of the heap, the level
order of a tree, unwrapped time, who holds a lock. Parameters stand for what the code reads from
outside: the clock, the character stream, the flood values and scan log the planner sees.

Where code and comments disagree the model follows the code:

- `alloc` (kernel/minilisp.c:141-143) says it makes every object large enough for a forwarding
  pointer; an empty payload is not made larger, and then the heap is no longer well formed
  (`Collector.BumpOk`). No caller passes one.
- `TimerRegister` (kernel/timer.c:134-135) reads the clock before it masks interrupts and takes the lap
  of the reading for the lap of the last `TimerInner`. If the clock wraps after the reading and
  `TimerInner` runs before the timer is added, the timer is a lap late; if the clock has wrapped before
  the reading and `TimerInner` has yet to run, it is a lap early (`Timer.DeadlineExact`).
- `TimerSetNextTimer` (kernel/timer.c:98-111) asks for a countdown of 0 when the clock reads 0 and no
  timer is pending, not for a whole lap.
- `FloodFillGetX` (umouse/floodfill.h:14) divides by Height where Width is meant, so it decodes every
  cell exactly in square mazes (`FloodFill.DecodeExact`); at the default size of umouse/map.h:11-12 it
  does not.
- `MapInit` (umouse/map.c:163) skips the words of the wrong table. `MazeMap.LayoutExact` says when every
  wall still has a bit of its own, in every buffer that is accepted: always in square mazes and at the
  default size; not at 8 by 5, where walls share bits, nor at 1 by 40, where walls lie past the end of a
  buffer of the size asked for.
- The wall index in the comment at umouse/map.c:101-104 multiplies by the size of the other dimension.
- `SubMoveLegal` (umouse/submove.c:318-400) lets DONE pass on a cell edge, and a run of legal moves is
  safe exactly if that is not used (`SubMove.RunSafe`). A planner that looks around only at cell
  centres, as the loop at umouse/movetest.c:225-324 does, never uses it (`SubMove.PlannerSafe`).
- The planner (umouse/submove.c:536-543) says it favours keeping the direction; the code prefers the
  move that turns.
- The reader takes `(. x)` for nil (kernel/minilisp.c:390-397), and what prints as `t`
  (kernel/minilisp.c:504) is read as an ordinary symbol.

## Model

| member | source | states |
|---|---|---|
| `LispGraph.TilesOrdered` | kernel/minilisp.c:135-176 | objects allocated back to back are in address order, inside the heap, and do not overlap |
| `LispGraph.BytesAdd` | kernel/minilisp.c:193-214 | moving one more object adds exactly its size to the bytes copied |
| `LispGraph.ClosedHoldsLive` | kernel/minilisp.c:219-227 | whatever holds the roots and is closed under fields holds every reachable object, by any path |
| `LispGraph.SamePaths` | kernel/minilisp.c:230-283 | in isomorphic graphs every access path from a root leads to corresponding places: nowhere, the same foreign pointer, or an object and its image |
| `LispGraph.SharingKept` | kernel/minilisp.c:230-283 | an isomorphism cannot be observed: every access path sees the image of what it saw, with the same type, size and payload, and two paths meet in one object after exactly if they did before |
| `Collector.RoundUpMask` | kernel/minilisp.c:135-137 | the mask form of `roundup` gives the multiple of a word in [v, v + 7] |
| `Collector.RoundUpOnly` | kernel/minilisp.c:135-137 | the rounding used here is the one multiple of a word in [v, v + 7], which the mask form also gives |
| `Collector.AllocSizeFits` | kernel/minilisp.c:140-152 | allocation sizes are whole words that hold the payload with less than a word to spare; there is room for a forwarding pointer if and only if the payload is not empty |
| `Collector.RoomToMove` | kernel/minilisp.c:193-214 | an object not moved yet always fits: scan2 never passes the old mem_nused |
| `Collector.MoveKeeps` | kernel/minilisp.c:205-214 | copying an object and leaving a tombstone keeps the invariant of a collection: every original is untouched or a tombstone to its copy, copies tile the to-space, scanned copies point only at copies |
| `Collector.FieldStored` | kernel/minilisp.c:250-270 | forwarding one field of the copy under scan1 keeps the invariant and finishes one more field |
| `Collector.ScanFinished` | kernel/minilisp.c:250-275 | a copy with all fields forwarded is the original relocated |
| `Collector.MovedClosed` | kernel/minilisp.c:245-276 | when scan1 meets scan2 the moved objects hold the roots and are closed under fields |
| `Collector.AllLiveMoved` | kernel/minilisp.c:245-276 | when scan1 meets scan2 exactly the reachable objects have been moved |
| `Collector.ForwardingInjective` | kernel/minilisp.c:193-214 | no object is moved twice, and no two objects are moved to the same place |
| `Collector.ResultWellFormed` | kernel/minilisp.c:230-283 | the new heap is tiled by the live objects and nothing else, no pointer in it leads into from-space, and its size is the number of live bytes |
| `Collector.ResultIsomorphic` | kernel/minilisp.c:230-283 | the new heap is isomorphic to the reachable part of the old one, roots included |
| `Collector.CollectionDone` | kernel/minilisp.c:230-283 | the two together, from the state in which the scan loop ends |
| `Collector.BumpOk` | kernel/minilisp.c:170-175 | taking bytes at the end of the heap keeps the old graph in place and the tiling; the heap stays well formed if and only if the new object has room for a forwarding pointer |
| `Collector.Unseen` | kernel/minilisp.c:140-283 | what an isomorphism of heaps in the same two spaces keeps is all a program can see |
| `Collector.FillOk` | kernel/minilisp.c:296-302 | filling the fields of a new object disturbs nothing the program could reach before |
| `Allocator.AllocBlock.constructor` | kernel/minilisp.c:944-961 | two disjoint heaps, nothing allocated |
| `Allocator.AllocBlock.Forward` | kernel/minilisp.c:193-214 | returns the new address of any pointer the collection can meet, moving the object exactly if it is in from-space and not moved yet |
| `Allocator.AllocBlock.ForwardRootObjects` | kernel/minilisp.c:219-227 | every root, in every frame, is replaced by its forwarded address; empty slots stay empty |
| `Allocator.AllocBlock.ScanOne` | kernel/minilisp.c:248-275 | one turn of the scan loop advances scan1 and never meets an unknown type |
| `Allocator.AllocBlock.ScanAll` | kernel/minilisp.c:248-276 | the scan loop ends, with scan1 == scan2 inside the old size |
| `Allocator.AllocBlock.CopyLive` | kernel/minilisp.c:243-276 | roots first, then the scan: the live objects, isomorphic and tiled |
| `Allocator.AllocBlock.SwapHeaps` | kernel/minilisp.c:230-240 | the two heaps change places and both scan pointers start at the new one |
| `Allocator.AllocBlock.Gc` | kernel/minilisp.c:230-283 | the graph after a collection is isomorphic to the reachable graph before; the step cannot be observed along any access path; mem_nused is the size of the reachable objects; the two heaps are still the original two |
| `Allocator.AllocBlock.MakeRoom` | kernel/minilisp.c:154-164 | collects exactly when asked to or when the request does not fit, leaving the live bytes; otherwise nothing changes |
| `Allocator.AllocBlock.Alloc` | kernel/minilisp.c:140-176 | "Memory exhausted" if and only if the reachable bytes plus the rounded request exceed memory_size; otherwise a new object at the end of the heap, and an isomorphic graph, the step not observable; for every payload, and the heap stays well formed if and only if the payload is not empty or nothing was allocated. The object is of the kind its tag names and of the rounded size. The heaps change places exactly if collection is forced or the request does not fit, and mem_nused is then the live bytes, plus the object |
| `Allocator.AllocBlock.PushFrame` | kernel/minilisp.c:100-108 | a new frame of empty roots in front of the others |
| `Allocator.AllocBlock.PopFrame` | kernel/minilisp.c:100-108 | a returning function takes its frame with it; the others stay |
| `Allocator.AllocBlock.SetSlot` | kernel/minilisp.c:110-130 | storing a pointer the program may hold in a root slot keeps the heap well formed and every other slot |
| `Allocator.AllocBlock.Cons` | kernel/minilisp.c:296-302 | a pair of what the two arguments, root slots or constants such as Nil, held before the allocation, wherever that has moved to |
| `Collector.StoreExact` | kernel/minilisp.c:205-214 | what is left after a write is the new object and every object it did not overlap |
| `Reader.ReadDigits` | kernel/minilisp.c:425-429 | reading the digits of n gives n back, for every n up to INT_MAX |
| `Reader.ReadInt` | kernel/minilisp.c:463-467 | a printed int of magnitude at most INT_MAX is read as that int, minus sign included |
| `Reader.ReadWord` | kernel/minilisp.c:431-442 | a readable name of at most 200 characters is read as one symbol |
| `Reader.ReadsBack` | kernel/minilisp.c:444-510 | reading printed text gives back the value and consumes exactly that text, for nil, ints, symbols and lists, proper or dotted |
| `Reader.InsideReadsBack` | kernel/minilisp.c:381-400 | the elements of a printed list, its dotted tail included, are read in front of those already collected |
| `Reader.SpellingReads` | kernel/minilisp.c:367-472 | however a value is spelled, with blanks and comments before any part, quote marks anywhere, proper or dotted lists, it is read as what it stands for, and exactly its text is consumed |
| `Reader.ItemsRead` | kernel/minilisp.c:381-400 | the same for the inside of a list, in front of what has been collected |
| `Reader.QuoteReads` | kernel/minilisp.c:416-423 | a quote mark before a printed value v is read as the list of quote and v |
| `Reader.CommentReads` | kernel/minilisp.c:367-378 | a comment, ended by newline, by return with or without newline, or by the end character, does not matter |
| `Reader.SpaceReads` | kernel/minilisp.c:447-448 | each of the four blanks is skipped |
| `Reader.PunctuationIs` | kernel/minilisp.c:350-350 | the characters of a symbol that are neither letters nor digits |
| `Reader.LargeInt` | kernel/minilisp.c:425-429 | an int beyond INT_MAX, of either sign, overflows |
| `Reader.LongName` | kernel/minilisp.c:431-441 | a name of more than 200 characters is refused |
| `Reader.NulEndsName` | kernel/minilisp.c:431-442 | a NUL is taken into a symbol and ends its name, since strchr finds the terminator |
| `Reader.UnknownReads` | kernel/minilisp.c:468-471 | a character that starts nothing is refused |
| `Reader.UnclosedReads` | kernel/minilisp.c:384-387 | a list that the end character cuts off is an error, whatever its elements |
| `Reader.TwoTails` | kernel/minilisp.c:390-393 | a second expression after the dot is an error |
| `Reader.WordWaits` | kernel/minilisp.c:425-442 | an int or a name that nothing follows is waited on, as is a minus sign |
| `Reader.CommentWaits` | kernel/minilisp.c:367-378 | so is a comment whose line has not ended |
| `Reader.PrintedWords` | kernel/minilisp.c:499-504 | true and the procedures print as t, <primitive>, <function> and <macro>, which read as symbols |
| `Reader.ExprGood` | kernel/minilisp.c:444-472 | everything the reader makes from text without NUL is built of nil, ints up to INT_MAX and readable names (and marks left loose by malformed text) |
| `Reader.ListGood` | kernel/minilisp.c:381-400 | the same for the list reader |
| `Reader.ClippedLooksSame` | kernel/minilisp.c:30-36 | the printer cannot tell a name from its first 99 characters |
| `Reader.SurvivesIffReadable` | kernel/minilisp.c:355-510 | a value survives printing and reading before every text that ends it, if and only if it is made of lists, nil, ints other than INT_MIN, and readable names of at most 99 characters |
| `Reader.BackwardsIsReverse` | kernel/minilisp.c:355-364 | the cells taken in reverse order are the reversed list |
| `Reader.Reverse` | kernel/minilisp.c:355-364 | the destructive reversal leaves the same cells linked in the opposite order |
| `Reader.FinishDotted` | kernel/minilisp.c:390-397 | the end of a dotted list: the collected cells in order, the tail in the last one |
| `Reader.SymbolTable.Intern` | kernel/minilisp.c:404-413 | one symbol object for each name: an existing one is returned, a new one is put in front |
| `RingBuffer.TestsAgree` | utils/ringbuffer.c:124-130 | the empty and full tests agree with queue length 0 and Size |
| `RingBuffer.QueueRead` | utils/ringbuffer.c:11-51 | a contiguous read takes the oldest bytes and leaves the rest of the queue |
| `RingBuffer.QueueWrite` | utils/ringbuffer.c:53-90 | a contiguous write appends to the queue |
| `RingBuffer.Copy` | utils/ringbuffer.c:45-50 | the copy loop writes exactly that piece |
| `RingBuffer.Ring.constructor` | utils/ringbuffer.c:132-138 | an empty queue |
| `RingBuffer.Ring.IsEmpty` | utils/ringbuffer.c:124-126 | true exactly for queue length 0 |
| `RingBuffer.Ring.IsFull` | utils/ringbuffer.c:128-130 | true exactly for queue length Size |
| `RingBuffer.Ring.ReadSmall` | utils/ringbuffer.c:11-51 | one contiguous piece, up to the write index or the end of the buffer |
| `RingBuffer.Ring.WriteSmall` | utils/ringbuffer.c:53-90 | one contiguous piece, up to the read index or the end of the buffer |
| `RingBuffer.Ring.Read` | utils/ringbuffer.c:104-113 | moves the min(size, available) oldest bytes in order, across the wrap; the queue keeps the rest |
| `RingBuffer.Ring.Write` | utils/ringbuffer.c:115-122 | appends the first min(size, free) bytes in order, across the wrap |
| `Pipe.InitInv` | kernel/pipe.c:16-26 | a new pipe satisfies the invariant |
| `Pipe.BeginInv` | kernel/pipe.c:88-187 | so does a pipe into which some thread makes any call |
| `Pipe.DownSems` | kernel/semaphore.c:26-38 | lowering a semaphore keeps every wait list equal to the threads blocked on it, each once |
| `Pipe.UpSems` | kernel/semaphore.c:40-55 | raising one does too, and hands over to the first waiter |
| `Pipe.RingAsserts` | kernel/pipe.c:40-53 | with the mutex held, a side that shuts the other out finds its gate down, and no transfer is empty |
| `Pipe.RingWorkInv` | kernel/pipe.c:28-154 | the work on the ring under the mutex keeps the invariant |
| `Pipe.ActInv` | kernel/pipe.c:28-187 | every step of every thread keeps the invariant |
| `Pipe.StepInv` | kernel/pipe.c:28-187 | so does every step of the system |
| `Pipe.RunInv` | kernel/pipe.c:16-187 | the invariant holds in every state of every interleaving of any number of readers and writers |
| `Pipe.AssertsNeverFail` | kernel/pipe.c:28-154 | in every run the four ASSERTs hold: a side that shuts the other out finds its gate down, and no transfer is empty |
| `Pipe.TransferExact` | kernel/pipe.c:40-53 | in every run one transfer moves the oldest bytes, or the next of the caller, in order, until the call has all it wants or the ring has nothing more for its side |
| `Pipe.PlainCallsExact` | kernel/pipe.c:76-95 | every finished plain call has moved the smaller of its size and what the ring had for it |
| `Pipe.ReadTheRing` | kernel/pipe.c:43-53 | the work of a reader on the ring buffer itself is the step of the protocol: same contents, bytes and decisions |
| `Pipe.WriteTheRing` | kernel/pipe.c:123-135 | the work of a writer on the ring buffer itself is the step of the protocol |
| `Pipe.TokensBalanced` | kernel/pipe.c:28-154 | in every state of every run each gate has one token, in its count, held or owed, exactly while the ring has something for its side |
| `Pipe.BytesInOrder` | kernel/pipe.c:28-154 | in every reachable state the bytes accepted are the bytes delivered followed by the ring contents |
| `Pipe.WritesContiguous` | kernel/pipe.c:178-187 | the bytes of a finished PipeWriteStruct lie in one piece in the stream, with any number of other writers |
| `Pipe.ReadsContiguous` | kernel/pipe.c:97-106 | a finished PipeReadStruct got the size it asked for, in one piece of the stream |
| `Pipe.StuckSide` | kernel/pipe.c:28-154 | if every call in progress is blocked, the ring has nothing for any side that has a call in progress |
| `Pipe.NoDeadlock` | kernel/pipe.c:28-154 | if every call in progress is blocked, either all are readers and the ring is empty, or all are writers and it is full |
| `WeightedHeap.RootIsMin` | utils/heap.c:225-228 | in heap order the head has minimum weight |
| `WeightedHeap.RiseStep` | utils/heap.c:157-161 | promoting a node lighter than its parent moves the only possible violation one level up |
| `WeightedHeap.SinkStep` | utils/heap.c:210-219 | promoting the lightest child moves it one level down |
| `WeightedHeap.ReplaceRoot` | utils/heap.c:195-208 | the last node in place of the head leaves at most a violation at the head |
| `WeightedHeap.BitIs` | utils/heap.c:106-119 | testing a shifted mask reads the bit that says right or left at that depth |
| `WeightedHeap.HeapPromote` | utils/heap.c:7-59 | every link of node, parent, grandparent, sibling and children after the exchange |
| `WeightedHeap.Promote` | utils/heap.c:7-59 | that exchange is the swap of two nodes of the complete tree: all links are consistent again |
| `WeightedHeap.HeapSmallest` | utils/heap.c:61-88 | the lightest of three nodes, any of which may be missing and then counts as heaviest; the first on ties |
| `WeightedHeap.Heap.constructor` | utils/heap.c:230-234 | the empty heap |
| `WeightedHeap.Heap.FindElement` | utils/heap.c:91-122 | the node where the bits of the index lead is the node with that number |
| `WeightedHeap.Heap.AppendNode` | utils/heap.c:144-156 | the new leaf hangs where the tree stays complete; the shape ASSERTs hold |
| `WeightedHeap.Heap.Rise` | utils/heap.c:157-164 | the rising loop ends in heap order with the same nodes |
| `WeightedHeap.Heap.Add` | utils/heap.c:124-167 | complete tree, Parent links and heap order are kept, and exactly the node is added |
| `WeightedHeap.Heap.Detach` | utils/heap.c:180-199 | the last leaf is unlinked and the tree stays complete |
| `WeightedHeap.Heap.ReplaceHead` | utils/heap.c:195-208 | the detached leaf takes the place of the head, links and all |
| `WeightedHeap.Heap.Sink` | utils/heap.c:210-219 | the sinking loop ends in heap order with the same nodes |
| `WeightedHeap.Heap.Pop` | utils/heap.c:169-223 | a node of minimum weight leaves, exactly that one; null from an empty heap; tree, links and order are kept |
| `WeightedHeap.Heap.HeadIsLightest` | utils/heap.c:225-228 | the head weight is the minimum |
| `Timer.LapCases` | kernel/timer.c:74-87 | a clock reading below the last one means exactly one wrap, if calls are less than a wrap apart |
| `Timer.DeadlineExact` | kernel/timer.c:128-150 | the deadline registered is the one asked for if and only if the clock was read in the lap of the last TimerInner; otherwise it is off by exactly the laps between, late or early |
| `Timer.StaleRegistration` | kernel/timer.c:128-150 | a clock that wraps after it is read, with TimerInner in between, makes the timer a whole lap late |
| `Timer.HastyRegistration` | kernel/timer.c:128-150 | a clock that has wrapped before it is read, with TimerInner yet to come, makes the timer a whole lap early |
| `Timer.StillPending` | kernel/timer.c:74-96 | until it is registered again, a timer stays pending exactly while every interrupt since came before its deadline |
| `Timer.FiresOnceOnTime` | kernel/timer.c:48-150 | over every run of registrations and interrupts, each registration of a timer, up to the next one of the same timer, leaves exactly once, at the first TimerInner at or after its unwrapped deadline |
| `Timer.TimerUnit.QueueTimers` | kernel/timer.c:48-67 | pops exactly the timers with weight at most `time`, lightest first |
| `Timer.TimerUnit.TurnLap` | kernel/timer.c:78-88 | at the end of a lap its heap is drained empty and the heaps change places |
| `Timer.TimerUnit.CatchUp` | kernel/timer.c:78-88 | exactly the timers of a finished lap fire |
| `Timer.TimerUnit.FireDue` | kernel/timer.c:74-89 | exactly the timers due in unwrapped time fire, in deadline order, across a wrap |
| `Timer.TimerUnit.TimerInner` | kernel/timer.c:74-96 | exactly the due timers leave the heaps, earliest first; the countdown set ends at the earliest deadline of the current lap, or where the clock shows zero if there is none, and passes no deadline; the step is added to the run that FiresOnceOnTime speaks of, and the heaps hold exactly what that run leaves pending |
| `Timer.TimerUnit.TimerSetNextTimer` | kernel/timer.c:98-111 | counted modulo the word size, the countdown ends at the head of the heap, or at zero if there is none; if no timer in the heap is due yet, it passes none of them |
| `Timer.TimerUnit.TimerRegister` | kernel/timer.c:128-150 | the timer becomes pending with the deadline its wrapped time means, which is the one asked for if and only if the lap of the reading is the lap of the last TimerInner; the run and the heaps stay in agreement |
| `Bitmap.WordOn` | utils/bitmap.h:30-30 | one bit of the word on, all others as they were |
| `Bitmap.WordOff` | utils/bitmap.h:33-33 | one bit of the word off, all others as they were |
| `Bitmap.BitmapOn` | utils/bitmap.h:30-30 | exactly that bit of the table changes |
| `Bitmap.BitmapOff` | utils/bitmap.h:33-33 | exactly that bit of the table changes |
| `Bitmap.BitmapClear` | utils/bitmap.c:46-52 | every bit is off |
| `Bitmap.FirstBit` | utils/bitmap.c:64-75 | the lowest bit of a word that is not zero; the scan cannot run out |
| `Bitmap.BitmapGetFirstFlag` | utils/bitmap.c:57-78 | the number of the first bit that is on, or -1 exactly if none is |
| `MazeMap.IndexInRange` | umouse/map.c:118-119 | the bit of every inner wall lies inside the buffer |
| `MazeMap.BitsApart` | umouse/map.c:118-119 | no two inner walls share a bit |
| `MazeMap.SetFlagExact` | umouse/map.c:140-151 | setting one wall changes that wall and no other |
| `MazeMap.FitsIffRoomy` | umouse/map.c:118-119 | for any place of the two tables: every inner wall has a bit of its own inside the buffer if and only if the tables fit and do not overlap |
| `MazeMap.LayoutExact` | umouse/map.c:157-164 | in every buffer MapInit accepts, every inner wall has a bit of its own inside the buffer if and only if the maze has one row, or the vertical walls need no more words than the horizontal ones and the buffer has twice as many as those |
| `MazeMap.LayoutDefault` | umouse/map.h:11-12 | the default size, 4 by 5, is laid out well |
| `MazeMap.LayoutCollides` | umouse/map.c:157-164 | at 8 by 5 two inner walls share a bit, however large the buffer |
| `MazeMap.LayoutOverruns` | umouse/map.c:157-164 | at 1 by 40 the first horizontal wall lies past the end of the buffer asked for |
| `MazeMap.Map.MapInit` | umouse/map.c:157-176 | accepts exactly the buffers that are large enough; the maze is then laid out well under exactly the condition of LayoutExact, always if square, and if so has no inner walls |
| `MazeMap.Map.MapSetWall` | umouse/map.c:202-221 | the wall a cell shares with its neighbour is set, seen from both sides, and no other; outer walls cannot be changed |
| `FloodFill.IndexCoords` | umouse/floodfill.h:12-15 | a cell number decodes to its coordinates in a square maze |
| `FloodFill.DecodeExact` | umouse/floodfill.h:12-15 | taking x as index % Height decodes every cell if and only if the maze is square |
| `FloodFill.DecodeDefault` | umouse/map.h:11-12 | at the default size, 4 by 5, the event of cell (0, 1) is decoded to x = 4, outside the maze |
| `FloodFill.OpenLeads` | umouse/map.c:178-200 | an opening leads to a cell of the maze, and the same opening leads back |
| `FloodFill.EitherWay` | umouse/floodfill.c:121-144 | a path from a destination is a path to it, so the values are distances either way |
| `FloodFill.RelaxSound` | umouse/floodfill.c:121-144 | no value is ever below the length of a real path |
| `FloodFill.RelaxSettled` | umouse/floodfill.c:121-144 | lowering a cell unsettles no cell but those with an event |
| `FloodFill.DoneIsDistance` | umouse/floodfill.c:109-115 | with no event left every cell holds the minimum of 255 and its shortest path length |
| `FloodFill.RelaxLoad` | umouse/floodfill.c:121-144 | a relaxation adds at most the weight of one event one step further out |
| `FloodFill.Taken` | umouse/floodfill.c:109-144 | taking an event of value v lowers the load by more than the four events of value v + 1 can add |
| `FloodFill.FloodMap.FloodFillGet` | umouse/floodfill.c:75-81 | the value of a cell; 255 outside the maze |
| `FloodFill.FloodMap.FloodFillSet` | umouse/floodfill.c:32-38 | exactly that cell is changed; nothing outside the maze |
| `FloodFill.FloodMap.FloodNewEvent` | umouse/floodfill.c:40-47 | exactly that event is raised |
| `FloodFill.FloodMap.FloodGetEvent` | umouse/floodfill.c:49-69 | an event that was pending is taken and no other, or none was pending; its coordinates are decoded as in the source, and are those of its cell in a square maze |
| `FloodFill.FloodMap.Visit` | umouse/floodfill.c:121-126 | one neighbour is relaxed if the way is open and it is further |
| `FloodFill.FloodMap.Answer` | umouse/floodfill.c:117-144 | the four neighbours in turn: sound and settled again, with a bound on the new events |
| `FloodFill.FloodMap.FloodFillClear` | umouse/floodfill.c:151-163 | all cells far, no event, in a maze of any shape |
| `FloodFill.FloodMap.FloodFillSetDestination` | umouse/floodfill.c:165-169 | one more destination at zero with its event; nothing for a cell outside; in a maze of any shape |
| `FloodFill.FloodMap.FloodFillCalculate` | umouse/floodfill.c:96-149 | ends, and leaves every cell at the minimum of 255 and its shortest open-path distance to a destination, for every square maze and destination set |
| `FloodFill.FloodMap.Solve` | umouse/floodfill.c:10-20 | clear, set any destinations, calculate: every cell ends at its distance to the destinations inside the maze |
| `SubMove.LegalMoveSafe` | umouse/submove.c:318-400 | a legal move keeps the mouse at a centre or moving across an opening it is in line with, if and only if it is not DONE on an edge |
| `SubMove.LegalMoveNoCrash` | umouse/submove.c:52-100 | no half step of a legal move crosses a wall or leaves the maze, and a stop is at a centre |
| `SubMove.DoneOnEdge` | umouse/submove.c:318-400 | the exception is real: DONE passes every test on an edge |
| `SubMove.RunSafe` | umouse/submove.c:318-400 | over every run of legal moves from a stopped centre: the mouse is safe, and at a centre whenever stopped, at every point of the run if and only if no DONE is made on an edge |
| `SubMove.CanStop` | umouse/submove.c:318-400 | a mouse that drove onto an edge by a candidate that beats doing nothing can stop in the cell ahead, and that beats doing nothing too |
| `SubMove.PlannerSafe` | umouse/submove.c:406-565 | every run of the planner from a stopped centre, with the map and the flood changing only at centres, is safe, its DONE included, which is only made at a centre |
| `SubMove.NormalCell` | umouse/submove.c:463-495 | the cell the mouse is in or entering; the ASSERT(0) branches are unreachable |
| `SubMove.FindBest` | umouse/submove.c:406-565 | a legal candidate that beats doing nothing and that no legal candidate beats, in the order of the four criteria, or DONE if none beats doing nothing |
| `SubMove.Compass` | umouse/submove.c:18-39 | a distance is so many steps of the direction: north is up, east is right |
| `SubMove.Turns` | umouse/submove.c:41-50 | a turn to the right is clockwise, by displacement, and on the spot |
| `SubMove.Straight` | umouse/submove.c:52-74 | moves ahead are one step, and leave the mouse moving or stopped as named |
| `SubMove.Curves` | umouse/submove.c:84-100 | a curve is one step ahead and one to the side turned to, and ends moving that way |
| `SubMove.StartIff` | umouse/submove.c:131-235 | START is legal exactly from a stopped centre with an opening into a scanned cell ahead |
| `SubMove.StopIff` | umouse/submove.c:146-250 | STOP is legal exactly on an edge in front of a scanned cell |
| `SubMove.TurnIff` | umouse/submove.c:131-310 | a turn is legal exactly at the stopped centre of a scanned cell towards an open cell of smaller flood |
| `SubMove.ForwardIff` | umouse/submove.c:159-310 | FORWARD is legal exactly when moving towards an open, scanned cell of smaller flood |
| `SubMove.CurveIff` | umouse/submove.c:146-310 | a curve is legal exactly on an edge when the side turned to is open and scanned |
| `SubMove.LegalFrom` | umouse/submove.c:131-181 | from any pose: which moves start at a centre, on an edge, stopped or moving |
| `SubMove.NeverOnPeg` | umouse/submove.c:237-243 | no legal move ends on a peg, from any pose |
| `SubMove.TurnFacesDownhill` | umouse/submove.c:275-310 | a legal turn ends facing a cell of smaller flood with no wall between |
| `SubMove.ForwardDownhill` | umouse/submove.c:183-208 | from any pose FORWARD is only for going to a cell of smaller flood |
| `SubMove.GoesOnIntoScanned` | umouse/submove.c:252-273 | from any pose a move that goes on goes on into a scanned cell |
| `SubMove.GoesOnIntoOpening` | umouse/submove.c:294-310 | a move that goes on at a centre has no wall ahead |
| `SubMove.EndsInScanned` | umouse/submove.c:245-250 | from any pose the cell a legal move ends in or enters has been scanned |
| `SubMove.BetterIsRank` | umouse/submove.c:505-546 | the four criteria compare as one number, the first most significant |
| `SubMove.ScoreExact` | umouse/submove.c:463-500 | what is compared: flood of the cell the move ends in and of the cell ahead of it, the wall between, and whether it turned |
| `SubMove.CandidatesAreMoves` | umouse/submove.c:450-450 | every move but DONE is a candidate |
| `SubMove.ChosenIsLowest` | umouse/submove.c:505-565 | no legal candidate ranks before the choice, so none ends in a cell of smaller flood |
| `Resource.SharedFrom` | kernel/resource.c:37-79 | the end of the run of shared requests at the front |
| `Resource.ResourceLock.constructor` | kernel/resource.c:85-90 | free, or held by its creator |
| `Resource.ResourceLock.LockShared` | kernel/resource.c:92-118 | acquired exactly if nobody waits and the lock is shared; otherwise the request joins the end of the wait list |
| `Resource.ResourceLock.LockExclusive` | kernel/resource.c:120-153 | acquired exactly if nobody holds the lock; otherwise the request joins the end of the wait list |
| `Resource.ResourceLock.WakeThreads` | kernel/resource.c:37-79 | a free lock goes to the first exclusive waiter, or to all shared ones before the first exclusive one |
| `Resource.ResourceLock.UnlockShared` | kernel/resource.c:155-171 | one share is given up; the last one hands the lock to the first waiters |
| `Resource.ResourceLock.UnlockExclusive` | kernel/resource.c:173-195 | the lock is handed to the first waiters, or is free |
| `Resource.HandedOverInv` | kernel/resource.c:37-79 | handing a free lock over leaves it held, grants at least one request, and in shared mode leaves an exclusive one first |
| `Resource.StepInv` | kernel/resource.c:92-195 | each of the four operations keeps one owner or exactly NumShared sharers, waiters only behind a holder, and the first waiter in shared mode exclusive |
| `Resource.RunInv` | kernel/resource.c:37-195 | so does every run in which only holders unlock |
| `Resource.GrantedInTurn` | kernel/resource.c:37-195 | over every run, once n requests have been granted the one at wait position k is k - n from the front, or was granted as number k of them: nothing overtakes |
| `Resource.LastReleaseGrants` | kernel/resource.c:155-195 | the release that leaves no holder grants the lock to one exclusive waiter, or to all the shared ones in front of the first exclusive one; they hold it then, and nobody else |
| `Resource.OtherReleases` | kernel/resource.c:155-171 | a release that leaves other sharers takes one share away and wakes nobody |
| `Resource.ArrivalGranted` | kernel/resource.c:92-153 | a request is in force at once exactly if nobody stands in its way; otherwise it is the last to wait |
| `Scheduler.AssertsNeverFail` | kernel/locking.c:93-127 | no state assertion or panic of the locking and wake functions is reached |
| `Scheduler.WakeTargetsOthers` | kernel/scheduler.c:135-162 | an ordinary thread that waits is never active nor queued, so waking it is always possible |
| `Scheduler.SwitchInv` | kernel/scheduler.c:231-287 | a switch keeps every context in its one place |
| `Scheduler.BlockInv` | kernel/locking.c:108-127 | so does blocking together with the switch that follows |
| `Scheduler.StepInv` | kernel/scheduler.c:111-287 | so does every lock operation, yield, start and end of a thread |
| `Scheduler.RunInv` | kernel/scheduler.c:111-287 | and so does every run |
| `Scheduler.ExactlyOnePlace` | kernel/scheduler.c:111-287 | over every run a started, unfinished, non-idle thread is exactly one of active, once in the run queue, or BLOCKED and once on one wait list |
| `Scheduler.DoneForever` | kernel/scheduler.c:266-287 | over every run a thread that is DONE stays so, and is never active, queued or waiting |
| `Scheduler.FinishEnds` | kernel/scheduler.c:468-482 | the thread that finishes is DONE |
| `Scheduler.IdleByDefault` | kernel/scheduler.c:266-287 | the idle thread runs by default only if the run queue is empty and the thread switched out cannot run on |
| `Scheduler.PlainContext` | kernel/locking.c:147-209 | a context that does not block is ACQUIRED when its lock is taken or handed over and BLOCKING in between, and polling an acquired one makes it free for use again |
| `Scheduler.StepMovesUp` | kernel/scheduler.c:266-287 | a queued thread moves up by one at each Schedule and otherwise keeps its place |
| `Scheduler.MovesUp` | kernel/scheduler.c:266-287 | over every run, after n <= k calls of Schedule the thread at position k is at position k - n and has not run |
| `Scheduler.DispatchedInTurn` | kernel/scheduler.c:266-287 | the thread at position k is dispatched by the (k+1)-th Schedule of any run |
| `Scheduler.WaitsInTurn` | kernel/semaphore.c:26-55 | over every run the waiters of a lock are woken in the order in which they blocked |
| `Scheduler.Kernel.constructor` | kernel/scheduler.c:371-403 | only the idle thread, active |
| `Scheduler.Kernel.SchedulerBlockThread` | kernel/scheduler.c:218-225 | the active thread is BLOCKED and a switch requested |
| `Scheduler.Kernel.SchedulerResumeThread` | kernel/scheduler.c:184-192 | a blocked thread is running again, at the end of the run queue |
| `Scheduler.Kernel.SchedulerWakeOnLock` | kernel/scheduler.c:135-162 | a blocked thread is woken, a ready one left alone; the panic is not reached |
| `Scheduler.Kernel.LockingWakeNonBlocking` | kernel/locking.c:191-209 | a caller that does not block finds its lock acquired |
| `Scheduler.Kernel.LockingAcquire` | kernel/locking.c:93-102 | the wake function of the context, thread or not |
| `Scheduler.Kernel.LockingBlock` | kernel/locking.c:108-127 | the context is BLOCKING; a thread is also BLOCKED and will be switched out |
| `Scheduler.Kernel.LockingIsAcquired` | kernel/locking.c:147-176 | true exactly if the context stands on no wait list |
| `Scheduler.Kernel.Schedule` | kernel/scheduler.c:266-287 | a running thread other than the idle one goes to the end of the queue, and the first in the queue is next |
| `Scheduler.Kernel.EndCritical` | kernel/scheduler.c:343-369 | a requested switch, and only that, happens at the end of the critical section |
| `Scheduler.Kernel.SemaphoreDown` | kernel/semaphore.c:26-38 | takes one from the count or blocks at the end of the wait list, as the semaphore of a pipe does; nobody ever waits on a positive count |
| `Scheduler.Kernel.SemaphoreUp` | kernel/semaphore.c:40-55 | hands over to the first waiter, or adds one to the count, as the semaphore of a pipe does |
| `Scheduler.Kernel.SchedulerForceSwitch` | kernel/scheduler.c:171-178 | the active thread goes to the end of the queue |
| `Scheduler.Kernel.FinishThread` | kernel/scheduler.c:468-482 | the thread is DONE and never scheduled again |
| `Scheduler.Kernel.SchedulerCreateThread` | kernel/scheduler.c:489-522 | a started thread is at the end of the queue, another one nowhere |
| `LinkedList.Insert` | utils/linkedlist.c:8-24 | the node joins the ring before its first node, which is also after its last |
| `LinkedList.Remove` | utils/linkedlist.c:30-38 | the ring closes without the node, wherever it stood, and the node is a ring of its own |
| `LinkedList.List.Push` | utils/linkedlist.c:41-47 | one more at the front |
| `LinkedList.List.Enqueue` | utils/linkedlist.c:73-79 | one more at the end |
| `LinkedList.List.Pop` | utils/linkedlist.c:50-70 | the first node leaves, or null from an empty list |
| `Isr.TopIsHighest` | kernel/isr.c:177-188 | what the downward loop finds is the highest level with a positive count |
| `Isr.IsrUnit.constructor` | kernel/isr.c:31-38 | no level disabled |
| `Isr.IsrUnit.IsrCheckLevel` | kernel/isr.c:158-166 | the hardware level is set exactly for a candidate that is, or is being, disabled |
| `Isr.IsrUnit.IsrDefer` | kernel/isr.c:177-188 | the hardware level becomes the highest level disabled, counting the one being changed |
| `Isr.IsrUnit.IsrDisable` | kernel/isr.c:63-70 | one more count; the hardware level is the higher of the old one and this one |
| `Isr.IsrUnit.IsrEnable` | kernel/isr.c:75-89 | one count less, and the hardware level is again the highest disabled one; the atomicity ASSERT follows from the count |
| `Isr.IsrUnit.IsrHandlerWrapper` | kernel/isr.c:44-48 | the handler runs with its level disabled, and counts and level are restored |
| `Isr.IsrUnit.Perform` | kernel/isr.c:44-89 | in every well-nested run with interrupts coming in, exactly those above the level in force are taken, with their handlers, and counts and level end as they began |
| `Isr.TakenAbove` | kernel/isr.c:44-89 | every interrupt taken was above the level in force, which is never below the one at the start |
| `Isr.TakenAppend` | kernel/isr.c:44-89 | what comes in during one piece of code does not depend on the code before it |
| `Isr.InterruptTaken` | kernel/isr.c:44-48 | an interrupt is taken if and only if it is above the level in force, and its handler then runs at its level |
| `Isr.SectionMasks` | kernel/isr.c:63-89 | a section runs at the higher of the two levels and masks everything up to it |

## Left out

- The Lisp evaluator and primitives (kernel/minilisp.c:524-938): evaluation may not end, and would add breadth.
- The hardware layer, contexts and coroutines: abstracted to setting the hardware level, switching and arming the timer.
- Byte-level contents of Lisp objects: the heap holds typed objects; a new object's fields are blank until filled.
- `debug_gc` output, and the message texts of errors: an error is an outcome that stops.
- Allocator.AllocBlock.constructor: takes `gc_running` to be false, which `lisp_init` leaves unset; `Symbols` is set as `lisp_repl_main` sets it.
- Input bytes from 128 to 254 in the reader: they are taken to be neither letters nor digits, as in the C locale with signed characters.
- Overflow of `read_number` is an outcome of its own: the C behaviour is undefined.
- PipeRead and PipeWrite of size zero, and rings of size zero: the code does not support them.
- Wrap-around of ring indices, heap numbers and counts: they stay below the buffer size, the number of nodes or threads.
- WeightedHeap.Heap.FindElement: takes `1 << steps` as a power of two, without the limit of an int, which only a heap of 2^31 nodes would reach.
- HandlerRun, HandlerRegister and the soft interrupt queue behind fired timers.
- The re-arming at the end of `TimerRegister` (kernel/timer.c:156): it runs outside the masked section and depends on interrupts not delivered yet.
- FloodFill.FloodMap.FloodFillCalculate: asks for a square maze; in any other the decoding of events goes wrong, as FloodFill.DecodeExact says. Solve and the methods called with it ask for the same.
- Whether the mouse reaches its goal.
- Scheduler.Kernel.SemaphoreUp: asks that the idle thread is not woken while it stands in the run queue, where its one link is in use; wake-ups from handlers that run between a block and its switch are not modelled.
- Scheduler.Kernel.SchedulerSwitch: changes the active thread; stacks and the clearing of NextThread are not modelled.
- Priorities and the length of a quantum: an eviction may come at any point between operations.
- IsrIncrement and IsrDecrement, which trust the caller to restore the level, and the debugging checks IsrIsAtomic and IsrIsEdge.
- Isr.IsrUnit.Perform: interrupts come in between calls, not inside one.
- The worker, serial, watchdog, signal, generation, barrier, mutex and socket units, and the atomic list.
- RingBufferPeak, and diagnostic printing.
