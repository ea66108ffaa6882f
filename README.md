# deep_go homework cores, modelled in Dafny

This project models the data structures and algorithms of eight Go exercises in
the deep_go course repository and proves what their code promises. There is one
module per exercise:

- **Scheduling** (`scheduler.dfy`): the task scheduler of
  goroutines_and_scheduler.
  - `TasksQueue` is a max-heap of tasks kept in a slice, together with a map
    from task identifier to slot. Its heap.Interface methods (Len, Less, Swap,
    Push, Pop) and `Update` are methods of a class.
  - The algorithms container/heap runs on it (up, down, Fix, Push, Pop) are
    written out as methods. container/heap itself is not part of this model;
    its algorithms are written from their documented behaviour.
  - The abstract content is the map from queued identifier to priority.
    Popping yields a task of maximal priority.
- **CircularQueues** (`circular_queue.dfy`): the fixed-size ring buffer of
  slices_and_arrays.
  - The class keeps its buffer, `len`, `front` and `rear`.
  - Its content is the window of `len` slots from `front` onward.
  - `Resize` copies the oldest `min(len, newSize)` elements to the start of a
    fresh buffer.
- **OrderedMaps** (`ordered_map.dfy`): the unbalanced binary-search-tree map of
  the maps exercise.
  - `findNode` is a loop.
  - Insert, Erase (with popMinNode) and traverse are functions on a `Tree`
    value. The class holds the root and the stored size.
  - The proofs cover the search-tree order, the key/value bindings, the node
    count, and an in-order visit that is strictly ascending.
- **GamePersons** (`game_person.dfy`): the bit-packed `GamePerson` of the
  structs exercise.
  - It has a 42-byte name buffer, two 16-bit words, two bytes, 32-bit
    coordinates and gold.
  - Each option closure is a constructor of the `Option` datatype.
  - Each mask is a contiguous run of bits with its shift and width.
- **ByteOrder** (`byte_order.dfy`): `ToLittleEndian` of data_types. It is a
  counted shift loop over a value of 2, 4 or 8 bytes, proved to reverse the
  bytes.
- **MultiErrors** (`multi_error.dfy`): the aggregated error of the errors
  exercise.
  - `Append` skips nil errors and splices in the list of any `*MultiError` it
    is given.
  - `Error()` renders a count line followed by one `\t* ` item per error.
- **DIContainers** (`di_container.dfy`): the dependency-injection container of
  interfaces.
  - It keeps three tables: constructors, singleton marks and cached instances.
  - A built instance is a newly allocated object, so pointer identity in the
    test becomes object identity.
- **Properties** (`properties.dfy`): the reflection-driven properties
  serializer of generics_and_reflection.
  - Values are rendered by kind.
  - A struct renders as one `name=value` line per field, with the name and
    `omitempty` read from the field's `properties` tag.
- **Decimal** (`decimal.dfy`): `%d`, `strconv.FormatInt`/`FormatUint` in base
  10, and `strconv.FormatBool`. The errors and serializer modules share it.

Each exercise's test function is replayed against the model as a scenario
method or lemma.

## Model

| member | source | states |
|---|---|---|
| Scheduling.SwapSlots | homework/goroutines_and_scheduler/homework_test.go:32-33 | the slice after swapping two slots: the two slots exchanged, every other slot kept |
| Scheduling.SwapKeepsIndex | homework/goroutines_and_scheduler/homework_test.go:32-36 | swapping two slots and rewriting both index entries keeps the index a bijection and keeps every identifier's priority |
| Scheduling.PushKeepsIndex | homework/goroutines_and_scheduler/homework_test.go:38-42 | appending a task with a fresh identifier and indexing it at the last slot adds exactly that identifier with its priority |
| Scheduling.PopKeepsIndex | homework/goroutines_and_scheduler/homework_test.go:44-49 | truncating the last slot and deleting its identifier removes exactly that identifier |
| Scheduling.SetPriorityKeepsIndex | homework/goroutines_and_scheduler/homework_test.go:51-53 | rewriting the priority in a queued identifier's slot changes only that identifier's priority |
| Scheduling.IndexSize | homework/goroutines_and_scheduler/homework_test.go:24-26 | with a consistent index the number of slots, of indexed identifiers and of queued priorities agree |
| Scheduling.RootDominates | homework/goroutines_and_scheduler/homework_test.go:28-30 | in a heap ordered by Less no task outranks the root |
| Scheduling.DownStep | homework/goroutines_and_scheduler/homework_test.go:28-36 | swapping a slot with its larger child, which outranks it, moves the only heap-order defect down to that child |
| Scheduling.DownStops | homework/goroutines_and_scheduler/homework_test.go:28-30 | when no child outranks the slot, only the edge above it can be out of order, and none is when the parent dominates |
| Scheduling.UpStep | homework/goroutines_and_scheduler/homework_test.go:28-36 | swapping a slot with the parent it outranks moves the only heap-order defect up to the parent |
| Scheduling.TasksQueue.constructor | homework/goroutines_and_scheduler/homework_test.go:20-22 | NewTasksQueue: no tasks, an empty index, a valid empty heap |
| Scheduling.TasksQueue.Len | homework/goroutines_and_scheduler/homework_test.go:24-26 | the slice length, equal to the number of queued identifiers |
| Scheduling.TasksQueue.Less | homework/goroutines_and_scheduler/homework_test.go:28-30 | slot i ranks before slot j exactly when its task's queued priority is strictly higher; no slot ranks before itself |
| Scheduling.TasksQueue.Swap | homework/goroutines_and_scheduler/homework_test.go:32-36 | the slots are exchanged and both index entries rewritten; a valid queue stays valid with the same content |
| Scheduling.TasksQueue.Push | homework/goroutines_and_scheduler/homework_test.go:38-42 | appends the task and indexes it at the last slot; with a fresh identifier the content gains exactly that binding |
| Scheduling.TasksQueue.Pop | homework/goroutines_and_scheduler/homework_test.go:44-49 | returns the last task, truncates the slice and deletes its identifier from the index; the content loses exactly that identifier |
| Scheduling.TasksQueue.Up | homework/goroutines_and_scheduler/homework_test.go:28-36 | sift-up (container/heap up driving Less and Swap) restores heap order and keeps the content |
| Scheduling.TasksQueue.SwapDown | homework/goroutines_and_scheduler/homework_test.go:28-36 | one round of sift-down: the defect moves to the child, the content and the slots past n are kept |
| Scheduling.TasksQueue.Down | homework/goroutines_and_scheduler/homework_test.go:28-36 | sift-down over the first n slots keeps the content and the tail; when it moves the slot, the first n slots are heap-ordered |
| Scheduling.TasksQueue.Fix | homework/goroutines_and_scheduler/homework_test.go:54 | heap.Fix after a slot changed priority: heap order restored, content kept |
| Scheduling.TasksQueue.HeapPush | homework/goroutines_and_scheduler/homework_test.go:65-67 | heap.Push of a task with a fresh identifier: heap order kept, the content gains that binding |
| Scheduling.TasksQueue.HeapPop | homework/goroutines_and_scheduler/homework_test.go:73-75 | heap.Pop: the task returned has a maximal priority among the queued ones and is removed; heap order kept |
| Scheduling.TasksQueue.Update | homework/goroutines_and_scheduler/homework_test.go:51-55 | rewrites the priority of the identifier read from the index, which is the root's when the identifier is not queued, then Fix; heap order kept |
| Scheduling.UpdatedIsQueued | homework/goroutines_and_scheduler/homework_test.go:51-53 | the identifier Update rewrites is queued: it is the given one when that is queued, otherwise one of maximal priority |
| Scheduling.Scheduler.constructor | homework/goroutines_and_scheduler/homework_test.go:61-63 | NewScheduler: an empty valid queue |
| Scheduling.Scheduler.AddTask | homework/goroutines_and_scheduler/homework_test.go:65-67 | a task with a fresh identifier is added with its priority and nothing else changes |
| Scheduling.Scheduler.ChangeTaskPriority | homework/goroutines_and_scheduler/homework_test.go:69-71 | as written: the priority of the identifier Update picks is rewritten, and that is taskID whenever taskID is queued |
| Scheduling.Scheduler.TryChangeTaskPriority | homework/goroutines_and_scheduler/homework_test.go:51-55 | corrected: reports whether taskID is queued; if so rewrites its priority, otherwise changes nothing |
| Scheduling.Scheduler.GetTask | homework/goroutines_and_scheduler/homework_test.go:73-75 | returns a task of maximal priority and removes it; every other task stays |
| Scheduling.MaximumIsUnique | homework/goroutines_and_scheduler/homework_test.go:91-104 | when one task strictly outranks all others, an extraction returns that task |
| Scheduling.ScenarioFirstHalf | homework/goroutines_and_scheduler/homework_test.go:78-95 | from tasks 1..5 with priorities 10..50 the first two extractions give task5 and then task4, leaving 1..3 |
| Scheduling.ScenarioThird | homework/goroutines_and_scheduler/homework_test.go:97-101 | after identifier 1 is raised to 100 the next extraction gives it |
| Scheduling.ScenarioFourth | homework/goroutines_and_scheduler/homework_test.go:103-104 | the last extraction of the test gives task3 |
| Scheduling.FilledScheduler | homework/goroutines_and_scheduler/homework_test.go:78-89 | the five AddTask calls give exactly the bindings 1..5 to 10..50 |
| Scheduling.TwoTaskScheduler | homework/goroutines_and_scheduler/homework_test.go:65-67 | two AddTask calls give exactly their two bindings |
| Scheduling.UnknownIdentifierScenario | homework/goroutines_and_scheduler/homework_test.go:51-55 | as written: changing the priority of an identifier that is not queued demotes the root task, so the other task is extracted first |
| Scheduling.CheckedUnknownIdentifierScenario | homework/goroutines_and_scheduler/homework_test.go:51-55 | corrected: the unknown identifier is reported and the top task keeps its place |
| Scheduling.SchedulerScenario | homework/goroutines_and_scheduler/homework_test.go:77-105 | TestScheduler, with ChangeTaskPriority as written at line 97: the extractions give task5, task4, task1 (priority 100) and task3, in that order |
| CircularQueues.Wrap | homework/slices_and_arrays/homework_test.go:95-101 | a position below twice the size wraps once into the buffer |
| CircularQueues.WindowPush | homework/slices_and_arrays/homework_test.go:27-29 | writing the slot after the newest element and growing len appends that value to the content |
| CircularQueues.WindowPop | homework/slices_and_arrays/homework_test.go:39-40 | advancing front and shrinking len drops the oldest element of the content |
| CircularQueues.WindowPrefix | homework/slices_and_arrays/homework_test.go:80-82 | cutting len keeps the oldest elements of the content |
| CircularQueues.WindowFromStart | homework/slices_and_arrays/homework_test.go:90-92 | a content starting at slot 0 is a prefix of the buffer |
| CircularQueues.CircularQueue.Contents | homework/slices_and_arrays/homework_test.go:13-16 | the live elements, oldest first; there are len of them |
| CircularQueues.CircularQueue.constructor | homework/slices_and_arrays/homework_test.go:18-20 | NewCircularQueue: a zeroed buffer of the given size, rear -1, nothing queued |
| CircularQueues.CircularQueue.Size | homework/slices_and_arrays/homework_test.go:69-71 | the number of slots, which bounds how many elements a valid queue holds |
| CircularQueues.CircularQueue.NextPos | homework/slices_and_arrays/homework_test.go:95-101 | nextPos: the slot after pos modulo the size, with -1 stepping to 0 |
| CircularQueues.CircularQueue.Empty | homework/slices_and_arrays/homework_test.go:61-63 | true exactly when nothing is queued |
| CircularQueues.CircularQueue.Full | homework/slices_and_arrays/homework_test.go:65-67 | true exactly when as many elements are queued as there are slots |
| CircularQueues.CircularQueue.Front | homework/slices_and_arrays/homework_test.go:45-51 | the oldest element, or -1 on an empty queue |
| CircularQueues.CircularQueue.Back | homework/slices_and_arrays/homework_test.go:53-59 | the newest element, or -1 on an empty queue |
| CircularQueues.CircularQueue.Push | homework/slices_and_arrays/homework_test.go:22-32 | fails exactly when full, changing nothing; otherwise appends the value, which becomes Back, by writing the slot after rear |
| CircularQueues.CircularQueue.Pop | homework/slices_and_arrays/homework_test.go:34-43 | fails exactly when empty, changing nothing; otherwise drops the oldest element and leaves the buffer as it is |
| CircularQueues.CircularQueue.Clear | homework/slices_and_arrays/homework_test.go:73-77 | nothing queued, front 0, rear -1; the buffer is untouched |
| CircularQueues.CircularQueue.CopyLive | homework/slices_and_arrays/homework_test.go:84-88 | the copying loop of Resize: a fresh zeroed buffer starting with the live elements in order |
| CircularQueues.CircularQueue.Resize | homework/slices_and_arrays/homework_test.go:79-93 | a fresh buffer of the new size holding the oldest min(len, newSize) elements from slot 0, then zeros; front 0, rear len-1 |
| CircularQueues.PushThree | homework/slices_and_arrays/homework_test.go:115-117 | three pushes into an empty queue of three slots are all accepted and fill slots 0..2 in order |
| CircularQueues.CriticalPathScenario | homework/slices_and_arrays/homework_test.go:104-145 | the "critical path" case: a fresh queue is empty, not full, has front and back -1 and refuses a pop; three pushes are accepted and a fourth refused, leaving buffer [1,2,3], full, front 1, back 3; a pop leaves it neither empty nor full and a push wraps to [4,2,3] with front 2 and back 4; three pops are accepted, a fourth refused, and the queue ends empty and not full |
| CircularQueues.Drain | homework/slices_and_arrays/homework_test.go:138-141 | three pops of a queue of three elements are accepted and empty it; a fourth is refused |
| CircularQueues.FillStage | homework/slices_and_arrays/homework_test.go:105-126 | the first part of the "critical path" case, up to the full queue [1,2,3] with its checks |
| CircularQueues.WrapStage | homework/slices_and_arrays/homework_test.go:128-136 | the pop and the wrapping push of the "critical path" case, with their checks |
| CircularQueues.ClearScenario | homework/slices_and_arrays/homework_test.go:147-164 | the "clear queue" case: three accepted pushes give [1,2,3]; after Clear three accepted pushes give [4,5,6] with front 4 and back 6 |
| CircularQueues.TwoSlotQueue | homework/slices_and_arrays/homework_test.go:171-178 | push 1, push 2, pop, push 3 on two slots are all accepted and leave buffer [3,2] with the oldest element in slot 1 |
| CircularQueues.GrowStage | homework/slices_and_arrays/homework_test.go:167-186 | the "resize queue" case up to the grown queue: sizes, fullness, buffers, front and back before and after growing to four slots |
| CircularQueues.RefillGrown | homework/slices_and_arrays/homework_test.go:188-191 | on the grown queue two pushes, a pop and a push are all accepted and wrap the newest element to slot 0: [6,3,4,5] |
| CircularQueues.ShrinkStage | homework/slices_and_arrays/homework_test.go:188-202 | the refilled queue [6,3,4,5], full with front 3 and back 6, then shrunk to two slots: full, [3,4], front 3, back 4 |
| CircularQueues.ResizeScenario | homework/slices_and_arrays/homework_test.go:166-203 | the "resize queue" case: size 2, four accepted steps, buffer [3,2] full with front 2 and back 3; size 4 after growing, not full, [2,3,0,0] with front 2 and back 3; four accepted steps to [6,3,4,5], full, front 3, back 6; size 2 after shrinking, full, [3,4] with front 3 and back 4 |
| OrderedMaps.ToMap | homework/maps/homewrok_test.go:12-21 | the bindings a tree holds; its keys are the tree's keys |
| OrderedMaps.CountIsSize | homework/maps/homewrok_test.go:84-86 | in a search tree the node count is the number of distinct keys |
| OrderedMaps.LookupBelow | homework/maps/homewrok_test.go:101-105 | a key other than the node's lies in the subtree the comparison chooses, bound to the same value |
| OrderedMaps.SubtreeOfChild | homework/maps/homewrok_test.go:102-104 | the children of a node below the root are themselves below the root |
| OrderedMaps.FindNode | homework/maps/homewrok_test.go:94-109 | findNode finds a node exactly when the key is present, holding its value; the parent is the last node of the search path (SearchParent, defined by recursion over the tree), and the node is the parent's child the key selects |
| OrderedMaps.InsertTree | homework/maps/homewrok_test.go:27-45 | insert on values: the keys afterwards are the keys before plus the new key |
| OrderedMaps.InsertOrdered | homework/maps/homewrok_test.go:35-42 | linking the new node where the search ends keeps the search-tree order |
| OrderedMaps.InsertBinds | homework/maps/homewrok_test.go:27-45 | after Insert the key is bound to the new value and every other binding is kept |
| OrderedMaps.InsertCount | homework/maps/homewrok_test.go:30-44 | a node is added exactly when the key was absent |
| OrderedMaps.DetachMin | homework/maps/homewrok_test.go:111-123 | popMinNode: the leftmost node is unlinked; the rest holds every other key and one node fewer |
| OrderedMaps.DetachMinOrdered | homework/maps/homewrok_test.go:111-123 | the detached node holds the smallest key and its value; the rest is a search tree holding every other binding |
| OrderedMaps.Replacement | homework/maps/homewrok_test.go:53-65 | the subtree that takes the erased node's place, in the four cases of Erase, has one node fewer |
| OrderedMaps.AdoptLeft | homework/maps/homewrok_test.go:59-61 | a right child with no left child that adopts the erased node's left subtree is a search tree with every key but the erased one |
| OrderedMaps.AdoptLeftBindings | homework/maps/homewrok_test.go:59-61 | the same adoption keeps every binding but the erased one |
| OrderedMaps.Successor | homework/maps/homewrok_test.go:62-64 | the in-order successor, detached and put in the erased node's place, gives a search tree with every key but the erased one |
| OrderedMaps.SuccessorBindings | homework/maps/homewrok_test.go:62-64 | the same replacement keeps every binding but the erased one |
| OrderedMaps.ReplacementOrdered | homework/maps/homewrok_test.go:53-65 | the replacement is a search tree with the node's keys minus its own |
| OrderedMaps.ReplacementUnbinds | homework/maps/homewrok_test.go:53-65 | the replacement holds the node's bindings minus its own |
| OrderedMaps.EraseTree | homework/maps/homewrok_test.go:47-77 | erase on values: an absent key leaves the tree unchanged |
| OrderedMaps.EraseOrdered | homework/maps/homewrok_test.go:47-77 | Erase keeps the search-tree order and removes exactly that key |
| OrderedMaps.EraseUnbinds | homework/maps/homewrok_test.go:47-77 | Erase removes exactly that key's binding and keeps every other one |
| OrderedMaps.EraseCount | homework/maps/homewrok_test.go:49-76 | Erase drops one node exactly when the key was present |
| OrderedMaps.Traverse | homework/maps/homewrok_test.go:125-135 | traverse visits one pair per node: left subtree, node, right subtree |
| OrderedMaps.VisitedAround | homework/maps/homewrok_test.go:126-134 | the keys of a visit around a node are the left keys, the node's and the right keys |
| OrderedMaps.TraverseKeys | homework/maps/homewrok_test.go:125-135 | the visit reaches every key of the tree and nothing else |
| OrderedMaps.AscendingAround | homework/maps/homewrok_test.go:126-134 | two ascending visits around a key between them join into an ascending visit |
| OrderedMaps.TraverseAscending | homework/maps/homewrok_test.go:125-135 | a search tree is visited in strictly ascending key order, each key once |
| OrderedMaps.BindingsAround | homework/maps/homewrok_test.go:126-134 | a visit around a node holds bindings of a map when its parts and the node's pair do |
| OrderedMaps.BindingsWiden | homework/maps/homewrok_test.go:126-134 | bindings of a smaller map that agrees with a larger one are bindings of the larger |
| OrderedMaps.SubtreeBindings | homework/maps/homewrok_test.go:126-134 | a search tree's subtrees' bindings, and the node's own pair, are bindings of the tree |
| OrderedMaps.TraverseBindings | homework/maps/homewrok_test.go:125-135 | every visited pair is a binding of the tree |
| OrderedMaps.KeysInOrder | homework/maps/homewrok_test.go:156-158 | the keys the test's action appends, in visiting order |
| OrderedMaps.OrderedMap.constructor | homework/maps/homewrok_test.go:23-25 | NewOrderedMap: no root, size 0, no bindings |
| OrderedMaps.OrderedMap.Insert | homework/maps/homewrok_test.go:27-45 | binds key to value, keeps every other binding, and counts one more node exactly when the key is new |
| OrderedMaps.OrderedMap.Erase | homework/maps/homewrok_test.go:47-77 | removes the key's binding, keeps every other one, and counts one node fewer exactly when the key was present |
| OrderedMaps.OrderedMap.Contains | homework/maps/homewrok_test.go:79-82 | true exactly when the key is bound |
| OrderedMaps.OrderedMap.Size | homework/maps/homewrok_test.go:84-86 | the stored size is the number of bindings |
| OrderedMaps.OrderedMap.ForEach | homework/maps/homewrok_test.go:88-92 | the action sees every binding exactly once, in strictly ascending key order, with its value |
| OrderedMaps.InsertBelowLeaf | homework/maps/homewrok_test.go:145 | inserting a key between a leaf and its parent hangs it right of the leaf |
| OrderedMaps.InsertsBuildFour | homework/maps/homewrok_test.go:141-144 | the first four inserts of the test's order build a root with a left chain and a right leaf |
| OrderedMaps.InsertsBuildSevenNodes | homework/maps/homewrok_test.go:141-147 | seven ascending keys inserted in the test's order build the tree SevenNodes |
| OrderedMaps.ThreeNodesShape | homework/maps/homewrok_test.go:149 | the keys and node count of a three-node subtree of that tree |
| OrderedMaps.SevenNodesShape | homework/maps/homewrok_test.go:149 | that tree holds exactly its seven keys and seven nodes |
| OrderedMaps.InsertedTree | homework/maps/homewrok_test.go:141-147 | inserting 10, 5, 15, 2, 4, 12, 14 builds the test's tree |
| OrderedMaps.ErasedTrees | homework/maps/homewrok_test.go:161-163 | erasing 15, 14 and 2 prunes its leaves and one-child nodes; erasing the root 10 then promotes 12 |
| OrderedMaps.InsertedShape | homework/maps/homewrok_test.go:149-153 | the tree after the inserts has 7 nodes, holds 4 and 12 but not 3 or 13 |
| OrderedMaps.PrunedShape | homework/maps/homewrok_test.go:165-169 | after the three erasures: 4 nodes, holding 4 and 12 but not 2 or 14 |
| OrderedMaps.KeysOfVisit | homework/maps/homewrok_test.go:155-158 | the key sequence of a visit is fixed by its keys one by one |
| OrderedMaps.VisitAround | homework/maps/homewrok_test.go:126-134 | a node's visited keys are its left keys, its own, then its right keys |
| OrderedMaps.LeafVisit | homework/maps/homewrok_test.go:130 | a leaf visits only its own key |
| OrderedMaps.LowerVisit | homework/maps/homewrok_test.go:126-134 | the visit order of a three-node subtree |
| OrderedMaps.SevenNodesVisit | homework/maps/homewrok_test.go:155-159 | the tree SevenNodes visits its keys in ascending order |
| OrderedMaps.InsertedVisit | homework/maps/homewrok_test.go:155-159 | after the inserts the visited keys are 2, 4, 5, 10, 12, 14, 15 |
| OrderedMaps.PrunedVisit | homework/maps/homewrok_test.go:171-175 | after the three erasures the visited keys are 4, 5, 10, 12 |
| OrderedMaps.RootErasedVisit | homework/maps/homewrok_test.go:177-183 | after erasing the root the visited keys are 4, 5, 12 |
| OrderedMaps.InsertedMap | homework/maps/homewrok_test.go:138-147 | a new map has size 0, and the seven inserts build the test's tree |
| OrderedMaps.InsertScenario | homework/maps/homewrok_test.go:137-159 | the first half of TestOrderedMap: sizes 0 and 7, Contains 4 and 12 true, 3 and 13 false, ascending keys |
| OrderedMaps.PrunedMap | homework/maps/homewrok_test.go:161-163 | the three erasures give the pruned tree |
| OrderedMaps.EraseScenario | homework/maps/homewrok_test.go:161-183 | the second half of TestOrderedMap: size 4, the lookups, keys [4,5,10,12], then [4,5,12] after erasing the root |
| GamePersons.BitsOf | homework/structs/homework_test.go:35 | the n low bits of a value: exactly n of them |
| GamePersons.ValueOfBitsOf | homework/structs/homework_test.go:35 | a value below 2^n survives being written as n bits and read back |
| GamePersons.ValueOfClear | homework/structs/homework_test.go:149 | a run of clear bits in the zero person reads as 0 |
| GamePersons.Write | homework/structs/homework_test.go:58 | `w &^ mask \| v << shift` on one run of bits: the word keeps its width |
| GamePersons.ReadWrite | homework/structs/homework_test.go:58 | a value that fits its mask reads back through the matching getter |
| GamePersons.ReadOther | homework/structs/homework_test.go:11-27 | writing one mask leaves every non-overlapping mask of the word unchanged |
| GamePersons.WriteTwice | homework/structs/homework_test.go:58 | writing a mask twice is writing it once with the second value |
| GamePersons.ToInt32 | homework/structs/homework_test.go:41-43 | int32(v): a 32-bit value congruent to v modulo 2^32, equal to v when v fits |
| GamePersons.ToUint32 | homework/structs/homework_test.go:49 | uint32(v): a 32-bit unsigned value congruent to v modulo 2^32, equal to v when v fits |
| GamePersons.CopyName | homework/structs/homework_test.go:33 | copy into the name buffer: the first min(42, len) bytes of the text, and the rest of the buffer kept |
| GamePersons.SetName | homework/structs/homework_test.go:31-37 | the WithName closure touches only the name buffer and f1 |
| GamePersons.SetMana | homework/structs/homework_test.go:53-60 | the WithMana closure touches only f1 |
| GamePersons.SetHealth | homework/structs/homework_test.go:62-69 | the WithHealth closure touches only f2 |
| GamePersons.SetRespect | homework/structs/homework_test.go:71-78 | the WithRespect closure touches only f3 |
| GamePersons.SetStrength | homework/structs/homework_test.go:80-87 | the WithStrength closure touches only f3 |
| GamePersons.SetExperience | homework/structs/homework_test.go:89-96 | the WithExperience closure touches only f4 |
| GamePersons.SetLevel | homework/structs/homework_test.go:98-105 | the WithLevel closure touches only f4 |
| GamePersons.SetFlag | homework/structs/homework_test.go:107-123 | the WithHouse, WithGun and WithFamily closures touch only f2 |
| GamePersons.SetType | homework/structs/homework_test.go:125-132 | the WithType closure touches only f2 |
| GamePersons.Apply | homework/structs/homework_test.go:29-132 | running one option: only WithName changes the name buffer, only WithName and WithMana change f1, only the respect and strength options change f3, only experience and level change f4, only WithCoordinates changes x, y and z, only WithGold changes gold |
| GamePersons.X | homework/structs/homework_test.go:161-163 | X(): an int32 value |
| GamePersons.Y | homework/structs/homework_test.go:165-167 | Y(): an int32 value |
| GamePersons.Z | homework/structs/homework_test.go:169-171 | Z(): an int32 value |
| GamePersons.Gold | homework/structs/homework_test.go:173-175 | Gold(): a uint32 value |
| GamePersons.Mana | homework/structs/homework_test.go:177-179 | Mana(): a 10-bit value |
| GamePersons.Health | homework/structs/homework_test.go:181-183 | Health(): a 10-bit value |
| GamePersons.Respect | homework/structs/homework_test.go:185-187 | Respect(): a 4-bit value |
| GamePersons.Strength | homework/structs/homework_test.go:189-191 | Strength(): a 4-bit value |
| GamePersons.Experience | homework/structs/homework_test.go:193-195 | Experience(): a 4-bit value |
| GamePersons.Level | homework/structs/homework_test.go:197-199 | Level() as written: a 4-bit value, read from f3 (LevelIsStrength shows it is Strength()) |
| GamePersons.HasHouse | homework/structs/homework_test.go:201-203 | HasHouse(): true exactly when bit 10 of f2 is set |
| GamePersons.HasGun | homework/structs/homework_test.go:205-207 | HasGun(): true exactly when bit 11 of f2 is set |
| GamePersons.HasFamilty | homework/structs/homework_test.go:209-211 | HasFamilty(): true exactly when bit 12 of f2 is set |
| GamePersons.Type | homework/structs/homework_test.go:213-215 | Type(): a 2-bit value |
| GamePersons.NameOption | homework/structs/homework_test.go:31-37 | WithName: Name() returns the first min(42, len) bytes of the text; mana is kept and only the buffer and f1 change |
| GamePersons.ManaOption | homework/structs/homework_test.go:53-60 | WithMana in 0..1000 sets Mana() and keeps the name length; out of range changes nothing |
| GamePersons.HealthOption | homework/structs/homework_test.go:62-69 | WithHealth in 0..1000 sets Health() and keeps the flags and type; out of range changes nothing |
| GamePersons.RespectOption | homework/structs/homework_test.go:71-78 | WithRespect in 0..10 sets Respect() and keeps Strength(); out of range changes nothing |
| GamePersons.StrengthOption | homework/structs/homework_test.go:80-87 | WithStrength in 0..10 sets Strength() and keeps Respect(); out of range changes nothing |
| GamePersons.ExperienceOption | homework/structs/homework_test.go:89-96 | WithExperience in 0..10 sets Experience() and keeps the level nibble; out of range changes nothing |
| GamePersons.LevelOption | homework/structs/homework_test.go:98-105 | WithLevel in 0..10 sets the high nibble of f4, which the corrected getter reads back, and keeps Experience(); out of range changes nothing |
| GamePersons.LevelIsStrength | homework/structs/homework_test.go:189-199 | Level() as written always equals Strength() |
| GamePersons.LevelNotReadBack | homework/structs/homework_test.go:197-199 | as written, WithLevel(5) on the zero person stores 5 in f4, yet Level() returns 0 |
| GamePersons.FlagKeeps | homework/structs/homework_test.go:107-123 | setting a flag bit sets it, keeps health, type and the other flags, and is idempotent |
| GamePersons.HouseOption | homework/structs/homework_test.go:107-111 | WithHouse: HasHouse() holds; health, type and the other flags are kept; applying it twice is applying it once |
| GamePersons.GunOption | homework/structs/homework_test.go:113-117 | WithGun: HasGun() holds; health, type and the other flags are kept; applying it twice is applying it once |
| GamePersons.FamilyOption | homework/structs/homework_test.go:119-123 | WithFamily: HasFamilty() holds; health, type and the other flags are kept; applying it twice is applying it once |
| GamePersons.TypeOption | homework/structs/homework_test.go:125-132 | WithType of one of the three types sets Type() and keeps health and the flags; any other value changes nothing |
| GamePersons.CoordinatesAndGoldOptions | homework/structs/homework_test.go:39-51 | the coordinate and gold getters return the argument truncated to 32 bits, and the argument itself when it fits |
| GamePersons.LaterManaWins | homework/structs/homework_test.go:148-154 | of two mana options applied in order, the later valid one wins |
| GamePersons.ApplyKeepsNameFits | homework/structs/homework_test.go:29-132 | no option can make the stored name length exceed the 42-byte buffer |
| GamePersons.ApplyAllKeepsNameFits | homework/structs/homework_test.go:148-154 | neither can any list of options |
| GamePersons.ApplyAllSnoc | homework/structs/homework_test.go:150-152 | applying one more option after a list is applying the longer list |
| GamePersons.NewGamePerson | homework/structs/homework_test.go:148-154 | the zero person with every option applied in order; the name length fits |
| GamePersons.ZeroFields | homework/structs/homework_test.go:149 | the zero person has no mana, no name and no gun |
| GamePersons.StageStep | homework/structs/homework_test.go:150-152 | each step of the option loop applies the next option |
| GamePersons.SameName | homework/structs/homework_test.go:156-159 | a person whose buffer and f1 are unchanged has the same Name() |
| GamePersons.NameCoordinatesGoldStep | homework/structs/homework_test.go:232-234 | WithName, WithCoordinates and WithGold on the zero person give the test's name, coordinates and gold |
| GamePersons.TestStageThree | homework/structs/homework_test.go:231-251 | after the first three test options, the name, coordinates and gold checks hold |
| GamePersons.ManaHealthStep | homework/structs/homework_test.go:235-236 | WithMana(1000) and WithHealth(1000) set both and keep the earlier fields |
| GamePersons.TestStageFive | homework/structs/homework_test.go:231-253 | after five options the mana and health checks hold as well |
| GamePersons.NibblesStep | homework/structs/homework_test.go:237-240 | the four nibble options with 10 set all four nibbles and keep the earlier fields |
| GamePersons.TestStageNine | homework/structs/homework_test.go:231-256 | after nine options the respect, strength and experience checks hold, and f4's level nibble is 10 |
| GamePersons.FlagsTypeStep | homework/structs/homework_test.go:241-243 | WithHouse, WithFamily and WithType(Builder) set those and keep the earlier fields |
| GamePersons.TestStageAll | homework/structs/homework_test.go:231-261 | all twelve options of the test's shape, with any name that fits |
| GamePersons.TestPersonFields | homework/structs/homework_test.go:217-261 | the person the test builds satisfies every getter check of TestGamePerson |
| GamePersons.GamePersonScenario | homework/structs/homework_test.go:246-261 | TestGamePerson: every getter returns what the test expects; Level() is 10 only because Strength() is |
| ByteOrder.Pow256 | homework/data_types/homework_test.go:13-20 | 256 to the width: positive |
| ByteOrder.Pow256Grows | homework/data_types/homework_test.go:15 | a wider type holds at least as many values |
| ByteOrder.Bytes | homework/data_types/homework_test.go:16-17 | the w bytes of a value, lowest first, each below 256 |
| ByteOrder.Reverse | homework/data_types/homework_test.go:13-20 | byte k of the reversal is byte w-1-k |
| ByteOrder.ValueBound | homework/data_types/homework_test.go:13 | w bytes make a value below 256^w |
| ByteOrder.ValueOfBytes | homework/data_types/homework_test.go:16-17 | reading a value's bytes back gives the value when it fits |
| ByteOrder.BytesOfValue | homework/data_types/homework_test.go:16-17 | the bytes of the value of a byte list are that list |
| ByteOrder.ReverseBytes | homework/data_types/homework_test.go:16 | a reversed byte list is a byte list |
| ByteOrder.ReverseReverse | homework/data_types/homework_test.go:13-20 | reversing twice gives the list back |
| ByteOrder.SwappedBytes | homework/data_types/homework_test.go:13-20 | the swapped value fits the width and its byte k is the input's byte w-1-k |
| ByteOrder.SwappedTwice | homework/data_types/homework_test.go:13-20 | swapping the bytes twice gives the value back |
| ByteOrder.AllOnesValue | homework/data_types/homework_test.go:27 | a value with every byte 0xFF is the type's maximum |
| ByteOrder.ZeroValue | homework/data_types/homework_test.go:26 | a value with every byte 0 is 0 |
| ByteOrder.FixedPoints | homework/data_types/homework_test.go:26-27 | 0 and the all-ones value are their own swap at every width (also lines 43-44 and 61-62) |
| ByteOrder.SwappedValue | homework/data_types/homework_test.go:13-20 | a value given by its bytes swaps to the value of the reversed bytes |
| ByteOrder.ShiftFits | homework/data_types/homework_test.go:16 | `res << 8` in the width's type drops nothing while fewer than w bytes were taken |
| ByteOrder.ToLittleEndian | homework/data_types/homework_test.go:13-20 | the loop's result is the input with its w bytes reversed, and fits the width |
| ByteOrder.ValueSuffixes | homework/data_types/homework_test.go:16-17 | each suffix of a byte list is its first byte plus 256 times the rest |
| ByteOrder.Vector | homework/data_types/homework_test.go:22-73 | a test vector given by its bytes: the input fits and swaps to the value of the reversed bytes |
| ByteOrder.TestVector16 | homework/data_types/homework_test.go:29 | 0x0102 gives 0x0201 |
| ByteOrder.TestVector16b | homework/data_types/homework_test.go:30 | 0x0FF0 gives 0xF00F |
| ByteOrder.Vector4 | homework/data_types/homework_test.go:39-55 | any 4-byte value swaps to the value with its bytes reversed |
| ByteOrder.Value4 | homework/data_types/homework_test.go:39-55 | the value of four bytes as a weighted sum |
| ByteOrder.TestVector32 | homework/data_types/homework_test.go:47 | 0x01020304 gives 0x04030201 |
| ByteOrder.Value8 | homework/data_types/homework_test.go:57-73 | the value of eight bytes as a weighted sum |
| ByteOrder.Vector8 | homework/data_types/homework_test.go:57-73 | any 8-byte value swaps to the value with its bytes reversed |
| ByteOrder.Vector64 | homework/data_types/homework_test.go:65 | 0x0102030405060708 fits in 8 bytes and swaps to 0x0807060504030201 |
| ByteOrder.TestVector64 | homework/data_types/homework_test.go:65 | ToLittleEndian(0x0102030405060708) gives 0x0807060504030201 |
| MultiErrors.ItemsConcat | homework/errors/homework_test.go:29-31 | the items of two lists are the items of each, concatenated |
| MultiErrors.RenderShapes | homework/errors/homework_test.go:18-35 | Error(): "" for no errors, the sole error's text for one, otherwise the count line, the items and a newline |
| MultiErrors.UpToTab | homework/errors/homework_test.go:30 | the text up to the next tab, no longer than the input |
| MultiErrors.UpToTabOf | homework/errors/homework_test.go:30 | a tab-free message is read back up to the next item |
| MultiErrors.ItemSlices | homework/errors/homework_test.go:30 | an item is its "\t* " marker, the message, and what follows |
| MultiErrors.ParseItemsOf | homework/errors/homework_test.go:27-33 | when no message holds a tab, the messages are read back from the rendered items, in order |
| MultiErrors.FlattenConcat | homework/errors/homework_test.go:37-48 | appending two argument lists adds what each adds, in order |
| MultiErrors.FlattenFlat | homework/errors/homework_test.go:37-48 | arguments whose multi-errors are flat give a flat list: no nil and no nested multi-error |
| MultiErrors.FlattenMessages | homework/errors/homework_test.go:42-46 | plain messages pass through unchanged and in order |
| MultiErrors.FlattenMembers | homework/errors/homework_test.go:37-48 | an error ends up in the list exactly when it is a message among the arguments or inside a multi-error argument |
| MultiErrors.InSomeMultiSnoc | homework/errors/homework_test.go:42-43 | an error inside some multi-error argument is inside one of the first arguments or inside the last |
| MultiErrors.MultiError.constructor | homework/errors/homework_test.go:55 | the zero MultiError holds no errors |
| MultiErrors.MultiError.Append | homework/errors/homework_test.go:37-48 | the existing errors, then what each argument adds, in argument order: nils skipped, multi-errors spliced in, others appended |
| MultiErrors.MultiError.Error | homework/errors/homework_test.go:18-35 | the builder loop renders exactly the layout above |
| MultiErrors.ItemsSnoc | homework/errors/homework_test.go:29-31 | writing one more item appends it to the items so far |
| MultiErrors.Append | homework/errors/homework_test.go:54-59 | a fresh MultiError holding what the first error and then the rest add |
| MultiErrors.AppendOne | homework/errors/homework_test.go:54-59 | appending a message after any error value gives that value's errors, then the message |
| MultiErrors.TwoMessagesText | homework/errors/homework_test.go:18-35 | two messages render as the count line and one item each |
| MultiErrors.TwoErrorsMessage | homework/errors/homework_test.go:66 | the test's two errors render as its expected message |
| MultiErrors.ScenarioLists | homework/errors/homework_test.go:62-70 | the three appends of the test build [e1], [e1, e2] and [e1, e2, e3] |
| MultiErrors.AppendToNil | homework/errors/homework_test.go:63 | appending onto a nil error gives just the new error |
| MultiErrors.AppendToMulti | homework/errors/homework_test.go:64 | appending onto a multi-error gives its errors, then the new one |
| MultiErrors.AppendScenario | homework/errors/homework_test.go:61-76 | TestMultiError: the expected two-error message, and error 3 among the held errors |
| DIContainers.FailureOfAgrees | homework/interfaces/homework_test.go:53-84 | a resolve fails exactly when FailureOf names an error, and then with that error, whatever object the factory would make |
| DIContainers.RegisterKeepsValid | homework/interfaces/homework_test.go:44-51 | registering keeps every cached instance a singleton's and every singleton registered |
| DIContainers.ResolveKeepsValid | homework/interfaces/homework_test.go:67-84 | resolving keeps the same invariant |
| DIContainers.ResolveUnregistered | homework/interfaces/homework_test.go:54-57 | a name with no constructor fails with errUnregisteredType and changes nothing |
| DIContainers.ResolveInvalid | homework/interfaces/homework_test.go:59-62 | a constructor that is not a `func() interface{}` fails with errInvalidConstructor unless an instance is cached |
| DIContainers.ResolveTransient | homework/interfaces/homework_test.go:68-70 | a plain type is built afresh on each resolve and nothing is cached |
| DIContainers.TransientDistinct | homework/interfaces/homework_test.go:95-102 | two resolves of a plain type give the two different objects its constructor made |
| DIContainers.SingletonCached | homework/interfaces/homework_test.go:72-83 | a singleton's first resolve caches what it built, and later resolves return that same object |
| DIContainers.ResolveFrame | homework/interfaces/homework_test.go:67-84 | a resolve never alters constructors or singleton marks; failures and plain types change nothing; success adds only the name's own cache entry |
| DIContainers.RegisterKeepsCache | homework/interfaces/homework_test.go:44-51 | re-registering a cached singleton replaces its constructor only; the cached object still resolves |
| DIContainers.Instance.constructor | homework/interfaces/homework_test.go:88-93 | a service object built by a factory, of the factory's type |
| DIContainers.Container.constructor | homework/interfaces/homework_test.go:36-42 | NewContainer: three empty tables |
| DIContainers.Container.RegisterType | homework/interfaces/homework_test.go:44-46 | the constructor table binds the name; nothing else changes |
| DIContainers.Container.RegisterSingletonType | homework/interfaces/homework_test.go:48-51 | registers the constructor and marks the name as a singleton |
| DIContainers.Container.BuildInstance | homework/interfaces/homework_test.go:53-65 | build: errUnregisteredType, errInvalidConstructor, or a freshly allocated object |
| DIContainers.Container.Resolve | homework/interfaces/homework_test.go:67-84 | Resolve: nil exactly on error, the error as FailureOf says, tables unchanged on failure, and a new object unless one was cached |
| DIContainers.ContainerScenario | homework/interfaces/homework_test.go:86-124 | TestDIContainer: distinct user services, a message service, errUnregisteredType for an unregistered payment service, then one shared singleton |
| Decimal.DigitChar | homework/generics_and_reflection/homework_test.go:35 | a digit value below 10 gives a digit character |
| Decimal.DigitValue | homework/generics_and_reflection/homework_test.go:35 | a digit character gives a value below 10 |
| Decimal.DigitRoundTrip | homework/generics_and_reflection/homework_test.go:35 | a digit's character reads back as the digit |
| Decimal.Digits | homework/generics_and_reflection/homework_test.go:35-38 | the base-10 digits of a number: non-empty, all digits, with no leading zero except for 0 itself |
| Decimal.ParseDigitsOf | homework/generics_and_reflection/homework_test.go:35-38 | the digits read back as the number |
| Decimal.ParseFormatInt | homework/generics_and_reflection/homework_test.go:35 | FormatInt's text reads back as the number, sign included |
| Decimal.FormatInt | homework/generics_and_reflection/homework_test.go:35 | strconv.FormatInt in base 10: a non-empty text that starts with a minus exactly for negative numbers and is all digits otherwise |
| Decimal.FormatIntInjective | homework/errors/homework_test.go:27 | different numbers render as different texts |
| Decimal.FormatBool | homework/generics_and_reflection/homework_test.go:31-32 | "true" exactly for true, otherwise "false" |
| Properties.Split | homework/generics_and_reflection/homework_test.go:137 | strings.Split on a one-character separator: at least one piece |
| Properties.JoinSplit | homework/generics_and_reflection/homework_test.go:137 | joining the pieces with the separator gives back the string |
| Properties.JoinSplitSeparator | homework/generics_and_reflection/homework_test.go:137 | the same when the string starts with the separator |
| Properties.JoinSplitChar | homework/generics_and_reflection/homework_test.go:137 | the same when it starts with another character |
| Properties.JoinPrepend | homework/generics_and_reflection/homework_test.go:90 | text in front of the first part goes in front of the join |
| Properties.SplitPiecesFree | homework/generics_and_reflection/homework_test.go:137 | no piece holds the separator |
| Properties.SplitFree | homework/generics_and_reflection/homework_test.go:137 | a string without the separator is its only piece |
| Properties.SplitCons | homework/generics_and_reflection/homework_test.go:137 | splitting a piece, the separator and the rest peels off the piece |
| Properties.SplitJoin | homework/generics_and_reflection/homework_test.go:90 | separator-free pieces are read back from their join, in order |
| Properties.JoinSnoc | homework/generics_and_reflection/homework_test.go:90 | joining one more part adds the separator and the part |
| Properties.JoinEmpty | homework/generics_and_reflection/homework_test.go:118 | the join of non-empty parts is empty exactly when there are none |
| Properties.ParsePropertiesTag | homework/generics_and_reflection/homework_test.go:135-146 | the loop gives the first piece as the name and omitempty exactly when some later piece is "omitempty" |
| Properties.TagNamePrefix | homework/generics_and_reflection/homework_test.go:135-146 | the name is the tag up to its first comma |
| Properties.TagOfPieces | homework/generics_and_reflection/homework_test.go:135-146 | a tag written as comma-free pieces reads back as its first piece plus whether a later one is "omitempty"; other pieces are ignored |
| Properties.ElementTexts | homework/generics_and_reflection/homework_test.go:84-91 | one text per element, in order |
| Properties.SerializeAny | homework/generics_and_reflection/homework_test.go:25-82 | serializeAny returns the text of the value's kind |
| Properties.Serialize | homework/generics_and_reflection/homework_test.go:21-23 | Serialize: a pointer or interface renders as its target, and a struct as its lines joined by newlines |
| Properties.SerializeArray | homework/generics_and_reflection/homework_test.go:84-91 | the element texts joined by commas |
| Properties.SerializeStruct | homework/generics_and_reflection/homework_test.go:102-128 | the builder loop gives the field lines joined by newlines, omitting zero omitempty fields |
| Properties.WriteLine | homework/generics_and_reflection/homework_test.go:118-124 | a newline before the line whenever something was written, then name=text, gives the join of one more line |
| Properties.AppendLine | homework/generics_and_reflection/homework_test.go:118-124 | the same on the builder's text |
| Properties.LinesNonEmpty | homework/generics_and_reflection/homework_test.go:122-124 | every line holds at least its "=" |
| Properties.StructTextLines | homework/generics_and_reflection/homework_test.go:102-128 | the struct text reads back as its lines, in field order, when no line holds a newline |
| Properties.ArrayTextElements | homework/generics_and_reflection/homework_test.go:84-91 | an array's text reads back as its element texts when none holds a comma |
| Properties.LinesStep | homework/generics_and_reflection/homework_test.go:106-125 | an omitted field adds no line; any other field adds its line at the end |
| Properties.ScalarTexts | homework/generics_and_reflection/homework_test.go:26-38 | integers read back from their text, booleans are "true" exactly for true, nil references give "nil" and invalid values "<nil>" |
| Properties.RefTransparent | homework/generics_and_reflection/homework_test.go:55-59 | a non-nil pointer or interface renders as its target |
| Properties.TagOfName | homework/generics_and_reflection/homework_test.go:135-146 | a tag without a comma is all name, with no omitempty |
| Properties.TagOfOption | homework/generics_and_reflection/homework_test.go:135-146 | a name and one option: omitempty exactly when the option is "omitempty" |
| Properties.AddressTagParsed | homework/generics_and_reflection/homework_test.go:16 | the address tag gives name "address" with omitempty |
| Properties.PlainTagParsed | homework/generics_and_reflection/homework_test.go:15-18 | the other three tags are plain names |
| Properties.PersonField | homework/generics_and_reflection/homework_test.go:106-125 | the line a field of the Person adds, or none when it is omitted |
| Properties.SerializedScalars | homework/generics_and_reflection/homework_test.go:31-35 | the texts of strings, integers and booleans; a string is zero exactly when empty |
| Properties.PersonNameAddress | homework/generics_and_reflection/homework_test.go:14-16 | a Person's first lines: the name, then the address only when it is not empty |
| Properties.PersonAgeMarried | homework/generics_and_reflection/homework_test.go:17-18 | then the age and married lines, always |
| Properties.PersonText | homework/generics_and_reflection/homework_test.go:14-23 | a Person's full text, for any field values |
| Properties.JoinThree | homework/generics_and_reflection/homework_test.go:154 | the join of three parts |
| Properties.JoinFour | homework/generics_and_reflection/homework_test.go:171 | the join of four parts |
| Properties.JoinPersonLines | homework/generics_and_reflection/homework_test.go:153-172 | a Person's lines joined, with and without the address line |
| Properties.EmptyPersonLines | homework/generics_and_reflection/homework_test.go:154 | the lines of a zero Person join to "name=\nage=0\nmarried=false" |
| Properties.EmptyPerson | homework/generics_and_reflection/homework_test.go:153-155 | "test case with empty fields": the zero Person serializes as expected |
| Properties.FullPersonLines | homework/generics_and_reflection/homework_test.go:162 | the lines of the second case join to its expected text |
| Properties.PersonWithFields | homework/generics_and_reflection/homework_test.go:156-163 | "test case with fields" serializes as expected, the empty address omitted |
| Properties.AddressPersonLines | homework/generics_and_reflection/homework_test.go:171 | the lines of the third case join to its expected text |
| Properties.PersonWithAddress | homework/generics_and_reflection/homework_test.go:164-172 | "test case with omitempty field": the address line appears between name and age |

## Left out

- Scheduling.Scheduler.AddTask: requires an identifier that is not yet queued. With a duplicate, Go's Push overwrites the index entry and leaves two slots with one identifier. A corrupted index like that breaks the identifier-to-slot bijection the model keeps as its invariant.
- Scheduling.Scheduler.GetTask: requires a non-empty queue. heap.Pop on an empty queue panics with an index out of range, and a panic is not modelled.
- Scheduling.TasksQueue.Update: requires a queued identifier or a non-empty queue. Without one, the slice index in Update panics.
- Scheduling: container/heap's own source is not part of this model. Its up, down, Fix, Push and Pop are written from their documented algorithm, including the early exit of Fix when down moved the slot.
- CircularQueues: the element type is `int`. The generic Signed type parameter and the int16/int32 ranges of the tests are not modelled, because the test values are small.
- CircularQueues.CircularQueue.constructor and Resize: sizes are `nat`, because `make` panics on a negative size.
- CircularQueues.Wrap: states only that the result lies in the buffer. Its arithmetic is the helper's definition.
- OrderedMaps: nodes are values of a `Tree` datatype. Rewiring `left`, `right` and `head` is rebuilding the tree, so aliasing of nodes between the map and outside pointers is not captured. Keys and values are `int` rather than any ordered key type and any value type.
- OrderedMaps.OrderedMap.ForEach: returns the sequence of pairs the action would be called with. Arbitrary side-effecting closures are not modelled.
- OrderedMaps.DetachMin: the no-parent branch of popMinNode (line 118) is unreachable from Erase. popMinNode is only called when node.right has a left child.
- GamePersons: words are sequences of bits, lowest first, rather than uint16/byte. The name is a sequence of bytes, because Go strings are byte sequences and the text is ASCII.
- GamePersons: the `unsafe.Sizeof(GamePerson{}) <= 64` check (line 218) and the `unsafe.String` view behind Name() are left out. Memory layout is not modelled.
- GamePersons.Option: option closures are constructors of a datatype. Closures other than the thirteen With* functions are not modelled.
- ByteOrder.ToLittleEndian: the width w (2, 4 or 8 bytes) is a parameter standing for `unsafe.Sizeof(val)`. The platform width of `uint` is not fixed.
- MultiErrors: `errors.Is` and `errors.As` (lines 71 and 73-74) are left out: the standard library's unwrapping is not part of this model. The test's claim is stated as membership of error 3 in the held errors.
- MultiErrors.MultiError.Append: a `*MultiError` argument is taken as the list it holds when Append is called. Go reads `m.errs` again in each iteration (lines 42-43), so passing the receiver itself after other arguments also repeats what they added: with errs [a], `e.Append(b, e)` gives [a, b, a, b] in Go and [a, b, a] here. Aliasing between the receiver and an argument is not modelled. The package-level Append is not affected, because its receiver is fresh.
- MultiErrors: error values are nil, a plain message or a `*MultiError` seen through its list. A typed nil `*MultiError` argument, which would panic on `m.errs`, is not modelled.
- Properties: the floating-point and complex branches (lines 40-50), maps (lines 61-65 and 93-100, whose iteration order is random) and the default branch (lines 79-80) are left out.
- Properties: reflection is a `Value` datatype. `Tag.Get("properties")` is the field's tag text, and pointers and interfaces share one constructor.
- DIContainers: a constructor is a tag. The factory's allocation is `new Instance`, and the test's type assertions `.(*UserService)` are not modelled.
- Concurrency: none of the exercises modelled here use goroutines.

## Findings

| source | as written | input that shows it | evidently intended | confidence | as-written member | corrected member |
|---|---|---|---|---|---|---|
| homework/structs/homework_test.go:197-199 | Level() reads the high nibble of f3, which holds the strength | NewGamePerson(WithLevel(5)).Level() returns 0; the test passes only because strength and level are both 10 | read the high nibble of f4, which WithLevel writes | not executed | GamePersons.LevelNotReadBack | GamePersons.LevelOption |
| homework/goroutines_and_scheduler/homework_test.go:51-55 | Update reads `q.index[identifier]` without a presence check, so an identifier that is not queued gives slot 0 | with tasks 5 (priority 50) and 4 (priority 40) queued, ChangeTaskPriority(7, 1) demotes task 5, and GetTask then returns task 4 | report an unknown identifier and change nothing | not executed | Scheduling.UnknownIdentifierScenario | Scheduling.Scheduler.TryChangeTaskPriority |
