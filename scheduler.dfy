/** The priority scheduler of goroutines_and_scheduler: a binary max-heap of
    tasks kept in a slice, fused with a map from task identifier to the slot
    that task occupies. The sift steps (up, down, Fix, Push, Pop) are those of
    Go's container/heap, written out from its documented algorithm. */
module Scheduling {

  datatype Task = Task(Identifier: int, Priority: int)

  /** The parent slot exactly as container/heap computes it, `(j - 1) / 2` with
      Go's truncating division: the root is its own parent. */
  function Parent(j: nat): (p: nat)
    ensures j > 0 ==> p < j && (j == 2 * p + 1 || j == 2 * p + 2)
    ensures j == 0 ==> p == 0
  {
    if j == 0 then 0 else (j - 1) / 2
  }

  /** The index map is a bijection between the queued identifiers and the slots:
      every slot's identifier maps to that slot, and every mapped identifier sits
      in the slot it maps to. */
  ghost predicate IndexConsistent(tasks: seq<Task>, index: map<int, int>)
  {
    && (forall k :: 0 <= k < |tasks| ==> tasks[k].Identifier in index && index[tasks[k].Identifier] == k)
    && (forall id :: id in index ==> 0 <= index[id] < |tasks| && tasks[index[id]].Identifier == id)
  }

  /** The abstract content of the queue: the priority of every queued identifier. */
  ghost function Priorities(tasks: seq<Task>, index: map<int, int>): map<int, int>
    requires IndexConsistent(tasks, index)
  {
    map id | id in index :: tasks[index[id]].Priority
  }

  /** Max-heap order on the first n slots: no slot outranks its parent. */
  ghost predicate HeapOrdered(s: seq<Task>, n: nat)
    requires n <= |s|
  {
    forall k {:trigger Parent(k)} :: 0 < k < n ==> s[Parent(k)].Priority >= s[k].Priority
  }

  /** Heap order on the first n slots except on the edges that touch slot x. */
  ghost predicate HeapExcept(s: seq<Task>, n: nat, x: nat)
    requires n <= |s|
  {
    forall k {:trigger Parent(k)} :: 0 < k < n && k != x && Parent(k) != x ==> s[Parent(k)].Priority >= s[k].Priority
  }

  /** Heap order on the first n slots except on the edge from x up to its parent. */
  ghost predicate HeapExceptAbove(s: seq<Task>, n: nat, x: nat)
    requires n <= |s|
  {
    forall k {:trigger Parent(k)} :: 0 < k < n && k != x ==> s[Parent(k)].Priority >= s[k].Priority
  }

  /** The parent of x dominates the children of x, so x may be swapped either way. */
  ghost predicate Bridge(s: seq<Task>, n: nat, x: nat)
    requires n <= |s| && x < |s|
  {
    x > 0 ==> forall k {:trigger Parent(k)} :: 0 < k < n && Parent(k) == x ==> s[Parent(x)].Priority >= s[k].Priority
  }

  function SwapSlots(s: seq<Task>, i: nat, j: nat): (r: seq<Task>)
    requires i < |s| && j < |s|
    ensures |r| == |s| && r[i] == s[j] && r[j] == s[i]
    ensures forall k :: 0 <= k < |s| && k != i && k != j ==> r[k] == s[k]
  {
    s[i := s[j]][j := s[i]]
  }

  /** Swap keeps the index a bijection and the queued priorities unchanged. */
  lemma SwapKeepsIndex(tasks: seq<Task>, index: map<int, int>, i: nat, j: nat)
    requires IndexConsistent(tasks, index) && i < |tasks| && j < |tasks|
    ensures IndexConsistent(SwapSlots(tasks, i, j), index[tasks[j].Identifier := i][tasks[i].Identifier := j])
    ensures Priorities(SwapSlots(tasks, i, j), index[tasks[j].Identifier := i][tasks[i].Identifier := j])
            == Priorities(tasks, index)
  {
    var t := SwapSlots(tasks, i, j);
    var x := index[tasks[j].Identifier := i][tasks[i].Identifier := j];
    assert x.Keys == index.Keys;
    forall id | id in x ensures 0 <= x[id] < |t| && t[x[id]] == tasks[index[id]] {
      if id != tasks[i].Identifier && id != tasks[j].Identifier {
        assert index[id] != i && index[id] != j;
      }
    }
  }

  /** Appending a task with a fresh identifier adds exactly that identifier. */
  lemma PushKeepsIndex(tasks: seq<Task>, index: map<int, int>, task: Task)
    requires IndexConsistent(tasks, index) && task.Identifier !in index
    ensures IndexConsistent(tasks + [task], index[task.Identifier := |tasks|])
    ensures Priorities(tasks + [task], index[task.Identifier := |tasks|])
            == Priorities(tasks, index)[task.Identifier := task.Priority]
  {
    var t := tasks + [task];
    var x := index[task.Identifier := |tasks|];
    assert forall k :: 0 <= k < |tasks| ==> t[k] == tasks[k];
    assert IndexConsistent(t, x);
    var m, m0 := Priorities(t, x), Priorities(tasks, index)[task.Identifier := task.Priority];
    assert m.Keys == m0.Keys;
    forall id | id in m ensures m[id] == m0[id] {
      if id != task.Identifier {
        assert x[id] == index[id] && t[index[id]] == tasks[index[id]];
      }
    }
  }

  /** Truncating the last slot removes exactly the last task's identifier. */
  lemma PopKeepsIndex(tasks: seq<Task>, index: map<int, int>)
    requires IndexConsistent(tasks, index) && |tasks| > 0
    ensures IndexConsistent(tasks[..|tasks| - 1], index - {tasks[|tasks| - 1].Identifier})
    ensures Priorities(tasks[..|tasks| - 1], index - {tasks[|tasks| - 1].Identifier})
            == Priorities(tasks, index) - {tasks[|tasks| - 1].Identifier}
  {
    var t := tasks[..|tasks| - 1];
    var x := index - {tasks[|tasks| - 1].Identifier};
    assert IndexConsistent(t, x);
    var m, m0 := Priorities(t, x), Priorities(tasks, index) - {tasks[|tasks| - 1].Identifier};
    assert m.Keys == m0.Keys;
    forall id | id in m ensures m[id] == m0[id] {
      assert x[id] == index[id] && t[index[id]] == tasks[index[id]];
    }
  }

  /** Rewriting the priority in the slot of a queued identifier changes only that
      identifier's priority. */
  lemma SetPriorityKeepsIndex(tasks: seq<Task>, index: map<int, int>, id: int, priority: int)
    requires IndexConsistent(tasks, index) && id in index
    ensures IndexConsistent(tasks[index[id] := Task(id, priority)], index)
    ensures Priorities(tasks[index[id] := Task(id, priority)], index) == Priorities(tasks, index)[id := priority]
  {
    var t := tasks[index[id] := Task(id, priority)];
    assert IndexConsistent(t, index);
    var m, m0 := Priorities(t, index), Priorities(tasks, index)[id := priority];
    assert m.Keys == m0.Keys;
    forall id' | id' in m ensures m[id'] == m0[id'] {
      if id' != id {
        assert index[id'] != index[id] && t[index[id']] == tasks[index[id']];
      }
    }
  }

  /** As many identifiers are queued as there are slots. */
  lemma {:induction false} IndexSize(tasks: seq<Task>, index: map<int, int>)
    ensures IndexConsistent(tasks, index) ==> |Priorities(tasks, index)| == |index| == |tasks|
  {
    if IndexConsistent(tasks, index) {
      assert Priorities(tasks, index).Keys == index.Keys;
      if |tasks| == 0 {
        assert forall id :: id !in index;
        assert index == map[];
      } else {
        var last := tasks[|tasks| - 1].Identifier;
        PopKeepsIndex(tasks, index);
        IndexSize(tasks[..|tasks| - 1], index - {last});
        assert (index - {last}).Keys == index.Keys - {last};
      }
    }
  }

  /** In a heap every task is dominated by the root. */
  lemma {:induction false} RootDominates(s: seq<Task>, n: nat, k: nat)
    requires n <= |s| && HeapOrdered(s, n) && k < n
    ensures s[k].Priority <= s[0].Priority
    decreases k
  {
    if k > 0 {
      RootDominates(s, n, Parent(k));
    }
  }

  /** One step of sift-down: swapping slot i with its larger child c moves the
      hole down to c. */
  lemma DownStep(s: seq<Task>, n: nat, i: nat, c: nat)
    requires n <= |s| && c < n && (c == 2 * i + 1 || c == 2 * i + 2)
    requires HeapExcept(s, n, i) && Bridge(s, n, i)
    requires s[c].Priority > s[i].Priority
    requires 2 * i + 1 < n ==> s[2 * i + 1].Priority <= s[c].Priority
    requires 2 * i + 2 < n ==> s[2 * i + 2].Priority <= s[c].Priority
    ensures HeapExcept(SwapSlots(s, i, c), n, c) && Bridge(SwapSlots(s, i, c), n, c)
    ensures SwapSlots(s, i, c)[i].Priority >= SwapSlots(s, i, c)[c].Priority
  {
    var t := SwapSlots(s, i, c);
    forall k | 0 < k < n && k != c && Parent(k) != c
      ensures t[Parent(k)].Priority >= t[k].Priority
    {
      if k == i {
        assert t[Parent(k)] == s[Parent(i)];
      } else if Parent(k) == i {
        assert t[k] == s[k];
      } else {
        assert t[k] == s[k] && t[Parent(k)] == s[Parent(k)];
      }
    }
    forall k | 0 < k < n && Parent(k) == c
      ensures t[Parent(c)].Priority >= t[k].Priority
    {
      assert t[k] == s[k];
    }
    assert Parent(c) == i;
  }

  /** Sift-down stops once no child of i outranks it: then only the edge above i
      can be out of order, and not even that one once i has moved. */
  lemma DownStops(s: seq<Task>, n: nat, i: nat)
    requires n <= |s| && i < |s| && HeapExcept(s, n, i) && Bridge(s, n, i)
    requires 2 * i + 1 < n ==> s[2 * i + 1].Priority <= s[i].Priority
    requires 2 * i + 2 < n ==> s[2 * i + 2].Priority <= s[i].Priority
    ensures HeapExceptAbove(s, n, i)
    ensures 0 < i < n && s[Parent(i)].Priority >= s[i].Priority ==> HeapOrdered(s, n)
  {
    forall k | 0 < k < n && k != i ensures s[Parent(k)].Priority >= s[k].Priority {
      if Parent(k) == i {
        assert k == 2 * i + 1 || k == 2 * i + 2;
      }
    }
  }

  /** One step of sift-up: swapping slot j with its smaller parent moves the
      hole up to the parent. */
  lemma UpStep(s: seq<Task>, j: nat)
    requires 0 < j < |s| && HeapExceptAbove(s, |s|, j) && Bridge(s, |s|, j)
    requires s[j].Priority > s[Parent(j)].Priority
    ensures HeapExceptAbove(SwapSlots(s, Parent(j), j), |s|, Parent(j))
    ensures Bridge(SwapSlots(s, Parent(j), j), |s|, Parent(j))
  {
    var p := Parent(j);
    var t := SwapSlots(s, p, j);
    forall k | 0 < k < |s| && k != p
      ensures t[Parent(k)].Priority >= t[k].Priority
    {
      if k == j {
      } else if Parent(k) == p {
        assert t[k] == s[k];
      } else if Parent(k) == j {
        assert t[k] == s[k];
      } else {
        assert t[k] == s[k] && t[Parent(k)] == s[Parent(k)];
      }
    }
    if p > 0 {
      forall k | 0 < k < |s| && Parent(k) == p
        ensures t[Parent(p)].Priority >= t[k].Priority
      {
        assert t[Parent(p)] == s[Parent(p)];
        if k != j {
          assert t[k] == s[k];
        }
      }
    }
  }

  /** `task` is what extracting a maximum from the queued priorities `before`
      yields, and `after` is what remains. */
  ghost predicate Extracted(before: map<int, int>, task: Task, after: map<int, int>)
  {
    && task.Identifier in before && before[task.Identifier] == task.Priority
    && (forall id :: id in before ==> before[id] <= task.Priority)
    && after == before - {task.Identifier}
  }

  /** The heap behind the scheduler (TasksQueue). `tasks` is the slice, `index`
      the identifier -> slot map; Len, Less, Swap, Push and Pop are the
      heap.Interface methods, Up, Down, Fix, HeapPush and HeapPop the
      container/heap functions driving them. */
  class TasksQueue {
    var tasks: seq<Task>
    var index: map<int, int>

    ghost predicate Valid()
      reads this
    {
      IndexConsistent(tasks, index)
    }

    ghost predicate Heap()
      reads this
    {
      HeapOrdered(tasks, |tasks|)
    }

    /** Queued identifier -> priority. */
    ghost function Contents(): map<int, int>
      reads this
      requires Valid()
    {
      Priorities(tasks, index)
    }

    constructor ()
      ensures Valid() && Heap() && tasks == [] && index == map[] && Contents() == map[]
    {
      tasks := [];
      index := map[];
    }

    /** The number of queued tasks, which is also the number of queued identifiers. */
    function Len(): (n: nat)
      reads this
      ensures Valid() ==> n == |Contents()| == |index|
    {
      IndexSize(tasks, index);
      |tasks|
    }

    /** Strictly greater priority ranks first, so the heap is a max-heap: slot
        i ranks before slot j exactly when its task's queued priority is the
        higher, which never holds for one slot with itself. */
    predicate Less(i: nat, j: nat)
      reads this
      requires i < |tasks| && j < |tasks|
      ensures Valid() ==> (Less(i, j) <==> Contents()[tasks[i].Identifier] > Contents()[tasks[j].Identifier])
      ensures Less(i, j) ==> i != j
    {
      tasks[i].Priority > tasks[j].Priority
    }

    method Swap(i: nat, j: nat)
      requires i < |tasks| && j < |tasks|
      modifies this
      ensures tasks == SwapSlots(old(tasks), i, j)
      ensures index == old(index)[old(tasks)[j].Identifier := i][old(tasks)[i].Identifier := j]
      ensures old(Valid()) ==> Valid() && Contents() == old(Contents())
    {
      ghost var t0, x0 := tasks, index;
      tasks := tasks[i := tasks[j]][j := tasks[i]];
      index := index[tasks[i].Identifier := i];
      index := index[tasks[j].Identifier := j];
      if IndexConsistent(t0, x0) {
        SwapKeepsIndex(t0, x0, i, j);
      }
    }

    method Push(task: Task)
      modifies this
      ensures tasks == old(tasks) + [task]
      ensures index == old(index)[task.Identifier := |old(tasks)|]
      ensures old(Valid()) && task.Identifier !in old(index) ==>
                Valid() && Contents() == old(Contents())[task.Identifier := task.Priority]
    {
      ghost var t0, x0 := tasks, index;
      tasks := tasks + [task];
      index := index[task.Identifier := |tasks| - 1];
      if IndexConsistent(t0, x0) && task.Identifier !in x0 {
        PushKeepsIndex(t0, x0, task);
      }
    }

    method Pop() returns (task: Task)
      requires |tasks| > 0
      modifies this
      ensures task == old(tasks)[|old(tasks)| - 1]
      ensures tasks == old(tasks)[..|old(tasks)| - 1]
      ensures index == old(index) - {task.Identifier}
      ensures old(Valid()) ==> Valid() && Contents() == old(Contents()) - {task.Identifier}
    {
      ghost var t0, x0 := tasks, index;
      task := tasks[|tasks| - 1];
      tasks := tasks[..|tasks| - 1];
      index := index - {task.Identifier};
      if IndexConsistent(t0, x0) {
        PopKeepsIndex(t0, x0);
      }
    }

    /** container/heap's up: move slot j0 towards the root while it outranks its parent. */
    method Up(j0: nat)
      requires Valid() && j0 < |tasks|
      requires HeapExceptAbove(tasks, |tasks|, j0) && Bridge(tasks, |tasks|, j0)
      modifies this
      ensures Valid() && Heap() && Contents() == old(Contents())
    {
      var j: nat := j0;
      while true
        invariant Valid() && Contents() == old(Contents())
        invariant j < |tasks|
        invariant HeapExceptAbove(tasks, |tasks|, j) && Bridge(tasks, |tasks|, j)
        decreases j
      {
        var i := Parent(j);
        if i == j || !Less(j, i) {
          break;
        }
        UpStep(tasks, j);
        Swap(i, j);
        j := i;
      }
    }

    /** One round of down: swap slot i with its larger child j, which outranks it. */
    method SwapDown(i: nat, j: nat, n: nat)
      requires Valid() && n <= |tasks| && j < n && (j == 2 * i + 1 || j == 2 * i + 2)
      requires HeapExcept(tasks, n, i) && Bridge(tasks, n, i)
      requires tasks[j].Priority > tasks[i].Priority
      requires 2 * i + 1 < n ==> tasks[2 * i + 1].Priority <= tasks[j].Priority
      requires 2 * i + 2 < n ==> tasks[2 * i + 2].Priority <= tasks[j].Priority
      modifies this
      ensures Valid() && Contents() == old(Contents())
      ensures |tasks| == |old(tasks)| && forall k :: n <= k < |tasks| ==> tasks[k] == old(tasks)[k]
      ensures HeapExcept(tasks, n, j) && Bridge(tasks, n, j)
      ensures 0 < j && tasks[Parent(j)].Priority >= tasks[j].Priority
    {
      DownStep(tasks, n, i, j);
      Swap(i, j);
      assert Parent(j) == i;
    }

    /** container/heap's down on the first n slots: move slot i0 away from the root
        while its larger child outranks it; `moved` reports whether it left i0. */
    method Down(i0: nat, n: nat) returns (moved: bool)
      requires Valid() && n <= |tasks| && i0 < |tasks|
      requires HeapExcept(tasks, n, i0) && Bridge(tasks, n, i0)
      modifies this
      ensures Valid() && Contents() == old(Contents())
      ensures |tasks| == |old(tasks)| && forall k :: n <= k < |tasks| ==> tasks[k] == old(tasks)[k]
      ensures moved ==> HeapOrdered(tasks, n)
      ensures !moved ==> HeapExceptAbove(tasks, n, i0) && Bridge(tasks, n, i0)
    {
      ghost var t0, c0 := tasks, Contents();
      var i: nat := i0;
      while true
        invariant Valid() && Contents() == c0
        invariant |tasks| == |t0| && forall k :: n <= k < |tasks| ==> tasks[k] == t0[k]
        invariant i0 <= i < |tasks|
        invariant HeapExcept(tasks, n, i) && Bridge(tasks, n, i)
        invariant i != i0 ==> 0 < i < n && tasks[Parent(i)].Priority >= tasks[i].Priority
        decreases n - i
      {
        var j1 := 2 * i + 1;
        if j1 >= n {
          DownStops(tasks, n, i);
          break;
        }
        var j := j1;
        if j1 + 1 < n && Less(j1 + 1, j1) {
          j := j1 + 1;
        }
        if !Less(j, i) {
          DownStops(tasks, n, i);
          break;
        }
        SwapDown(i, j, n);
        i := j;
      }
      moved := i > i0;
    }

    /** container/heap's Fix: re-establish heap order after slot i changed priority. */
    method Fix(i: nat)
      requires Valid() && i < |tasks| && HeapExcept(tasks, |tasks|, i) && Bridge(tasks, |tasks|, i)
      modifies this
      ensures Valid() && Heap() && Contents() == old(Contents())
    {
      var moved := Down(i, |tasks|);
      if !moved {
        Up(i);
      }
    }

    /** container/heap's Push: append, then sift the new slot up. */
    method HeapPush(task: Task)
      requires Valid() && Heap() && task.Identifier !in Contents()
      modifies this
      ensures Valid() && Heap()
      ensures Contents() == old(Contents())[task.Identifier := task.Priority]
    {
      Push(task);
      Up(|tasks| - 1);
    }

    /** container/heap's Pop: swap the root with the last slot, sift the new root
        down over the shortened heap, then remove the last slot. The task returned
        has a maximal priority. */
    method HeapPop() returns (task: Task)
      requires Valid() && Heap() && |tasks| > 0
      modifies this
      ensures Valid() && Heap() && Extracted(old(Contents()), task, Contents())
    {
      ghost var t0 := tasks;
      forall id | id in index ensures Contents()[id] <= t0[0].Priority {
        RootDominates(t0, |t0|, index[id]);
      }
      var n := |tasks| - 1;
      Swap(0, n);
      var moved := Down(0, n);
      task := Pop();
    }

    /** Rewrite the priority in the slot the index gives for `identifier` and
        re-heapify. An identifier that is not queued reads slot 0 from the
        index (the map's zero value), so the root's priority is rewritten. */
    method Update(identifier: int, priority: int)
      requires Valid() && Heap() && (identifier in index || |Contents()| > 0)
      modifies this
      ensures Valid() && Heap()
      ensures Contents() == old(Contents())[UpdatedIdentifier(old(tasks), old(index), identifier) := priority]
    {
      IndexSize(tasks, index);
      var k := if identifier in index then index[identifier] else 0;
      ghost var id := tasks[k].Identifier;
      SetPriorityKeepsIndex(tasks, index, id, priority);
      ghost var t0 := tasks;
      tasks := tasks[k := tasks[k].(Priority := priority)];
      assert Bridge(tasks, |tasks|, k) by {
        if k > 0 {
          forall c | 0 < c < |tasks| && Parent(c) == k
            ensures tasks[Parent(k)].Priority >= tasks[c].Priority
          {
            assert t0[Parent(k)].Priority >= t0[k].Priority >= t0[c].Priority;
          }
        }
      }
      Fix(k);
    }
  }

  /** The identifier whose priority Update rewrites: the given one when it is
      queued, otherwise the one at the root. */
  ghost function UpdatedIdentifier(tasks: seq<Task>, index: map<int, int>, identifier: int): int
    requires IndexConsistent(tasks, index) && (identifier in index || |Priorities(tasks, index)| > 0)
  {
    IndexSize(tasks, index);
    if identifier in index then identifier else tasks[0].Identifier
  }

  /** The facade the caller uses: AddTask, ChangeTaskPriority and GetTask delegate
      to heap.Push, TasksQueue.Update and heap.Pop. */
  class Scheduler {
    const queue: TasksQueue

    ghost predicate Valid()
      reads queue
    {
      queue.Valid() && queue.Heap()
    }

    ghost function Contents(): map<int, int>
      reads queue
      requires Valid()
    {
      queue.Contents()
    }

    constructor ()
      ensures Valid() && fresh(queue) && Contents() == map[]
    {
      queue := new TasksQueue();
    }

    method AddTask(task: Task)
      requires Valid() && task.Identifier !in Contents()
      modifies queue
      ensures Valid() && Contents() == old(Contents())[task.Identifier := task.Priority]
    {
      queue.HeapPush(task);
    }

    /** Rewrites the priority of taskID, or of the root task when taskID is
        not queued. */
    method ChangeTaskPriority(taskID: int, newPriority: int)
      requires Valid() && (taskID in Contents() || |Contents()| > 0)
      modifies queue
      ensures Valid()
      ensures Contents() == old(Contents())[UpdatedIdentifier(old(queue.tasks), old(queue.index), taskID) := newPriority]
      ensures taskID in old(Contents()) ==> Contents() == old(Contents())[taskID := newPriority]
    {
      queue.Update(taskID, newPriority);
    }

    /** ChangeTaskPriority with the presence check the index lookup lacks: an
        identifier that is not queued changes nothing and is reported. */
    method TryChangeTaskPriority(taskID: int, newPriority: int) returns (found: bool)
      requires Valid()
      modifies queue
      ensures Valid()
      ensures found <==> taskID in old(Contents())
      ensures found ==> Contents() == old(Contents())[taskID := newPriority]
      ensures !found ==> unchanged(queue) && Contents() == old(Contents())
    {
      found := taskID in queue.index;
      if found {
        queue.Update(taskID, newPriority);
      }
    }

    /** Removes and returns a task of maximal priority. */
    method GetTask() returns (task: Task)
      requires Valid() && |Contents()| > 0
      modifies queue
      ensures Valid() && Extracted(old(Contents()), task, Contents())
    {
      IndexSize(queue.tasks, queue.index);
      task := queue.HeapPop();
    }
  }

  /** Update rewrites a queued identifier: the given one when it is queued,
      otherwise the root's, which has a maximal priority. */
  lemma UpdatedIsQueued(tasks: seq<Task>, index: map<int, int>, identifier: int)
    requires IndexConsistent(tasks, index) && HeapOrdered(tasks, |tasks|)
    requires identifier in index || |Priorities(tasks, index)| > 0
    ensures UpdatedIdentifier(tasks, index, identifier) in Priorities(tasks, index)
    ensures identifier in index ==> UpdatedIdentifier(tasks, index, identifier) == identifier
    ensures identifier !in index ==> forall id :: id in Priorities(tasks, index) ==>
      Priorities(tasks, index)[id] <= Priorities(tasks, index)[UpdatedIdentifier(tasks, index, identifier)]
  {
    IndexSize(tasks, index);
    if identifier !in index {
      var c := Priorities(tasks, index);
      assert tasks[0].Identifier in index;
      forall id | id in c ensures c[id] <= c[tasks[0].Identifier] {
        RootDominates(tasks, |tasks|, index[id]);
      }
    }
  }

  /** A task returned with a maximal priority is the unique strict maximum when
      there is one. */
  lemma MaximumIsUnique(c: map<int, int>, task: Task, rest: map<int, int>, top: Task)
    requires Extracted(c, task, rest)
    requires top.Identifier in c && c[top.Identifier] == top.Priority
    requires forall id :: id in c && id != top.Identifier ==> c[id] < top.Priority
    ensures task == top
  {
  }

  /** What the scheduler's contracts alone determine about the first half of
      TestScheduler: priorities 10..50 under identifiers 1..5, then two extractions. */
  lemma ScenarioFirstHalf(c0: map<int, int>, first: Task, c1: map<int, int>, second: Task, c2: map<int, int>)
    requires c0 == map[1 := 10, 2 := 20, 3 := 30, 4 := 40, 5 := 50]
    requires Extracted(c0, first, c1) && Extracted(c1, second, c2)
    ensures first == Task(5, 50) && second == Task(4, 40)
    ensures c2 == map[1 := 10, 2 := 20, 3 := 30]
  {
    MaximumIsUnique(c0, first, c1, Task(5, 50));
    assert c1 == map[1 := 10, 2 := 20, 3 := 30, 4 := 40];
    MaximumIsUnique(c1, second, c2, Task(4, 40));
  }

  /** ... then identifier 1 raised to 100: the third extraction takes it. */
  lemma ScenarioThird(c2: map<int, int>, c3: map<int, int>, third: Task, c4: map<int, int>)
    requires c2 == map[1 := 10, 2 := 20, 3 := 30] && c3 == c2[1 := 100]
    requires Extracted(c3, third, c4)
    ensures third == Task(1, 100) && c4 == map[2 := 20, 3 := 30]
  {
    assert c3 == map[1 := 100, 2 := 20, 3 := 30];
    MaximumIsUnique(c3, third, c4, Task(1, 100));
  }

  /** ... and the fourth takes identifier 3. */
  lemma ScenarioFourth(c4: map<int, int>, fourth: Task, c5: map<int, int>)
    requires c4 == map[2 := 20, 3 := 30] && Extracted(c4, fourth, c5)
    ensures fourth == Task(3, 30) && c5 == map[2 := 20]
  {
    MaximumIsUnique(c4, fourth, c5, Task(3, 30));
  }

  /** A map with a key in it is not empty. */
  lemma NonEmpty(m: map<int, int>, k: int)
    requires k in m
    ensures |m| > 0
  {
    assert m.Keys != {};
  }

  /** The five tasks TestScheduler adds, priorities 10..50 under identifiers 1..5. */
  method FilledScheduler() returns (s: Scheduler)
    ensures fresh(s.queue) && s.Valid()
    ensures s.Contents() == map[1 := 10, 2 := 20, 3 := 30, 4 := 40, 5 := 50]
  {
    s := new Scheduler();
    s.AddTask(Task(1, 10));
    s.AddTask(Task(2, 20));
    assert s.Contents() == map[1 := 10, 2 := 20];
    s.AddTask(Task(3, 30));
    s.AddTask(Task(4, 40));
    assert s.Contents() == map[1 := 10, 2 := 20, 3 := 30, 4 := 40];
    s.AddTask(Task(5, 50));
  }

  /** Tasks 5 (priority 50) and 4 (priority 40), queued in that order. */
  method TwoTaskScheduler() returns (s: Scheduler)
    ensures fresh(s.queue) && s.Valid()
    ensures s.Contents() == map[5 := 50, 4 := 40]
  {
    s := new Scheduler();
    s.AddTask(Task(5, 50));
    s.AddTask(Task(4, 40));
  }

  /** Changing the priority of identifier 7, which is not queued, rewrites the
      root task 5 instead: afterwards task 4 is extracted first. */
  method UnknownIdentifierScenario() returns (top: Task)
    ensures top == Task(4, 40)
  {
    var s := TwoTaskScheduler();
    ghost var c0 := s.Contents();
    ghost var t0, i0 := s.queue.tasks, s.queue.index;
    NonEmpty(c0, 5);
    UpdatedIsQueued(t0, i0, 7);
    s.ChangeTaskPriority(7, 1);
    assert UpdatedIdentifier(t0, i0, 7) == 5 by {
      assert c0[4] < c0[5];
    }
    ghost var c1 := s.Contents();
    assert c1 == map[5 := 1, 4 := 40];
    NonEmpty(c1, 4);
    top := s.GetTask();
    MaximumIsUnique(c1, top, s.Contents(), Task(4, 40));
  }

  /** With the presence check the unknown identifier is reported and task 5
      keeps its priority, so it is extracted first. */
  method CheckedUnknownIdentifierScenario() returns (found: bool, top: Task)
    ensures !found && top == Task(5, 50)
  {
    var s := TwoTaskScheduler();
    found := s.TryChangeTaskPriority(7, 1);
    ghost var c1 := s.Contents();
    NonEmpty(c1, 5);
    top := s.GetTask();
    MaximumIsUnique(c1, top, s.Contents(), Task(5, 50));
  }

  /** TestScheduler run against the scheduler. */
  method SchedulerScenario() returns (first: Task, second: Task, third: Task, fourth: Task)
    ensures first == Task(5, 50) && second == Task(4, 40)
    ensures third == Task(1, 100) && fourth == Task(3, 30)
  {
    var s := FilledScheduler();
    ghost var c0 := s.Contents();
    NonEmpty(c0, 5);
    first := s.GetTask();
    ghost var c1 := s.Contents();
    NonEmpty(c1, 4);
    second := s.GetTask();
    ghost var c2 := s.Contents();
    ScenarioFirstHalf(c0, first, c1, second, c2);
    s.ChangeTaskPriority(1, 100);
    ghost var c3 := s.Contents();
    NonEmpty(c3, 1);
    third := s.GetTask();
    ghost var c4 := s.Contents();
    ScenarioThird(c2, c3, third, c4);
    NonEmpty(c4, 3);
    fourth := s.GetTask();
    ScenarioFourth(c4, fourth, s.Contents());
  }
}
