/** The fixed-capacity ring buffer of slices_and_arrays (CircularQueue): a buffer
    `values`, the number of live elements `len`, the slot of the oldest element
    `front` and the slot of the newest element `rear`. The element type is a
    signed integer type in the source; here it is `int`. */
module CircularQueues {

  /** Slot p of a buffer of n slots, for 0 <= p < 2 * n: p wrapped once. */
  function Wrap(p: nat, n: nat): (r: nat)
    requires p < 2 * n
    ensures r < n
  {
    if p < n then p else p - n
  }

  /** The live elements, oldest first: `len` slots read from `front` onward,
      wrapping at the end of the buffer. */
  ghost function Window(buf: seq<int>, front: nat, len: nat): (w: seq<int>)
    requires len <= |buf| && (front < |buf| || len == 0)
    ensures |w| == len
  {
    seq(len, k requires 0 <= k < len => buf[Wrap(front + k, |buf|)])
  }

  /** Writing the slot after the newest element appends to the window. */
  lemma WindowPush(buf: seq<int>, front: nat, len: nat, v: int)
    requires len < |buf| && front < |buf|
    ensures Window(buf[Wrap(front + len, |buf|) := v], front, len + 1) == Window(buf, front, len) + [v]
  {
    var slot := Wrap(front + len, |buf|);
    var w, w0 := Window(buf[slot := v], front, len + 1), Window(buf, front, len);
    forall k | 0 <= k < len ensures w[k] == w0[k] {
      assert Wrap(front + k, |buf|) != slot;
    }
  }

  /** Advancing the front past the oldest element drops it from the window. */
  lemma WindowPop(buf: seq<int>, front: nat, len: nat)
    requires 0 < len <= |buf| && front < |buf|
    ensures Window(buf, Wrap(front + 1, |buf|), len - 1) == Window(buf, front, len)[1..]
  {
    var w, w0 := Window(buf, Wrap(front + 1, |buf|), len - 1), Window(buf, front, len);
    forall k | 0 <= k < len - 1 ensures w[k] == w0[k + 1] {
      assert Wrap(Wrap(front + 1, |buf|) + k, |buf|) == Wrap(front + k + 1, |buf|);
    }
  }

  /** The first m elements of a window are the window of length m. */
  lemma WindowPrefix(buf: seq<int>, front: nat, len: nat, m: nat)
    requires m <= len <= |buf| && (front < |buf| || len == 0)
    ensures Window(buf, front, m) == Window(buf, front, len)[..m]
  {
  }

  /** A window that starts at slot 0 is a plain prefix of the buffer. */
  lemma WindowFromStart(buf: seq<int>, len: nat)
    requires len <= |buf|
    ensures Window(buf, 0, len) == buf[..len]
  {
    forall k | 0 <= k < len ensures Window(buf, 0, len)[k] == buf[k] {
      assert Wrap(0 + k, |buf|) == k;
    }
  }

  class CircularQueue {
    var values: array<int>
    var len: int
    var front: int
    var rear: int

    /** `rear` is the slot before the first free one: the slot of the newest
        element, or just before `front` when the queue is empty (-1 on a fresh,
        cleared or resized queue). */
    ghost predicate Valid()
      reads this
    {
      && 0 <= len <= values.Length
      && 0 <= front && (front < values.Length || front == 0)
      && -1 <= rear < values.Length
      && (values.Length == 0 ==> front == 0 && rear == -1)
      && (len > 0 ==> rear == Wrap(front + len - 1, values.Length))
      && (len == 0 ==> rear == front - 1 || (front == 0 && rear == values.Length - 1))
    }

    ghost function Contents(): (c: seq<int>)
      reads this, values
      requires Valid()
      ensures |c| == len
    {
      Window(values[..], front, len)
    }

    /** NewCircularQueue: an empty queue over a zeroed buffer of `size` slots. */
    constructor (size: nat)
      ensures Valid() && fresh(values) && values.Length == size
      ensures len == 0 && front == 0 && rear == -1 && Contents() == []
      ensures forall k :: 0 <= k < size ==> values[k] == 0
    {
      values := new int[size](_ => 0);
      len, front, rear := 0, 0, -1;
    }

    /** The capacity: a valid queue never holds more elements than this. */
    function Size(): (n: nat)
      reads this
      ensures Valid() ==> len <= n
    {
      values.Length
    }

    /** The slot after `pos`, wrapping the last slot back to 0. */
    function NextPos(pos: int): (r: int)
      reads this
      ensures -1 <= pos < values.Length && values.Length > 0 ==> r == (pos + 1) % values.Length
      ensures -1 <= pos < values.Length ==> 0 <= r && (r < values.Length || values.Length == 0)
    {
      if pos == Size() - 1 then 0 else pos + 1
    }

    function Empty(): (r: bool)
      reads this, values
      requires Valid()
      ensures r <==> Contents() == []
    {
      len == 0
    }

    function Full(): (r: bool)
      reads this, values
      requires Valid()
      ensures r <==> |Contents()| == Size()
    {
      len == Size()
    }

    /** The oldest element, or -1 when the queue is empty. */
    function Front(): (x: int)
      reads this, values
      requires Valid()
      ensures Contents() == [] ==> x == -1
      ensures Contents() != [] ==> x == Contents()[0]
    {
      if Empty() then -1 else
        assert Contents()[0] == values[..][Wrap(front, values.Length)];
        values[front]
    }

    /** The newest element, or -1 when the queue is empty. */
    function Back(): (x: int)
      reads this, values
      requires Valid()
      ensures Contents() == [] ==> x == -1
      ensures Contents() != [] ==> x == Contents()[|Contents()| - 1]
    {
      if Empty() then -1 else
        assert Contents()[len - 1] == values[..][Wrap(front + len - 1, values.Length)];
        values[rear]
    }

    /** Adds `value` behind the newest element unless the queue is full. */
    method Push(value: int) returns (ok: bool)
      requires Valid()
      modifies this, values
      ensures Valid() && values == old(values)
      ensures ok == (old(len) < values.Length)
      ensures ok ==> Contents() == old(Contents()) + [value] && Back() == value
      ensures ok ==> len == old(len) + 1 && front == old(front) && rear == NextPos(old(rear))
      ensures ok ==> values[..] == old(values[..])[rear := value]
      ensures !ok ==> unchanged(this) && unchanged(values)
    {
      if Full() {
        return false;
      }
      ghost var buf0 := values[..];
      WindowPush(buf0, front, len, value);
      rear := NextPos(rear);
      values[rear] := value;
      len := len + 1;
      assert values[..] == buf0[rear := value];
      return true;
    }

    /** Drops the oldest element unless the queue is empty; the buffer is left as it is. */
    method Pop() returns (ok: bool)
      requires Valid()
      modifies this
      ensures Valid() && values == old(values)
      ensures ok == (old(len) > 0)
      ensures ok ==> Contents() == old(Contents())[1..] && len == old(len) - 1
      ensures ok ==> front == NextPos(old(front)) && rear == old(rear)
      ensures !ok ==> unchanged(this)
    {
      if Empty() {
        return false;
      }
      WindowPop(values[..], front, len);
      front := NextPos(front);
      len := len - 1;
      return true;
    }

    /** Forgets every element; the buffer and its size stay as they are. */
    method Clear()
      requires Valid()
      modifies this
      ensures Valid() && values == old(values)
      ensures len == 0 && front == 0 && rear == -1 && Contents() == []
    {
      len := 0;
      front := 0;
      rear := -1;
    }

    /** The copying loop of Resize: the `len` elements from `front` onward, in
        order, into a fresh zeroed buffer of `newSize` slots, advancing `front`
        one slot per element. */
    method CopyLive(newSize: nat) returns (buffer: array<int>)
      requires 0 <= len <= values.Length && len <= newSize
      requires 0 <= front && (front < values.Length || len == 0)
      modifies this
      ensures fresh(buffer) && buffer.Length == newSize
      ensures values == old(values) && len == old(len) && rear == old(rear)
      ensures buffer[..len] == Window(values[..], old(front), len)
      ensures forall k :: len <= k < newSize ==> buffer[k] == 0
    {
      ghost var w := Window(values[..], front, len);
      ghost var f0 := front;
      buffer := new int[newSize](_ => 0);
      for i := 0 to len
        invariant values == old(values) && len == old(len) && rear == old(rear)
        invariant len > 0 ==> front == Wrap(f0 + i, values.Length)
        invariant forall k :: 0 <= k < i ==> buffer[k] == w[k]
        invariant forall k :: len <= k < newSize ==> buffer[k] == 0
      {
        buffer[i] := values[front];
        front := NextPos(front);
      }
      assert buffer[..len] == w;
    }

    /** Moves the oldest min(len, newSize) elements, in order, to the start of a
        fresh zeroed buffer of newSize slots. */
    method Resize(newSize: nat)
      requires Valid()
      modifies this
      ensures Valid() && fresh(values) && values.Length == newSize
      ensures len == if old(len) > newSize then newSize else old(len)
      ensures Contents() == old(Contents())[..len]
      ensures values[..len] == old(Contents())[..len]
      ensures forall k :: len <= k < newSize ==> values[k] == 0
      ensures front == 0 && rear == len - 1
    {
      ghost var c0 := Contents();
      if len > newSize {
        len := newSize;
      }
      WindowPrefix(values[..], front, old(len), len);
      var buffer := CopyLive(newSize);
      values := buffer;
      front := 0;
      rear := len - 1;
      WindowFromStart(values[..], len);
    }
  }

  /** Three pushes into an empty queue of three slots whose front is slot 0
      fill the buffer in order. */
  method PushThree(q: CircularQueue, a: int, b: int, c: int) returns (accepted: seq<bool>)
    requires q.Valid() && q.values.Length == 3 && q.len == 0 && q.front == 0 && q.rear == -1
    modifies q, q.values
    ensures q.Valid() && q.values == old(q.values) && accepted == [true, true, true]
    ensures q.values[..] == [a, b, c] && q.len == 3 && q.front == 0 && q.rear == 2
    ensures q.Contents() == [a, b, c]
  {
    ghost var buf := q.values[..];
    var ok1 := q.Push(a);
    assert q.values[..] == buf[0 := a] && q.rear == 0;
    var ok2 := q.Push(b);
    assert q.values[..] == buf[0 := a][1 := b] && q.rear == 1;
    var ok3 := q.Push(c);
    assert q.values[..] == [a, b, c];
    WindowFromStart(q.values[..], 3);
    accepted := [ok1, ok2, ok3];
  }

  /** What the test reads off a queue: Empty(), Full(), Front() and Back(). */
  datatype Observed = Observed(empty: bool, full: bool, front: int, back: int)

  function Observe(q: CircularQueue): Observed
    reads q, q.values
    requires q.Valid()
  {
    Observed(q.Empty(), q.Full(), q.Front(), q.Back())
  }

  /** Three pops empty a queue of three elements, and a fourth is refused. */
  method Drain(q: CircularQueue) returns (popped: seq<bool>)
    requires q.Valid() && q.len == 3
    modifies q
    ensures q.Valid() && q.values == old(q.values) && q.len == 0
    ensures popped == [true, true, true, false]
  {
    var ok1 := q.Pop();
    var ok2 := q.Pop();
    var ok3 := q.Pop();
    var ok4 := q.Pop();
    popped := [ok1, ok2, ok3, ok4];
  }

  /** The "critical path" case of TestCircularQueue up to the full queue: the
      fresh queue of three slots, a refused pop, three pushes and a refused
      fourth one. */
  method FillStage() returns (q: CircularQueue, atStart: Observed, startPop: bool,
                              pushed: seq<bool>, full: seq<int>, whenFull: Observed)
    ensures fresh(q) && fresh(q.values) && q.Valid()
    ensures q.values[..] == [1, 2, 3] && q.len == 3 && q.front == 0 && q.rear == 2
    ensures q.Contents() == [1, 2, 3]
    ensures atStart == Observed(true, false, -1, -1) && !startPop
    ensures pushed == [true, true, true, false] && full == [1, 2, 3]
    ensures whenFull == Observed(false, true, 1, 3)
  {
    q := new CircularQueue(3);
    atStart := Observe(q);
    startPop := q.Pop();
    var accepted := PushThree(q, 1, 2, 3);
    var fourth := q.Push(4);
    pushed := accepted + [fourth];
    full := q.values[..];
    whenFull := Observe(q);
  }

  /** Then a pop and a push that wraps into slot 0. */
  method WrapStage(q: CircularQueue) returns (pop: bool, afterPop: Observed, refill: bool,
                                              wrapped: seq<int>, whenWrapped: Observed)
    requires q.Valid() && q.values[..] == [1, 2, 3] && q.len == 3 && q.front == 0 && q.rear == 2
    requires q.Contents() == [1, 2, 3]
    modifies q, q.values
    ensures q.Valid() && q.values == old(q.values) && q.len == 3
    ensures pop && !afterPop.empty && !afterPop.full && refill
    ensures wrapped == [4, 2, 3] && whenWrapped.front == 2 && whenWrapped.back == 4
  {
    pop := q.Pop();
    assert q.Contents() == [2, 3];
    afterPop := Observe(q);
    refill := q.Push(4);
    assert q.Contents() == [2, 3, 4];
    wrapped := q.values[..];
    whenWrapped := Observe(q);
  }

  /** The "critical path" case of TestCircularQueue, on a queue of three slots:
      the fresh queue, the pushes up to a refused fourth one, the full buffer,
      a pop and a push that wraps to slot 0, and the drain to empty. */
  method CriticalPathScenario() returns (atStart: Observed, startPop: bool,
                                         pushed: seq<bool>, full: seq<int>, whenFull: Observed,
                                         pop: bool, afterPop: Observed, refill: bool,
                                         wrapped: seq<int>, whenWrapped: Observed,
                                         drained: seq<bool>, atEnd: Observed)
    ensures atStart == Observed(true, false, -1, -1) && !startPop
    ensures pushed == [true, true, true, false] && full == [1, 2, 3]
    ensures whenFull == Observed(false, true, 1, 3)
    ensures pop && !afterPop.empty && !afterPop.full && refill
    ensures wrapped == [4, 2, 3] && whenWrapped.front == 2 && whenWrapped.back == 4
    ensures drained == [true, true, true, false] && atEnd.empty && !atEnd.full
  {
    var q;
    q, atStart, startPop, pushed, full, whenFull := FillStage();
    pop, afterPop, refill, wrapped, whenWrapped := WrapStage(q);
    drained := Drain(q);
    atEnd := Observe(q);
  }

  /** The "clear queue" case of TestCircularQueue: after Clear the next pushes
      overwrite the buffer from its first slot. */
  method ClearScenario() returns (firstPushes: seq<bool>, before: seq<int>, secondPushes: seq<bool>,
                                  after: seq<int>, front: int, back: int)
    ensures firstPushes == [true, true, true] && before == [1, 2, 3]
    ensures secondPushes == [true, true, true] && after == [4, 5, 6] && front == 4 && back == 6
  {
    var q := new CircularQueue(3);
    firstPushes := PushThree(q, 1, 2, 3);
    before := q.values[..];
    q.Clear();
    secondPushes := PushThree(q, 4, 5, 6);
    after, front, back := q.values[..], q.Front(), q.Back();
  }

  /** Push 1, push 2, pop, push 3 on a queue of two slots. */
  method TwoSlotQueue() returns (q: CircularQueue, steps: seq<bool>)
    ensures fresh(q) && fresh(q.values) && q.Valid()
    ensures q.values[..] == [3, 2] && q.front == 1 && q.len == 2 && q.Contents() == [2, 3]
    ensures steps == [true, true, true, true]
  {
    q := new CircularQueue(2);
    var ok1 := q.Push(1);
    var ok2 := q.Push(2);
    var ok3 := q.Pop();
    var ok4 := q.Push(3);
    assert q.values[..] == [3, 2];
    steps := [ok1, ok2, ok3, ok4];
  }

  /** The "resize queue" case up to the grown queue: the small queue of two
      slots, full with [3, 2], then resized to four slots. */
  method GrowStage() returns (q: CircularQueue, startSize: int, steps: seq<bool>, small: seq<int>,
                              whenSmall: Observed, grownSize: int, grown: seq<int>, whenGrown: Observed)
    ensures fresh(q) && fresh(q.values) && q.Valid()
    ensures q.values[..] == [2, 3, 0, 0] && q.front == 0 && q.len == 2 && q.rear == 1
    ensures startSize == 2 && steps == [true, true, true, true]
    ensures small == [3, 2] && whenSmall == Observed(false, true, 2, 3)
    ensures grownSize == 4 && grown == [2, 3, 0, 0] && whenGrown == Observed(false, false, 2, 3)
  {
    q, steps := TwoSlotQueue();
    startSize := 2;
    small := q.values[..];
    whenSmall := Observe(q);
    q.Resize(4);
    WindowFromStart(q.values[..], 2);
    grownSize := q.Size();
    grown := q.values[..];
    whenGrown := Observe(q);
  }

  /** Then two pushes, a pop and a push wrap the newest element to slot 0. */
  method RefillGrown(q: CircularQueue) returns (steps: seq<bool>)
    requires q.Valid() && q.values[..] == [2, 3, 0, 0] && q.front == 0 && q.len == 2 && q.rear == 1
    modifies q, q.values
    ensures q.Valid() && q.values == old(q.values)
    ensures q.values[..] == [6, 3, 4, 5] && q.Contents() == [3, 4, 5, 6]
    ensures steps == [true, true, true, true]
  {
    var ok1 := q.Push(4);
    assert q.values[..] == [2, 3, 4, 0] && q.rear == 2;
    var ok2 := q.Push(5);
    assert q.values[..] == [2, 3, 4, 5] && q.rear == 3;
    var ok3 := q.Pop();
    assert q.front == 1 && q.len == 3;
    var ok4 := q.Push(6);
    assert q.values[..] == [6, 3, 4, 5];
    steps := [ok1, ok2, ok3, ok4];
  }

  /** Then the refilled queue, and the queue shrunk back to two slots. */
  method ShrinkStage(q: CircularQueue) returns (steps: seq<bool>, refilled: seq<int>, whenRefilled: Observed,
                                                shrunkSize: int, shrunk: seq<int>, whenShrunk: Observed)
    requires q.Valid() && q.values[..] == [2, 3, 0, 0] && q.front == 0 && q.len == 2 && q.rear == 1
    modifies q, q.values
    ensures steps == [true, true, true, true]
    ensures refilled == [6, 3, 4, 5] && whenRefilled == Observed(false, true, 3, 6)
    ensures shrunkSize == 2 && shrunk == [3, 4] && whenShrunk == Observed(false, true, 3, 4)
  {
    steps := RefillGrown(q);
    refilled := q.values[..];
    whenRefilled := Observe(q);
    q.Resize(2);
    assert q.values[..] == [3, 4] && q.Contents() == [3, 4];
    shrunkSize := q.Size();
    shrunk := q.values[..];
    whenShrunk := Observe(q);
  }

  /** The "resize queue" case of TestCircularQueue: sizes, buffers, fullness,
      front and back after growing the queue, after refilling it, and after
      shrinking it again. */
  method ResizeScenario() returns (startSize: int, steps: seq<bool>, small: seq<int>, whenSmall: Observed,
                                   grownSize: int, grown: seq<int>, whenGrown: Observed,
                                   refills: seq<bool>, refilled: seq<int>, whenRefilled: Observed,
                                   shrunkSize: int, shrunk: seq<int>, whenShrunk: Observed)
    ensures startSize == 2 && steps == [true, true, true, true]
    ensures small == [3, 2] && whenSmall.full && whenSmall.front == 2 && whenSmall.back == 3
    ensures grownSize == 4 && grown == [2, 3, 0, 0] && !whenGrown.full
    ensures whenGrown.front == 2 && whenGrown.back == 3
    ensures refills == [true, true, true, true] && refilled == [6, 3, 4, 5]
    ensures whenRefilled.full && whenRefilled.front == 3 && whenRefilled.back == 6
    ensures shrunkSize == 2 && shrunk == [3, 4] && whenShrunk.full
    ensures whenShrunk.front == 3 && whenShrunk.back == 4
  {
    var q;
    q, startSize, steps, small, whenSmall, grownSize, grown, whenGrown := GrowStage();
    refills, refilled, whenRefilled, shrunkSize, shrunk, whenShrunk := ShrinkStage(q);
  }
}
