/** The bounded FIFO buffer shared by producer and consumer threads.
    The monitor (synchronized, wait, notifyAll) is not modelled: each `while (...) wait()`
    guard becomes the precondition under which the call proceeds without blocking. */
module SharedQueues {

  class SharedQueue<T> {
    /** The items held, head first (the LinkedList `queue`). */
    var queue: seq<T>
    /** The constructor argument, never checked: zero and negative values are accepted. */
    const capacity: int

    constructor (capacity: int)
      ensures this.capacity == capacity
      ensures queue == []
    {
      this.capacity := capacity;
      queue := [];
    }

    /** The occupancy bound the guards keep when the capacity is not negative. */
    predicate WithinCapacity()
      reads this
    {
      0 <= capacity ==> |queue| <= capacity
    }

    /** `put`: proceeds only while the size differs from the capacity, then appends at the tail. */
    method Put(item: T)
      requires |queue| != capacity
      modifies this
      ensures queue == old(queue) + [item]
      ensures old(WithinCapacity()) ==> WithinCapacity()
    {
      queue := queue + [item];
    }

    /** `take`: proceeds only when the queue is not empty, then removes and returns the head. */
    method Take() returns (item: T)
      requires queue != []
      modifies this
      ensures item == old(queue)[0]
      ensures queue == old(queue)[1..]
      ensures old(WithinCapacity()) ==> WithinCapacity()
    {
      item := queue[0];
      queue := queue[1..];
    }

    method Size() returns (n: int)
      ensures n == |queue|
    {
      n := |queue|;
    }

    method IsEmpty() returns (empty: bool)
      ensures empty <==> queue == []
    {
      empty := |queue| == 0;
    }

    method IsFull() returns (full: bool)
      ensures full <==> |queue| == capacity
    {
      full := |queue| == capacity;
    }

    method GetCapacity() returns (c: int)
      ensures c == capacity
    {
      c := capacity;
    }
  }

  /** A queue of capacity zero that keeps its bound is full for good: `put` can never proceed. */
  lemma ZeroCapacityAlwaysFull<T>(q: SharedQueue<T>)
    requires q.capacity == 0 && q.WithinCapacity()
    ensures |q.queue| == q.capacity
  {
  }

  /** With a negative capacity the full-guard never holds, so every `put` proceeds. */
  lemma NegativeCapacityNeverFull<T>(q: SharedQueue<T>)
    requires q.capacity < 0
    ensures |q.queue| != q.capacity
  {
  }

  /** `put(x)` followed by `take()` on a fresh, empty queue returns `x` and leaves the queue empty. */
  method PutThenTake<T>(capacity: int, x: T) returns (y: T, emptyAfter: bool)
    requires capacity != 0
    ensures y == x
    ensures emptyAfter
  {
    var q := new SharedQueue<T>(capacity);
    q.Put(x);
    y := q.Take();
    emptyAfter := q.IsEmpty();
  }

  /** A fresh queue of capacity zero reports itself full. */
  method FreshZeroCapacityIsFull<T>() returns (full: bool, capacity: int)
    ensures full && capacity == 0
  {
    var q := new SharedQueue<T>(0);
    full := q.IsFull();
    capacity := q.GetCapacity();
  }

  /** A queue with a negative capacity accepts every item put into it and never reports full. */
  method NegativeCapacityAcceptsAll<T>(capacity: int, items: seq<T>) returns (size: int, full: bool)
    requires capacity < 0
    ensures size == |items|
    ensures !full
  {
    var q := new SharedQueue<T>(capacity);
    var i := 0;
    while i < |items|
      invariant 0 <= i <= |items|
      invariant q.queue == items[..i]
    {
      q.Put(items[i]);
      i := i + 1;
    }
    size := q.Size();
    full := q.IsFull();
  }
}
