/** The consumer task: takes a fixed number of items from the shared queue and appends each
    to a destination list that other consumers may share. Thread naming, the pause between
    takes and interruption are not modelled. */
module Consumers {
  import opened SharedQueues

  /** The destination list (a synchronized List in the tests): only ever appended to. */
  class Destination<T> {
    var items: seq<T>

    constructor ()
      ensures items == []
    {
      items := [];
    }

    method Add(item: T)
      modifies this
      ensures items == old(items) + [item]
    {
      items := items + [item];
    }
  }

  /** The number of `take` calls a run makes: the requested count, or none when it is not positive. */
  function TakeCount(itemsToConsume: int): (n: nat)
    ensures itemsToConsume <= 0 ==> n == 0
    ensures 0 <= itemsToConsume ==> n == itemsToConsume
  {
    if itemsToConsume < 0 then 0 else itemsToConsume
  }

  class Consumer<T> {
    const sharedQueue: SharedQueue<T>
    const destinationContainer: Destination<T>
    const consumerName: string
    const itemsToConsume: int
    /** Milliseconds slept after each take; it has no effect on the queue. */
    const consumptionDelay: int

    constructor (sharedQueue: SharedQueue<T>, destinationContainer: Destination<T>, consumerName: string,
                 itemsToConsume: int, consumptionDelay: int)
      ensures this.sharedQueue == sharedQueue && this.destinationContainer == destinationContainer
      ensures this.consumerName == consumerName && this.itemsToConsume == itemsToConsume
      ensures this.consumptionDelay == consumptionDelay
    {
      this.sharedQueue := sharedQueue;
      this.destinationContainer := destinationContainer;
      this.consumerName := consumerName;
      this.itemsToConsume := itemsToConsume;
      this.consumptionDelay := consumptionDelay;
    }

    /** `run`: the first `TakeCount(itemsToConsume)` items move, in queue order, from the head of
        the queue to the end of the destination; nothing already in the destination moves. */
    method Run()
      requires itemsToConsume <= |sharedQueue.queue|
      modifies sharedQueue, destinationContainer
      ensures var n := TakeCount(itemsToConsume);
        && destinationContainer.items == old(destinationContainer.items) + old(sharedQueue.queue)[..n]
        && sharedQueue.queue == old(sharedQueue.queue)[n..]
      ensures old(sharedQueue.WithinCapacity()) ==> sharedQueue.WithinCapacity()
    {
      var i := 0;
      while i < itemsToConsume
        invariant 0 <= i <= TakeCount(itemsToConsume)
        invariant sharedQueue.queue == old(sharedQueue.queue)[i..]
        invariant destinationContainer.items == old(destinationContainer.items) + old(sharedQueue.queue)[..i]
        invariant old(sharedQueue.WithinCapacity()) ==> sharedQueue.WithinCapacity()
      {
        var item := sharedQueue.Take();
        destinationContainer.Add(item);
        i := i + 1;
      }
    }

    method GetConsumerName() returns (name: string)
      ensures name == consumerName
    {
      name := consumerName;
    }
  }

  /** Consuming as many items as a fresh queue holds moves all of them, in order, and empties the queue. */
  method ConsumeAll<T>(capacity: int, prefill: seq<T>) returns (destination: seq<T>, queueEmpty: bool)
    requires capacity < 0 || |prefill| <= capacity
    ensures destination == prefill
    ensures queueEmpty
  {
    var q := new SharedQueue<T>(capacity);
    var i := 0;
    while i < |prefill|
      invariant 0 <= i <= |prefill|
      invariant q.queue == prefill[..i]
    {
      q.Put(prefill[i]);
      i := i + 1;
    }
    var d := new Destination<T>();
    var c := new Consumer<T>(q, d, "TestConsumer", |prefill|, 10);
    c.Run();
    destination := d.items;
    queueEmpty := q.IsEmpty();
  }

  /** A consumer asked for a non-positive count takes nothing and leaves the queue as it was. */
  method ConsumeNonPositive<T>(capacity: int, prefill: seq<T>, count: int) returns (destination: seq<T>, left: seq<T>)
    requires capacity < 0 || |prefill| <= capacity
    requires count <= 0
    ensures destination == []
    ensures left == prefill
  {
    var q := new SharedQueue<T>(capacity);
    var i := 0;
    while i < |prefill|
      invariant 0 <= i <= |prefill|
      invariant q.queue == prefill[..i]
    {
      q.Put(prefill[i]);
      i := i + 1;
    }
    var d := new Destination<T>();
    var c := new Consumer<T>(q, d, "C-Negative", count, 10);
    c.Run();
    destination := d.items;
    left := q.queue;
  }
}
