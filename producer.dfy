/** The producer task: puts every item of its source list, in order, into the shared queue.
    Thread naming, the pause between puts and interruption are not modelled. */
module Producers {
  import opened SharedQueues

  /** No `put` of a run that adds `count` items to a queue holding `size` items waits:
      no intermediate size equals the capacity. */
  predicate PutsNeverBlock(size: int, count: int, capacity: int)
  {
    capacity < size || size + count <= capacity
  }

  class Producer<T> {
    const sharedQueue: SharedQueue<T>
    /** The source list, only ever read. */
    const sourceContainer: seq<T>
    const producerName: string
    /** Milliseconds slept after each put; it has no effect on the queue. */
    const productionDelay: int

    constructor (sharedQueue: SharedQueue<T>, sourceContainer: seq<T>, producerName: string, productionDelay: int)
      ensures this.sharedQueue == sharedQueue && this.sourceContainer == sourceContainer
      ensures this.producerName == producerName && this.productionDelay == productionDelay
    {
      this.sharedQueue := sharedQueue;
      this.sourceContainer := sourceContainer;
      this.producerName := producerName;
      this.productionDelay := productionDelay;
    }

    /** `run`: the queue ends as its old contents followed by the whole source, in source order. */
    method Run()
      requires PutsNeverBlock(|sharedQueue.queue|, |sourceContainer|, sharedQueue.capacity)
      modifies sharedQueue
      ensures sharedQueue.queue == old(sharedQueue.queue) + sourceContainer
      ensures old(sharedQueue.WithinCapacity()) ==> sharedQueue.WithinCapacity()
    {
      for i := 0 to |sourceContainer|
        invariant sharedQueue.queue == old(sharedQueue.queue) + sourceContainer[..i]
        invariant old(sharedQueue.WithinCapacity()) ==> sharedQueue.WithinCapacity()
      {
        sharedQueue.Put(sourceContainer[i]);
      }
    }

    method GetProducerName() returns (name: string)
      ensures name == producerName
    {
      name := producerName;
    }
  }

  /** Producing `source` into a fresh queue large enough for it leaves exactly those items, in order. */
  method ProduceIntoFreshQueue<T>(capacity: int, source: seq<T>) returns (contents: seq<T>, size: int, name: string)
    requires |source| <= capacity
    ensures contents == source
    ensures size == |source|
    ensures name == "TestProducer"
  {
    var q := new SharedQueue<T>(capacity);
    var p := new Producer<T>(q, source, "TestProducer", 10);
    p.Run();
    contents := q.queue;
    size := q.Size();
    name := p.GetProducerName();
  }

  /** An empty source completes at once and leaves the queue as it was. */
  method ProduceNothing<T>(capacity: int, prefill: seq<T>) returns (before: seq<T>, after: seq<T>)
    requires capacity < 0 || |prefill| <= capacity
    ensures after == before == prefill
  {
    var q := new SharedQueue<T>(capacity);
    var fill := new Producer<T>(q, prefill, "Fill", 0);
    fill.Run();
    before := q.queue;
    var p := new Producer<T>(q, [], "P", 10);
    p.Run();
    after := q.queue;
  }
}
