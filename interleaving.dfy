/** Any interleaving of producer and consumer steps on one shared queue, at the level of values.
    A producer step is one `put` (enabled only while the queue is not full), a consumer step one
    `take` followed by the append to that consumer's destination (enabled only while the queue is
    not empty). The queue's monitor makes each `put` and each `take` atomic; a consumer step
    also performs the append that follows its `take`, so a run is a sequence of steps. */
module Interleaving {
  import opened Wrappers
  import opened SharedQueues

  datatype System<T> = System(
    queue: seq<T>,
    capacity: int,
    sources: seq<seq<T>>,       // what each producer still has to put
    quotas: seq<int>,           // how many items each consumer still has to take
    destinations: seq<seq<T>>,  // what each consumer has appended so far
    produced: seq<T>,           // every item put so far, in put order
    consumed: seq<T>)           // every item taken so far, in take order

  datatype Step = ProducerStep(producer: nat) | ConsumerStep(consumer: nat)

  /** The concatenation of a list of lists. */
  function Flatten<T>(ss: seq<seq<T>>): (r: seq<T>)
  {
    if ss == [] then [] else ss[0] + Flatten(ss[1..])
  }

  function Init<T>(sources: seq<seq<T>>, quotas: seq<int>, capacity: int): System<T>
  {
    System([], capacity, sources, quotas, seq(|quotas|, _ => []), [], [])
  }

  /** A step may run when its task has work left and its guard does not make it wait. */
  predicate Enabled<T>(s: System<T>, step: Step)
    ensures Enabled(s, step) && step.ConsumerStep? ==> |s.queue| > 0
    ensures Enabled(s, step) && step.ProducerStep? && 0 <= s.capacity && |s.queue| <= s.capacity ==>
      |s.queue| < s.capacity
  {
    match step
    case ProducerStep(p) => p < |s.sources| && s.sources[p] != [] && |s.queue| != s.capacity
    case ConsumerStep(c) => c < |s.quotas| && c < |s.destinations| && 0 < s.quotas[c] && s.queue != []
  }

  /** One step moves exactly one item: a producer's next item to the tail of the queue, or the
      head of the queue to the end of a consumer's destination. */
  function Next<T>(s: System<T>, step: Step): (r: System<T>)
    requires Enabled(s, step)
    ensures r.capacity == s.capacity
    ensures |r.sources| == |s.sources| && |r.destinations| == |s.destinations|
    ensures 0 <= s.capacity && |s.queue| <= s.capacity ==> |r.queue| <= r.capacity
    ensures step.ProducerStep? ==>
      && |r.queue| == |s.queue| + 1 && r.queue[..|s.queue|] == s.queue
      && [r.queue[|s.queue|]] + r.sources[step.producer] == s.sources[step.producer]
    ensures step.ConsumerStep? ==>
      && [s.queue[0]] + r.queue == s.queue
      && r.destinations[step.consumer] == s.destinations[step.consumer] + [s.queue[0]]
  {
    match step
    case ProducerStep(p) =>
      var x := s.sources[p][0];
      s.(queue := s.queue + [x], sources := s.sources[p := s.sources[p][1..]], produced := s.produced + [x])
    case ConsumerStep(c) =>
      var x := s.queue[0];
      s.(queue := s.queue[1..], quotas := s.quotas[c := s.quotas[c] - 1],
         destinations := s.destinations[c := s.destinations[c] + [x]], consumed := s.consumed + [x])
  }

  /** Runs the steps in order; None when some step would have to wait. */
  function Run<T>(s: System<T>, steps: seq<Step>): Option<System<T>>
    decreases |steps|
  {
    if steps == [] then Some(s)
    else if Enabled(s, steps[0]) then Run(Next(s, steps[0]), steps[1..])
    else None
  }

  /** What every reachable state satisfies, given the initial sources:
      the queue hands items out in the order they were put (FIFO); every taken item sits in
      exactly one destination; every put item came from a source and left it; and a
      non-negative capacity bounds the occupancy. */
  ghost predicate Inv<T>(s: System<T>, sources0: seq<seq<T>>)
  {
    && s.produced == s.consumed + s.queue
    && multiset(s.consumed) == multiset(Flatten(s.destinations))
    && multiset(Flatten(sources0)) == multiset(s.produced) + multiset(Flatten(s.sources))
    && (0 <= s.capacity ==> |s.queue| <= s.capacity)
    && |s.quotas| == |s.destinations|
  }

  lemma {:induction false} FlattenEmpties<T>(n: nat)
    ensures Flatten<T>(seq(n, _ => [])) == []
  {
    if n > 0 {
      var e: seq<seq<T>> := seq(n, _ => []);
      assert e[1..] == seq(n - 1, _ => []);
      FlattenEmpties<T>(n - 1);
    }
  }

  /** The flattened list splits around any one of its lists. */
  lemma {:induction false} FlattenAt<T>(ss: seq<seq<T>>, i: nat)
    requires i < |ss|
    ensures Flatten(ss) == Flatten(ss[..i]) + (ss[i] + Flatten(ss[i + 1..]))
  {
    if i == 0 {
      assert ss[..0] == [];
    } else {
      var t := ss[1..];
      FlattenAt(t, i - 1);
      assert t[..i - 1] == ss[..i][1..];
      assert t[i - 1] == ss[i] && t[i..] == ss[i + 1..];
      assert Flatten(ss[..i]) == ss[0] + Flatten(ss[..i][1..]);
    }
  }

  /** Taking the head off one list removes exactly that item from the flattened multiset. */
  lemma FlattenPopFront<T>(ss: seq<seq<T>>, p: nat)
    requires p < |ss| && ss[p] != []
    ensures multiset(Flatten(ss)) == multiset(Flatten(ss[p := ss[p][1..]])) + multiset{ss[p][0]}
  {
    var u := ss[p := ss[p][1..]];
    FlattenAt(ss, p);
    FlattenAt(u, p);
    assert u[..p] == ss[..p] && u[p + 1..] == ss[p + 1..];
    assert ss[p] == [ss[p][0]] + u[p];
    var A, B := multiset(Flatten(ss[..p])), multiset(Flatten(ss[p + 1..]));
    assert multiset(Flatten(u)) == A + (multiset(u[p]) + B);
    assert multiset(Flatten(ss)) == A + (multiset{ss[p][0]} + multiset(u[p]) + B);
  }

  /** Appending an item to one list adds exactly that item to the flattened multiset. */
  lemma FlattenPushBack<T>(ss: seq<seq<T>>, c: nat, x: T)
    requires c < |ss|
    ensures multiset(Flatten(ss[c := ss[c] + [x]])) == multiset(Flatten(ss)) + multiset{x}
  {
    var u := ss[c := ss[c] + [x]];
    FlattenAt(ss, c);
    FlattenAt(u, c);
    assert u[..c] == ss[..c] && u[c + 1..] == ss[c + 1..];
    var A, B := multiset(Flatten(ss[..c])), multiset(Flatten(ss[c + 1..]));
    assert multiset(Flatten(u)) == A + (multiset(ss[c]) + multiset{x} + B);
    assert multiset(Flatten(ss)) == A + (multiset(ss[c]) + B);
  }

  lemma InitInv<T>(sources: seq<seq<T>>, quotas: seq<int>, capacity: int)
    ensures Inv(Init(sources, quotas, capacity), sources)
  {
    FlattenEmpties<T>(|quotas|);
  }

  /** A producer step keeps the invariant. */
  lemma ProducerStepInv<T>(s: System<T>, p: nat, sources0: seq<seq<T>>)
    requires Inv(s, sources0) && Enabled(s, ProducerStep(p))
    ensures Inv(Next(s, ProducerStep(p)), sources0)
  {
    var x := s.sources[p][0];
    var u := s.sources[p := s.sources[p][1..]];
    var t := s.(queue := s.queue + [x], sources := u, produced := s.produced + [x]);
    assert Next(s, ProducerStep(p)) == t;
    assert t.produced == t.consumed + t.queue;
    assert multiset(Flatten(sources0)) == multiset(t.produced) + multiset(Flatten(u)) by {
      FlattenPopFront(s.sources, p);
    }
  }

  lemma ConsumerStepInv<T>(s: System<T>, c: nat, sources0: seq<seq<T>>)
    requires Inv(s, sources0) && Enabled(s, ConsumerStep(c))
    ensures Inv(Next(s, ConsumerStep(c)), sources0)
  {
    var x := s.queue[0];
    var d := s.destinations[c := s.destinations[c] + [x]];
    var t := s.(queue := s.queue[1..], quotas := s.quotas[c := s.quotas[c] - 1],
                destinations := d, consumed := s.consumed + [x]);
    assert Next(s, ConsumerStep(c)) == t;
    assert t.produced == t.consumed + t.queue by {
      assert s.queue == [x] + t.queue;
    }
    assert multiset(t.consumed) == multiset(Flatten(d)) by {
      FlattenPushBack(s.destinations, c, x);
    }
    assert t.produced == s.produced && t.sources == s.sources;
    assert |t.quotas| == |t.destinations|;
    assert 0 <= t.capacity ==> |t.queue| <= t.capacity;
  }

  /** Each step keeps the invariant and the capacity. */
  lemma NextInv<T>(s: System<T>, step: Step, sources0: seq<seq<T>>)
    requires Inv(s, sources0) && Enabled(s, step)
    ensures Inv(Next(s, step), sources0)
  {
    match step
    case ProducerStep(p) => ProducerStepInv(s, p, sources0);
    case ConsumerStep(c) => ConsumerStepInv(s, c, sources0);
  }

  /** Every state any interleaving reaches from the start keeps the invariant. */
  lemma {:induction false} RunInv<T>(s: System<T>, steps: seq<Step>, sources0: seq<seq<T>>)
    requires Inv(s, sources0)
    requires Run(s, steps).Some?
    ensures Inv(Run(s, steps).value, sources0)
    ensures Run(s, steps).value.capacity == s.capacity
    decreases |steps|
  {
    if steps != [] {
      NextInv(s, steps[0], sources0);
      RunInv(Next(s, steps[0]), steps[1..], sources0);
    }
  }

  /** No loss, no duplication: once every producer is done and the queue is drained, the
      destinations together hold exactly the items of all the sources, each as often as it was
      produced. */
  lemma NoLossNoDuplication<T>(sources: seq<seq<T>>, quotas: seq<int>, capacity: int, steps: seq<Step>)
    requires Run(Init(sources, quotas, capacity), steps).Some?
    requires var s := Run(Init(sources, quotas, capacity), steps).value;
      s.queue == [] && forall p | 0 <= p < |s.sources| :: s.sources[p] == []
    ensures multiset(Flatten(Run(Init(sources, quotas, capacity), steps).value.destinations)) == multiset(Flatten(sources))
  {
    InitInv(sources, quotas, capacity);
    RunInv(Init(sources, quotas, capacity), steps, sources);
    var s := Run(Init(sources, quotas, capacity), steps).value;
    FlattenAllEmpty(s.sources);
  }

  lemma {:induction false} FlattenAllEmpty<T>(ss: seq<seq<T>>)
    requires forall p | 0 <= p < |ss| :: ss[p] == []
    ensures Flatten(ss) == []
  {
    if ss != [] {
      FlattenAllEmpty(ss[1..]);
    }
  }

  /** At any point, the occupancy stays within a non-negative capacity. */
  lemma OccupancyBounded<T>(sources: seq<seq<T>>, quotas: seq<int>, capacity: int, steps: seq<Step>)
    requires 0 <= capacity
    requires Run(Init(sources, quotas, capacity), steps).Some?
    ensures |Run(Init(sources, quotas, capacity), steps).value.queue| <= capacity
  {
    InitInv(sources, quotas, capacity);
    RunInv(Init(sources, quotas, capacity), steps, sources);
  }

  /** With one producer and one consumer, the consumer's destination is exactly what it took,
      and the producer has put a prefix of its source. */
  ghost predicate SingleInv<T>(s: System<T>, source0: seq<T>)
  {
    && |s.sources| == 1 && |s.destinations| == 1
    && s.destinations[0] == s.consumed
    && s.produced + s.sources[0] == source0
  }

  lemma {:induction false} RunSingleInv<T>(s: System<T>, steps: seq<Step>, source0: seq<T>)
    requires SingleInv(s, source0)
    requires Run(s, steps).Some?
    ensures SingleInv(Run(s, steps).value, source0)
    decreases |steps|
  {
    if steps != [] {
      var s' := Next(s, steps[0]);
      if steps[0].ProducerStep? {
        assert s.sources[0] == [s.sources[0][0]] + s.sources[0][1..];
        assert s'.produced + s'.sources[0] == s.produced + s.sources[0];
      }
      RunSingleInv(s', steps[1..], source0);
    }
  }

  /** One producer, one consumer: once the source is used up and the queue drained, the
      destination equals the source, item for item and in order. */
  lemma SingleProducerSingleConsumerInOrder<T>(source: seq<T>, quota: int, capacity: int, steps: seq<Step>)
    requires Run(Init([source], [quota], capacity), steps).Some?
    requires var s := Run(Init([source], [quota], capacity), steps).value;
      s.queue == [] && forall p | 0 <= p < |s.sources| :: s.sources[p] == []
    ensures Run(Init([source], [quota], capacity), steps).value.destinations == [source]
  {
    var s0 := Init([source], [quota], capacity);
    InitInv([source], [quota], capacity);
    RunInv(s0, steps, [source]);
    assert SingleInv(s0, source);
    RunSingleInv(s0, steps, source);
    DrainedSingle(Run(s0, steps).value, source);
  }

  /** A drained single-producer, single-consumer state has delivered its whole source. */
  lemma DrainedSingle<T>(s: System<T>, source0: seq<T>)
    requires SingleInv(s, source0) && s.produced == s.consumed + s.queue
    requires s.queue == [] && s.sources[0] == []
    ensures s.destinations == [source0]
  {
    assert s.produced == s.produced + s.sources[0];
    assert s.consumed == s.consumed + s.queue;
  }

  /** A producer step changes the queue exactly as `SharedQueue.Put` does. */
  method PutIsProducerStep<T>(q: SharedQueue<T>, s: System<T>, p: nat)
    requires q.queue == s.queue && q.capacity == s.capacity && Enabled(s, ProducerStep(p))
    modifies q
    ensures q.queue == Next(s, ProducerStep(p)).queue
  {
    q.Put(s.sources[p][0]);
  }

  /** A consumer step changes the queue exactly as `SharedQueue.Take` does, and appends the
      item `take` returns. */
  method TakeIsConsumerStep<T>(q: SharedQueue<T>, s: System<T>, c: nat) returns (item: T)
    requires q.queue == s.queue && q.capacity == s.capacity && Enabled(s, ConsumerStep(c))
    modifies q
    ensures q.queue == Next(s, ConsumerStep(c)).queue
    ensures Next(s, ConsumerStep(c)).destinations[c] == s.destinations[c] + [item]
  {
    item := q.Take();
  }
}
