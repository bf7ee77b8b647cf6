// The blocking queue of http_multi_download/common/kdeque.hpp.
//
// Every public operation of the queue takes the queue's own mutex for its whole body, so
// each body is one atomic step.  `KDeque` is the object; `QueueState` is the same object
// seen as a value, together with the threads that sleep on its not-full condition.
module TaskQueue {
  import opened Bytes

  /** What pop_front hands out: nothing (NULL) when the queue is stopped or empty. */
  function Front<T>(running: bool, items: seq<T>): (r: Option<T>)
    ensures r.Some? <==> running && items != []
    ensures r.Some? ==> r.value == items[0]
  {
    if !running || items == [] then None else Some(items[0])
  }

  function Rest<T>(running: bool, items: seq<T>): (r: seq<T>)
    ensures items == (if Front(running, items).Some? then [items[0]] else []) + r
  {
    if !running || items == [] then items else items[1..]
  }

  class KDeque<T> {
    var m_deque: seq<T>
    const m_maxCapacity: int
    var m_running: bool

    constructor (maxCapacity: int := -1, running: bool := true)
      ensures m_deque == [] && m_maxCapacity == maxCapacity && m_running == running
    {
      m_deque := [];
      m_maxCapacity := maxCapacity;
      m_running := running;
    }

    predicate HasCapacity() {
      m_maxCapacity > 0
    }

    /** The object in a step state that says the rest. */
    ghost function InState(rest: QueueState<T>): QueueState<T>
      reads this
    {
      rest.(capacity := m_maxCapacity, running := m_running, items := m_deque)
    }

    /** One pass of push_back with the lock held: either the caller has to sleep on the
        not-full condition and nothing changes, or the item goes to the back. */
    method PushBack(item: T) returns (sleeps: bool)
      modifies this`m_deque
      ensures sleeps <==> m_maxCapacity > 0 && |old(m_deque)| >= m_maxCapacity
      ensures m_deque == old(m_deque) + if sleeps then [] else [item]
    {
      if HasCapacity() && |m_deque| >= m_maxCapacity {
        return true;
      }
      m_deque := m_deque + [item];
      return false;
    }

    method PopFront() returns (r: Option<T>)
      modifies this`m_deque
      ensures r == Front(m_running, old(m_deque))
      ensures m_deque == Rest(m_running, old(m_deque))
    {
      if !m_running || m_deque == [] {
        return None;
      }
      var tmp := m_deque[0];
      m_deque := m_deque[1..];
      return Some(tmp);
    }

    method Empty() returns (r: bool)
      ensures r <==> m_deque == []
    {
      r := m_deque == [];
    }

    method Size() returns (n: nat)
      ensures n == |m_deque|
    {
      n := |m_deque|;
    }

    method SetStop()
      modifies this`m_running
      ensures !m_running
    {
      m_running := false;
    }

    method SetStart()
      modifies this`m_running
      ensures m_running
    {
      m_running := true;
    }
  }

  // ---- Emptying a queue by popping until empty() (ThreadPool::Stop and ~ThreadPool) ----

  /** What is left after n rounds of the drain loop. */
  function LeftAfter<T>(running: bool, items: seq<T>, n: nat): seq<T> {
    if n == 0 then items else LeftAfter(running, Rest(running, items), n - 1)
  }

  lemma {:induction false} PopsShorten<T>(running: bool, items: seq<T>, n: nat)
    ensures running && n >= |items| ==> LeftAfter(running, items, n) == []
    ensures !running ==> LeftAfter(running, items, n) == items
  {
    if n > 0 {
      PopsShorten(running, Rest(running, items), n - 1);
    }
  }

  /** A drain loop ends exactly when the queue is running or already empty: a task added after
      Stop keeps the loop of ~ThreadPool going for ever, because a stopped queue hands out only
      NULL. */
  lemma DrainLoopEnds<T>(running: bool, items: seq<T>)
    ensures (exists n: nat :: LeftAfter(running, items, n) == []) <==> running || items == []
  {
    PopsShorten(running, items, |items|);
    forall n: nat | LeftAfter(running, items, n) == []
      ensures running || items == []
    {
      PopsShorten(running, items, n);
    }
    assert LeftAfter(running, items, 0) == items;
  }

  // ---- The queue under any number of producers and consumers ----

  type ThreadId = nat

  /** The queue, the producers asleep on m_notFull, and what has gone in and come out. */
  datatype QueueState<T> = QueueState(
    capacity: int,
    running: bool,
    items: seq<T>,
    asleep: set<ThreadId>,
    arrived: seq<T>,
    served: seq<T>)

  datatype QueueStep<T> =
    | Push(producer: ThreadId, item: T)   // push_back, from its first lock or after waking
    | Pop                                 // pop_front
    | Wake(producer: ThreadId)            // a spurious wake-up
    | SetRunning(value: bool)             // set_stop, set_start

  predicate Possible<T(==)>(s: QueueState<T>, step: QueueStep<T>) {
    match step
    case Push(p, _) => p !in s.asleep
    case Wake(p) => p in s.asleep
    case _ => true
  }

  function Next<T>(s: QueueState<T>, step: QueueStep<T>): QueueState<T> {
    match step
    case Push(p, item) =>
      if s.capacity > 0 && |s.items| >= s.capacity then s.(asleep := s.asleep + {p})
      else s.(items := s.items + [item], arrived := s.arrived + [item])
    case Pop =>
      if Front(s.running, s.items).None? then s
      else s.(items := Rest(s.running, s.items), served := s.served + [s.items[0]], asleep := {})
    case Wake(p) => s.(asleep := s.asleep - {p})
    case SetRunning(value) => s.(running := value)
  }

  /** A step is what the object's own method does; Wake concerns a thread, not the object. */
  method OnObject<T>(q: KDeque<T>, step: QueueStep<T>, ghost rest: QueueState<T>) returns (sleeps: bool, got: Option<T>)
    requires Possible(q.InState(rest), step)
    modifies q
    ensures q.InState(Next(old(q.InState(rest)), step)) == Next(old(q.InState(rest)), step)
    ensures var t := Next(old(q.InState(rest)), step);
            && (step.Push? ==> t.asleep == rest.asleep + if sleeps then {step.producer} else {})
            && (step.Push? ==> t.arrived == rest.arrived + if sleeps then [] else [step.item])
            && (step.Pop? ==> t.served == rest.served + if got.Some? then [got.value] else [])
            && (step.Pop? ==> t.asleep == if got.Some? then {} else rest.asleep)
  {
    sleeps, got := false, None;
    match step
    case Push(_, item) => sleeps := q.PushBack(item);
    case Pop => got := q.PopFront();
    case Wake(_) =>
    case SetRunning(value) =>
      if value {
        q.SetStart();
      } else {
        q.SetStop();
      }
  }

  predicate PossibleRun<T(==)>(s: QueueState<T>, steps: seq<QueueStep<T>>)
    decreases |steps|
  {
    steps == [] || (Possible(s, steps[0]) && PossibleRun(Next(s, steps[0]), steps[1..]))
  }

  function After<T>(s: QueueState<T>, steps: seq<QueueStep<T>>): QueueState<T>
    decreases |steps|
  {
    if steps == [] then s else After(Next(s, steps[0]), steps[1..])
  }

  ghost predicate BoundedInv<T>(s: QueueState<T>) {
    && |s.items| <= s.capacity
    && s.arrived == s.served + s.items
    && (s.asleep != {} ==> |s.items| == s.capacity)
  }

  /** Over every interleaving: the size never passes the capacity, items leave in the order
      they arrived, and a producer sleeps only while the queue is full, so a wake-up is never
      lost. */
  lemma {:induction false} BoundedQueue<T>(s: QueueState<T>, steps: seq<QueueStep<T>>)
    requires s.capacity > 0 && BoundedInv(s)
    requires PossibleRun(s, steps)
    ensures BoundedInv(After(s, steps))
    ensures After(s, steps).served <= After(s, steps).arrived
    decreases |steps|
  {
    if steps != [] {
      var t := Next(s, steps[0]);
      assert BoundedInv(t) by {
        if steps[0].Push? {
          assert t.items == s.items ==> t.arrived == s.arrived;
          assert s.arrived + [steps[0].item] == s.served + (s.items + [steps[0].item]);
        } else if steps[0].Pop? && Front(s.running, s.items).Some? {
          assert s.served + s.items == (s.served + [s.items[0]]) + s.items[1..];
        }
      }
      BoundedQueue(t, steps[1..]);
    }
  }

  /** The items pushed along a run. */
  function Pushed<T>(steps: seq<QueueStep<T>>): seq<T> {
    if steps == [] then []
    else (if steps[0].Push? then [steps[0].item] else []) + Pushed(steps[1..])
  }

  /** The queue of the pool has no capacity: over every interleaving nobody ever sleeps, every item
      pushed goes in, in order, and items leave in that order. */
  lemma {:induction false} UnboundedQueue<T>(s: QueueState<T>, steps: seq<QueueStep<T>>)
    requires s.capacity <= 0 && s.asleep == {} && s.arrived == s.served + s.items
    requires PossibleRun(s, steps)
    ensures var t := After(s, steps);
            && t.capacity == s.capacity && t.asleep == {}
            && t.arrived == s.arrived + Pushed(steps)
            && t.arrived == t.served + t.items
    decreases |steps|
  {
    hide Next, Possible;
    if steps == [] {
      assert s.arrived + [] == s.arrived;
    } else {
      NobodySleeps(s, steps[0]);
      var t, first := Next(s, steps[0]), if steps[0].Push? then [steps[0].item] else [];
      UnboundedQueue(t, steps[1..]);
      Regroup(s.arrived, first, Pushed(steps[1..]));
    }
  }

  lemma Regroup<T>(a: seq<T>, b: seq<T>, c: seq<T>)
    ensures (a + b) + c == a + (b + c)
  {
  }

  lemma NobodySleeps<T>(s: QueueState<T>, step: QueueStep<T>)
    requires s.capacity <= 0 && s.asleep == {} && s.arrived == s.served + s.items && Possible(s, step)
    ensures var t := Next(s, step);
            && t.capacity == s.capacity && t.asleep == {}
            && t.arrived == s.arrived + (if step.Push? then [step.item] else [])
            && t.arrived == t.served + t.items
  {
    match step
    case Push(_, item) => assert s.arrived + [item] == s.served + (s.items + [item]);
    case Pop =>
    case _ =>
  }

  function Repeated<T>(step: QueueStep<T>, n: nat): seq<QueueStep<T>> {
    if n == 0 then [] else [step] + Repeated(step, n - 1)
  }

  /** A running queue hands out all it holds: after as many pops everything that arrived has been
      served, and nobody sleeps if there was anything to pop. */
  lemma {:induction false} AllServed<T>(s: QueueState<T>)
    requires s.running && s.arrived == s.served + s.items
    ensures var t := After(s, Repeated(Pop, |s.items|));
            && t.items == [] && t.served == t.arrived == s.arrived
            && (s.items != [] ==> t.asleep == {})
    decreases |s.items|
  {
    if s.items == [] {
      assert s.served + [] == s.served;
    } else {
      assert Repeated<T>(Pop, |s.items|)[1..] == Repeated(Pop, |s.items| - 1);
      AllServed(Next(s, Pop));
    }
  }

  /** A producer that has gone to sleep on a full queue gets its item in once one item has been
      popped, or once it wakes up after that. */
  lemma SleeperGetsIn<T>(s: QueueState<T>, producer: ThreadId, item: T)
    requires s.capacity > 0 && s.running && |s.items| == s.capacity && producer !in s.asleep
    ensures var steps := [Push(producer, item), Pop, Push(producer, item)];
            && PossibleRun(s, steps)
            && After(s, steps).items == s.items[1..] + [item]
            && After(s, steps).served == s.served + [s.items[0]]
            && producer !in After(s, steps).asleep
    ensures PossibleRun(s, [Push(producer, item), Wake(producer), Push(producer, item)])
    ensures After(s, [Push(producer, item), Wake(producer), Push(producer, item)]).items == s.items
  {
    var push: QueueStep<T> := Push(producer, item);
    assert s.asleep + {producer} - {producer} == s.asleep;
    ThreeSteps(s, push, Pop, push);
    ThreeSteps(s, push, Wake(producer), push);
  }

  lemma ThreeSteps<T>(s: QueueState<T>, a: QueueStep<T>, b: QueueStep<T>, c: QueueStep<T>)
    requires Possible(s, a) && Possible(Next(s, a), b) && Possible(Next(Next(s, a), b), c)
    ensures PossibleRun(s, [a, b, c]) && After(s, [a, b, c]) == Next(Next(Next(s, a), b), c)
  {
    hide Next, Possible;
    var t := Next(Next(s, a), b);
    assert [a, b, c][1..] == [b, c] && [b, c][1..] == [c] && [c][1..] == [];
    assert PossibleRun(t, [c]) && After(t, [c]) == Next(t, c);
    assert PossibleRun(Next(s, a), [b, c]) && After(Next(s, a), [b, c]) == Next(t, c);
  }
}
