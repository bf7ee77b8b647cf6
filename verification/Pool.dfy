// The worker pool of http_multi_download/src/ThreadPool.cpp as interleaved steps.
//
// A thread's program counter names the next thing it does.  Whatever the source does under one
// lock (m_mutex around the running flag, the queue's own mutex around empty and pop_front) is
// one step; between two steps of a thread any other thread may move.
module Pool {
  import opened Bytes
  import opened TaskQueue

  type TaskId = nat

  datatype Pc =
    | CheckFlag                             // ThreadFunc: about to read m_bRunning
    | TakeNext                              // about to call Take
    | Running(task: TaskId)                 // inside pTask->Run()
    | Deleting(task: TaskId, failed: bool)  // about to delete the task it ran
    | StopFlag                              // Stop: about to read and clear m_bRunning
    | DrainTest                             // Stop: about to test m_deque.empty()
    | DrainPop                              // Stop: about to pop
    | DrainDelete(popped: Option<TaskId>)   // Stop: about to delete what it popped, or NULL
    | SetStop                               // Stop: about to stop the queue
    | Left                                  // the thread function has ended

  /** A worker runs ThreadFunc; any other thread is a caller of Stop. */
  datatype Thread = Thread(worker: bool, pc: Pc)

  /** The pool, with the histories of tasks pushed, started, deleted after their run and deleted
      by a drain loop. */
  datatype State = State(
    running: bool,
    qRunning: bool,
    queue: seq<TaskId>,
    threads: seq<Thread>,
    pushed: seq<TaskId>,
    started: seq<TaskId>,
    finished: seq<TaskId>,
    drained: seq<TaskId>)

  datatype Label =
    | Step(i: nat)                   // thread i does the next thing its counter names
    | Finish(i: nat, failed: bool)   // the run of thread i's task ends
    | Add(task: TaskId)              // AddTask with a new task object

  predicate Enabled(s: State, l: Label) {
    match l
    case Step(i) => i < |s.threads| && !s.threads[i].pc.Running? && !s.threads[i].pc.Left?
    case Finish(i, _) => i < |s.threads| && s.threads[i].pc.Running?
    case Add(t) => t !in s.pushed
  }

  function Goto(s: State, i: nat, pc: Pc): (r: State)
    requires i < |s.threads|
  {
    s.(threads := s.threads[i := s.threads[i].(pc := pc)])
  }

  /** Where a thread goes on after Stop: a worker back into its loop, any other caller away. */
  function AfterStop(th: Thread): Pc {
    if th.worker then CheckFlag else Left
  }

  function Apply(s: State, l: Label): State
    requires Enabled(s, l)
  {
    match l
    case Add(t) => s.(queue := s.queue + [t], pushed := s.pushed + [t])
    case Finish(i, failed) => Goto(s, i, Deleting(s.threads[i].pc.task, failed))
    case Step(i) =>
      match s.threads[i].pc
      case CheckFlag => Goto(s, i, if s.running then TakeNext else Left)
      case TakeNext =>
        (match Front(s.qRunning, s.queue)
         case None => Goto(s, i, Left)
         case Some(t) =>
           Goto(s, i, Running(t)).(queue := Rest(s.qRunning, s.queue), started := s.started + [t]))
      case Deleting(t, failed) =>
        Goto(s, i, if failed then StopFlag else CheckFlag).(finished := s.finished + [t])
      case StopFlag =>
        Goto(s, i, if s.running then DrainTest else AfterStop(s.threads[i])).(running := false)
      case DrainTest => Goto(s, i, if s.queue == [] then SetStop else DrainPop)
      case DrainPop =>
        Goto(s, i, DrainDelete(Front(s.qRunning, s.queue))).(queue := Rest(s.qRunning, s.queue))
      case DrainDelete(popped) =>
        Goto(s, i, DrainTest).(drained := s.drained + if popped.Some? then [popped.value] else [])
      case SetStop => Goto(s, i, AfterStop(s.threads[i])).(qRunning := false)
      case _ => s
  }

  predicate Legal(s: State, ls: seq<Label>)
    decreases |ls|
  {
    ls == [] || (Enabled(s, ls[0]) && Legal(Apply(s, ls[0]), ls[1..]))
  }

  function Exec(s: State, ls: seq<Label>): State
    requires Legal(s, ls)
    decreases |ls|
  {
    if ls == [] then s else Exec(Apply(s, ls[0]), ls[1..])
  }

  ghost predicate NoDuplicates(ids: seq<TaskId>) {
    forall t :: Times(ids, t) <= 1
  }

  /** Started pool: the flags are up, distinct tasks are queued, workers stand at the top of
      their loop and outside callers of Stop, if any, before it. */
  ghost predicate Initial(s: State) {
    && s.running && s.qRunning
    && NoDuplicates(s.pushed) && s.queue == s.pushed
    && s.started == [] && s.finished == [] && s.drained == []
    && forall i :: 0 <= i < |s.threads| ==>
         s.threads[i].pc == if s.threads[i].worker then CheckFlag else StopFlag
  }

  // ---- Conservation ----

  /** Whether a thread holds task t: as a worker, or with drain inside the drain loop. */
  function Holds(th: Thread, drain: bool, t: TaskId): nat {
    match th.pc
    case Running(u) => if !drain && u == t then 1 else 0
    case Deleting(u, _) => if !drain && u == t then 1 else 0
    case DrainDelete(Some(u)) => if drain && u == t then 1 else 0
    case _ => 0
  }

  function Held(ths: seq<Thread>, drain: bool, t: TaskId): nat {
    if ths == [] then 0 else Holds(ths[0], drain, t) + Held(ths[1..], drain, t)
  }

  lemma {:induction false} HeldAfter(ths: seq<Thread>, i: nat, th: Thread, drain: bool, t: TaskId)
    requires i < |ths|
    ensures Held(ths[i := th], drain, t) + Holds(ths[i], drain, t) == Held(ths, drain, t) + Holds(th, drain, t)
    decreases |ths|
  {
    if i == 0 {
      assert ths[0 := th][1..] == ths[1..];
    } else {
      assert ths[i := th][1..] == ths[1..][i - 1 := th];
      HeldAfter(ths[1..], i - 1, th, drain, t);
    }
  }

  lemma {:induction false} HeldNone(ths: seq<Thread>, drain: bool, t: TaskId)
    requires forall i :: 0 <= i < |ths| ==> Holds(ths[i], drain, t) == 0
    ensures Held(ths, drain, t) == 0
  {
    if ths != [] {
      HeldNone(ths[1..], drain, t);
    }
  }

  /** How often t occurs in ids. */
  function Times(ids: seq<TaskId>, t: TaskId): nat {
    if ids == [] then 0 else (if ids[0] == t then 1 else 0) + Times(ids[1..], t)
  }

  /** Task by task: pushed = queued + held by a worker + held by a drain loop + deleted, with no
      task pushed twice; and what was started is what workers hold or have deleted. */
  ghost predicate Balanced(s: State, t: TaskId) {
    && Times(s.pushed, t) <= 1
    && Times(s.pushed, t) == Times(s.queue, t) + Held(s.threads, false, t) + Held(s.threads, true, t)
                             + Times(s.finished, t) + Times(s.drained, t)
    && Times(s.started, t) == Held(s.threads, false, t) + Times(s.finished, t)
  }

  ghost predicate Conserved(s: State) {
    forall t :: Balanced(s, t)
  }

  lemma PopSplits(running: bool, q: seq<TaskId>, t: TaskId)
    ensures Times(q, t) == Times(Rest(running, q), t) + if Front(running, q) == Some(t) then 1 else 0
  {
  }

  lemma {:induction false} AppendCounts(ids: seq<TaskId>, u: TaskId, t: TaskId)
    ensures Times(ids + [u], t) == Times(ids, t) + if u == t then 1 else 0
  {
    if ids != [] {
      assert (ids + [u])[1..] == ids[1..] + [u];
      AppendCounts(ids[1..], u, t);
    }
  }

  lemma {:induction false} AbsentCounts(ids: seq<TaskId>, t: TaskId)
    ensures Times(ids, t) == 0 <==> t !in ids
  {
    if ids != [] {
      AbsentCounts(ids[1..], t);
    }
  }

  lemma ThreadMoves(s: State, e: State, i: nat, t: TaskId)
    requires i < |s.threads| && |e.threads| == |s.threads| && e.threads == s.threads[i := e.threads[i]]
    ensures Held(e.threads, false, t) + Holds(s.threads[i], false, t)
         == Held(s.threads, false, t) + Holds(e.threads[i], false, t)
    ensures Held(e.threads, true, t) + Holds(s.threads[i], true, t)
         == Held(s.threads, true, t) + Holds(e.threads[i], true, t)
  {
    HeldAfter(s.threads, i, e.threads[i], false, t);
    HeldAfter(s.threads, i, e.threads[i], true, t);
  }

  lemma PoppingBalances(s: State, i: nat, t: TaskId)
    requires Balanced(s, t) && Enabled(s, Step(i))
    requires s.threads[i].pc.TakeNext? || s.threads[i].pc.DrainPop?
    ensures Balanced(Apply(s, Step(i)), t)
  {
    hide Held;
    hide Times;
    var e := Apply(s, Step(i));
    assert e.threads == s.threads[i := e.threads[i]];
    ThreadMoves(s, e, i, t);
    PopSplits(s.qRunning, s.queue, t);
    var popped := Front(s.qRunning, s.queue);
    if s.threads[i].pc.TakeNext? && popped.Some? {
      AppendCounts(s.started, popped.value, t);
    }
  }

  lemma DeletingBalances(s: State, i: nat, t: TaskId)
    requires Balanced(s, t) && Enabled(s, Step(i))
    requires s.threads[i].pc.Deleting? || s.threads[i].pc.DrainDelete?
    ensures Balanced(Apply(s, Step(i)), t)
  {
    hide Held;
    hide Times;
    var e := Apply(s, Step(i));
    ThreadMoves(s, e, i, t);
    match s.threads[i].pc
    case Deleting(u, _) => AppendCounts(s.finished, u, t);
    case DrainDelete(Some(u)) => AppendCounts(s.drained, u, t);
    case DrainDelete(None) => assert s.drained + [] == s.drained;
  }

  lemma AddBalances(s: State, u: TaskId, t: TaskId)
    requires Balanced(s, t) && Enabled(s, Add(u))
    ensures Balanced(Apply(s, Add(u)), t)
  {
    AbsentCounts(s.pushed, u);
    AppendCounts(s.queue, u, t);
    AppendCounts(s.pushed, u, t);
  }

  lemma SameBags(s: State, e: State, i: nat, t: TaskId)
    requires Balanced(s, t)
    requires i < |s.threads| && |e.threads| == |s.threads| && e.threads == s.threads[i := e.threads[i]]
    requires forall drain :: Holds(e.threads[i], drain, t) == Holds(s.threads[i], drain, t)
    requires e.pushed == s.pushed && e.queue == s.queue && e.started == s.started
    requires e.finished == s.finished && e.drained == s.drained
    ensures Balanced(e, t)
  {
    ThreadMoves(s, e, i, t);
  }

  lemma FinishBalances(s: State, i: nat, failed: bool, t: TaskId)
    requires Balanced(s, t) && Enabled(s, Finish(i, failed))
    ensures Balanced(Apply(s, Finish(i, failed)), t)
  {
    SameBags(s, Apply(s, Finish(i, failed)), i, t);
  }

  lemma MovingBalances(s: State, i: nat, t: TaskId)
    requires Balanced(s, t) && Enabled(s, Step(i))
    requires var pc := s.threads[i].pc; !pc.TakeNext? && !pc.DrainPop? && !pc.Deleting? && !pc.DrainDelete?
    ensures Balanced(Apply(s, Step(i)), t)
  {
    hide Held;
    hide Times;
    var e := Apply(s, Step(i));
    assert e.threads == s.threads[i := e.threads[i]];
    match s.threads[i].pc
    case CheckFlag => SameBags(s, e, i, t);
    case StopFlag => SameBags(s, e, i, t);
    case DrainTest => SameBags(s, e, i, t);
    case SetStop => SameBags(s, e, i, t);
  }

  lemma StepBalances(s: State, l: Label, t: TaskId)
    requires Balanced(s, t) && Enabled(s, l)
    ensures Balanced(Apply(s, l), t)
  {
    match l
    case Add(u) => AddBalances(s, u, t);
    case Finish(i, failed) => FinishBalances(s, i, failed, t);
    case Step(i) =>
      var pc := s.threads[i].pc;
      if pc.TakeNext? || pc.DrainPop? {
        PoppingBalances(s, i, t);
      } else if pc.Deleting? || pc.DrainDelete? {
        DeletingBalances(s, i, t);
      } else {
        MovingBalances(s, i, t);
      }
  }

  /** Pool conservation over every interleaving of workers, callers of Stop and AddTask. */
  lemma {:induction false} Conservation(s: State, ls: seq<Label>)
    requires Conserved(s) && Legal(s, ls)
    ensures Conserved(Exec(s, ls))
    decreases |ls|
  {
    if ls != [] {
      forall t
        ensures Balanced(Apply(s, ls[0]), t)
      {
        assert Balanced(s, t);
        StepBalances(s, ls[0], t);
      }
      Conservation(Apply(s, ls[0]), ls[1..]);
    }
  }

  lemma InitialConserved(s: State)
    requires Initial(s)
    ensures Conserved(s)
  {
    forall t
      ensures Balanced(s, t)
    {
      HeldNone(s.threads, false, t);
      HeldNone(s.threads, true, t);
    }
  }

  /** From a started pool, every reachable state: no task is run twice, none is deleted twice,
      and none is deleted while it is queued or held. */
  lemma AtMostOnce(s: State, ls: seq<Label>, t: TaskId)
    requires Initial(s) && Legal(s, ls)
    ensures var e := Exec(s, ls);
            && Balanced(e, t)
            && Times(e.started, t) <= 1
            && Times(e.finished, t) + Times(e.drained, t) <= 1
            && (Times(e.finished, t) + Times(e.drained, t) == 1 ==>
                  Times(e.queue, t) == Held(e.threads, false, t) == Held(e.threads, true, t) == 0)
  {
    InitialConserved(s);
    Conservation(s, ls);
    assert Balanced(Exec(s, ls), t);
  }

  // ---- Completion ----

  /** No run fails and no task is added while the workers are at it. */
  predicate Smooth(ls: seq<Label>) {
    forall k :: 0 <= k < |ls| ==> ls[k].Step? || (ls[k].Finish? && !ls[k].failed)
  }

  ghost predicate Undisturbed(s: State) {
    && s.running && s.qRunning && s.drained == []
    && (forall i :: 0 <= i < |s.threads| ==>
          var th := s.threads[i];
          && th.worker
          && (th.pc.CheckFlag? || th.pc.TakeNext? || th.pc.Running? || th.pc.Left?
              || (th.pc.Deleting? && !th.pc.failed))
          && (th.pc.Left? ==> s.queue == []))
  }

  lemma {:induction false} StaysUndisturbed(s: State, ls: seq<Label>)
    requires Undisturbed(s) && Legal(s, ls) && Smooth(ls)
    ensures Undisturbed(Exec(s, ls)) && Exec(s, ls).pushed == s.pushed
    decreases |ls|
  {
    if ls != [] {
      var t := Apply(s, ls[0]);
      assert Undisturbed(t);
      StaysUndisturbed(t, ls[1..]);
    }
  }

  ghost predicate AllLeft(s: State) {
    forall i :: 0 <= i < |s.threads| ==> s.threads[i].pc == Left
  }

  /** With no failure, once all workers have left every task has been run exactly once. */
  lemma EveryTaskRunOnce(s: State, ls: seq<Label>, t: TaskId)
    requires Initial(s) && s.threads != []
    requires forall i :: 0 <= i < |s.threads| ==> s.threads[i].worker
    requires Legal(s, ls) && Smooth(ls) && AllLeft(Exec(s, ls))
    ensures var e := Exec(s, ls);
            && e.queue == [] && e.pushed == s.pushed
            && Times(e.started, t) == Times(e.finished, t) == Times(s.pushed, t)
  {
    var e := Exec(s, ls);
    StaysUndisturbed(s, ls);
    ThreadsStay(s, ls);
    assert e.threads[0].pc.Left?;
    AtMostOnce(s, ls, t);
    HeldNone(e.threads, false, t);
    HeldNone(e.threads, true, t);
  }

  lemma {:induction false} ThreadsStay(s: State, ls: seq<Label>)
    requires Legal(s, ls)
    ensures |Exec(s, ls).threads| == |s.threads|
    decreases |ls|
  {
    if ls != [] {
      ThreadsStay(Apply(s, ls[0]), ls[1..]);
    }
  }

  // ---- In the order they were added ----

  /** Parts of b, in the order of b. */
  predicate Within(a: seq<TaskId>, b: seq<TaskId>) {
    a == [] || (b != [] && ((a[0] == b[0] && Within(a[1..], b[1..])) || Within(a, b[1..])))
  }

  lemma {:induction false} WithinItself(a: seq<TaskId>)
    ensures Within(a, a)
  {
    if a != [] {
      WithinItself(a[1..]);
    }
  }

  lemma {:induction false} WithinAppend(a: seq<TaskId>, b: seq<TaskId>, t: TaskId)
    requires Within(a, b)
    ensures Within(a + [t], b + [t])
  {
    if b == [] {
      assert ([] + [t])[1..] == [];
      assert a + [t] == [t] && b + [t] == [t];
      WithinItself([t]);
    } else {
      assert (b + [t])[1..] == b[1..] + [t];
      if a != [] && a[0] == b[0] && Within(a[1..], b[1..]) {
        WithinAppend(a[1..], b[1..], t);
        assert (a + [t])[1..] == a[1..] + [t];
      } else {
        WithinAppend(a, b[1..], t);
      }
    }
  }

  lemma {:induction false} WithinDrop(x: seq<TaskId>, t: TaskId, y: seq<TaskId>, b: seq<TaskId>)
    requires Within(x + [t] + y, b)
    ensures Within(x + y, b)
    decreases |b|
  {
    var a := x + [t] + y;
    if a[0] == b[0] && Within(a[1..], b[1..]) {
      if x == [] {
        assert a[1..] == y && x + y == y;
      } else {
        assert a[1..] == x[1..] + [t] + y && (x + y)[1..] == x[1..] + y;
        WithinDrop(x[1..], t, y, b[1..]);
      }
    } else {
      WithinDrop(x, t, y, b[1..]);
    }
  }

  lemma StepKeepsOrder(s: State, l: Label)
    requires Within(s.started + s.queue, s.pushed) && Enabled(s, l)
    ensures var e := Apply(s, l); Within(e.started + e.queue, e.pushed)
  {
    hide Within;
    var e := Apply(s, l);
    match l
    case Add(t) =>
      WithinAppend(s.started + s.queue, s.pushed, t);
      assert s.started + (s.queue + [t]) == s.started + s.queue + [t];
    case Finish(_, _) =>
    case Step(i) =>
      var rest := Rest(s.qRunning, s.queue);
      if s.queue != [] && s.qRunning {
        assert s.started + s.queue == s.started + [s.queue[0]] + rest;
        if s.threads[i].pc.DrainPop? {
          WithinDrop(s.started, s.queue[0], rest, s.pushed);
        }
      }
  }

  /** Over every run, also with failures, Stop and added tasks: the tasks started and then those
      still queued are in the order in which they were added. */
  lemma {:induction false} StartedInOrder(s: State, ls: seq<Label>)
    requires Within(s.started + s.queue, s.pushed) && Legal(s, ls)
    ensures var e := Exec(s, ls); Within(e.started + e.queue, e.pushed)
    decreases |ls|
  {
    hide Within, Apply, Enabled;
    if ls != [] {
      StepKeepsOrder(s, ls[0]);
      StartedInOrder(Apply(s, ls[0]), ls[1..]);
    }
  }

  lemma InitialInOrder(s: State)
    requires Initial(s)
    ensures Within(s.started + s.queue, s.pushed)
  {
    assert s.started + s.queue == s.pushed;
    WithinItself(s.pushed);
  }

  /** And as long as nothing fails no task is passed over: those started and those queued are the
      tasks pushed, first pushed first started. */
  lemma {:induction false} FirstInFirstStarted(s: State, ls: seq<Label>)
    requires Undisturbed(s) && s.started + s.queue == s.pushed && Legal(s, ls) && Smooth(ls)
    ensures var e := Exec(s, ls); e.started + e.queue == s.pushed
    decreases |ls|
  {
    if ls != [] {
      var t := Apply(s, ls[0]);
      assert Undisturbed(t);
      assert t.started + t.queue == s.started + s.queue;
      FirstInFirstStarted(t, ls[1..]);
    }
  }

  // ---- Bounded stop ----

  /** How many tasks thread i starts along a run. */
  function Starts(s: State, ls: seq<Label>, i: nat): nat
    requires Legal(s, ls)
    decreases |ls|
  {
    if ls == [] then 0
    else
      var t := Apply(s, ls[0]);
      (if ls[0] == Step(i) && t.threads[i].pc.Running? then 1 else 0) + Starts(t, ls[1..], i)
  }

  /** Once the running flag is down, a worker starts at most one further task, and none unless it
      had read the flag before and not yet taken its task. */
  lemma {:induction false} AtMostOneMoreStart(s: State, ls: seq<Label>, i: nat)
    requires !s.running && Legal(s, ls) && i < |s.threads|
    ensures Starts(s, ls, i) <= if s.threads[i].pc == TakeNext then 1 else 0
    decreases |ls|
  {
    if ls != [] {
      AtMostOneMoreStart(Apply(s, ls[0]), ls[1..], i);
    }
  }

  predicate InDrain(pc: Pc) {
    pc.DrainTest? || pc.DrainPop? || pc.DrainDelete? || pc.SetStop?
  }

  /** At most one thread is in the drain loop; while it is there the flag is down and the queue
      still hands out tasks. */
  ghost predicate OneDrainer(s: State) {
    && (forall i :: 0 <= i < |s.threads| && InDrain(s.threads[i].pc) ==> !s.running && s.qRunning)
    && (forall i, j :: 0 <= i < j < |s.threads| ==> !InDrain(s.threads[i].pc) || !InDrain(s.threads[j].pc))
    && (s.running ==> s.qRunning)
  }

  lemma OneMoves(s: State, l: Label)
    requires Enabled(s, l) && !l.Add?
    ensures var e := Apply(s, l); e.threads == s.threads[l.i := e.threads[l.i]]
  {
  }

  /** Only a thread that clears the running flag enters the drain loop, and only one in it stops the
      queue. */
  lemma EntersDrain(s: State, l: Label)
    requires Enabled(s, l) && !l.Add?
    ensures var e := Apply(s, l); var before, now := s.threads[l.i].pc, e.threads[l.i].pc;
            && (InDrain(now) && !InDrain(before) ==> s.running && !e.running)
            && (InDrain(now) ==> e.qRunning == s.qRunning) && (e.running ==> s.running)
            && (!InDrain(before) ==> e.qRunning == s.qRunning)
            && (InDrain(before) ==> e.running == s.running)
  {
  }

  lemma StepKeepsOneDrainer(s: State, l: Label)
    requires OneDrainer(s) && Enabled(s, l)
    ensures OneDrainer(Apply(s, l))
  {
    if l.Add? {
      assert Apply(s, l).threads == s.threads;
    } else {
      OneMoves(s, l);
      EntersDrain(s, l);
      hide Apply, Enabled, InDrain;
    }
  }

  lemma InitialOneDrainer(s: State)
    requires Initial(s)
    ensures OneDrainer(s)
  {
  }

  /** In every reachable state at most one thread drains, with the running flag down. */
  lemma {:induction false} RunKeepsOneDrainer(s: State, ls: seq<Label>)
    requires OneDrainer(s) && Legal(s, ls)
    ensures OneDrainer(Exec(s, ls))
    decreases |ls|
  {
    hide OneDrainer, Apply, Enabled;
    if ls != [] {
      StepKeepsOneDrainer(s, ls[0]);
      RunKeepsOneDrainer(Apply(s, ls[0]), ls[1..]);
    }
  }

  /** An upper bound on the steps the drain loop still takes. */
  function DrainWork(pc: Pc, queued: nat): nat {
    match pc
    case DrainTest => 3 * queued + 2
    case DrainPop => if queued == 0 then 4 else 3 * queued + 1
    case DrainDelete(_) => 3 * queued + 3
    case SetStop => 1
    case _ => 0
  }

  predicate NothingAdded(ls: seq<Label>) {
    forall k :: 0 <= k < |ls| ==> !ls[k].Add?
  }

  /** How many steps thread d makes inside the drain loop along a run. */
  function DrainSteps(s: State, ls: seq<Label>, d: nat): nat
    requires Legal(s, ls)
    decreases |ls|
  {
    if ls == [] then 0
    else
      (if ls[0] == Step(d) && InDrain(s.threads[d].pc) then 1 else 0)
      + DrainSteps(Apply(s, ls[0]), ls[1..], d)
  }

  /** One step of any thread while thread d drains. */
  lemma DrainShrinks(s: State, l: Label, d: nat)
    requires OneDrainer(s) && Enabled(s, l) && !l.Add?
    requires d < |s.threads| && InDrain(s.threads[d].pc)
    requires s.threads[d].pc.SetStop? ==> s.queue == []
    ensures var t := Apply(s, l);
            && |t.threads| == |s.threads|
            && (if l == Step(d) then 1 else 0) + DrainWork(t.threads[d].pc, |t.queue|)
               <= DrainWork(s.threads[d].pc, |s.queue|)
            && (t.threads[d].pc.SetStop? || !InDrain(t.threads[d].pc) ==> t.queue == [])
            && (!InDrain(t.threads[d].pc) ==> !t.running && !t.qRunning)
  {
  }

  /** If nothing is added, the drain loop ends within DrainWork of its steps, whatever the others
      do meanwhile, and then the queue is empty. */
  lemma {:induction false} DrainEnds(s: State, ls: seq<Label>, d: nat)
    requires OneDrainer(s) && Legal(s, ls) && NothingAdded(ls)
    requires d < |s.threads| && InDrain(s.threads[d].pc)
    requires s.threads[d].pc.SetStop? ==> s.queue == []
    ensures var e := Exec(s, ls);
            && |e.threads| == |s.threads|
            && DrainSteps(s, ls, d) <= DrainWork(s.threads[d].pc, |s.queue|)
            && (!InDrain(e.threads[d].pc) ==> e.queue == [])
    decreases |ls|
  {
    hide OneDrainer, Apply, Enabled;
    if ls != [] {
      var t := Apply(s, ls[0]);
      StepKeepsOneDrainer(s, ls[0]);
      DrainShrinks(s, ls[0], d);
      assert NothingAdded(ls[1..]);
      if InDrain(t.threads[d].pc) {
        DrainEnds(t, ls[1..], d);
      } else {
        StoppedForGood(t, ls[1..], d);
      }
    }
  }

  /** After a drain with nothing added the queue stays empty and nobody drains again. */
  lemma {:induction false} StoppedForGood(s: State, ls: seq<Label>, d: nat)
    requires OneDrainer(s) && Legal(s, ls) && NothingAdded(ls)
    requires !s.running && !s.qRunning && s.queue == [] && d < |s.threads|
    ensures Exec(s, ls).queue == [] && |Exec(s, ls).threads| == |s.threads|
    ensures DrainSteps(s, ls, d) == 0
    decreases |ls|
  {
    if ls != [] {
      StepKeepsOneDrainer(s, ls[0]);
      assert NothingAdded(ls[1..]);
      StoppedForGood(Apply(s, ls[0]), ls[1..], d);
    }
  }

  /** Bounded stop.  From a started pool, whatever has happened: once a thread has come to the
      drain loop and nothing is added any more, every thread starts at most one further task, the
      loop takes at most 3 * queued + 2 steps of its own, and when it has been left the queue is
      empty. */
  lemma BoundedStop(s: State, before: seq<Label>, ls: seq<Label>, d: nat, i: nat)
    requires Initial(s) && Legal(s, before)
    requires var u := Exec(s, before);
             Legal(u, ls) && NothingAdded(ls)
             && d < |u.threads| && u.threads[d].pc.DrainTest? && i < |u.threads|
    ensures var u := Exec(s, before); var e := Exec(u, ls);
            && |e.threads| == |u.threads|
            && Starts(u, ls, i) <= 1
            && DrainSteps(u, ls, d) <= 3 * |u.queue| + 2
            && (!InDrain(e.threads[d].pc) ==> e.queue == [])
  {
    var u := Exec(s, before);
    InitialOneDrainer(s);
    RunKeepsOneDrainer(s, before);
    assert InDrain(u.threads[d].pc) && !u.running;
    hide OneDrainer, Initial;
    DrainEnds(u, ls, d);
    AtMostOneMoreStart(u, ls, i);
  }

  lemma StoppedStep(s: State, l: Label, t: TaskId)
    requires !s.running && !s.qRunning && t in s.queue && Enabled(s, l)
    ensures var e := Apply(s, l); !e.running && !e.qRunning && t in e.queue
  {
    if l.Add? {
      assert t in s.queue + [l.task];
    }
  }

  /** AddTask does not ask whether the pool runs: a task added after the queue has been stopped is
      queued, and stays there over every run. */
  lemma {:induction false} LateTaskStays(s: State, t: TaskId, ls: seq<Label>)
    requires !s.running && !s.qRunning && t !in s.pushed
    ensures Enabled(s, Add(t)) && t in Apply(s, Add(t)).queue
    ensures Legal(Apply(s, Add(t)), ls) ==> t in Exec(Apply(s, Add(t)), ls).queue
  {
    var e := Apply(s, Add(t));
    assert e.queue[|e.queue| - 1] == t;
    if Legal(e, ls) {
      QueuedStays(e, t, ls);
    }
  }

  lemma {:induction false} QueuedStays(s: State, t: TaskId, ls: seq<Label>)
    requires !s.running && !s.qRunning && t in s.queue && Legal(s, ls)
    ensures t in Exec(s, ls).queue
    decreases |ls|
  {
    hide Apply, Enabled;
    if ls != [] {
      StoppedStep(s, ls[0], t);
      QueuedStays(Apply(s, ls[0]), t, ls[1..]);
    }
  }

  // ---- A failed task ----

  /** From the end of a failed run on: thread i is on its way to Stop or inside it, or the flag is
      down and it is back in its loop or gone. */
  predicate Failing(s: State, i: nat) {
    i < |s.threads| &&
    match s.threads[i].pc
    case Deleting(_, failed) => failed
    case StopFlag => true
    case CheckFlag => !s.running
    case Left => !s.running
    case TakeNext => false
    case Running(_) => false
    case _ => !s.running
  }

  lemma OthersMove(s: State, l: Label, i: nat)
    requires Enabled(s, l) && i < |s.threads| && (l.Add? || l.i != i)
    ensures var e := Apply(s, l);
            |e.threads| == |s.threads| && e.threads[i] == s.threads[i] && (!s.running ==> !e.running)
  {
  }

  lemma FailingMoves(s: State, i: nat)
    requires Failing(s, i) && Enabled(s, Step(i))
    ensures Failing(Apply(s, Step(i)), i) && |Apply(s, Step(i)).threads| == |s.threads|
  {
  }

  lemma FailingStep(s: State, l: Label, i: nat)
    requires Failing(s, i) && Enabled(s, l)
    ensures Failing(Apply(s, l), i) && |Apply(s, l).threads| == |s.threads|
  {
    if l.Add? || l.i != i {
      OthersMove(s, l, i);
      hide Apply, Enabled;
    } else {
      assert l == Step(i);
      hide Failing;
      FailingMoves(s, i);
    }
  }

  /** One failed segment ends the download: the worker whose run failed starts no other task, and
      once it is past clearing the running flag, the flag stays down. */
  lemma {:induction false} FailureStops(s: State, ls: seq<Label>, i: nat)
    requires Failing(s, i) && Legal(s, ls)
    ensures Starts(s, ls, i) == 0
    ensures var e := Exec(s, ls);
            |e.threads| == |s.threads|
            && (e.threads[i].pc.Deleting? || e.threads[i].pc.StopFlag? || !e.running)
    decreases |ls|
  {
    hide Apply, Enabled;
    if ls != [] {
      FailingStep(s, ls[0], i);
      FailureStops(Apply(s, ls[0]), ls[1..], i);
    }
  }

  /** That begins with the end of the failed run. */
  lemma FailedRunStops(s: State, ls: seq<Label>, i: nat)
    requires Enabled(s, Finish(i, true)) && Legal(Apply(s, Finish(i, true)), ls)
    ensures Starts(Apply(s, Finish(i, true)), ls, i) == 0
    ensures var e := Exec(Apply(s, Finish(i, true)), ls);
            |e.threads| == |s.threads|
            && (e.threads[i].pc.Deleting? || e.threads[i].pc.StopFlag? || !e.running)
  {
    var t := Apply(s, Finish(i, true));
    assert Failing(t, i) && |t.threads| == |s.threads|;
    hide Apply, Enabled, Starts, Exec, Legal, Failing;
    FailureStops(t, ls, i);
  }

  // ---- The pool object, with no other thread at work ----

  const MAX_THREAD_NUM: int := 1000

  function Min(a: int, b: int): int {
    if a < b then a else b
  }

  class ThreadPool {
    var m_bRunning: bool
    const m_deque: KDeque<TaskId>
    var m_nThreadNum: int
    // The tasks deleted by a drain loop, in order.
    var drained: seq<TaskId>

    constructor (defaultNum: int)
      ensures fresh(m_deque) && Valid() && !m_bRunning && m_nThreadNum == defaultNum
      ensures m_deque.m_deque == [] && m_deque.m_running && drained == []
    {
      m_bRunning, m_nThreadNum, drained := false, defaultNum, [];
      m_deque := new KDeque<TaskId>();
    }

    /** While the pool runs, so does its queue. */
    predicate Valid()
      reads this, m_deque
    {
      m_bRunning ==> m_deque.m_running
    }

    /** How many threads are created: no more than there are tasks, and no more than the maximum. */
    method Start() returns (threads: int)
      requires Valid()
      modifies this`m_bRunning, this`m_nThreadNum, m_deque`m_running
      ensures Valid() && m_bRunning
      ensures old(m_bRunning) ==> threads == 0 && m_nThreadNum == old(m_nThreadNum)
      ensures !old(m_bRunning) ==>
                threads == m_nThreadNum == Min(old(m_nThreadNum), Min(|m_deque.m_deque|, 1000))
    {
      threads := 0;
      var bRun := m_bRunning;
      if !m_bRunning {
        m_bRunning := true;
      }
      if !bRun {
        m_deque.SetStart();
        var taskNum := m_deque.Size();
        if m_nThreadNum > taskNum {
          m_nThreadNum := taskNum;
        }
        if m_nThreadNum > MAX_THREAD_NUM {
          m_nThreadNum := MAX_THREAD_NUM;
        }
        threads := m_nThreadNum;
      }
    }

    /** The loop that Stop and the destructor share; it ends because the queue hands out tasks. */
    method DrainAll()
      requires m_deque.m_running || m_deque.m_deque == []
      modifies this`drained, m_deque`m_deque
      ensures m_deque.m_deque == [] && drained == old(drained) + old(m_deque.m_deque)
    {
      var empty := m_deque.Empty();
      while !empty
        invariant empty <==> m_deque.m_deque == []
        invariant m_deque.m_running || m_deque.m_deque == []
        invariant drained + m_deque.m_deque == old(drained) + old(m_deque.m_deque)
        decreases |m_deque.m_deque|
      {
        ghost var before := m_deque.m_deque;
        var task := m_deque.PopFront();
        assert before == [task.value] + m_deque.m_deque;
        drained := drained + [task.value];
        empty := m_deque.Empty();
      }
    }

    /** Every queued task is deleted, in order, and the queue hands out nothing more; a pool that
        does not run is left alone. */
    method Stop()
      requires Valid()
      modifies this`m_bRunning, this`drained, m_deque
      ensures Valid() && !m_bRunning
      ensures old(m_bRunning) ==>
                m_deque.m_deque == [] && !m_deque.m_running && drained == old(drained) + old(m_deque.m_deque)
      ensures !old(m_bRunning) ==>
                m_deque.m_deque == old(m_deque.m_deque) && m_deque.m_running == old(m_deque.m_running)
                && drained == old(drained)
    {
      var bRun := m_bRunning;
      if m_bRunning {
        m_bRunning := false;
      }
      if bRun {
        DrainAll();
        m_deque.SetStop();
      }
    }

    /** The destructor, for the pools on which its loop ends. */
    method Destroy()
      requires m_deque.m_running || m_deque.m_deque == []
      modifies this, m_deque
      ensures !m_bRunning && m_deque.m_deque == [] && !m_deque.m_running
      ensures drained == old(drained) + old(m_deque.m_deque)
    {
      m_bRunning := false;
      DrainAll();
      m_deque.SetStop();
    }
  }

  /** One round of the loop: a task is popped and deleted. */
  lemma DrainRound(s: State, i: nat)
    requires i < |s.threads| && s.threads[i].pc.DrainTest? && s.qRunning && s.queue != []
    ensures var s1 := Goto(s, i, DrainPop); var s2 := Goto(s, i, DrainDelete(Some(s.queue[0]))).(queue := s.queue[1..]);
            && Enabled(s, Step(i)) && Apply(s, Step(i)) == s1
            && Enabled(s1, Step(i)) && Apply(s1, Step(i)) == s2
            && Enabled(s2, Step(i))
            && Apply(s2, Step(i)) == s.(queue := s.queue[1..], drained := s.drained + [s.queue[0]])
  {
    var s1 := Goto(s, i, DrainPop);
    assert s1.threads[i := s1.threads[i].(pc := DrainDelete(Some(s.queue[0])))]
        == s.threads[i := s.threads[i].(pc := DrainDelete(Some(s.queue[0])))];
    var s2 := Goto(s, i, DrainDelete(Some(s.queue[0]))).(queue := s.queue[1..]);
    assert s2.threads[i := s2.threads[i].(pc := DrainTest)] == s.threads;
  }

  /** The end of the loop: the queue is stopped. */
  lemma DrainEnd(s: State, i: nat)
    requires i < |s.threads| && s.threads[i].pc.DrainTest? && s.queue == []
    ensures var s1 := Goto(s, i, SetStop);
            && Enabled(s, Step(i)) && Apply(s, Step(i)) == s1
            && Enabled(s1, Step(i))
            && Apply(s1, Step(i)) == Goto(s, i, AfterStop(s.threads[i])).(qRunning := false)
  {
    var s1, after := Goto(s, i, SetStop), AfterStop(s.threads[i]);
    assert s1.threads[i := s1.threads[i].(pc := after)] == s.threads[i := s.threads[i].(pc := after)];
  }

  /** What is left of a Stop in its loop, as steps of thread i alone. */
  lemma {:induction false} DrainIsRun(s: State, i: nat) returns (ls: seq<Label>)
    requires i < |s.threads| && s.threads[i].pc.DrainTest? && s.qRunning
    ensures Legal(s, ls)
    ensures Exec(s, ls) == Goto(s, i, AfterStop(s.threads[i])).(queue := [], qRunning := false, drained := s.drained + s.queue)
    decreases |s.queue|
  {
    hide Apply, Enabled, Legal, Exec;
    if s.queue == [] {
      DrainEnd(s, i);
      var s1 := Apply(s, Step(i));
      assert s.drained + s.queue == s.drained;
      NoSteps(Apply(s1, Step(i)));
      OneStep(s1, i, []);
      OneStep(s, i, [Step(i)] + []);
      ls := [Step(i)] + ([Step(i)] + []);
    } else {
      DrainRound(s, i);
      var s1 := Apply(s, Step(i));
      var s2 := Apply(s1, Step(i));
      var s3 := Apply(s2, Step(i));
      assert s.drained + s.queue == s3.drained + s3.queue;
      var later := DrainIsRun(s3, i);
      OneStep(s2, i, later);
      OneStep(s1, i, [Step(i)] + later);
      OneStep(s, i, [Step(i)] + ([Step(i)] + later));
      ls := [Step(i)] + ([Step(i)] + ([Step(i)] + later));
    }
  }

  lemma NoSteps(s: State)
    ensures Legal(s, []) && Exec(s, []) == s
  {
  }

  lemma OneStep(s: State, i: nat, later: seq<Label>)
    requires Enabled(s, Step(i)) && Legal(Apply(s, Step(i)), later)
    ensures Legal(s, [Step(i)] + later) && Exec(s, [Step(i)] + later) == Exec(Apply(s, Step(i)), later)
  {
    hide Apply, Enabled;
    assert ([Step(i)] + later)[1..] == later;
  }

  /** Stop by itself does in the step system what it does to the object: the flag is cleared, every
      queued task is deleted in order, and the queue is stopped. */
  lemma StopIsRun(s: State, i: nat) returns (ls: seq<Label>)
    requires i < |s.threads| && s.threads[i].pc.StopFlag? && s.running && s.qRunning
    ensures Legal(s, ls)
    ensures Exec(s, ls) == Goto(s, i, if s.threads[i].worker then CheckFlag else Left).(
                             running := false, qRunning := false, queue := [], drained := s.drained + s.queue)
  {
    var later := DrainIsRun(Apply(s, Step(i)), i);
    OneStep(s, i, later);
    ls := [Step(i)] + later;
  }
}
