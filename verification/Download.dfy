// The segmented download as a whole: the tasks of MakeTask in the pool's queue, any number of
// workers taking and running them, each run delivering its byte range in chunks of any sizes
// into the one local file (CurlHttpTask::Run and write_data inside ThreadPool::ThreadFunc).
//
// The server is taken to deliver exactly the requested range: a run that does not fail ends
// only when the whole range has arrived.
module Download {
  import opened Bytes
  import Pool
  import opened RangeWriter
  import Segments

  /** The pool, and the jobs and the file its tasks work on; task t of the pool is job t. */
  datatype State = State(pool: Pool.State, desk: Desk)

  datatype Label =
    | Scheduled(step: Pool.Label)   // a step of the pool
    | Chunk(i: nat, n: nat)         // thread i's run gets the next n bytes of its range

  function TaskOf(s: State, i: nat): (t: Pool.TaskId)
    requires i < |s.pool.threads| && s.pool.threads[i].pc.Running?
  {
    s.pool.threads[i].pc.task
  }

  predicate RunsTask(s: State, i: nat) {
    i < |s.pool.threads| && s.pool.threads[i].pc.Running? && s.pool.threads[i].pc.task < |s.desk.jobs|
  }

  predicate Enabled(s: State, l: Label) {
    match l
    case Scheduled(step) =>
      && !step.Add?
      && Pool.Enabled(s.pool, step)
      && (step.Finish? && !step.failed ==> RunsTask(s, step.i) && s.desk.jobs[TaskOf(s, step.i)].Complete())
    case Chunk(i, n) => RunsTask(s, i) && CanDeliver(s.desk, TaskOf(s, i), n)
  }

  function Apply(s: State, l: Label, source: seq<byte>): State
    requires Enabled(s, l)
  {
    match l
    case Scheduled(step) => s.(pool := Pool.Apply(s.pool, step))
    case Chunk(i, n) => s.(desk := Deliver(s.desk, TaskOf(s, i), n, source))
  }

  predicate Legal(s: State, ls: seq<Label>, source: seq<byte>)
    decreases |ls|
  {
    ls == [] || (Enabled(s, ls[0]) && Legal(Apply(s, ls[0], source), ls[1..], source))
  }

  function Exec(s: State, ls: seq<Label>, source: seq<byte>): State
    requires Legal(s, ls, source)
    decreases |ls|
  {
    if ls == [] then s else Exec(Apply(s, ls[0], source), ls[1..], source)
  }

  /** One job per task, nothing delivered yet, and an empty file. */
  ghost predicate Opens(d: Desk, ts: seq<Segments.Task>) {
    && |d.jobs| == |ts|
    && d.file == FileImage([], 0)
    && forall k :: 0 <= k < |ts| ==> JobFor(d.jobs[k], ts[k])
  }

  predicate JobFor(j: Job, t: Segments.Task) {
    && 0 <= t.start <= t.stop
    && j == Job(t.start, Cursor(t.start, t.stop, t.ranged), 0)
  }

  /** After MakeTask and Start: a job per pushed task, and every thread a worker at the top of
      its loop. */
  ghost predicate Initial(s: State, len: nat) {
    && len > 0
    && Opens(s.desk, Segments.TasksAsComputed(len))
    && Pool.Initial(s.pool)
    && s.pool.pushed == seq(|s.desk.jobs|, k => k)
    && s.pool.threads != []
    && forall i :: 0 <= i < |s.pool.threads| ==> s.pool.threads[i].worker
  }

  // ---- Safety: every reachable state, whatever fails or stops ----

  /** Each job keeps its own range. */
  ghost predicate SameRanges(d: Desk, e: Desk) {
    && |d.jobs| == |e.jobs|
    && forall k :: 0 <= k < |d.jobs| ==>
         d.jobs[k].start == e.jobs[k].start && d.jobs[k].cursor.stop == e.jobs[k].cursor.stop
  }

  lemma ApplyKeepsDesk(s: State, l: Label, source: seq<byte>)
    requires DeskInv(s.desk, source) && Enabled(s, l)
    ensures DeskInv(Apply(s, l, source).desk, source)
    ensures SameRanges(s.desk, Apply(s, l, source).desk)
  {
    if l.Chunk? {
      DeliverKeepsInv(s.desk, TaskOf(s, l.i), l.n, source);
    }
  }

  /** In every reachable state all delivered bytes are in the file at their own positions, also
      when runs fail and the pool is stopped half-way. */
  lemma {:induction false} DeliveredBytesStay(s: State, ls: seq<Label>, source: seq<byte>)
    requires DeskInv(s.desk, source) && Legal(s, ls, source)
    ensures DeskInv(Exec(s, ls, source).desk, source)
    ensures SameRanges(s.desk, Exec(s, ls, source).desk)
    decreases |ls|
  {
    if ls != [] {
      ApplyKeepsDesk(s, ls[0], source);
      DeliveredBytesStay(Apply(s, ls[0], source), ls[1..], source);
    }
  }

  lemma PartitionDesk(d: Desk, ts: seq<Segments.Task>, source: seq<byte>)
    requires Opens(d, ts) && Segments.Partition(ts, |source|)
    requires |ts| > 1 ==> forall k :: 0 <= k < |ts| ==> ts[k].ranged
    requires ts[0].start == 0
    ensures DeskInv(d, source)
    ensures forall p :: 0 <= p < |source| ==> InSomeRange(d.jobs, p)
  {
    forall j, k | 0 <= j < k < |ts|
      ensures d.jobs[j].cursor.stop < d.jobs[k].start
    {
      Segments.Ordered(ts, |source|, j, k);
      assert JobFor(d.jobs[j], ts[j]) && JobFor(d.jobs[k], ts[k]);
    }
    forall k | 0 <= k < |ts|
      ensures JobInv(d.jobs[k], d.file, source)
    {
      if k < |ts| - 1 {
        Segments.Ordered(ts, |source|, k, |ts| - 1);
      }
      assert JobFor(d.jobs[k], ts[k]);
    }
    forall p | 0 <= p < |source|
      ensures InSomeRange(d.jobs, p)
    {
      var k := Segments.CoveredUpTo(ts, |source|, p, |ts| - 1);
      assert JobFor(d.jobs[k], ts[k]) && d.jobs[k].Covers(p);
    }
  }

  lemma InitialDesk(s: State, source: seq<byte>)
    requires Initial(s, |source|) && |source| < 205 * Segments.RANGE_SIZE
    ensures DeskInv(s.desk, source)
    ensures forall p :: 0 <= p < |source| ==> InSomeRange(s.desk.jobs, p)
  {
    hide Opens;
    var len := |source|;
    if len > Segments.RANGE_SIZE {
      Segments.CutWithinLimit(len);
    }
    Segments.CutIsPartition(len);
    PartitionDesk(s.desk, Segments.TasksAsComputed(len), source);
  }

  // ---- The pool inside the download ----

  /** The steps of the pool in a run of the download. */
  function PoolSteps(ls: seq<Label>): seq<Pool.Label> {
    if ls == [] then []
    else (if ls[0].Scheduled? then [ls[0].step] else []) + PoolSteps(ls[1..])
  }

  /** Without its chunks a run of the download is a run of the pool. */
  lemma {:induction false} PoolRefinement(s: State, ls: seq<Label>, source: seq<byte>)
    requires Legal(s, ls, source)
    ensures Pool.Legal(s.pool, PoolSteps(ls))
    ensures Exec(s, ls, source).pool == Pool.Exec(s.pool, PoolSteps(ls))
    decreases |ls|
  {
    if ls != [] {
      var t := Apply(s, ls[0], source);
      PoolRefinement(t, ls[1..], source);
      if ls[0].Scheduled? {
        assert PoolSteps(ls)[0] == ls[0].step && PoolSteps(ls)[1..] == PoolSteps(ls[1..]);
      } else {
        assert PoolSteps(ls) == PoolSteps(ls[1..]);
      }
    }
  }

  /** No run of a task fails. */
  predicate NoFailure(ls: seq<Label>) {
    forall k :: 0 <= k < |ls| ==> !(ls[k].Scheduled? && ls[k].step.Finish? && ls[k].step.failed)
  }

  lemma {:induction false} NoFailureIsSmooth(s: State, ls: seq<Label>, source: seq<byte>)
    requires Legal(s, ls, source) && NoFailure(ls)
    ensures Pool.Smooth(PoolSteps(ls))
    decreases |ls|
  {
    if ls != [] {
      assert NoFailure(ls[1..]);
      NoFailureIsSmooth(Apply(s, ls[0], source), ls[1..], source);
    }
  }

  // ---- End to end ----

  predicate Fetched(d: Desk, t: Pool.TaskId) {
    t < |d.jobs| && d.jobs[t].Complete()
  }

  /** A task whose run is over has its whole range. */
  ghost predicate RunsDeliver(s: State) {
    && (forall i :: 0 <= i < |s.pool.threads| && s.pool.threads[i].pc.Deleting? ==>
          Fetched(s.desk, s.pool.threads[i].pc.task))
    && (forall t :: t in s.pool.finished ==> Fetched(s.desk, t))
  }

  lemma ChunkKeepsFetched(d: Desk, k: nat, n: nat, source: seq<byte>, t: Pool.TaskId)
    requires CanDeliver(d, k, n) && Fetched(d, t)
    ensures Fetched(Deliver(d, k, n, source), t)
  {
  }

  lemma ApplyKeepsRunsDeliver(s: State, l: Label, source: seq<byte>)
    requires RunsDeliver(s) && Enabled(s, l) && NoFailure([l])
    ensures RunsDeliver(Apply(s, l, source))
  {
    var e := Apply(s, l, source);
    match l
    case Chunk(i, n) =>
      forall t | Fetched(s.desk, t)
        ensures Fetched(e.desk, t)
      {
        ChunkKeepsFetched(s.desk, TaskOf(s, i), n, source, t);
      }
    case Scheduled(step) =>
      assert [l][0] == l;
      forall i | 0 <= i < |e.pool.threads| && e.pool.threads[i].pc.Deleting?
        ensures Fetched(e.desk, e.pool.threads[i].pc.task)
      {
        assert !(e.pool.threads[i] == s.pool.threads[i]) ==> step.Finish? && step.i == i;
      }
  }

  lemma {:induction false} RunsKeepDelivering(s: State, ls: seq<Label>, source: seq<byte>)
    requires RunsDeliver(s) && Legal(s, ls, source) && NoFailure(ls)
    ensures RunsDeliver(Exec(s, ls, source))
    decreases |ls|
  {
    if ls != [] {
      assert NoFailure([ls[0]]) && NoFailure(ls[1..]);
      ApplyKeepsRunsDeliver(s, ls[0], source);
      RunsKeepDelivering(Apply(s, ls[0], source), ls[1..], source);
    }
  }

  lemma {:induction false} CountsUp(n: nat, t: nat)
    requires t < n
    ensures t in seq(n, k => k)
  {
    assert seq(n, k => k)[t] == t;
  }

  /** The download delivers the file: for every source shorter than 205 ranges, any number of
      workers, any split of every range's body into chunks and any interleaving, if no run fails
      then once all workers have left, the local file equals the source byte for byte. */
  lemma LocalFileIsSource(s: State, ls: seq<Label>, source: seq<byte>)
    requires 0 < |source| < 2149580800
    requires Initial(s, |source|)
    requires Legal(s, ls, source) && NoFailure(ls)
    requires Pool.AllLeft(Exec(s, ls, source).pool)
    ensures Exec(s, ls, source).desk.file.data == source
  {
    var e := Exec(s, ls, source);
    InitialDesk(s, source);
    DeliveredBytesStay(s, ls, source);
    RunsKeepDelivering(s, ls, source);
    PoolRefinement(s, ls, source);
    NoFailureIsSmooth(s, ls, source);
    forall k | 0 <= k < |e.desk.jobs|
      ensures e.desk.jobs[k].Complete()
    {
      Pool.EveryTaskRunOnce(s.pool, PoolSteps(ls), k);
      CountsUp(|s.desk.jobs|, k);
      Pool.AbsentCounts(s.pool.pushed, k);
      Pool.AbsentCounts(e.pool.finished, k);
      assert Fetched(e.desk, k);
    }
    forall p | 0 <= p < |source|
      ensures InSomeRange(e.desk.jobs, p)
    {
      assert InSomeRange(s.desk.jobs, p);
      var k :| 0 <= k < |s.desk.jobs| && s.desk.jobs[k].Covers(p);
      assert e.desk.jobs[k].Covers(p);
    }
    CompleteFile(e.desk, source);
  }

  // ---- The download ends ----

  /** No run fails and no chunk is empty. */
  predicate Progressing(ls: seq<Label>) {
    NoFailure(ls) && forall k :: 0 <= k < |ls| ==> ls[k].Chunk? ==> ls[k].n > 0
  }

  function Rank(pc: Pool.Pc): nat {
    match pc
    case Running(_) => 4
    case Deleting(_, _) => 3
    case CheckFlag => 2
    case TakeNext => 1
    case _ => 0
  }

  function Ranks(ths: seq<Pool.Thread>): nat {
    if ths == [] then 0 else Rank(ths[0].pc) + Ranks(ths[1..])
  }

  function Missing(jobs: seq<Job>): int {
    if jobs == [] then 0 else jobs[0].Size() - jobs[0].got + Missing(jobs[1..])
  }

  lemma {:induction false} RanksAfter(ths: seq<Pool.Thread>, i: nat, th: Pool.Thread)
    requires i < |ths|
    ensures Ranks(ths[i := th]) + Rank(ths[i].pc) == Ranks(ths) + Rank(th.pc)
  {
    if i == 0 {
      assert ths[0 := th][1..] == ths[1..];
    } else {
      assert ths[i := th][1..] == ths[1..][i - 1 := th];
      RanksAfter(ths[1..], i - 1, th);
    }
  }

  lemma {:induction false} MissingAfter(jobs: seq<Job>, k: nat, j: Job, n: nat)
    requires k < |jobs| && j.Size() - j.got == jobs[k].Size() - jobs[k].got - n
    ensures Missing(jobs[k := j]) == Missing(jobs) - n
  {
    if k == 0 {
      assert jobs[0 := j][1..] == jobs[1..];
    } else {
      assert jobs[k := j][1..] == jobs[1..][k - 1 := j];
      MissingAfter(jobs[1..], k - 1, j, n);
    }
  }

  lemma {:induction false} MissingNonNegative(jobs: seq<Job>)
    requires forall k :: 0 <= k < |jobs| ==> jobs[k].got <= jobs[k].Size()
    ensures Missing(jobs) >= 0
  {
    if jobs != [] {
      MissingNonNegative(jobs[1..]);
    }
  }

  /** What is left to do: bytes to deliver, tasks to take and steps of the workers. */
  function Work(s: State): int {
    Missing(s.desk.jobs) + 6 * |s.pool.queue| + Ranks(s.pool.threads)
  }

  lemma WorkShrinks(s: State, l: Label, source: seq<byte>)
    requires Pool.Undisturbed(s.pool) && Enabled(s, l) && Progressing([l])
    ensures Work(Apply(s, l, source)) < Work(s)
  {
    hide Ranks;
    hide Missing;
    var e := Apply(s, l, source);
    assert [l][0] == l;
    match l
    case Chunk(i, n) =>
      var k := TaskOf(s, i);
      assert e.desk.jobs == s.desk.jobs[k := e.desk.jobs[k]];
      MissingAfter(s.desk.jobs, k, e.desk.jobs[k], n);
    case Scheduled(step) =>
      assert e.pool.threads == s.pool.threads[step.i := e.pool.threads[step.i]];
      RanksAfter(s.pool.threads, step.i, e.pool.threads[step.i]);
  }

  lemma {:induction false} WorkBounds(s: State, ls: seq<Label>, source: seq<byte>)
    requires Pool.Undisturbed(s.pool) && DeskInv(s.desk, source)
    requires Legal(s, ls, source) && Progressing(ls)
    ensures |ls| <= Work(s)
    decreases |ls|
  {
    if ls == [] {
      assert forall k :: 0 <= k < |s.desk.jobs| ==> JobInv(s.desk.jobs[k], s.desk.file, source);
      MissingNonNegative(s.desk.jobs);
    } else {
      var e := Apply(s, ls[0], source);
      assert Progressing([ls[0]]) && NoFailure(ls[1..]) && Progressing(ls[1..]);
      WorkShrinks(s, ls[0], source);
      ApplyKeepsDesk(s, ls[0], source);
      assert Pool.Undisturbed(e.pool) by {
        if ls[0].Scheduled? {
          var one := [ls[0].step];
          assert one[1..] == [] && Pool.Legal(s.pool, one) && Pool.Smooth(one);
          Pool.StaysUndisturbed(s.pool, one);
        }
      }
      WorkBounds(e, ls[1..], source);
    }
  }

  lemma {:induction false} InitialWork(jobs: seq<Job>, ths: seq<Pool.Thread>, ts: seq<Segments.Task>)
    requires |jobs| == |ts| && forall k :: 0 <= k < |ts| ==> JobFor(jobs[k], ts[k])
    requires forall i :: 0 <= i < |ths| ==> ths[i].pc == Pool.CheckFlag
    requires forall k :: 0 < k < |ts| ==> ts[k].start == ts[k - 1].stop + 1
    ensures Ranks(ths) == 2 * |ths|
    ensures ts != [] ==> Missing(jobs) == ts[|ts| - 1].stop + 1 - ts[0].start
    decreases |ts| + |ths|
  {
    if ths != [] {
      InitialWork(jobs, ths[1..], ts);
    } else if |ts| > 1 {
      assert ts[1..][|ts| - 2] == ts[|ts| - 1];
      InitialWork(jobs[1..], ths, ts[1..]);
    } else if |ts| == 1 {
      assert jobs[1..] == [] && JobFor(jobs[0], ts[0]);
    }
  }

  /** Every run without failures and empty chunks is short: at most one step for each byte, six
      for each task and two for each worker. */
  lemma DownloadEnds(s: State, ls: seq<Label>, source: seq<byte>)
    requires 0 < |source| < 205 * Segments.RANGE_SIZE
    requires Initial(s, |source|)
    requires Legal(s, ls, source) && Progressing(ls)
    ensures |ls| <= |source| + 6 * |s.desk.jobs| + 2 * |s.pool.threads|
  {
    var ts := Segments.TasksAsComputed(|source|);
    if |source| > Segments.RANGE_SIZE {
      Segments.CutWithinLimit(|source|);
    }
    Segments.CutIsPartition(|source|);
    InitialDesk(s, source);
    InitialWork(s.desk.jobs, s.pool.threads, ts);
    WorkBounds(s, ls, source);
  }

  lemma {:induction false} HeldIsPositive(ths: seq<Pool.Thread>, i: nat)
    requires i < |ths| && ths[i].pc.Running?
    ensures Pool.Held(ths, false, ths[i].pc.task) > 0
  {
    if i > 0 {
      HeldIsPositive(ths[1..], i - 1);
    }
  }

  lemma RunningTaskHasJob(s: State, ls: seq<Label>, source: seq<byte>, i: nat)
    requires Initial(s, |source|) && Legal(s, ls, source) && NoFailure(ls)
    requires var e := Exec(s, ls, source); i < |e.pool.threads| && e.pool.threads[i].pc.Running?
    ensures RunsTask(Exec(s, ls, source), i)
  {
    var e := Exec(s, ls, source);
    PoolRefinement(s, ls, source);
    NoFailureIsSmooth(s, ls, source);
    Pool.StaysUndisturbed(s.pool, PoolSteps(ls));
    var t := e.pool.threads[i].pc.task;
    Pool.AtMostOnce(s.pool, PoolSteps(ls), t);
    HeldIsPositive(e.pool.threads, i);
    Pool.AbsentCounts(e.pool.pushed, t);
    SameJobCount(s, ls, source);
  }

  lemma {:induction false} SameJobCount(s: State, ls: seq<Label>, source: seq<byte>)
    requires Legal(s, ls, source)
    ensures |Exec(s, ls, source).desk.jobs| == |s.desk.jobs|
    decreases |ls|
  {
    if ls != [] {
      SameJobCount(Apply(s, ls[0], source), ls[1..], source);
    }
  }

  /** And no such run is stuck before its end: while some worker has not left, a step is
      possible that fails nothing.  With DownloadEnds, a download nobody stops or fails always
      reaches the state LocalFileIsSource speaks of. */
  lemma NeverStuck(s: State, ls: seq<Label>, source: seq<byte>) returns (l: Label)
    requires 0 < |source| < 205 * Segments.RANGE_SIZE
    requires Initial(s, |source|) && Legal(s, ls, source) && NoFailure(ls)
    requires !Pool.AllLeft(Exec(s, ls, source).pool)
    ensures Enabled(Exec(s, ls, source), l) && Progressing([l])
  {
    var e := Exec(s, ls, source);
    InitialDesk(s, source);
    DeliveredBytesStay(s, ls, source);
    var i :| 0 <= i < |e.pool.threads| && e.pool.threads[i].pc != Pool.Left;
    if e.pool.threads[i].pc.Running? {
      RunningTaskHasJob(s, ls, source, i);
      var job := e.desk.jobs[TaskOf(e, i)];
      assert JobInv(job, e.desk.file, source);
      l := if job.Complete() then Scheduled(Pool.Finish(i, false)) else Chunk(i, 1);
    } else {
      l := Scheduled(Pool.Step(i));
    }
  }
}
