// Cutting a download into byte ranges: http_multi_download/src/DownLoadFactory.cpp, MakeTask.
module Segments {
  import opened Bytes
  import opened TaskQueue

  const RANGE_SIZE: int := 1024 * 1024 * 10

  /** A download task: the inclusive byte range start..stop and whether a Range header is sent
      (section 14.1.2 of RFC 9110). */
  datatype Task = Task(start: int, stop: int, ranged: bool) {
    function Size(): int {
      stop - start + 1
    }

    predicate Covers(p: int) {
      start <= p <= stop
    }
  }

  datatype FileLoadType = HttpCurl | Ftp | Unknown

  datatype Outcome = NoInstance | LengthError | OpenError | Made

  /** Two's complement 32-bit int: the value an int expression ends up with. */
  function Int32(x: int): (r: int)
    ensures -0x8000_0000 <= r < 0x8000_0000
    ensures r == x <==> -0x8000_0000 <= x < 0x8000_0000
  {
    (x + 0x8000_0000) % 0x1_0000_0000 - 0x8000_0000
  }

  predicate FitsInt32(x: int) {
    -0x8000_0000 <= x < 0x8000_0000
  }

  /** The number of ranges of RANGE_SIZE bytes that cover len bytes. */
  function Count(len: int): (n: int)
    requires len > 0
    ensures n > 0 && (n - 1) * RANGE_SIZE < len <= n * RANGE_SIZE
  {
    (len + RANGE_SIZE - 1) / RANGE_SIZE
  }

  /** The intended cut: range k of the file, the last one ending at the last byte. */
  function Cut(len: int, k: nat): Task {
    var after := (k + 1) * RANGE_SIZE;
    Task(k * RANGE_SIZE, (if after < len then after else len) - 1, true)
  }

  function Tasks(len: int): (ts: seq<Task>)
    requires len > 0
  {
    if len <= RANGE_SIZE then [Task(0, len - 1, false)]
    else seq(Count(len), k requires 0 <= k => Cut(len, k))
  }

  /** The cut as computed: the products of two ints are ints. */
  function CutAsComputed(len: int, k: nat): Task {
    if k < len / RANGE_SIZE
    then Task(Int32(k * RANGE_SIZE), Int32(Int32((k + 1) * RANGE_SIZE) - 1), true)
    else Task(Int32(k * RANGE_SIZE), len - 1, true)
  }

  function TasksAsComputed(len: int): (ts: seq<Task>)
    requires len > 0
  {
    if len <= RANGE_SIZE then [Task(0, len - 1, false)]
    else seq(Count(len), k requires 0 <= k => CutAsComputed(len, k))
  }

  /** MakeTask.  fileLen is what GetDownloadFileLength answered and fileOpened says whether the
      target file could be opened; the tasks go to the pool's queue. */
  method MakeTask(kind: FileLoadType, fileLen: int, fileOpened: bool, queue: KDeque<Task>)
    returns (outcome: Outcome)
    requires !queue.HasCapacity()
    modifies queue`m_deque
    ensures kind != HttpCurl ==> outcome == NoInstance
    ensures kind == HttpCurl && fileLen <= 0 ==> outcome == LengthError
    ensures kind == HttpCurl && fileLen > 0 && !fileOpened ==> outcome == OpenError
    ensures kind == HttpCurl && fileLen > 0 && fileOpened ==>
              outcome == Made && queue.m_deque == old(queue.m_deque) + TasksAsComputed(fileLen)
    ensures outcome != Made ==> queue.m_deque == old(queue.m_deque)
  {
    hide Int32;
    if kind != HttpCurl {
      return NoInstance;
    }
    if fileLen <= 0 {
      return LengthError;
    }
    if !fileOpened {
      return OpenError;
    }
    var start, stop;
    if fileLen <= RANGE_SIZE {
      start := 0;
      stop := fileLen - 1;
      var _ := queue.PushBack(Task(start, stop, false));
    } else {
      var segNum := fileLen / RANGE_SIZE;
      var i := 0;
      ghost var goal := TasksAsComputed(fileLen);
      while i <= segNum
        invariant 0 <= i <= segNum + 1
        invariant i <= segNum ==> queue.m_deque == old(queue.m_deque) + goal[..i]
        invariant i == segNum + 1 ==> queue.m_deque == old(queue.m_deque) + goal
      {
        if i < segNum {
          start := Int32(i * RANGE_SIZE);
          stop := Int32(Int32((i + 1) * RANGE_SIZE) - 1);
        } else {
          if fileLen % RANGE_SIZE != 0 {
            start := Int32(i * RANGE_SIZE);
            stop := fileLen - 1;
          } else {
            break;
          }
        }
        assert goal[i] == Task(start, stop, true);
        var _ := queue.PushBack(Task(start, stop, true));
        assert goal[..i] + [goal[i]] == goal[..i + 1];
        i := i + 1;
      }
    }
    return Made;
  }

  // ---- What the cut is for ----

  /** Non-empty, consecutive ranges that begin at byte 0 and end at byte len - 1. */
  ghost predicate Partition(ts: seq<Task>, len: int) {
    && ts != []
    && ts[0].start == 0
    && ts[|ts| - 1].stop == len - 1
    && (forall k :: 0 <= k < |ts| ==> ts[k].start <= ts[k].stop)
    && (forall k :: 0 < k < |ts| ==> ts[k].start == ts[k - 1].stop + 1)
  }

  lemma {:induction false} Ordered(ts: seq<Task>, len: int, j: nat, k: nat)
    requires Partition(ts, len) && j < k < |ts|
    ensures ts[j].stop < ts[k].start
  {
    if j < k - 1 {
      Ordered(ts, len, j, k - 1);
    }
  }

  lemma {:induction false} CoveredUpTo(ts: seq<Task>, len: int, p: int, k: nat) returns (j: nat)
    requires Partition(ts, len) && k < |ts| && 0 <= p <= ts[k].stop
    ensures j <= k && ts[j].Covers(p)
  {
    if ts[k].start <= p {
      j := k;
    } else {
      j := CoveredUpTo(ts, len, p, k - 1);
    }
  }

  /** A partition puts every byte of the file into exactly one range and nothing else into any. */
  lemma EachByteOnce(ts: seq<Task>, len: int, p: int)
    requires Partition(ts, len)
    ensures 0 <= p < len <==> exists k :: 0 <= k < |ts| && ts[k].Covers(p)
    ensures forall j, k :: 0 <= j < |ts| && 0 <= k < |ts| && ts[j].Covers(p) && ts[k].Covers(p) ==> j == k
  {
    if 0 <= p < len {
      var k := CoveredUpTo(ts, len, p, |ts| - 1);
    }
    forall k | 0 <= k < |ts| && ts[k].Covers(p)
      ensures 0 <= p < len
    {
      if 0 < k {
        Ordered(ts, len, 0, k);
      }
      if k < |ts| - 1 {
        Ordered(ts, len, k, |ts| - 1);
      }
    }
    forall j, k | 0 <= j < |ts| && 0 <= k < |ts| && ts[j].Covers(p) && ts[k].Covers(p)
      ensures j == k
    {
      if j < k {
        Ordered(ts, len, j, k);
      } else if k < j {
        Ordered(ts, len, k, j);
      }
    }
  }

  /** For every length the intended cut is a partition, into ceil(len / RANGE_SIZE) ranges when
      the file is longer than one range. */
  lemma CutIsPartition(len: int)
    requires len > 0
    ensures Partition(Tasks(len), len)
    ensures |Tasks(len)| == Count(len)
    ensures len > 10485760 <==> Tasks(len)[0].ranged
  {
    var n := Count(len);
    if len > RANGE_SIZE {
      assert n > 1;
      forall k | 0 <= k < n
        ensures Cut(len, k).start <= Cut(len, k).stop
        ensures k > 0 ==> Cut(len, k).start == Cut(len, k - 1).stop + 1
      {
        assert k * RANGE_SIZE <= (n - 1) * RANGE_SIZE;
      }
    } else {
      assert n == 1;
    }
  }

  predicate ProductFits(i: int) {
    FitsInt32(i * RANGE_SIZE)
  }

  /** Every product MakeTask evaluates for a file of this length stays a 32-bit int. */
  ghost predicate ProductsFit(len: int) {
    && (forall i :: 0 <= i < len / RANGE_SIZE ==> ProductFits(i))        // start, line 98
    && (forall j :: 0 < j <= len / RANGE_SIZE ==> ProductFits(j))        // stop, line 99
    && (len % RANGE_SIZE != 0 ==> ProductFits(len / RANGE_SIZE))   // the last start, line 104
  }

  lemma CutWithinLimit(len: int)
    requires RANGE_SIZE < len < 205 * RANGE_SIZE
    ensures ProductsFit(len) && TasksAsComputed(len) == Tasks(len)
  {
    assert len / RANGE_SIZE <= 204;
    forall k | 0 <= k < Count(len)
      ensures CutAsComputed(len, k) == Cut(len, k)
    {
      CutExact(len, k);
    }
  }

  lemma CutExact(len: int, k: nat)
    requires RANGE_SIZE < len < 205 * RANGE_SIZE && k < Count(len)
    ensures CutAsComputed(len, k) == Cut(len, k)
  {
    hide Int32;
    assert k <= len / RANGE_SIZE <= 204;
  }

  lemma CutBeyondLimit(len: int)
    requires len >= 205 * RANGE_SIZE
    ensures !ProductsFit(len) && !Partition(TasksAsComputed(len), len)
  {
    assert len / RANGE_SIZE >= 205;
    assert !ProductFits(205);
    var ts := TasksAsComputed(len);
    assert 204 < Count(len);
    var broken := ts[204];
    assert broken == CutAsComputed(len, 204);
    assert broken.start > broken.stop;
  }

  /** The exact limit of MakeTask: the products fit, and the pushed ranges partition the file,
      if and only if the file is shorter than 205 ranges. */
  lemma SegmentationLimit(len: int)
    requires len > RANGE_SIZE
    ensures ProductsFit(len) <==> len < 2149580800
    ensures Partition(TasksAsComputed(len), len) <==> len < 2149580800
  {
    if len < 205 * RANGE_SIZE {
      CutWithinLimit(len);
      CutIsPartition(len);
    } else {
      CutBeyondLimit(len);
    }
  }
}
