// The write callback of a download task: http_multi_download/src/CurlHttpTask.cpp, write_data.
//
// All tasks write into one file object.  For a ranged task the whole callback runs under one
// lock, so it is one atomic step; a download without ranges has one task only.
module RangeWriter {
  import opened Bytes

  /** Where and how far a task writes: m_startPos, m_stopPos and m_ranged. */
  datatype RawCursor = Cursor(pos: int, stop: int, ranged: bool)

  type Cursor = c: RawCursor | 0 <= c.pos <= c.stop
    witness Cursor(0, 0, false)

  /** The local file and its stream position. */
  datatype FileImage = FileImage(data: seq<byte>, pos: nat)

  function Zeros(n: nat): (z: seq<byte>)
    ensures |z| == n
  {
    seq(n, _ => 0)
  }

  /** fwrite of chunk at offset p: overwrites, and extends with a zero-filled gap if p lies past
      the end. */
  function Overwrite(data: seq<byte>, p: nat, chunk: seq<byte>): (r: seq<byte>)
    ensures chunk == [] ==> r == data
    ensures chunk != [] ==> |r| == if p + |chunk| > |data| then p + |chunk| else |data|
    ensures forall k :: p <= k < p + |chunk| ==> r[k] == chunk[k - p]
    ensures forall k :: 0 <= k < |data| && !(p <= k < p + |chunk|) ==> r[k] == data[k]
  {
    if chunk == [] then data
    else
      var base := if p > |data| then data + Zeros(p - |data|) else data;
      base[..p] + chunk + if p + |chunk| < |base| then base[p + |chunk|..] else []
  }

  /** How many bytes of the chunk write_data puts into the file. */
  function Taken(c: Cursor, n: nat): (k: nat)
    ensures k <= n
  {
    if !c.ranged || c.pos + n <= c.stop then n else c.stop - c.pos + 1
  }

  /** write_data as a function of the task's cursor and the file. */
  function Delivered(c: Cursor, f: FileImage, chunk: seq<byte>): (r: (Cursor, FileImage))
  {
    if !c.ranged then
      (c, FileImage(Overwrite(f.data, f.pos, chunk), f.pos + |chunk|))
    else
      var k := Taken(c, |chunk|);
      (c.(pos := if c.pos + |chunk| <= c.stop then c.pos + |chunk| else c.stop),
       FileImage(Overwrite(f.data, c.pos, chunk[..k]), c.pos + k))
  }

  /** The stdio stream m_fp. */
  class LocalFile {
    var data: seq<byte>
    var pos: nat

    constructor ()
      ensures data == [] && pos == 0
    {
      data, pos := [], 0;
    }

    function Image(): FileImage
      reads this
    {
      FileImage(data, pos)
    }

    method Seek(p: nat)
      modifies this`pos
      ensures pos == p
    {
      pos := p;
    }

    method Write(chunk: seq<byte>) returns (written: nat)
      modifies this
      ensures written == |chunk|
      ensures Image() == FileImage(Overwrite(old(data), old(pos), chunk), old(pos) + |chunk|)
    {
      data := Overwrite(data, pos, chunk);
      pos := pos + |chunk|;
      written := |chunk|;
    }
  }

  class CurlHttpTask {
    const m_fp: LocalFile
    var m_startPos: int
    const m_stopPos: int
    const m_ranged: bool

    constructor (fp: LocalFile, start: int, stop: int, ranged: bool)
      requires 0 <= start <= stop
      ensures Valid() && m_fp == fp && At() == Cursor(start, stop, ranged)
    {
      m_fp, m_startPos, m_stopPos, m_ranged := fp, start, stop, ranged;
    }

    ghost predicate Valid()
      reads this
    {
      0 <= m_startPos <= m_stopPos
    }

    ghost function At(): Cursor
      reads this
      requires Valid()
    {
      Cursor(m_startPos, m_stopPos, m_ranged)
    }

    /** The callback.  The transfer library calls it with items of one byte, so a chunk is its
        bytes and the result counts bytes. */
    method WriteData(chunk: seq<byte>) returns (written: nat)
      requires Valid()
      modifies this`m_startPos, m_fp
      ensures Valid()
      ensures (At(), m_fp.Image()) == Delivered(old(At()), old(m_fp.Image()), chunk)
      ensures written == Taken(old(At()), |chunk|)
    {
      if m_ranged {
        if m_startPos + |chunk| <= m_stopPos {
          m_fp.Seek(m_startPos);
          written := m_fp.Write(chunk);
          m_startPos := m_startPos + |chunk|;
          assert chunk[..|chunk|] == chunk;
        } else {
          m_fp.Seek(m_startPos);
          written := m_fp.Write(chunk[..m_stopPos - m_startPos + 1]);
          m_startPos := m_stopPos;
        }
      } else {
        written := m_fp.Write(chunk);
      }
    }
  }

  // ---- Any number of tasks writing in any order ----

  /** A task with the number of body bytes the server has delivered to it so far.  The cursor
      alone cannot tell: it rests at stop both when one byte is missing and when none is. */
  datatype Job = Job(start: nat, cursor: Cursor, got: nat) {
    function Size(): int {
      cursor.stop - start + 1
    }

    predicate Covers(p: int) {
      start <= p <= cursor.stop
    }

    predicate Complete() {
      got == Size()
    }
  }

  /** The jobs of one download and its file. */
  datatype Desk = Desk(jobs: seq<Job>, file: FileImage)

  ghost predicate Disjoint(jobs: seq<Job>) {
    forall j, k :: 0 <= j < k < |jobs| ==> jobs[j].cursor.stop < jobs[k].start
  }

  /** The job's cursor is where its delivered bytes put it, and those bytes are in the file. */
  ghost predicate JobInv(j: Job, f: FileImage, source: seq<byte>) {
    var c := j.cursor;
    && j.start <= c.stop < |source|
    && j.got <= j.Size()
    && c.pos == (if !c.ranged then j.start
                 else if j.start + j.got <= c.stop then j.start + j.got else c.stop)
    && (!c.ranged ==> f.pos == j.start + j.got)
    && (j.got > 0 ==> j.start + j.got <= |f.data|)
    && (forall p :: j.start <= p < j.start + j.got ==> f.data[p] == source[p])
  }

  /** Disjoint ranges, or the one task of a download without ranges. */
  ghost predicate DeskInv(d: Desk, source: seq<byte>) {
    && Disjoint(d.jobs)
    && |d.file.data| <= |source|
    && (forall k :: 0 <= k < |d.jobs| ==> JobInv(d.jobs[k], d.file, source))
    && (|d.jobs| > 1 ==> forall k :: 0 <= k < |d.jobs| ==> d.jobs[k].cursor.ranged)
  }

  /** The server delivers the next n bytes of job k's range. */
  predicate CanDeliver(d: Desk, k: nat, n: nat) {
    k < |d.jobs| && d.jobs[k].got + n <= d.jobs[k].Size()
  }

  /** What the server sends for positions a up to b of the source. */
  function Served(source: seq<byte>, a: nat, b: nat): (r: seq<byte>)
    requires a <= b
    ensures b <= |source| ==> r == source[a..b]
  {
    if b <= |source| then source[a..b]
    else if a <= |source| then source[a..]
    else []
  }

  function Deliver(d: Desk, k: nat, n: nat, source: seq<byte>): (e: Desk)
    requires k < |d.jobs|
    ensures |e.jobs| == |d.jobs|
  {
    var j := d.jobs[k];
    var from := j.start + j.got;
    var (cursor, file) := Delivered(j.cursor, d.file, Served(source, from, from + n));
    Desk(d.jobs[k := j.(cursor := cursor, got := j.got + n)], file)
  }

  /** The offset at which the next chunk of a job goes into the file. */
  function NextAt(j: Job, f: FileImage): nat {
    if j.cursor.ranged then j.cursor.pos else f.pos
  }

  /** The cursor of a job that has got bytes. */
  function CursorAfter(j: Job, got: nat): int {
    if !j.cursor.ranged then j.start else if j.start + got <= j.cursor.stop then j.start + got else j.cursor.stop
  }

  lemma DeliverIs(d: Desk, k: nat, n: nat, source: seq<byte>)
    requires CanDeliver(d, k, n) && JobInv(d.jobs[k], d.file, source)
    ensures var j := d.jobs[k]; var at := NextAt(j, d.file); var chunk := source[j.start + j.got..j.start + j.got + n];
            var e := Deliver(d, k, n, source);
            && Taken(j.cursor, n) == n && (n > 0 ==> at == j.start + j.got)
            && e.file == FileImage(Overwrite(d.file.data, at, chunk), at + n)
            && e.jobs == d.jobs[k := e.jobs[k]] && e.jobs[k].start == j.start && e.jobs[k].got == j.got + n
            && e.jobs[k].cursor == j.cursor.(pos := CursorAfter(j, j.got + n))
  {
    hide Overwrite;
    var j := d.jobs[k];
    var chunk := source[j.start + j.got..j.start + j.got + n];
    assert chunk[..n] == chunk;
  }

  /** One call of write_data for one job: the whole chunk is used, the job's delivered bytes are
      in place afterwards, and no byte outside the newly delivered stretch changes. */
  lemma DeliverOwn(d: Desk, k: nat, n: nat, source: seq<byte>)
    requires DeskInv(d, source) && CanDeliver(d, k, n)
    requires JobInv(d.jobs[k], d.file, source)
    ensures var e := Deliver(d, k, n, source); var j := d.jobs[k];
            && Taken(j.cursor, n) == n
            && JobInv(e.jobs[k], e.file, source)
            && |d.file.data| <= |e.file.data| <= |source|
            && forall p :: 0 <= p < |d.file.data| && !(j.start + j.got <= p < j.start + j.got + n) ==>
                 e.file.data[p] == d.file.data[p]
  {
    DeliverIs(d, k, n, source);
    var e := Deliver(d, k, n, source);
    hide Overwrite, Delivered, Taken, Deliver, DeskInv, JobInv;
    OwnInPlace(d.jobs[k], e.jobs[k], n, d.file, e.file, source);
  }

  lemma OwnInPlace(j: Job, i: Job, n: nat, f: FileImage, g: FileImage, source: seq<byte>)
    requires JobInv(j, f, source) && j.got + n <= j.Size() && |f.data| <= |source|
    requires n > 0 ==> NextAt(j, f) == j.start + j.got
    requires g == FileImage(Overwrite(f.data, NextAt(j, f), source[j.start + j.got..j.start + j.got + n]), NextAt(j, f) + n)
    requires i == Job(j.start, j.cursor.(pos := CursorAfter(j, j.got + n)), j.got + n)
    ensures JobInv(i, g, source) && |f.data| <= |g.data| <= |source|
    ensures forall p :: 0 <= p < |f.data| && !(j.start + j.got <= p < j.start + j.got + n) ==> g.data[p] == f.data[p]
  {
    hide Overwrite;
    var at := NextAt(j, f);
    var chunk := source[j.start + j.got..j.start + j.got + n];
    assert forall p :: at <= p < at + n ==> g.data[p] == chunk[p - at];
  }

  /** Interleaved reassembly: whatever task is served next and however much arrives for it, every
      task's delivered positions go on holding the source bytes. */
  lemma DeliverKeepsInv(d: Desk, k: nat, n: nat, source: seq<byte>)
    requires DeskInv(d, source) && CanDeliver(d, k, n)
    ensures JobInv(d.jobs[k], d.file, source)
    ensures DeskInv(Deliver(d, k, n, source), source)
  {
    assert JobInv(d.jobs[k], d.file, source);
    var e := Deliver(d, k, n, source);
    DeliverOwn(d, k, n, source);
    forall m | 0 <= m < |e.jobs|
      ensures JobInv(e.jobs[m], e.file, source)
    {
      if m != k {
        assert JobInv(d.jobs[m], d.file, source);
        assert d.jobs[m].cursor.stop < d.jobs[k].start || d.jobs[k].cursor.stop < d.jobs[m].start;
      }
    }
  }

  /** A server that sends more than was asked for.  Whatever arrives for a ranged task, the bytes
      taken are those that fit, no byte of the file outside the task's range changes, and the file
      does not grow past the range. */
  lemma NeverPastRange(c: Cursor, f: FileImage, chunk: seq<byte>)
    requires c.ranged
    ensures Taken(c, |chunk|) == if |chunk| <= c.stop - c.pos + 1 then |chunk| else c.stop - c.pos + 1
    ensures var (d, g) := Delivered(c, f, chunk);
            && c.pos <= d.pos <= d.stop == c.stop && d.ranged
            && |f.data| <= |g.data| && (|g.data| > |f.data| ==> |g.data| <= c.stop + 1)
            && (forall p :: 0 <= p < |f.data| && !(c.pos <= p <= c.stop) ==> g.data[p] == f.data[p])
            && (forall p :: c.pos <= p < c.pos + Taken(c, |chunk|) ==> p < |g.data| && g.data[p] == chunk[p - c.pos])
  {
    hide Overwrite;
    var k := Taken(c, |chunk|);
    var g := Delivered(c, f, chunk).1;
    assert g.data == Overwrite(f.data, c.pos, chunk[..k]);
    assert forall p :: c.pos <= p < c.pos + k ==> g.data[p] == chunk[..k][p - c.pos];
  }

  /** But the last byte of a range that has arrived whole is not safe: one further byte for the task
      replaces it. */
  lemma SurplusReplacesLast(d: Desk, k: nat, source: seq<byte>, chunk: seq<byte>)
    requires DeskInv(d, source) && k < |d.jobs| && d.jobs[k].Complete() && d.jobs[k].cursor.ranged && chunk != []
    ensures JobInv(d.jobs[k], d.file, source)
    ensures var c := d.jobs[k].cursor; var (e, g) := Delivered(c, d.file, chunk);
            && e == c && |g.data| == |d.file.data| && g.data == d.file.data[c.stop := chunk[0]]
  {
    hide Overwrite;
    assert JobInv(d.jobs[k], d.file, source);
    var c := d.jobs[k].cursor;
    assert c.pos == c.stop;
    assert chunk[..1] == [chunk[0]];
    var g := Delivered(c, d.file, chunk).1;
    assert g.data == Overwrite(d.file.data, c.stop, [chunk[0]]);
  }

  ghost predicate InSomeRange(jobs: seq<Job>, p: int) {
    exists k :: 0 <= k < |jobs| && jobs[k].Covers(p)
  }

  lemma ByteInPlace(d: Desk, source: seq<byte>, p: nat)
    requires DeskInv(d, source)
    requires forall k :: 0 <= k < |d.jobs| ==> d.jobs[k].Complete()
    requires p < |source| && InSomeRange(d.jobs, p)
    ensures p < |d.file.data| && d.file.data[p] == source[p]
  {
    var k :| 0 <= k < |d.jobs| && d.jobs[k].Covers(p);
    assert JobInv(d.jobs[k], d.file, source) && d.jobs[k].Complete();
  }

  /** With every job complete and every byte in some range, the file is the source. */
  lemma CompleteFile(d: Desk, source: seq<byte>)
    requires DeskInv(d, source)
    requires forall k :: 0 <= k < |d.jobs| ==> d.jobs[k].Complete()
    requires forall p :: 0 <= p < |source| ==> InSomeRange(d.jobs, p)
    ensures d.file.data == source
  {
    if source != [] {
      ByteInPlace(d, source, |source| - 1);
    }
    forall p | 0 <= p < |source|
      ensures d.file.data[p] == source[p]
    {
      ByteInPlace(d, source, p);
    }
  }
}
