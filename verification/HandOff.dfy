// The hand-off of received bytes to the paste side: data_sharing/clipboard/MSPaste/MSStream.cpp
// (Read, WriteFile, Cancel) and MSImgHandler.cpp (GetImg's Check, WriteFile, Cancel).
//
// Writer and reader hold different mutexes, so they interleave freely; each access to the shared
// flag, positions and buffer is a step.  Read's copy block counts as one step; `CopyBlockUndisturbed`
// says what that leaves out.
module HandOff {
  import opened Bytes

  datatype Mode = FileStream | Image

  datatype Writer =
    | WIdle
    | WCopied(data: seq<byte>)   // bytes in the buffer, mProgressSize not yet advanced
    | WAdvanced                  // advanced, mWaitDataFlag not yet set

  datatype Reader =
    | RIdle       // between two calls
    | RWaiting    // spinning on mWaitDataFlag
    | RSaw        // has seen it set
    | RPassed     // Image: has tested mCancel, flag not yet cleared
    | RCleared    // has cleared the flag
    | REnded      // Image: GetImg has left its loop

  datatype Canceller = CIdle | CMarked   // mCancel set, flag not yet

  /** The shared object, the three threads, and the histories of accepted and delivered bytes. */
  datatype RawChannel = Channel(
    mode: Mode,
    size: nat,
    buffer: seq<byte>,
    progress: nat,
    position: nat,
    flag: bool,
    cancel: bool,
    writer: Writer,
    reader: Reader,
    canceller: Canceller,
    accepted: seq<byte>,
    delivered: seq<byte>,
    gaveUp: bool,      // a Read has returned because of mCancel
    raisedLate: bool)  // the last Cancel set the flag while an Image reader was past its test

  /** The positions lie within the mapped buffer. */
  predicate Sound(c: RawChannel) {
    && |c.buffer| == c.size < 0x1_0000_0000 && c.position <= c.progress <= c.size
    && (c.writer.WCopied? ==> c.writer.data != [] && c.progress + |c.writer.data| <= c.size)
  }

  type Channel = c: RawChannel | Sound(c)
    witness Channel(FileStream, 0, [], 0, 0, false, false, WIdle, RIdle, CIdle, [], [], false, false)

  datatype Event =
    | Copy(data: seq<byte>)   // WriteFile: checks and memcpy
    | Advance                 // mProgressSize += size
    | Raise                   // mWaitDataFlag = true
    | Begin                   // Read or Check: the position test
    | See                     // the spin ends
    | Test                    // Image: if (mCancel)
    | Clear                   // mWaitDataFlag = false
    | Take                    // FileStream: if (mCancel), copy block; Image: mPosition = mProgressSize
    | Mark                    // Cancel: mCancel = true
    | RaiseCancel             // Cancel: mWaitDataFlag = true

  /** The sum of two 32-bit sizes as WriteFile computes it. */
  function Sum32(a: nat, b: nat): nat {
    (a + b) % 0x1_0000_0000
  }

  /** The sum wraps around and looks small enough. */
  predicate Overruns(progress: nat, size: nat, n: nat) {
    progress + n >= 0x1_0000_0000 && progress + n - 0x1_0000_0000 <= size
  }

  /** WriteFile's comparison tells whether the data fits exactly when the sum does not overrun. */
  lemma SizeCheckExact(progress: uint32, size: uint32, n: uint32)
    ensures (Sum32(progress, n) > size <==> progress + n > size) <==> !Overruns(progress, size, n)
  {
    if progress + n >= 0x1_0000_0000 {
      assert Sum32(progress, n) == progress + n - 0x1_0000_0000;
    }
  }

  predicate Enabled(c: Channel, e: Event) {
    match e
    case Copy(data) => c.writer.WIdle? && |data| < 0x1_0000_0000 && !Overruns(c.progress, c.size, |data|)
    case Advance => c.writer.WCopied?
    case Raise => c.writer.WAdvanced?
    case Begin => c.reader.RIdle?
    case See => c.reader.RWaiting? && c.flag
    case Test => c.mode.Image? && c.reader.RSaw?
    case Clear => if c.mode.Image? then c.reader.RPassed? else c.reader.RSaw?
    case Take => c.reader.RCleared?
    case Mark => c.canceller.CIdle?
    case RaiseCancel => c.canceller.CMarked?
  }

  /** WriteFile refuses empty data and data that does not fit. */
  predicate Fits(c: Channel, data: seq<byte>) {
    data != [] && c.progress + |data| <= c.size
  }

  function Apply(c: Channel, e: Event): Channel
    requires Enabled(c, e)
  {
    match e
    case Copy(data) =>
      if !Fits(c, data) then c
      else c.(buffer := c.buffer[..c.progress] + data + c.buffer[c.progress + |data|..], writer := WCopied(data))
    case Advance =>
      c.(progress := c.progress + |c.writer.data|, accepted := c.accepted + c.writer.data, writer := WAdvanced)
    case Raise => c.(flag := true, writer := WIdle)
    case Begin =>
      if c.position < c.size then c.(reader := RWaiting)
      else if c.mode.Image? then c.(reader := REnded)
      else c
    case See => c.(reader := RSaw)
    case Test => c.(reader := if c.cancel then REnded else RPassed)
    case Clear => c.(flag := false, reader := RCleared)
    case Take =>
      if c.mode.FileStream? && c.cancel then c.(reader := RIdle, gaveUp := true)
      else c.(delivered := c.delivered + c.buffer[c.position..c.progress], position := c.progress, reader := RIdle)
    case Mark => c.(cancel := true, canceller := CMarked)
    case RaiseCancel => c.(flag := true, canceller := CIdle, raisedLate := c.reader.RPassed?)
  }

  /** In numbers: what is copied is not empty, and reaches at most the end of the buffer. */
  lemma AcceptsExactly(c: Channel, data: seq<byte>)
    requires Enabled(c, Copy(data))
    ensures Apply(c, Copy(data)).writer.WCopied? <==> data != [] && c.progress + |data| <= c.size
    ensures Apply(c, Copy(data)).writer.WCopied? ==> Apply(c, Copy(data)).writer.data == data
  {
  }

  predicate Legal(c: Channel, es: seq<Event>)
    decreases |es|
  {
    es == [] || (Enabled(c, es[0]) && Legal(Apply(c, es[0]), es[1..]))
  }

  function Exec(c: Channel, es: seq<Event>): Channel
    requires Legal(c, es)
    decreases |es|
  {
    if es == [] then c else Exec(Apply(c, es[0]), es[1..])
  }

  /** A new object with nothing received. */
  predicate Initial(c: Channel) {
    && c.progress == 0 && c.position == 0 && !c.flag && !c.cancel
    && c.writer.WIdle? && c.reader.RIdle? && c.canceller.CIdle?
    && c.accepted == [] && c.delivered == [] && !c.gaveUp && !c.raisedLate
  }

  // ---- No byte is lost ----

  ghost predicate BytesInv(c: Channel) {
    && c.accepted == c.buffer[..c.progress]
    && (c.writer.WCopied? ==> c.buffer[c.progress..c.progress + |c.writer.data|] == c.writer.data)
    && c.delivered == c.accepted[..c.position]
    && (c.reader.REnded? ==> c.mode.Image? && (c.cancel || c.position == c.size))
  }

  lemma CopyKeepsBytes(c: Channel, data: seq<byte>)
    requires BytesInv(c) && Enabled(c, Copy(data))
    ensures BytesInv(Apply(c, Copy(data)))
  {
    if Fits(c, data) {
      var d := Apply(c, Copy(data));
      assert d.buffer[..c.progress] == c.buffer[..c.progress];
      assert d.buffer[c.progress..c.progress + |data|] == data;
    }
  }

  lemma AdvanceKeepsBytes(c: Channel)
    requires BytesInv(c) && Enabled(c, Advance)
    ensures BytesInv(Apply(c, Advance))
  {
    var d := Apply(c, Advance);
    assert d.buffer[..d.progress] == c.buffer[..c.progress] + c.buffer[c.progress..d.progress];
    assert d.accepted[..c.position] == c.accepted[..c.position];
  }

  lemma PrefixGrows(bytes: seq<byte>, from: nat, to: nat)
    requires from <= to <= |bytes|
    ensures bytes[..to][..from] + bytes[from..to] == bytes[..to][..to] == bytes[..to]
  {
  }

  lemma TakeKeepsBytes(c: Channel)
    requires BytesInv(c) && Enabled(c, Take)
    ensures BytesInv(Apply(c, Take))
  {
    assert c.delivered == c.buffer[..c.progress][..c.position];
    PrefixGrows(c.buffer, c.position, c.progress);
  }

  lemma StepKeepsBytes(c: Channel, e: Event)
    requires BytesInv(c) && Enabled(c, e)
    ensures BytesInv(Apply(c, e))
  {
    match e
    case Copy(data) => CopyKeepsBytes(c, data);
    case Advance => AdvanceKeepsBytes(c);
    case Take => TakeKeepsBytes(c);
    case _ =>
  }

  // ---- No wake-up is lost ----

  /** Unread bytes mean the flag is up or one side is between its two updates; and a Cancel that
      has finished keeps the flag up until the reader has seen it, except for an Image reader that
      had already tested mCancel. */
  ghost predicate WakeInv(c: Channel) {
    && (c.position < c.progress && !c.gaveUp ==> c.flag || c.writer.WAdvanced? || c.reader.RCleared?)
    && (c.reader.RSaw? || c.reader.RPassed? ==> c.flag)
    && (c.gaveUp ==> c.mode.FileStream?)
    && (c.mode.FileStream? ==> !c.reader.RPassed? && !c.reader.REnded?)
    && (c.canceller.CMarked? ==> c.cancel)
    && (c.reader.RPassed? ==> !c.cancel || c.canceller.CMarked? || c.raisedLate)
    && (c.cancel && c.canceller.CIdle? && c.mode.FileStream? && !c.gaveUp ==> c.flag || c.reader.RCleared?)
    && (c.cancel && c.canceller.CIdle? && c.mode.Image? && !c.raisedLate ==> c.flag || c.reader.REnded?)
  }

  lemma WriterKeepsWake(c: Channel, e: Event)
    requires WakeInv(c) && Enabled(c, e) && (e.Copy? || e.Advance? || e.Raise?)
    ensures WakeInv(Apply(c, e))
  {
  }

  lemma ReaderKeepsWake(c: Channel, e: Event)
    requires WakeInv(c) && Enabled(c, e) && (e.Begin? || e.See? || e.Test? || e.Clear? || e.Take?)
    ensures WakeInv(Apply(c, e))
  {
    match e
    case Take =>
    case Clear =>
    case _ =>
  }

  lemma CancelKeepsWake(c: Channel, e: Event)
    requires WakeInv(c) && Enabled(c, e) && (e.Mark? || e.RaiseCancel?)
    ensures WakeInv(Apply(c, e))
  {
  }

  lemma StepKeepsWake(c: Channel, e: Event)
    requires WakeInv(c) && Enabled(c, e)
    ensures WakeInv(Apply(c, e))
  {
    hide WakeInv, Apply;
    if e.Copy? || e.Advance? || e.Raise? {
      WriterKeepsWake(c, e);
    } else if e.Mark? || e.RaiseCancel? {
      CancelKeepsWake(c, e);
    } else {
      ReaderKeepsWake(c, e);
    }
  }

  lemma StepKeepsShape(c: Channel, e: Event)
    requires Enabled(c, e)
    ensures Apply(c, e).mode == c.mode && Apply(c, e).size == c.size
  {
  }

  lemma {:induction false} RunKeepsInv(c: Channel, es: seq<Event>)
    requires BytesInv(c) && WakeInv(c) && Legal(c, es)
    ensures BytesInv(Exec(c, es)) && WakeInv(Exec(c, es))
    ensures Exec(c, es).mode == c.mode && Exec(c, es).size == c.size
    decreases |es|
  {
    hide BytesInv, WakeInv, Apply, Enabled;
    if es != [] {
      StepKeepsShape(c, es[0]);
      StepKeepsBytes(c, es[0]);
      StepKeepsWake(c, es[0]);
      RunKeepsInv(Apply(c, es[0]), es[1..]);
    }
  }

  /** In every interleaving what the reader has been given is a prefix of what the writer had
      accepted.  Unread bytes mean the flag is up or one side is between its flag and its position
      update, unless an earlier Read has already answered a Cancel; so a reader that waits while
      bytes are there to be read is about to be woken: the flag is up, or the writer's next step
      raises it. */
  lemma NoLostData(c: Channel, es: seq<Event>)
    requires Initial(c) && Legal(c, es)
    ensures var d := Exec(c, es);
            && d.delivered <= d.accepted
            && (d.position < d.progress && !d.gaveUp ==> d.flag || d.writer.WAdvanced? || d.reader.RCleared?)
            && (d.reader.RWaiting? && d.position < d.progress && !d.gaveUp ==> d.flag || d.writer.WAdvanced?)
  {
    RunKeepsInv(c, es);
  }

  /** GetImg leaves its loop only cancelled or with the whole image: exactly the accepted bytes,
      which fill the buffer. */
  lemma ImageComplete(c: Channel, es: seq<Event>)
    requires Initial(c) && c.mode.Image? && Legal(c, es)
    requires Exec(c, es).reader.REnded? && !Exec(c, es).cancel
    ensures var d := Exec(c, es); d.delivered == d.accepted == d.buffer && |d.accepted| == c.size
  {
    RunKeepsInv(c, es);
    var d := Exec(c, es);
    assert d.accepted[..d.size] == d.accepted;
  }

  // ---- Does a waiting reader notice Cancel? ----

  /** After a finished Cancel a waiting Read finds the flag up, unless an earlier Read has already
      answered it; a waiting Check finds it up unless the flag was raised between its test
      of mCancel and its clearing of the flag. */
  lemma CancelIsSeen(c: Channel, es: seq<Event>)
    requires Initial(c) && Legal(c, es)
    ensures var d := Exec(c, es);
            (d.cancel && d.canceller.CIdle? && d.reader.RWaiting?
             && if d.mode.FileStream? then !d.gaveUp else !d.raisedLate) ==> d.flag
  {
    RunKeepsInv(c, es);
  }

  /** What a reader that has tested mCancel does next, if the file is not complete. */
  const ON_TO_NEXT_CHECK: seq<Event> := [Clear, Take, Begin]

  /** The exception is real: a Cancel that falls between the test and the clearing leaves the
      next Check spinning with the flag down, however the reader got there. */
  lemma LateCancelIsLost(c: Channel)
    requires c.mode.Image? && c.reader.RPassed? && c.canceller.CIdle? && c.progress < c.size
    ensures var es := [Mark, RaiseCancel] + ON_TO_NEXT_CHECK;
            Legal(c, es) && var d := Exec(c, es);
            d.cancel && d.canceller.CIdle? && d.reader.RWaiting? && !d.flag
  {
    var c1 := Apply(c, Mark);
    var c2 := Apply(c1, RaiseCancel);
    var c3 := Apply(c2, Clear);
    var c4 := Apply(c3, Take);
    var c5 := Apply(c4, Begin);
    var es := [Mark, RaiseCancel] + ON_TO_NEXT_CHECK;
    assert es[1..] == [RaiseCancel, Clear, Take, Begin] && es[1..][1..] == [Clear, Take, Begin];
    assert [Clear, Take, Begin][1..] == [Take, Begin] && [Take, Begin][1..] == [Begin];
    assert Exec(c4, [Begin]) == c5;
    assert Exec(c3, [Take, Begin]) == c5;
    assert Exec(c2, [Clear, Take, Begin]) == c5;
    assert Exec(c1, es[1..]) == c5;
  }

  /** A waiting reader with the flag down moves only after the next data or the next Cancel. */
  lemma StuckUntilRaised(c: Channel, e: Event)
    requires c.reader.RWaiting? && !c.flag && Enabled(c, e)
    ensures Apply(c, e).reader.RWaiting? && (Apply(c, e).flag <==> e.Raise? || e.RaiseCancel?)
  {
  }

  // ---- When a reader can be left waiting after a Cancel ----

  /** A reader waits in vain: the Cancel is over and the flag is down. */
  predicate Stranded(c: Channel) {
    c.cancel && c.canceller.CIdle? && c.reader.RWaiting? && !c.flag
  }

  /** Some continuation, whatever it is, leaves a reader like that. */
  ghost predicate CanStrand(c: Channel) {
    exists es :: Legal(c, es) && Stranded(Exec(c, es))
  }

  /** A reader is inside a call only while there is something to wait for. */
  predicate InsideCall(c: Channel) {
    c.reader.RWaiting? || c.reader.RSaw? || c.reader.RPassed? || c.reader.RCleared? ==> c.position < c.size
  }

  lemma StepKeepsInside(c: Channel, e: Event)
    requires InsideCall(c) && Enabled(c, e)
    ensures InsideCall(Apply(c, e))
  {
  }

  lemma {:induction false} RunKeepsInside(c: Channel, es: seq<Event>)
    requires InsideCall(c) && Legal(c, es)
    ensures InsideCall(Exec(c, es))
    decreases |es|
  {
    hide InsideCall, Apply, Enabled;
    if es != [] {
      StepKeepsInside(c, es[0]);
      RunKeepsInside(Apply(c, es[0]), es[1..]);
    }
  }

  /** States from which no reader is stranded: a file that has been read; an image whose reader
      will find the flag up, or that is complete. */
  predicate Safe(c: Channel) {
    if c.mode.FileStream? then c.reader.RIdle? && c.position >= c.size
    else
      c.cancel &&
      ((c.flag && !c.reader.RPassed?)
       || (c.progress >= c.size
           && (c.reader.RPassed? || c.reader.RCleared? || c.reader.REnded? || (c.reader.RIdle? && c.position >= c.size))))
  }

  lemma StepKeepsSafe(c: Channel, e: Event)
    requires Safe(c) && Enabled(c, e)
    ensures Safe(Apply(c, e))
  {
  }

  lemma {:induction false} StaysSafe(c: Channel, es: seq<Event>)
    requires Safe(c) && Legal(c, es)
    ensures !Stranded(Exec(c, es))
    decreases |es|
  {
    if es != [] {
      StepKeepsSafe(c, es[0]);
      StaysSafe(Apply(c, es[0]), es[1..]);
    }
  }

  lemma Later(c: Channel, e: Event)
    requires Enabled(c, e) && CanStrand(Apply(c, e))
    ensures CanStrand(c)
  {
    var es :| Legal(Apply(c, e), es) && Stranded(Exec(Apply(c, e), es));
    assert ([e] + es)[1..] == es;
    assert Legal(c, [e] + es) && Exec(c, [e] + es) == Exec(Apply(c, e), es);
  }

  lemma Now(c: Channel)
    requires Stranded(c)
    ensures CanStrand(c)
  {
    assert Legal(c, []) && Exec(c, []) == c;
  }

  /** The Read that answers a Cancel takes the flag down, and the next Read waits for it. */
  lemma NextReadStrands(c: Channel)
    requires c.mode.FileStream? && c.cancel && c.canceller.CIdle? && c.position < c.size
    requires c.flag && (c.reader.RIdle? || c.reader.RWaiting? || c.reader.RSaw? || c.reader.RCleared?)
    ensures CanStrand(c)
    decreases if c.reader.RCleared? then 3 else if c.reader.RIdle? then 2 else if c.reader.RWaiting? then 1 else 0
  {
    match c.reader
    case RCleared =>
      NextReadStrands(Apply(c, Take));
      Later(c, Take);
    case RIdle =>
      NextReadStrands(Apply(c, Begin));
      Later(c, Begin);
    case RWaiting =>
      NextReadStrands(Apply(c, See));
      Later(c, See);
    case RSaw =>
      var c1 := Apply(c, Clear);
      var c2 := Apply(c1, Take);
      Now(Apply(c2, Begin));
      Later(c2, Begin);
      Later(c1, Take);
      Later(c, Clear);
  }

  lemma LateCheckStrands(c: Channel)
    requires c.mode.Image? && c.cancel && c.canceller.CIdle? && c.reader.RPassed? && c.progress < c.size
    ensures CanStrand(c)
  {
    var c1 := Apply(c, Clear);
    var c2 := Apply(c1, Take);
    Now(Apply(c2, Begin));
    Later(c2, Begin);
    Later(c1, Take);
    Later(c, Clear);
  }

  /** The file has not been read to its end; or a Check is past its test of mCancel and the image
      is not complete. */
  predicate CancelComesBadly(c: Channel) {
    if c.mode.FileStream? then c.position < c.size else c.reader.RPassed? && c.progress < c.size
  }

  /** The exact condition.  At the moment a Cancel raises the flag, some continuation leaves a
      reader waiting with the flag down: for a file stream, if and only if the file has not been
      read to its end (the Read that answers the Cancel takes the flag down, and the next one
      waits); for an image, if and only if a Check is past its test of mCancel and the image is
      not complete. */
  lemma CancelStrandsExactly(c: Channel, es: seq<Event>)
    requires Initial(c) && Legal(c, es) && Exec(c, es).canceller.CMarked?
    ensures var d := Exec(c, es);
            CanStrand(Apply(d, RaiseCancel)) <==> CancelComesBadly(d)
  {
    RunKeepsInv(c, es);
    RunKeepsInside(c, es);
    var d := Exec(c, es);
    var r := Apply(d, RaiseCancel);
    if d.mode.FileStream? && d.position < d.size {
      NextReadStrands(r);
    } else if d.mode.Image? && d.reader.RPassed? && d.progress < d.size {
      LateCheckStrands(r);
    } else {
      forall later | Legal(r, later)
        ensures !Stranded(Exec(r, later))
      {
        StaysSafe(r, later);
      }
    }
  }

  // ---- Read's copy block in detail ----

  /** The block reads mProgressSize three times: for the length of the copy, for *pcbRead and for
      the new position.  The caller gets count bytes of target; what was not copied is whatever
      was there before. */
  function CopyBlock(buffer: seq<byte>, target: seq<byte>, position: nat, p1: nat, p2: nat, p3: nat)
    : (seq<byte>, nat)
    requires position <= p1 <= p2 <= p3 <= |buffer| && |target| >= |buffer|
  {
    var filled := buffer[position..p1] + target[p1 - position..];
    (filled[..p2 - position], p3)
  }

  /** The caller gets exactly the bytes from the old position to the new one, whatever its memory
      held before. */
  ghost predicate ExactCopy(buffer: seq<byte>, position: nat, p1: nat, p2: nat, p3: nat)
    requires position <= p1 <= p2 <= p3 <= |buffer|
  {
    forall target: seq<byte> :: |target| == |buffer| ==>
      CopyBlock(buffer, target, position, p1, p2, p3) == (buffer[position..p3], p3)
  }

  /** It does exactly when the three reads see the same progress. */
  lemma CopyBlockExact(buffer: seq<byte>, position: nat, p1: nat, p2: nat, p3: nat)
    requires position <= p1 <= p2 <= p3 <= |buffer|
    ensures ExactCopy(buffer, position, p1, p2, p3) <==> p1 == p2 == p3
  {
    if p1 < p2 {
      var other: byte := if buffer[p1] == 0 then 1 else 0;
      var target: seq<byte> := seq(|buffer|, _ => other);
      var got := CopyBlock(buffer, target, position, p1, p2, p3).0;
      assert got[p1 - position] == other;
      assert p2 == p3 ==> buffer[position..p3][p1 - position] == buffer[p1];
      assert |target| == |buffer|;
      assert got != buffer[position..p3];
    } else if p2 < p3 {
      var target: seq<byte> := seq(|buffer|, _ => 0);
      assert |target| == |buffer|;
      assert |CopyBlock(buffer, target, position, p1, p2, p3).0| < |buffer[position..p3]|;
    } else {
      forall target: seq<byte> | |target| == |buffer|
        ensures CopyBlock(buffer, target, position, p1, p2, p3) == (buffer[position..p3], p3)
      {
      }
    }
  }

  /** Steps of the writer and of Cancel. */
  predicate NoReader(es: seq<Event>) {
    forall i :: 0 <= i < |es| ==> es[i].Copy? || es[i].Advance? || es[i].Raise? || es[i].Mark? || es[i].RaiseCancel?
  }

  predicate NoAdvance(es: seq<Event>) {
    forall i :: 0 <= i < |es| ==> !es[i].Advance?
  }

  lemma BesideReader(c: Channel, e: Event)
    requires Enabled(c, e) && NoReader([e])
    ensures var d := Apply(c, e);
            && d.size == c.size && d.position == c.position && d.buffer[..c.progress] == c.buffer[..c.progress]
            && (if e.Advance? then d.progress > c.progress else d.progress == c.progress)
  {
    assert NoReader([e]) ==> [e][0] == e;
  }

  lemma FirstAndLater(es: seq<Event>)
    requires es != []
    ensures NoReader(es) ==> NoReader([es[0]]) && NoReader(es[1..])
    ensures NoAdvance(es) <==> !es[0].Advance? && NoAdvance(es[1..])
  {
    forall i | 0 <= i < |es| && NoAdvance(es[1..]) && !es[0].Advance?
      ensures !es[i].Advance?
    {
      assert i > 0 ==> es[i] == es[1..][i - 1];
    }
  }

  lemma PrefixOfPrefix<T>(a: seq<T>, b: seq<T>, m: nat, n: nat)
    requires m <= n <= |a| && n <= |b| && a[..n] == b[..n]
    ensures a[..m] == b[..m]
  {
    assert a[..m] == a[..n][..m] && b[..m] == b[..n][..m];
  }

  /** While the reader is held up, the progress moves exactly by the writer's advances and what was
      there to be read stays. */
  lemma {:induction false} BesideReaders(c: Channel, es: seq<Event>)
    requires Legal(c, es) && NoReader(es)
    ensures var d := Exec(c, es);
            && d.size == c.size && d.position == c.position && c.progress <= d.progress
            && d.buffer[..c.progress] == c.buffer[..c.progress]
            && (d.progress == c.progress <==> NoAdvance(es))
    decreases |es|
  {
    hide Apply, Enabled, NoReader, NoAdvance;
    if es != [] {
      var next := Apply(c, es[0]);
      FirstAndLater(es);
      BesideReader(c, es[0]);
      BesideReaders(next, es[1..]);
      PrefixOfPrefix(Exec(c, es).buffer, next.buffer, c.progress, next.progress);
    } else {
      NothingAdvances();
    }
  }

  lemma NothingAdvances()
    ensures NoAdvance([])
  {
  }

  /** The copy block in the step system.  A Read has cleared the flag and found no Cancel; between
      the first and the second evaluation of mProgressSize the steps first happen, between the
      second and the third the steps second.  The caller gets exactly the bytes from the old
      position to the new one, whatever its memory held before, if and only if no Advance falls
      between the evaluations. */
  lemma CopyBlockUndisturbed(c: Channel, first: seq<Event>, second: seq<Event>)
    requires c.reader.RCleared? && c.mode.FileStream?
    requires Legal(c, first) && NoReader(first)
    requires Legal(Exec(c, first), second) && NoReader(second)
    ensures var d := Exec(c, first); var e := Exec(d, second);
            && c.position <= c.progress <= d.progress <= e.progress <= |e.buffer|
            && e.buffer[..c.progress] == c.buffer[..c.progress]
            && (ExactCopy(e.buffer, c.position, c.progress, d.progress, e.progress) <==> NoAdvance(first) && NoAdvance(second))
  {
    hide Exec, Legal, NoReader, NoAdvance, ExactCopy;
    BesideReaders(c, first);
    var d := Exec(c, first);
    BesideReaders(d, second);
    var e := Exec(d, second);
    PrefixOfPrefix(e.buffer, d.buffer, c.progress, d.progress);
    CopyBlockExact(e.buffer, c.position, c.progress, d.progress, e.progress);
  }

  // ---- The file stream object ----

  lemma FirstStep(c: Channel, e: Event, later: seq<Event>)
    requires Enabled(c, e) && Legal(Apply(c, e), later)
    ensures Legal(c, [e] + later) && Exec(c, [e] + later) == Exec(Apply(c, e), later)
  {
    hide Apply, Enabled;
    assert ([e] + later)[1..] == later;
  }

  lemma NoStep(c: Channel)
    ensures Legal(c, []) && Exec(c, []) == c
  {
  }

  lemma TwoSteps(c: Channel, e: Event, f: Event)
    requires Enabled(c, e) && Enabled(Apply(c, e), f)
    ensures Legal(c, [e, f]) && Exec(c, [e, f]) == Apply(Apply(c, e), f)
  {
    hide Apply, Enabled, Exec, Legal;
    NoStep(Apply(Apply(c, e), f));
    FirstStep(Apply(c, e), f, []);
    FirstStep(c, e, [f] + []);
    assert [e] + ([f] + []) == [e, f];
  }

  lemma ThreeSteps(c: Channel, e: Event, f: Event, g: Event)
    requires Enabled(c, e) && Enabled(Apply(c, e), f) && Enabled(Apply(Apply(c, e), f), g)
    ensures Legal(c, [e, f, g]) && Exec(c, [e, f, g]) == Apply(Apply(Apply(c, e), f), g)
  {
    hide Apply, Enabled, Exec, Legal;
    TwoSteps(Apply(c, e), f, g);
    FirstStep(c, e, [f, g]);
    assert [e] + [f, g] == [e, f, g];
  }

  lemma FourSteps(c: Channel, e: Event, f: Event, g: Event, h: Event)
    requires Enabled(c, e) && Enabled(Apply(c, e), f) && Enabled(Apply(Apply(c, e), f), g)
    requires Enabled(Apply(Apply(Apply(c, e), f), g), h)
    ensures Legal(c, [e, f, g, h]) && Exec(c, [e, f, g, h]) == Apply(Apply(Apply(Apply(c, e), f), g), h)
  {
    hide Apply, Enabled, Exec, Legal;
    ThreeSteps(Apply(c, e), f, g, h);
    FirstStep(c, e, [f, g, h]);
    assert [e] + [f, g, h] == [e, f, g, h];
  }

  /** One undisturbed WriteFile. */
  lemma WriteIs(c: Channel, data: seq<byte>)
    requires c.writer.WIdle? && Fits(c, data) && Enabled(c, Copy(data))
    ensures Legal(c, [Copy(data), Advance, Raise])
    ensures Exec(c, [Copy(data), Advance, Raise])
         == c.(buffer := c.buffer[..c.progress] + data + c.buffer[c.progress + |data|..],
               progress := c.progress + |data|, accepted := c.accepted + data, flag := true)
  {
    hide Exec, Legal;
    ThreeSteps(c, Copy(data), Advance, Raise);
  }

  // ---- All of it arrives ----

  lemma {:induction false} Joins(c: Channel, first: seq<Event>, later: seq<Event>)
    requires Legal(c, first) && Legal(Exec(c, first), later)
    ensures Legal(c, first + later) && Exec(c, first + later) == Exec(Exec(c, first), later)
    decreases |first|
  {
    hide Apply, Enabled;
    if first == [] {
      assert first + later == later;
    } else {
      Joins(Apply(c, first[0]), first[1..], later);
      assert (first + later)[1..] == first[1..] + later;
    }
  }

  function Concat(chunks: seq<seq<byte>>): seq<byte> {
    if chunks == [] then [] else chunks[0] + Concat(chunks[1..])
  }

  /** Nobody is inside a call, nobody has cancelled, and the reader has all that was accepted. */
  predicate Level(c: Channel) {
    && c.writer.WIdle? && c.reader.RIdle? && c.canceller.CIdle? && !c.cancel
    && c.position == c.progress && c.delivered == c.accepted
  }

  /** One undisturbed call of the reader that finds the flag up and no Cancel. */
  lemma ReadIs(c: Channel) returns (es: seq<Event>)
    requires c.reader.RIdle? && c.flag && !c.cancel && c.position < c.size
    ensures Legal(c, es)
    ensures Exec(c, es) == c.(delivered := c.delivered + c.buffer[c.position..c.progress], position := c.progress, flag := false)
  {
    hide Exec, Legal;
    var b := Apply(c, Begin);
    if c.mode.Image? {
      FourSteps(b, See, Test, Clear, Take);
      es := [See, Test, Clear, Take];
    } else {
      ThreeSteps(b, See, Clear, Take);
      es := [See, Clear, Take];
    }
    FirstStep(c, Begin, es);
    es := [Begin] + es;
  }

  /** A chunk that fits is written, and read. */
  lemma ChunkPasses(c: Channel, data: seq<byte>) returns (es: seq<Event>)
    requires Level(c) && c.progress + |data| <= c.size
    ensures Legal(c, es)
    ensures var d := Exec(c, es);
            && Level(d) && d.mode == c.mode && d.size == c.size && d.accepted == c.accepted + data
            && d.progress == c.progress + |data|
  {
    hide Exec, Legal;
    if data == [] {
      NoStep(Apply(c, Copy([])));
      FirstStep(c, Copy([]), []);
      es := [Copy([])] + [];
      assert c.accepted + data == c.accepted;
    } else {
      var write := [Copy(data), Advance, Raise];
      WriteIs(c, data);
      var d := Exec(c, write);
      assert d.buffer[d.position..d.progress] == data;
      var read := ReadIs(d);
      Joins(c, write, read);
      es := write + read;
    }
  }

  lemma {:induction false} ChunksPass(c: Channel, chunks: seq<seq<byte>>) returns (es: seq<Event>)
    requires Level(c) && c.progress + |Concat(chunks)| <= c.size
    ensures Legal(c, es)
    ensures var d := Exec(c, es);
            && Level(d) && d.mode == c.mode && d.size == c.size && d.accepted == c.accepted + Concat(chunks)
            && d.progress == c.progress + |Concat(chunks)|
    decreases |chunks|
  {
    hide Exec, Legal, Level;
    if chunks == [] {
      es := [];
      NoStep(c);
      assert c.accepted + Concat(chunks) == c.accepted;
    } else {
      var first := ChunkPasses(c, chunks[0]);
      var d := Exec(c, first);
      assert d.accepted + Concat(chunks[1..]) == c.accepted + Concat(chunks);
      var later := ChunksPass(d, chunks[1..]);
      Joins(c, first, later);
      es := first + later;
    }
  }

  /** However the bytes are cut into chunks that together fill the buffer, the last one included,
      there is a run in which all of them are accepted and read, and after which GetImg has left
      its loop. */
  lemma WholeArrives(c: Channel, chunks: seq<seq<byte>>) returns (es: seq<Event>)
    requires Initial(c) && |Concat(chunks)| == c.size
    ensures Legal(c, es)
    ensures var d := Exec(c, es);
            && d.accepted == d.delivered == Concat(chunks) && d.position == c.size && !d.cancel
            && (c.mode.Image? <==> d.reader.REnded?)
  {
    hide Exec, Legal;
    var first := ChunksPass(c, chunks);
    var d := Exec(c, first);
    assert c.accepted + Concat(chunks) == Concat(chunks);
    NoStep(Apply(d, Begin));
    FirstStep(d, Begin, []);
    Joins(c, first, [Begin] + []);
    es := first + ([Begin] + []);
  }

  /** MSStream with both threads between two calls. */
  class MSStream {
    const m_pBuffer: array<byte>
    var mProgressSize: nat
    var mPosition: nat
    var mWaitDataFlag: bool
    var mCancel: bool
    ghost var accepted: seq<byte>
    ghost var delivered: seq<byte>
    ghost var gaveUp: bool

    constructor (fileSize: uint32)
      ensures fresh(m_pBuffer) && Valid() && Initial(Now()) && Now().mode == FileStream && Now().size == fileSize
    {
      m_pBuffer := new byte[fileSize](_ => 0);
      mProgressSize, mPosition, mWaitDataFlag, mCancel := 0, 0, false, false;
      accepted, delivered, gaveUp := [], [], false;
    }

    ghost predicate Valid()
      reads this
    {
      mPosition <= mProgressSize <= m_pBuffer.Length < 0x1_0000_0000
    }

    ghost function Now(): Channel
      reads this, m_pBuffer
      requires Valid()
    {
      Channel(FileStream, m_pBuffer.Length, m_pBuffer[..], mProgressSize, mPosition, mWaitDataFlag, mCancel,
              WIdle, RIdle, CIdle, accepted, delivered, gaveUp, false)
    }

    method WriteFile(data: seq<byte>)
      requires Valid() && |data| < 0x1_0000_0000 && !Overruns(mProgressSize, m_pBuffer.Length, |data|)
      modifies this, m_pBuffer
      ensures Valid()
      ensures data == [] || old(mProgressSize) + |data| > m_pBuffer.Length ==> Now() == old(Now())
      ensures data != [] && old(mProgressSize) + |data| <= m_pBuffer.Length ==>
                && mProgressSize == old(mProgressSize) + |data| && mWaitDataFlag
                && accepted == old(accepted) + data
                && m_pBuffer[old(mProgressSize)..mProgressSize] == data
                && m_pBuffer[..old(mProgressSize)] == old(m_pBuffer[..mProgressSize])
                && m_pBuffer[mProgressSize..] == old(m_pBuffer[..])[mProgressSize..]
                && Legal(old(Now()), [Copy(data), Advance, Raise])
                && Now() == Exec(old(Now()), [Copy(data), Advance, Raise])
    {
      hide Exec, Legal, Apply;
      if |data| == 0 {
        return;
      }
      SizeCheckExact(mProgressSize, m_pBuffer.Length, |data|);
      if Sum32(mProgressSize, |data|) > m_pBuffer.Length {
        return;
      }
      ghost var c := Now();
      CopyInto(m_pBuffer, mProgressSize, data);
      assert m_pBuffer[..] == c.buffer[..c.progress] + data + c.buffer[c.progress + |data|..];
      mProgressSize := mProgressSize + |data|;
      accepted := accepted + data;
      mWaitDataFlag := true;
      WriteIs(c, data);
    }

    /** Read, when its wait for data is over or not needed.  ok is S_OK. */
    method Read() returns (ok: bool, data: seq<byte>)
      requires Valid() && (mPosition < m_pBuffer.Length ==> mWaitDataFlag)
      modifies this
      ensures Valid()
      ensures old(mPosition >= m_pBuffer.Length) ==> !ok && data == [] && Now() == old(Now())
      ensures old(mPosition < m_pBuffer.Length) ==>
                && ok == !old(mCancel)
                && Legal(Apply(old(Now()), Begin), [See, Clear, Take])
                && Now() == Exec(Apply(old(Now()), Begin), [See, Clear, Take])
                && Now().delivered == old(delivered) + data
    {
      data := [];
      if mPosition >= m_pBuffer.Length {
        return false, [];
      }
      ghost var c := Now();
      assert mWaitDataFlag;
      mWaitDataFlag := false;
      ThreeSteps(Apply(c, Begin), See, Clear, Take);
      if mCancel {
        gaveUp := true;
        assert delivered + data == delivered;
        return false, data;
      }
      data := m_pBuffer[mPosition..mProgressSize];
      assert data == c.buffer[c.position..c.progress];
      delivered := delivered + data;
      mPosition := mProgressSize;
      return true, data;
    }

    method Cancel()
      requires Valid()
      modifies this
      ensures Valid() && mCancel && mWaitDataFlag
      ensures Now() == old(Now()).(cancel := true, flag := true)
    {
      mCancel := true;
      mWaitDataFlag := true;
    }
  }

  /** MSImgHandler with both threads between two calls. */
  class MSImgHandler {
    // The picture part of the global memory block.
    const mLpDib: array<byte>
    var mProgressSize: nat
    var mPosition: nat
    var mWaitDataFlag: bool
    var mCancel: bool
    ghost var reader: Reader
    ghost var accepted: seq<byte>
    ghost var delivered: seq<byte>

    constructor (fileSize: uint32)
      ensures fresh(mLpDib) && Valid() && Initial(Now()) && Now().mode == Image && Now().size == fileSize
    {
      mLpDib := new byte[fileSize](_ => 0);
      mProgressSize, mPosition, mWaitDataFlag, mCancel := 0, 0, false, false;
      reader, accepted, delivered := RIdle, [], [];
    }

    ghost predicate Valid()
      reads this
    {
      mPosition <= mProgressSize <= mLpDib.Length < 0x1_0000_0000 && (reader.RIdle? || reader.REnded?)
    }

    ghost function Now(): Channel
      reads this, mLpDib
      requires Valid()
    {
      Channel(Image, mLpDib.Length, mLpDib[..], mProgressSize, mPosition, mWaitDataFlag, mCancel,
              WIdle, reader, CIdle, accepted, delivered, false, false)
    }

    method WriteFile(data: seq<byte>)
      requires Valid() && |data| < 0x1_0000_0000 && !Overruns(mProgressSize, mLpDib.Length, |data|)
      modifies this, mLpDib
      ensures Valid()
      ensures data == [] || old(mProgressSize) + |data| > mLpDib.Length ==> Now() == old(Now())
      ensures data != [] && old(mProgressSize) + |data| <= mLpDib.Length ==>
                && mProgressSize == old(mProgressSize) + |data| && mWaitDataFlag
                && accepted == old(accepted) + data
                && mLpDib[old(mProgressSize)..mProgressSize] == data
                && mLpDib[..old(mProgressSize)] == old(mLpDib[..mProgressSize])
                && mLpDib[mProgressSize..] == old(mLpDib[..])[mProgressSize..]
                && Legal(old(Now()), [Copy(data), Advance, Raise])
                && Now() == Exec(old(Now()), [Copy(data), Advance, Raise])
    {
      hide Exec, Legal, Apply;
      if |data| == 0 {
        return;
      }
      SizeCheckExact(mProgressSize, mLpDib.Length, |data|);
      if Sum32(mProgressSize, |data|) > mLpDib.Length {
        return;
      }
      ghost var c := Now();
      CopyInto(mLpDib, mProgressSize, data);
      assert mLpDib[..] == c.buffer[..c.progress] + data + c.buffer[c.progress + |data|..];
      mProgressSize := mProgressSize + |data|;
      accepted := accepted + data;
      mWaitDataFlag := true;
      WriteIs(c, data);
    }

    /** Check, when its wait for data is over or not needed; goesOn keeps GetImg in its loop. */
    method Check() returns (goesOn: bool)
      requires Valid() && reader.RIdle? && (mPosition < mLpDib.Length ==> mWaitDataFlag)
      modifies this
      ensures Valid() && goesOn == (old(mPosition) < mLpDib.Length && !old(mCancel))
      ensures goesOn <==> reader.RIdle?
      ensures var c := Apply(old(Now()), Begin);
              if goesOn then
                Legal(c, [See, Test, Clear, Take]) && Now() == Exec(c, [See, Test, Clear, Take])
              else if old(mPosition) < mLpDib.Length then
                Legal(c, [See, Test]) && Now() == Exec(c, [See, Test])
              else Now() == c
    {
      ghost var c := Now();
      if mPosition >= mLpDib.Length {
        reader := REnded;
        return false;
      }
      assert mWaitDataFlag;
      if mCancel {
        TwoSteps(Apply(c, Begin), See, Test);
        reader := REnded;
        return false;
      }
      FourSteps(Apply(c, Begin), See, Test, Clear, Take);
      mWaitDataFlag := false;
      delivered := delivered + mLpDib[mPosition..mProgressSize];
      mPosition := mProgressSize;
      return true;
    }

    method Cancel()
      requires Valid()
      modifies this
      ensures Valid() && mCancel && mWaitDataFlag
      ensures Now() == old(Now()).(cancel := true, flag := true)
    {
      mCancel := true;
      mWaitDataFlag := true;
    }
  }
}
