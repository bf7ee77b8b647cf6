// Runs of the two nodes of module TransferPair that do get somewhere: transfers that complete, by
// a paste or by a file drop.
module TransferRuns {
  import opened Bytes
  import opened Transfer
  import opened TransferPair

  /** The steps lead from p to q; with orderly, each of them is orderly. */
  ghost predicate Gets(p: Pair, acts: seq<Act>, q: Pair, orderly: bool) {
    CanRun(p, acts) && Run(p, acts) == q && (orderly ==> OrderlyRun(p, acts))
  }

  lemma GetsNothing(p: Pair)
    ensures Gets(p, [], p, true)
  {
  }

  lemma GetsFirst(p: Pair, a: Act, q: Pair, acts: seq<Act>, r: Pair, orderly: bool)
    requires CanAct(p, a) && Perform(p, a) == q && (orderly ==> Orderly(p, a)) && Gets(q, acts, r, orderly)
    ensures Gets(p, [a] + acts, r, orderly)
  {
    hide Perform, CanAct, Orderly;
    assert ([a] + acts)[1..] == acts;
  }

  lemma {:induction false} Join(p: Pair, first: seq<Act>, q: Pair, second: seq<Act>, r: Pair, orderly: bool)
      returns (all: seq<Act>)
    requires Gets(p, first, q, orderly) && Gets(q, second, r, orderly)
    ensures Gets(p, all, r, orderly) && first <= all
    decreases |first|
  {
    hide Perform, CanAct, Orderly;
    if first == [] {
      all := second;
    } else {
      var next := Perform(p, first[0]);
      var later := Join(next, first[1..], q, second, r, orderly);
      GetsFirst(p, first[0], next, later, r, orderly);
      all := [first[0]] + later;
    }
  }

  /** One more step. */
  lemma AndThen(p: Pair, acts: seq<Act>, q: Pair, a: Act, r: Pair, orderly: bool) returns (all: seq<Act>)
    requires Gets(p, acts, q, orderly) && CanAct(q, a) && Perform(q, a) == r && (orderly ==> Orderly(q, a))
    ensures Gets(p, all, r, orderly) && acts <= all && (acts == [] ==> all == [a])
  {
    hide Perform, CanAct, Orderly, Gets;
    One(q, a, r, orderly);
    all := Join(p, acts, q, [a], r, orderly);
    if acts == [] {
      NothingMoves(p, q, orderly);
      all := [a];
    }
  }

  lemma One(p: Pair, a: Act, q: Pair, orderly: bool)
    requires CanAct(p, a) && Perform(p, a) == q && (orderly ==> Orderly(p, a))
    ensures Gets(p, [a], q, orderly)
  {
    hide Perform, CanAct, Orderly;
    GetsFirst(p, a, q, [], q, orderly);
    assert [a] + [] == [a];
  }

  lemma NothingMoves(p: Pair, q: Pair, orderly: bool)
    requires Gets(p, [], q, orderly)
    ensures p == q
  {
  }

  // ---- Single steps, spelled out ----

  lemma AskIs(p: Pair) returns (a: Act, q: Pair)
    requires p.dst.phase.DestInit? && p.dst.lock.Free? && p.dst.writer.Idle?
    ensures a == Act(AtDst, CallWriter(true)) && CanAct(p, a) && Orderly(p, a) && Perform(p, a) == q
    ensures q == p.(dst := p.dst.(phase := Processing, written := []),
                    toSrc := p.toSrc + [Ctl(Msg(FileReq, p.dst.fmt, p.dst.announced))])
  {
    hide Perform, Raws;
    a := Act(AtDst, CallWriter(true));
    q := Perform(p, a);
    TakesNothing(p, a);
  }

  lemma SrcTakes(p: Pair, m: Msg) returns (acts: seq<Act>, q: Pair)
    requires p.src.phase.Uninit? && p.src.lock.Free? && p.src.reader.Gate? && p.toSrc == [Ctl(m)]
    ensures Gets(p, acts, q, true) && q == p.(src := p.src.(reader := Handling(m)), toSrc := [])
  {
    var a, b := Act(AtSrc, EnterRead), Act(AtSrc, ReadMessage);
    var p1 := p.(src := p.src.(reader := Reading));
    q := p.(src := p.src.(reader := Handling(m)), toSrc := []);
    Silent(p, a);
    SrcReadIs(p1, m);
    hide Perform, CanAct, Gets;
    One(p, a, p1, true);
    acts := AndThen(p, [a], p1, b, q, true);
  }

  lemma SrcReadIs(p: Pair, m: Msg)
    requires p.src.reader.Reading? && p.toSrc == [Ctl(m)]
    ensures var a := Act(AtSrc, ReadMessage);
            CanAct(p, a) && Perform(p, a) == p.(src := p.src.(reader := Handling(m)), toSrc := [])
  {
    assert p.toDst + [] == p.toDst && p.toSrc[1..] == [];
  }

  lemma DstTakes(p: Pair, m: Msg) returns (acts: seq<Act>, q: Pair)
    requires (p.dst.phase.Uninit? || p.dst.phase.Processing?) && p.dst.lock.Free? && p.dst.reader.Gate?
    requires p.toDst == [Ctl(m)]
    ensures Gets(p, acts, q, true) && q == p.(dst := p.dst.(reader := Handling(m)), toDst := [])
  {
    var a, b := Act(AtDst, EnterRead), Act(AtDst, ReadMessage);
    var p1 := p.(dst := p.dst.(reader := Reading));
    q := p.(dst := p.dst.(reader := Handling(m)), toDst := []);
    Silent(p, a);
    DstReadIs(p1, m);
    hide Perform, CanAct, Gets;
    One(p, a, p1, true);
    acts := AndThen(p, [a], p1, b, q, true);
  }

  lemma DstReadIs(p: Pair, m: Msg)
    requires p.dst.reader.Reading? && p.toDst == [Ctl(m)]
    ensures var a := Act(AtDst, ReadMessage);
            CanAct(p, a) && Perform(p, a) == p.(dst := p.dst.(reader := Handling(m)), toDst := [])
  {
    assert p.toSrc + [] == p.toSrc && p.toDst[1..] == [];
  }

  lemma OpenIs(p: Pair) returns (a: Act, q: Pair)
    requires p.src.reader.Opening? && (p.src.reader.fmt.FileFmt? ==> p.src.file.Some?)
    ensures a == Act(AtSrc, Open) && CanAct(p, a) && Orderly(p, a) && Perform(p, a) == q
    ensures q == p.(src := p.src.(reader := Sending(PayloadOf(p.src, p.src.reader.fmt))))
  {
    hide Perform, Raws;
    a := Act(AtSrc, Open);
    q := Perform(p, a);
    Silent(p, a);
  }

  lemma HearsAckIs(p: Pair) returns (a: Act, q: Pair)
    requires p.dst.phase.Processing? && p.dst.lock.Free? && p.dst.reader == Handling(ACK.msg)
    ensures a == Act(AtDst, Handle(true, false, false)) && CanAct(p, a) && Orderly(p, a) && Perform(p, a) == q
    ensures q == p.(dst := p.dst.(reader := Gate, phase := ProcessingAck))
  {
    hide Perform, Raws, Pasted;
    a := Act(AtDst, Handle(true, false, false));
    q := Perform(p, a);
    Silent(p, a);
  }

  lemma EntersLoop(p: Pair) returns (a: Act, q: Pair)
    requires p.dst.phase.ProcessingAck? && p.dst.lock.Free? && p.dst.writer.Idle?
    ensures a == Act(AtDst, CallWriter(true)) && CanAct(p, a) && Orderly(p, a) && Perform(p, a) == q
    ensures q == p.(dst := p.dst.(lock := WriterHolds, writer := Receiving(p.dst.announced, 0)))
  {
    hide Perform, Raws;
    a := Act(AtDst, CallWriter(true));
    q := Perform(p, a);
    Silent(p, a);
  }

  lemma PartIs(n: Node, k: nat, inbox: seq<Cell>)
    requires n.reader.Sending? && 1 <= k <= |n.reader.left|
    ensures Enabled(n, SendPart(k), inbox)
    ensures Apply(n, SendPart(k), inbox) == Effect(n.(reader := Sending(n.reader.left[k..])), 0, Raws(n.reader.left[..k]))
  {
    hide Raws;
  }

  lemma SendIsOrderly(p: Pair, n: nat)
    ensures Orderly(p, Act(AtSrc, SendPart(n)))
  {
  }

  lemma PartGoes(p: Pair, k: nat)
    requires p.src.reader.Sending? && 1 <= k <= |p.src.reader.left|
    ensures var a := Act(AtSrc, SendPart(k)); var left := p.src.reader.left;
            CanAct(p, a) && Perform(p, a) == p.(src := p.src.(reader := Sending(left[k..])), toDst := p.toDst + Raws(left[..k]))
  {
    var a := Act(AtSrc, SendPart(k));
    PartIs(p.src, k, p.toSrc);
    hide Apply, Enabled, Raws, Perform;
    assert NodeAt(p, a.side) == p.src && Inbox(p, a.side) == p.toSrc;
    TakesNothing(p, a);
  }

  /** The first k bytes go onto an empty socket. */
  lemma Sends(p: Pair, k: nat) returns (acts: seq<Act>, q: Pair)
    requires p.src.reader.Sending? && k <= |p.src.reader.left| && p.toDst == []
    ensures Gets(p, acts, q, true)
    ensures q == p.(src := p.src.(reader := Sending(p.src.reader.left[k..])), toDst := Raws(p.src.reader.left[..k]))
  {
    var left := p.src.reader.left;
    q := p.(src := p.src.(reader := Sending(left[k..])), toDst := Raws(left[..k]));
    if k == 0 {
      GetsNothing(p);
      acts := [];
      assert left[0..] == left && Raws(left[..0]) == [];
    } else {
      PartGoes(p, k);
      JoinsNothing(p.toDst, Raws(left[..k]));
      SendIsOrderly(p, k);
      hide Perform, CanAct, Raws, Orderly, Gets;
      acts := [Act(AtSrc, SendPart(k))];
      One(p, acts[0], q, true);
    }
  }

  // ---- Up to the acknowledgement ----

  /** The receiver's user has accepted; both nodes are free, and the sender has what to send. */
  predicate Askable(p: Pair) {
    && p.dst.phase.DestInit? && p.dst.lock.Free? && p.dst.reader.Gate? && p.dst.writer.Idle?
    && p.src.phase.Uninit? && p.src.lock.Free? && p.src.reader.Gate?
    && p.toDst == [] && p.toSrc == []
    && (p.dst.fmt.FileFmt? ==> p.src.file.Some?)
  }

  /** Before the payload loop of the receiver, with the sender inside its copying. */
  predicate Acked(p: Pair) {
    && p.dst.phase.ProcessingAck? && p.dst.lock.Free? && p.dst.reader.Gate? && p.dst.writer.Idle?
    && p.src.reader.Sending?
    && p.toDst == []
  }

  /** An acknowledged transfer with payload still to be sent. */
  predicate Acknowledged(p: Pair) {
    Acked(p) && p.src.reader.left != []
  }

  lemma StartsIs(p: Pair) returns (a: Act, q: Pair)
    requires p.src.phase.Uninit? && p.src.lock.Free? && p.src.reader.Handling? && p.src.reader.msg.cmd == FileReq
    requires p.toDst == []
    ensures CanAct(p, a) && Orderly(p, a) && Perform(p, a) == q
    ensures q == p.(src := p.src.(phase := SrcInit, lock := ReaderHolds, reader := Opening(p.src.reader.msg.fmt)), toDst := [ACK])
  {
    a := Act(AtSrc, Handle(true, false, false));
    StartIs(p, false, false);
    hide Perform, Raws;
    q := Perform(p, a);
    JoinsNothing(p.toDst, [ACK]);
  }

  lemma Answers(p: Pair) returns (acts: seq<Act>, q: Pair)
    requires p.src.phase.Uninit? && p.src.lock.Free? && p.src.reader.Handling? && p.src.reader.msg.cmd == FileReq
    requires p.src.reader.msg.fmt.FileFmt? ==> p.src.file.Some?
    requires p.toDst == []
    ensures Gets(p, acts, q, true) && q.dst == p.dst && q.toDst == [ACK] && q.toSrc == p.toSrc
    ensures q.src.reader == Sending(PayloadOf(p.src, p.src.reader.msg.fmt))
  {
    hide Perform, CanAct, Orderly, Gets, Raws;
    var a, p1 := StartsIs(p);
    var b;
    b, q := OpenIs(p1);
    One(p, a, p1, true);
    acts := AndThen(p, [a], p1, b, q, true);
  }

  /** The request goes out and is answered. */
  lemma RequestGoes(p: Pair) returns (acts: seq<Act>, q: Pair)
    requires Askable(p)
    ensures Gets(p, acts, q, true)
    ensures q.dst == p.dst.(phase := Processing, written := []) && q.toDst == [ACK]
    ensures q.src.reader == Sending(PayloadOf(p.src, p.dst.fmt))
  {
    var a, p1 := AskIs(p);
    JoinsRequest(p);
    hide Gets, Perform, CanAct, Orderly, Raws;
    var b, p2 := SrcTakes(p1, Msg(FileReq, p.dst.fmt, p.dst.announced));
    var c;
    c, q := Answers(p2);
    One(p, a, p1, true);
    acts := Join(p, [a], p1, b, p2, true);
    acts := Join(p, acts, p2, c, q, true);
  }

  lemma Asks(p: Pair) returns (acts: seq<Act>, q: Pair)
    requires Askable(p)
    ensures Gets(p, acts, q, true) && Acked(q)
    ensures q.dst.announced == p.dst.announced && q.src.reader.left == PayloadOf(p.src, p.dst.fmt)
  {
    hide Gets, Perform, CanAct, Orderly, Raws;
    var a, p1 := RequestGoes(p);
    var b, p2 := DstTakes(p1, ACK.msg);
    var c;
    c, q := HearsAckIs(p2);
    acts := Join(p, a, p1, b, p2, true);
    acts := AndThen(p, acts, p2, c, q, true);
  }

  lemma JoinsRequest(p: Pair)
    requires p.toSrc == []
    ensures p.toSrc + [Ctl(Msg(FileReq, p.dst.fmt, p.dst.announced))] == [Ctl(Msg(FileReq, p.dst.fmt, p.dst.announced))]
  {
  }

  lemma Accepts(p: Pair)
    requires AtRest(p)
    ensures var a := Act(AtDst, UserAccept);
            CanAct(p, a) && Orderly(p, a) && Perform(p, a) == p.(dst := p.dst.(phase := DestInit))
  {
    AcceptIs(p);
  }

  /** Every transfer whose file opens can get as far as that. */
  lemma AcknowledgedIsReachable(p: Pair, payload: seq<byte>) returns (acts: seq<Act>, q: Pair)
    requires Ready(p, payload) && (p.dst.fmt.FileFmt? ==> p.src.file.Some?)
    ensures Gets(p, acts, q, true) && Acked(q) && Inv(q, DealOf(p, payload))
    ensures q.dst.announced == |payload| && q.src.reader.left == payload
  {
    var a := Act(AtDst, UserAccept);
    var p1 := p.(dst := p.dst.(phase := DestInit));
    Accepts(p);
    ReadyInv(p, payload);
    hide Inv, Perform, CanAct, Orderly;
    var on;
    on, q := Asks(p1);
    One(p, a, p1, true);
    acts := Join(p, [a], p1, on, q, true);
    var _ := RunKeepsInv(p, acts, DealOf(p, payload));
  }

  // ---- Through the payload loop ----

  lemma ChunkIs(p: Pair, rest: seq<byte>, tail: seq<Cell>, k: nat) returns (a: Act, q: Pair)
    requires p.dst.writer.Receiving? && p.dst.writer.got + |rest| == p.dst.writer.total && p.toDst == Raws(rest) + tail
    requires 1 <= k <= |rest| && k <= MAX_CHUNK
    ensures a == Act(AtDst, Receive(k, k)) && CanAct(p, a) && Orderly(p, a) && Perform(p, a) == q
    ensures q == p.(dst := p.dst.(written := p.dst.written + Raws(rest[..k]),
                                  writer := Receiving(p.dst.writer.total, p.dst.writer.got + k)),
                    toDst := Raws(rest[k..]) + tail)
  {
    a := Act(AtDst, Receive(k, k));
    TakesRaws(rest, tail, k);
    assert AllRaw(p.toDst[..k]) && p.toDst[..k][0].Raw?;
    q := Perform(p, a);
    assert p.toSrc + [] == p.toSrc;
  }

  lemma TakesRaws(rest: seq<byte>, tail: seq<Cell>, k: nat)
    requires k <= |rest|
    ensures (Raws(rest) + tail)[..k] == Raws(rest[..k]) && (Raws(rest) + tail)[k..] == Raws(rest[k..]) + tail
  {
    assert Raws(rest)[k..] == Raws(rest[k..]) && Raws(rest)[..k] == Raws(rest[..k]);
  }

  lemma WrittenTwice(written: seq<Cell>, rest: seq<byte>, k: nat)
    requires k <= |rest|
    ensures written + Raws(rest[..k]) + Raws(rest[k..]) == written + Raws(rest)
  {
    RawsSplit(rest, k);
  }

  /** The payload in flight to a receiver in its loop is received, chunk by chunk. */
  lemma {:induction false} Receives(p: Pair, rest: seq<byte>, tail: seq<Cell>) returns (acts: seq<Act>, q: Pair)
    requires p.dst.writer.Receiving? && p.dst.writer.got + |rest| == p.dst.writer.total && p.toDst == Raws(rest) + tail
    ensures Gets(p, acts, q, true)
    ensures q == p.(dst := p.dst.(written := p.dst.written + Raws(rest),
                                  writer := Receiving(p.dst.writer.total, p.dst.writer.total)), toDst := tail)
    decreases |rest|
  {
    if rest == [] {
      q, acts := p, [];
      GetsNothing(p);
      assert p.dst.written + Raws(rest) == p.dst.written && Raws(rest) + tail == tail;
    } else {
      var k := if |rest| <= MAX_CHUNK then |rest| else MAX_CHUNK;
      hide Perform, CanAct, Orderly, Gets, Raws;
      var a, next := ChunkIs(p, rest, tail, k);
      var later;
      later, q := Receives(next, rest[k..], tail);
      WrittenTwice(p.dst.written, rest, k);
      One(p, a, next, true);
      acts := Join(p, [a], next, later, q, true);
    }
  }

  /** And then the loop ends. */
  lemma ReceivesAll(p: Pair, rest: seq<byte>) returns (acts: seq<Act>, q: Pair)
    requires p.dst.writer.Receiving? && p.dst.writer.got + |rest| == p.dst.writer.total && p.toDst == Raws(rest)
    ensures Gets(p, acts, q, true)
    ensures q == p.(dst := Closed(p.dst.(written := p.dst.written + Raws(rest)), Completed), toDst := [])
  {
    AddsNothing(Raws(rest), []);
    var a, p1 := Receives(p, rest, []);
    EndIs(p1);
    q := p1.(dst := Closed(p1.dst, Completed));
    hide Perform, CanAct, Gets, Raws, Orderly;
    acts := AndThen(p, a, p1, Act(AtDst, ReceiveEnds), q, true);
  }

  lemma EndIs(p: Pair)
    requires p.dst.writer.Receiving? && p.dst.writer.got >= p.dst.writer.total
    ensures var a := Act(AtDst, ReceiveEnds);
            CanAct(p, a) && Orderly(p, a) && Perform(p, a) == p.(dst := Closed(p.dst, Completed))
  {
    CompletesIs(p);
    hide Perform;
  }

  /** Inside its loop a receiver that waits for size gets as much of the payload and takes the
      transfer for complete. */
  lemma CompletesInLoop(p: Pair) returns (acts: seq<Act>, q: Pair)
    requires p.dst.writer.Receiving? && p.dst.writer.got == 0 && p.toDst == []
    requires p.src.reader.Sending? && p.dst.writer.total <= |p.src.reader.left|
    ensures Gets(p, acts, q, true)
    ensures var size := p.dst.writer.total; var left := p.src.reader.left;
            q == p.(dst := Closed(p.dst.(written := p.dst.written + Raws(left[..size])), Completed),
                    src := p.src.(reader := Sending(left[size..])), toDst := [])
  {
    hide Gets, Perform, CanAct, Orderly, Raws;
    var left, size := p.src.reader.left, p.dst.writer.total;
    var a, p1 := Sends(p, size);
    var b;
    b, q := ReceivesAll(p1, left[..size]);
    acts := Join(p, a, p1, b, q, true);
  }

  /** A receiver that was told size gets as much of an acknowledged payload and takes the transfer
      for complete. */
  lemma CompletesWith(p: Pair) returns (acts: seq<Act>, q: Pair)
    requires Acked(p) && p.dst.announced <= |p.src.reader.left|
    ensures Gets(p, acts, q, true) && q.dst.outcome == Completed
    ensures var size := p.dst.announced; var left := p.src.reader.left;
            && q.dst.written == p.dst.written + Raws(left[..size])
            && q.dst.phase.Uninit? && q.dst.lock.Free? && q.dst.reader.Gate?
            && q.src == p.src.(reader := Sending(left[size..])) && q.toDst == []
  {
    hide Gets, Perform, CanAct, Orderly, Raws;
    var a, p1 := EntersLoop(p);
    var b;
    b, q := CompletesInLoop(p1);
    One(p, a, p1, true);
    acts := Join(p, [a], p1, b, q, true);
  }

  /** Every transfer whose file opens can be completed by an orderly run, and then the receiver has
      written the whole source. */
  lemma TransferCanComplete(p: Pair, payload: seq<byte>) returns (acts: seq<Act>, q: Pair)
    requires Ready(p, payload) && (p.dst.fmt.FileFmt? ==> p.src.file.Some?)
    ensures Gets(p, acts, q, true) && q.dst.outcome == Completed && q.dst.written == Raws(payload)
  {
    var first, p1 := AcknowledgedIsReachable(p, payload);
    var second;
    second, q := CompletesWith(p1);
    hide Gets;
    acts := Join(p, first, p1, second, q, true);
    WholeOnceCompleted(p, acts, q, payload);
  }

  lemma WholeOnceCompleted(p: Pair, acts: seq<Act>, q: Pair, payload: seq<byte>)
    requires Ready(p, payload) && Gets(p, acts, q, true) && q.dst.outcome == Completed
    ensures q.dst.written == Raws(payload)
  {
    TwoNodeTransfer(p, acts, payload);
  }

  // ---- A transfer that begins with a copy at the sender ----

  lemma ClipIs(p: Pair, m: Msg)
    requires m.cmd == TextTran
    ensures var a := Act(AtSrc, SendClip(m));
            CanAct(p, a) && Perform(p, a) == p.(src := p.src.(fmt := m.fmt), toDst := p.toDst + [Ctl(m)])
  {
    hide Perform;
    OfferIs(p, Act(AtSrc, SendClip(m)));
  }

  /** A new offer of a file or an image takes over at the receiver: its size is stored, and what the
      receiver had copied itself is gone. */
  lemma HearsOfferIs(p: Pair, fmt: Fmt, size: nat)
    requires p.dst.phase.Uninit? && p.dst.lock.Free? && p.dst.reader == Handling(Msg(TextTran, fmt, size))
    requires fmt == FileFmt || fmt == ImageFmt
    ensures var a := Act(AtDst, Handle(true, true, false));
            CanAct(p, a)
            && Perform(p, a) == p.(dst := p.dst.(reader := Gate, announced := size, fmt := fmt, file := None, image := []))
  {
    hide Perform, Raws;
    Silent(p, Act(AtDst, Handle(true, true, false)));
  }

  /** The sender has offered size bytes of format fmt and the receiver knows. */
  predicate Offered(p: Pair, q: Pair, fmt: Fmt, size: nat) {
    q == p.(src := p.src.(fmt := fmt),
            dst := p.dst.(announced := size, fmt := fmt, file := None, image := []))
  }

  /** The sender offers what it has copied, and the receiver reads the offer. */
  lemma OfferPrepares(p: Pair, fmt: Fmt, size: nat) returns (acts: seq<Act>, q: Pair)
    requires AtRest(p) && (fmt == FileFmt || fmt == ImageFmt)
    ensures Gets(p, acts, q, false) && Offered(p, q, fmt, size) && AtRest(q)
    ensures acts != [] && acts[0] == Act(AtSrc, SendClip(Msg(TextTran, fmt, size)))
  {
    var m := Msg(TextTran, fmt, size);
    var a, d := Act(AtSrc, SendClip(m)), Act(AtDst, Handle(true, true, false));
    ClipIs(p, m);
    var p1 := Perform(p, a);
    JoinsNothing(p.toDst, [Ctl(m)]);
    hide Gets, Perform, CanAct, Orderly;
    var c, p2 := DstTakes(p1, m);
    Unordered(p1, c, p2);
    HearsOfferIs(p2, fmt, size);
    q := Perform(p2, d);
    One(p, a, p1, false);
    acts := Join(p, [a], p1, c, p2, false);
    acts := AndThen(p, acts, p2, d, q, false);
  }

  /** And its user pastes: the receiver is about to ask for that size and format. */
  lemma PastePrepares(p: Pair, fmt: Fmt, size: nat) returns (acts: seq<Act>, q: Pair)
    requires AtRest(p) && (fmt == FileFmt || fmt == ImageFmt)
    ensures Gets(p, acts, q, false)
    ensures acts != [] && acts[0] == Act(AtSrc, SendClip(Msg(TextTran, fmt, size)))
    ensures q.dst.announced == size && q.dst.fmt == fmt && q.dst.file == None && q.dst.image == []
    ensures q.dst.phase == DestInit && q.src == p.src.(fmt := fmt)
  {
    var p1;
    acts, p1 := OfferPrepares(p, fmt, size);
    Accepts(p1);
    var a := Act(AtDst, UserAccept);
    hide Perform, CanAct, Orderly, Gets;
    q := Perform(p1, a);
    acts := AndThen(p, acts, p1, a, q, false);
  }

  lemma CopiedIsReady(p: Pair, content: seq<byte>)
    requires AtRest(p) && p.dst.announced == |content|
    requires (p.dst.fmt == FileFmt && p.src.file == Some(content)) || (p.dst.fmt == ImageFmt && p.src.image == content)
    ensures Ready(p, content) && (p.dst.fmt.FileFmt? ==> p.src.file.Some?)
  {
  }

  /** A pasted image, or file: every moment of an orderly run is faithful to its bytes. */
  lemma PasteTransfer(p: Pair, content: seq<byte>, acts: seq<Act>)
    requires AtRest(p) && p.dst.announced == |content|
    requires (p.dst.fmt == FileFmt && p.src.file == Some(content)) || (p.dst.fmt == ImageFmt && p.src.image == content)
    requires CanRun(p, acts) && OrderlyRun(p, acts)
    ensures Faithful(Run(p, acts), content)
  {
    CopiedIsReady(p, content);
    TwoNodeTransfer(p, acts, content);
  }

  /** And there is an orderly run that completes with all of it written. */
  lemma PasteCanComplete(p: Pair, content: seq<byte>) returns (acts: seq<Act>, q: Pair)
    requires AtRest(p) && p.dst.announced == |content|
    requires (p.dst.fmt == FileFmt && p.src.file == Some(content)) || (p.dst.fmt == ImageFmt && p.src.image == content)
    ensures Gets(p, acts, q, true) && q.dst.outcome == Completed && q.dst.written == Raws(content)
  {
    CopiedIsReady(p, content);
    acts, q := TransferCanComplete(p, content);
  }

  /** From rest to the end: the sender offers the file or image it has copied, the receiver pastes
      it, and has written exactly its bytes, whatever either node had stored before. */
  lemma CopyToPaste(p: Pair, fmt: Fmt, content: seq<byte>) returns (acts: seq<Act>, q: Pair)
    requires AtRest(p)
    requires (fmt == FileFmt && p.src.file == Some(content)) || (fmt == ImageFmt && p.src.image == content)
    ensures Gets(p, acts, q, false) && q.dst.outcome == Completed && q.dst.written == Raws(content)
    ensures acts != [] && acts[0] == Act(AtSrc, SendClip(Msg(TextTran, fmt, |content|)))
  {
    var first, p1 := OfferPrepares(p, fmt, |content|);
    var second;
    second, q := PasteCanComplete(p1, content);
    Unordered(p1, second, q);
    hide Gets, AtRest;
    acts := Join(p, first, p1, second, q, false);
  }

  lemma CopyIs(p: Pair, size: nat, file: Option<seq<byte>>, image: seq<byte>)
    ensures var a := Act(AtSrc, UserCopies(size, file, image));
            CanAct(p, a) && Perform(p, a) == p.(src := p.src.(announced := size, file := file, image := image))
  {
    hide Perform, Raws;
    Silent(p, Act(AtSrc, UserCopies(size, file, image)));
  }

  /** And from the copy itself: the sender's user copies a file or an image, the sender offers it with
      the size that has been stored, and the rest follows. */
  lemma UserCopyToPaste(p: Pair, fmt: Fmt, content: seq<byte>) returns (acts: seq<Act>, q: Pair)
    requires AtRest(p) && (fmt == FileFmt || fmt == ImageFmt)
    ensures Gets(p, acts, q, false) && q.dst.outcome == Completed && q.dst.written == Raws(content)
    ensures acts != []
    ensures acts[0] == Act(AtSrc, if fmt == FileFmt then UserCopies(|content|, Some(content), [])
                                  else UserCopies(|content|, None, content))
  {
    var file, image := if fmt == FileFmt then Some(content) else None, if fmt == FileFmt then [] else content;
    var a := Act(AtSrc, UserCopies(|content|, file, image));
    CopyIs(p, |content|, file, image);
    hide Gets, Perform, CanAct, Orderly, Raws;
    var p1 := Perform(p, a);
    One(p, a, p1, false);
    var later;
    later, q := CopyToPaste(p1, fmt, content);
    acts := Join(p, [a], p1, later, q, false);
  }

  // ---- A transfer that begins with a file drop ----

  lemma DropIs(p: Pair, file: seq<byte>)
    requires p.src.lock.Free?
    ensures var a := Act(AtSrc, UserDrop(|file|, Some(file)));
            CanAct(p, a)
            && Perform(p, a) == p.(src := p.src.(phase := FileDropInit, announced := |file|, file := Some(file)))
  {
    hide Perform, Raws;
    Silent(p, Act(AtSrc, UserDrop(|file|, Some(file))));
  }

  lemma AnnounceIs(p: Pair)
    requires p.src.lock.Free? && p.src.phase.FileDropInit? && p.src.writer.Idle?
    ensures var a := Act(AtSrc, CallWriter(true));
            CanAct(p, a)
            && Perform(p, a) == p.(src := p.src.(phase := Uninit, fmt := FileFmt),
                                   toDst := p.toDst + [Ctl(Msg(FileDropInitiate, FileFmt, p.src.announced))])
  {
    hide Perform, Raws;
    TakesNothing(p, Act(AtSrc, CallWriter(true)));
  }

  lemma AcceptsDrop(p: Pair, size: nat)
    requires p.dst.phase.Uninit? && p.dst.lock.Free? && p.dst.reader == Handling(Msg(FileDropInitiate, FileFmt, size))
    ensures var a := Act(AtDst, Handle(true, true, true));
            CanAct(p, a) && Perform(p, a) == p.(dst := p.dst.(reader := Gate, announced := size, fmt := FileFmt, phase := DestInit))
  {
    hide Perform, Raws, Pasted;
    Silent(p, Act(AtDst, Handle(true, true, true)));
  }

  /** The sender holds the file and the receiver its size and format, ready to ask for it. */
  predicate Dropped(p: Pair, q: Pair, file: seq<byte>) {
    q == p.(src := p.src.(announced := |file|, file := Some(file), fmt := FileFmt),
            dst := p.dst.(announced := |file|, fmt := FileFmt, phase := DestInit))
  }

  /** The sender's user drops a file, the sender announces it, the receiver reads the announcement
      and its user accepts. */
  lemma DropPrepares(p: Pair, file: seq<byte>) returns (acts: seq<Act>, q: Pair)
    requires AtRest(p)
    ensures Gets(p, acts, q, false) && Dropped(p, q, file)
    ensures acts != [] && acts[0] == Act(AtSrc, UserDrop(|file|, Some(file)))
  {
    var a, b := Act(AtSrc, UserDrop(|file|, Some(file))), Act(AtSrc, CallWriter(true));
    var m := Msg(FileDropInitiate, FileFmt, |file|);
    DropIs(p, file);
    var p1 := Perform(p, a);
    AnnounceIs(p1);
    var p2 := Perform(p1, b);
    JoinsNothing(p.toDst, [Ctl(m)]);
    hide Gets, Perform, CanAct, Orderly;
    var c, p3 := DstTakes(p2, m);
    Unordered(p2, c, p3);
    AcceptsDrop(p3, |file|);
    var d := Act(AtDst, Handle(true, true, true));
    q := Perform(p3, d);
    One(p, a, p1, false);
    acts := AndThen(p, [a], p1, b, p2, false);
    acts := Join(p, acts, p2, c, p3, false);
    acts := AndThen(p, acts, p3, d, q, false);
  }

  lemma Unordered(p: Pair, acts: seq<Act>, q: Pair)
    requires Gets(p, acts, q, true)
    ensures Gets(p, acts, q, false)
  {
  }

  lemma DroppedInv(p: Pair, q: Pair, file: seq<byte>)
    requires AtRest(p) && Dropped(p, q, file)
    ensures Inv(q, Deal(FileFmt, file, |file|, false))
  {
  }

  /** A dropped and accepted file: from then on every moment of an orderly run is faithful to the
      file's bytes. */
  lemma DropTransfer(p: Pair, q: Pair, file: seq<byte>, acts: seq<Act>)
    requires AtRest(p) && Dropped(p, q, file)
    requires CanRun(q, acts) && OrderlyRun(q, acts)
    ensures Faithful(Run(q, acts), file)
  {
    hide Run, CanRun, OrderlyRun, Inv, Faithful;
    DroppedInv(p, q, file);
    var d := RunKeepsInv(q, acts, Deal(FileFmt, file, |file|, false));
    InvFaithful(Run(q, acts), d);
  }

  /** And there is an orderly run that completes with the whole file written. */
  lemma DropCanComplete(p: Pair, q: Pair, file: seq<byte>) returns (acts: seq<Act>, r: Pair)
    requires AtRest(p) && Dropped(p, q, file)
    ensures Gets(q, acts, r, true) && r.dst.outcome == Completed && r.dst.written == Raws(file)
  {
    var first, p1 := Asks(q);
    var second;
    second, r := CompletesWith(p1);
    acts := Join(q, first, p1, second, r, true);
    hide CanRun, OrderlyRun, Dropped;
    DropTransfer(p, q, file, acts);
  }
}
