// What spoils a transfer of module TransferPair, and exactly when: steps of an acknowledged
// receiver, an offer of a receiver before its request, and an offer of a sender inside the payload.
module TransferFaults {
  import opened Bytes
  import opened Transfer
  import opened TransferPair
  import opened TransferRuns

  // ---- When the message reader gets in front of a payload byte ----

  predicate Exposed(p: Pair) {
    p.dst.reader.Reading? && p.toDst != [] && p.toDst[0].Raw?
  }

  /** Some orderly continuation brings it there. */
  ghost predicate CanExpose(p: Pair) {
    exists acts, q :: Gets(p, acts, q, true) && Exposed(q)
  }

  /** Some orderly continuation ends with a transfer taken for complete that is not whole. */
  ghost predicate CanFallShort(p: Pair, payload: seq<byte>) {
    exists acts, q :: Gets(p, acts, q, true) && q.dst.outcome == Completed && q.dst.written != Raws(payload)
  }

  /** What may go wrong at an acknowledged receiver: a second acceptance, a drop, or a copy that
      leaves too small a size behind. */
  predicate Disturbs(what: Label, size: nat) {
    what.UserAccept? || what.UserDrop? || what.AcceptUnlocked? || (what.UserCopies? && what.size < size)
  }

  lemma GateIs(p: Pair)
    requires p.dst.reader.Gate? && p.dst.lock.Free? && (p.dst.phase.Uninit? || p.dst.phase.Processing?)
    ensures var a := Act(AtDst, EnterRead);
            CanAct(p, a) && Orderly(p, a) && Perform(p, a) == p.(dst := p.dst.(reader := Reading))
  {
    hide Perform, Raws;
    Silent(p, Act(AtDst, EnterRead));
  }

  /** The sender's next byte arrives and the receiver's gate is open. */
  lemma ByteMeetsReader(p: Pair) returns (acts: seq<Act>, q: Pair)
    requires (p.dst.phase.Uninit? || p.dst.phase.Processing?) && p.dst.lock.Free? && p.dst.reader.Gate?
    requires p.src.reader.Sending? && p.src.reader.left != [] && p.toDst == []
    ensures Gets(p, acts, q, true) && Exposed(q)
  {
    hide Perform, CanAct, Orderly, Gets;
    var a, p1 := Sends(p, 1);
    GateIs(p1);
    var b := Act(AtDst, EnterRead);
    q := Perform(p1, b);
    acts := AndThen(p, a, p1, b, q, true);
  }

  lemma WriterIs(p: Pair) returns (a: Act, q: Pair)
    requires p.dst.lock.Free? && p.dst.writer.Idle? && (p.dst.phase.DestInit? || p.dst.phase.FileDropInit?)
    ensures a == Act(AtDst, CallWriter(true)) && CanAct(p, a) && Orderly(p, a) && Perform(p, a) == q
    ensures q.src == p.src && q.toDst == p.toDst && q.dst.lock == p.dst.lock && q.dst.reader == p.dst.reader
    ensures q.dst.phase.Processing? || q.dst.phase.Uninit?
  {
    hide Perform, Raws;
    a := Act(AtDst, CallWriter(true));
    q := Perform(p, a);
    TakesNothing(p, a);
  }

  /** With the phase changed the writer answers the user and the gate opens. */
  lemma PhaseLost(p: Pair)
    requires (p.dst.phase.DestInit? || p.dst.phase.FileDropInit?) && p.dst.lock.Free? && p.dst.reader.Gate?
    requires p.dst.writer.Idle? && p.src.reader.Sending? && p.src.reader.left != [] && p.toDst == []
    ensures CanExpose(p)
  {
    hide Perform, CanAct, Orderly, Gets;
    var a, p1 := WriterIs(p);
    var b, p2 := ByteMeetsReader(p1);
    One(p, a, p1, true);
    var acts := Join(p, [a], p1, b, p2, true);
  }

  /** With too small a size the loop ends early, and the gate opens before the rest. */
  lemma SizeLost(p: Pair, payload: seq<byte>)
    requires Acked(p) && p.dst.announced < |p.src.reader.left| && p.dst.written == [] && p.src.reader.left == payload
    ensures CanExpose(p) && CanFallShort(p, payload)
  {
    var a, p1 := CompletesWith(p);
    var b, p2 := ByteMeetsReader(p1);
    assert |p1.dst.written| < |Raws(payload)|;
    hide Perform, CanAct, Orderly, Gets;
    var acts := Join(p, a, p1, b, p2, true);
  }

  /** Some orderly continuation ends with a transfer taken for complete. */
  ghost predicate CanComplete(p: Pair) {
    exists acts, q :: Gets(p, acts, q, true) && q.dst.outcome == Completed
  }

  lemma ContinuationKeeps(p: Pair, d: Deal, acts: seq<Act>, q: Pair) returns (e: Deal)
    requires Inv(p, d) && Gets(p, acts, q, true)
    ensures Inv(q, e) && Shrunk(d, e) && Faithful(q, e.payload)
    ensures q.dst.outcome == Completed ==> e.size == |e.payload|
  {
    e := RunKeepsInv(p, acts, d);
    InvFaithful(q, e);
  }

  lemma NothingExposes(p: Pair, d: Deal)
    requires Inv(p, d)
    ensures !CanExpose(p) && (!d.offers ==> !CanFallShort(p, d.payload))
  {
    hide Inv, Gets;
    forall acts, q | Gets(p, acts, q, true)
      ensures !Exposed(q) && (!d.offers && q.dst.outcome == Completed ==> q.dst.written == Raws(d.payload))
    {
      var e := ContinuationKeeps(p, d, acts, q);
    }
  }

  /** A receiver that waits for more than there is never takes the transfer for complete. */
  lemma NothingCompletes(p: Pair, d: Deal)
    requires Inv(p, d) && d.size > |d.payload|
    ensures !CanComplete(p)
  {
    hide Inv, Gets, Faithful;
    forall acts, q | Gets(p, acts, q, true)
      ensures q.dst.outcome != Completed
    {
      var e := ContinuationKeeps(p, d, acts, q);
    }
  }

  /** The payload of an acknowledged transfer is still with the sender. */
  lemma LeftIsPayload(p: Pair, d: Deal)
    requires Inv(p, d) && Acknowledged(p)
    ensures p.dst.outcome.Pending? && p.dst.written == [] && p.src.reader.left == d.payload && p.dst.announced == d.size
  {
    var left, payload := p.src.reader.left, d.payload;
    assert p.dst.outcome.Pending? && p.dst.written == [];
    assert p.toDst + Raws(left) == Raws(payload[0..]);
    assert Raws(left) == Raws(payload);
    forall i | 0 <= i < |left|
      ensures left[i] == payload[i]
    {
      assert Raws(left)[i] == Raw(left[i]) && Raws(payload)[i] == Raw(payload[i]);
    }
  }

  lemma ReceiverMay(p: Pair, a: Act)
    requires Acknowledged(p) && a.side.AtDst? && CanAct(p, a)
    ensures a.what.CallWriter? || a.what.SendClip? || ByUser(a.what)
  {
  }

  predicate ByUser(what: Label) {
    what.UserCopies? || what.UserAccept? || what.UserDrop? || what.AcceptUnlocked?
  }

  /** What a user's command makes of a node. */
  function UserNode(n: Node, what: Label): Node
    requires ByUser(what)
  {
    match what
    case UserCopies(size, file, image) => n.(announced := size, file := file, image := image)
    case UserDrop(size, file) => n.(phase := FileDropInit, announced := size, file := file)
    case _ => n.(phase := DestInit)
  }

  lemma UserApplies(n: Node, what: Label, inbox: seq<Cell>)
    requires ByUser(what) && Enabled(n, what, inbox)
    ensures Apply(n, what, inbox) == Effect(UserNode(n, what), 0, [])
  {
  }

  lemma UserStepIs(p: Pair, a: Act)
    requires a.side.AtDst? && CanAct(p, a) && ByUser(a.what)
    ensures Perform(p, a) == p.(dst := UserNode(p.dst, a.what))
  {
    assert NodeAt(p, a.side) == p.dst && Inbox(p, a.side) == p.toDst;
    UserApplies(p.dst, a.what, p.toDst);
    hide Apply, Enabled, Perform, UserNode;
    Silent(p, a);
  }

  /** The size an acknowledged receiver has after a step that keeps the phase. */
  function SizeAfter(what: Label, size: nat): nat {
    if what.UserCopies? then what.size else size
  }

  /** Whatever else an acknowledged receiver does keeps the invariant, with the size it leaves. */
  lemma UndisturbedStep(p: Pair, a: Act, d: Deal)
    requires Inv(p, d) && Acknowledged(p) && a.side.AtDst? && CanAct(p, a)
    requires !Disturbs(a.what, |d.payload|)
    ensures Inv(Perform(p, a), d.(size := SizeAfter(a.what, d.size)))
  {
    ReceiverMay(p, a);
    LeftIsPayload(p, d);
    if a.what.UserCopies? {
      UserStepIs(p, a);
      hide Inv, Perform;
      ResizedInv(p, a.what.size, a.what.file, a.what.image, d);
    } else {
      hide Inv, Perform;
      DstStep(p, a, d);
    }
  }

  /** When the message reader can get in front of a payload byte: from an acknowledged transfer,
      after one step of the receiver, an orderly continuation brings it there if and only if the
      step was a second acceptance, a drop, or a copy that leaves a size smaller than the payload. */
  lemma ExposedExactly(p: Pair, a: Act, d: Deal)
    requires Inv(p, d) && Acknowledged(p) && a.side.AtDst? && CanAct(p, a)
    ensures CanExpose(Perform(p, a)) <==> Disturbs(a.what, |d.payload|)
  {
    hide Inv, Perform, CanAct;
    if !Disturbs(a.what, |d.payload|) {
      UndisturbedStep(p, a, d);
      NothingExposes(Perform(p, a), d.(size := SizeAfter(a.what, d.size)));
    } else {
      LeftIsPayload(p, d);
      UserStepIs(p, a);
      if a.what.UserCopies? {
        SizeLost(Perform(p, a), d.payload);
      } else {
        PhaseLost(Perform(p, a));
      }
    }
  }

  /** When a transfer can be taken for complete without being whole: from an acknowledged transfer,
      after one step of the receiver that keeps the phase, if and only if the step was a copy that
      leaves a size smaller than the payload. */
  lemma CompletedShortExactly(p: Pair, a: Act, d: Deal)
    requires Inv(p, d) && !d.offers && Acknowledged(p) && a.side.AtDst? && CanAct(p, a)
    requires Perform(p, a).dst.phase.ProcessingAck?
    ensures CanFallShort(Perform(p, a), d.payload) <==> a.what.UserCopies? && a.what.size < |d.payload|
  {
    hide Inv, Perform, CanAct;
    if !Disturbs(a.what, |d.payload|) {
      UndisturbedStep(p, a, d);
      NothingExposes(Perform(p, a), d.(size := SizeAfter(a.what, d.size)));
    } else {
      LeftIsPayload(p, d);
      UserStepIs(p, a);
      SizeLost(Perform(p, a), d.payload);
    }
  }

  lemma StillCompletes(p: Pair)
    requires Acked(p) && p.dst.announced <= |p.src.reader.left|
    ensures CanComplete(p)
  {
    hide Perform, CanAct, Orderly, Gets;
    var a, q := CompletesWith(p);
  }

  lemma LoopCompletes(p: Pair, a: Act)
    requires Acknowledged(p) && p.dst.announced <= |p.src.reader.left|
    requires a == Act(AtDst, CallWriter(true))
    ensures CanComplete(Perform(p, a))
  {
    hide Perform, CanAct, Orderly, Gets;
    var b, q := EntersLoop(p);
    var c, r := CompletesInLoop(q);
  }

  lemma CopyCompletes(p: Pair, a: Act)
    requires Acknowledged(p) && a.side.AtDst? && CanAct(p, a) && a.what.UserCopies? && a.what.size <= |p.src.reader.left|
    ensures CanComplete(Perform(p, a))
  {
    UserStepIs(p, a);
    hide Perform, CanAct, CanComplete;
    StillCompletes(Perform(p, a));
  }

  lemma OfferCompletes(p: Pair, a: Act)
    requires Acknowledged(p) && a.side.AtDst? && CanAct(p, a) && a.what.SendClip? && p.dst.announced <= |p.src.reader.left|
    ensures CanComplete(Perform(p, a))
  {
    OfferIs(p, a);
    hide Perform, CanAct, CanComplete;
    StillCompletes(Perform(p, a));
  }

  lemma WriterCompletes(p: Pair, a: Act)
    requires Acknowledged(p) && a.side.AtDst? && CanAct(p, a) && a.what.CallWriter? && p.dst.announced <= |p.src.reader.left|
    ensures CanComplete(Perform(p, a))
  {
    hide Perform, CanAct, CanComplete;
    assert a == Act(AtDst, CallWriter(a.what.mine));
    if a.what.mine {
      LoopCompletes(p, a);
    } else {
      WriteIs(p, false);
      StillCompletes(p);
    }
  }

  lemma LosesPhase(p: Pair, a: Act)
    requires Acknowledged(p) && a.side.AtDst? && CanAct(p, a) && ByUser(a.what) && !a.what.UserCopies?
    ensures !Perform(p, a).dst.phase.ProcessingAck?
  {
    UserStepIs(p, a);
    hide Perform, CanAct;
  }

  /** When a transfer can still be taken for complete: from an acknowledged transfer, after one step
      of the receiver that keeps the phase, if and only if the size it leaves is at most the
      payload.  With CompletedShortExactly: it can, and is then whole, if and only if it is equal; a
      receiver with a larger size waits in its loop, its mutex held. */
  lemma CompletesExactly(p: Pair, a: Act, d: Deal)
    requires Inv(p, d) && Acknowledged(p) && a.side.AtDst? && CanAct(p, a)
    requires Perform(p, a).dst.phase.ProcessingAck?
    ensures CanComplete(Perform(p, a)) <==> SizeAfter(a.what, d.size) <= |d.payload|
  {
    hide Inv, Perform, CanAct, CanComplete;
    LeftIsPayload(p, d);
    ReceiverMay(p, a);
    var size := SizeAfter(a.what, d.size);
    if size > |d.payload| {
      UndisturbedIfKept(p, a, d);
      UndisturbedStep(p, a, d);
      NothingCompletes(Perform(p, a), d.(size := size));
    } else if a.what.UserCopies? {
      CopyCompletes(p, a);
    } else if a.what.SendClip? {
      OfferCompletes(p, a);
    } else if a.what.CallWriter? {
      WriterCompletes(p, a);
    } else {
      LosesPhase(p, a);
    }
  }

  lemma UndisturbedIfKept(p: Pair, a: Act, d: Deal)
    requires Acknowledged(p) && a.side.AtDst? && CanAct(p, a) && Perform(p, a).dst.phase.ProcessingAck?
    requires SizeAfter(a.what, d.size) > |d.payload|
    ensures !Disturbs(a.what, |d.payload|)
  {
    hide Perform, CanAct;
    if ByUser(a.what) && !a.what.UserCopies? {
      LosesPhase(p, a);
    }
  }

  /** The second paste as a run: the gate is open again in PROCESSING_TRAN_ING. */
  lemma SecondPasteLosesPayload(p: Pair) returns (acts: seq<Act>, q: Pair)
    requires Acknowledged(p)
    ensures Gets(p, acts, q, false) && Exposed(q)
    ensures |acts| >= 2 && acts[0] == Act(AtDst, UserAccept) && acts[1] == Act(AtDst, CallWriter(true))
  {
    var a := Act(AtDst, UserAccept);
    AcceptIs(p);
    hide Gets, Perform, CanAct, Orderly;
    var p1 := Perform(p, a);
    var b, p2 := WriterIs(p1);
    var c;
    c, q := ByteMeetsReader(p2);
    Unordered(p2, c, q);
    One(p1, b, p2, false);
    acts := Join(p1, [b], p2, c, q, false);
    GetsFirst(p, a, p1, acts, q, false);
    acts := [a] + acts;
  }

  // ---- When an offer of the receiver spoils its own request ----

  /** A receiver whose user has accepted, at rest otherwise, told the size of what it will ask for. */
  ghost predicate Accepted(p: Pair, payload: seq<byte>) {
    AtRest(p.(dst := p.dst.(phase := Uninit))) && p.dst.phase.DestInit?
    && payload == PayloadOf(p.src, p.dst.fmt) && p.dst.announced == |payload|
  }

  lemma OfferedDeal(p: Pair, m: Msg, payload: seq<byte>)
    requires Accepted(p, payload) && m.cmd == TextTran && |PayloadOf(p.src, m.fmt)| <= |payload|
    ensures Inv(p.(dst := p.dst.(fmt := m.fmt), toSrc := p.toSrc + [Ctl(m)]),
                Deal(m.fmt, PayloadOf(p.src, m.fmt), |payload|, true))
  {
    RequestsAppend(p.toSrc, Ctl(m));
    hide Raws, Flows;
  }

  /** The sender hears the offer, which it knows already. */
  lemma OfferHeard(p: Pair, m: Msg) returns (acts: seq<Act>, q: Pair)
    requires p.src.phase.Uninit? && p.src.lock.Free? && p.src.reader.Gate? && p.toSrc == [Ctl(m)] && m.cmd == TextTran
    ensures Gets(p, acts, q, true) && q == p.(toSrc := [])
  {
    hide Gets, Perform, CanAct;
    var a, p1 := SrcTakes(p, m);
    HearIs(p1, false, false);
    KnownOffer(p1.src.(reader := Gate), m);
    q := p.(toSrc := []);
    acts := AndThen(p, a, p1, Act(AtSrc, Handle(true, false, false)), q, true);
  }

  lemma KnownOffer(n: Node, m: Msg)
    ensures Pasted(n, m, false) == n
  {
  }

  /** With nothing announced the loop ends as soon as it begins, whatever the sender is about. */
  lemma EmptyCompletes(p: Pair) returns (acts: seq<Act>, q: Pair)
    requires p.dst.phase.DestInit? && p.dst.lock.Free? && p.dst.reader.Gate? && p.dst.writer.Idle?
    requires p.src.phase.Uninit? && p.src.lock.Free? && p.src.reader.Gate? && p.toDst == [] && p.toSrc == []
    requires p.dst.announced == 0
    ensures Gets(p, acts, q, true) && q.dst.outcome == Completed
  {
    var a, p1 := AskIs(p);
    JoinsRequest(p);
    hide Gets, Perform, CanAct, Orderly, Raws;
    var b, p2 := SrcTakes(p1, Msg(FileReq, p.dst.fmt, p.dst.announced));
    var c, p3 := StartsIs(p2);
    var e, p4 := DstTakes(p3, ACK.msg);
    var f, p5 := HearsAckIs(p4);
    var g, p6 := EntersLoop(p5);
    NoRaws();
    var h;
    h, q := ReceivesAll(p6, []);
    One(p, a, p1, true);
    acts := Join(p, [a], p1, b, p2, true);
    acts := AndThen(p, acts, p2, c, p3, true);
    acts := Join(p, acts, p3, e, p4, true);
    acts := AndThen(p, acts, p4, f, p5, true);
    acts := AndThen(p, acts, p5, g, p6, true);
    acts := Join(p, acts, p6, h, q, true);
  }

  lemma FullCompletes(p: Pair) returns (acts: seq<Act>, q: Pair)
    requires Askable(p) && p.dst.announced <= |PayloadOf(p.src, p.dst.fmt)|
    ensures Gets(p, acts, q, true) && q.dst.outcome == Completed
  {
    hide Gets, Perform, CanAct, Orderly, Raws, PayloadOf;
    var a, p1 := Asks(p);
    var b;
    b, q := CompletesWith(p1);
    acts := Join(p, a, p1, b, q, true);
  }

  /** What an offer of an accepted receiver before its request does.  It overwrites the stored
      format, and the request asks for that: an orderly continuation completes if and only if the
      sender has enough in the offered format to fill the announced size. */
  lemma OfferedExactly(p: Pair, m: Msg, payload: seq<byte>)
    requires Accepted(p, payload) && m.cmd == TextTran
    ensures var a := Act(AtDst, SendClip(m));
            CanAct(p, a) && (CanComplete(Perform(p, a)) <==> |PayloadOf(p.src, m.fmt)| >= |payload|)
  {
    var a := Act(AtDst, SendClip(m));
    OfferIs(p, a);
    var q := p.(dst := p.dst.(fmt := m.fmt), toSrc := p.toSrc + [Ctl(m)]);
    hide Perform, CanComplete, PayloadOf;
    var has := PayloadOf(p.src, m.fmt);
    if |has| < |payload| {
      OfferedDeal(p, m, payload);
      hide Inv;
      NothingCompletes(q, Deal(m.fmt, has, |payload|, true));
    } else {
      JoinsNothing(p.toSrc, [Ctl(m)]);
      EnoughCompletes(q, m, payload);
    }
  }

  lemma EnoughCompletes(p: Pair, m: Msg, payload: seq<byte>)
    requires p.dst.phase.DestInit? && p.dst.lock.Free? && p.dst.reader.Gate? && p.dst.writer.Idle?
    requires p.src.phase.Uninit? && p.src.lock.Free? && p.src.reader.Gate? && p.toDst == [] && p.toSrc == [Ctl(m)]
    requires m.cmd == TextTran && p.dst.fmt == m.fmt && p.dst.announced == |payload|
    requires |PayloadOf(p.src, m.fmt)| >= |payload|
    ensures CanComplete(p)
  {
    hide Gets, Perform, Raws, Orderly;
    var b, p1 := OfferHeard(p, m);
    var c, p2;
    if payload == [] {
      c, p2 := EmptyCompletes(p1);
    } else {
      c, p2 := FullCompletes(p1);
    }
    var acts := Join(p, b, p1, c, p2, true);
  }

  /** For a sender that has nothing in any other format: if and only if the offered format is still
      the one stored, or the payload is empty. */
  lemma OfferedOneContent(p: Pair, m: Msg, payload: seq<byte>)
    requires Accepted(p, payload) && m.cmd == TextTran
    requires forall fmt :: fmt != p.dst.fmt ==> PayloadOf(p.src, fmt) == []
    ensures CanComplete(Perform(p, Act(AtDst, SendClip(m)))) <==> m.fmt == p.dst.fmt || payload == []
  {
    OfferedExactly(p, m, payload);
    hide Perform, CanComplete;
  }

  // ---- When an offer of the sender gets into the payload ----

  /** Orderly but for the reads of the payload loop, which may take any cells together. */
  predicate LooseRun(p: Pair, acts: seq<Act>)
    requires CanRun(p, acts)
    decreases |acts|
  {
    acts == [] ||
    ((Orderly(p, acts[0]) || (acts[0].side.AtDst? && acts[0].what.Receive?)) && LooseRun(Perform(p, acts[0]), acts[1..]))
  }

  /** The payload loop is about to end with the whole payload written. */
  predicate EndsWhole(p: Pair, payload: seq<byte>) {
    && p.dst.outcome.Pending? && p.dst.writer.Receiving? && p.dst.writer.got >= p.dst.writer.total
    && p.dst.written == Raws(payload)
  }

  ghost predicate CanEndWhole(p: Pair, payload: seq<byte>) {
    exists acts :: CanRun(p, acts) && LooseRun(p, acts) && EndsWhole(Run(p, acts), payload)
  }

  lemma {:induction false} OrderlyIsLoose(p: Pair, acts: seq<Act>)
    requires CanRun(p, acts) && OrderlyRun(p, acts)
    ensures LooseRun(p, acts)
    decreases |acts|
  {
    hide Perform, CanAct, Orderly;
    if acts != [] {
      OrderlyIsLoose(Perform(p, acts[0]), acts[1..]);
    }
  }

  predicate HasMessage(cells: seq<Cell>) {
    exists i :: 0 <= i < |cells| && cells[i].Ctl?
  }

  /** A message stands before the end of the payload, c cells away. */
  predicate MessageAhead(p: Pair, c: nat, size: nat) {
    && c < |p.toDst| && p.toDst[c].Ctl? && p.toDst[c].msg.cmd == TextTran && AllRaw(p.toDst[..c])
    && |p.dst.written| + c < size
    && (p.dst.writer.Idle? ==> p.dst.announced == size && p.dst.written == [])
    && (p.dst.writer.Receiving? ==> p.dst.writer.total == size && p.dst.writer.got == |p.dst.written|)
  }

  /** Until its loop ends, the receiver has a message in its file or before it. */
  predicate Spoilt(p: Pair, c: nat, size: nat) {
    p.dst.outcome.Pending? ==>
      && p.dst.phase.ProcessingAck? && p.dst.reader.Gate?
      && ((p.dst.writer.Receiving? && HasMessage(p.dst.written)) || MessageAhead(p, c, size))
  }

  lemma SrcAppends(p: Pair, a: Act)
    requires a.side.AtSrc? && CanAct(p, a)
    ensures Perform(p, a).dst == p.dst && p.toDst <= Perform(p, a).toDst
  {
    hide Apply, Enabled;
  }

  lemma SpoiltBySrc(p: Pair, a: Act, c: nat, size: nat)
    requires Spoilt(p, c, size) && a.side.AtSrc? && CanAct(p, a)
    ensures Spoilt(Perform(p, a), c, size)
  {
    SrcAppends(p, a);
    hide Perform, CanAct, HasMessage, MessageAhead;
    if MessageAhead(p, c, size) {
      StillAhead(p, Perform(p, a), c, size);
    }
  }

  lemma StillAhead(p: Pair, q: Pair, c: nat, size: nat)
    requires MessageAhead(p, c, size) && q.dst == p.dst && p.toDst <= q.toDst
    ensures MessageAhead(q, c, size)
  {
    assert q.toDst[..c] == p.toDst[..c];
  }

  lemma ReadIs(p: Pair, k: nat, b: nat)
    requires CanAct(p, Act(AtDst, Receive(k, b)))
    ensures k <= |p.toDst|
    ensures Perform(p, Act(AtDst, Receive(k, b)))
         == p.(dst := p.dst.(written := p.dst.written + p.toDst[..k], writer := p.dst.writer.(got := p.dst.writer.got + b)),
               toDst := p.toDst[k..])
  {
    assert p.toSrc + [] == p.toSrc;
  }

  /** A read takes payload in front of the message, or the message into the file. */
  lemma SpoiltByRead(p: Pair, k: nat, b: nat, c: nat, size: nat) returns (e: nat)
    requires Spoilt(p, c, size) && p.dst.outcome.Pending? && CanAct(p, Act(AtDst, Receive(k, b)))
    ensures Spoilt(Perform(p, Act(AtDst, Receive(k, b))), e, size)
  {
    ReadIs(p, k, b);
    assert p.dst.writer.Receiving? && (AllRaw(p.toDst[..k]) ==> b == k);
    var q := Perform(p, Act(AtDst, Receive(k, b)));
    hide Perform, CanAct;
    e := if k <= c then c - k else 0;
    if HasMessage(p.dst.written) {
      var i :| 0 <= i < |p.dst.written| && p.dst.written[i].Ctl?;
      assert q.dst.written[i] == p.dst.written[i];
    } else if k <= c {
      assert p.toDst[..k] == p.toDst[..c][..k];
      assert q.toDst[..c - k] == p.toDst[..c][k..];
    } else {
      assert q.dst.written[|p.dst.written| + c] == p.toDst[..k][c];
    }
  }

  /** The other steps of a receiver inside or before its loop. */
  lemma SpoiltByOther(p: Pair, a: Act, c: nat, size: nat)
    requires Spoilt(p, c, size) && p.dst.outcome.Pending? && a.side.AtDst? && CanAct(p, a)
    requires Orderly(p, a) && !a.what.Receive?
    ensures Spoilt(Perform(p, a), c, size)
  {
    hide Raws;
    assert p.toDst[0..] == p.toDst;
  }

  lemma {:induction false} StaysSpoilt(p: Pair, acts: seq<Act>, c: nat, size: nat, payload: seq<byte>)
    requires Spoilt(p, c, size) && CanRun(p, acts) && LooseRun(p, acts) && size == |payload|
    ensures !EndsWhole(Run(p, acts), payload)
    decreases |acts|
  {
    if acts == [] {
      SpoiltIsNotWhole(p, c, size, payload);
    } else {
      var a := acts[0];
      hide Perform, CanAct, Spoilt, EndsWhole;
      var e := SpoiltStep(p, a, c, size);
      StaysSpoilt(Perform(p, a), acts[1..], e, size, payload);
    }
  }

  lemma SpoiltIsNotWhole(p: Pair, c: nat, size: nat, payload: seq<byte>)
    requires Spoilt(p, c, size) && size == |payload|
    ensures !EndsWhole(p, payload)
  {
    if HasMessage(p.dst.written) {
      var i :| 0 <= i < |p.dst.written| && p.dst.written[i].Ctl?;
      assert p.dst.written == Raws(payload) ==> p.dst.written[i].Raw?;
    }
  }

  lemma SpoiltStep(p: Pair, a: Act, c: nat, size: nat) returns (e: nat)
    requires Spoilt(p, c, size) && CanAct(p, a) && (Orderly(p, a) || (a.side.AtDst? && a.what.Receive?))
    ensures Spoilt(Perform(p, a), e, size)
  {
    e := c;
    if a.side.AtSrc? {
      SpoiltBySrc(p, a, c, size);
    } else if p.dst.outcome != Pending {
      OutcomeStays(p, a);
    } else if a.what.Receive? {
      assert a == Act(AtDst, Receive(a.what.k, a.what.n));
      e := SpoiltByRead(p, a.what.k, a.what.n, c, size);
    } else {
      SpoiltByOther(p, a, c, size);
    }
  }

  lemma OutcomeStays(p: Pair, a: Act)
    requires CanAct(p, a) && p.dst.outcome != Pending
    ensures Perform(p, a).dst.outcome != Pending
  {
    hide Raws;
  }

  /** The end of the payload is on the socket, and the message after it. */
  lemma EndsBeforeMessage(p: Pair, rest: seq<byte>, tail: seq<Cell>, payload: seq<byte>)
    requires p.dst.outcome.Pending? && p.dst.phase.ProcessingAck? && p.toDst == Raws(rest) + tail
    requires p.dst.written + Raws(rest) == Raws(payload)
    requires if p.dst.writer.Idle? then p.dst.lock.Free? && p.dst.announced == |rest|
             else p.dst.writer.got + |rest| == p.dst.writer.total
    ensures CanEndWhole(p, payload)
  {
    hide Gets, Perform, CanAct, Raws, Orderly;
    var acts, q;
    if p.dst.writer.Idle? {
      var a, p1 := EntersLoop(p);
      var b;
      b, q := Receives(p1, rest, tail);
      One(p, a, p1, true);
      acts := Join(p, [a], p1, b, q, true);
    } else {
      acts, q := Receives(p, rest, tail);
    }
    EndsWholeBy(p, acts, q, payload);
  }

  lemma EndsWholeBy(p: Pair, acts: seq<Act>, q: Pair, payload: seq<byte>)
    requires Gets(p, acts, q, true) && EndsWhole(q, payload)
    ensures CanEndWhole(p, payload)
  {
    OrderlyIsLoose(p, acts);
    hide CanRun, OrderlyRun, LooseRun, Run, EndsWhole;
  }

  lemma FlightIsRest(p: Pair, d: Deal)
    requires Inv(p, d) && p.dst.outcome.Pending? && p.dst.phase.ProcessingAck? && Serving(p.src)
    ensures |p.dst.written| <= |d.payload| && p.dst.written == Raws(d.payload[..|p.dst.written|])
    ensures p.toDst + Raws(ToSend(p.src)) == Raws(d.payload[|p.dst.written|..])
    ensures p.dst.reader.Gate? && (p.dst.writer.Idle? ==> p.dst.lock.Free? && p.dst.announced == d.size && p.dst.written == [])
    ensures p.dst.writer.Receiving? ==> p.dst.writer.total == d.size && p.dst.writer.got == |p.dst.written|
  {
    hide Requests, Raws;
  }

  /** When an offer of the sender written during the transfer does no harm: however the receiver
      reads on, its loop can end with exactly the payload written if and only if all of the payload
      was on the socket before the offer. */
  lemma OfferInPayloadExactly(p: Pair, m: Msg, d: Deal)
    requires Inv(p, d) && d.size == |d.payload| && m.cmd == TextTran
    requires p.dst.outcome.Pending? && p.dst.phase.ProcessingAck? && Serving(p.src)
    ensures var a := Act(AtSrc, SendClip(m));
            CanAct(p, a) && (CanEndWhole(Perform(p, a), d.payload) <==> ToSend(p.src) == [])
  {
    var a := Act(AtSrc, SendClip(m));
    OfferIs(p, a);
    var q := p.(src := p.src.(fmt := m.fmt), toDst := p.toDst + [Ctl(m)]);
    FlightIsRest(p, d);
    var at := |p.dst.written|;
    var rest := d.payload[at..];
    RawsSplit(d.payload, at);
    if ToSend(p.src) == [] {
      NoRaws();
      AddsNothing(p.toDst, Raws(ToSend(p.src)));
      EndsBeforeMessage(q, rest, [Ctl(m)], d.payload);
    } else {
      MessageGoesAhead(p, q, m, d);
      forall acts | CanRun(q, acts) && LooseRun(q, acts)
        ensures !EndsWhole(Run(q, acts), d.payload)
      {
        StaysSpoilt(q, acts, |p.toDst|, d.size, d.payload);
      }
    }
  }

  lemma MessageGoesAhead(p: Pair, q: Pair, m: Msg, d: Deal)
    requires Inv(p, d) && d.size == |d.payload| && m.cmd == TextTran
    requires p.dst.outcome.Pending? && p.dst.phase.ProcessingAck? && Serving(p.src) && ToSend(p.src) != []
    requires q == p.(src := p.src.(fmt := m.fmt), toDst := p.toDst + [Ctl(m)])
    ensures Spoilt(q, |p.toDst|, d.size)
  {
    FlightIsRest(p, d);
    hide Inv;
    var rest := d.payload[|p.dst.written|..];
    assert |p.toDst| + |ToSend(p.src)| == |rest|;
    assert q.toDst[..|p.toDst|] == p.toDst;
    forall i | 0 <= i < |p.toDst|
      ensures p.toDst[i].Raw?
    {
      assert p.toDst[i] == (p.toDst + Raws(ToSend(p.src)))[i];
    }
  }

  // ---- What one read takes ----

  /** In front of payload bytes the message reader takes up to 65535 of them for a message, whatever
      they parse as, and they are never written; or its read fails and takes nothing. */
  lemma ReaderTakesPayload(p: Pair, k: nat, parsed: Option<Msg>)
    requires p.dst.reader.Reading? && 1 <= k <= |p.toDst| && AllRaw(p.toDst[..k])
    ensures CanAct(p, Act(AtDst, ReadOther(k, parsed))) <==> k <= 65535
    ensures k <= 65535 ==>
              Perform(p, Act(AtDst, ReadOther(k, parsed)))
              == p.(dst := p.dst.(reader := if parsed == None then Gate else Handling(parsed.value)), toDst := p.toDst[k..])
    ensures CanAct(p, Act(AtDst, ReadError)) && Perform(p, Act(AtDst, ReadError)) == p.(dst := p.dst.(reader := Gate))
  {
    assert p.toDst[..k][0] == p.toDst[0];
    assert p.toSrc + [] == p.toSrc && p.toDst[0..] == p.toDst;
  }

  /** The payload loop takes up to 32768 payload bytes at a time and counts each of them once. */
  lemma LoopTakesPayload(p: Pair, k: nat, b: nat)
    requires p.dst.writer.Receiving? && p.dst.writer.got < p.dst.writer.total
    requires 1 <= k <= |p.toDst| && AllRaw(p.toDst[..k])
    ensures CanAct(p, Act(AtDst, Receive(k, b))) <==> b == k <= 32768
    ensures b == k <= 32768 ==>
              Perform(p, Act(AtDst, Receive(k, b)))
              == p.(dst := p.dst.(written := p.dst.written + p.toDst[..k],
                                  writer := Receiving(p.dst.writer.total, p.dst.writer.got + k)),
                    toDst := p.toDst[k..])
  {
    assert p.toDst[..k][0].Raw?;
    assert p.toSrc + [] == p.toSrc;
  }

  /** A message that is alone in flight when the payload loop reads: a cancel message interrupts the
      loop and does not go into the file; any other goes into the file and does not interrupt it. */
  lemma LoneMessageRead(p: Pair, m: Msg, b: nat)
    requires p.dst.writer.Receiving? && p.dst.writer.got < p.dst.writer.total && p.toDst == [Ctl(m)]
    ensures CanAct(p, Act(AtDst, ReceiveCancel(1))) <==> m.cmd == CancelSrc
    ensures CanAct(p, Act(AtDst, Receive(1, b))) <==> m.cmd != CancelSrc && 1 <= b <= 32768
    ensures m.cmd == CancelSrc ==>
              var n := Perform(p, Act(AtDst, ReceiveCancel(1))).dst;
              n.outcome == Interrupted && n.written == p.dst.written && n.phase.Uninit?
    ensures m.cmd != CancelSrc && 1 <= b <= 32768 ==>
              var n := Perform(p, Act(AtDst, Receive(1, b))).dst;
              n.written == p.dst.written + [Ctl(m)] && n.writer == Receiving(p.dst.writer.total, p.dst.writer.got + b)
  {
    assert p.toDst[..1] == p.toDst && !p.toDst[..1][0].Raw?;
  }

  /** An acceptance that does not wait for the mutex can fall into the payload loop, and is lost when
      the loop ends. */
  lemma UnlockedAcceptIsLost(p: Pair)
    requires p.dst.writer.Receiving? && p.dst.writer.got >= p.dst.writer.total && p.dst.lock.WriterHolds?
    ensures var a, b := Act(AtDst, AcceptUnlocked), Act(AtDst, ReceiveEnds);
            && CanAct(p, a) && Perform(p, a) == p.(dst := p.dst.(phase := DestInit))
            && CanAct(Perform(p, a), b) && Perform(Perform(p, a), b).dst.phase.Uninit?
  {
    hide Perform, Apply;
    UnlockedIs(p);
    CompletesIs(p.(dst := p.dst.(phase := DestInit)));
  }

  lemma UnlockedIs(p: Pair)
    ensures var a := Act(AtDst, AcceptUnlocked); CanAct(p, a) && Perform(p, a) == p.(dst := p.dst.(phase := DestInit))
  {
    hide Perform, Raws;
    Silent(p, Act(AtDst, AcceptUnlocked));
  }
}
