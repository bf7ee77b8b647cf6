// One transfer between two nodes of data_sharing/client/p2p/p2p.go, over first-in first-out
// channels: both nodes run the steps of module Transfer.
module TransferPair {
  import opened Bytes
  import opened Transfer

  /** The receiving and the sending node, and what is in flight to each. */
  datatype Pair = Pair(dst: Node, src: Node, toDst: seq<Cell>, toSrc: seq<Cell>)

  datatype Side = AtDst | AtSrc

  datatype Act = Act(side: Side, what: Label)

  function Inbox(p: Pair, side: Side): seq<Cell> {
    if side.AtDst? then p.toDst else p.toSrc
  }

  function NodeAt(p: Pair, side: Side): Node {
    if side.AtDst? then p.dst else p.src
  }

  predicate CanAct(p: Pair, a: Act) {
    Enabled(NodeAt(p, a.side), a.what, Inbox(p, a.side))
  }

  function Perform(p: Pair, a: Act): Pair
    requires CanAct(p, a)
  {
    var e := Apply(NodeAt(p, a.side), a.what, Inbox(p, a.side));
    var taken := if e.taken <= |Inbox(p, a.side)| then e.taken else 0;
    if a.side.AtDst?
    then Pair(e.node, p.src, p.toDst[taken..], p.toSrc + e.out)
    else Pair(p.dst, e.node, p.toDst + e.out, p.toSrc[taken..])
  }

  predicate CanRun(p: Pair, acts: seq<Act>)
    decreases |acts|
  {
    acts == [] || (CanAct(p, acts[0]) && CanRun(Perform(p, acts[0]), acts[1..]))
  }

  function Run(p: Pair, acts: seq<Act>): Pair
    requires CanRun(p, acts)
    decreases |acts|
  {
    if acts == [] then p else Run(Perform(p, acts[0]), acts[1..])
  }

  // ---- The conditions under which one transfer is alone on its socket ----

  const ACK: Cell := Reply(FileReqAck)

  /** The receiver has asked and been acknowledged, or its transfer is over. */
  predicate Past(n: Node) {
    n.outcome != Pending || n.phase.ProcessingAck?
  }

  /** The sending side only serves while a transfer is on: its user starts and copies nothing and
      it writes nothing else to the socket, but its sending may break.  The receiving user accepts
      once; it copies nothing before the payload loop has read the size; before its request it
      offers nothing that changes the stored format, and before the acknowledgement no file or
      image.  An acknowledgement and a cancel message are read on their own; no payload chunk
      parses as a cancel message; messages are not refused by the check of the source address; the
      receiver's reads do not break. */
  predicate Orderly(p: Pair, a: Act) {
    if a.side.AtSrc? then
      match a.what
      case Handle(mine, _, _) => mine
      case UserAccept => false
      case UserDrop(_, _) => false
      case UserCopies(_, _, _) => false
      case AcceptUnlocked => false
      case SendClip(_) => p.dst.outcome != Pending
      case _ => true
    else
      match a.what
      case Handle(mine, _, _) => mine
      case ReadOther(_, _) => p.toDst != [] ==> p.toDst[0] != ACK
      case Receive(k, _) => k <= |p.toDst| && AllRaw(p.toDst[..k])
      case ReceiveCancel(k) => k <= |p.toDst| && IsCancel(p.toDst[..k])
      case ReceiveBreaks => false
      case UserAccept => p.dst.phase.Uninit? && p.dst.outcome.Pending?
      case UserDrop(_, _) => false
      case UserCopies(_, _, _) => p.dst.writer.Receiving? || p.dst.outcome != Pending
      case AcceptUnlocked => false
      case SendClip(m) => Past(p.dst) || (m.fmt.TextFmt? && (p.dst.phase.Processing? || p.dst.fmt.TextFmt?))
      case _ => true
  }

  predicate OrderlyRun(p: Pair, acts: seq<Act>)
    requires CanRun(p, acts)
    decreases |acts|
  {
    acts == [] || (Orderly(p, acts[0]) && OrderlyRun(Perform(p, acts[0]), acts[1..]))
  }

  /** Two connected nodes at rest. */
  predicate AtRest(p: Pair) {
    && p.dst.phase.Uninit? && p.src.phase.Uninit?
    && p.dst.lock.Free? && p.src.lock.Free?
    && p.dst.reader.Gate? && p.src.reader.Gate?
    && p.dst.writer.Idle? && p.src.writer.Idle?
    && p.dst.outcome.Pending? && p.dst.written == []
    && p.toDst == [] && p.toSrc == []
  }

  /** Before a paste: the size the receiver was told is the size of what the sender would send. */
  ghost predicate Ready(p: Pair, payload: seq<byte>) {
    && AtRest(p)
    && payload == PayloadOf(p.src, p.dst.fmt)
    && p.dst.announced == |payload|
  }

  // ---- The invariant ----

  /** What a run is about: the format the receiver asks for, what the sender has of it, and the
      size the receiver was told.  With offers the receiver may have offered a file or an image
      before its request, which empties the sender once it is heard. */
  datatype Deal = Deal(fmt: Fmt, payload: seq<byte>, size: nat, offers: bool)

  /** The deal after a step. */
  predicate Shrunk(d: Deal, e: Deal) {
    e == d || (d.offers && e == d.(payload := []))
  }

  /** What the sender has still to put on the socket. */
  function ToSend(src: Node): seq<byte> {
    match src.reader
    case Opening(fmt) => PayloadOf(src, fmt)
    case Sending(left) => left
    case _ => []
  }

  predicate Serving(src: Node) {
    src.reader.Opening? || src.reader.Sending?
  }

  /** Some of the rest, and then word that the sending broke off. */
  predicate Broken(flight: seq<Cell>, rest: seq<byte>) {
    flight != [] && flight[|flight| - 1] == Reply(CancelSrc) && flight[..|flight| - 1] <= Raws(rest)
  }

  /** The payload from position at on is in flight or still to be sent; or the sender has broken
      off and says so. */
  ghost predicate Flows(flight: seq<Cell>, src: Node, payload: seq<byte>, at: nat) {
    at <= |payload| &&
    (flight + Raws(ToSend(src)) == Raws(payload[at..]) || (!Serving(src) && Broken(flight, payload[at..])))
  }

  /** Requests on their way to the sender. */
  function Requests(cells: seq<Cell>): nat {
    if cells == [] then 0
    else (if cells[0].Ctl? && cells[0].msg.cmd == FileReq then 1 else 0) + Requests(cells[1..])
  }

  function Asked(p: Pair): nat {
    Requests(p.toSrc) + if p.src.reader.Handling? && p.src.reader.msg.cmd == FileReq then 1 else 0
  }

  /** Text, the request, and offers of files and images where they are allowed. */
  predicate FromDst(m: Msg, fmt: Fmt, offers: bool) {
    (m.cmd == TextTran && (m.fmt == TextFmt || offers)) || (m.cmd == FileReq && m.fmt == fmt)
  }

  /** The sender has still to take up what it has to send. */
  predicate NeedsPayload(p: Pair) {
    (p.dst.outcome.Pending? && (p.dst.phase.Uninit? || p.dst.phase.DestInit?)) || Asked(p) > 0 || p.src.reader.Opening?
  }

  /** The sending node at any time of the run. */
  ghost predicate SrcInv(p: Pair, d: Deal) {
    var n := p.src;
    && LockDiscipline(n)
    && (n.phase.Uninit? || n.phase.SrcInit?)
    && (n.phase.SrcInit? <==> Serving(n))
    && n.writer.Idle?
    && (NeedsPayload(p) ==> PayloadOf(n, d.fmt) == d.payload)
    && (n.reader.Handling? ==> FromDst(n.reader.msg, d.fmt, Past(p.dst) || d.offers))
    && (n.reader.Opening? ==> n.reader.fmt == d.fmt)
    && (forall i :: 0 <= i < |p.toSrc| ==> p.toSrc[i].Ctl? && FromDst(p.toSrc[i].msg, d.fmt, Past(p.dst) || d.offers))
  }

  predicate AwaitsNothing(n: Node) {
    (n.reader.Gate? || n.reader.Reading?) && n.writer.Idle?
  }

  /** Nobody has asked, nothing is in flight. */
  ghost predicate Quiet(p: Pair) {
    Asked(p) == 0 && !Serving(p.src) && p.toDst == []
  }

  /** What may be in flight once the transfer is over: a cancel message and new offers. */
  predicate Parting(m: Msg) {
    m.cmd == CancelSrc || m.cmd == TextTran
  }

  predicate Tail(cells: seq<Cell>) {
    forall i :: 0 <= i < |cells| ==> cells[i].Ctl? && Parting(cells[i].msg)
  }

  /** Where the transfer stands, by the receiver's phase.  The stored format matters until the
      request is out. */
  ghost predicate Stage(p: Pair, d: Deal) {
    var n, payload := p.dst, d.payload;
    if n.outcome != Pending then
      && n.phase.Uninit? && n.writer.Idle? && Asked(p) == 0
      && (n.reader.Gate? || n.reader.Reading? || (n.reader.Handling? && Parting(n.reader.msg)))
      && ToSend(p.src) == [] && Tail(p.toDst)
      && n.written <= Raws(payload)
      && (n.outcome == Completed ==> n.written == Raws(payload) && d.size == |payload|)
    else
      match n.phase
      case Uninit => n.fmt == d.fmt && n.announced == d.size && AwaitsNothing(n) && Quiet(p) && n.written == []
      case DestInit => n.fmt == d.fmt && n.announced == d.size && AwaitsNothing(n) && Quiet(p) && n.written == []
      case Processing =>
        && n.announced == d.size && n.writer.Idle? && n.written == []
        && if n.reader.Handling? then
             n.reader.msg == ACK.msg && Asked(p) == 0 && Flows(p.toDst, p.src, payload, 0)
           else
             && AwaitsNothing(n)
             && ((Asked(p) <= 1 && !Serving(p.src) && p.toDst == [])
                 || (Asked(p) == 0 && p.toDst != [] && p.toDst[0] == ACK && Flows(p.toDst[1..], p.src, payload, 0)))
      case ProcessingAck =>
        && n.reader.Gate? && Asked(p) == 0
        && |n.written| <= |payload| && n.written == Raws(payload[..|n.written|])
        && (n.writer.Idle? ==> n.announced == d.size && n.written == [])
        && (n.writer.Receiving? ==> n.writer.total == d.size && n.writer.got == |n.written|)
        && Flows(p.toDst, p.src, payload, |n.written|)
      case _ => false
  }

  ghost predicate Inv(p: Pair, d: Deal) {
    && |d.payload| <= d.size
    && LockDiscipline(p.dst) && !Serving(p.dst)
    && SrcInv(p, d)
    && Stage(p, d)
  }

  lemma {:induction false} RequestsAppend(cells: seq<Cell>, c: Cell)
    ensures Requests(cells + [c]) == Requests(cells) + if c.Ctl? && c.msg.cmd == FileReq then 1 else 0
  {
    if cells != [] {
      assert (cells + [c])[1..] == cells[1..] + [c];
      RequestsAppend(cells[1..], c);
    }
  }

  lemma {:induction false} RequestsDrop(cells: seq<Cell>, k: nat)
    requires k <= |cells|
    ensures Requests(cells[k..]) <= Requests(cells)
  {
    if k > 0 {
      RequestsDrop(cells[1..], k - 1);
      assert cells[1..][k - 1..] == cells[k..];
    }
  }

  lemma RawsSplit(bytes: seq<byte>, k: nat)
    requires k <= |bytes|
    ensures Raws(bytes) == Raws(bytes[..k]) + Raws(bytes[k..])
  {
  }

  function DealOf(p: Pair, payload: seq<byte>): Deal {
    Deal(p.dst.fmt, payload, p.dst.announced, false)
  }

  lemma ReadyInv(p: Pair, payload: seq<byte>)
    requires Ready(p, payload)
    ensures Inv(p, DealOf(p, payload))
  {
  }

  /** A step that takes nothing off the inbox. */
  lemma TakesNothing(p: Pair, a: Act)
    requires CanAct(p, a) && Apply(NodeAt(p, a.side), a.what, Inbox(p, a.side)).taken == 0
    ensures var e := Apply(NodeAt(p, a.side), a.what, Inbox(p, a.side));
            Perform(p, a) == if a.side.AtDst? then p.(dst := e.node, toSrc := p.toSrc + e.out)
                             else p.(src := e.node, toDst := p.toDst + e.out)
  {
    hide Apply, Enabled;
    var inbox := Inbox(p, a.side);
    assert inbox[0..] == inbox;
  }

  /** A step that also writes nothing. */
  lemma Silent(p: Pair, a: Act)
    requires CanAct(p, a)
    requires var e := Apply(NodeAt(p, a.side), a.what, Inbox(p, a.side)); e.taken == 0 && e.out == []
    ensures var node := Apply(NodeAt(p, a.side), a.what, Inbox(p, a.side)).node;
            Perform(p, a) == if a.side.AtDst? then p.(dst := node) else p.(src := node)
  {
    TakesNothing(p, a);
    hide Apply, Enabled, Perform, NodeAt, Inbox;
    var out := Apply(NodeAt(p, a.side), a.what, Inbox(p, a.side)).out;
    AddsNothing(p.toSrc, out);
    AddsNothing(p.toDst, out);
  }

  lemma AddsNothing(cells: seq<Cell>, out: seq<Cell>)
    requires out == []
    ensures cells + out == cells
  {
  }

  // ---- Steps of the sender ----

  /** A step of the sender that neither serves nor begins to serve. */
  predicate SameService(p: Pair, q: Pair) {
    && q.dst == p.dst && q.toDst == p.toDst
    && ToSend(q.src) == ToSend(p.src) && Serving(q.src) == Serving(p.src)
    && Asked(q) <= Asked(p)
  }

  lemma SameServiceStage(p: Pair, q: Pair, d: Deal)
    requires Stage(p, d) && SameService(p, q)
    ensures Stage(q, d)
  {
    hide Asked, ToSend, Serving, Raws;
  }

  /** A step of a serving sender: what it puts on the socket is what it no longer has to send,
      or word that it has broken off. */
  ghost predicate ServiceStep(p: Pair, q: Pair) {
    && q.dst == p.dst && Asked(q) == Asked(p) && Serving(p.src)
    && p.toDst <= q.toDst
    && var out := q.toDst[|p.toDst|..];
       || out + Raws(ToSend(q.src)) == Raws(ToSend(p.src))
       || (!Serving(q.src) && out == [Reply(CancelSrc)])
  }

  lemma ServiceFlows(p: Pair, q: Pair, flight: seq<Cell>, payload: seq<byte>, at: nat)
    requires ServiceStep(p, q) && Flows(flight, p.src, payload, at)
    ensures Flows(flight + q.toDst[|p.toDst|..], q.src, payload, at)
  {
    var out := q.toDst[|p.toDst|..];
    assert flight + Raws(ToSend(p.src)) == Raws(payload[at..]);
    if out + Raws(ToSend(q.src)) == Raws(ToSend(p.src)) {
      assert (flight + out) + Raws(ToSend(q.src)) == flight + (out + Raws(ToSend(q.src)));
    } else {
      assert (flight + out)[..|flight|] == flight;
    }
  }

  lemma ServiceStage(p: Pair, q: Pair, d: Deal)
    requires Stage(p, d) && ServiceStep(p, q)
    ensures Stage(q, d)
  {
    var n := p.dst;
    if n.outcome != Pending {
      hide Asked, Raws;
      assert q.toDst == p.toDst + q.toDst[|p.toDst|..];
      DoneService(p, q);
    } else if n.phase.Processing? {
      ProcessingService(p, q, d);
    } else {
      hide Asked, Raws, ServiceStep, Flows;
      assert n.phase.ProcessingAck?;
      AckService(p, q, d);
    }
  }

  /** The acknowledgement has not been heard yet. */
  lemma ProcessingService(p: Pair, q: Pair, d: Deal)
    requires Stage(p, d) && ServiceStep(p, q) && p.dst.outcome.Pending? && p.dst.phase.Processing?
    ensures Stage(q, d)
  {
    hide Asked, Raws, ToSend, Flows;
    var out := q.toDst[|p.toDst|..];
    assert q.toDst == p.toDst + out;
    if p.dst.reader.Handling? {
      ServiceFlows(p, q, p.toDst, d.payload, 0);
    } else {
      assert q.toDst[1..] == p.toDst[1..] + out;
      ServiceFlows(p, q, p.toDst[1..], d.payload, 0);
    }
  }

  lemma AckService(p: Pair, q: Pair, d: Deal)
    requires Stage(p, d) && ServiceStep(p, q) && p.dst.outcome.Pending? && p.dst.phase.ProcessingAck?
    ensures Stage(q, d)
  {
    hide Asked, Raws, ToSend, Flows;
    assert q.toDst == p.toDst + q.toDst[|p.toDst|..];
    ServiceFlows(p, q, p.toDst, d.payload, |p.dst.written|);
  }

  lemma DoneService(p: Pair, q: Pair)
    requires ServiceStep(p, q) && ToSend(p.src) == [] && Tail(p.toDst)
    ensures ToSend(q.src) == [] && Tail(q.toDst)
  {
    var out := q.toDst[|p.toDst|..];
    assert q.toDst == p.toDst + out;
    if out + Raws(ToSend(q.src)) == Raws(ToSend(p.src)) {
      assert |out| + |ToSend(q.src)| == 0;
    }
  }

  /** The sender takes up the one request there is. */
  lemma StartStage(p: Pair, q: Pair, d: Deal)
    requires Stage(p, d) && q.dst == p.dst
    requires Asked(p) >= 1 && Asked(q) == Asked(p) - 1
    requires q.src.reader == Opening(d.fmt) && PayloadOf(q.src, d.fmt) == d.payload
    requires q.toDst == p.toDst + [ACK]
    ensures Stage(q, d)
  {
    hide Asked;
    assert p.dst.phase.Processing? && p.toDst == [];
    assert q.toDst[1..] == [];
    assert [] + Raws(d.payload) == Raws(d.payload[0..]);
  }

  lemma SrcReads(p: Pair, what: Label, d: Deal)
    requires SrcInv(p, d)
    requires what.ReadMessage? || what.ReadOther?
    requires CanAct(p, Act(AtSrc, what))
    ensures SameService(p, Perform(p, Act(AtSrc, what)))
    ensures SrcInv(Perform(p, Act(AtSrc, what)), d)
  {
    assert p.toDst + [] == p.toDst;
    if what.ReadOther? {
      assert p.toSrc[..what.k][0] == p.toSrc[0];
      RequestsDrop(p.toSrc, what.k);
    }
  }

  lemma SrcSends(p: Pair, a: Act, d: Deal)
    requires SrcInv(p, d)
    requires a.side.AtSrc? && a.what.SendPart? && CanAct(p, a)
    ensures ServiceStep(p, Perform(p, a)) && SrcInv(Perform(p, a), d)
  {
    hide Raws, Requests;
    var q := Perform(p, a);
    var left, k := p.src.reader.left, a.what.n;
    RawsSplit(left, k);
    assert p.toSrc[0..] == p.toSrc;
    assert q.toDst == p.toDst + Raws(left[..k]);
    assert q.toDst[|p.toDst|..] == Raws(left[..k]);
  }

  lemma OpensIs(p: Pair)
    requires CanAct(p, Act(AtSrc, Open))
    ensures Perform(p, Act(AtSrc, Open)) == p.(src := p.src.(reader := Sending(ToSend(p.src))))
  {
    hide Perform, Raws;
    Silent(p, Act(AtSrc, Open));
  }

  predicate Ends(what: Label) {
    what.OpenFails? || what.SendEnds? || what.SendBreaks?
  }

  lemma EndsIs(p: Pair, what: Label) returns (out: seq<Cell>)
    requires Ends(what) && CanAct(p, Act(AtSrc, what))
    ensures Perform(p, Act(AtSrc, what)) == p.(src := Served(p.src), toDst := p.toDst + out)
    ensures Serving(p.src) && (out == [Reply(CancelSrc)] || (out == [] && ToSend(p.src) == []))
  {
    hide Perform, Raws;
    out := if what.SendEnds? then [] else [Reply(CancelSrc)];
    TakesNothing(p, Act(AtSrc, what));
  }

  lemma ServiceBy(p: Pair, q: Pair, out: seq<Cell>)
    requires q.dst == p.dst && Asked(q) == Asked(p) && Serving(p.src) && q.toDst == p.toDst + out
    requires out + Raws(ToSend(q.src)) == Raws(ToSend(p.src)) || (!Serving(q.src) && out == [Reply(CancelSrc)])
    ensures ServiceStep(p, q)
  {
    hide Asked, Raws, ToSend, Serving;
    assert q.toDst[|p.toDst|..] == out;
  }

  lemma OpenedService(p: Pair, d: Deal)
    requires SrcInv(p, d) && p.src.reader.Opening?
    ensures var q := p.(src := p.src.(reader := Sending(ToSend(p.src)))); ServiceStep(p, q) && SrcInv(q, d)
  {
    hide Requests, Raws;
    var q := p.(src := p.src.(reader := Sending(ToSend(p.src))));
    NoRaws();
    AddsNothing(p.toDst, []);
    JoinsNothing([], Raws(ToSend(q.src)));
    ServiceBy(p, q, []);
  }

  lemma EndedService(p: Pair, out: seq<Cell>, d: Deal)
    requires SrcInv(p, d) && Serving(p.src)
    requires out == [Reply(CancelSrc)] || (out == [] && ToSend(p.src) == [])
    ensures var q := p.(src := Served(p.src), toDst := p.toDst + out); ServiceStep(p, q) && SrcInv(q, d)
  {
    hide Requests, Raws;
    NoRaws();
    AddsNothing([], Raws([]));
    ServiceBy(p, p.(src := Served(p.src), toDst := p.toDst + out), out);
  }

  lemma JoinsNothing(cells: seq<Cell>, out: seq<Cell>)
    requires cells == []
    ensures cells + out == out
  {
  }

  lemma SrcOpens(p: Pair, a: Act, d: Deal)
    requires SrcInv(p, d) && a == Act(AtSrc, Open) && CanAct(p, a)
    ensures ServiceStep(p, Perform(p, a)) && SrcInv(Perform(p, a), d)
  {
    hide Perform, SrcInv, ServiceStep, Raws;
    OpensIs(p);
    OpenedService(p, d);
  }

  lemma SrcEnds(p: Pair, a: Act, d: Deal)
    requires SrcInv(p, d) && a.side.AtSrc? && Ends(a.what) && CanAct(p, a)
    ensures ServiceStep(p, Perform(p, a)) && SrcInv(Perform(p, a), d)
  {
    hide Perform, SrcInv, ServiceStep, CanAct;
    assert a == Act(AtSrc, a.what);
    var out := EndsIs(p, a.what);
    EndedService(p, out, d);
  }

  lemma StartIs(p: Pair, isNew: bool, accepted: bool)
    requires p.src.phase.Uninit? && p.src.lock.Free?
    requires p.src.reader.Handling? && p.src.reader.msg.cmd == FileReq
    ensures var a := Act(AtSrc, Handle(true, isNew, accepted));
            && CanAct(p, a)
            && Perform(p, a) == Pair(p.dst, p.src.(phase := SrcInit, lock := ReaderHolds, reader := Opening(p.src.reader.msg.fmt)),
                                     p.toDst + [ACK], p.toSrc)
  {
    hide Raws, Pasted, Perform;
    TakesNothing(p, Act(AtSrc, Handle(true, isNew, accepted)));
  }

  lemma StartedInv(p: Pair, q: Pair, d: Deal)
    requires Inv(p, d) && p.src.lock.Free?
    requires p.src.phase.Uninit? && p.src.reader.Handling? && p.src.reader.msg.cmd == FileReq
    requires q == Pair(p.dst, p.src.(phase := SrcInit, lock := ReaderHolds, reader := Opening(d.fmt)), p.toDst + [ACK], p.toSrc)
    ensures Inv(q, d)
  {
    hide Stage, Requests, Raws, Flows;
    StartStage(p, q, d);
  }

  lemma SrcStarts(p: Pair, a: Act, d: Deal)
    requires Inv(p, d) && a.side.AtSrc? && a.what.Handle?
    requires CanAct(p, a) && Orderly(p, a) && p.src.reader.msg.cmd == FileReq
    ensures Inv(Perform(p, a), d)
  {
    assert p.src.phase.Uninit? && p.src.reader.msg.fmt == d.fmt;
    StartIs(p, a.what.isNew, a.what.accepted);
    hide Perform, Inv;
    assert a == Act(AtSrc, Handle(true, a.what.isNew, a.what.accepted));
    StartedInv(p, Perform(p, a), d);
  }

  /** A message that is no request moves the reader back to its gate and may replace what the sender
      has. */
  lemma HearIs(p: Pair, isNew: bool, accepted: bool)
    requires p.src.lock.Free? && p.src.reader.Handling? && p.src.reader.msg.cmd == TextTran
    ensures var a := Act(AtSrc, Handle(true, isNew, accepted)); var n := p.src;
            CanAct(p, a) && Perform(p, a) == p.(src := Pasted(n.(reader := Gate), n.reader.msg, isNew))
  {
    hide Raws, Pasted, Perform;
    Silent(p, Act(AtSrc, Handle(true, isNew, accepted)));
  }

  /** What Pasted leaves alone and what it may do to the payload. */
  lemma PastedIs(n: Node, m: Msg, isNew: bool, fmt: Fmt)
    requires m.cmd == TextTran
    ensures var e := Pasted(n, m, isNew);
            && e.phase == n.phase && e.lock == n.lock && e.reader == n.reader && e.writer == n.writer
            && (PayloadOf(e, fmt) == PayloadOf(n, fmt) || (m.fmt != TextFmt && PayloadOf(e, fmt) == []))
  {
  }

  /** While the payload is still needed nothing of it is in flight. */
  lemma NeededStage(p: Pair, n: Node, d: Deal, e: Deal)
    requires Stage(p, d) && NeedsPayload(p) && p.src.reader.Handling? && p.src.reader.msg.cmd == TextTran && n.reader.Gate?
    requires e.fmt == d.fmt && e.size == d.size
    ensures Stage(p.(src := n), e) && !Past(p.dst)
  {
    hide Requests, Flows, Raws;
  }

  lemma HeardInv(p: Pair, n: Node, d: Deal) returns (e: Deal)
    requires Inv(p, d) && p.src.reader.Handling? && p.src.reader.msg.cmd == TextTran
    requires n.phase == p.src.phase && n.lock == p.src.lock && n.reader.Gate? && n.writer == p.src.writer
    requires var f := PayloadOf(n, d.fmt);
             f == PayloadOf(p.src, d.fmt) || ((Past(p.dst) || d.offers) && f == [])
    ensures Inv(p.(src := n), e) && Shrunk(d, e)
  {
    var q := p.(src := n);
    assert Asked(q) == Asked(p) && NeedsPayload(q) == NeedsPayload(p);
    e := d;
    if NeedsPayload(p) {
      e := d.(payload := PayloadOf(n, d.fmt));
      NeededStage(p, n, d, e);
    } else {
      SameServiceStage(p, q, d);
    }
    hide Stage, Asked;
  }

  lemma HandlesOffer(p: Pair, d: Deal)
    requires SrcInv(p, d) && p.src.reader.Handling? && p.src.reader.msg.cmd != FileReq
    ensures p.src.reader.msg.cmd == TextTran && (p.src.reader.msg.fmt == TextFmt || Past(p.dst) || d.offers)
  {
    hide Requests;
  }

  lemma HandleIs(p: Pair, a: Act)
    requires a.side.AtSrc? && a.what.Handle? && CanAct(p, a) && Orderly(p, a)
    ensures a == Act(AtSrc, Handle(true, a.what.isNew, a.what.accepted)) && p.src.lock.Free? && p.src.reader.Handling?
  {
  }

  lemma SrcHears(p: Pair, a: Act, d: Deal) returns (e: Deal)
    requires Inv(p, d) && a.side.AtSrc?
    requires a.what.Handle? && p.src.reader.Handling? && p.src.reader.msg.cmd != FileReq
    requires CanAct(p, a) && Orderly(p, a)
    ensures Inv(Perform(p, a), e) && Shrunk(d, e)
  {
    hide SrcInv, Stage, Perform, CanAct, Orderly, Pasted;
    HandlesOffer(p, d);
    HandleIs(p, a);
    hide Inv;
    var n, m := p.src.(reader := Gate), p.src.reader.msg;
    HearIs(p, a.what.isNew, a.what.accepted);
    PastedIs(n, m, a.what.isNew, d.fmt);
    PayloadAtGate(p.src, d.fmt);
    e := HeardInv(p, Pasted(n, m, a.what.isNew), d);
  }

  lemma PayloadAtGate(n: Node, fmt: Fmt)
    ensures PayloadOf(n.(reader := Gate), fmt) == PayloadOf(n, fmt)
  {
  }

  /** The steps of an idle sender move its reader between the gate and the socket, if anything. */
  lemma IdleIs(p: Pair, what: Label) returns (reader: Reader)
    requires p.src.phase.Uninit? || p.src.phase.SrcInit?
    requires what.EnterRead? || what.ReadError? || what.CallWriter?
    requires CanAct(p, Act(AtSrc, what))
    ensures reader == p.src.reader || (AtGate(reader) && AtGate(p.src.reader))
    ensures Perform(p, Act(AtSrc, what)) == p.(src := p.src.(reader := reader))
  {
    hide Raws, Handled, Pasted, Perform;
    reader := if what.EnterRead? then Reading else if what.ReadError? then Gate else p.src.reader;
    Silent(p, Act(AtSrc, what));
  }

  predicate AtGate(r: Reader) {
    r.Gate? || r.Reading?
  }

  lemma SrcIdles(p: Pair, a: Act, d: Deal)
    requires SrcInv(p, d) && a.side.AtSrc?
    requires a.what.EnterRead? || a.what.ReadError? || a.what.CallWriter?
    requires CanAct(p, a)
    ensures SameService(p, Perform(p, a)) && SrcInv(Perform(p, a), d)
  {
    hide Requests, Raws, Perform, CanAct;
    var reader := IdleIs(p, a.what);
  }

  lemma OtherSideStays(p: Pair, a: Act)
    requires CanAct(p, a)
    ensures a.side.AtSrc? ==> Perform(p, a).dst == p.dst
    ensures a.side.AtDst? ==> Perform(p, a).src == p.src
  {
  }

  lemma SrcStep(p: Pair, a: Act, d: Deal) returns (e: Deal)
    requires Inv(p, d) && a.side.AtSrc? && CanAct(p, a) && Orderly(p, a)
    ensures Inv(Perform(p, a), e) && Shrunk(d, e)
  {
    e := d;
    if a.what.Handle? {
      if p.src.reader.msg.cmd == FileReq {
        SrcStarts(p, a, d);
      } else {
        e := SrcHears(p, a, d);
      }
    } else if a.what.SendPart? || a.what.Open? || Ends(a.what) {
      SrcServiceStep(p, a, d);
    } else if a.what.SendClip? {
      SrcOffers(p, a, d);
    } else {
      SrcOtherStep(p, a, d);
    }
  }

  /** An offer of the sender once the transfer is over. */
  lemma OfferedInv(p: Pair, m: Msg, d: Deal)
    requires Inv(p, d) && p.dst.outcome != Pending && m.cmd == TextTran
    ensures Inv(p.(src := p.src.(fmt := m.fmt), toDst := p.toDst + [Ctl(m)]), d)
  {
    hide Requests, Flows, Raws;
  }

  lemma OfferIs(p: Pair, a: Act)
    requires CanAct(p, a) && a.what.SendClip?
    ensures a.what.msg.cmd == TextTran
    ensures var m := a.what.msg;
            Perform(p, a) == if a.side.AtDst? then p.(dst := p.dst.(fmt := m.fmt), toSrc := p.toSrc + [Ctl(m)])
                             else p.(src := p.src.(fmt := m.fmt), toDst := p.toDst + [Ctl(m)])
  {
    hide Perform, Raws;
    TakesNothing(p, a);
  }

  lemma SrcOffers(p: Pair, a: Act, d: Deal)
    requires Inv(p, d) && a.side.AtSrc? && CanAct(p, a) && Orderly(p, a) && a.what.SendClip?
    ensures Inv(Perform(p, a), d)
  {
    hide Inv, Perform, CanAct;
    OfferIs(p, a);
    OfferedInv(p, a.what.msg, d);
  }

  lemma SrcServiceStep(p: Pair, a: Act, d: Deal)
    requires Inv(p, d) && a.side.AtSrc? && CanAct(p, a)
    requires a.what.SendPart? || a.what.Open? || Ends(a.what)
    ensures Inv(Perform(p, a), d)
  {
    OtherSideStays(p, a);
    hide Stage, SrcInv, Perform, CanAct, ServiceStep, ToSend;
    if a.what.SendPart? {
      SrcSends(p, a, d);
    } else if a.what.Open? {
      assert a == Act(AtSrc, Open);
      SrcOpens(p, a, d);
    } else {
      SrcEnds(p, a, d);
    }
    ServiceStage(p, Perform(p, a), d);
  }

  lemma SrcOtherStep(p: Pair, a: Act, d: Deal)
    requires Inv(p, d) && a.side.AtSrc? && CanAct(p, a)
    requires a.what.ReadMessage? || a.what.ReadOther? || a.what.EnterRead? || a.what.ReadError? || a.what.CallWriter?
    ensures Inv(Perform(p, a), d)
  {
    OtherSideStays(p, a);
    hide Stage, SrcInv, Perform, SameService;
    if a.what.ReadMessage? || a.what.ReadOther? {
      SrcReads(p, a.what, d);
    } else {
      SrcIdles(p, a, d);
    }
    SameServiceStage(p, Perform(p, a), d);
  }

  // ---- Steps of the receiver ----

  /** The first cells in flight are the next payload bytes, or they end in word that the sender
      has broken off, which is the last thing in flight. */
  lemma NextCells(flight: seq<Cell>, src: Node, payload: seq<byte>, at: nat, k: nat)
    requires Flows(flight, src, payload, at) && 1 <= k <= |flight|
    ensures AllRaw(flight[..k]) ==>
              at + k <= |payload| && flight[..k] == Raws(payload[at..at + k]) && Flows(flight[k..], src, payload, at + k)
    ensures !AllRaw(flight[..k]) ==> k == |flight| && flight[k - 1] == Reply(CancelSrc) && !Serving(src)
  {
    var all := Raws(payload[at..]);
    var last := |flight| - 1;
    if flight + Raws(ToSend(src)) == all {
      FlowsOn(flight, src, payload, at, k);
    } else if k == |flight| {
      assert flight[..k][last] == Reply(CancelSrc);
    } else {
      assert flight[..k] == flight[..last][..k] == all[..k];
      assert all[..k] == Raws(payload[at..at + k]);
      assert flight[k..][..last - k] == flight[..last][k..];
      assert all[k..] == Raws(payload[at + k..]);
    }
  }

  lemma FlowsOn(flight: seq<Cell>, src: Node, payload: seq<byte>, at: nat, k: nat)
    requires at <= |payload| && k <= |flight| && flight + Raws(ToSend(src)) == Raws(payload[at..])
    ensures at + k <= |payload| && flight[..k] == Raws(payload[at..at + k]) && Flows(flight[k..], src, payload, at + k)
    ensures AllRaw(flight[..k])
  {
    var rest := Raws(ToSend(src));
    assert (flight + rest)[..k] == flight[..k] && (flight + rest)[k..] == flight[k..] + rest;
    assert Raws(payload[at..])[..k] == Raws(payload[at..at + k]);
    assert Raws(payload[at..])[k..] == Raws(payload[at + k..]);
  }

  lemma DstReceives(p: Pair, a: Act, d: Deal)
    requires Inv(p, d) && a.side.AtDst? && CanAct(p, a) && Orderly(p, a) && a.what.Receive?
    ensures Inv(Perform(p, a), d)
  {
    hide Requests, ToSend, Flows, IsCancel, Raws;
    var q := Perform(p, a);
    assert p.dst.phase.ProcessingAck?;
    assert p.toSrc + [] == p.toSrc;
    var at, k := |p.dst.written|, a.what.k;
    NextCells(p.toDst, p.src, d.payload, at, k);
    RawsGrow(d.payload, at, k);
  }

  lemma RawsGrow(payload: seq<byte>, at: nat, k: nat)
    requires at + k <= |payload|
    ensures Raws(payload[..at]) + Raws(payload[at..at + k]) == Raws(payload[..at + k])
  {
  }

  lemma CancelledIs(p: Pair, k: nat)
    requires CanAct(p, Act(AtDst, ReceiveCancel(k))) && k == |p.toDst|
    ensures Perform(p, Act(AtDst, ReceiveCancel(k))) == p.(dst := Closed(p.dst, Interrupted), toDst := [])
  {
    assert p.toSrc + [] == p.toSrc;
  }

  lemma CancelledInv(p: Pair, d: Deal)
    requires Inv(p, d) && p.dst.writer.Receiving? && !Serving(p.src)
    ensures Inv(p.(dst := Closed(p.dst, Interrupted), toDst := []), d)
  {
    hide Requests, Flows, Raws;
    assert p.dst.phase.ProcessingAck?;
    RawsSplit(d.payload, |p.dst.written|);
  }

  lemma DstIsCancelled(p: Pair, a: Act, d: Deal)
    requires Inv(p, d) && a.side.AtDst? && CanAct(p, a) && Orderly(p, a) && a.what.ReceiveCancel?
    ensures Inv(Perform(p, a), d)
  {
    assert p.dst.phase.ProcessingAck?;
    var k := a.what.k;
    assert a == Act(AtDst, ReceiveCancel(k)) && !p.toDst[..k][0].Raw?;
    NextCells(p.toDst, p.src, d.payload, |p.dst.written|, k);
    hide Inv, Perform;
    CancelledIs(p, k);
    CancelledInv(p, d);
  }

  lemma NothingLeft(flight: seq<Cell>, src: Node, payload: seq<byte>)
    requires Flows(flight, src, payload, |payload|)
    ensures ToSend(src) == [] && (flight == [] || (flight == [Reply(CancelSrc)] && !Serving(src)))
  {
    if flight + Raws(ToSend(src)) == Raws(payload[|payload|..]) {
      assert |flight| + |ToSend(src)| == 0;
    } else {
      assert |flight[..|flight| - 1]| == 0;
    }
  }

  lemma CompletesIs(p: Pair)
    requires CanAct(p, Act(AtDst, ReceiveEnds))
    ensures Perform(p, Act(AtDst, ReceiveEnds)) == p.(dst := Closed(p.dst, Completed))
  {
    hide Perform;
    Silent(p, Act(AtDst, ReceiveEnds));
  }

  lemma CompletedInv(p: Pair, d: Deal)
    requires Inv(p, d) && p.dst.writer.Receiving? && p.dst.writer.got >= p.dst.writer.total
    ensures Inv(p.(dst := Closed(p.dst, Completed)), d)
  {
    hide Requests, Flows, ToSend, Raws;
    assert p.dst.phase.ProcessingAck?;
    assert d.payload[..|d.payload|] == d.payload;
    NothingLeft(p.toDst, p.src, d.payload);
  }

  lemma DstCompletes(p: Pair, a: Act, d: Deal)
    requires Inv(p, d) && a.side.AtDst? && CanAct(p, a) && a.what.ReceiveEnds?
    ensures Inv(Perform(p, a), d)
  {
    hide Inv;
    CompletesIs(p);
    CompletedInv(p, d);
  }

  /** A receiver whose writer is called before its payload loop keeps the invariant. */
  lemma LoopInv(p: Pair, d: Deal)
    requires Inv(p, d) && p.dst.phase.ProcessingAck? && p.dst.writer.Idle? && p.dst.lock.Free?
    ensures Inv(p.(dst := p.dst.(lock := WriterHolds, writer := Receiving(p.dst.announced, 0))), d)
  {
    hide Requests, Flows, ToSend, Raws;
  }

  lemma RequestInv(p: Pair, d: Deal)
    requires Inv(p, d) && p.dst.phase.DestInit? && p.dst.lock.Free?
    ensures Inv(p.(dst := p.dst.(phase := Processing, written := []),
                   toSrc := p.toSrc + [Ctl(Msg(FileReq, p.dst.fmt, p.dst.announced))]), d)
  {
    hide Flows, ToSend, Raws;
    RequestsAppend(p.toSrc, Ctl(Msg(FileReq, p.dst.fmt, p.dst.announced)));
    hide Requests;
  }

  lemma ClipInv(p: Pair, m: Msg, d: Deal)
    requires Inv(p, d) && m.cmd == TextTran
    requires Past(p.dst) || (m.fmt == TextFmt && (p.dst.phase.Processing? || p.dst.fmt == TextFmt))
    ensures Inv(p.(dst := p.dst.(fmt := m.fmt), toSrc := p.toSrc + [Ctl(m)]), d)
  {
    hide Flows, ToSend, Raws;
    RequestsAppend(p.toSrc, Ctl(m));
    hide Requests;
  }

  lemma DstClips(p: Pair, a: Act, d: Deal)
    requires Inv(p, d) && a.side.AtDst? && CanAct(p, a) && Orderly(p, a) && a.what.SendClip?
    ensures Inv(Perform(p, a), d)
  {
    hide Inv, Perform, CanAct;
    OfferIs(p, a);
    ClipInv(p, a.what.msg, d);
  }

  /** What a call of the writer makes of a receiver in a transfer. */
  lemma WriteIs(p: Pair, mine: bool)
    requires CanAct(p, Act(AtDst, CallWriter(mine))) && !p.dst.phase.FileDropInit?
    ensures var n := p.dst;
            Perform(p, Act(AtDst, CallWriter(mine))) ==
              if !mine then p
              else if n.phase.DestInit? then
                p.(dst := n.(phase := Processing, written := []), toSrc := p.toSrc + [Ctl(Msg(FileReq, n.fmt, n.announced))])
              else if n.phase.ProcessingAck? then
                p.(dst := n.(lock := WriterHolds, writer := Receiving(n.announced, 0)))
              else p
  {
    hide Perform, Raws;
    var a := Act(AtDst, CallWriter(mine));
    if mine && p.dst.phase.DestInit? {
      TakesNothing(p, a);
    } else {
      Silent(p, a);
    }
  }

  lemma NoDropPhase(p: Pair, d: Deal)
    requires Stage(p, d)
    ensures !p.dst.phase.FileDropInit?
  {
    hide Asked, Flows, Raws;
  }

  lemma DstWrites(p: Pair, a: Act, d: Deal)
    requires Inv(p, d) && a.side.AtDst? && CanAct(p, a) && a.what.CallWriter?
    ensures Inv(Perform(p, a), d)
  {
    NoDropPhase(p, d);
    hide Inv;
    assert a == Act(AtDst, CallWriter(a.what.mine));
    assert p.dst.writer.Idle? && (a.what.mine ==> p.dst.lock.Free?);
    WriteIs(p, a.what.mine);
    hide Perform, CanAct;
    if a.what.mine && p.dst.phase.DestInit? {
      RequestInv(p, d);
    } else if a.what.mine && p.dst.phase.ProcessingAck? {
      LoopInv(p, d);
    }
  }

  lemma NoRaws()
    ensures Raws([]) == []
  {
  }

  lemma DstReads(p: Pair, a: Act, d: Deal)
    requires Inv(p, d) && a.side.AtDst? && CanAct(p, a) && Orderly(p, a)
    requires a.what.ReadMessage? || a.what.ReadOther?
    ensures Inv(Perform(p, a), d)
  {
    hide Requests, Flows, ToSend, Raws;
    assert p.toSrc + [] == p.toSrc;
  }

  lemma HearsInv(p: Pair, e: Effect, isNew: bool, accepted: bool, d: Deal)
    requires Inv(p, d) && p.dst.reader.Handling? && p.dst.lock.Free?
    requires e == Handled(p.dst, p.dst.reader.msg, true, isNew, accepted)
    ensures e.taken == 0 && e.out == [] && Inv(p.(dst := e.node), d)
  {
    hide Requests, Flows, ToSend, Raws;
    assert d.payload[..0] == [];
    NoRaws();
  }

  lemma DstHears(p: Pair, a: Act, d: Deal)
    requires Inv(p, d) && a.side.AtDst? && CanAct(p, a) && Orderly(p, a) && a.what.Handle?
    ensures Inv(Perform(p, a), d)
  {
    hide Inv, Perform, Handled;
    HearsInv(p, Apply(p.dst, a.what, p.toDst), a.what.isNew, a.what.accepted, d);
    Silent(p, a);
  }

  lemma ReaderTurns(p: Pair, reader: Reader, d: Deal)
    requires Inv(p, d)
    requires p.dst.reader.Gate? || p.dst.reader.Reading?
    requires reader.Gate? || (reader.Reading? && !p.dst.phase.ProcessingAck?)
    ensures Inv(p.(dst := p.dst.(reader := reader)), d)
  {
    hide Requests, Flows, ToSend, Raws;
  }

  lemma TurnIs(p: Pair, a: Act)
    requires a.side.AtDst? && CanAct(p, a) && (a.what.EnterRead? || a.what.ReadError?)
    ensures Perform(p, a) == p.(dst := p.dst.(reader := if a.what.EnterRead? then Reading else Gate))
  {
    hide Perform, Raws;
    Silent(p, a);
  }

  lemma DstTurns(p: Pair, a: Act, d: Deal)
    requires Inv(p, d) && a.side.AtDst? && CanAct(p, a)
    requires a.what.EnterRead? || a.what.ReadError?
    ensures Inv(Perform(p, a), d)
  {
    TurnIs(p, a);
    assert p.dst.reader.Gate? || p.dst.reader.Reading?;
    assert a.what.EnterRead? ==> !p.dst.phase.ProcessingAck?;
    hide Inv, Perform;
    ReaderTurns(p, if a.what.EnterRead? then Reading else Gate, d);
  }

  lemma AcceptIs(p: Pair)
    requires p.dst.lock.Free?
    ensures CanAct(p, Act(AtDst, UserAccept))
    ensures Perform(p, Act(AtDst, UserAccept)) == p.(dst := p.dst.(phase := DestInit))
  {
    hide Perform, Raws;
    Silent(p, Act(AtDst, UserAccept));
  }

  lemma AcceptedInv(p: Pair, d: Deal)
    requires Inv(p, d) && p.dst.phase.Uninit? && p.dst.outcome.Pending?
    ensures Inv(p.(dst := p.dst.(phase := DestInit)), d)
  {
    hide Requests, Flows, ToSend, Raws;
  }

  /** A copy at the receiver once the size no longer matters. */
  lemma CopiedInv(p: Pair, size: nat, file: Option<seq<byte>>, image: seq<byte>, d: Deal)
    requires Inv(p, d) && (p.dst.writer.Receiving? || p.dst.outcome != Pending)
    ensures Inv(p.(dst := p.dst.(announced := size, file := file, image := image)), d)
  {
    hide Requests, Flows, ToSend, Raws;
  }

  /** A copy at an acknowledged receiver changes the size of the deal. */
  lemma ResizedInv(p: Pair, size: nat, file: Option<seq<byte>>, image: seq<byte>, d: Deal)
    requires Inv(p, d) && p.dst.outcome.Pending? && p.dst.phase.ProcessingAck? && p.dst.writer.Idle? && |d.payload| <= size
    ensures Inv(p.(dst := p.dst.(announced := size, file := file, image := image)), d.(size := size))
  {
    hide Requests, Flows, ToSend, Raws;
  }

  lemma DstCopies(p: Pair, a: Act, d: Deal)
    requires Inv(p, d) && a.side.AtDst? && CanAct(p, a) && a.what.UserCopies? && Orderly(p, a)
    ensures Inv(Perform(p, a), d)
  {
    hide Inv;
    Silent(p, a);
    hide Perform;
    CopiedInv(p, a.what.size, a.what.file, a.what.image, d);
  }

  lemma DstAccepts(p: Pair, d: Deal)
    requires Inv(p, d) && p.dst.lock.Free? && p.dst.phase.Uninit? && p.dst.outcome.Pending?
    ensures Inv(Perform(p, Act(AtDst, UserAccept)), d)
  {
    hide Inv;
    AcceptIs(p);
    AcceptedInv(p, d);
  }

  lemma Step(p: Pair, a: Act, d: Deal) returns (e: Deal)
    requires Inv(p, d) && CanAct(p, a) && Orderly(p, a)
    ensures Inv(Perform(p, a), e) && Shrunk(d, e)
  {
    e := d;
    if a.side.AtSrc? {
      e := SrcStep(p, a, d);
    } else {
      DstStep(p, a, d);
    }
  }

  lemma DstStep(p: Pair, a: Act, d: Deal)
    requires Inv(p, d) && a.side.AtDst? && CanAct(p, a) && Orderly(p, a)
    ensures Inv(Perform(p, a), d)
  {
    assert !Serving(p.dst);
    hide Inv, Perform;
    match a.what
    case Receive(_, _) => DstReceives(p, a, d);
    case ReceiveCancel(_) => DstIsCancelled(p, a, d);
    case ReceiveEnds => DstCompletes(p, a, d);
    case ReadMessage => DstReads(p, a, d);
    case ReadOther(_, _) => DstReads(p, a, d);
    case CallWriter(_) => DstWrites(p, a, d);
    case SendClip(_) => DstClips(p, a, d);
    case Handle(_, _, _) => DstHears(p, a, d);
    case UserAccept => DstAccepts(p, d);
    case UserCopies(_, _, _) => DstCopies(p, a, d);
    case _ => DstTurns(p, a, d);
  }

  lemma {:induction false} RunKeepsInv(p: Pair, acts: seq<Act>, d: Deal) returns (e: Deal)
    requires Inv(p, d) && CanRun(p, acts) && OrderlyRun(p, acts)
    ensures Inv(Run(p, acts), e) && Shrunk(d, e)
    decreases |acts|
  {
    hide Inv, Perform, CanAct, Orderly;
    e := d;
    if acts != [] {
      var next := Step(p, acts[0], d);
      e := RunKeepsInv(Perform(p, acts[0]), acts[1..], next);
    }
  }

  // ---- What the receiver gets ----

  lemma PayloadNeverParsed(p: Pair, d: Deal)
    requires Inv(p, d)
    ensures p.dst.reader.Reading? && p.toDst != [] ==> p.toDst[0].Ctl?
    ensures p.dst.written <= Raws(d.payload)
  {
    if p.dst.outcome.Pending? && p.dst.phase.ProcessingAck? {
      RawsSplit(d.payload, |p.dst.written|);
    }
  }

  /** What the receiver has written is a prefix of the source, and the message reader is not in
      front of a payload byte.  Once the transfer is over, the receiver is back in UNINIT, the
      sender has nothing more to send and is back in UNINIT as soon as it has given back its
      mutex; and a completed transfer has written the whole source. */
  ghost predicate Faithful(q: Pair, payload: seq<byte>) {
    && q.dst.written <= Raws(payload)
    && (q.dst.reader.Reading? && q.toDst != [] ==> q.toDst[0].Ctl?)
    && (q.dst.outcome == Completed ==> q.dst.written == Raws(payload))
    && (q.dst.outcome != Pending ==>
          && q.dst.phase.Uninit? && ToSend(q.src) == []
          && (q.src.lock.Free? ==> q.src.phase.Uninit?))
  }

  lemma InvFaithful(p: Pair, d: Deal)
    requires Inv(p, d)
    ensures Faithful(p, d.payload) && (p.dst.outcome == Completed ==> d.size == |d.payload|)
  {
    PayloadNeverParsed(p, d);
    hide Flows, Requests, ToSend;
  }

  /** The two-node transfer is faithful at every moment of an orderly run. */
  lemma TwoNodeTransfer(p: Pair, acts: seq<Act>, payload: seq<byte>)
    requires Ready(p, payload) && CanRun(p, acts) && OrderlyRun(p, acts)
    ensures Faithful(Run(p, acts), payload)
  {
    ReadyInv(p, payload);
    hide Inv, Faithful, CanRun, OrderlyRun, Run;
    var d := RunKeepsInv(p, acts, DealOf(p, payload));
    InvFaithful(Run(p, acts), d);
  }

  /** A sender that is still inside its copying when the transfer is over is one step from home. */
  lemma SenderOneStepFromHome(q: Pair, payload: seq<byte>)
    requires Faithful(q, payload) && q.dst.outcome != Pending && q.src.reader.Sending?
    ensures var a := Act(AtSrc, SendEnds);
            CanAct(q, a) && Perform(q, a) == q.(src := Served(q.src)) && Perform(q, a).src.phase.Uninit?
  {
    Silent(q, Act(AtSrc, SendEnds));
    hide Perform;
  }

  /** And that is all it still does, beside storing the format of a new offer. */
  lemma OnlyHomeIsLeft(q: Pair, d: Deal, a: Act)
    requires Inv(q, d) && q.dst.outcome != Pending && q.src.reader.Sending?
    requires a.side.AtSrc? && CanAct(q, a) && Orderly(q, a)
    ensures Perform(q, a).src == q.src.(fmt := Perform(q, a).src.fmt) || Perform(q, a).src == Served(q.src)
  {
    hide Raws;
  }

  /** After a broken sending the receiver keeps a prefix exactly when it reads the cancel message
      on its own: a read that takes it together with payload bytes puts it into the file. */
  lemma CancelReadAlone(p: Pair, a: Act, d: Deal)
    requires Inv(p, d) && a.side.AtDst? && a.what.Receive? && CanAct(p, a)
    ensures Perform(p, a).dst.written <= Raws(d.payload) <==> AllRaw(p.toDst[..a.what.k])
  {
    var k := a.what.k;
    assert p.dst.phase.ProcessingAck?;
    if AllRaw(p.toDst[..k]) {
      DstReceives(p, a, d);
      PayloadNeverParsed(Perform(p, a), d);
    } else {
      var i :| 0 <= i < k && !p.toDst[..k][i].Raw?;
      var j := |p.dst.written| + i;
      assert Perform(p, a).dst.written == p.dst.written + p.toDst[..k];
      assert Perform(p, a).dst.written[j] == p.toDst[..k][i];
    }
  }

}
