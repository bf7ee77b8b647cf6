// The file transfer of one peer connection: data_sharing/client/p2p/p2p.go, with the user's
// commands of data_sharing/client/filedrop/filedrop.go.
//
// A node runs a reader goroutine (P2PRead) and a writer goroutine (P2PWrite) on one socket and
// one transfer phase, guarded by a mutex.  A label names the next atomic thing that happens; a
// stretch during which the mutex stays held is several labels with the lock kept.
module Transfer {
  import opened Bytes

  /** P2PFileTransferStateEnum */
  datatype Phase = FileDropInit | SrcInit | DestInit | Processing | ProcessingAck | Uninit

  /** P2PFileTransferInbandEnum */
  datatype Cmd = FileDropInitiate | FileReq | FileReqAck | FileReqDone | CancelSrc | CancelDst | TextTran

  datatype Fmt = TextFmt | ImageFmt | FileFmt | NoFmt

  datatype Msg = Msg(cmd: Cmd, fmt: Fmt, size: nat)

  /** What travels on a socket, in order: payload bytes and JSON messages. */
  datatype Cell = Raw(value: byte) | Ctl(msg: Msg)

  datatype Reader =
    | Gate                       // about to test the phase
    | Reading                    // past the gate, inside ReadFromSocket
    | Handling(msg: Msg)         // a message has been read
    | Opening(fmt: Fmt)          // HandleSrcDataTransfer, acknowledgement sent
    | Sending(left: seq<byte>)   // HandleSrcDataTransfer, inside io.Copy

  datatype Writer = Idle | Receiving(total: nat, got: nat)

  datatype Lock = Free | ReaderHolds | WriterHolds

  datatype Outcome = Pending | Completed | Interrupted

  /** One node: the shared Handler, its two goroutines, what it could send, and the history of
      what it received. */
  datatype Node = Node(
    phase: Phase,
    lock: Lock,
    reader: Reader,
    writer: Writer,
    fmt: Fmt,                    // format stored for the peer
    announced: nat,              // CopyDataSize
    file: Option<seq<byte>>,     // the file at CopyFilePath, if it can be opened
    image: seq<byte>,            // CopyImgData
    written: seq<Cell>,          // what WriteDstFile has been given
    outcome: Outcome)

  datatype Label =
    | EnterRead                                           // the gate lets the reader through
    | ReadMessage                                         // exactly one message is read
    | ReadOther(k: nat, parsed: Option<Msg>)              // anything else is read
    | ReadError
    | Handle(mine: bool, isNew: bool, accepted: bool)     // the read message is acted on
    | Open
    | OpenFails
    | SendPart(n: nat)
    | SendBreaks
    | SendEnds
    | CallWriter(mine: bool)                              // HandleDataTransferWrite is entered
    | Receive(k: nat, n: nat)                             // k cells, n bytes, go to the file
    | ReceiveCancel(k: nat)
    | ReceiveBreaks
    | ReceiveEnds
    | UserAccept                                          // paste, or FILE_DROP_ACCEPT
    | UserDrop(size: nat, file: Option<seq<byte>>)        // FILE_DROP_REQUEST
    | UserCopies(size: nat, file: Option<seq<byte>>, image: seq<byte>)   // the local clipboard changes, no lock taken
    | AcceptUnlocked                                      // accept from inside the confirmation
    | SendClip(msg: Msg)                                  // HandleDataCopyProcess stores and writes

  const MAX_READ: nat := 65535
  const MAX_CHUNK: nat := 32 * 1024

  predicate AllRaw(cells: seq<Cell>) {
    forall i :: 0 <= i < |cells| ==> cells[i].Raw?
  }

  predicate IsCancel(cells: seq<Cell>) {
    |cells| == 1 && cells[0].Ctl? && cells[0].msg.cmd == CancelSrc
  }

  predicate Enabled(n: Node, l: Label, inbox: seq<Cell>) {
    match l
    case EnterRead => n.reader.Gate? && n.lock.Free? && (n.phase.Uninit? || n.phase.Processing?)
    case ReadMessage => n.reader.Reading? && inbox != [] && inbox[0].Ctl?
    case ReadOther(k, parsed) =>
      && n.reader.Reading? && 1 <= k <= |inbox| && k <= MAX_READ
      && (k == 1 ==> inbox[0].Raw?)
      && (parsed.Some? ==> AllRaw(inbox[..k]))
    case ReadError => n.reader.Reading?
    case Handle(mine, _, _) => n.reader.Handling? && (mine ==> n.lock.Free?)
    case Open => n.reader.Opening? && (n.reader.fmt.FileFmt? ==> n.file.Some?)
    case OpenFails => n.reader.Opening? && n.reader.fmt.FileFmt?
    case SendPart(k) => n.reader.Sending? && 1 <= k <= |n.reader.left|
    case SendBreaks => n.reader.Sending?
    case SendEnds => n.reader.Sending? && n.reader.left == []
    case CallWriter(mine) => n.writer.Idle? && (mine ==> n.lock.Free?)
    case Receive(k, b) =>
      && n.writer.Receiving? && n.writer.got < n.writer.total
      && 1 <= k <= |inbox| && k <= b <= MAX_CHUNK
      && (AllRaw(inbox[..k]) ==> b == k)
      && !IsCancel(inbox[..k])
    case ReceiveCancel(k) =>
      && n.writer.Receiving? && n.writer.got < n.writer.total
      && 1 <= k <= |inbox|
      && (IsCancel(inbox[..k]) || AllRaw(inbox[..k]))
    case ReceiveBreaks => n.writer.Receiving? && n.writer.got < n.writer.total
    case ReceiveEnds => n.writer.Receiving? && n.writer.got >= n.writer.total
    case UserAccept => n.lock.Free?
    case UserDrop(_, _) => n.lock.Free?
    case UserCopies(_, _, _) => true
    case AcceptUnlocked => true
    case SendClip(m) => m.cmd == TextTran
  }

  /** The node afterwards, how many cells it took off its inbox, and what it wrote. */
  datatype Effect = Effect(node: Node, taken: nat, out: seq<Cell>)

  function Reply(cmd: Cmd): Cell {
    Ctl(Msg(cmd, NoFmt, 0))
  }

  function PayloadOf(n: Node, fmt: Fmt): seq<byte> {
    match fmt
    case FileFmt => if n.file.Some? then n.file.value else []
    case ImageFmt => n.image
    case _ => []
  }

  function Raws(bytes: seq<byte>): (cells: seq<Cell>)
    ensures |cells| == |bytes|
    ensures forall i :: 0 <= i < |bytes| ==> cells[i] == Raw(bytes[i])
  {
    seq(|bytes|, i requires 0 <= i < |bytes| => Raw(bytes[i]))
  }

  /** HandleDataPasteToCBProcess: a file or image offer replaces what this node could send. */
  function Pasted(n: Node, m: Msg, isNew: bool): Node {
    if isNew && m.cmd == TextTran && (m.fmt.FileFmt? || m.fmt.ImageFmt?)
    then n.(announced := m.size, fmt := m.fmt, file := None, image := [])
    else if isNew then n.(fmt := m.fmt)
    else n
  }

  /** HandleDataTransferRead, and the paste handling when it answers false. */
  function Handled(n: Node, m: Msg, mine: bool, isNew: bool, accepted: bool): Effect {
    var back := n.(reader := Gate);
    if !mine then Effect(Pasted(back, m, isNew), 0, [])
    else if n.phase.Uninit? && m.cmd == FileReq then
      Effect(n.(phase := SrcInit, lock := ReaderHolds, reader := Opening(m.fmt)), 0, [Reply(FileReqAck)])
    else if n.phase.Uninit? && m.cmd == FileDropInitiate then
      var heard := if isNew then back.(announced := m.size, fmt := m.fmt) else back;
      Effect(if isNew && accepted then heard.(phase := DestInit) else heard, 0, [])
    else if n.phase.Processing? && m.cmd == FileReqAck then
      Effect(back.(phase := ProcessingAck), 0, [])
    else Effect(Pasted(back, m, isNew), 0, [])
  }

  /** HandleDataTransferWrite up to its payload loop. */
  function Written(n: Node): Effect {
    match n.phase
    case DestInit =>
      Effect(n.(phase := Processing, written := []), 0, [Ctl(Msg(FileReq, n.fmt, n.announced))])
    case ProcessingAck => Effect(n.(lock := WriterHolds, writer := Receiving(n.announced, 0)), 0, [])
    case FileDropInit =>
      Effect(n.(phase := Uninit, fmt := FileFmt), 0, [Ctl(Msg(FileDropInitiate, FileFmt, n.announced))])
    case _ => Effect(n, 0, [])
  }

  /** The end of the payload loop. */
  function Closed(n: Node, outcome: Outcome): Node {
    n.(phase := Uninit, lock := Free, writer := Idle, announced := 0, outcome := outcome)
  }

  /** The deferred end of HandleSrcDataTransfer and the return to the gate. */
  function Served(n: Node): Node {
    n.(phase := Uninit, lock := Free, reader := Gate)
  }

  function Apply(n: Node, l: Label, inbox: seq<Cell>): Effect
    requires Enabled(n, l, inbox)
  {
    match l
    case EnterRead => Effect(n.(reader := Reading), 0, [])
    case ReadMessage => Effect(n.(reader := Handling(inbox[0].msg)), 1, [])
    case ReadOther(k, parsed) =>
      Effect(n.(reader := if parsed.Some? then Handling(parsed.value) else Gate), k, [])
    case ReadError => Effect(n.(reader := Gate), 0, [])
    case Handle(mine, isNew, accepted) => Handled(n, n.reader.msg, mine, isNew, accepted)
    case Open => Effect(n.(reader := Sending(PayloadOf(n, n.reader.fmt))), 0, [])
    case OpenFails => Effect(Served(n), 0, [Reply(CancelSrc)])
    case SendPart(k) =>
      Effect(n.(reader := Sending(n.reader.left[k..])), 0, Raws(n.reader.left[..k]))
    case SendBreaks => Effect(Served(n), 0, [Reply(CancelSrc)])
    case SendEnds => Effect(Served(n), 0, [])
    case CallWriter(mine) => if mine then Written(n) else Effect(n, 0, [])
    case Receive(k, b) =>
      Effect(n.(written := n.written + inbox[..k], writer := n.writer.(got := n.writer.got + b)), k, [])
    case ReceiveCancel(k) => Effect(Closed(n, Interrupted), k, [])
    case ReceiveBreaks => Effect(Closed(n, Interrupted), 0, [])
    case ReceiveEnds => Effect(Closed(n, Completed), 0, [])
    case UserAccept => Effect(n.(phase := DestInit), 0, [])
    case UserDrop(size, file) =>
      Effect(n.(phase := FileDropInit, announced := size, file := file), 0, [])
    case UserCopies(size, file, image) =>
      Effect(n.(announced := size, file := file, image := image), 0, [])
    case AcceptUnlocked => Effect(n.(phase := DestInit), 0, [])
    case SendClip(m) => Effect(n.(fmt := m.fmt), 0, [Ctl(m)])
  }

  // ---- One node, whatever its peer and its user do ----

  /** A step of a node in an environment that shows it any inbox. */
  datatype Move = Move(act: Label, inbox: seq<Cell>)

  predicate Legal(n: Node, moves: seq<Move>)
    decreases |moves|
  {
    moves == [] ||
    (Enabled(n, moves[0].act, moves[0].inbox)
     && Legal(Apply(n, moves[0].act, moves[0].inbox).node, moves[1..]))
  }

  function Exec(n: Node, moves: seq<Move>): Node
    requires Legal(n, moves)
    decreases |moves|
  {
    if moves == [] then n else Exec(Apply(n, moves[0].act, moves[0].inbox).node, moves[1..])
  }

  /** Who holds the mutex is who is inside its long critical section, and SRC_INIT is only ever
      set under it. */
  predicate LockDiscipline(n: Node) {
    && (n.lock.ReaderHolds? <==> n.reader.Opening? || n.reader.Sending?)
    && (n.lock.WriterHolds? <==> n.writer.Receiving?)
    && (n.phase.SrcInit? ==> n.lock.ReaderHolds?)
  }

  /** While an acknowledged transfer waits for its payload loop, and while that loop runs, the
      reader is in front of its gate. */
  predicate ExclusiveReader(n: Node) {
    (n.phase.ProcessingAck? || n.writer.Receiving?) ==> n.reader.Gate?
  }

  lemma StepKeepsNode(n: Node, l: Label, inbox: seq<Cell>)
    requires LockDiscipline(n) && ExclusiveReader(n) && Enabled(n, l, inbox)
    ensures LockDiscipline(Apply(n, l, inbox).node) && ExclusiveReader(Apply(n, l, inbox).node)
  {
  }

  /** Over any run of network and user steps: whenever the mutex is free the phase is not
      SRC_INIT, and in PROCESSING_TRAN_ING_ACK no message read is possible, so the payload loop
      is the only one that reads the socket. */
  lemma {:induction false} NodeSafety(n: Node, moves: seq<Move>)
    requires LockDiscipline(n) && ExclusiveReader(n) && Legal(n, moves)
    ensures var e := Exec(n, moves);
            && LockDiscipline(e) && ExclusiveReader(e)
            && (e.lock.Free? ==> !e.phase.SrcInit?)
            && (e.phase.ProcessingAck? || e.writer.Receiving? ==> !e.reader.Reading?)
    decreases |moves|
  {
    if moves != [] {
      StepKeepsNode(n, moves[0].act, moves[0].inbox);
      NodeSafety(Apply(n, moves[0].act, moves[0].inbox).node, moves[1..]);
    }
  }

  /** PROCESSING_TRAN_ING_ACK is entered from PROCESSING_TRAN_ING only, by an acknowledgement the
      reader has read. */
  lemma AckOnlyFromProcessing(n: Node, l: Label, inbox: seq<Cell>)
    requires Enabled(n, l, inbox)
    requires !n.phase.ProcessingAck? && Apply(n, l, inbox).node.phase.ProcessingAck?
    ensures n.phase.Processing? && n.reader.Handling? && n.reader.msg.cmd == FileReqAck && n.lock.Free?
  {
  }

  /** An acknowledged transfer that waits for its payload loop loses its phase exactly through a
      command of the user. */
  lemma AckLeftOnlyByUser(n: Node, l: Label, inbox: seq<Cell>)
    requires LockDiscipline(n) && ExclusiveReader(n) && Enabled(n, l, inbox)
    requires n.phase.ProcessingAck? && n.writer.Idle?
    ensures !Apply(n, l, inbox).node.phase.ProcessingAck? <==> l.UserAccept? || l.UserDrop? || l.AcceptUnlocked?
  {
  }

  // ---- The handlers as they are written ----

  /** What one call of s.Read in the payload loop brings: bytes, with IsTransferError's answer on
      them, or an error or the end of the stream. */
  datatype Read = Got(cells: seq<Cell>, bytes: nat, cancels: bool) | Failed

  predicate Sensible(r: Read) {
    r.Got? ==>
      && 1 <= |r.cells| <= r.bytes <= MAX_CHUNK
      && (AllRaw(r.cells) ==> r.bytes == |r.cells|)
      && (IsCancel(r.cells) ==> r.cancels)
      && (r.cancels ==> IsCancel(r.cells) || AllRaw(r.cells))
  }

  /** The payload loop and its end, for the reads it makes; without an end if they run out. */
  function Payload(n: Node, input: seq<Read>): Node
    requires n.writer.Receiving?
    decreases |input|
  {
    if n.writer.got >= n.writer.total then Closed(n, Completed)
    else if input == [] then n
    else
      match input[0]
      case Failed => Closed(n, Interrupted)
      case Got(cells, bytes, cancels) =>
        if cancels then Closed(n, Interrupted)
        else
          Payload(n.(written := n.written + cells, writer := n.writer.(got := n.writer.got + bytes)), input[1..])
  }

  /** All that some reads bring, and how many bytes that is. */
  function CellsOf(input: seq<Read>): seq<Cell> {
    if input == [] then [] else (if input[0].Got? then input[0].cells else []) + CellsOf(input[1..])
  }

  function BytesOf(input: seq<Read>): nat {
    if input == [] then 0 else (if input[0].Got? then input[0].bytes else 0) + BytesOf(input[1..])
  }

  predicate Goes(r: Read) {
    r.Got? && !r.cancels
  }

  /** What the payload loop amounts to.  It makes some number k of reads that go into the file, each
      while bytes are missing, and ends for one of two reasons: enough bytes have been read, or the
      next read fails or is a cancel message. */
  lemma {:induction false} PayloadEnds(n: Node, input: seq<Read>) returns (k: nat)
    requires n.writer.Receiving? && !Payload(n, input).writer.Receiving?
    ensures k <= |input| && (forall i :: 0 <= i < k ==> Goes(input[i]))
    ensures forall i :: 0 <= i < k ==> n.writer.got + BytesOf(input[..i]) < n.writer.total
    ensures var e := Payload(n, input); var got := n.writer.got + BytesOf(input[..k]);
            && e.written == n.written + CellsOf(input[..k])
            && e.phase == Uninit && e.lock == Free && e.writer == Idle && e.announced == 0
            && (e.outcome == Completed <==> got >= n.writer.total)
            && (e.outcome == Interrupted <==> got < n.writer.total)
            && (got < n.writer.total ==> k < |input| && !Goes(input[k]))
    decreases |input|
  {
    if n.writer.got >= n.writer.total || input == [] || !Goes(input[0]) {
      k := 0;
      assert CellsOf(input[..0]) == [] && n.written + [] == n.written;
    } else {
      var next := n.(written := n.written + input[0].cells, writer := n.writer.(got := n.writer.got + input[0].bytes));
      var later := PayloadEnds(next, input[1..]);
      k := later + 1;
      forall i: nat | 1 <= i <= k
        ensures BytesOf(input[..i]) == input[0].bytes + BytesOf(input[1..][..i - 1])
        ensures CellsOf(input[..i]) == input[0].cells + CellsOf(input[1..][..i - 1])
      {
        assert input[..i][1..] == input[1..][..i - 1];
      }
      forall i | 0 <= i < k
        ensures Goes(input[i]) && n.writer.got + BytesOf(input[..i]) < n.writer.total
      {
        assert i > 0 ==> input[i] == input[1..][i - 1];
        assert i > 0 ==> next.writer.got + BytesOf(input[1..][..i - 1]) < n.writer.total;
      }
    }
  }

  /** The payload loop is a run of the node's steps. */
  lemma {:induction false} PayloadIsRun(n: Node, input: seq<Read>) returns (moves: seq<Move>)
    requires n.writer.Receiving? && forall i :: 0 <= i < |input| ==> Sensible(input[i])
    ensures Legal(n, moves) && Exec(n, moves) == Payload(n, input)
    decreases |input|
  {
    if n.writer.got >= n.writer.total {
      moves := [Move(ReceiveEnds, [])];
    } else if input == [] {
      moves := [];
    } else {
      match input[0]
      case Failed => moves := [Move(ReceiveBreaks, [])];
      case Got(cells, bytes, cancels) =>
        assert cells[..|cells|] == cells;
        if cancels {
          moves := [Move(ReceiveCancel(|cells|), cells)];
        } else {
          var first := Move(Receive(|cells|, bytes), cells);
          var next := Apply(n, first.act, cells).node;
          var later := PayloadIsRun(next, input[1..]);
          moves := [first] + later;
          assert moves[1..] == later;
        }
    }
  }

  /** What a run of steps puts on the socket. */
  function Outs(n: Node, moves: seq<Move>): seq<Cell>
    requires Legal(n, moves)
    decreases |moves|
  {
    if moves == [] then []
    else
      var e := Apply(n, moves[0].act, moves[0].inbox);
      e.out + Outs(e.node, moves[1..])
  }

  lemma Then(n: Node, act: Label, later: seq<Move>)
    requires Enabled(n, act, []) && Legal(Apply(n, act, []).node, later)
    ensures var moves := [Move(act, [])] + later; var e := Apply(n, act, []);
            Legal(n, moves) && Exec(n, moves) == Exec(e.node, later) && Outs(n, moves) == e.out + Outs(e.node, later)
  {
    var moves := [Move(act, [])] + later;
    assert moves[0] == Move(act, []) && moves[1..] == later;
    hide Enabled, Apply;
  }

  /** A file request served from beginning to end under the lock: the acknowledgement, the
      payload, and a cancel message if the file does not open or the socket breaks after cut
      bytes.  Afterwards the phase is what it was. */
  function Serve(n: Node, fmt: Fmt, cut: Option<nat>): Effect {
    var back := n.(reader := Gate);
    var payload := PayloadOf(n, fmt);
    if fmt.FileFmt? && n.file.None? then Effect(back, 0, [Reply(FileReqAck), Reply(CancelSrc)])
    else if (fmt.FileFmt? || fmt.ImageFmt?) && cut.Some? && cut.value <= |payload| then
      Effect(back, 0, [Reply(FileReqAck)] + Raws(payload[..cut.value]) + [Reply(CancelSrc)])
    else Effect(back, 0, [Reply(FileReqAck)] + Raws(payload))
  }

  /** From inside the copying: k more bytes, and the end. */
  lemma SendIsRun(n: Node, k: nat, breaks: bool) returns (moves: seq<Move>)
    requires n.reader.Sending? && k <= |n.reader.left| && (!breaks ==> k == |n.reader.left|)
    ensures Legal(n, moves) && Exec(n, moves) == Served(n)
    ensures Outs(n, moves) == Raws(n.reader.left[..k]) + if breaks then [Reply(CancelSrc)] else []
  {
    var last := if breaks then SendBreaks else SendEnds;
    var copied := if k == 0 then n else Apply(n, SendPart(k), []).node;
    Then(copied, last, []);
    moves := [Move(last, [])];
    assert [Move(last, [])] + [] == moves;
    if k > 0 {
      Then(n, SendPart(k), moves);
      moves := [Move(SendPart(k), [])] + moves;
    }
  }

  /** The bytes that reach the socket before it breaks, if it does. */
  function CopiedBytes(payload: seq<byte>, fmt: Fmt, cut: Option<nat>): (r: (nat, bool))
    ensures r.0 <= |payload| && (!r.1 ==> r.0 == |payload|)
  {
    if (fmt.FileFmt? || fmt.ImageFmt?) && cut.Some? && cut.value <= |payload| then (cut.value, true)
    else (|payload|, false)
  }

  /** From the acknowledgement on. */
  lemma OpenIsRun(n: Node, cut: Option<nat>) returns (moves: seq<Move>)
    requires n.reader.Opening?
    ensures Legal(n, moves) && Exec(n, moves) == Served(n)
    ensures [Reply(FileReqAck)] + Outs(n, moves) == Serve(n, n.reader.fmt, cut).out
  {
    var fmt := n.reader.fmt;
    if fmt.FileFmt? && n.file.None? {
      Then(n, OpenFails, []);
      moves := [Move(OpenFails, [])] + [];
    } else {
      var payload := PayloadOf(n, fmt);
      var (k, breaks) := CopiedBytes(payload, fmt, cut);
      var later := SendIsRun(n.(reader := Sending(payload)), k, breaks);
      Then(n, Open, later);
      hide Legal, Exec, Outs, Raws;
      moves := [Move(Open, [])] + later;
      assert payload[..|payload|] == payload;
    }
  }

  /** Serving a request is a run of the node's steps and writes what they write. */
  lemma ServeIsRun(n: Node, isNew: bool, accepted: bool, cut: Option<nat>) returns (moves: seq<Move>)
    requires n.phase.Uninit? && n.lock.Free? && n.reader.Handling? && n.reader.msg.cmd == FileReq
    ensures var e := Serve(n, n.reader.msg.fmt, cut);
            Legal(n, moves) && Exec(n, moves) == e.node && Outs(n, moves) == e.out
  {
    hide Legal, Exec, Outs, Raws, Pasted;
    var start := Handle(true, isNew, accepted);
    var opening := Apply(n, start, []).node;
    var later := OpenIsRun(opening, cut);
    Then(n, start, later);
    moves := [Move(start, [])] + later;
  }

  /** One turn of P2PRead after a message has been read. */
  function ReadTurn(n: Node, mine: bool, isNew: bool, accepted: bool, cut: Option<nat>): Effect
    requires n.reader.Handling?
  {
    if mine && n.phase.Uninit? && n.reader.msg.cmd == FileReq then Serve(n, n.reader.msg.fmt, cut)
    else Handled(n, n.reader.msg, mine, isNew, accepted)
  }

  /** The shared Handler, as far as a transfer uses it. */
  class Handler {
    var state: Phase
    var fmtType: Fmt
    var copyDataSize: nat
    // The file at CopyFilePath, if it can be opened.
    var copyFile: Option<seq<byte>>
    var copyImgData: seq<byte>
    var dstFile: seq<Cell>
    // How the last payload loop ended.
    var outcome: Outcome

    constructor (fmtType: Fmt)
      ensures state == Uninit && this.fmtType == fmtType && copyDataSize == 0 && dstFile == [] && outcome == Pending
      ensures copyFile == None && copyImgData == []
    {
      state, copyDataSize, dstFile, outcome := Uninit, 0, [], Pending;
      copyFile, copyImgData := None, [];
      this.fmtType := fmtType;
    }

    /** The node this handler belongs to; the rest of it is the argument's. */
    ghost function InNode(rest: Node): Node
      reads this
    {
      rest.(phase := state, fmt := fmtType, announced := copyDataSize, file := copyFile, image := copyImgData,
            written := dstFile, outcome := outcome)
    }

    predicate Kept(fmt: Fmt, image: seq<byte>, dst: seq<Cell>, how: Outcome)
      reads this
    {
      fmtType == fmt && copyImgData == image && dstFile == dst && outcome == how
    }

    /** SendFileDropCmd(FILE_DROP_REQUEST) */
    method FileDropRequest(size: nat, file: Option<seq<byte>>, ghost rest: Node)
      requires rest.lock.Free?
      modifies this
      ensures InNode(rest) == Apply(old(InNode(rest)), UserDrop(size, file), []).node
      ensures state == FileDropInit && copyDataSize == size && copyFile == file
      ensures Kept(old(fmtType), old(copyImgData), old(dstFile), old(outcome))
    {
      state := FileDropInit;
      copyDataSize := size;
      copyFile := file;
    }

    /** SendFileDropCmd(FILE_DROP_ACCEPT), and the paste callback. */
    method FileDropAccept(ghost rest: Node)
      requires rest.lock.Free?
      modifies this
      ensures InNode(rest) == Apply(old(InNode(rest)), UserAccept, []).node
      ensures state == DestInit && copyDataSize == old(copyDataSize) && copyFile == old(copyFile)
      ensures Kept(old(fmtType), old(copyImgData), old(dstFile), old(outcome))
    {
      state := DestInit;
    }

    /** cut is the number of payload bytes after which the socket breaks, if it does. */
    method HandleSrcDataTransfer(fmt: Fmt, cut: Option<nat>) returns (ok: bool, out: seq<Cell>)
      modifies this`state
      ensures state == Uninit
      ensures fmt == ImageFmt && cut.None? ==> ok && out == [Reply(FileReqAck)] + Raws(copyImgData)
      ensures fmt == ImageFmt && cut.Some? && cut.value <= |copyImgData| ==>
                !ok && out == [Reply(FileReqAck)] + Raws(copyImgData[..cut.value])
      ensures fmt == FileFmt && copyFile.None? ==> !ok && out == [Reply(FileReqAck)]
      ensures fmt == FileFmt && copyFile.Some? && cut.None? ==> ok && out == [Reply(FileReqAck)] + Raws(copyFile.value)
      ensures fmt == FileFmt && copyFile.Some? && cut.Some? && cut.value <= |copyFile.value| ==>
                !ok && out == [Reply(FileReqAck)] + Raws(copyFile.value[..cut.value])
      ensures fmt != ImageFmt && fmt != FileFmt ==> ok && out == [Reply(FileReqAck)]
      ensures forall n: Node :: n.file == copyFile && n.image == copyImgData ==>
                out + (if ok then [] else [Reply(CancelSrc)]) == Serve(n, fmt, cut).out
    {
      out := [Reply(FileReqAck)];
      var payload := [];
      if fmt == FileFmt {
        if copyFile.None? {
          state := Uninit;
          return false, out;
        }
        payload := copyFile.value;
      } else if fmt == ImageFmt {
        payload := copyImgData;
      }
      ok := true;
      if (fmt == FileFmt || fmt == ImageFmt) && cut.Some? && cut.value <= |payload| {
        payload := payload[..cut.value];
        ok := false;
      }
      out := out + Raws(payload);
      assert out + [] == out;
      state := Uninit;
    }

    /** HandleDataTransferRead; mine is the answer of the address check, isNew whether the hash
        differs from the stored one, accepted whether the user accepts a drop from inside the
        confirmation. */
    method HandleDataTransferRead(mine: bool, msg: Msg, isNew: bool, accepted: bool, cut: Option<nat>, ghost rest: Node)
      returns (done: bool, out: seq<Cell>)
      requires rest.lock.Free? && rest.reader == Handling(msg)
      modifies this
      ensures done ==> var e := ReadTurn(old(InNode(rest)), mine, isNew, accepted, cut);
                       InNode(rest.(reader := Gate)) == e.node && out == e.out
      ensures !done ==>
                && InNode(rest) == old(InNode(rest)) && out == []
                && ReadTurn(old(InNode(rest)), mine, isNew, accepted, cut)
                   == Effect(Pasted(old(InNode(rest.(reader := Gate))), msg, isNew), 0, [])
      ensures done <==> mine && ((old(state) == Uninit && (msg.cmd == FileReq || msg.cmd == FileDropInitiate))
                                 || (old(state) == Processing && msg.cmd == FileReqAck))
      ensures done && msg.cmd == FileReq ==> state == Uninit && copyDataSize == old(copyDataSize) && fmtType == old(fmtType)
      ensures done && msg.cmd == FileDropInitiate ==>
                && out == [] && state == (if isNew && accepted then DestInit else Uninit)
                && copyDataSize == (if isNew then msg.size else old(copyDataSize))
                && fmtType == if isNew then msg.fmt else old(fmtType)
      ensures done && msg.cmd == FileReqAck ==>
                out == [] && state == ProcessingAck && copyDataSize == old(copyDataSize) && fmtType == old(fmtType)
      ensures copyFile == old(copyFile) && copyImgData == old(copyImgData) && dstFile == old(dstFile) && outcome == old(outcome)
    {
      done, out := false, [];
      if !mine {
        return;
      }
      if state == Uninit {
        if msg.cmd == FileReq {
          ghost var n := InNode(rest);
          state := SrcInit;
          var ok;
          ok, out := HandleSrcDataTransfer(msg.fmt, cut);
          assert n.file == copyFile && n.image == copyImgData;
          if !ok {
            out := out + [Reply(CancelSrc)];
          } else {
            assert out + [] == out;
          }
          return true, out;
        } else if msg.cmd == FileDropInitiate {
          if isNew {
            copyDataSize := msg.size;
            fmtType := msg.fmt;
            if accepted {
              state := DestInit;
            }
          }
          return true, out;
        }
      } else if state == Processing {
        if msg.cmd == FileReqAck {
          state := ProcessingAck;
          return true, out;
        }
      }
    }

    method HandleDataPasteToCBProcess(msg: Msg, isNew: bool, ghost rest: Node)
      modifies this
      ensures InNode(rest) == Pasted(old(InNode(rest)), msg, isNew)
      ensures var content := isNew && msg.cmd == TextTran && (msg.fmt == FileFmt || msg.fmt == ImageFmt);
              && copyDataSize == (if content then msg.size else old(copyDataSize))
              && copyFile == (if content then None else old(copyFile))
              && copyImgData == if content then [] else old(copyImgData)
      ensures fmtType == if isNew then msg.fmt else old(fmtType)
      ensures state == old(state) && dstFile == old(dstFile) && outcome == old(outcome)
    {
      if isNew {
        if msg.cmd == TextTran && (msg.fmt == FileFmt || msg.fmt == ImageFmt) {
          copyDataSize := msg.size;
          copyFile, copyImgData := None, [];
        }
        fmtType := msg.fmt;
      }
    }

    /** HandleDataCopyProcess for a copy of format fmt; isNew is its comparison of the hashes,
        elsewhere whether a file has another peer appointed to it. */
    method HandleDataCopyProcess(fmt: Fmt, isNew: bool, elsewhere: bool, ghost rest: Node) returns (out: seq<Cell>)
      modifies this
      ensures !isNew || (fmt == FileFmt && elsewhere) ==> InNode(rest) == old(InNode(rest)) && out == []
      ensures isNew && !(fmt == FileFmt && elsewhere) ==>
                var msg := Msg(TextTran, fmt, if fmt == FileFmt || fmt == ImageFmt then copyDataSize else 0);
                && out == [Ctl(msg)] && fmtType == fmt && copyDataSize == old(copyDataSize) && state == old(state)
                && var e := Apply(old(InNode(rest)), SendClip(msg), []); InNode(rest) == e.node && out == e.out
    {
      out := [];
      if isNew {
        if fmt == FileFmt {
          if elsewhere {
            return;
          }
        }
        fmtType := fmt;
        var size := 0;
        if fmt == FileFmt {
          size := copyDataSize;
        } else if fmt == ImageFmt {
          size := copyDataSize;
        }
        out := [Ctl(Msg(TextTran, fmt, size))];
      }
    }

    /** What P2PRead does with a message it has read. */
    method HandleMessage(mine: bool, msg: Msg, isNew: bool, accepted: bool, cut: Option<nat>, ghost rest: Node)
      returns (out: seq<Cell>)
      requires rest.lock.Free? && rest.reader == Handling(msg)
      modifies this
      ensures var e := ReadTurn(old(InNode(rest)), mine, isNew, accepted, cut);
              InNode(rest.(reader := Gate)) == e.node && out == e.out
    {
      var done;
      done, out := HandleDataTransferRead(mine, msg, isNew, accepted, cut, rest);
      if !done {
        HandleDataPasteToCBProcess(msg, isNew, rest.(reader := Gate));
      }
    }

    /** HandleDataTransferWrite with the address checks passed; input is what the payload loop
        reads, enough for it to end. */
    method HandleDataTransferWrite(input: seq<Read>, ghost rest: Node) returns (out: seq<Cell>)
      requires rest.lock.Free? && rest.writer.Idle?
      requires state == ProcessingAck ==> !Payload(Written(InNode(rest)).node, input).writer.Receiving?
      modifies this
      ensures old(state) == DestInit ==>
                && out == [Ctl(Msg(FileReq, old(fmtType), old(copyDataSize)))]
                && state == Processing && dstFile == [] && copyDataSize == old(copyDataSize) && fmtType == old(fmtType)
      ensures old(state) == ProcessingAck ==>
                out == [] && state == Uninit && copyDataSize == 0 && fmtType == old(fmtType) && old(dstFile) <= dstFile
      ensures old(state) == FileDropInit ==>
                && out == [Ctl(Msg(FileDropInitiate, FileFmt, old(copyDataSize)))]
                && state == Uninit && fmtType == FileFmt && copyDataSize == old(copyDataSize)
      ensures old(state) != DestInit && old(state) != ProcessingAck && old(state) != FileDropInit ==>
                out == [] && InNode(rest) == old(InNode(rest))
      ensures var called := Written(old(InNode(rest)));
              && out == called.out
              && InNode(rest) == if old(state) == ProcessingAck then Payload(called.node, input) else called.node
    {
      out := [];
      if state == DestInit {
        state := Processing;
        dstFile := [];
        out := [Ctl(Msg(FileReq, fmtType, copyDataSize))];
      } else if state == ProcessingAck {
        var fileSize := copyDataSize;
        var receivedBytes := 0;
        var i := 0;
        var whole := true;
        ghost var start := Written(InNode(rest)).node;
        ghost var now := start;
        while receivedBytes < fileSize && whole
          invariant 0 <= i <= |input|
          invariant state == ProcessingAck && fmtType == old(fmtType) && copyDataSize == old(copyDataSize)
          invariant copyFile == old(copyFile) && copyImgData == old(copyImgData)
          invariant outcome == old(outcome) && old(dstFile) <= dstFile
          invariant now == start.(written := dstFile, writer := Receiving(fileSize, receivedBytes))
          invariant whole ==> Payload(now, input[i..]) == Payload(start, input)
          invariant !whole ==> Closed(now, Interrupted) == Payload(start, input)
          decreases |input| - i, whole
        {
          match input[i] {
            case Failed => whole := false;
            case Got(cells, bytes, cancels) =>
              if cancels {
                whole := false;
              } else {
                dstFile := dstFile + cells;
                receivedBytes := receivedBytes + bytes;
                now := now.(written := dstFile, writer := Receiving(fileSize, receivedBytes));
                assert input[i..][1..] == input[i + 1..];
                i := i + 1;
              }
          }
        }
        copyDataSize := 0;
        outcome := if whole then Completed else Interrupted;
        state := Uninit;
      } else if state == FileDropInit {
        out := [Ctl(Msg(FileDropInitiate, FileFmt, copyDataSize))];
        fmtType := FileFmt;
        state := Uninit;
      }
    }
  }
}
