// Cutting the pipe's byte stream into messages: windows_clipboard/common/process_message.cpp,
// onRecvServerData.
//
// An iteration that finds a complete header but an incomplete content consumes nothing, and the
// loop's guard stays true: the loop as written then spins.  `OneTurn` is one iteration exactly
// as written; `Drain` is where repeating it leads.
module PipeReader {
  import opened Bytes
  import opened PipeBuffer
  import opened PipeCodec

  const REQUEST: byte := 0   // PipeMessageType::Request

  /** What one test of the guard and one loop body do to the buffered bytes. */
  datatype Turn =
    | Leaves                                     // the guard is false
    | Consumes(message: Message, rest: seq<byte>)
    | Idles                                      // the body changes nothing
    | Faults                                     // an assertion fails

  function Attempt(kind: Struct, b: seq<byte>): Turn {
    match Decode(kind, b)
    case NotYet => Idles
    case Broken => Faults
    case Done(m) => if MessageLength(m) <= |b| then Consumes(m, b[MessageLength(m)..]) else Faults
  }

  function OneTurn(b: seq<byte>): Turn {
    match CodeOf(b)
    case None => Leaves
    case Some((kind, code)) =>
      match code
      case 1 => Attempt(ConnResponseMsg, b)
      case 2 => Idles
      case 3 => Attempt(ClientStatusMsg, b)
      case 4 => if kind == REQUEST then Attempt(FileRequestMsg, b) else Faults
      case 5 => Attempt(ProgressMsg, b)
      case _ => Faults
  }

  lemma DecodedLength(kind: Struct, b: seq<byte>)
    requires |b| <= MAX_BYTES && Decode(kind, b).Done?
    ensures HEADER_LENGTH <= MessageLength(Decode(kind, b).message)
  {
    hide ParseContent;
  }

  lemma ConsumesSome(b: seq<byte>)
    requires |b| <= MAX_BYTES && OneTurn(b).Consumes?
    ensures |OneTurn(b).rest| < |b|
  {
    hide Decode, MessageLength;
    forall kind: Struct | Decode(kind, b).Done?
      ensures 0 < MessageLength(Decode(kind, b).message)
    {
      DecodedLength(kind, b);
    }
  }

  datatype Ending = Left | Spins | Failed

  /** The messages dispatched, the bytes that stay, and how the loop goes on from there. */
  datatype Drained = Drained(messages: seq<Message>, rest: seq<byte>, ending: Ending)

  function Drain(b: seq<byte>): (d: Drained)
    requires |b| <= MAX_BYTES
    decreases |b|
  {
    match OneTurn(b)
    case Leaves => Drained([], b, Left)
    case Idles => Drained([], b, Spins)
    case Faults => Drained([], b, Failed)
    case Consumes(m, rest) =>
      ConsumesSome(b);
      var d := Drain(rest);
      d.(messages := [m] + d.messages)
  }

  // ---- When the loop as written leaves ----

  /** The buffered bytes after n loop bodies. */
  function BytesAfter(b: seq<byte>, n: nat): seq<byte> {
    if n == 0 then b
    else
      var t := OneTurn(b);
      BytesAfter(if t.Consumes? then t.rest else b, n - 1)
  }

  lemma {:induction false} LeavesWithin(b: seq<byte>, n: nat)
    requires |b| <= MAX_BYTES && n >= |b|
    ensures Drain(b).ending == Left ==> OneTurn(BytesAfter(b, n)).Leaves?
    decreases n
  {
    hide OneTurn;
    if OneTurn(b).Consumes? {
      ConsumesSome(b);
      LeavesWithin(OneTurn(b).rest, n - 1);
    } else if Drain(b).ending == Left {
      StaysPut(b, n);
    }
  }

  lemma {:induction false} StaysPut(b: seq<byte>, n: nat)
    requires !OneTurn(b).Consumes?
    ensures BytesAfter(b, n) == b
  {
    hide OneTurn;
    if n > 0 {
      StaysPut(b, n - 1);
    }
  }

  lemma {:induction false} NeverLeaves(b: seq<byte>, n: nat)
    requires |b| <= MAX_BYTES && Drain(b).ending != Left
    ensures !OneTurn(BytesAfter(b, n)).Leaves?
    decreases n
  {
    hide OneTurn;
    if n > 0 {
      if OneTurn(b).Consumes? {
        ConsumesSome(b);
        NeverLeaves(OneTurn(b).rest, n - 1);
      } else {
        NeverLeaves(b, n - 1);
      }
    }
  }

  /** The loop reaches a false guard after some number of bodies exactly when Drain ends so. */
  lemma LoopLeavesExactly(b: seq<byte>)
    requires |b| <= MAX_BYTES
    ensures (exists n: nat :: OneTurn(BytesAfter(b, n)).Leaves?) <==> Drain(b).ending == Left
  {
    LeavesWithin(b, |b|);
    forall n: nat | OneTurn(BytesAfter(b, n)).Leaves?
      ensures Drain(b).ending == Left
    {
      if Drain(b).ending != Left {
        NeverLeaves(b, n);
      }
    }
  }

  // ---- The receiving object ----

  class ProcessMessage {
    const m_buffer: Buffer
    // What dispatchMessage has been emitted with, in order.
    var dispatched: seq<Message>

    constructor ()
      ensures fresh(m_buffer) && fresh(m_buffer.store) && m_buffer.Valid()
      ensures m_buffer.Contents() == [] && dispatched == []
    {
      m_buffer := new Buffer();
      dispatched := [];
    }

    /** One loop body, for bytes whose guard is true and whose body fails no assertion.  ok tells
        whether a message was dispatched. */
    method Body() returns (ok: bool)
      requires m_buffer.Valid()
      requires var t := OneTurn(m_buffer.Contents()); t.Consumes? || t.Idles?
      modifies this, m_buffer
      ensures m_buffer.Valid() && m_buffer.store == old(m_buffer.store)
      ensures var t := OneTurn(old(m_buffer.Contents()));
              ok == t.Consumes?
              && m_buffer.Contents() == (if ok then t.rest else old(m_buffer.Contents()))
              && dispatched == old(dispatched) + if ok then [t.message] else []
    {
      hide Buffer.Valid, Buffer.At, Buffer.Contents, Decode;
      var n := m_buffer.ReadableBytes();
      var data := m_buffer.Peek(n);
      assert data == m_buffer.Contents();
      var code := GetCodeFromByteArray(data);
      var r := NotYet;
      match code.value.1 {
        case 1 => r := GetConnStatusResponseFromByteArray(data);
        case 2 =>
        case 3 => r := UpdateClientStatusFromByteArray(data);
        case 4 => r := SendFileRequestFromByteArray(data);
        case 5 => r := UpdateProgressFromByteArray(data);
        case _ => assert false;
      }
      ok := r.Done?;
      if ok {
        m_buffer.Retrieve(MessageLength(r.message));
        dispatched := dispatched + [r.message];
      }
    }

    /** onRecvServerData, for deliveries after which the loop leaves. */
    method OnRecvServerData(data: seq<byte>)
      requires m_buffer.Valid() && |m_buffer.Contents() + data| <= MAX_BYTES
      requires Drain(m_buffer.Contents() + data).ending == Left
      modifies this, m_buffer, m_buffer.store
      ensures m_buffer.Valid() && (m_buffer.store == old(m_buffer.store) || fresh(m_buffer.store))
      ensures var d := Drain(old(m_buffer.Contents()) + data);
              m_buffer.Contents() == d.rest && dispatched == old(dispatched) + d.messages
    {
      hide Buffer.Valid, Buffer.At, Buffer.Contents, OneTurn, CodeOf, Decode;
      m_buffer.Append(data);
      ghost var goal := Drain(m_buffer.Contents());
      var n := m_buffer.ReadableBytes();
      var bytes := m_buffer.Peek(n);
      assert bytes == m_buffer.Contents();
      var code := GetCodeFromByteArray(bytes);
      GuardIsTurn(bytes);
      while code.Some?
        invariant m_buffer.Valid() && |m_buffer.Contents()| <= MAX_BYTES
        invariant m_buffer.store == old(m_buffer.store) || fresh(m_buffer.store)
        invariant code.None? <==> OneTurn(m_buffer.Contents()).Leaves?
        invariant var d := Drain(m_buffer.Contents());
                  d.ending == Left && d.rest == goal.rest
                  && dispatched + d.messages == old(dispatched) + goal.messages
        decreases |m_buffer.Contents()|
      {
        ghost var before := m_buffer.Contents();
        assert OneTurn(before).Consumes?;
        ConsumesSome(before);
        var _ := Body();
        n := m_buffer.ReadableBytes();
        bytes := m_buffer.Peek(n);
        assert bytes == m_buffer.Contents();
        code := GetCodeFromByteArray(bytes);
        GuardIsTurn(bytes);
      }
    }
  }

  lemma GuardIsTurn(b: seq<byte>)
    ensures CodeOf(b).None? <==> OneTurn(b).Leaves?
  {
  }

  // ---- Streams of frames ----

  /** A message the server sends, with the type and code its struct is constructed with. */
  predicate ServerMessage(m: Message) {
    && WellFormed(m)
    && match StructOf(m.body)
       case ConnResponseMsg => m.header.kind == 1 && m.header.code == 1
       case ClientStatusMsg => m.header.kind == 2 && m.header.code == 3
       case FileRequestMsg => m.header.kind == 0 && m.header.code == 4
       case ProgressMsg => m.header.kind == 2 && m.header.code == 5
       case _ => false
  }

  predicate ServerMessages(ms: seq<Message>) {
    forall k :: 0 <= k < |ms| ==> ServerMessage(ms[k])
  }

  function Stream(ms: seq<Message>): seq<byte> {
    if ms == [] then [] else Encode(ms[0]) + Stream(ms[1..])
  }

  function ReadBacks(ms: seq<Message>): (r: seq<Message>)
    requires ServerMessages(ms)
    ensures |r| == |ms|
  {
    if ms == [] then [] else [ReadBack(ms[0])] + ReadBacks(ms[1..])
  }

  /** How many whole frames the first p bytes of the stream hold. */
  function Whole(ms: seq<Message>, p: nat): (n: nat)
    ensures n <= |ms|
  {
    if ms == [] || p < |Encode(ms[0])| then 0 else 1 + Whole(ms[1..], p - |Encode(ms[0])|)
  }

  /** How many of the first p bytes belong to an unfinished frame. */
  function Unfinished(ms: seq<Message>, p: nat): (n: nat)
    ensures n <= p
  {
    if ms == [] || p < |Encode(ms[0])| then p else Unfinished(ms[1..], p - |Encode(ms[0])|)
  }

  /** On a frame of the server, one iteration consumes it whole once it is complete; before that
      it leaves the buffer alone, and the guard is true exactly from the eleventh byte on. */
  lemma TurnOnFrame(m: Message, b: seq<byte>)
    requires ServerMessage(m)
    ensures Encode(m) <= b ==> OneTurn(b) == Consumes(ReadBack(m), b[|Encode(m)|..])
    ensures b < Encode(m) ==> OneTurn(b) == if |b| < HEADER_LENGTH then Leaves else Idles
  {
    hide Decode, Encode;
    if Encode(m) <= b {
      RoundTrip(m, b[|Encode(m)|..]);
      assert Encode(m) + b[|Encode(m)|..] == b;
    } else if b < Encode(m) {
      PrefixNotYet(m, b);
      if |b| >= HEADER_LENGTH {
        FrameLayout(m, b);
      }
    }
  }

  /** What an iteration does, by the code: a file status is left alone for ever, the other codes of
      no message and a file message that is no request run into an assertion. */
  lemma TurnByCode(b: seq<byte>)
    ensures OneTurn(b).Leaves? <==> !Headed(b)
    ensures Headed(b) && b[6] == 2 ==> OneTurn(b).Idles?
    ensures Headed(b) && (b[6] == 0 || b[6] > 5) ==> OneTurn(b).Faults?
    ensures Headed(b) && b[6] == 4 && b[5] != 0 ==> OneTurn(b).Faults?
  {
  }

  /** A connection response takes twelve bytes off the buffer whatever length it declares, so the next
      iteration begins behind its frame if and only if the declared length is 1. */
  lemma ResponseTakesTwelve(b: seq<byte>)
    requires Headed(b) && b[6] == 1 && 1 <= DeclaredLength(b) <= |b| - 11
    ensures OneTurn(b).Consumes? && OneTurn(b).rest == b[12..]
    ensures OneTurn(b).message.body == GetConnStatusResponse(b[11])
    ensures OneTurn(b).rest == b[11 + DeclaredLength(b)..] <==> DeclaredLength(b) == 1
  {
    LengthIs(b);
    assert b[11..11 + DeclaredLength(b)][0] == b[11];
    assert |b[11 + DeclaredLength(b)..]| == |b| - 11 - DeclaredLength(b);
  }

  /** The type and code each struct is constructed with. */
  predicate AsConstructed(m: Message) {
    match StructOf(m.body)
    case ConnRequestMsg => m.header.kind == 0 && m.header.code == 1
    case FileResponseMsg => m.header.kind == 1 && m.header.code == 4
    case _ => ServerMessage(m)
  }

  /** Of the six messages the loop takes exactly the four a server sends; on a frame of either of
      the two others one of its assertions fails. */
  lemma DispatchesExactly(m: Message, rest: seq<byte>)
    requires WellFormed(m) && AsConstructed(m)
    ensures var t := OneTurn(Encode(m) + rest);
            if ServerMessage(m) then t == Consumes(ReadBack(m), rest) else t.Faults?
  {
    hide Encode;
    var b := Encode(m) + rest;
    if ServerMessage(m) {
      TurnOnFrame(m, b);
      assert b[|Encode(m)|..] == rest;
    } else {
      RoundTrip(m, rest);
      if StructOf(m.body).ConnRequestMsg? {
        RequestIsNoResponse(m, rest);
      }
    }
  }

  /** A connection request has no content, so reading it as a response finds no status byte. */
  lemma RequestIsNoResponse(m: Message, rest: seq<byte>)
    requires WellFormed(m) && m.body.GetConnStatusRequest?
    ensures Decode(ConnResponseMsg, Encode(m) + rest) == Broken
  {
    var b := Encode(m) + rest;
    FrameLayout(m, b);
    assert b[11..11 + 0] == [];
  }

  /** What is buffered after p bytes of the stream: the unfinished frame. */
  function Buffered(ms: seq<Message>, p: nat): (b: seq<byte>)
    requires p <= |Stream(ms)|
    ensures |b| == Unfinished(ms, p)
  {
    Stream(ms)[p - Unfinished(ms, p)..p]
  }

  /** The unfinished bytes at p and those that follow up to q. */
  function Between(ms: seq<Message>, p: nat, q: nat): (b: seq<byte>)
    requires p <= q <= |Stream(ms)|
    ensures |b| == q - p + Unfinished(ms, p)
  {
    Stream(ms)[p - Unfinished(ms, p)..q]
  }

  /** The messages whose frames are completed between positions p and q, as they are read back. */
  function Dispatched(ms: seq<Message>, p: nat, q: nat): seq<Message>
    requires ServerMessages(ms)
  {
    if Whole(ms, p) <= Whole(ms, q) then ReadBacks(ms[Whole(ms, p)..Whole(ms, q)]) else []
  }

  /** How the loop ends over an unfinished frame. */
  function EndingAt(ms: seq<Message>, p: nat): Ending {
    if Unfinished(ms, p) < HEADER_LENGTH then Left else Spins
  }

  lemma DrainFrame(m: Message, b: seq<byte>)
    requires ServerMessage(m) && |b| <= MAX_BYTES && Encode(m) <= b
    ensures var d := Drain(b[|Encode(m)|..]); Drain(b) == d.(messages := [ReadBack(m)] + d.messages)
  {
    TurnOnFrame(m, b);
    hide OneTurn, Encode, ReadBack;
  }

  lemma DrainPart(m: Message, b: seq<byte>)
    requires ServerMessage(m) && |b| <= MAX_BYTES && b < Encode(m)
    ensures Drain(b) == Drained([], b, if |b| < HEADER_LENGTH then Left else Spins)
  {
    TurnOnFrame(m, b);
    hide OneTurn, Encode;
  }

  lemma DrainNothing()
    ensures Drain([]) == Drained([], [], Left)
  {
    GuardIsTurn([]);
    hide OneTurn;
  }

  lemma TailOfSum<T>(a: seq<T>, b: seq<T>, k: nat)
    requires k <= |b|
    ensures (a + b)[|a| + k..] == b[k..]
  {
  }

  lemma SliceOfTail<T>(s: seq<T>, start: nat, a: nat, b: nat)
    requires start <= a <= b <= |s|
    ensures s[start..][a - start..b - start] == s[a..b]
    ensures start == a ==> s[start..][..b - start] == s[a..b]
  {
  }

  /** Positions after the first frame of a stream are counted from its end. */
  lemma PastFirst(ms: seq<Message>, p: nat)
    requires ms != [] && p >= |Encode(ms[0])|
    ensures Stream(ms) == Encode(ms[0]) + Stream(ms[1..])
    ensures Whole(ms, p) == 1 + Whole(ms[1..], p - |Encode(ms[0])|)
    ensures Unfinished(ms, p) == Unfinished(ms[1..], p - |Encode(ms[0])|)
  {
    hide Encode;
  }

  lemma BeforeFirst(ms: seq<Message>, p: nat)
    requires ms == [] || p < |Encode(ms[0])|
    ensures Whole(ms, p) == 0 && Unfinished(ms, p) == p && ms[0..] == ms
  {
    hide Encode;
  }

  predicate DrainsTo(ms: seq<Message>, p: nat)
    requires ServerMessages(ms) && p <= |Stream(ms)| && p <= MAX_BYTES
  {
    Drain(Stream(ms)[..p]) == Drained(ReadBacks(ms[..Whole(ms, p)]), Buffered(ms, p), EndingAt(ms, p))
  }

  lemma DrainInFirst(ms: seq<Message>, p: nat)
    requires ServerMessages(ms) && p <= |Stream(ms)| && p <= MAX_BYTES
    requires ms != [] && p < |Encode(ms[0])|
    ensures DrainsTo(ms, p)
  {
    hide Drain, Encode, Whole, Unfinished, Stream, ServerMessage, ReadBacks;
    var b := Stream(ms)[..p];
    BeforeFirst(ms, p);
    StreamStarts(ms);
    NothingBack(ms[..0]);
    assert b == Encode(ms[0])[..p] && Stream(ms)[0..p] == b;
    DrainPart(ms[0], b);
  }

  lemma DrainPastFirst(ms: seq<Message>, p: nat)
    requires ServerMessages(ms) && p <= |Stream(ms)| && p <= MAX_BYTES
    requires ms != [] && p >= |Encode(ms[0])|
    requires Stream(ms) == Encode(ms[0]) + Stream(ms[1..]) && ServerMessages(ms[1..])
    requires DrainsTo(ms[1..], p - |Encode(ms[0])|)
    ensures DrainsTo(ms, p)
  {
    hide Drain, Encode, Whole, Unfinished, Stream, ServerMessage, ReadBacks;
    var b, frame, later := Stream(ms)[..p], Encode(ms[0]), ms[1..];
    var q := p - |frame|;
    PastFirst(ms, p);
    assert b[..|frame|] == frame && b[|frame|..] == Stream(later)[..q];
    DrainFrame(ms[0], b);
    BackOfFirst(ms, Whole(later, q));
    SliceOfSum(frame, Stream(later), q - Unfinished(later, q), q);
  }

  /** The first p bytes of a stream: every whole frame is dispatched, the unfinished bytes stay,
      and the loop leaves exactly when there are fewer than 11 of them. */
  lemma {:induction false} DrainPrefix(ms: seq<Message>, p: nat)
    requires ServerMessages(ms) && p <= |Stream(ms)| && p <= MAX_BYTES
    ensures DrainsTo(ms, p)
    decreases |ms|
  {
    hide Drain, Encode, Whole, Unfinished, ServerMessage, ReadBacks;
    if ms == [] {
      BeforeFirst(ms, p);
      DrainNothing();
      NothingBack(ms[..0]);
      assert Stream(ms)[..p] == [] && Stream(ms)[0..p] == [];
    } else if p < |Encode(ms[0])| {
      hide Stream, DrainsTo;
      DrainInFirst(ms, p);
    } else {
      PastFirst(ms, p);
      assert ServerMessages(ms[1..]);
      hide Stream, DrainsTo;
      DrainPrefix(ms[1..], p - |Encode(ms[0])|);
      DrainPastFirst(ms, p);
    }
  }

  lemma StreamStarts(ms: seq<Message>)
    requires ms != []
    ensures Encode(ms[0]) <= Stream(ms)
  {
    hide Encode;
  }

  lemma NothingBack(ms: seq<Message>)
    requires ms == []
    ensures ReadBacks(ms) == []
  {
  }

  lemma BackOfFirst(ms: seq<Message>, n: nat)
    requires ServerMessages(ms) && ms != [] && n < |ms|
    ensures ReadBacks(ms[..n + 1]) == [ReadBack(ms[0])] + ReadBacks(ms[1..][..n])
  {
    hide ServerMessage, ReadBack;
    assert ms[..n + 1][1..] == ms[1..][..n];
  }

  lemma SliceOfSum<T>(a: seq<T>, b: seq<T>, i: nat, j: nat)
    requires i <= j <= |b|
    ensures (a + b)[|a| + i..|a| + j] == b[i..j]
  {
  }

  /** Dropping the whole frames of the first p bytes shifts the stream and nothing else. */
  lemma {:induction false} Rebase(ms: seq<Message>, p: nat, q: nat)
    requires p <= q
    ensures var c := Whole(ms, p); var u := Unfinished(ms, p); var start := p - u;
            && start + |Stream(ms[c..])| == |Stream(ms)|
            && Stream(ms)[start..] == Stream(ms[c..])
            && Whole(ms, q) == c + Whole(ms[c..], q - start)
            && Unfinished(ms, q) == Unfinished(ms[c..], q - start)
    decreases |ms|
  {
    hide Encode, Stream, Whole, Unfinished;
    if ms == [] || p < |Encode(ms[0])| {
      BeforeFirst(ms, p);
    } else {
      var frame, later := Encode(ms[0]), ms[1..];
      var rest := p - |frame|;
      PastFirst(ms, p);
      PastFirst(ms, q);
      Rebase(later, rest, q - |frame|);
      var c, u := Whole(later, rest), Unfinished(later, rest);
      assert later[c..] == ms[1 + c..];
      TailOfSum(frame, Stream(later), rest - u);
    }
  }

  /** One delivery in the middle of a stream: from the unfinished bytes at position p to those at
      position q. */
  lemma DrainBetween(ms: seq<Message>, p: nat, q: nat)
    requires ServerMessages(ms) && p <= q <= |Stream(ms)| && q - p + Unfinished(ms, p) <= MAX_BYTES
    ensures Drain(Between(ms, p, q)) == Drained(Dispatched(ms, p, q), Buffered(ms, q), EndingAt(ms, q))
  {
    hide Drain, Stream, Unfinished, Whole, ReadBacks, ServerMessage;
    Rebase(ms, p, q);
    var c, start := Whole(ms, p), p - Unfinished(ms, p);
    var tail, n, u := ms[c..], Whole(ms, q), Unfinished(ms, q);
    assert ServerMessages(tail);
    DrainPrefix(tail, q - start);
    SliceOfTail(Stream(ms), start, start, q);
    SliceOfTail(Stream(ms), start, q - u, q);
    SliceOfTail(ms, c, c, n);
  }

  lemma WholeGrows(ms: seq<Message>, p: nat, q: nat)
    requires p <= q
    ensures Whole(ms, p) <= Whole(ms, q)
  {
    hide Stream, Unfinished, Whole;
    Rebase(ms, p, q);
  }

  function Join(chunks: seq<seq<byte>>): seq<byte> {
    if chunks == [] then [] else chunks[0] + Join(chunks[1..])
  }

  /** At every delivery the buffered bytes and the chunk fit a QByteArray, as long as the earlier
      deliveries have come back. */
  predicate Fits(buffered: seq<byte>, chunks: seq<seq<byte>>)
    decreases |chunks|
  {
    chunks == [] ||
    var b := buffered + chunks[0];
    |b| <= MAX_BYTES && (Drain(b).ending == Left ==> Fits(Drain(b).rest, chunks[1..]))
  }

  /** A series of deliveries: what is dispatched and what stays buffered, or None if one of them
      does not come back from the loop. */
  function Feed(buffered: seq<byte>, chunks: seq<seq<byte>>): Option<(seq<Message>, seq<byte>)>
    requires Fits(buffered, chunks)
    decreases |chunks|
  {
    if chunks == [] then Some(([], buffered))
    else
      var d := Drain(buffered + chunks[0]);
      if d.ending != Left then None
      else
        var (later, rest) :- Feed(d.rest, chunks[1..]);
        Some((d.messages + later, rest))
  }

  /** Every cut of the stream leaves fewer than 11 bytes of an unfinished frame. */
  predicate GoodCuts(ms: seq<Message>, p: nat, chunks: seq<seq<byte>>)
    decreases |chunks|
  {
    chunks == [] ||
    (Unfinished(ms, p + |chunks[0]|) < HEADER_LENGTH && GoodCuts(ms, p + |chunks[0]|, chunks[1..]))
  }

  /** The chunks are the bytes of the stream from position p on. */
  predicate Cuts(ms: seq<Message>, p: nat, chunks: seq<seq<byte>>) {
    p + |Join(chunks)| <= |Stream(ms)| && Join(chunks) == Stream(ms)[p..p + |Join(chunks)|]
  }

  lemma FirstCut(ms: seq<Message>, p: nat, chunks: seq<seq<byte>>)
    requires Cuts(ms, p, chunks) && chunks != []
    ensures var mid := p + |chunks[0]|;
            && Cuts(ms, mid, chunks[1..]) && mid + |Join(chunks[1..])| == p + |Join(chunks)|
            && mid <= |Stream(ms)| && Buffered(ms, p) + chunks[0] == Between(ms, p, mid)
  {
    hide Stream, Unfinished;
    var c := chunks[0];
    var whole := Join(chunks);
    assert whole[..|c|] == c && whole[|c|..] == Join(chunks[1..]);
    assert Stream(ms)[p..p + |whole|][..|c|] == Stream(ms)[p..p + |c|];
    assert Stream(ms)[p..p + |whole|][|c|..] == Stream(ms)[p + |c|..p + |whole|];
    assert c == Stream(ms)[p..p + |c|];
    assert Join(chunks[1..]) == Stream(ms)[p + |c|..p + |whole|];
  }

  lemma {:induction false} FeedStream(ms: seq<Message>, p: nat, chunks: seq<seq<byte>>)
    requires ServerMessages(ms) && Cuts(ms, p, chunks) && Fits(Buffered(ms, p), chunks)
    ensures var r := Feed(Buffered(ms, p), chunks); var q := p + |Join(chunks)|;
            && (r.Some? <==> GoodCuts(ms, p, chunks))
            && (r.Some? ==> r.value == (Dispatched(ms, p, q), Buffered(ms, q)))
    decreases |chunks|
  {
    hide Drain, Stream, Unfinished, Buffered, Between, Dispatched, Cuts, ServerMessages;
    if chunks == [] {
      NothingBetween(ms, p);
    } else {
      var mid, q := p + |chunks[0]|, p + |Join(chunks)|;
      FirstCut(ms, p, chunks);
      CutsWithin(ms, mid, chunks[1..]);
      DrainBetween(ms, p, mid);
      if Unfinished(ms, mid) < HEADER_LENGTH {
        FeedStream(ms, mid, chunks[1..]);
        DispatchedSplit(ms, p, mid, q);
      }
    }
  }

  lemma CutsWithin(ms: seq<Message>, p: nat, chunks: seq<seq<byte>>)
    requires Cuts(ms, p, chunks)
    ensures p + |Join(chunks)| <= |Stream(ms)|
  {
  }

  lemma NothingBetween(ms: seq<Message>, p: nat)
    requires ServerMessages(ms)
    ensures Dispatched(ms, p, p) == []
  {
    NothingBack(ms[Whole(ms, p)..Whole(ms, p)]);
  }

  /** What is dispatched up to q is what is dispatched up to the cut and after it. */
  lemma DispatchedSplit(ms: seq<Message>, p: nat, mid: nat, q: nat)
    requires ServerMessages(ms) && p <= mid <= q
    ensures Dispatched(ms, p, q) == Dispatched(ms, p, mid) + Dispatched(ms, mid, q)
  {
    hide Whole, ReadBacks, ServerMessage, Unfinished;
    WholeGrows(ms, p, mid);
    WholeGrows(ms, mid, q);
    ReadBacksSplit(ms, Whole(ms, p), Whole(ms, mid), Whole(ms, q));
  }

  lemma {:induction false} ReadBacksSplit(ms: seq<Message>, a: nat, b: nat, c: nat)
    requires ServerMessages(ms) && a <= b <= c <= |ms|
    ensures ReadBacks(ms[a..c]) == ReadBacks(ms[a..b]) + ReadBacks(ms[b..c])
    decreases b - a
  {
    hide ServerMessage, ReadBack, ReadBacks;
    if a < b {
      FirstBack(ms, a, b);
      FirstBack(ms, a, c);
      ReadBacksSplit(ms, a + 1, b, c);
    } else {
      NothingBack(ms[a..b]);
    }
  }

  lemma FirstBack(ms: seq<Message>, a: nat, b: nat)
    requires ServerMessages(ms) && a < b <= |ms|
    ensures ReadBacks(ms[a..b]) == [ReadBack(ms[a])] + ReadBacks(ms[a + 1..b])
  {
    hide ServerMessage, ReadBack;
    assert ms[a..b][1..] == ms[a + 1..b];
  }

  lemma NothingYet(ms: seq<Message>)
    ensures Whole(ms, 0) == 0 && Unfinished(ms, 0) == 0
  {
  }

  /** Stream reassembly.  Cut the encodings of any server messages into any pieces: the loop
      comes back from every delivery exactly when no cut leaves 11 or more bytes of an unfinished
      frame, and then exactly the messages whose frames are complete have been dispatched, in
      order, and the unfinished bytes are buffered. */
  lemma StreamReassembly(ms: seq<Message>, chunks: seq<seq<byte>>)
    requires ServerMessages(ms) && Join(chunks) <= Stream(ms) && Fits([], chunks)
    ensures var n := |Join(chunks)|; var r := Feed([], chunks);
            && (r.Some? <==> GoodCuts(ms, 0, chunks))
            && (r.Some? ==> r.value == (ReadBacks(ms[..Whole(ms, n)]), Buffered(ms, n)))
  {
    hide Stream, ReadBacks, Feed, GoodCuts, Fits, Unfinished, Whole;
    var n := |Join(chunks)|;
    NothingYet(ms);
    assert Stream(ms)[0..n] == Join(chunks) && Cuts(ms, 0, chunks);
    assert Buffered(ms, 0) == [];
    FeedStream(ms, 0, chunks);
    assert ms[0..Whole(ms, n)] == ms[..Whole(ms, n)];
  }

  /** With the whole stream delivered, every message has been dispatched and nothing is left. */
  lemma WholeStream(ms: seq<Message>, chunks: seq<seq<byte>>)
    requires ServerMessages(ms) && Fits([], chunks)
    requires Join(chunks) == Stream(ms) && GoodCuts(ms, 0, chunks)
    ensures Feed([], chunks) == Some((ReadBacks(ms), []))
  {
    hide Stream, ReadBacks, Feed, GoodCuts, Whole, Unfinished, Fits;
    StreamReassembly(ms, chunks);
    AllWhole(ms);
    assert ms[..|ms|] == ms && |Buffered(ms, |Stream(ms)|)| == 0;
  }

  lemma {:induction false} AllWhole(ms: seq<Message>)
    ensures Whole(ms, |Stream(ms)|) == |ms| && Unfinished(ms, |Stream(ms)|) == 0
  {
    hide Encode;
    if ms != [] {
      AllWhole(ms[1..]);
    }
  }

  // ---- The loop its comment intends ----

  predicate FitsPatiently(buffered: seq<byte>, chunks: seq<seq<byte>>)
    decreases |chunks|
  {
    chunks == [] ||
    var b := buffered + chunks[0];
    |b| <= MAX_BYTES && FitsPatiently(Drain(b).rest, chunks[1..])
  }

  /** Deliveries to a loop that also stops when an iteration makes no progress, which is what the
      comment on incomplete data in global_def.cpp asks for.  The source has no such loop. */
  function FeedPatiently(buffered: seq<byte>, chunks: seq<seq<byte>>): (seq<Message>, seq<byte>)
    requires FitsPatiently(buffered, chunks)
    decreases |chunks|
  {
    if chunks == [] then ([], buffered)
    else
      var d := Drain(buffered + chunks[0]);
      var (later, rest) := FeedPatiently(d.rest, chunks[1..]);
      (d.messages + later, rest)
  }

  /** That loop would dispatch the right messages for every way of cutting the stream. */
  lemma {:induction false} PatientLoop(ms: seq<Message>, p: nat, chunks: seq<seq<byte>>)
    requires ServerMessages(ms) && Cuts(ms, p, chunks) && FitsPatiently(Buffered(ms, p), chunks)
    ensures var q := p + |Join(chunks)|;
            FeedPatiently(Buffered(ms, p), chunks) == (Dispatched(ms, p, q), Buffered(ms, q))
    decreases |chunks|
  {
    hide Drain, Stream, Unfinished, Buffered, Between, Dispatched, Cuts, ServerMessages;
    if chunks == [] {
      NothingBetween(ms, p);
    } else {
      var mid, q := p + |chunks[0]|, p + |Join(chunks)|;
      FirstCut(ms, p, chunks);
      CutsWithin(ms, mid, chunks[1..]);
      DrainBetween(ms, p, mid);
      PatientLoop(ms, mid, chunks[1..]);
      DispatchedSplit(ms, p, mid, q);
    }
  }

  // ---- Bytes that are no frame ----

  /** Once 11 bytes are buffered that do not begin with the tag, no delivery ever dispatches
      anything again. */
  lemma {:induction false} NoResynchronisation(b: seq<byte>, chunks: seq<seq<byte>>)
    requires HEADER_LENGTH <= |b| && b[..5] != TAG && Fits(b, chunks)
    ensures Feed(b, chunks) == Some(([], b + Join(chunks)))
    decreases |chunks|
  {
    if chunks == [] {
      assert b + [] == b;
    } else {
      var next := b + chunks[0];
      assert next[..5] == b[..5];
      assert CodeOf(next).None?;
      assert Drain(next) == Drained([], next, Left);
      NoResynchronisation(next, chunks[1..]);
      assert b + Join(chunks) == next + Join(chunks[1..]);
      var none: seq<Message> := [];
      assert none + none == none;
    }
  }
}
