// The binary codec of the pipe messages: windows_clipboard/common/global_def.h, global_def.cpp.
//
// A frame is the tag, a type byte, a code byte, the content length as four big-endian bytes and
// the content.  Encoders and decoders work on local buffers; each is proved against the frame
// format written as functions on byte strings.
module PipeCodec {
  import opened Bytes
  import opened PipeBuffer

  const TAG: seq<byte> := [0x52, 0x54, 0x4B, 0x43, 0x53]   // "RTKCS"
  const HEADER_LENGTH: nat := 11
  const CLIENT_ID_LENGTH: nat := 46
  // The largest length of a QByteArray.
  const MAX_BYTES: nat := 0x7FFF_FFFF

  datatype MsgHeader = MsgHeader(tag: seq<byte>, kind: byte, code: byte, contentLength: uint32)

  /** Address, port and client ID, which four of the messages carry. */
  datatype Peer = Peer(ip: uint32, port: uint16, clientId: seq<byte>)

  /** The fields of the six messages.  A name is its UTF-16 code units. */
  datatype Body =
    | UpdateClientStatus(status: byte, peer: Peer, name: seq<uint16>)
    | SendFileRequest(peer: Peer, fileSize: uint64, timeStamp: uint64, name: seq<uint16>)
    | SendFileResponse(status: byte, peer: Peer, fileSize: uint64, timeStamp: uint64, name: seq<uint16>)
    | UpdateProgress(peer: Peer, fileSize: uint64, sentSize: uint64, timeStamp: uint64, name: seq<uint16>)
    | GetConnStatusRequest
    | GetConnStatusResponse(status: byte)

  datatype Message = Message(header: MsgHeader, body: Body)

  /** The six message structs. */
  datatype Struct = ClientStatusMsg | FileRequestMsg | FileResponseMsg | ProgressMsg | ConnRequestMsg | ConnResponseMsg

  function StructOf(b: Body): Struct {
    match b
    case UpdateClientStatus(_, _, _) => ClientStatusMsg
    case SendFileRequest(_, _, _, _) => FileRequestMsg
    case SendFileResponse(_, _, _, _, _) => FileResponseMsg
    case UpdateProgress(_, _, _, _, _) => ProgressMsg
    case GetConnStatusRequest => ConnRequestMsg
    case GetConnStatusResponse(_) => ConnResponseMsg
  }

  /** getMessageLength: 32-bit arithmetic, and fixed for the two connection messages. */
  function MessageLength(m: Message): uint32 {
    match StructOf(m.body)
    case ConnRequestMsg => HEADER_LENGTH
    case ConnResponseMsg => HEADER_LENGTH + 1
    case _ => (HEADER_LENGTH + m.header.contentLength) % 0x1_0000_0000
  }

  // ---- The format ----

  /** toUtf16LE */
  function Utf16LE(units: seq<uint16>): (s: seq<byte>)
    ensures |s| == 2 * |units|
    ensures forall k :: 0 <= k < |units| ==> s[2 * k] == units[k] % 0x100 && s[2 * k + 1] == units[k] / 0x100
  {
    if units == [] then [] else [units[0] % 0x100, units[0] / 0x100] + Utf16LE(units[1..])
  }

  function FromUtf16LE(s: seq<byte>): (units: seq<uint16>)
    requires |s| % 2 == 0
    ensures 2 * |units| == |s|
  {
    if s == [] then [] else [s[0] + 0x100 * (s[1] as int)] + FromUtf16LE(s[2..])
  }

  /** A name read back goes through a C string, so it ends before its first U+0000. */
  function UntilNul(units: seq<uint16>): (r: seq<uint16>)
    ensures r <= units && 0 !in r
    ensures r == units <==> 0 !in units
    ensures r != units ==> units[|r|] == 0
  {
    if units == [] || units[0] == 0 then [] else [units[0]] + UntilNul(units[1..])
  }

  function PeerBytes(p: Peer): seq<byte> {
    LimitValues();
    ToBigEndian(4, p.ip) + ToBigEndian(2, p.port) + p.clientId
  }

  function U64(x: uint64): (s: seq<byte>)
    ensures |s| == 8
  {
    LimitValues();
    ToBigEndian(8, x)
  }

  function ContentBytes(b: Body): seq<byte> {
    match b
    case UpdateClientStatus(status, peer, name) => [status] + PeerBytes(peer) + Utf16LE(name)
    case SendFileRequest(peer, size, time, name) => PeerBytes(peer) + U64(size) + U64(time) + Utf16LE(name)
    case SendFileResponse(status, peer, size, time, name) =>
      [status] + PeerBytes(peer) + U64(size) + U64(time) + Utf16LE(name)
    case UpdateProgress(peer, size, sent, time, name) =>
      PeerBytes(peer) + U64(size) + U64(sent) + U64(time) + Utf16LE(name)
    case GetConnStatusRequest => []
    case GetConnStatusResponse(status) => [status]
  }

  function LengthField(n: nat): (s: seq<byte>)
    ensures |s| == 4
  {
    LimitValues();
    ToBigEndian(4, n % 0x1_0000_0000)
  }

  /** toByteArray of all six structs. */
  function Encode(m: Message): seq<byte> {
    m.header.tag + [m.header.kind, m.header.code] + LengthField(|ContentBytes(m.body)|) + ContentBytes(m.body)
  }

  /** The outcome of fromByteArray: false, a failed assertion, or a message. */
  datatype Decoded = NotYet | Broken | Done(message: Message)

  datatype Frame = NoFrame | Frame(header: MsgHeader, content: seq<byte>)

  /** Tag, type, code and content, once all of it has arrived. */
  function ReadFrame(data: seq<byte>): Frame {
    if |data| < HEADER_LENGTH || data[..5] != TAG then NoFrame
    else
      LimitValues();
      var length := FromBigEndian(data[7..11]);
      if length > |data| - HEADER_LENGTH then NoFrame
      else Frame(MsgHeader(data[..5], data[5], data[6], length), data[11..11 + length])
  }

  function TakeUInt(width: nat, s: seq<byte>): Option<(nat, seq<byte>)> {
    if |s| < width then None else Some((FromBigEndian(s[..width]), s[width..]))
  }

  function TakeU64(s: seq<byte>): Option<(uint64, seq<byte>)> {
    LimitValues();
    if |s| < 8 then None else Some((FromBigEndian(s[..8]), s[8..]))
  }

  function TakeStatus(s: seq<byte>): Option<(byte, seq<byte>)> {
    if s == [] then None else Some((s[0], s[1..]))
  }

  function TakePeer(s: seq<byte>): Option<(Peer, seq<byte>)> {
    LimitValues();
    var (ip, s1) :- TakeUInt(4, s);
    var (port, s2) :- TakeUInt(2, s1);
    if |s2| < CLIENT_ID_LENGTH then None
    else Some((Peer(ip, port, s2[..CLIENT_ID_LENGTH]), s2[CLIENT_ID_LENGTH..]))
  }

  function TakeName(s: seq<byte>): Option<seq<uint16>> {
    if |s| % 2 != 0 then None else Some(UntilNul(FromUtf16LE(s)))
  }

  /** The fields of a content; None when an assertion of the decoder fails. */
  function ParseContent(kind: Struct, s: seq<byte>): Option<Body> {
    match kind
    case ClientStatusMsg =>
      var (status, s1) :- TakeStatus(s);
      var (peer, s2) :- TakePeer(s1);
      var name :- TakeName(s2);
      Some(UpdateClientStatus(status, peer, name))
    case FileRequestMsg =>
      var (peer, s1) :- TakePeer(s);
      var (size, s2) :- TakeU64(s1);
      var (time, s3) :- TakeU64(s2);
      var name :- TakeName(s3);
      Some(SendFileRequest(peer, size, time, name))
    case FileResponseMsg =>
      var (status, s0) :- TakeStatus(s);
      var (peer, s1) :- TakePeer(s0);
      var (size, s2) :- TakeU64(s1);
      var (time, s3) :- TakeU64(s2);
      var name :- TakeName(s3);
      Some(SendFileResponse(status, peer, size, time, name))
    case ProgressMsg =>
      var (peer, s1) :- TakePeer(s);
      var (size, s2) :- TakeU64(s1);
      var (sent, s3) :- TakeU64(s2);
      var (time, s4) :- TakeU64(s3);
      var name :- TakeName(s4);
      Some(UpdateProgress(peer, size, sent, time, name))
    case ConnRequestMsg => Some(GetConnStatusRequest)
    case ConnResponseMsg =>
      var (status, _) :- TakeStatus(s);
      Some(GetConnStatusResponse(status))
  }

  /** fromByteArray of the struct kind. */
  function Decode(kind: Struct, data: seq<byte>): Decoded {
    if kind == ConnRequestMsg then
      if |data| < HEADER_LENGTH || data[..5] != TAG then NotYet
      else Done(Message(MsgHeader(data[..5], data[5], data[6], 0), GetConnStatusRequest))
    else
      match ReadFrame(data)
      case NoFrame => NotYet
      case Frame(header, content) =>
        match ParseContent(kind, content)
        case None => Broken
        case Some(body) => Done(Message(header, body))
  }

  /** g_getCodeFromByteArray: type and code of what starts in data, or None. */
  function CodeOf(data: seq<byte>): Option<(byte, byte)> {
    if |data| < HEADER_LENGTH || data[..5] != TAG then None else Some((data[5], data[6]))
  }

  // ---- The format, byte by byte ----

  /** Address and port, most significant byte first. */
  function AddressBytes(ip: uint32, port: uint16): (s: seq<byte>)
    ensures |s| == 6
  {
    [ip / 0x100_0000, ip / 0x1_0000 % 0x100, ip / 0x100 % 0x100, ip % 0x100, port / 0x100, port % 0x100]
  }

  /** The 64-bit number x is at position at, most significant byte first. */
  predicate NumberAt(s: seq<byte>, at: nat, x: uint64) {
    && at + 8 <= |s|
    && s[at] == x / 0x100_0000_0000_0000 && s[at + 1] == x / 0x1_0000_0000_0000 % 0x100
    && s[at + 2] == x / 0x100_0000_0000 % 0x100 && s[at + 3] == x / 0x1_0000_0000 % 0x100
    && s[at + 4] == x / 0x100_0000 % 0x100 && s[at + 5] == x / 0x1_0000 % 0x100
    && s[at + 6] == x / 0x100 % 0x100 && s[at + 7] == x % 0x100
  }

  /** Address, port and client ID are at position at. */
  predicate PeerAt(s: seq<byte>, at: nat, p: Peer) {
    at + 6 + |p.clientId| <= |s| && s[at..at + 6] == AddressBytes(p.ip, p.port)
    && s[at + 6..at + 6 + |p.clientId|] == p.clientId
  }

  /** The name, in little-endian UTF-16, is what is left from position at on. */
  predicate NameAt(s: seq<byte>, at: nat, name: seq<uint16>) {
    |s| == at + 2 * |name|
    && forall k :: 0 <= k < |name| ==> s[at + 2 * k] == name[k] % 0x100 && s[at + 2 * k + 1] == name[k] / 0x100
  }

  lemma PeerPlaced(p: Peer)
    ensures PeerBytes(p) == AddressBytes(p.ip, p.port) + p.clientId
  {
    BigEndianBytes(p.ip, p.port);
  }

  lemma NumberPlaced(x: uint64)
    ensures NumberAt(U64(x), 0, x)
  {
    LimitValues();
    OddLimits();
    hide Limit;
    var s := ToBigEndian(8, x);
    BigEndianDigit(8, x, 0);
    BigEndianDigit(8, x, 1);
    BigEndianDigit(8, x, 2);
    BigEndianDigit(8, x, 3);
    BigEndianDigit(8, x, 4);
    BigEndianDigit(8, x, 5);
    BigEndianDigit(8, x, 6);
    BigEndianDigit(8, x, 7);
    hide ToBigEndian;
    assert x / 0x100_0000_0000_0000 < 0x100;
  }

  lemma OddLimits()
    ensures Limit(0) == 1 && Limit(1) == 0x100 && Limit(3) == 0x100_0000
    ensures Limit(5) == 0x100_0000_0000 && Limit(6) == 0x1_0000_0000_0000 && Limit(7) == 0x100_0000_0000_0000
  {
    LimitValues();
    assert Limit(1) == 0x100 * Limit(0) && Limit(3) == 0x100 * Limit(2);
    assert Limit(5) == 0x100 * Limit(4) && Limit(6) == 0x100 * Limit(5) && Limit(7) == 0x100 * Limit(6);
  }

  lemma PeerThere(before: seq<byte>, p: Peer, after: seq<byte>)
    ensures PeerAt(before + PeerBytes(p) + after, |before|, p)
  {
    PeerPlaced(p);
    hide PeerBytes, AddressBytes;
    var s := before + PeerBytes(p) + after;
    assert s[|before|..|before| + 6] == PeerBytes(p)[..6];
    assert s[|before| + 6..|before| + 6 + |p.clientId|] == PeerBytes(p)[6..];
  }

  lemma NumberThere(before: seq<byte>, x: uint64, after: seq<byte>)
    ensures NumberAt(before + U64(x) + after, |before|, x)
  {
    NumberPlaced(x);
    hide U64;
    var s := before + U64(x) + after;
    assert forall k :: 0 <= k < 8 ==> s[|before| + k] == U64(x)[k];
  }

  lemma NameThere(before: seq<byte>, name: seq<uint16>)
    ensures NameAt(before + Utf16LE(name), |before|, name)
  {
  }

  /** Where every field of the four messages with a name lies in their content. */
  lemma ContentPlaced(b: Body)
    requires HasName(b) && |b.peer.clientId| == CLIENT_ID_LENGTH
    ensures var s := ContentBytes(b);
            match b
            case UpdateClientStatus(status, peer, name) => s[0] == status && PeerAt(s, 1, peer) && NameAt(s, 53, name)
            case SendFileRequest(peer, size, time, name) =>
              PeerAt(s, 0, peer) && NumberAt(s, 52, size) && NumberAt(s, 60, time) && NameAt(s, 68, name)
            case SendFileResponse(status, peer, size, time, name) =>
              s[0] == status && PeerAt(s, 1, peer) && NumberAt(s, 53, size) && NumberAt(s, 61, time) && NameAt(s, 69, name)
            case UpdateProgress(peer, size, sent, time, name) =>
              PeerAt(s, 0, peer) && NumberAt(s, 52, size) && NumberAt(s, 60, sent) && NumberAt(s, 68, time)
              && NameAt(s, 76, name)
  {
    hide U64, Utf16LE, NumberAt, PeerAt, NameAt;
    PeerPlaced(b.peer);
    hide PeerBytes;
    var peer, name := PeerBytes(b.peer), Utf16LE(b.name);
    match b
    case UpdateClientStatus(status, _, _) =>
      PeerThere([status], b.peer, name);
      NameThere([status] + peer, b.name);
    case SendFileRequest(_, size, time, _) => FilePlaced([], b.peer, size, time, b.name);
      assert [] + peer == peer;
    case SendFileResponse(status, _, size, time, _) => FilePlaced([status], b.peer, size, time, b.name);
    case UpdateProgress(_, size, sent, time, _) =>
      var all := peer + U64(size) + U64(sent) + U64(time) + name;
      assert all == [] + peer + (U64(size) + U64(sent) + U64(time) + name);
      PeerThere([], b.peer, U64(size) + U64(sent) + U64(time) + name);
      assert all == peer + U64(size) + (U64(sent) + U64(time) + name);
      NumberThere(peer, size, U64(sent) + U64(time) + name);
      assert all == (peer + U64(size)) + U64(sent) + (U64(time) + name);
      NumberThere(peer + U64(size), sent, U64(time) + name);
      NumberThere(peer + U64(size) + U64(sent), time, name);
      NameThere(peer + U64(size) + U64(sent) + U64(time), b.name);
  }

  lemma FilePlaced(before: seq<byte>, p: Peer, size: uint64, time: uint64, name: seq<uint16>)
    requires |p.clientId| == CLIENT_ID_LENGTH
    ensures var s := before + PeerBytes(p) + U64(size) + U64(time) + Utf16LE(name); var n := |before|;
            && PeerAt(s, n, p) && NumberAt(s, n + 52, size) && NumberAt(s, n + 60, time) && NameAt(s, n + 68, name)
  {
    hide U64, Utf16LE, NumberAt, PeerAt, NameAt;
    PeerPlaced(p);
    hide PeerBytes;
    var peer, end := PeerBytes(p), Utf16LE(name);
    var s := before + peer + U64(size) + U64(time) + end;
    assert s == before + peer + (U64(size) + U64(time) + end);
    PeerThere(before, p, U64(size) + U64(time) + end);
    assert s == (before + peer) + U64(size) + (U64(time) + end);
    NumberThere(before + peer, size, U64(time) + end);
    NumberThere(before + peer + U64(size), time, end);
    NameThere(before + peer + U64(size) + U64(time), name);
  }

  /** "RTKCS", type, code and the content length, most significant byte first, and then the
      content. */
  lemma FramePlaced(m: Message)
    requires WellFormed(m)
    ensures var n := |ContentBytes(m.body)|;
            Encode(m) == [0x52, 0x54, 0x4B, 0x43, 0x53, m.header.kind, m.header.code,
                          n / 0x100_0000, n / 0x1_0000 % 0x100, n / 0x100 % 0x100, n % 0x100] + ContentBytes(m.body)
  {
    hide ContentBytes;
    var n := |ContentBytes(m.body)|;
    BigEndianBytes(n, 0);
    assert n % 0x1_0000_0000 == n;
  }

  // ---- Decoding undoes encoding ----

  predicate HasName(b: Body) {
    !b.GetConnStatusRequest? && !b.GetConnStatusResponse?
  }

  /** A body as its encoding can be read back. */
  function BodyBack(b: Body): Body {
    if HasName(b) then b.(name := UntilNul(b.name)) else b
  }

  /** The message as it can be read back: the real content length, and the name up to U+0000. */
  function ReadBack(m: Message): Message
    requires |ContentBytes(m.body)| < 0x1_0000_0000
  {
    Message(m.header.(contentLength := |ContentBytes(m.body)|), BodyBack(m.body))
  }

  predicate WellFormed(m: Message) {
    && m.header.tag == TAG
    && (HasName(m.body) ==> |m.body.peer.clientId| == CLIENT_ID_LENGTH)
    && |ContentBytes(m.body)| + HEADER_LENGTH <= MAX_BYTES
  }

  lemma {:induction false} Utf16RoundTrip(units: seq<uint16>)
    ensures FromUtf16LE(Utf16LE(units)) == units
  {
    if units != [] {
      Utf16RoundTrip(units[1..]);
      assert Utf16LE(units)[2..] == Utf16LE(units[1..]);
    }
  }

  lemma TakeUIntBack(width: nat, x: nat, rest: seq<byte>)
    requires x < Limit(width)
    ensures TakeUInt(width, ToBigEndian(width, x) + rest) == Some((x, rest))
  {
    BigEndianRoundTrip(width, x);
    var s := ToBigEndian(width, x) + rest;
    assert s[..width] == ToBigEndian(width, x) && s[width..] == rest;
  }

  lemma TakeU64Back(x: uint64, rest: seq<byte>)
    ensures TakeU64(U64(x) + rest) == Some((x, rest))
  {
    LimitValues();
    TakeUIntBack(8, x, rest);
  }

  lemma TakePeerBack(p: Peer, rest: seq<byte>)
    requires |p.clientId| == CLIENT_ID_LENGTH
    ensures TakePeer(PeerBytes(p) + rest) == Some((p, rest))
  {
    LimitValues();
    var s2 := p.clientId + rest;
    var s1 := ToBigEndian(2, p.port) + s2;
    assert PeerBytes(p) + rest == ToBigEndian(4, p.ip) + s1;
    TakeUIntBack(4, p.ip, s1);
    TakeUIntBack(2, p.port, s2);
    assert s2[..CLIENT_ID_LENGTH] == p.clientId && s2[CLIENT_ID_LENGTH..] == rest;
  }

  lemma TakeNameBack(name: seq<uint16>)
    ensures TakeName(Utf16LE(name)) == Some(UntilNul(name))
  {
    Utf16RoundTrip(name);
  }

  lemma StatusBack(b: Body)
    requires b.UpdateClientStatus? && |b.peer.clientId| == CLIENT_ID_LENGTH
    ensures ParseContent(StructOf(b), ContentBytes(b)) == Some(BodyBack(b))
  {
    hide PeerBytes, TakePeer, TakeName, Utf16LE, UntilNul;
    assert ContentBytes(b)[1..] == PeerBytes(b.peer) + Utf16LE(b.name);
    TakePeerBack(b.peer, Utf16LE(b.name));
    TakeNameBack(b.name);
  }

  lemma RequestBack(b: Body)
    requires b.SendFileRequest? && |b.peer.clientId| == CLIENT_ID_LENGTH
    ensures ParseContent(StructOf(b), ContentBytes(b)) == Some(BodyBack(b))
  {
    hide PeerBytes, TakePeer, U64, TakeU64, TakeName, Utf16LE, UntilNul;
    var s2 := U64(b.timeStamp) + Utf16LE(b.name);
    var s1 := U64(b.fileSize) + s2;
    assert ContentBytes(b) == PeerBytes(b.peer) + s1;
    TakePeerBack(b.peer, s1);
    TakeU64Back(b.fileSize, s2);
    TakeU64Back(b.timeStamp, Utf16LE(b.name));
    TakeNameBack(b.name);
  }

  lemma ResponseBack(b: Body)
    requires b.SendFileResponse? && |b.peer.clientId| == CLIENT_ID_LENGTH
    ensures ParseContent(StructOf(b), ContentBytes(b)) == Some(BodyBack(b))
  {
    hide PeerBytes, TakePeer, U64, TakeU64, TakeName, Utf16LE, UntilNul;
    var s2 := U64(b.timeStamp) + Utf16LE(b.name);
    var s1 := U64(b.fileSize) + s2;
    assert ContentBytes(b) == [b.status] + (PeerBytes(b.peer) + s1);
    assert ContentBytes(b)[1..] == PeerBytes(b.peer) + s1;
    TakePeerBack(b.peer, s1);
    TakeU64Back(b.fileSize, s2);
    TakeU64Back(b.timeStamp, Utf16LE(b.name));
    TakeNameBack(b.name);
  }

  lemma ProgressBack(b: Body)
    requires b.UpdateProgress? && |b.peer.clientId| == CLIENT_ID_LENGTH
    ensures ParseContent(StructOf(b), ContentBytes(b)) == Some(BodyBack(b))
  {
    hide PeerBytes, TakePeer, U64, TakeU64, TakeName, Utf16LE, UntilNul;
    var s3 := U64(b.timeStamp) + Utf16LE(b.name);
    var s2 := U64(b.sentSize) + s3;
    var s1 := U64(b.fileSize) + s2;
    assert ContentBytes(b) == PeerBytes(b.peer) + s1;
    TakePeerBack(b.peer, s1);
    TakeU64Back(b.fileSize, s2);
    TakeU64Back(b.sentSize, s3);
    TakeU64Back(b.timeStamp, Utf16LE(b.name));
    TakeNameBack(b.name);
  }

  lemma ContentBack(b: Body)
    requires HasName(b) ==> |b.peer.clientId| == CLIENT_ID_LENGTH
    ensures ParseContent(StructOf(b), ContentBytes(b)) == Some(BodyBack(b))
  {
    match b
    case UpdateClientStatus(_, _, _) => StatusBack(b);
    case SendFileRequest(_, _, _, _) => RequestBack(b);
    case SendFileResponse(_, _, _, _, _) => ResponseBack(b);
    case UpdateProgress(_, _, _, _, _) => ProgressBack(b);
    case GetConnStatusRequest =>
    case GetConnStatusResponse(_) =>
  }

  /** Where the parts of an encoded message lie in any data that begins with it. */
  lemma FrameLayout(m: Message, data: seq<byte>)
    requires WellFormed(m) && |data| >= HEADER_LENGTH
    requires Encode(m) <= data || data <= Encode(m)
    ensures data[..5] == TAG && data[5] == m.header.kind && data[6] == m.header.code
    ensures FromBigEndian(data[7..11]) == |ContentBytes(m.body)|
  {
    LimitValues();
    var n := |ContentBytes(m.body)|;
    assert n % 0x1_0000_0000 == n;
    BigEndianRoundTrip(4, n);
    var head := Encode(m)[..11];
    assert data[..11] == head;
    assert head[..5] == TAG && head[7..11] == LengthField(n);
    assert data[..5] == head[..5] && data[7..11] == head[7..11];
    assert data[5] == head[5] && data[6] == head[6];
  }

  /** The frame of an encoded message is read back whole, whatever follows it. */
  lemma FrameBack(m: Message, rest: seq<byte>)
    requires WellFormed(m)
    ensures var content := ContentBytes(m.body);
            && |Encode(m)| == HEADER_LENGTH + |content|
            && ReadFrame(Encode(m) + rest) == Frame(m.header.(contentLength := |content|), content)
            && CodeOf(Encode(m) + rest) == Some((m.header.kind, m.header.code))
  {
    var data, n := Encode(m) + rest, |ContentBytes(m.body)|;
    assert data[..|Encode(m)|] == Encode(m);
    FrameLayout(m, data);
    hide ContentBytes;
    assert Encode(m)[11..] == ContentBytes(m.body);
    assert data[11..11 + n] == Encode(m)[11..];
  }

  /** Round trip: decoding an encoded message followed by any further bytes gives the message
      back, and its length is the frame's length. */
  lemma RoundTrip(m: Message, rest: seq<byte>)
    requires WellFormed(m)
    ensures Decode(StructOf(m.body), Encode(m) + rest) == Done(ReadBack(m))
    ensures MessageLength(ReadBack(m)) == |Encode(m)|
    ensures CodeOf(Encode(m) + rest) == Some((m.header.kind, m.header.code))
  {
    FrameBack(m, rest);
    ContentBack(m.body);
    LengthBack(m);
    hide Encode, ParseContent, BodyBack, MessageLength;
    if m.body.GetConnStatusRequest? {
      RequestComesBack(m, rest);
    } else {
      hide ContentBytes;
    }
  }

  lemma LengthBack(m: Message)
    requires WellFormed(m)
    ensures MessageLength(ReadBack(m)) == HEADER_LENGTH + |ContentBytes(m.body)|
  {
    hide PeerBytes, U64, Utf16LE, UntilNul;
  }

  lemma RequestComesBack(m: Message, rest: seq<byte>)
    requires WellFormed(m) && m.body.GetConnStatusRequest?
    ensures Decode(ConnRequestMsg, Encode(m) + rest) == Done(ReadBack(m))
  {
    FrameLayout(m, Encode(m) + rest);
  }

  /** All fields come back exactly when the name, if there is one, has no U+0000. */
  lemma RoundTripExact(m: Message, rest: seq<byte>)
    requires WellFormed(m) && m.header.contentLength == |ContentBytes(m.body)|
    ensures Decode(StructOf(m.body), Encode(m) + rest) == Done(m)
       <==> (HasName(m.body) ==> 0 !in m.body.name)
  {
    RoundTrip(m, rest);
  }

  /** Decoding any proper prefix of a frame returns false. */
  lemma PrefixNotYet(m: Message, data: seq<byte>)
    requires WellFormed(m) && data < Encode(m)
    ensures Decode(StructOf(m.body), data) == NotYet
  {
    if |data| >= HEADER_LENGTH {
      FrameLayout(m, data);
    }
  }

  // ---- When decoding fails ----

  /** A header has arrived. */
  predicate Headed(data: seq<byte>) {
    |data| >= 11 && data[..5] == [0x52, 0x54, 0x4B, 0x43, 0x53]
  }

  /** The number in the four bytes behind tag, type and code. */
  function DeclaredLength(data: seq<byte>): nat
    requires |data| >= 11
  {
    0x100_0000 * (data[7] as int) + 0x1_0000 * (data[8] as int) + 0x100 * (data[9] as int) + data[10]
  }

  /** The content is too short for the fields of the struct, or its name has half a unit. */
  predicate Misfits(kind: Struct, n: nat) {
    match kind
    case ClientStatusMsg => n < 53 || n % 2 == 0
    case FileRequestMsg => n < 68 || n % 2 == 1
    case FileResponseMsg => n < 69 || n % 2 == 0
    case ProgressMsg => n < 76 || n % 2 == 1
    case ConnRequestMsg => false
    case ConnResponseMsg => n < 1
  }

  lemma {:induction false} LengthIs(data: seq<byte>)
    requires |data| >= 11
    ensures FromBigEndian(data[7..11]) == DeclaredLength(data)
  {
    var s := data[7..11];
    assert s[..3][..2] == s[..2] && s[..2][..1] == s[..1] && s[..1][..0] == [];
    assert FromBigEndian(s[..1]) == data[7];
    assert FromBigEndian(s[..2]) == 0x100 * FromBigEndian(s[..1]) + data[8];
    assert FromBigEndian(s[..3]) == 0x100 * FromBigEndian(s[..2]) + data[9];
  }

  lemma ParsesExactly(kind: Struct, s: seq<byte>)
    ensures ParseContent(kind, s).None? <==> Misfits(kind, |s|)
  {
    hide ParseContent;
    match kind
    case ClientStatusMsg => StatusParses(s);
    case FileRequestMsg => RequestParses(s);
    case FileResponseMsg => ResponseParses(s);
    case ProgressMsg => ProgressParses(s);
    case _ => ConnectionParses(kind, s);
  }

  lemma StatusParses(s: seq<byte>)
    ensures ParseContent(ClientStatusMsg, s).None? <==> |s| < 53 || |s| % 2 == 0
  {
    hide UntilNul, FromUtf16LE, FromBigEndian;
  }

  lemma RequestParses(s: seq<byte>)
    ensures ParseContent(FileRequestMsg, s).None? <==> |s| < 68 || |s| % 2 == 1
  {
    hide UntilNul, FromUtf16LE, FromBigEndian;
  }

  lemma ResponseParses(s: seq<byte>)
    ensures ParseContent(FileResponseMsg, s).None? <==> |s| < 69 || |s| % 2 == 0
  {
    hide UntilNul, FromUtf16LE, FromBigEndian;
  }

  lemma ProgressParses(s: seq<byte>)
    ensures ParseContent(ProgressMsg, s).None? <==> |s| < 76 || |s| % 2 == 1
  {
    hide UntilNul, FromUtf16LE, FromBigEndian;
  }

  lemma ConnectionParses(kind: Struct, s: seq<byte>)
    requires kind == ConnRequestMsg || kind == ConnResponseMsg
    ensures ParseContent(kind, s).None? <==> kind == ConnResponseMsg && s == []
  {
  }

  /** Exactly when decoding returns false, and exactly when one of its assertions fails; a connection
      request needs its header only. */
  lemma DecodesExactly(kind: Struct, data: seq<byte>)
    ensures Decode(kind, data) == NotYet
       <==> !Headed(data) || (kind != ConnRequestMsg && DeclaredLength(data) > |data| - 11)
    ensures Decode(kind, data) == Broken
       <==> Headed(data) && kind != ConnRequestMsg && DeclaredLength(data) <= |data| - 11 && Misfits(kind, DeclaredLength(data))
    ensures Headed(data) && kind == ConnRequestMsg ==>
              Decode(kind, data) == Done(Message(MsgHeader(data[..5], data[5], data[6], 0), GetConnStatusRequest))
  {
    if |data| >= 11 {
      LengthIs(data);
      var n := DeclaredLength(data);
      if n <= |data| - 11 {
        ParsesExactly(kind, data[11..11 + n]);
      }
    }
    hide ParseContent;
  }

  // ---- The encoders ----

  method AppendHeader(buffer: Buffer, header: MsgHeader)
    requires buffer.Valid()
    modifies buffer, buffer.store
    ensures buffer.Valid() && (buffer.store == old(buffer.store) || fresh(buffer.store))
    ensures buffer.Contents() == old(buffer.Contents()) + header.tag + [header.kind, header.code]
  {
    hide AfterAppend, AfterRetrieve, Buffer.Valid, Buffer.At, Buffer.Contents;
    buffer.Append(header.tag);
    buffer.Append([header.kind]);
    buffer.Append([header.code]);
    assert [header.kind] + [header.code] == [header.kind, header.code];
  }

  /** The assertion on the client ID's length is the caller's to meet. */
  method AppendPeer(buffer: Buffer, peer: Peer)
    requires buffer.Valid() && |peer.clientId| == CLIENT_ID_LENGTH
    modifies buffer, buffer.store
    ensures buffer.Valid() && (buffer.store == old(buffer.store) || fresh(buffer.store))
    ensures buffer.Contents() == old(buffer.Contents()) + PeerBytes(peer)
  {
    hide AfterAppend, AfterRetrieve, Buffer.Valid, Buffer.At, Buffer.Contents;
    LimitValues();
    buffer.AppendUInt(4, peer.ip);
    buffer.AppendUInt(2, peer.port);
    buffer.Append(peer.clientId);
  }

  method AppendU64(buffer: Buffer, x: uint64)
    requires buffer.Valid()
    modifies buffer, buffer.store
    ensures buffer.Valid() && (buffer.store == old(buffer.store) || fresh(buffer.store))
    ensures buffer.Contents() == old(buffer.Contents()) + U64(x)
  {
    hide AfterAppend, AfterRetrieve, Buffer.Valid, Buffer.At, Buffer.Contents;
    LimitValues();
    buffer.AppendUInt(8, x);
  }

  /** Header, content length and content of tmp, as one byte array. */
  method MakeFrame(header: MsgHeader, tmp: Buffer) returns (bytes: seq<byte>)
    requires tmp.Valid()
    modifies tmp
    ensures bytes == header.tag + [header.kind, header.code]
                     + LengthField(old(|tmp.Contents()|)) + old(tmp.Contents())
  {
    hide AfterAppend, AfterRetrieve, Buffer.Valid, Buffer.At, Buffer.Contents;
    var data := new Buffer();
    AppendHeader(data, header);
    assert data.Contents() == header.tag + [header.kind, header.code];
    LimitValues();
    var n := tmp.ReadableBytes();
    data.AppendUInt(4, n % 0x1_0000_0000);
    var content := tmp.RetrieveAllAsByteArray();
    data.Append(content);
    bytes := data.RetrieveAllAsByteArray();
  }

  method UpdateClientStatusToByteArray(m: Message) returns (bytes: seq<byte>)
    requires m.body.UpdateClientStatus? && |m.body.peer.clientId| == CLIENT_ID_LENGTH
    ensures bytes == Encode(m)
  {
    hide AfterAppend, AfterRetrieve, Buffer.Valid, Buffer.At, Buffer.Contents, PeerBytes, U64, Utf16LE, LengthField;
    var tmp := new Buffer();
    tmp.Append([m.body.status]);
    assert tmp.Contents() == [m.body.status];
    AppendPeer(tmp, m.body.peer);
    tmp.Append(Utf16LE(m.body.name));
    bytes := MakeFrame(m.header, tmp);
  }

  method SendFileRequestToByteArray(m: Message) returns (bytes: seq<byte>)
    requires m.body.SendFileRequest? && |m.body.peer.clientId| == CLIENT_ID_LENGTH
    ensures bytes == Encode(m)
  {
    hide AfterAppend, AfterRetrieve, Buffer.Valid, Buffer.At, Buffer.Contents, PeerBytes, U64, Utf16LE, LengthField;
    var tmp := new Buffer();
    AppendPeer(tmp, m.body.peer);
    assert tmp.Contents() == PeerBytes(m.body.peer);
    AppendU64(tmp, m.body.fileSize);
    AppendU64(tmp, m.body.timeStamp);
    tmp.Append(Utf16LE(m.body.name));
    bytes := MakeFrame(m.header, tmp);
  }

  method SendFileResponseToByteArray(m: Message) returns (bytes: seq<byte>)
    requires m.body.SendFileResponse? && |m.body.peer.clientId| == CLIENT_ID_LENGTH
    ensures bytes == Encode(m)
  {
    hide AfterAppend, AfterRetrieve, Buffer.Valid, Buffer.At, Buffer.Contents, PeerBytes, U64, Utf16LE, LengthField;
    var tmp := new Buffer();
    tmp.Append([m.body.status]);
    assert tmp.Contents() == [m.body.status];
    AppendPeer(tmp, m.body.peer);
    AppendU64(tmp, m.body.fileSize);
    AppendU64(tmp, m.body.timeStamp);
    tmp.Append(Utf16LE(m.body.name));
    bytes := MakeFrame(m.header, tmp);
  }

  method UpdateProgressToByteArray(m: Message) returns (bytes: seq<byte>)
    requires m.body.UpdateProgress? && |m.body.peer.clientId| == CLIENT_ID_LENGTH
    ensures bytes == Encode(m)
  {
    hide AfterAppend, AfterRetrieve, Buffer.Valid, Buffer.At, Buffer.Contents, PeerBytes, U64, Utf16LE, LengthField;
    var tmp := new Buffer();
    AppendPeer(tmp, m.body.peer);
    assert tmp.Contents() == PeerBytes(m.body.peer);
    AppendU64(tmp, m.body.fileSize);
    AppendU64(tmp, m.body.sentSize);
    AppendU64(tmp, m.body.timeStamp);
    tmp.Append(Utf16LE(m.body.name));
    bytes := MakeFrame(m.header, tmp);
  }

  method GetConnStatusRequestToByteArray(m: Message) returns (bytes: seq<byte>)
    requires m.body.GetConnStatusRequest?
    ensures bytes == Encode(m)
  {
    hide AfterAppend, AfterRetrieve, Buffer.Valid, Buffer.At, Buffer.Contents;
    var data := new Buffer();
    AppendHeader(data, m.header);
    hide PeerBytes, U64, Utf16LE;
    LimitValues();
    assert LengthField(0) == ToBigEndian(4, 0);
    hide ToBigEndian, LengthField;
    data.AppendUInt(4, 0);
    bytes := data.RetrieveAllAsByteArray();
  }

  method GetConnStatusResponseToByteArray(m: Message) returns (bytes: seq<byte>)
    requires m.body.GetConnStatusResponse?
    ensures bytes == Encode(m)
  {
    hide AfterAppend, AfterRetrieve, Buffer.Valid, Buffer.At, Buffer.Contents, PeerBytes, U64, Utf16LE, LengthField;
    var tmp := new Buffer();
    tmp.Append([m.body.status]);
    assert tmp.Contents() == [m.body.status];
    bytes := MakeFrame(m.header, tmp);
  }

  // ---- The decoders ----

  /** Tag, type and code off the front of the data, and the buffer with what follows them; the
      part all decoders and g_getCodeFromByteArray begin with. */
  method ReadTag(data: seq<byte>) returns (found: bool, kind: byte, code: byte, buffer: Buffer)
    ensures fresh(buffer) && fresh(buffer.store) && buffer.Valid()
    ensures found <==> CodeOf(data).Some?
    ensures found ==> (kind, code) == CodeOf(data).value && buffer.Contents() == data[7..]
  {
    hide AfterAppend, AfterRetrieve, Buffer.Valid, Buffer.At, Buffer.Contents;
    buffer := new Buffer();
    kind, code := 0, 0;
    if |data| < HEADER_LENGTH {
      return false, kind, code, buffer;
    }
    buffer.Append(data);
    var header := buffer.RetrieveAsByteArray(5);
    if header != TAG {
      return false, kind, code, buffer;
    }
    var type1 := buffer.RetrieveAsByteArray(1);
    var code1 := buffer.RetrieveAsByteArray(1);
    return true, type1[0], code1[0], buffer;
  }

  method GetCodeFromByteArray(data: seq<byte>) returns (r: Option<(byte, byte)>)
    ensures r == CodeOf(data)
  {
    var found, kind, code, _ := ReadTag(data);
    r := if found then Some((kind, code)) else None;
  }

  /** Header and content of a complete frame; the content in a buffer of its own. */
  method OpenFrame(data: seq<byte>) returns (found: bool, header: MsgHeader, content: Buffer)
    ensures fresh(content) && fresh(content.store) && content.Valid()
    ensures found <==> ReadFrame(data).Frame?
    ensures found ==> ReadFrame(data) == Frame(header, content.Contents())
  {
    hide AfterAppend, AfterRetrieve, Buffer.Valid, Buffer.At, Buffer.Contents;
    LimitValues();
    var kind, code, buffer;
    found, kind, code, buffer := ReadTag(data);
    header := MsgHeader(TAG, kind, code, 0);
    content := new Buffer();
    if !found {
      return;
    }
    var length := buffer.ReadUInt(4);
    assert data[7..][..4] == data[7..11] && data[7..][4..] == data[11..];
    var readable := buffer.ReadableBytes();
    if length > readable {
      found := false;
      return;
    }
    header := header.(contentLength := length);
    var bytes := buffer.Peek(length);
    content.Append(bytes);
    buffer.Retrieve(length);
    assert data[11..][..length] == data[11..11 + length];
  }

  method ReadPeer(buffer: Buffer) returns (r: Option<Peer>)
    requires buffer.Valid()
    modifies buffer
    ensures buffer.Valid() && buffer.store == old(buffer.store)
    ensures var t := TakePeer(old(buffer.Contents()));
            (r.Some? <==> t.Some?) && (r.Some? ==> t.value == (r.value, buffer.Contents()))
  {
    LimitValues();
    var n := buffer.ReadableBytes();
    if n < 4 { return None; }
    var ip := buffer.ReadUInt(4);
    if n - 4 < 2 { return None; }
    var port := buffer.ReadUInt(2);
    if n - 6 < CLIENT_ID_LENGTH { return None; }
    var clientId := buffer.RetrieveAsByteArray(CLIENT_ID_LENGTH);
    return Some(Peer(ip, port, clientId));
  }

  method ReadU64(buffer: Buffer) returns (r: Option<uint64>)
    requires buffer.Valid()
    modifies buffer
    ensures buffer.Valid() && buffer.store == old(buffer.store)
    ensures var t := TakeU64(old(buffer.Contents()));
            (r.Some? <==> t.Some?) && (r.Some? ==> t.value == (r.value, buffer.Contents()))
  {
    LimitValues();
    var n := buffer.ReadableBytes();
    if n < 8 { return None; }
    var x := buffer.ReadUInt(8);
    return Some(x);
  }

  method ReadStatus(buffer: Buffer) returns (r: Option<byte>)
    requires buffer.Valid()
    modifies buffer
    ensures buffer.Valid() && buffer.store == old(buffer.store)
    ensures var t := TakeStatus(old(buffer.Contents()));
            (r.Some? <==> t.Some?) && (r.Some? ==> t.value == (r.value, buffer.Contents()))
  {
    var n := buffer.ReadableBytes();
    if n < 1 { return None; }
    var bytes := buffer.RetrieveAsByteArray(1);
    return Some(bytes[0]);
  }

  method ReadName(buffer: Buffer) returns (r: Option<seq<uint16>>)
    requires buffer.Valid()
    modifies buffer
    ensures r == TakeName(old(buffer.Contents()))
  {
    var bytes := buffer.RetrieveAllAsByteArray();
    if |bytes| % 2 != 0 { return None; }
    return Some(UntilNul(FromUtf16LE(bytes)));
  }

  method UpdateClientStatusFromByteArray(data: seq<byte>) returns (r: Decoded)
    ensures r == Decode(ClientStatusMsg, data)
  {
    var found, header, content := OpenFrame(data);
    if !found { return NotYet; }
    var status := ReadStatus(content);
    if status.None? { return Broken; }
    var peer := ReadPeer(content);
    if peer.None? { return Broken; }
    var name := ReadName(content);
    if name.None? { return Broken; }
    return Done(Message(header, UpdateClientStatus(status.value, peer.value, name.value)));
  }

  method SendFileRequestFromByteArray(data: seq<byte>) returns (r: Decoded)
    ensures r == Decode(FileRequestMsg, data)
  {
    var found, header, content := OpenFrame(data);
    if !found { return NotYet; }
    var peer := ReadPeer(content);
    if peer.None? { return Broken; }
    var size := ReadU64(content);
    if size.None? { return Broken; }
    var time := ReadU64(content);
    if time.None? { return Broken; }
    var name := ReadName(content);
    if name.None? { return Broken; }
    return Done(Message(header, SendFileRequest(peer.value, size.value, time.value, name.value)));
  }

  method SendFileResponseFromByteArray(data: seq<byte>) returns (r: Decoded)
    ensures r == Decode(FileResponseMsg, data)
  {
    var found, header, content := OpenFrame(data);
    if !found { return NotYet; }
    var status := ReadStatus(content);
    if status.None? { return Broken; }
    var peer := ReadPeer(content);
    if peer.None? { return Broken; }
    var size := ReadU64(content);
    if size.None? { return Broken; }
    var time := ReadU64(content);
    if time.None? { return Broken; }
    var name := ReadName(content);
    if name.None? { return Broken; }
    return Done(Message(header, SendFileResponse(status.value, peer.value, size.value, time.value, name.value)));
  }

  method UpdateProgressFromByteArray(data: seq<byte>) returns (r: Decoded)
    ensures r == Decode(ProgressMsg, data)
  {
    var found, header, content := OpenFrame(data);
    if !found { return NotYet; }
    var peer := ReadPeer(content);
    if peer.None? { return Broken; }
    var size := ReadU64(content);
    if size.None? { return Broken; }
    var sent := ReadU64(content);
    if sent.None? { return Broken; }
    var time := ReadU64(content);
    if time.None? { return Broken; }
    var name := ReadName(content);
    if name.None? { return Broken; }
    return Done(Message(header, UpdateProgress(peer.value, size.value, sent.value, time.value, name.value)));
  }

  /** The content length in the data is not looked at. */
  method GetConnStatusRequestFromByteArray(data: seq<byte>) returns (r: Decoded)
    ensures r == Decode(ConnRequestMsg, data)
  {
    var found, kind, code, _ := ReadTag(data);
    if !found { return NotYet; }
    return Done(Message(MsgHeader(TAG, kind, code, 0), GetConnStatusRequest));
  }

  method GetConnStatusResponseFromByteArray(data: seq<byte>) returns (r: Decoded)
    ensures r == Decode(ConnResponseMsg, data)
  {
    var found, header, content := OpenFrame(data);
    if !found { return NotYet; }
    var status := ReadStatus(content);
    if status.None? { return Broken; }
    return Done(Message(header, GetConnStatusResponse(status.value)));
  }
}
