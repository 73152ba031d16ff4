/** The kernel boundary: fixed headers in little-endian bytes, and the client that negotiates over them. */
module KernelWire {
  import opened Wrappers
  import opened Bits

  type u16 = x: nat | x <= 0xFFFF

  datatype Transport = CharacterDevice | KernelCall | Mailbox | SharedMemoryRing

  datatype Status = Okay | NotSupported | BadHeader | BadVersion | TooSmall | Denied | TransportFault | InternalFault

  datatype WireError = BufferTooSmall | InvalidMagic | InvalidHeaderLength | InvalidCommand | InvalidStatus
    | InvalidTransportKind | InvalidFlags

  datatype Decoded<+T> = Good(value: T) | Bad(error: WireError)
  {
    predicate IsFailure() { Bad? }

    function PropagateFailure<U>(): Decoded<U>
      requires Bad?
    {
      Bad(error)
    }

    function Extract(): T
      requires Good?
    {
      value
    }
  }

  /** The only command is Negotiate, so it needs no field. */
  datatype Header = Header(major: u16, minor: u16, transport: Transport, flags: u16, status: Status, requestId: u32,
                           payloadBytes: u32)

  const MAGIC: seq<byte> := [0x46, 0x4B, 0x4E, 0x31]
  const HEADER_BYTES: nat := 28
  const PAYLOAD_BYTES: nat := 16
  const REQUEST: u16 := 1
  const RESPONSE: u16 := 2
  const BITFLAT_LE: u16 := 4

  function TransportCode(t: Transport): u16 {
    match t case CharacterDevice => 1 case KernelCall => 2 case Mailbox => 3 case SharedMemoryRing => 4
  }

  function TransportOf(code: u16): Option<Transport> {
    match code
    case 1 => Some(CharacterDevice)
    case 2 => Some(KernelCall)
    case 3 => Some(Mailbox)
    case 4 => Some(SharedMemoryRing)
    case _ => None
  }

  function StatusCode(s: Status): u16 {
    match s
    case Okay => 0
    case NotSupported => 1
    case BadHeader => 2
    case BadVersion => 3
    case TooSmall => 4
    case Denied => 5
    case TransportFault => 6
    case InternalFault => 7
  }

  function StatusOf(code: u16): Option<Status> {
    match code
    case 0 => Some(Okay)
    case 1 => Some(NotSupported)
    case 2 => Some(BadHeader)
    case 3 => Some(BadVersion)
    case 4 => Some(TooSmall)
    case 5 => Some(Denied)
    case 6 => Some(TransportFault)
    case 7 => Some(InternalFault)
    case _ => None
  }

  /** No unknown bit, exactly one direction, and the bitflat marker. */
  predicate FlagsOk(flags: u16) {
    flags <= 7 && (flags % 2 == 1) != (flags / 2 % 2 == 1) && flags / 4 % 2 == 1
  }

  function Bytes16(v: u16): seq<byte> { [v % 256, v / 256] }

  function Bytes32(v: u32): seq<byte> { [v % 256, v / 256 % 256, v / 0x1_0000 % 256, v / 0x100_0000] }

  function Read16(src: seq<byte>, at: nat): u16
    requires at + 2 <= |src|
  {
    var a: nat, b: nat := src[at], src[at + 1];
    a + 256 * b
  }

  function Read32(src: seq<byte>, at: nat): u32
    requires at + 4 <= |src|
  {
    var a: nat, b: nat, c: nat, d: nat := src[at], src[at + 1], src[at + 2], src[at + 3];
    a + 256 * b + 0x1_0000 * c + 0x100_0000 * d
  }

  function Encode(h: Header): (r: seq<byte>)
    ensures |r| == HEADER_BYTES
  {
    MAGIC + Bytes16(HEADER_BYTES) + Bytes16(h.major) + Bytes16(h.minor) + Bytes16(TransportCode(h.transport))
    + Bytes16(1) + Bytes16(h.flags) + Bytes16(StatusCode(h.status)) + Bytes16(0) + Bytes32(h.requestId)
    + Bytes32(h.payloadBytes)
  }

  function Decode(src: seq<byte>): Decoded<Header> {
    if |src| < HEADER_BYTES then Bad(BufferTooSmall)
    else if src[..4] != MAGIC then Bad(InvalidMagic)
    else if Read16(src, 4) != HEADER_BYTES then Bad(InvalidHeaderLength)
    else if TransportOf(Read16(src, 10)).None? then Bad(InvalidTransportKind)
    else if Read16(src, 12) != 1 then Bad(InvalidCommand)
    else if Read16(src, 14) > 7 then Bad(InvalidFlags)
    else if StatusOf(Read16(src, 16)).None? then Bad(InvalidStatus)
    else if !FlagsOk(Read16(src, 14)) then Bad(InvalidFlags)
    else Good(Header(Read16(src, 6), Read16(src, 8), TransportOf(Read16(src, 10)).value, Read16(src, 14),
                     StatusOf(Read16(src, 16)).value, Read32(src, 20), Read32(src, 24)))
  }

  /** Fills the buffer's first bytes, field by field, and touches nothing beyond them. */
  method EncodeInto(h: Header, dst: array<byte>) returns (r: Decoded<Unit>)
    modifies dst
    ensures r == if dst.Length < HEADER_BYTES then Bad(BufferTooSmall) else Good(Unit)
    ensures dst.Length < HEADER_BYTES ==> dst[..] == old(dst[..])
    ensures dst.Length >= HEADER_BYTES ==> dst[..] == Encode(h) + old(dst[HEADER_BYTES..])
  {
    if dst.Length < HEADER_BYTES { return Bad(BufferTooSmall); }
    ghost var code := Encode(h);
    EncodedFields(h);
    hide Encode;
    Put(dst, 0, MAGIC, code);
    Put(dst, 4, Bytes16(HEADER_BYTES), code);
    Put(dst, 6, Bytes16(h.major), code);
    Put(dst, 8, Bytes16(h.minor), code);
    Put(dst, 10, Bytes16(TransportCode(h.transport)), code);
    Put(dst, 12, Bytes16(1), code);
    Put(dst, 14, Bytes16(h.flags), code);
    Put(dst, 16, Bytes16(StatusCode(h.status)), code);
    Put(dst, 18, Bytes16(0), code);
    Put(dst, 20, Bytes32(h.requestId), code);
    Put(dst, 24, Bytes32(h.payloadBytes), code);
    assert code[..HEADER_BYTES] == code;
    assert dst[HEADER_BYTES..] == old(dst[HEADER_BYTES..]);
    assert dst[..] == dst[..HEADER_BYTES] + dst[HEADER_BYTES..];
    return Good(Unit);
  }

  lemma EncodedFields(h: Header)
    ensures var code := Encode(h);
            && code[..4] == MAGIC && code[4..6] == Bytes16(HEADER_BYTES) && code[6..8] == Bytes16(h.major)
            && code[8..10] == Bytes16(h.minor) && code[10..12] == Bytes16(TransportCode(h.transport))
            && code[12..14] == Bytes16(1) && code[14..16] == Bytes16(h.flags)
            && code[16..18] == Bytes16(StatusCode(h.status)) && code[18..20] == Bytes16(0)
            && code[20..24] == Bytes32(h.requestId) && code[24..28] == Bytes32(h.payloadBytes)
  {
    hide TransportCode, StatusCode;
  }

  /** Writes one field; `code` is what the buffer is to hold in the end. */
  method Put(dst: array<byte>, at: nat, bytes: seq<byte>, ghost code: seq<byte>)
    requires at + |bytes| <= |code| <= dst.Length
    requires dst[..at] == code[..at] && bytes == code[at..at + |bytes|]
    modifies dst
    ensures dst[..at + |bytes|] == code[..at + |bytes|]
    ensures forall k :: at + |bytes| <= k < dst.Length ==> dst[k] == old(dst[k])
  {
    var i := 0;
    while i < |bytes|
      invariant 0 <= i <= |bytes|
      invariant dst[..at + i] == code[..at + i]
      invariant forall k :: at + i <= k < dst.Length ==> dst[k] == old(dst[k])
    {
      assert bytes[i] == code[at + i];
      dst[at + i] := bytes[i];
      i := i + 1;
    }
  }

  lemma Read16Of(v: u16, src: seq<byte>, at: nat)
    requires at + 2 <= |src| && src[at..at + 2] == Bytes16(v)
    ensures Read16(src, at) == v
  {
    assert src[at] == src[at..at + 2][0] && src[at + 1] == src[at..at + 2][1];
  }

  lemma Read32Of(v: u32, src: seq<byte>, at: nat)
    requires at + 4 <= |src| && src[at..at + 4] == Bytes32(v)
    ensures Read32(src, at) == v
  {
    var q := src[at..at + 4];
    assert src[at] == q[0] && src[at + 1] == q[1] && src[at + 2] == q[2] && src[at + 3] == q[3];
    FourDigits(v);
  }

  lemma FourDigits(v: u32)
    ensures v == v % 256 + 256 * (v / 256 % 256) + 0x1_0000 * (v / 0x1_0000 % 256) + 0x100_0000 * (v / 0x100_0000)
  {
    var x, y := v / 256, v / 0x1_0000;
    assert y == x / 256 && v / 0x100_0000 == y / 256;
    assert v == v % 256 + 256 * x && x == x % 256 + 256 * y && y == y % 256 + 256 * (y / 256);
  }

  lemma CodesRoundTrip(t: Transport, s: Status)
    ensures TransportOf(TransportCode(t)) == Some(t) && StatusOf(StatusCode(s)) == Some(s)
  {
  }

  /** A header with valid flags decodes to itself, whatever follows it. */
  lemma DecodeInvertsEncode(h: Header, rest: seq<byte>)
    requires FlagsOk(h.flags)
    ensures Decode(Encode(h) + rest) == Good(h)
  {
    hide TransportOf, TransportCode, StatusOf, StatusCode;
    var src := Encode(h) + rest;
    assert src[..4] == MAGIC;
    Read16Of(HEADER_BYTES, src, 4);
    Read16Of(h.major, src, 6);
    Read16Of(h.minor, src, 8);
    Read16Of(TransportCode(h.transport), src, 10);
    Read16Of(1, src, 12);
    Read16Of(h.flags, src, 14);
    Read16Of(StatusCode(h.status), src, 16);
    Read32Of(h.requestId, src, 20);
    Read32Of(h.payloadBytes, src, 24);
    CodesRoundTrip(h.transport, h.status);
  }

  lemma Spell16(src: seq<byte>, at: nat)
    requires at + 2 <= |src|
    ensures Bytes16(Read16(src, at)) == src[at..at + 2]
  {
  }

  lemma Spell32(src: seq<byte>, at: nat)
    requires at + 4 <= |src|
    ensures Bytes32(Read32(src, at)) == src[at..at + 4]
  {
    var a: nat, b: nat, c: nat, d: nat := src[at], src[at + 1], src[at + 2], src[at + 3];
    var v: nat := Read32(src, at);
    assert v == a + 256 * (b + 256 * (c + 256 * d));
    assert v / 256 == b + 256 * (c + 256 * d);
    assert v / 0x1_0000 == c + 256 * d;
    assert v / 0x100_0000 == d;
  }

  lemma CodesReadBack(code: u16)
    ensures TransportOf(code).Some? ==> TransportCode(TransportOf(code).value) == code
    ensures StatusOf(code).Some? ==> StatusCode(StatusOf(code).value) == code
  {
  }

  /** Re-encoding an accepted header gives back its own bytes, save the two reserved ones, which become zero. */
  lemma ReencodeKeepsBytes(src: seq<byte>, i: nat)
    requires Decode(src).Good? && i < HEADER_BYTES
    ensures Encode(Decode(src).value)[i] == if i == 18 || i == 19 then 0 else src[i]
  {
    hide TransportOf, TransportCode, StatusOf, StatusCode;
    var h := Decode(src).value;
    CodesReadBack(Read16(src, 10));
    CodesReadBack(Read16(src, 16));
    var code := Encode(h);
    if i < 4 {
      assert code[i] == MAGIC[i] == src[..4][i];
    } else if i < 18 {
      var at := i - i % 2;
      Spell16(src, at);
      FieldAt(h, src, at);
      assert code[i] == code[at..at + 2][i - at] && src[i] == src[at..at + 2][i - at];
    } else if i < 20 {
      assert code[18..20] == Bytes16(0);
    } else {
      var at := if i < 24 then 20 else 24;
      Spell32(src, at);
      assert code[20..24] == Bytes32(h.requestId) && code[24..28] == Bytes32(h.payloadBytes);
      assert code[i] == code[at..at + 4][i - at] && src[i] == src[at..at + 4][i - at];
    }
  }

  lemma FieldAt(h: Header, src: seq<byte>, at: nat)
    requires Decode(src) == Good(h) && 4 <= at < 18 && at % 2 == 0
    requires TransportCode(h.transport) == Read16(src, 10) && StatusCode(h.status) == Read16(src, 16)
    ensures Encode(h)[at..at + 2] == Bytes16(Read16(src, at))
  {
    hide TransportOf, TransportCode, StatusOf, StatusCode;
  }

  // ---- The client ----

  /** What the client asks for: the versions it accepts, the transport, and the capabilities it wants. */
  datatype Offer = Offer(minMajor: u16, minMinor: u16, maxMajor: u16, maxMinor: u16, transport: Transport, capabilities: u32)

  /** What the kernel side selected. */
  datatype Answer = Answer(major: u16, minor: u16, transport: Transport, capabilities: u32, maxPayload: u32)

  function EncodeOffer(o: Offer): (r: seq<byte>)
    ensures |r| == PAYLOAD_BYTES
  {
    Bytes16(o.minMajor) + Bytes16(o.minMinor) + Bytes16(o.maxMajor) + Bytes16(o.maxMinor)
    + Bytes16(TransportCode(o.transport)) + Bytes16(0) + Bytes32(o.capabilities)
  }

  function DecodeOffer(src: seq<byte>): Decoded<Offer> {
    if |src| < PAYLOAD_BYTES then Bad(BufferTooSmall)
    else if TransportOf(Read16(src, 8)).None? then Bad(InvalidTransportKind)
    else Good(Offer(Read16(src, 0), Read16(src, 2), Read16(src, 4), Read16(src, 6), TransportOf(Read16(src, 8)).value,
                    Read32(src, 12)))
  }

  function EncodeAnswer(a: Answer): (r: seq<byte>)
    ensures |r| == PAYLOAD_BYTES
  {
    Bytes16(a.major) + Bytes16(a.minor) + Bytes16(TransportCode(a.transport)) + Bytes16(0) + Bytes32(a.capabilities)
    + Bytes32(a.maxPayload)
  }

  function DecodeAnswer(src: seq<byte>): Decoded<Answer> {
    if |src| < PAYLOAD_BYTES then Bad(BufferTooSmall)
    else if TransportOf(Read16(src, 4)).None? then Bad(InvalidTransportKind)
    else Good(Answer(Read16(src, 0), Read16(src, 2), TransportOf(Read16(src, 4)).value, Read32(src, 8), Read32(src, 12)))
  }

  lemma OfferFields(o: Offer, rest: seq<byte>)
    ensures var src := EncodeOffer(o) + rest;
            && src[0..2] == Bytes16(o.minMajor) && src[2..4] == Bytes16(o.minMinor) && src[4..6] == Bytes16(o.maxMajor)
            && src[6..8] == Bytes16(o.maxMinor) && src[8..10] == Bytes16(TransportCode(o.transport))
            && src[12..16] == Bytes32(o.capabilities)
  {
    hide TransportCode;
  }

  lemma AnswerFields(a: Answer, rest: seq<byte>)
    ensures var src := EncodeAnswer(a) + rest;
            && src[0..2] == Bytes16(a.major) && src[2..4] == Bytes16(a.minor)
            && src[4..6] == Bytes16(TransportCode(a.transport))
            && src[8..12] == Bytes32(a.capabilities) && src[12..16] == Bytes32(a.maxPayload)
  {
    hide TransportCode;
  }

  /** Every request payload decodes to itself, whatever follows it. */
  lemma OfferRoundTrip(o: Offer, rest: seq<byte>)
    ensures DecodeOffer(EncodeOffer(o) + rest) == Good(o)
  {
    hide TransportOf, TransportCode, Bytes16, Bytes32, Read16, Read32;
    var src := EncodeOffer(o) + rest;
    OfferFields(o, rest);
    Read16Of(o.minMajor, src, 0);
    Read16Of(o.minMinor, src, 2);
    Read16Of(o.maxMajor, src, 4);
    Read16Of(o.maxMinor, src, 6);
    Read16Of(TransportCode(o.transport), src, 8);
    Read32Of(o.capabilities, src, 12);
    CodesRoundTrip(o.transport, Okay);
  }

  /** And so does every answer. */
  lemma AnswerRoundTrip(a: Answer, rest: seq<byte>)
    ensures DecodeAnswer(EncodeAnswer(a) + rest) == Good(a)
  {
    hide TransportOf, TransportCode, Bytes16, Bytes32, Read16, Read32;
    var src := EncodeAnswer(a) + rest;
    AnswerFields(a, rest);
    Read16Of(a.major, src, 0);
    Read16Of(a.minor, src, 2);
    Read16Of(TransportCode(a.transport), src, 4);
    Read32Of(a.capabilities, src, 8);
    Read32Of(a.maxPayload, src, 12);
    CodesRoundTrip(a.transport, Okay);
  }

  datatype ClientError = TransportError | Wire(error: WireError) | StatusError(status: Status) | TransportMismatch
    | RequestIdMismatch | ResponseTooLarge | IncompatibleVersion

  datatype Session = Session(answer: Answer) | NoSession(error: ClientError)

  /** What the transport hands back: how many bytes it wrote, and the response buffer. */
  datatype Reply = Reply(written: nat, buffer: seq<byte>) | Broken

  const OUR_FLAGS: u16 := REQUEST + BITFLAT_LE
  const THEIR_FLAGS: u16 := RESPONSE + BITFLAT_LE

  /** A request as the kernel side reads it: version 1.0 asked for over this transport, under this id. */
  ghost predicate Requests(request: seq<byte>, kind: Transport, id: u32) {
    && |request| == HEADER_BYTES + PAYLOAD_BYTES
    && Decode(request) == Good(Header(1, 0, kind, OUR_FLAGS, Okay, id, PAYLOAD_BYTES))
    && DecodeOffer(request[HEADER_BYTES..]) == Good(Offer(1, 0, 1, 0, kind, 7))
  }

  /** The reply is a whole, successful response to that request, and selects this answer. */
  ghost predicate Answers(reply: Reply, kind: Transport, id: u32, answer: Answer) {
    && reply.Reply? && |reply.buffer| == HEADER_BYTES + PAYLOAD_BYTES && reply.written >= HEADER_BYTES + PAYLOAD_BYTES
    && Decode(reply.buffer[..HEADER_BYTES]).Good?
    && DecodeAnswer(reply.buffer[HEADER_BYTES..]) == Good(answer)
    && answer.major == 1 && answer.transport == kind
    && var header := Decode(reply.buffer[..HEADER_BYTES]).value;
       && header.flags == THEIR_FLAGS && header.requestId == id && header.transport == kind
       && header.status == Okay && header.payloadBytes == PAYLOAD_BYTES
  }

  /** Why there is no session: the first thing that is wrong with the reply. */
  ghost predicate Explains(reply: Reply, kind: Transport, id: u32, e: ClientError) {
    if reply.Broken? then e == TransportError
    else if reply.written < HEADER_BYTES || |reply.buffer| < HEADER_BYTES then e == Wire(BufferTooSmall)
    else match Decode(reply.buffer[..HEADER_BYTES])
      case Bad(x) => e == Wire(x)
      case Good(header) =>
        if header.flags != THEIR_FLAGS then e == Wire(InvalidFlags)
        else if header.requestId != id then e == RequestIdMismatch
        else if header.transport != kind then e == TransportMismatch
        else if header.status != Okay then e == StatusError(header.status)
        else if header.payloadBytes > PAYLOAD_BYTES || reply.written < HEADER_BYTES + header.payloadBytes then
          e == ResponseTooLarge
        else if header.payloadBytes < PAYLOAD_BYTES then e == Wire(BufferTooSmall)
        else match DecodeAnswer(reply.buffer[HEADER_BYTES..])
          case Bad(x) => e == Wire(x)
          case Good(answer) => (answer.major != 1 || answer.transport != kind) && e == IncompatibleVersion
  }

  /** A peer that answers in version 1, whatever the minor version, is accepted with exactly what it said. */
  lemma HonestReplyAnswers(kind: Transport, id: u32, version: u16, minor: u16, answer: Answer, written: nat)
    requires answer.major == 1 && answer.transport == kind && written >= HEADER_BYTES + PAYLOAD_BYTES
    ensures var header := Header(version, minor, kind, THEIR_FLAGS, Okay, id, PAYLOAD_BYTES);
            Answers(Reply(written, Encode(header) + EncodeAnswer(answer)), kind, id, answer)
  {
    hide Encode, EncodeAnswer, Decode, DecodeAnswer;
    var header := Header(version, minor, kind, THEIR_FLAGS, Okay, id, PAYLOAD_BYTES);
    var buffer := Encode(header) + EncodeAnswer(answer);
    DecodeInvertsEncode(header, []);
    AnswerRoundTrip(answer, []);
    assert buffer[..HEADER_BYTES] == Encode(header) + [];
    assert buffer[HEADER_BYTES..] == EncodeAnswer(answer) + [];
  }

  lemma AcceptedFlags(src: seq<byte>)
    ensures Decode(src).Good? ==> FlagsOk(Decode(src).value.flags)
  {
  }

  lemma DirectionOf(flags: u16)
    ensures FlagsOk(flags) ==> flags == (if flags / 2 % 2 == 0 then REQUEST else RESPONSE) + BITFLAT_LE
  {
  }

  lemma AnswerLength(src: seq<byte>)
    ensures DecodeAnswer(src).Good? ==> |src| >= PAYLOAD_BYTES
    ensures |src| < PAYLOAD_BYTES ==> DecodeAnswer(src) == Bad(BufferTooSmall)
  {
  }

  class Client {
    const kind: Transport
    var nextRequestId: u32

    constructor (kind: Transport)
      ensures this.kind == kind && nextRequestId == 1
    {
      this.kind, nextRequestId := kind, 1;
    }

    method AllocateRequestId() returns (id: u32)
      requires nextRequestId > 0
      modifies this
      ensures id == old(nextRequestId) && nextRequestId == IdAfter(old(nextRequestId), 1)
    {
      id := nextRequestId;
      nextRequestId := if id == U32_MAX then 1 else id + 1;
    }

    /** One request is made, as the kernel side reads it. There is a session exactly when the reply is a
        whole, successful response to it that selects our version and transport, and otherwise the error says
        what was wrong first. */
    method Negotiate(transact: seq<byte> -> Reply) returns (s: Session, request: seq<byte>)
      requires nextRequestId > 0
      requires forall q :: transact(q).Reply? ==> |transact(q).buffer| == HEADER_BYTES + PAYLOAD_BYTES
      modifies this
      ensures nextRequestId == IdAfter(old(nextRequestId), 1)
      ensures Requests(request, kind, old(nextRequestId))
      ensures s.Session? <==> exists answer :: Answers(transact(request), kind, old(nextRequestId), answer)
      ensures s.Session? ==> Answers(transact(request), kind, old(nextRequestId), s.answer)
      ensures s.NoSession? ==> Explains(transact(request), kind, old(nextRequestId), s.error)
    {
      var id := AllocateRequestId();
      var front := Header(1, 0, kind, OUR_FLAGS, Okay, id, PAYLOAD_BYTES);
      var offer := Offer(1, 0, 1, 0, kind, 7);
      request := Encode(front) + EncodeOffer(offer);
      DecodeInvertsEncode(front, EncodeOffer(offer));
      OfferRoundTrip(offer, []);
      assert request[HEADER_BYTES..] == EncodeOffer(offer) + [];
      s := Judge(transact(request), id);
    }

    method Judge(reply: Reply, id: u32) returns (s: Session)
      requires reply.Reply? ==> |reply.buffer| == HEADER_BYTES + PAYLOAD_BYTES
      ensures s.Session? <==> exists answer :: Answers(reply, kind, id, answer)
      ensures s.Session? ==> Answers(reply, kind, id, s.answer)
      ensures s.NoSession? ==> Explains(reply, kind, id, s.error)
    {
      hide Decode, DecodeAnswer, FlagsOk, Read16, Read32;
      if reply.Broken? { return NoSession(TransportError); }
      if reply.written < HEADER_BYTES { return NoSession(Wire(BufferTooSmall)); }
      var decoded := Decode(reply.buffer[..HEADER_BYTES]);
      if decoded.Bad? { return NoSession(Wire(decoded.error)); }
      var header := decoded.value;
      AcceptedFlags(reply.buffer[..HEADER_BYTES]);
      DirectionOf(header.flags);
      if header.flags / 2 % 2 == 0 { return NoSession(Wire(InvalidFlags)); }
      if header.requestId != id { return NoSession(RequestIdMismatch); }
      if header.transport != kind { return NoSession(TransportMismatch); }
      if header.status != Okay { return NoSession(StatusError(header.status)); }
      var required := HEADER_BYTES + header.payloadBytes;
      if required > |reply.buffer| || reply.written < required { return NoSession(ResponseTooLarge); }
      var answer := DecodeAnswer(reply.buffer[HEADER_BYTES..required]);
      AnswerLength(reply.buffer[HEADER_BYTES..required]);
      if header.payloadBytes == PAYLOAD_BYTES {
        assert reply.buffer[HEADER_BYTES..required] == reply.buffer[HEADER_BYTES..];
      }
      if answer.Bad? { return NoSession(Wire(answer.error)); }
      if answer.value.major != 1 || answer.value.transport != kind { return NoSession(IncompatibleVersion); }
      assert Answers(reply, kind, id, answer.value);
      return Session(answer.value);
    }
  }

  /** The id that is next after `n` allocations. */
  function IdAfter(first: u32, n: nat): (id: u32)
    requires first > 0
    ensures id > 0
    decreases n
  {
    if n == 0 then first
    else
      var id := IdAfter(first, n - 1);
      if id == U32_MAX then 1 else id + 1
  }

  lemma {:induction false} IdIsModular(first: u32, n: nat)
    requires first > 0
    ensures IdAfter(first, n) == (first - 1 + n) % U32_MAX + 1
    decreases n
  {
    if n > 0 {
      IdIsModular(first, n - 1);
      NextModular(first - 1 + (n - 1));
    }
  }

  lemma NextModular(x: nat)
    ensures (x + 1) % U32_MAX == if x % U32_MAX == U32_MAX - 1 then 0 else x % U32_MAX + 1
  {
    var q, r := x / U32_MAX, x % U32_MAX;
    if r == U32_MAX - 1 {
      DivModUnique(x + 1, U32_MAX, q + 1, 0);
    } else {
      DivModUnique(x + 1, U32_MAX, q, r + 1);
    }
  }

  /** Ids are never zero, and any 2^32 - 1 consecutive ones are distinct. */
  lemma IdsDistinct(first: u32, m: nat, n: nat)
    requires first > 0 && m < n < m + U32_MAX
    ensures IdAfter(first, m) != IdAfter(first, n) && IdAfter(first, m) > 0
  {
    IdIsModular(first, m);
    IdIsModular(first, n);
    var a, d := first - 1 + m, n - m;
    var q, r := a / U32_MAX, a % U32_MAX;
    if r + d < U32_MAX {
      DivModUnique(a + d, U32_MAX, q, r + d);
    } else {
      DivModUnique(a + d, U32_MAX, q + 1, r + d - U32_MAX);
    }
  }
}
