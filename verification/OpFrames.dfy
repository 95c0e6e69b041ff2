/** The five single-operation frames: BEACON, REQUEST, DATA, ACK and NACK. */
module OpFrames {
  import opened Words
  import opened CrcDetection
  import opened CrcOrder
  import opened Framing

  const BEACON: byte := 0x21
  const REQUEST: byte := 0x22
  const DATA: byte := 0x23
  const ACK: byte := 0x24
  const NACK: byte := 0x25

  const ADD: u8 := 1
  const REMOVE: u8 := 2
  const MAX_VALUE: u32 := 99_999_999

  const ERR_RECEIVER: u16 := 4
  const ERR_STREAM: u16 := 5
  const ERR_SEQUENCE_GAP: u16 := 6
  const ERR_APPLY_FAILED: u16 := 8

  datatype Payload =
    | Beacon(stream: u32, latest: u32)
    | Request(stream: u32, next: u32)
    | Data(stream: u32, opId: u32, opType: u8, value: u32)
    | Ack(stream: u32, ackId: u32)
    | Nack(stream: u32, error: u16, detail: u16, expected: u32)

  datatype Frame = Frame(header: Header, payload: Payload)

  function TypeOf(p: Payload): byte {
    match p
    case Beacon(_, _) => BEACON
    case Request(_, _) => REQUEST
    case Data(_, _, _, _) => DATA
    case Ack(_, _) => ACK
    case Nack(_, _, _, _) => NACK
  }

  /** Frame length by message type; 0 for an unknown type. */
  function FrameLength(t: byte): nat {
    if t == BEACON || t == REQUEST || t == ACK then 18
    else if t == DATA then 26
    else if t == NACK then 22
    else 0
  }

  /** The fields an encoder accepts, apart from buffer space. */
  predicate LegalPayload(p: Payload) {
    p.stream != 0 &&
    match p
    case Beacon(_, latest) => latest != 0
    case Request(_, next) => next != 0
    case Data(_, opId, opType, value) => opId != 0 && (opType == ADD || opType == REMOVE) && value <= MAX_VALUE
    case Ack(_, ackId) => ackId != 0
    case Nack(_, _, _, expected) => expected != 0
  }

  predicate Legal(f: Frame) {
    f.header.sender != 0 && (f.header.receiver == 0 <==> f.payload.Beacon?) && LegalPayload(f.payload)
  }

  function PayloadBytes(p: Payload): (b: seq<byte>)
    ensures |b| == FrameLength(TypeOf(p)) - 10
  {
    match p
    case Beacon(stream, latest) => LE32(stream) + LE32(latest)
    case Request(stream, next) => LE32(stream) + LE32(next)
    case Data(stream, opId, opType, value) => LE32(stream) + LE32(opId) + [opType, 0] + LE16(0) + LE32(value)
    case Ack(stream, ackId) => LE32(stream) + LE32(ackId)
    case Nack(stream, error, detail, expected) => LE32(stream) + LE16(error) + LE16(detail) + LE32(expected)
  }

  function Serialize(f: Frame): (b: seq<byte>)
    ensures |b| == FrameLength(TypeOf(f.payload))
  {
    Framed(f.header, TypeOf(f.payload), PayloadBytes(f.payload))
  }

  function ReadPayload(t: byte, b: seq<byte>): Option<Payload>
    requires |b| == FrameLength(t) > 0
  {
    var stream := Read32(b, 8);
    if t == BEACON then Some(Beacon(stream, Read32(b, 12)))
    else if t == REQUEST then Some(Request(stream, Read32(b, 12)))
    else if t == ACK then Some(Ack(stream, Read32(b, 12)))
    else if t == NACK then Some(Nack(stream, Read16(b, 12), Read16(b, 14), Read32(b, 16)))
    else if b[17] != 0 || Read16(b, 18) != 0 then None
    else Some(Data(stream, Read32(b, 12), b[16], Read32(b, 20)))
  }

  /** The decoder for message type `t`: validates the checksum, the header and the payload. */
  function Decode(t: byte, b: seq<byte>): Option<Frame> {
    if |b| != FrameLength(t) || !ValidCrc(b) || b[0] != VERSION || b[1] != t then None
    else
      match ReadPayload(t, b)
      case None => None
      case Some(payload) =>
        var f := Frame(ReadHeader(b), payload);
        if Legal(f) then Some(f) else None
  }

  /** Decoding by the type byte, as the sender's dispatcher does. */
  function DecodeAny(b: seq<byte>): Option<Frame> {
    if |b| < 2 then None else Decode(b[1], b)
  }

  /** Decoding undoes encoding. */
  lemma DecodeSerialize(f: Frame)
    requires Legal(f)
    ensures Decode(TypeOf(f.payload), Serialize(f)) == Some(f)
    ensures DecodeAny(Serialize(f)) == Some(f)
  {
    FramedParts(f.header, TypeOf(f.payload), PayloadBytes(f.payload));
    PayloadRead(f.payload, Serialize(f));
  }

  lemma PayloadRead(p: Payload, b: seq<byte>)
    requires |b| == FrameLength(TypeOf(p)) && At(b, 8, PayloadBytes(p))
    ensures ReadPayload(TypeOf(p), b) == Some(p)
  {
    match p
    case Beacon(stream, latest) => TwoWords(b, stream, latest);
    case Request(stream, next) => TwoWords(b, stream, next);
    case Ack(stream, ackId) => TwoWords(b, stream, ackId);
    case Nack(stream, error, detail, expected) => NackRead(b, stream, error, detail, expected);
    case Data(stream, opId, opType, value) => DataRead(b, stream, opId, opType, value);
  }

  lemma TwoWords(b: seq<byte>, v: u32, w: u32)
    requires At(b, 8, LE32(v) + LE32(w))
    ensures Read32(b, 8) == v && Read32(b, 12) == w
  {
    AtSplit(b, 8, LE32(v), LE32(w));
    Read32At(b, 8, v);
    Read32At(b, 12, w);
  }

  lemma NackRead(b: seq<byte>, stream: u32, error: u16, detail: u16, expected: u32)
    requires At(b, 8, LE32(stream) + LE16(error) + LE16(detail) + LE32(expected))
    ensures Read32(b, 8) == stream && Read16(b, 12) == error && Read16(b, 14) == detail && Read32(b, 16) == expected
  {
    AtSplit(b, 8, LE32(stream) + LE16(error) + LE16(detail), LE32(expected));
    AtSplit(b, 8, LE32(stream) + LE16(error), LE16(detail));
    AtSplit(b, 8, LE32(stream), LE16(error));
    Read32At(b, 8, stream);
    Read16At(b, 12, error);
    Read16At(b, 14, detail);
    Read32At(b, 16, expected);
  }

  lemma DataRead(b: seq<byte>, stream: u32, opId: u32, opType: u8, value: u32)
    requires At(b, 8, LE32(stream) + LE32(opId) + [opType, 0] + LE16(0) + LE32(value))
    ensures Read32(b, 8) == stream && Read32(b, 12) == opId && b[16] == opType && b[17] == 0
    ensures Read16(b, 18) == 0 && Read32(b, 20) == value
  {
    AtSplit(b, 8, LE32(stream) + LE32(opId) + [opType, 0] + LE16(0), LE32(value));
    AtSplit(b, 8, LE32(stream) + LE32(opId) + [opType, 0], LE16(0));
    AtSplit(b, 8, LE32(stream) + LE32(opId), [opType, 0]);
    AtSplit(b, 8, LE32(stream), LE32(opId));
    Read32At(b, 8, stream);
    Read32At(b, 12, opId);
    AtIndex(b, 16, [opType, 0], 0);
    AtIndex(b, 16, [opType, 0], 1);
    Read16At(b, 18, 0);
    Read32At(b, 20, value);
  }

  /** Encoding undoes decoding: an accepted byte string is the encoding of what it decodes to. */
  lemma SerializeDecode(t: byte, b: seq<byte>)
    requires Decode(t, b).Some?
    ensures var f := Decode(t, b).value; Legal(f) && TypeOf(f.payload) == t && Serialize(f) == b
  {
    PayloadBack(t, b);
    FramedBack(b, PayloadBytes(ReadPayload(t, b).value));
  }

  lemma PayloadBack(t: byte, b: seq<byte>)
    requires |b| == FrameLength(t) > 0 && ReadPayload(t, b).Some?
    ensures var p := ReadPayload(t, b).value; TypeOf(p) == t && At(b, 8, PayloadBytes(p))
  {
    if t == DATA {
      DataBack(b);
    } else if t == NACK {
      NackBack(b);
    } else {
      TwoBack(b);
    }
  }

  lemma TwoBack(b: seq<byte>)
    requires |b| >= 16
    ensures At(b, 8, LE32(Read32(b, 8)) + LE32(Read32(b, 12)))
  {
    Join32(b, 8);
    Join32(b, 12);
    AtJoin(b, 8, LE32(Read32(b, 8)), LE32(Read32(b, 12)));
  }

  lemma NackBack(b: seq<byte>)
    requires |b| >= 20
    ensures At(b, 8, LE32(Read32(b, 8)) + LE16(Read16(b, 12)) + LE16(Read16(b, 14)) + LE32(Read32(b, 16)))
  {
    var w, x, y, z := LE32(Read32(b, 8)), LE16(Read16(b, 12)), LE16(Read16(b, 14)), LE32(Read32(b, 16));
    Join32(b, 8);
    Join16(b, 12);
    Join16(b, 14);
    Join32(b, 16);
    AtJoin(b, 8, w, x);
    AtJoin(b, 8, w + x, y);
    AtJoin(b, 8, w + x + y, z);
  }

  lemma DataBack(b: seq<byte>)
    requires |b| >= 24 && b[17] == 0 && Read16(b, 18) == 0
    ensures At(b, 8, LE32(Read32(b, 8)) + LE32(Read32(b, 12)) + [b[16], 0] + LE16(0) + LE32(Read32(b, 20)))
  {
    var v, w, x, y, z := LE32(Read32(b, 8)), LE32(Read32(b, 12)), [b[16], 0], LE16(0), LE32(Read32(b, 20));
    Join32(b, 8);
    Join32(b, 12);
    AtPair(b, 16, b[16], 0);
    Join16(b, 18);
    Join32(b, 20);
    AtJoin(b, 8, v, w);
    AtJoin(b, 8, v + w, x);
    AtJoin(b, 8, v + w + x, y);
    AtJoin(b, 8, v + w + x + y, z);
  }

  /** No detectable damage survives any decoder. */
  lemma DamageRejected(t: byte, f: seq<byte>, g: seq<byte>)
    requires ValidCrc(f) && Detectable(f, g)
    ensures Decode(t, g) == None && DecodeAny(g) == None
  {
    DetectableRejected(f, g);
  }

  /** Whether a call wrote exactly `frame`, or reported that there was none to write. */
  ghost predicate Wrote(frame: Option<Frame>, ok: bool, len: nat, out: seq<byte>) {
    && ok == frame.Some?
    && if !ok then len == 0
       else len == FrameLength(TypeOf(frame.value.payload)) <= |out| &&
            forall i :: 0 <= i < len ==> out[i] == Serialize(frame.value)[i]
  }

  /** What was written decodes to the frame. */
  lemma WroteMeans(frame: Option<Frame>, ok: bool, len: nat, out: seq<byte>)
    requires Wrote(frame, ok, len, out) && ok && Legal(frame.value)
    ensures out[..len] == Serialize(frame.value) && DecodeAny(out[..len]) == frame
  {
    assert out[..len] == Serialize(frame.value);
    DecodeSerialize(frame.value);
  }

  /** The encoders. Nothing is written unless the fields are legal and the frame fits. */
  method Encode(out: array<byte>, cap: nat, f: Frame) returns (ok: bool, len: nat)
    requires cap <= out.Length
    modifies out
    ensures ok == (Legal(f) && FrameLength(TypeOf(f.payload)) <= cap)
    ensures !ok ==> len == 0 && out[..] == old(out[..])
    ensures ok ==> len == FrameLength(TypeOf(f.payload)) && out[..len] == Serialize(f) && out[len..] == old(out[len..])
  {
    ghost var s := out[..];
    len := FrameLength(TypeOf(f.payload));
    if !Legal(f) || cap < len {
      return false, 0;
    }
    WriteHeader(out, f.header, TypeOf(f.payload));
    WritePayload(out, f.payload);
    Finalize(out, s, f.header, TypeOf(f.payload), PayloadBytes(f.payload), len);
    OverwriteStart(s, Serialize(f));
    assert out[..len] == out[..][..len] && out[len..] == out[..][len..] && s[len..] == old(out[len..]);
    ok := true;
  }

  method WritePayload(out: array<byte>, p: Payload)
    requires FrameLength(TypeOf(p)) <= out.Length
    modifies out
    ensures out[..] == Overwrite(old(out[..]), 8, PayloadBytes(p))
  {
    match p
    case Beacon(stream, latest) => WriteTwo(out, stream, latest);
    case Request(stream, next) => WriteTwo(out, stream, next);
    case Ack(stream, ackId) => WriteTwo(out, stream, ackId);
    case Nack(stream, error, detail, expected) => WriteNack(out, stream, error, detail, expected);
    case Data(stream, opId, opType, value) => WriteData(out, stream, opId, opType, value);
  }

  method WriteTwo(out: array<byte>, v: u32, w: u32)
    requires 16 <= out.Length
    modifies out
    ensures out[..] == Overwrite(old(out[..]), 8, LE32(v) + LE32(w))
  {
    OverwriteTwice(out[..], 8, LE32(v), LE32(w));
    Write32(out, 8, v);
    Write32(out, 12, w);
  }

  method WriteNack(out: array<byte>, stream: u32, error: u16, detail: u16, expected: u32)
    requires 20 <= out.Length
    modifies out
    ensures out[..] == Overwrite(old(out[..]), 8, LE32(stream) + LE16(error) + LE16(detail) + LE32(expected))
  {
    ghost var s, w, x, y := out[..], LE32(stream), LE16(error), LE16(detail);
    Write32(out, 8, stream);
    Write16(out, 12, error);
    OverwriteTwice(s, 8, w, x);
    Write16(out, 14, detail);
    OverwriteTwice(s, 8, w + x, y);
    Write32(out, 16, expected);
    OverwriteTwice(s, 8, w + x + y, LE32(expected));
  }

  method WriteData(out: array<byte>, stream: u32, opId: u32, opType: u8, value: u32)
    requires 24 <= out.Length
    modifies out
    ensures out[..] == Overwrite(old(out[..]), 8, LE32(stream) + LE32(opId) + [opType, 0] + LE16(0) + LE32(value))
  {
    ghost var s, v, w, x: seq<byte>, y := out[..], LE32(stream), LE32(opId), [opType, 0], LE16(0);
    Write32(out, 8, stream);
    Write32(out, 12, opId);
    OverwriteTwice(s, 8, v, w);
    OverwritePair(out[..], 16, opType, 0);
    out[16] := opType;
    out[17] := 0;
    OverwriteTwice(s, 8, v + w, x);
    Write16(out, 18, 0);
    OverwriteTwice(s, 8, v + w + x, y);
    Write32(out, 20, value);
    OverwriteTwice(s, 8, v + w + x + y, LE32(value));
  }
}
