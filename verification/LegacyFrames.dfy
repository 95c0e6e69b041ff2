/** The frames of the batch protocol as bytes: beacon, request, update, ACK and NACK. */
module LegacyFrames {
  import opened Words
  import opened CrcDetection
  import opened CrcOrder
  import opened Framing
  import opened UpdateFrames
  import opened LegacyModel

  const OFFER: byte := 0x01
  const WANTED: byte := 0x02
  const DONE: byte := 0x04
  const REFUSED: byte := 0x05

  const ERR_PROTOCOL_VERSION: u16 := 2
  const ERR_MESSAGE_TYPE: u16 := 3

  function TypeOf(c: Content): byte {
    match c
    case Offer(_, _, _, _, _, _, _) => OFFER
    case Wanted(_, _) => WANTED
    case Batch(_) => UPDATE_DATA
    case Done(_, _) => DONE
    case Refused(_, _, _) => REFUSED
  }

  function ContentBytes(c: Content): (b: seq<byte>)
    ensures |b| == LengthOf(c) - 10
  {
    match c
    case Offer(id, from, to, removes, adds, size, crc) => OfferBytes(id, from, to, removes, adds, size, crc)
    case Wanted(id, version) => LE32(id) + LE32(version)
    case Batch(u) => UpdatePayload(u)
    case Done(id, version) => LE32(id) + LE32(version)
    case Refused(id, error, detail) => LE32(id) + LE16(error) + LE16(detail)
  }

  function OfferBytes(id: u32, from: u32, to: u32, removes: u8, adds: u8, size: u16, crc: u16): (b: seq<byte>)
    ensures |b| == 18
  {
    LE32(id) + LE32(from) + LE32(to) + [removes, adds] + LE16(size) + LE16(crc)
  }

  function SerializeMessage(m: Message): (b: seq<byte>)
    ensures |b| == LengthOf(m.content)
  {
    Framed(m.header, TypeOf(m.content), ContentBytes(m.content))
  }

  /** The fields of a frame of type `t` and the right length. */
  function ReadContent(t: byte, b: seq<byte>): Option<Content>
    requires |b| >= 10
  {
    if t == OFFER then
      if |b| != 28 then None
      else Some(Offer(Read32(b, 8), Read32(b, 12), Read32(b, 16), b[20], b[21], Read16(b, 22), Read16(b, 24)))
    else if t == WANTED then if |b| != 18 then None else Some(Wanted(Read32(b, 8), Read32(b, 12)))
    else if t == UPDATE_DATA then
      if |b| < 26 || |b| != DeclaredLength(b) || Read16(b, 22) != 0 then None else Some(Batch(ReadUpdate(b)))
    else if t == DONE then if |b| != 18 then None else Some(Done(Read32(b, 8), Read32(b, 12)))
    else if t == REFUSED then if |b| != 18 then None else Some(Refused(Read32(b, 8), Read16(b, 12), Read16(b, 14)))
    else None
  }

  /** The decoder named by the type byte: checksum, version, length, fields. */
  function DecodeMessage(b: seq<byte>): Option<Message> {
    if |b| < 10 || !ValidCrc(b) || b[0] != VERSION then None
    else
      match ReadContent(b[1], b)
      case None => None
      case Some(c) =>
        var m := Message(ReadHeader(b), c);
        if LegalMessage(m) then Some(m) else None
  }

  // ---------- Both directions of the codec ----------

  lemma TwoRead(b: seq<byte>, v: u32, w: u32)
    requires At(b, 8, LE32(v) + LE32(w))
    ensures Read32(b, 8) == v && Read32(b, 12) == w
  {
    AtSplit(b, 8, LE32(v), LE32(w));
    Read32At(b, 8, v);
    Read32At(b, 12, w);
  }

  lemma RefusedRead(b: seq<byte>, id: u32, error: u16, detail: u16)
    requires At(b, 8, LE32(id) + LE16(error) + LE16(detail))
    ensures Read32(b, 8) == id && Read16(b, 12) == error && Read16(b, 14) == detail
  {
    AtSplit(b, 8, LE32(id) + LE16(error), LE16(detail));
    AtSplit(b, 8, LE32(id), LE16(error));
    Read32At(b, 8, id);
    Read16At(b, 12, error);
    Read16At(b, 14, detail);
  }

  lemma OfferRead(b: seq<byte>, id: u32, from: u32, to: u32, removes: u8, adds: u8, size: u16, crc: u16)
    requires At(b, 8, OfferBytes(id, from, to, removes, adds, size, crc))
    ensures Read32(b, 8) == id && Read32(b, 12) == from && Read32(b, 16) == to
    ensures b[20] == removes && b[21] == adds && Read16(b, 22) == size && Read16(b, 24) == crc
  {
    var counts: seq<byte> := [removes, adds];
    AtSplit(b, 8, LE32(id) + LE32(from) + LE32(to) + counts + LE16(size), LE16(crc));
    AtSplit(b, 8, LE32(id) + LE32(from) + LE32(to) + counts, LE16(size));
    AtSplit(b, 8, LE32(id) + LE32(from) + LE32(to), counts);
    AtSplit(b, 8, LE32(id) + LE32(from), LE32(to));
    AtSplit(b, 8, LE32(id), LE32(from));
    Read32At(b, 8, id);
    Read32At(b, 12, from);
    Read32At(b, 16, to);
    AtIndex(b, 20, counts, 0);
    AtIndex(b, 20, counts, 1);
    Read16At(b, 22, size);
    Read16At(b, 24, crc);
  }

  lemma ContentRead(c: Content, b: seq<byte>)
    requires |b| == LengthOf(c) && At(b, 8, ContentBytes(c))
    ensures ReadContent(TypeOf(c), b) == Some(c)
  {
    match c
    case Offer(id, from, to, removes, adds, size, crc) => OfferRead(b, id, from, to, removes, adds, size, crc);
    case Wanted(id, version) => TwoRead(b, id, version);
    case Batch(u) => ReadUpdateFrom(u, b);
    case Done(id, version) => TwoRead(b, id, version);
    case Refused(id, error, detail) => RefusedRead(b, id, error, detail);
  }

  /** Decoding undoes encoding. */
  lemma DecodeSerializeMessage(m: Message)
    requires LegalMessage(m)
    ensures DecodeMessage(SerializeMessage(m)) == Some(m)
  {
    FramedParts(m.header, TypeOf(m.content), ContentBytes(m.content));
    ContentRead(m.content, SerializeMessage(m));
  }

  lemma TwoBack(b: seq<byte>)
    requires |b| >= 16
    ensures At(b, 8, LE32(Read32(b, 8)) + LE32(Read32(b, 12)))
  {
    Join32(b, 8);
    Join32(b, 12);
    AtJoin(b, 8, LE32(Read32(b, 8)), LE32(Read32(b, 12)));
  }

  lemma RefusedBack(b: seq<byte>)
    requires |b| >= 16
    ensures At(b, 8, LE32(Read32(b, 8)) + LE16(Read16(b, 12)) + LE16(Read16(b, 14)))
  {
    var x, y, z := LE32(Read32(b, 8)), LE16(Read16(b, 12)), LE16(Read16(b, 14));
    Join32(b, 8);
    Join16(b, 12);
    Join16(b, 14);
    AtJoin(b, 8, x, y);
    AtJoin(b, 8, x + y, z);
  }

  lemma OfferBack(b: seq<byte>)
    requires |b| >= 26
    ensures At(b, 8, OfferBytes(Read32(b, 8), Read32(b, 12), Read32(b, 16), b[20], b[21], Read16(b, 22), Read16(b, 24)))
  {
    var v, w, x, y: seq<byte> := LE32(Read32(b, 8)), LE32(Read32(b, 12)), LE32(Read32(b, 16)), [b[20], b[21]];
    Join32(b, 8);
    Join32(b, 12);
    Join32(b, 16);
    AtPair(b, 20, b[20], b[21]);
    Join16(b, 22);
    Join16(b, 24);
    AtJoin(b, 8, v, w);
    AtJoin(b, 8, v + w, x);
    AtJoin(b, 8, v + w + x, y);
    AtJoin(b, 8, v + w + x + y, LE16(Read16(b, 22)));
    AtJoin(b, 8, v + w + x + y + LE16(Read16(b, 22)), LE16(Read16(b, 24)));
  }

  lemma ContentBack(t: byte, b: seq<byte>)
    requires |b| >= 10 && ReadContent(t, b).Some?
    ensures var c := ReadContent(t, b).value; TypeOf(c) == t && |b| == LengthOf(c) && At(b, 8, ContentBytes(c))
  {
    if t == OFFER {
      OfferBack(b);
    } else if t == UPDATE_DATA {
      PayloadBack(b);
    } else if t == REFUSED {
      RefusedBack(b);
    } else {
      TwoBack(b);
    }
  }

  /** Encoding undoes decoding: an accepted byte string is the encoding of what it decodes to. */
  lemma SerializeDecodeMessage(b: seq<byte>)
    requires DecodeMessage(b).Some?
    ensures var m := DecodeMessage(b).value; LegalMessage(m) && SerializeMessage(m) == b
  {
    ContentBack(b[1], b);
    FramedBack(b, ContentBytes(ReadContent(b[1], b).value));
  }

  /** No detectable damage survives the decoders. */
  lemma DamagedMessageRejected(f: seq<byte>, g: seq<byte>)
    requires ValidCrc(f) && Detectable(f, g)
    ensures DecodeMessage(g) == None
  {
    DetectableRejected(f, g);
  }

  // ---------- The encoders ----------

  /** Whether a call wrote exactly the message it sent, or reported that it sent none. */
  ghost predicate Wrote(sent: Option<Message>, ok: bool, len: nat, out: seq<byte>) {
    && ok == sent.Some?
    && if !ok then len == 0
       else
         && len == LengthOf(sent.value.content) <= |out|
         && forall i :: 0 <= i < len ==> out[i] == SerializeMessage(sent.value)[i]
  }

  /** What was written decodes to what was sent. */
  lemma WroteMeans(sent: Option<Message>, ok: bool, len: nat, out: seq<byte>)
    requires Wrote(sent, ok, len, out) && ok && LegalMessage(sent.value)
    ensures out[..len] == SerializeMessage(sent.value) && DecodeMessage(out[..len]) == sent
  {
    assert out[..len] == SerializeMessage(sent.value);
    DecodeSerializeMessage(sent.value);
  }

  /** The five encoders. Nothing is written unless the fields are legal and the frame fits. */
  method EncodeMessage(out: array<byte>, m: Message) returns (ok: bool, len: nat)
    modifies out
    ensures Wrote(Encoded(m, out.Length), ok, len, out[..])
    ensures !ok ==> out[..] == old(out[..])
    ensures out[len..] == old(out[..])[len..]
  {
    ghost var s := out[..];
    len := LengthOf(m.content);
    if !LegalMessage(m) || out.Length < len {
      return false, 0;
    }
    WriteHeader(out, m.header, TypeOf(m.content));
    WriteContent(out, m.content);
    Finalize(out, s, m.header, TypeOf(m.content), ContentBytes(m.content), len);
    OverwriteStart(s, SerializeMessage(m));
    ok := true;
  }

  method WriteContent(out: array<byte>, c: Content)
    requires LengthOf(c) <= out.Length
    modifies out
    ensures out[..] == Overwrite(old(out[..]), 8, ContentBytes(c))
  {
    match c
    case Offer(id, from, to, removes, adds, size, crc) => WriteOffer(out, id, from, to, removes, adds, size, crc);
    case Wanted(id, version) => WriteTwo(out, id, version);
    case Batch(u) => WriteUpdate(out, u);
    case Done(id, version) => WriteTwo(out, id, version);
    case Refused(id, error, detail) => WriteRefused(out, id, error, detail);
  }

  method WriteTwo(out: array<byte>, v: u32, w: u32)
    requires 16 <= out.Length
    modifies out
    ensures out[..] == Overwrite(old(out[..]), 8, LE32(v) + LE32(w))
  {
    OverwriteTwice(out[..], 8, LE32(v), LE32(w));
    Write32(out, 8, v);
    Write32(out, 12, w);
  }

  method WriteRefused(out: array<byte>, id: u32, error: u16, detail: u16)
    requires 16 <= out.Length
    modifies out
    ensures out[..] == Overwrite(old(out[..]), 8, LE32(id) + LE16(error) + LE16(detail))
  {
    ghost var s := out[..];
    Write32(out, 8, id);
    Write16(out, 12, error);
    OverwriteTwice(s, 8, LE32(id), LE16(error));
    Write16(out, 14, detail);
    OverwriteTwice(s, 8, LE32(id) + LE16(error), LE16(detail));
  }

  method WriteOffer(out: array<byte>, id: u32, from: u32, to: u32, removes: u8, adds: u8, size: u16, crc: u16)
    requires 26 <= out.Length
    modifies out
    ensures out[..] == Overwrite(old(out[..]), 8, OfferBytes(id, from, to, removes, adds, size, crc))
  {
    ghost var s, v, w, x, y: seq<byte> := out[..], LE32(id), LE32(from), LE32(to), [removes, adds];
    Write32(out, 8, id);
    Write32(out, 12, from);
    OverwriteTwice(s, 8, v, w);
    Write32(out, 16, to);
    OverwriteTwice(s, 8, v + w, x);
    OverwritePair(out[..], 20, removes, adds);
    out[20] := removes;
    out[21] := adds;
    OverwriteTwice(s, 8, v + w + x, y);
    Write16(out, 22, size);
    OverwriteTwice(s, 8, v + w + x + y, LE16(size));
    Write16(out, 24, crc);
    OverwriteTwice(s, 8, v + w + x + y + LE16(size), LE16(crc));
  }

  // ---------- What the handlers make of bytes ----------

  /** classify_frame: the first check that fails, or ERR_NONE. Type 0 stands for any; 0xFFFF for any receiver. */
  function Classify(b: seq<byte>, id: u16, t: byte): u16 {
    if !ValidCrc(b) then ERR_CRC_FAIL
    else if b[0] != VERSION then ERR_PROTOCOL_VERSION
    else if !(OFFER <= b[1] <= REFUSED) || (t != 0 && b[1] != t) then ERR_MESSAGE_TYPE
    else if id != ANY_RECEIVER && ReadHeader(b).receiver != (if b[1] == OFFER then 0 else id) then ERR_INVALID_RECEIVER_ID
    else ERR_NONE
  }

  /** handle_update_request. A request that passes the header checks but has illegal fields is refused too. */
  function RequestFrame(s: Sender, b: seq<byte>, cap: nat): Sending {
    if s.phase == Idle || Classify(b, s.id, WANTED) != ERR_NONE then Sending(s, None)
    else
      match DecodeMessage(b)
      case Some(m) => HandleRequest(s, m, cap)
      case None =>
        var noted := s.(lastNack := ERR_INTERNAL);
        var refusal := Refused(s.update.id, ERR_INTERNAL, 0);
        var out := Encoded(Message(Header(s.id, ReadHeader(b).sender, s.seqNo), refusal), cap);
        if out == None then Sending(noted, None) else Sending(noted.(seqNo := Inc16(s.seqNo), phase := Idle), out)
  }

  /** handle_ack_or_nack. */
  function AnswerFrame(s: Sender, b: seq<byte>): (Sender, Verdict) {
    match DecodeMessage(b)
    case None => (s, Nothing)
    case Some(m) => HandleAnswer(s, m)
  }

  /** handle_beacon. */
  function BeaconFrame(r: Receiver, b: seq<byte>, cap: nat): Reaction {
    match DecodeMessage(b)
    case None => Reaction(r, None, false)
    case Some(m) => HandleBeacon(r, m, cap)
  }

  /** The error that keeps a frame from being a batch for this receiver, before its numbers are looked at. */
  function BatchFrameError(r: Receiver, b: seq<byte>): u16 {
    var error := Classify(b, r.id, UPDATE_DATA);
    if error != ERR_NONE then error
    else if r.expectedSender != 0 && ReadHeader(b).sender != r.expectedSender then ERR_INVALID_RECEIVER_ID
    else if DecodeMessage(b) == None then ERR_INTERNAL
    else ERR_NONE
  }

  lemma DamagedError(r: Receiver, b: seq<byte>)
    requires !ValidCrc(b)
    ensures BatchFrameError(r, b) == ERR_CRC_FAIL
  {}

  /** A frame without such an error decodes to a batch. */
  lemma NoErrorIsBatch(r: Receiver, b: seq<byte>)
    requires BatchFrameError(r, b) == ERR_NONE
    ensures DecodeMessage(b).Some? && DecodeMessage(b).value.content.Batch? && LegalMessage(DecodeMessage(b).value)
  {}

  /** receiver_apply_update_data_to_num8; too short a frame is not answered at all. */
  function BatchFrame(r: Receiver, b: seq<byte>, cap: nat, works: bool): Reaction {
    if |b| < 8 then Reaction(r, None, false)
    else if BatchFrameError(r, b) != ERR_NONE then RefuseGarbled(r, ReadHeader(b).sender, BatchFrameError(r, b), cap)
    else
      NoErrorIsBatch(r, b);
      HandleBatch(r, DecodeMessage(b).value, cap, works)
  }

  /** For every batch that decodes this is the reaction to the message, whichever check fails. */
  lemma BatchFrameRefines(r: Receiver, b: seq<byte>, cap: nat, works: bool)
    requires DecodeMessage(b).Some? && DecodeMessage(b).value.content.Batch?
    ensures LegalMessage(DecodeMessage(b).value)
    ensures BatchFrame(r, b, cap, works) == HandleBatch(r, DecodeMessage(b).value, cap, works)
  {}

  /** Anything else that has a header is refused. */
  lemma OtherFramesRefused(r: Receiver, b: seq<byte>, cap: nat, works: bool)
    requires |b| >= 8 && !(DecodeMessage(b).Some? && DecodeMessage(b).value.content.Batch?)
    ensures BatchFrame(r, b, cap, works) == RefuseGarbled(r, ReadHeader(b).sender, BatchFrameError(r, b), cap)
  {
    if BatchFrameError(r, b) == ERR_NONE {
      NoErrorIsBatch(r, b);
      assert false;
    }
  }

  /** A request that decodes is handled as the message. */
  lemma RequestFrameRefines(s: Sender, b: seq<byte>, cap: nat)
    requires DecodeMessage(b).Some?
    ensures LegalMessage(DecodeMessage(b).value)
    ensures RequestFrame(s, b, cap) == HandleRequest(s, DecodeMessage(b).value, cap)
  {}

  lemma AnswerFrameRefines(s: Sender, b: seq<byte>)
    requires DecodeMessage(b).Some?
    ensures AnswerFrame(s, b) == HandleAnswer(s, DecodeMessage(b).value)
  {}

  lemma BeaconFrameRefines(r: Receiver, b: seq<byte>, cap: nat)
    requires DecodeMessage(b).Some?
    ensures BeaconFrame(r, b, cap) == HandleBeacon(r, DecodeMessage(b).value, cap)
  {}

  /** The encoding of a batch is decoded by the update decoder alike. */
  lemma BatchIsUpdate(b: seq<byte>)
    requires DecodeMessage(b).Some? && DecodeMessage(b).value.content.Batch?
    ensures var m := DecodeMessage(b).value; DecodeUpdate(b) == Some((m.header, m.content.u))
  {}
}
