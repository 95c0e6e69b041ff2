/** Where every field stands in every frame, byte by byte. */
module Layout {
  import opened Words
  import opened Crc
  import opened CrcDetection
  import opened Framing
  import opened OpFrames
  import opened UpdateFrames
  import opened LegacyModel
  import L = LegacyFrames

  // ---------- Words ----------

  /** Little-endian: the low byte first. */
  predicate Holds16(b: seq<byte>, at: nat, v: nat) {
    at + 2 <= |b| && b[at] as int == v % 256 && b[at + 1] as int == v / 256
  }

  predicate Holds32(b: seq<byte>, at: nat, v: nat) {
    && at + 4 <= |b| && b[at] as int == v % 256 && b[at + 1] as int == v / 256 % 256
    && b[at + 2] as int == v / 65536 % 256 && b[at + 3] as int == v / 16777216
  }

  lemma Spelled16(b: seq<byte>, at: nat, v: u16)
    requires At(b, at, LE16(v))
    ensures Holds16(b, at, v)
  {
    AtIndex(b, at, LE16(v), 0);
    AtIndex(b, at, LE16(v), 1);
  }

  lemma Spelled32(b: seq<byte>, at: nat, v: u32)
    requires At(b, at, LE32(v))
    ensures Holds32(b, at, v)
  {
    AtIndex(b, at, LE32(v), 0);
    AtIndex(b, at, LE32(v), 1);
    AtIndex(b, at, LE32(v), 2);
    AtIndex(b, at, LE32(v), 3);
  }

  // ---------- What all frames share ----------

  /** Eight header bytes, the payload, and the checksum of both, low byte first. */
  predicate HasFrame(b: seq<byte>, h: Header, t: nat, length: nat) {
    && |b| == length >= 10 && b[0] == 1 && b[1] as int == t
    && Holds16(b, 2, h.sender) && Holds16(b, 4, h.receiver) && Holds16(b, 6, h.seqNo)
    && Holds16(b, length - 2, CrcOf(b[..length - 2]))
  }

  lemma FrameLayout(h: Header, t: byte, payload: seq<byte>)
    ensures var b := Framed(h, t, payload); HasFrame(b, h, t, 10 + |payload|) && At(b, 8, payload)
  {
    var b, body := Framed(h, t, payload), Body(h, t, payload);
    WholeAt(b);
    AtSplit(b, 0, body, LE16(CrcOf(body)));
    AtSplit(b, 0, HeaderBytes(h, t), payload);
    HeaderLayout(b, h, t);
    Spelled16(b, |body|, CrcOf(body));
    assert b[..|body|] == body;
  }

  lemma HeaderLayout(b: seq<byte>, h: Header, t: byte)
    requires At(b, 0, HeaderBytes(h, t))
    ensures b[0] == 1 && b[1] == t && Holds16(b, 2, h.sender) && Holds16(b, 4, h.receiver) && Holds16(b, 6, h.seqNo)
  {
    AtSplit(b, 0, [VERSION, t] + LE16(h.sender) + LE16(h.receiver), LE16(h.seqNo));
    AtSplit(b, 0, [VERSION, t] + LE16(h.sender), LE16(h.receiver));
    AtSplit(b, 0, [VERSION, t], LE16(h.sender));
    AtIndex(b, 0, [VERSION, t], 0);
    AtIndex(b, 0, [VERSION, t], 1);
    Spelled16(b, 2, h.sender);
    Spelled16(b, 4, h.receiver);
    Spelled16(b, 6, h.seqNo);
  }

  lemma TwoWordsAt(b: seq<byte>, v: u32, w: u32)
    requires At(b, 8, LE32(v) + LE32(w))
    ensures Holds32(b, 8, v) && Holds32(b, 12, w)
  {
    AtSplit(b, 8, LE32(v), LE32(w));
    Spelled32(b, 8, v);
    Spelled32(b, 12, w);
  }

  // ---------- Single-operation frames ----------

  lemma BeaconLayout(h: Header, stream: u32, latest: u32)
    ensures var b := Serialize(Frame(h, Beacon(stream, latest)));
            HasFrame(b, h, 0x21, 18) && Holds32(b, 8, stream) && Holds32(b, 12, latest)
  {
    FrameLayout(h, BEACON, PayloadBytes(Beacon(stream, latest)));
    TwoWordsAt(Serialize(Frame(h, Beacon(stream, latest))), stream, latest);
  }

  lemma RequestLayout(h: Header, stream: u32, next: u32)
    ensures var b := Serialize(Frame(h, Request(stream, next)));
            HasFrame(b, h, 0x22, 18) && Holds32(b, 8, stream) && Holds32(b, 12, next)
  {
    FrameLayout(h, REQUEST, PayloadBytes(Request(stream, next)));
    TwoWordsAt(Serialize(Frame(h, Request(stream, next))), stream, next);
  }

  lemma AckLayout(h: Header, stream: u32, ackId: u32)
    ensures var b := Serialize(Frame(h, Ack(stream, ackId)));
            HasFrame(b, h, 0x24, 18) && Holds32(b, 8, stream) && Holds32(b, 12, ackId)
  {
    FrameLayout(h, ACK, PayloadBytes(Ack(stream, ackId)));
    TwoWordsAt(Serialize(Frame(h, Ack(stream, ackId))), stream, ackId);
  }

  lemma DataLayout(h: Header, stream: u32, opId: u32, opType: u8, value: u32)
    ensures var b := Serialize(Frame(h, Data(stream, opId, opType, value)));
            && HasFrame(b, h, 0x23, 26) && Holds32(b, 8, stream) && Holds32(b, 12, opId)
            && b[16] == opType && b[17] == 0 && Holds16(b, 18, 0) && Holds32(b, 20, value)
  {
    var b := Serialize(Frame(h, Data(stream, opId, opType, value)));
    FrameLayout(h, DATA, PayloadBytes(Data(stream, opId, opType, value)));
    DataParts(b, stream, opId, opType, value);
  }

  lemma DataParts(b: seq<byte>, stream: u32, opId: u32, opType: u8, value: u32)
    requires At(b, 8, LE32(stream) + LE32(opId) + [opType, 0] + LE16(0) + LE32(value))
    ensures Holds32(b, 8, stream) && Holds32(b, 12, opId)
    ensures b[16] == opType && b[17] == 0 && Holds16(b, 18, 0) && Holds32(b, 20, value)
  {
    AtSplit(b, 8, LE32(stream) + LE32(opId) + [opType, 0] + LE16(0), LE32(value));
    AtSplit(b, 8, LE32(stream) + LE32(opId) + [opType, 0], LE16(0));
    AtSplit(b, 8, LE32(stream) + LE32(opId), [opType, 0]);
    TwoWordsAt(b, stream, opId);
    AtIndex(b, 16, [opType, 0], 0);
    AtIndex(b, 16, [opType, 0], 1);
    Spelled16(b, 18, 0);
    Spelled32(b, 20, value);
  }

  lemma NackLayout(h: Header, stream: u32, error: u16, detail: u16, expected: u32)
    ensures var b := Serialize(Frame(h, Nack(stream, error, detail, expected)));
            && HasFrame(b, h, 0x25, 22) && Holds32(b, 8, stream) && Holds16(b, 12, error) && Holds16(b, 14, detail)
            && Holds32(b, 16, expected)
  {
    var b := Serialize(Frame(h, Nack(stream, error, detail, expected)));
    FrameLayout(h, NACK, PayloadBytes(Nack(stream, error, detail, expected)));
    AtSplit(b, 8, LE32(stream) + LE16(error) + LE16(detail), LE32(expected));
    AtSplit(b, 8, LE32(stream) + LE16(error), LE16(detail));
    AtSplit(b, 8, LE32(stream), LE16(error));
    Spelled32(b, 8, stream);
    Spelled16(b, 12, error);
    Spelled16(b, 14, detail);
    Spelled32(b, 16, expected);
  }

  /** What the encoders and decoders of single-operation frames accept. */
  lemma AcceptedFields(f: Frame)
    ensures Legal(f) <==>
              && f.header.sender != 0 && f.payload.stream != 0
              && match f.payload
                 case Beacon(_, latest) => f.header.receiver == 0 && latest != 0
                 case Request(_, next) => f.header.receiver != 0 && next != 0
                 case Data(_, opId, opType, value) =>
                   f.header.receiver != 0 && opId != 0 && (opType == 1 || opType == 2) && value <= 99_999_999
                 case Ack(_, ackId) => f.header.receiver != 0 && ackId != 0
                 case Nack(_, _, _, expected) => f.header.receiver != 0 && expected != 0
  {}

  // ---------- Frames of the batch protocol ----------

  lemma OfferLayout(h: Header, id: u32, from: u32, to: u32, removes: u8, adds: u8, size: u16, crc: u16)
    ensures var b := L.SerializeMessage(Message(h, Offer(id, from, to, removes, adds, size, crc)));
            && HasFrame(b, h, 1, 28) && Holds32(b, 8, id) && Holds32(b, 12, from) && Holds32(b, 16, to)
            && b[20] == removes && b[21] == adds && Holds16(b, 22, size) && Holds16(b, 24, crc)
  {
    var b := L.SerializeMessage(Message(h, Offer(id, from, to, removes, adds, size, crc)));
    FrameLayout(h, L.OFFER, L.OfferBytes(id, from, to, removes, adds, size, crc));
    AtSplit(b, 8, LE32(id) + LE32(from) + LE32(to) + [removes, adds] + LE16(size), LE16(crc));
    AtSplit(b, 8, LE32(id) + LE32(from) + LE32(to) + [removes, adds], LE16(size));
    ThreeAndTwo(b, id, from, to, removes, adds);
    Spelled16(b, 22, size);
    Spelled16(b, 24, crc);
  }

  lemma ThreeAndTwo(b: seq<byte>, v: u32, w: u32, x: u32, y: byte, z: byte)
    requires At(b, 8, LE32(v) + LE32(w) + LE32(x) + [y, z])
    ensures Holds32(b, 8, v) && Holds32(b, 12, w) && Holds32(b, 16, x) && b[20] == y && b[21] == z
  {
    AtSplit(b, 8, LE32(v) + LE32(w) + LE32(x), [y, z]);
    AtSplit(b, 8, LE32(v) + LE32(w), LE32(x));
    TwoWordsAt(b, v, w);
    Spelled32(b, 16, x);
    AtIndex(b, 20, [y, z], 0);
    AtIndex(b, 20, [y, z], 1);
  }

  lemma WantedLayout(h: Header, id: u32, version: u32)
    ensures var b := L.SerializeMessage(Message(h, Wanted(id, version)));
            HasFrame(b, h, 2, 18) && Holds32(b, 8, id) && Holds32(b, 12, version)
  {
    FrameLayout(h, L.WANTED, L.ContentBytes(Wanted(id, version)));
    TwoWordsAt(L.SerializeMessage(Message(h, Wanted(id, version))), id, version);
  }

  lemma DoneLayout(h: Header, id: u32, version: u32)
    ensures var b := L.SerializeMessage(Message(h, Done(id, version)));
            HasFrame(b, h, 4, 18) && Holds32(b, 8, id) && Holds32(b, 12, version)
  {
    FrameLayout(h, L.DONE, L.ContentBytes(Done(id, version)));
    TwoWordsAt(L.SerializeMessage(Message(h, Done(id, version))), id, version);
  }

  lemma RefusedLayout(h: Header, id: u32, error: u16, detail: u16)
    ensures var b := L.SerializeMessage(Message(h, Refused(id, error, detail)));
            HasFrame(b, h, 5, 18) && Holds32(b, 8, id) && Holds16(b, 12, error) && Holds16(b, 14, detail)
  {
    var b := L.SerializeMessage(Message(h, Refused(id, error, detail)));
    FrameLayout(h, L.REFUSED, L.ContentBytes(Refused(id, error, detail)));
    AtSplit(b, 8, LE32(id) + LE16(error), LE16(detail));
    AtSplit(b, 8, LE32(id), LE16(error));
    Spelled32(b, 8, id);
    Spelled16(b, 12, error);
    Spelled16(b, 14, detail);
  }

  lemma {:induction false} NumbersLayout(b: seq<byte>, at: nat, values: seq<u32>, k: nat)
    requires At(b, at, Numbers(values)) && k < |values|
    ensures Holds32(b, at + 4 * k, values[k])
  {
    var n := |values| - 1;
    AtSplit(b, at, Numbers(values[..n]), LE32(values[n]));
    if k < n {
      NumbersLayout(b, at, values[..n], k);
    } else {
      Spelled32(b, at + 4 * n, values[n]);
    }
  }

  lemma UpdateParts(b: seq<byte>, u: Update)
    requires At(b, 8, UpdatePayload(u))
    ensures At(b, 8, FixedPart(u)) && At(b, 24, Numbers(u.removes)) && At(b, 24 + 4 * |u.removes|, Numbers(u.adds))
  {
    AtSplit(b, 8, FixedPart(u) + Numbers(u.removes), Numbers(u.adds));
    AtSplit(b, 8, FixedPart(u), Numbers(u.removes));
  }

  lemma FixedLayout(b: seq<byte>, u: Update)
    requires At(b, 8, FixedPart(u))
    ensures Holds32(b, 8, u.id) && Holds32(b, 12, u.from) && Holds32(b, 16, u.to)
    ensures b[20] as int == |u.removes| && b[21] as int == |u.adds| && Holds16(b, 22, 0)
  {
    AtSplit(b, 8, LE32(u.id) + LE32(u.from) + LE32(u.to) + [|u.removes|, |u.adds|], LE16(0));
    ThreeAndTwo(b, u.id, u.from, u.to, |u.removes|, |u.adds|);
    Spelled16(b, 22, 0);
  }

  /** The list stands from `at` on, four bytes for each value. */
  predicate HoldsList(b: seq<byte>, at: nat, values: seq<u32>) {
    forall k: nat :: k < |values| ==> Holds32(b, at + 4 * k, values[k])
  }

  lemma ListLayout(b: seq<byte>, at: nat, values: seq<u32>)
    requires At(b, at, Numbers(values))
    ensures HoldsList(b, at, values)
  {
    forall k: nat | k < |values| ensures Holds32(b, at + 4 * k, values[k]) {
      NumbersLayout(b, at, values, k);
    }
  }

  /** Removes first, then adds. */
  predicate HoldsUpdate(b: seq<byte>, u: Update) {
    && |b| >= 24 && Holds32(b, 8, u.id) && Holds32(b, 12, u.from) && Holds32(b, 16, u.to)
    && b[20] as int == |u.removes| && b[21] as int == |u.adds| && Holds16(b, 22, 0)
    && HoldsList(b, 24, u.removes) && HoldsList(b, 24 + 4 * |u.removes|, u.adds)
  }

  lemma UpdateFields(b: seq<byte>, u: Update)
    requires At(b, 8, UpdatePayload(u))
    ensures HoldsUpdate(b, u)
  {
    UpdateParts(b, u);
    FixedLayout(b, u);
    ListLayout(b, 24, u.removes);
    ListLayout(b, 24 + 4 * |u.removes|, u.adds);
  }

  lemma UpdateLayout(h: Header, u: Update)
    ensures var b := SerializeUpdate(h, u); HasFrame(b, h, 3, 26 + 4 * |u.removes| + 4 * |u.adds|) && HoldsUpdate(b, u)
  {
    FrameLayout(h, UPDATE_DATA, UpdatePayload(u));
    UpdateFields(SerializeUpdate(h, u), u);
  }

  /** What its encoder and decoder accept. */
  lemma AcceptedUpdate(h: Header, u: Update)
    ensures LegalUpdate(h, u) <==> h.sender != 0 && h.receiver != 0 && u.id != 0 && u.to > u.from
    ensures L.SerializeMessage(Message(h, Batch(u))) == SerializeUpdate(h, u)
  {}

  // ---------- Which frames the batch protocol's handlers look at ----------

  /** The first check a frame fails: checksum, version, type, address. */
  lemma ClassifyRule(b: seq<byte>, id: u16, t: byte)
    ensures var error := L.Classify(b, id, t);
            && (error == 1 <==> !(|b| >= 10 && Holds16(b, |b| - 2, CrcOf(b[..|b| - 2]))))
            && (error != 1 ==>
                  var known := 1 <= b[1] <= 5 && (t == 0 || b[1] == t);
                  var to := b[4] as int + 256 * b[5] as int;
                  error == if b[0] != 1 then 2 else if !known then 3
                           else if id != 65535 && to != (if b[1] == 1 then 0 else id as int) then 4 else 0)
  {
    if |b| >= 10 {
      Footer(b);
    }
  }

  lemma Footer(b: seq<byte>)
    requires |b| >= 10
    ensures ValidCrc(b) <==> Holds16(b, |b| - 2, CrcOf(b[..|b| - 2]))
  {
    var n := |b| - 2;
    SplitWord(b[n], b[n + 1], CrcOf(b[..n]));
  }

  lemma SplitWord(lo: byte, hi: byte, v: u16)
    ensures lo as int + 256 * hi as int == v <==> lo as int == v % 256 && hi as int == v / 256
  {}

  /** A request that passes those checks but does not decode is refused for the update on offer, with error 12. */
  lemma MalformedRequestRule(s: Sender, b: seq<byte>, cap: nat)
    requires L.DecodeMessage(b) == None
    ensures var r := L.RequestFrame(s, b, cap);
            if s.phase == Idle || L.Classify(b, s.id, 2) != 0 then r == Sending(s, None)
            else
              var to := b[2] as int + 256 * b[3] as int;
              && (r.out.Some? <==> s.id != 0 && to != 0 && s.update.id != 0 && cap >= 18)
              && (r.out.Some? ==> r.out.value == Message(Header(s.id, to, s.seqNo), Refused(s.update.id, 12, 0)))
              && r.state == s.(lastNack := 12, seqNo := if r.out.Some? then Inc16(s.seqNo) else s.seqNo,
                               phase := if r.out.Some? then Idle else s.phase)
  {}

  /** What keeps a frame from being a batch for this receiver: those checks, then its sender (4), then its contents (12). */
  lemma BatchFrameErrorRule(r: Receiver, b: seq<byte>)
    ensures var error, first := L.BatchFrameError(r, b), L.Classify(b, r.id, 3);
            && (first != 0 ==> error == first)
            && (first == 0 ==>
                  var from := b[2] as int + 256 * b[3] as int;
                  error == if r.expectedSender != 0 && from != r.expectedSender then 4
                           else if L.DecodeMessage(b) == None then 12 else 0)
  {}
}
