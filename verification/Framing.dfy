/** What all frames share: eight header bytes, a payload, and the checksum of both in two footer bytes. */
module Framing {
  import opened Words
  import opened Crc
  import opened CrcDetection

  const VERSION: byte := 1

  datatype Header = Header(sender: u16, receiver: u16, seqNo: u16)

  function HeaderBytes(h: Header, t: byte): (b: seq<byte>)
    ensures |b| == 8
  {
    [VERSION, t] + LE16(h.sender) + LE16(h.receiver) + LE16(h.seqNo)
  }

  function ReadHeader(b: seq<byte>): Header
    requires |b| >= 8
  {
    Header(Read16(b, 2), Read16(b, 4), Read16(b, 6))
  }

  function Body(h: Header, t: byte, payload: seq<byte>): (b: seq<byte>)
    ensures |b| == 8 + |payload|
  {
    HeaderBytes(h, t) + payload
  }

  function Framed(h: Header, t: byte, payload: seq<byte>): (b: seq<byte>)
    ensures |b| == 10 + |payload|
  {
    Body(h, t, payload) + LE16(CrcOf(Body(h, t, payload)))
  }

  // ---------- Reading ----------

  lemma HeaderAt(b: seq<byte>, h: Header, t: byte)
    requires At(b, 0, HeaderBytes(h, t))
    ensures b[0] == VERSION && b[1] == t && ReadHeader(b) == h
  {
    AtSplit(b, 0, [VERSION, t] + LE16(h.sender) + LE16(h.receiver), LE16(h.seqNo));
    AtSplit(b, 0, [VERSION, t] + LE16(h.sender), LE16(h.receiver));
    AtSplit(b, 0, [VERSION, t], LE16(h.sender));
    AtIndex(b, 0, [VERSION, t], 0);
    AtIndex(b, 0, [VERSION, t], 1);
    Read16At(b, 2, h.sender);
    Read16At(b, 4, h.receiver);
    Read16At(b, 6, h.seqNo);
  }

  lemma HeaderBack(b: seq<byte>)
    requires |b| >= 8 && b[0] == VERSION
    ensures At(b, 0, HeaderBytes(ReadHeader(b), b[1]))
  {
    var h := ReadHeader(b);
    Join16(b, 2);
    Join16(b, 4);
    Join16(b, 6);
    AtPair(b, 0, VERSION, b[1]);
    AtJoin(b, 0, [VERSION, b[1]], LE16(h.sender));
    AtJoin(b, 0, [VERSION, b[1]] + LE16(h.sender), LE16(h.receiver));
    AtJoin(b, 0, [VERSION, b[1]] + LE16(h.sender) + LE16(h.receiver), LE16(h.seqNo));
  }

  lemma WholeAt(b: seq<byte>)
    ensures At(b, 0, b)
  {}

  /** The parts of a frame are where they belong, and its checksum is valid. */
  lemma FramedParts(h: Header, t: byte, payload: seq<byte>)
    ensures var b := Framed(h, t, payload);
            ValidCrc(b) && b[0] == VERSION && b[1] == t && ReadHeader(b) == h && At(b, 8, payload)
  {
    var b, body := Framed(h, t, payload), Body(h, t, payload);
    WholeAt(b);
    AtSplit(b, 0, body, LE16(CrcOf(body)));
    AtSplit(b, 0, HeaderBytes(h, t), payload);
    HeaderAt(b, h, t);
    FooterValid(b, body);
  }

  lemma FooterValid(b: seq<byte>, body: seq<byte>)
    requires |body| >= 8 && |b| == |body| + 2 && At(b, 0, body)
    ensures ValidCrc(b) <==> At(b, |body|, LE16(CrcOf(body)))
  {
    var n := |body|;
    assert b[..n] == body;
    if At(b, n, LE16(CrcOf(body))) {
      Read16At(b, n, CrcOf(body));
    } else {
      Join16(b, n);
    }
  }

  /** A byte string with a valid checksum is the frame of its header and payload. */
  lemma FramedBack(b: seq<byte>, payload: seq<byte>)
    requires ValidCrc(b) && b[0] == VERSION && |b| == 10 + |payload| && At(b, 8, payload)
    ensures b == Framed(ReadHeader(b), b[1], payload)
  {
    var h, t := ReadHeader(b), b[1];
    var body := Body(h, t, payload);
    HeaderBack(b);
    AtJoin(b, 0, HeaderBytes(h, t), payload);
    FooterValid(b, body);
    AtJoin(b, 0, body, LE16(CrcOf(body)));
    AtAll(b, Framed(h, t, payload));
  }

  // ---------- Writing ----------

  method WriteHeader(out: array<byte>, h: Header, t: byte)
    requires 8 <= out.Length
    modifies out
    ensures out[..] == Overwrite(old(out[..]), 0, HeaderBytes(h, t))
  {
    ghost var s := out[..];
    OverwritePair(s, 0, VERSION, t);
    out[0] := VERSION;
    out[1] := t;
    Write16(out, 2, h.sender);
    OverwriteTwice(s, 0, [VERSION, t], LE16(h.sender));
    Write16(out, 4, h.receiver);
    OverwriteTwice(s, 0, [VERSION, t] + LE16(h.sender), LE16(h.receiver));
    Write16(out, 6, h.seqNo);
    OverwriteTwice(s, 0, [VERSION, t] + LE16(h.sender) + LE16(h.receiver), LE16(h.seqNo));
  }

  /** Appends the checksum to a header and payload written over `s`. */
  method Finalize(out: array<byte>, ghost s: seq<byte>, h: Header, t: byte, ghost payload: seq<byte>, len: nat)
    requires len == 10 + |payload| <= out.Length == |s|
    requires out[..] == Overwrite(Overwrite(s, 0, HeaderBytes(h, t)), 8, payload)
    modifies out
    ensures out[..] == Overwrite(s, 0, Framed(h, t, payload))
  {
    ghost var body := Body(h, t, payload);
    OverwriteTwice(s, 0, HeaderBytes(h, t), payload);
    OverwriteStart(s, body);
    assert out[..len - 2] == out[..][..len - 2];
    var crc := Crc16(out, len - 2);
    Write16(out, len - 2, crc);
    OverwriteTwice(s, 0, body, LE16(crc));
  }
}
