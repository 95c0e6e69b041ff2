/** The variable-length batch update frame: header, fixed part, remove list, add list, checksum. */
module UpdateFrames {
  import Bits
  import opened Words
  import opened Crc
  import opened CrcDetection
  import opened CrcOrder
  import opened Framing

  const UPDATE_DATA: byte := 0x03

  const ERR_NONE: u16 := 0
  const ERR_INVALID_NUMBER: u16 := 7
  const ERR_DUPLICATE_IN_BATCH: u16 := 8
  const ERR_NUMBER_IN_BOTH: u16 := 9

  type Batch = l: seq<u32> | |l| <= 255

  /** An update header with the two lists its counts describe. */
  datatype Update = Update(id: u32, from: u32, to: u32, removes: Batch, adds: Batch)

  function Numbers(values: seq<u32>): (b: seq<byte>)
    ensures |b| == 4 * |values|
  {
    if values == [] then [] else Numbers(values[..|values| - 1]) + LE32(values[|values| - 1])
  }

  function FixedPart(u: Update): (b: seq<byte>)
    ensures |b| == 16
  {
    LE32(u.id) + LE32(u.from) + LE32(u.to) + [|u.removes|, |u.adds|] + LE16(0)
  }

  function UpdatePayload(u: Update): (b: seq<byte>)
    ensures |b| == 16 + 4 * |u.removes| + 4 * |u.adds|
  {
    FixedPart(u) + Numbers(u.removes) + Numbers(u.adds)
  }

  function UpdateLength(u: Update): nat {
    26 + 4 * |u.removes| + 4 * |u.adds|
  }

  function SerializeUpdate(h: Header, u: Update): (b: seq<byte>)
    ensures |b| == UpdateLength(u)
  {
    Framed(h, UPDATE_DATA, UpdatePayload(u))
  }

  predicate LegalUpdate(h: Header, u: Update) {
    h.sender != 0 && h.receiver != 0 && u.id != 0 && u.to > u.from
  }

  function ReadNumbers(b: seq<byte>, at: nat, count: nat): (values: seq<u32>)
    requires at + 4 * count <= |b|
    ensures |values| == count
  {
    if count == 0 then [] else ReadNumbers(b, at, count - 1) + [Read32(b, at + 4 * (count - 1))]
  }

  /** The frame length the two count bytes call for. */
  function DeclaredLength(b: seq<byte>): nat
    requires |b| >= 24
  {
    var rc: nat, ac: nat := b[20], b[21];
    26 + 4 * rc + 4 * ac
  }

  function ReadUpdate(b: seq<byte>): Update
    requires |b| >= 24 && DeclaredLength(b) <= |b| + 2
  {
    var rc: nat, ac: nat := b[20], b[21];
    Update(Read32(b, 8), Read32(b, 12), Read32(b, 16), ReadNumbers(b, 24, rc), ReadNumbers(b, 24 + 4 * rc, ac))
  }

  /** decode_update_data_header followed by decode_update_numbers with room for both lists. */
  function DecodeUpdate(b: seq<byte>): Option<(Header, Update)> {
    if |b| < 26 || !ValidCrc(b) || b[0] != VERSION || b[1] != UPDATE_DATA then None
    else if |b| != DeclaredLength(b) || Read16(b, 22) != 0 then None
    else
      var h, u := ReadHeader(b), ReadUpdate(b);
      if LegalUpdate(h, u) then Some((h, u)) else None
  }

  // ---------- Both directions of the codec ----------

  lemma {:induction false} ReadNumbersAt(b: seq<byte>, at: nat, values: seq<u32>)
    requires At(b, at, Numbers(values))
    ensures ReadNumbers(b, at, |values|) == values
  {
    if values != [] {
      var n := |values| - 1;
      AtSplit(b, at, Numbers(values[..n]), LE32(values[n]));
      ReadNumbersAt(b, at, values[..n]);
      Read32At(b, at + 4 * n, values[n]);
    }
  }

  lemma {:induction false} ReadNumberAt(b: seq<byte>, at: nat, count: nat, i: nat)
    requires at + 4 * count <= |b| && i < count
    ensures ReadNumbers(b, at, count)[i] == Read32(b, at + 4 * i)
  {
    if i < count - 1 {
      ReadNumberAt(b, at, count - 1, i);
    }
  }

  /** The bytes from `at` on are those of the values. */
  predicate Spells(b: seq<byte>, at: nat, values: seq<u32>) {
    at + 4 * |values| <= |b| && forall i :: 0 <= i < |values| ==> At(b, at + 4 * i, LE32(values[i]))
  }

  lemma {:induction false} SpelledNumbers(b: seq<byte>, at: nat, values: seq<u32>)
    requires Spells(b, at, values)
    ensures At(b, at, Numbers(values))
  {
    if values != [] {
      var n := |values| - 1;
      forall i | 0 <= i < n ensures At(b, at + 4 * i, LE32(values[..n][i])) {
        assert values[..n][i] == values[i];
      }
      SpelledNumbers(b, at, values[..n]);
      AtJoin(b, at, Numbers(values[..n]), LE32(values[n]));
    }
  }

  lemma NumbersOfRead(b: seq<byte>, at: nat, count: nat)
    requires at + 4 * count <= |b|
    ensures At(b, at, Numbers(ReadNumbers(b, at, count)))
  {
    forall i | 0 <= i < count ensures At(b, at + 4 * i, LE32(ReadNumbers(b, at, count)[i])) {
      ReadNumberAt(b, at, count, i);
      Join32(b, at + 4 * i);
    }
    SpelledNumbers(b, at, ReadNumbers(b, at, count));
  }

  lemma FixedRead(u: Update, b: seq<byte>)
    requires At(b, 8, FixedPart(u))
    ensures Read32(b, 8) == u.id && Read32(b, 12) == u.from && Read32(b, 16) == u.to
    ensures b[20] == |u.removes| && b[21] == |u.adds| && Read16(b, 22) == 0
  {
    var counts: seq<byte> := [|u.removes|, |u.adds|];
    AtSplit(b, 8, LE32(u.id) + LE32(u.from) + LE32(u.to) + counts, LE16(0));
    AtSplit(b, 8, LE32(u.id) + LE32(u.from) + LE32(u.to), counts);
    AtSplit(b, 8, LE32(u.id) + LE32(u.from), LE32(u.to));
    AtSplit(b, 8, LE32(u.id), LE32(u.from));
    Read32At(b, 8, u.id);
    Read32At(b, 12, u.from);
    Read32At(b, 16, u.to);
    AtIndex(b, 20, counts, 0);
    AtIndex(b, 20, counts, 1);
    Read16At(b, 22, 0);
  }

  lemma ReadUpdateIs(u: Update, b: seq<byte>)
    requires |b| == UpdateLength(u) && b[20] == |u.removes| && b[21] == |u.adds|
    requires Read32(b, 8) == u.id && Read32(b, 12) == u.from && Read32(b, 16) == u.to
    requires ReadNumbers(b, 24, |u.removes|) == u.removes
    requires ReadNumbers(b, 24 + 4 * |u.removes|, |u.adds|) == u.adds
    ensures ReadUpdate(b) == u
  {}

  lemma PayloadParts(b: seq<byte>, x: seq<byte>, y: seq<byte>, z: seq<byte>)
    requires At(b, 8, x + y + z)
    ensures At(b, 8, x) && At(b, 8 + |x|, y) && At(b, 8 + |x| + |y|, z)
  {
    AtSplit(b, 8, x + y, z);
    AtSplit(b, 8, x, y);
  }

  lemma ReadUpdateFrom(u: Update, b: seq<byte>)
    requires |b| == UpdateLength(u) && At(b, 8, UpdatePayload(u))
    ensures b[20] == |u.removes| && b[21] == |u.adds| && Read16(b, 22) == 0 && ReadUpdate(b) == u
  {
    PayloadParts(b, FixedPart(u), Numbers(u.removes), Numbers(u.adds));
    FixedRead(u, b);
    ReadNumbersAt(b, 24, u.removes);
    ReadNumbersAt(b, 24 + 4 * |u.removes|, u.adds);
    ReadUpdateIs(u, b);
  }

  /** Decoding undoes encoding, for every pair of lists of up to 255 numbers. */
  lemma DecodeSerializeUpdate(h: Header, u: Update)
    requires LegalUpdate(h, u)
    ensures DecodeUpdate(SerializeUpdate(h, u)) == Some((h, u))
  {
    FramedParts(h, UPDATE_DATA, UpdatePayload(u));
    ReadUpdateFrom(u, SerializeUpdate(h, u));
  }

  lemma FixedBack(b: seq<byte>, u: Update)
    requires |b| >= 24 && b[20] == |u.removes| && b[21] == |u.adds| && Read16(b, 22) == 0
    requires u.id == Read32(b, 8) && u.from == Read32(b, 12) && u.to == Read32(b, 16)
    ensures At(b, 8, FixedPart(u))
  {
    var counts: seq<byte> := [|u.removes|, |u.adds|];
    Join32(b, 8);
    Join32(b, 12);
    Join32(b, 16);
    AtPair(b, 20, |u.removes|, |u.adds|);
    Join16(b, 22);
    AtJoin(b, 8, LE32(u.id), LE32(u.from));
    AtJoin(b, 8, LE32(u.id) + LE32(u.from), LE32(u.to));
    AtJoin(b, 8, LE32(u.id) + LE32(u.from) + LE32(u.to), counts);
    AtJoin(b, 8, LE32(u.id) + LE32(u.from) + LE32(u.to) + counts, LE16(0));
  }

  predicate WellSized(b: seq<byte>) {
    |b| >= 26 && |b| == DeclaredLength(b)
  }

  lemma PayloadBack(b: seq<byte>)
    requires WellSized(b) && Read16(b, 22) == 0
    ensures At(b, 8, UpdatePayload(ReadUpdate(b)))
  {
    var u := ReadUpdate(b);
    FixedBack(b, u);
    NumbersOfRead(b, 24, |u.removes|);
    NumbersOfRead(b, 24 + 4 * |u.removes|, |u.adds|);
    AtJoin(b, 8, FixedPart(u), Numbers(u.removes));
    AtJoin(b, 8, FixedPart(u) + Numbers(u.removes), Numbers(u.adds));
  }

  /** Encoding undoes decoding: every accepted frame is the encoding of what it decodes to. */
  lemma SerializeDecodeUpdate(b: seq<byte>)
    requires DecodeUpdate(b).Some?
    ensures var (h, u) := DecodeUpdate(b).value; LegalUpdate(h, u) && SerializeUpdate(h, u) == b
  {
    PayloadBack(b);
    FramedBack(b, UpdatePayload(ReadUpdate(b)));
  }

  /** No detectable damage survives the decoder. */
  lemma DamagedUpdateRejected(f: seq<byte>, g: seq<byte>)
    requires ValidCrc(f) && Detectable(f, g)
    ensures DecodeUpdate(g) == None
  {
    DetectableRejected(f, g);
  }

  /** A batch frame is short enough that one, two or three flipped bits anywhere in it are always noticed. */
  lemma FewFlipsRejected(f: seq<byte>, g: seq<byte>)
    requires DecodeUpdate(f).Some? && |g| == |f| && 1 <= Bits.Distance(Bits.BitsOf(f), Bits.BitsOf(g)) <= 3
    ensures DecodeUpdate(g) == None
  {
    SerializeDecodeUpdate(f);
    DamagedUpdateRejected(f, g);
  }

  // ---------- The loops ----------

  lemma NumbersNext(values: seq<u32>, i: nat)
    requires i < |values|
    ensures Numbers(values[..i + 1]) == Numbers(values[..i]) + LE32(values[i])
  {
    assert values[..i + 1][..i] == values[..i];
  }

  /** Writes a list at `out[at..]`. */
  method WriteNumbers(out: array<byte>, at: nat, values: seq<u32>)
    requires at + 4 * |values| <= out.Length
    modifies out
    ensures out[..] == Overwrite(old(out[..]), at, Numbers(values))
  {
    ghost var s := out[..];
    var off := at;
    for i := 0 to |values|
      invariant off == at + 4 * i
      invariant out[..] == Overwrite(s, at, Numbers(values[..i]))
    {
      WriteNumber(out, off, at, values, i, s);
      off := off + 4;
    }
    assert values[..|values|] == values;
  }

  method WriteNumber(out: array<byte>, off: nat, ghost at: nat, values: seq<u32>, i: nat, ghost s: seq<byte>)
    requires at + 4 * |values| <= out.Length == |s| && i < |values| && off == at + 4 * i
    requires out[..] == Overwrite(s, at, Numbers(values[..i]))
    modifies out
    ensures out[..] == Overwrite(s, at, Numbers(values[..i + 1]))
  {
    Write32(out, off, values[i]);
    NumberWritten(s, at, values, i);
  }

  lemma NumberWritten(s: seq<byte>, at: nat, values: seq<u32>, i: nat)
    requires at + 4 * |values| <= |s| && i < |values|
    ensures Overwrite(Overwrite(s, at, Numbers(values[..i])), at + 4 * i, LE32(values[i]))
         == Overwrite(s, at, Numbers(values[..i + 1]))
  {
    OverwriteTwice(s, at, Numbers(values[..i]), LE32(values[i]));
    NumbersNext(values, i);
  }

  method WriteFixed(out: array<byte>, u: Update)
    requires 24 <= out.Length
    modifies out
    ensures out[..] == Overwrite(old(out[..]), 8, FixedPart(u))
  {
    ghost var s, v, w, x, y: seq<byte> := out[..], LE32(u.id), LE32(u.from), LE32(u.to), [|u.removes|, |u.adds|];
    Write32(out, 8, u.id);
    Write32(out, 12, u.from);
    OverwriteTwice(s, 8, v, w);
    Write32(out, 16, u.to);
    OverwriteTwice(s, 8, v + w, x);
    OverwritePair(out[..], 20, |u.removes|, |u.adds|);
    out[20] := |u.removes|;
    out[21] := |u.adds|;
    OverwriteTwice(s, 8, v + w + x, y);
    Write16(out, 22, 0);
    OverwriteTwice(s, 8, v + w + x + y, LE16(0));
  }

  /** Fixed part and lists. */
  method WriteUpdate(out: array<byte>, u: Update)
    requires UpdateLength(u) <= out.Length
    modifies out
    ensures out[..] == Overwrite(old(out[..]), 8, UpdatePayload(u))
  {
    ghost var s, x, y := out[..], FixedPart(u), Numbers(u.removes);
    WriteFixed(out, u);
    WriteNumbers(out, 24, u.removes);
    OverwriteTwice(s, 8, x, y);
    WriteNumbers(out, 24 + 4 * |u.removes|, u.adds);
    OverwriteTwice(s, 8, x + y, Numbers(u.adds));
  }

  /** encode_update_data. */
  method EncodeUpdate(out: array<byte>, cap: nat, h: Header, u: Update) returns (ok: bool, len: nat)
    requires cap <= out.Length
    modifies out
    ensures ok == (LegalUpdate(h, u) && UpdateLength(u) <= cap)
    ensures !ok ==> len == 0 && out[..] == old(out[..])
    ensures ok ==> len == UpdateLength(u) && out[..len] == SerializeUpdate(h, u) && out[len..] == old(out[len..])
  {
    ghost var s := out[..];
    len := UpdateLength(u);
    if !LegalUpdate(h, u) || cap < len {
      return false, 0;
    }
    WriteHeader(out, h, UPDATE_DATA);
    WriteUpdate(out, u);
    Finalize(out, s, h, UPDATE_DATA, UpdatePayload(u), len);
    OverwriteStart(s, SerializeUpdate(h, u));
    assert out[..len] == out[..][..len] && out[len..] == out[..][len..] && s[len..] == old(out[len..]);
    ok := true;
  }

  /** Clears an output list. */
  method Clear(out: array<u32>)
    modifies out
    ensures forall i :: 0 <= i < out.Length ==> out[i] == 0
  {
    for i := 0 to out.Length
      invariant forall j :: 0 <= j < i ==> out[j] == 0
    {
      out[i] := 0;
    }
  }

  /** Reads `count` numbers from the frame at `at`; the rest of the list keeps its values. */
  method ReadInto(b: seq<byte>, at: nat, count: nat, out: array<u32>)
    requires at + 4 * count <= |b| && count <= out.Length
    modifies out
    ensures out[..count] == ReadNumbers(b, at, count)
    ensures forall i :: count <= i < out.Length ==> out[i] == old(out[i])
  {
    for i := 0 to count
      invariant out[..i] == ReadNumbers(b, at, i)
      invariant forall j :: i <= j < out.Length ==> out[j] == old(out[j])
    {
      out[i] := Read32(b, at + 4 * i);
      assert out[..i + 1] == out[..i] + [out[i]];
    }
  }

  /** decode_update_numbers: both lists are cleared, and filled if and only if both have room. */
  method DecodeNumbers(b: seq<byte>, removes: array<u32>, adds: array<u32>) returns (ok: bool)
    requires |b| >= 26 && DeclaredLength(b) == |b| && removes != adds
    modifies removes, adds
    ensures ok <==> |ReadUpdate(b).removes| <= removes.Length && |ReadUpdate(b).adds| <= adds.Length
    ensures ok ==>
              && removes[..|ReadUpdate(b).removes|] == ReadUpdate(b).removes
              && adds[..|ReadUpdate(b).adds|] == ReadUpdate(b).adds
    ensures forall i :: 0 <= i < removes.Length && (ok ==> |ReadUpdate(b).removes| <= i) ==> removes[i] == 0
    ensures forall i :: 0 <= i < adds.Length && (ok ==> |ReadUpdate(b).adds| <= i) ==> adds[i] == 0
  {
    Clear(removes);
    Clear(adds);
    var rc: nat, ac: nat := b[20], b[21];
    if removes.Length < rc || adds.Length < ac {
      return false;
    }
    ReadInto(b, 24, rc, removes);
    ReadInto(b, 24 + 4 * rc, ac, adds);
    ok := true;
  }

  method UpdateWord(crc: u16, v: u32) returns (c: u16)
    ensures c == CrcFrom(crc, LE32(v))
  {
    var c1 := UpdateByte(crc, v % 256);
    var c2 := UpdateByte(c1, v / 256 % 256);
    var c3 := UpdateByte(c2, v / 65536 % 256);
    c := UpdateByte(c3, v / 16777216 % 256);
    CrcAppend(crc, [Byte0(v)], [Byte1(v)]);
    CrcAppend(crc, [Byte0(v)] + [Byte1(v)], [Byte2(v)]);
    CrcAppend(crc, [Byte0(v)] + [Byte1(v)] + [Byte2(v)], [Byte3(v)]);
    assert LE32(v) == [Byte0(v)] + [Byte1(v)] + [Byte2(v)] + [Byte3(v)];
  }

  method UpdateNumbers(crc: u16, values: seq<u32>) returns (c: u16)
    ensures c == CrcFrom(crc, Numbers(values))
  {
    c := crc;
    CrcOfNothing(crc);
    for i := 0 to |values|
      invariant c == CrcFrom(crc, Numbers(values[..i]))
    {
      c := UpdateWord(c, values[i]);
      CrcAppend(crc, Numbers(values[..i]), LE32(values[i]));
      assert values[..i + 1][..i] == values[..i];
    }
    assert values[..|values|] == values;
  }

  lemma CrcOfNothing(crc: u16)
    ensures CrcFrom(crc, []) == crc
  {
    Bits.Powers();
    Bits.ValueOfLow(crc, 16);
  }

  method UpdatePair(crc: u16, x: byte, y: byte) returns (c: u16)
    ensures c == CrcFrom(crc, [x, y])
  {
    var c1 := UpdateByte(crc, x);
    c := UpdateByte(c1, y);
    CrcAppend(crc, [x], [y]);
    assert [x] + [y] == [x, y];
  }

  method UpdateFixed(u: Update) returns (c: u16)
    ensures c == CrcOf(FixedPart(u))
  {
    c := UpdateWord(INIT, u.id);
    c := UpdateWord(c, u.from);
    c := UpdateWord(c, u.to);
    c := UpdatePair(c, |u.removes|, |u.adds|);
    c := UpdatePair(c, 0, 0);
    FixedCrc(INIT, LE32(u.id), LE32(u.from), LE32(u.to), [|u.removes|, |u.adds|], LE16(0));
  }

  lemma FixedCrc(start: u16, v: seq<byte>, w: seq<byte>, x: seq<byte>, y: seq<byte>, z: seq<byte>)
    ensures CrcFrom(CrcFrom(CrcFrom(CrcFrom(CrcFrom(start, v), w), x), y), z) == CrcFrom(start, v + w + x + y + z)
  {
    CrcThrice(start, v, w, x);
    CrcThrice(start, v + w + x, y, z);
  }

  /** compute_update_payload_crc16: the incremental checksum is the one-shot checksum of the payload bytes. */
  method ComputePayloadCrc(u: Update) returns (crc: u16)
    ensures crc == CrcOf(UpdatePayload(u))
  {
    crc := UpdateFixed(u);
    crc := UpdateNumbers(crc, u.removes);
    crc := UpdateNumbers(crc, u.adds);
    CrcThrice(INIT, FixedPart(u), Numbers(u.removes), Numbers(u.adds));
  }

  lemma CrcThrice(start: u16, a: seq<byte>, b: seq<byte>, c: seq<byte>)
    ensures CrcFrom(CrcFrom(CrcFrom(start, a), b), c) == CrcFrom(start, a + b + c)
  {
    CrcAppend(start, a, b);
    CrcAppend(start, a + b, c);
  }

  /** The payload bytes are those between the header and the footer of the encoded frame. */
  lemma PayloadInFrame(h: Header, u: Update)
    ensures SerializeUpdate(h, u)[8..UpdateLength(u) - 2] == UpdatePayload(u)
  {
    FramedParts(h, UPDATE_DATA, UpdatePayload(u));
  }
}
