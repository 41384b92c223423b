/** The binary voice packet: its wire layout as a list of fields, the encoder and decoder as
    functions over that list, and the proof that they are inverse to each other. */
module VoicePackets {
  import opened Prelude
  import Utf8

  const CODEC_PCM_S16LE := "pcm_s16le"
  const CODEC_OPUS := "opus"
  const MAGIC: seq<u8> := [0x4C, 0x44, 0x56, 0x50]
  const WIRE_VERSION: u8 := 0x01
  const CODEC_BYTE_PCM_S16LE: u8 := 0x00
  const CODEC_BYTE_OPUS: u8 := 0x01

  datatype VoicePacket = VoicePacket(
    userId: string,
    roomId: string,
    sequence: u64,
    sampleRate: u32,
    channels: u16,
    codec: string,
    frameSamples: u32,
    payload: seq<u8>)

  datatype Error =
    | InvalidMagic
    | UnsupportedVersion(version: u8)
    | Truncated
    | UnsupportedCodecByte(codecByte: u8)
    | UnsupportedCodecString(codec: string)
    | InvalidUtf8(field: string)
    | FieldTooLong(field: string)
    | TrailingData

  // ----- Little-endian numbers -----

  function Pow256(n: nat): nat {
    if n == 0 then 1 else 256 * Pow256(n - 1)
  }

  function LittleEndian(x: nat, width: nat): (b: seq<u8>)
    ensures |b| == width
  {
    if width == 0 then [] else [x % 256] + LittleEndian(x / 256, width - 1)
  }

  function FromLittleEndian(b: seq<u8>): nat {
    if b == [] then 0 else b[0] + 256 * FromLittleEndian(b[1..])
  }

  lemma {:induction false} NumberReadsBack(x: nat, width: nat)
    requires x < Pow256(width)
    ensures FromLittleEndian(LittleEndian(x, width)) == x
  {
    if width == 0 {
    } else {
      NumberReadsBack(x / 256, width - 1);
    }
  }

  lemma {:induction false} NumberIsCanonical(b: seq<u8>)
    ensures FromLittleEndian(b) < Pow256(|b|)
    ensures LittleEndian(FromLittleEndian(b), |b|) == b
  {
    if b == [] {
    } else {
      NumberIsCanonical(b[1..]);
      LowDigit(b[0], FromLittleEndian(b[1..]));
      assert [b[0]] + b[1..] == b;
    }
  }

  lemma LowDigit(low: u8, high: nat)
    ensures (low + 256 * high) % 256 == low && (low + 256 * high) / 256 == high
  {
  }

  lemma Widths()
    ensures Pow256(1) == TWO_8 && Pow256(2) == TWO_16 && Pow256(4) == TWO_32 && Pow256(8) == TWO_64
  {
    assert Pow256(3) == 256 * Pow256(2);
    assert Pow256(5) == 256 * Pow256(4);
    assert Pow256(6) == 256 * Pow256(5);
    assert Pow256(7) == 256 * Pow256(6);
  }

  // ----- One field -----

  datatype Field = Magic | Version | Text(name: string) | Number(width: nat) | Codec | Blob

  datatype Value =
    | Unit
    | TextValue(text: string)
    | NumberValue(number: nat)
    | CodecValue(codec: string)
    | BlobValue(bytes: seq<u8>)

  /** The value can be written in this field. */
  predicate Fits(f: Field, v: Value) {
    match f
    case Magic => v.Unit?
    case Version => v.Unit?
    case Text(_) => v.TextValue? && |Utf8.Encode(v.text)| < TWO_16
    case Number(width) => v.NumberValue? && v.number < Pow256(width)
    case Codec => v.CodecValue? && (v.codec == CODEC_PCM_S16LE || v.codec == CODEC_OPUS)
    case Blob => v.BlobValue? && |v.bytes| < TWO_32
  }

  function FieldBytes(f: Field, v: Value): seq<u8>
    requires Fits(f, v)
  {
    match f
    case Magic => MAGIC
    case Version => [WIRE_VERSION]
    case Text(_) => LittleEndian(|Utf8.Encode(v.text)|, 2) + Utf8.Encode(v.text)
    case Number(width) => LittleEndian(v.number, width)
    case Codec => [if v.codec == CODEC_OPUS then CODEC_BYTE_OPUS else CODEC_BYTE_PCM_S16LE]
    case Blob => LittleEndian(|v.bytes|, 4) + v.bytes
  }

  /** Reads one field at the head of `b`: its value and the number of bytes it took. */
  function ReadField(f: Field, b: seq<u8>): (r: Result<(Value, nat), Error>)
    ensures r.Ok? ==> r.value.1 <= |b|
    ensures r != Err(TrailingData)
  {
    match f
    case Magic =>
      if |b| < 4 then Err(Truncated)
      else if b[..4] != MAGIC then Err(InvalidMagic)
      else Ok((Unit, 4))
    case Version =>
      if |b| < 1 then Err(Truncated)
      else if b[0] != WIRE_VERSION then Err(UnsupportedVersion(b[0]))
      else Ok((Unit, 1))
    case Text(name) =>
      if |b| < 2 then Err(Truncated) else
      var n := FromLittleEndian(b[..2]);
      if |b| < 2 + n then Err(Truncated) else
      (match Utf8.Decode(b[2..2 + n])
       case None => Err(InvalidUtf8(name))
       case Some(text) => Ok((TextValue(text), 2 + n)))
    case Number(width) =>
      if |b| < width then Err(Truncated)
      else Ok((NumberValue(FromLittleEndian(b[..width])), width))
    case Codec =>
      if |b| < 1 then Err(Truncated)
      else if b[0] == CODEC_BYTE_PCM_S16LE then Ok((CodecValue(CODEC_PCM_S16LE), 1))
      else if b[0] == CODEC_BYTE_OPUS then Ok((CodecValue(CODEC_OPUS), 1))
      else Err(UnsupportedCodecByte(b[0]))
    case Blob =>
      if |b| < 4 then Err(Truncated) else
      var n := FromLittleEndian(b[..4]);
      if |b| < 4 + n then Err(Truncated) else Ok((BlobValue(b[4..4 + n]), 4 + n))
  }

  lemma FieldReadsBack(f: Field, v: Value, rest: seq<u8>)
    requires Fits(f, v)
    ensures ReadField(f, FieldBytes(f, v) + rest) == Ok((v, |FieldBytes(f, v)|))
  {
    Widths();
    var b := FieldBytes(f, v) + rest;
    match f
    case Magic => assert b[..4] == MAGIC;
    case Version =>
    case Text(_) =>
      var bytes := Utf8.Encode(v.text);
      NumberReadsBack(|bytes|, 2);
      Utf8.DecodeEncode(v.text);
      assert b[..2] == LittleEndian(|bytes|, 2) && b[2..2 + |bytes|] == bytes;
    case Number(width) =>
      NumberReadsBack(v.number, width);
      assert b[..width] == LittleEndian(v.number, width);
    case Codec =>
    case Blob =>
      NumberReadsBack(|v.bytes|, 4);
      assert b[..4] == LittleEndian(|v.bytes|, 4) && b[4..4 + |v.bytes|] == v.bytes;
  }

  lemma FieldIsCanonical(f: Field, b: seq<u8>)
    requires ReadField(f, b).Ok?
    ensures var (v, n) := ReadField(f, b).value; Fits(f, v) && FieldBytes(f, v) == b[..n]
  {
    Widths();
    match f
    case Magic =>
    case Version =>
    case Text(_) =>
      var n := FromLittleEndian(b[..2]);
      NumberIsCanonical(b[..2]);
      Utf8.EncodeDecode(b[2..2 + n]);
      assert b[..2 + n] == b[..2] + b[2..2 + n];
    case Number(width) => NumberIsCanonical(b[..width]);
    case Codec =>
    case Blob =>
      var n := FromLittleEndian(b[..4]);
      NumberIsCanonical(b[..4]);
      assert b[..4 + n] == b[..4] + b[4..4 + n];
  }

  lemma CutFieldIsTruncated(f: Field, v: Value, k: nat)
    requires Fits(f, v) && k < |FieldBytes(f, v)|
    ensures ReadField(f, FieldBytes(f, v)[..k]) == Err(Truncated)
  {
    Widths();
    var b := FieldBytes(f, v)[..k];
    match f
    case Magic =>
    case Version =>
    case Text(_) =>
      if k >= 2 {
        NumberReadsBack(|Utf8.Encode(v.text)|, 2);
        assert b[..2] == LittleEndian(|Utf8.Encode(v.text)|, 2);
      }
    case Number(_) =>
    case Codec =>
    case Blob =>
      if k >= 4 {
        NumberReadsBack(|v.bytes|, 4);
        assert b[..4] == LittleEndian(|v.bytes|, 4);
      }
  }

  // ----- A layout: fields one after another -----

  predicate AllFit(fs: seq<Field>, vs: seq<Value>) {
    |fs| == |vs| && forall i :: 0 <= i < |fs| ==> Fits(fs[i], vs[i])
  }

  function LayoutBytes(fs: seq<Field>, vs: seq<Value>): seq<u8>
    requires AllFit(fs, vs)
  {
    if fs == [] then [] else FieldBytes(fs[0], vs[0]) + LayoutBytes(fs[1..], vs[1..])
  }

  function ReadLayout(fs: seq<Field>, b: seq<u8>): (r: Result<(seq<Value>, nat), Error>)
    ensures r.Ok? ==> |r.value.0| == |fs| && r.value.1 <= |b|
    ensures r != Err(TrailingData)
  {
    if fs == [] then Ok(([], 0))
    else
      var (v, n) :- ReadField(fs[0], b);
      Prepend(v, n, ReadLayout(fs[1..], b[n..]))
  }

  function Prepend(v: Value, n: nat, r: Result<(seq<Value>, nat), Error>): Result<(seq<Value>, nat), Error> {
    match r
    case Ok((vs, m)) => Ok(([v] + vs, n + m))
    case Err(e) => Err(e)
  }

  lemma {:induction false} LayoutReadsBack(fs: seq<Field>, vs: seq<Value>, rest: seq<u8>)
    requires AllFit(fs, vs)
    ensures ReadLayout(fs, LayoutBytes(fs, vs) + rest) == Ok((vs, |LayoutBytes(fs, vs)|))
  {
    hide ReadField, FieldBytes, Fits;
    if fs == [] {
    } else {
      var head, tail := FieldBytes(fs[0], vs[0]), LayoutBytes(fs[1..], vs[1..]);
      FieldReadsBack(fs[0], vs[0], tail + rest);
      LayoutReadsBack(fs[1..], vs[1..], rest);
      ReadAcross(fs, head, vs[0], tail + rest);
      assert LayoutBytes(fs, vs) + rest == head + (tail + rest);
      PrependWhole(vs, |head|, |tail|);
    }
  }

  lemma PrependWhole(vs: seq<Value>, n: nat, m: nat)
    requires vs != []
    ensures Prepend(vs[0], n, Ok((vs[1..], m))) == Ok((vs, n + m))
  {
    assert [vs[0]] + vs[1..] == vs;
  }

  lemma ReadAcross(fs: seq<Field>, head: seq<u8>, v: Value, tail: seq<u8>)
    requires fs != [] && ReadField(fs[0], head + tail) == Ok((v, |head|))
    ensures ReadLayout(fs, head + tail) == Prepend(v, |head|, ReadLayout(fs[1..], tail))
  {
    assert (head + tail)[|head|..] == tail;
  }

  lemma {:induction false} LayoutIsCanonical(fs: seq<Field>, b: seq<u8>)
    requires ReadLayout(fs, b).Ok?
    ensures var (vs, n) := ReadLayout(fs, b).value; AllFit(fs, vs) && LayoutBytes(fs, vs) == b[..n]
  {
    if fs == [] {
    } else {
      FieldIsCanonical(fs[0], b);
      var n := ReadField(fs[0], b).value.1;
      LayoutIsCanonical(fs[1..], b[n..]);
      var (vs, total) := ReadLayout(fs, b).value;
      assert vs[1..] == ReadLayout(fs[1..], b[n..]).value.0;
      assert b[..total] == b[..n] + b[n..][..total - n];
    }
  }

  lemma {:induction false} CutLayoutIsTruncated(fs: seq<Field>, vs: seq<Value>, k: nat)
    requires AllFit(fs, vs) && k < |LayoutBytes(fs, vs)|
    ensures ReadLayout(fs, LayoutBytes(fs, vs)[..k]) == Err(Truncated)
  {
    var head, tail := FieldBytes(fs[0], vs[0]), LayoutBytes(fs[1..], vs[1..]);
    var b := LayoutBytes(fs, vs)[..k];
    if k < |head| {
      CutFieldIsTruncated(fs[0], vs[0], k);
      assert b == head[..k];
    } else {
      var cut := tail[..k - |head|];
      CutLayoutIsTruncated(fs[1..], vs[1..], k - |head|);
      FieldReadsBack(fs[0], vs[0], cut);
      ReadAcross(fs, head, vs[0], cut);
      assert b == head + cut;
    }
  }

  // ----- The packet -----

  const LAYOUT := [Magic, Version, Text("user_id"), Text("room_id"), Number(8), Number(4), Number(2),
                   Codec, Number(4), Blob]

  function ValuesOf(p: VoicePacket): seq<Value> {
    [Unit, Unit, TextValue(p.userId), TextValue(p.roomId), NumberValue(p.sequence), NumberValue(p.sampleRate),
     NumberValue(p.channels), CodecValue(p.codec), NumberValue(p.frameSamples), BlobValue(p.payload)]
  }

  function PacketOf(vs: seq<Value>): VoicePacket
    requires AllFit(LAYOUT, vs)
  {
    Widths();
    assert forall i :: 0 <= i < |LAYOUT| ==> Fits(LAYOUT[i], vs[i]);
    assert Fits(LAYOUT[2], vs[2]) && Fits(LAYOUT[3], vs[3]) && Fits(LAYOUT[4], vs[4]) && Fits(LAYOUT[5], vs[5]);
    assert Fits(LAYOUT[6], vs[6]) && Fits(LAYOUT[7], vs[7]) && Fits(LAYOUT[8], vs[8]) && Fits(LAYOUT[9], vs[9]);
    VoicePacket(vs[2].text, vs[3].text, vs[4].number, vs[5].number, vs[6].number, vs[7].codec, vs[8].number,
                vs[9].bytes)
  }

  function Encode(p: VoicePacket): Result<seq<u8>, Error> {
    if |Utf8.Encode(p.userId)| >= TWO_16 then Err(FieldTooLong("user_id"))
    else if |Utf8.Encode(p.roomId)| >= TWO_16 then Err(FieldTooLong("room_id"))
    else if |p.payload| >= TWO_32 then Err(FieldTooLong("payload"))
    else if p.codec != CODEC_PCM_S16LE && p.codec != CODEC_OPUS then Err(UnsupportedCodecString(p.codec))
    else
      ValuesFit(p);
      Ok(LayoutBytes(LAYOUT, ValuesOf(p)))
  }

  function Decode(b: seq<u8>): Result<VoicePacket, Error> {
    var (vs, n) :- ReadLayout(LAYOUT, b);
    if n != |b| then Err(TrailingData)
    else
      LayoutIsCanonical(LAYOUT, b);
      Ok(PacketOf(vs))
  }

  predicate Encodable(p: VoicePacket) {
    && |Utf8.Encode(p.userId)| < TWO_16
    && |Utf8.Encode(p.roomId)| < TWO_16
    && |p.payload| < TWO_32
    && (p.codec == CODEC_PCM_S16LE || p.codec == CODEC_OPUS)
  }

  lemma ValuesFit(p: VoicePacket)
    ensures AllFit(LAYOUT, ValuesOf(p)) <==> Encodable(p)
  {
    Widths();
    var vs := ValuesOf(p);
    assert Fits(LAYOUT[4], vs[4]) && Fits(LAYOUT[5], vs[5]) && Fits(LAYOUT[6], vs[6]) && Fits(LAYOUT[8], vs[8]);
    if AllFit(LAYOUT, vs) {
      assert Fits(LAYOUT[2], vs[2]) && Fits(LAYOUT[3], vs[3]) && Fits(LAYOUT[7], vs[7]) && Fits(LAYOUT[9], vs[9]);
    }
  }

  lemma ValuesOfPacket(vs: seq<Value>)
    requires AllFit(LAYOUT, vs)
    ensures ValuesOf(PacketOf(vs)) == vs && Encodable(PacketOf(vs))
  {
    assert forall i :: 0 <= i < |LAYOUT| ==> Fits(LAYOUT[i], vs[i]);
    assert Fits(LAYOUT[0], vs[0]) && Fits(LAYOUT[1], vs[1]) && Fits(LAYOUT[2], vs[2]) && Fits(LAYOUT[3], vs[3]);
    assert Fits(LAYOUT[4], vs[4]) && Fits(LAYOUT[5], vs[5]) && Fits(LAYOUT[6], vs[6]) && Fits(LAYOUT[7], vs[7]);
    assert Fits(LAYOUT[8], vs[8]) && Fits(LAYOUT[9], vs[9]);
    assert ValuesOf(PacketOf(vs)) == vs;
    ValuesFit(PacketOf(vs));
  }

  // ----- Main results -----

  /** Decoding undoes encoding, and the encoder accepts exactly the encodable packets. */
  lemma DecodeEncode(p: VoicePacket)
    ensures Encode(p).Ok? <==> Encodable(p)
    ensures Encode(p).Ok? ==> Decode(Encode(p).value) == Ok(p)
  {
    if Encode(p).Ok? {
      ValuesFit(p);
      var b := Encode(p).value;
      LayoutReadsBack(LAYOUT, ValuesOf(p), []);
      assert b + [] == b;
    }
  }

  /** Every accepted byte string is the encoding of the packet it decodes to. */
  lemma EncodeDecode(b: seq<u8>)
    ensures Decode(b).Ok? ==> Encode(Decode(b).value) == Ok(b)
  {
    if Decode(b).Ok? {
      LayoutIsCanonical(LAYOUT, b);
      var (vs, n) := ReadLayout(LAYOUT, b).value;
      ValuesOfPacket(vs);
      assert b[..n] == b;
    }
  }

  /** Two packets never share an encoding. */
  lemma EncodeIsInjective(p: VoicePacket, q: VoicePacket)
    requires Encode(p).Ok? && Encode(p) == Encode(q)
    ensures p == q
  {
    DecodeEncode(p);
    DecodeEncode(q);
  }

  /** A packet cut short anywhere is reported as truncated. */
  lemma StrictPrefixIsTruncated(p: VoicePacket, k: nat)
    requires Encode(p).Ok? && k < |Encode(p).value|
    ensures Decode(Encode(p).value[..k]) == Err(Truncated)
  {
    ValuesFit(p);
    CutLayoutIsTruncated(LAYOUT, ValuesOf(p), k);
  }

  /** `TrailingData` is the answer exactly when some strict prefix is a whole packet. */
  lemma TrailingDataIffExtendsPacket(b: seq<u8>)
    ensures Decode(b) == Err(TrailingData) <==> exists k :: 0 <= k < |b| && Decode(b[..k]).Ok?
  {
    if ReadLayout(LAYOUT, b).Ok? && ReadLayout(LAYOUT, b).value.1 < |b| {
      PacketAtFront(b);
    }
    forall k | 0 <= k < |b| && Decode(b[..k]).Ok? ensures Decode(b) == Err(TrailingData) {
      PacketThenMore(b, k);
    }
  }

  lemma PacketAtFront(b: seq<u8>)
    requires ReadLayout(LAYOUT, b).Ok?
    ensures Decode(b[..ReadLayout(LAYOUT, b).value.1]).Ok?
  {
    var (vs, n) := ReadLayout(LAYOUT, b).value;
    LayoutIsCanonical(LAYOUT, b);
    LayoutReadsBack(LAYOUT, vs, []);
    assert LayoutBytes(LAYOUT, vs) + [] == b[..n];
  }

  lemma PacketThenMore(b: seq<u8>, k: nat)
    requires k < |b| && Decode(b[..k]).Ok?
    ensures Decode(b) == Err(TrailingData)
  {
    var (vs, n) := ReadLayout(LAYOUT, b[..k]).value;
    LayoutIsCanonical(LAYOUT, b[..k]);
    LayoutReadsBack(LAYOUT, vs, b[k..]);
    assert b[..k][..n] == b[..k];
    assert LayoutBytes(LAYOUT, vs) + b[k..] == b;
  }
}
