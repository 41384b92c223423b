/** The encoder that appends to a growing buffer and the decoder that advances a cursor,
    proved against the layout functions of VoicePackets. */
module VoicePacketCodec {
  import opened Prelude
  import opened VoicePackets
  import Utf8

  // ----- Encoding -----

  lemma {:induction false} LayoutSnoc(fs: seq<Field>, vs: seq<Value>, f: Field, v: Value)
    requires AllFit(fs, vs) && Fits(f, v)
    ensures LayoutBytes(fs + [f], vs + [v]) == LayoutBytes(fs, vs) + FieldBytes(f, v)
  {
    hide FieldBytes, Fits;
    if fs == [] {
      assert fs + [f] == [f] && vs + [v] == [v];
      assert [f][1..] == [] && [v][1..] == [];
    } else {
      LayoutSnoc(fs[1..], vs[1..], f, v);
      assert (fs + [f])[1..] == fs[1..] + [f] && (vs + [v])[1..] == vs[1..] + [v];
    }
  }

  /** The buffer holds the first `n` fields of the packet. */
  ghost predicate Written(buf: seq<u8>, p: VoicePacket, n: nat) {
    && n <= |LAYOUT|
    && AllFit(LAYOUT, ValuesOf(p))
    && buf == LayoutBytes(LAYOUT[..n], ValuesOf(p)[..n])
  }

  lemma WriteNext(buf: seq<u8>, p: VoicePacket, n: nat, bytes: seq<u8>)
    requires n < |LAYOUT| && Written(buf, p, n)
    requires bytes == FieldBytes(LAYOUT[n], ValuesOf(p)[n])
    ensures Written(buf + bytes, p, n + 1)
  {
    hide FieldBytes, LayoutBytes;
    var fs, vs := LAYOUT, ValuesOf(p);
    LayoutSnoc(fs[..n], vs[..n], fs[n], vs[n]);
    assert fs[..n] + [fs[n]] == fs[..n + 1] && vs[..n] + [vs[n]] == vs[..n + 1];
  }

  lemma NothingWritten(p: VoicePacket)
    requires Encodable(p)
    ensures Written([], p, 0)
  {
    ValuesFit(p);
  }

  lemma AllWritten(buf: seq<u8>, p: VoicePacket)
    requires Written(buf, p, |LAYOUT|)
    ensures Encode(p) == Ok(buf)
  {
    ValuesFit(p);
    assert LAYOUT[..|LAYOUT|] == LAYOUT && ValuesOf(p)[..|LAYOUT|] == ValuesOf(p);
  }

  function TextBytes(text: string): seq<u8> {
    LittleEndian(|Utf8.Encode(text)|, 2) + Utf8.Encode(text)
  }

  function HeaderBytes(p: VoicePacket): seq<u8> {
    MAGIC + [WIRE_VERSION] + TextBytes(p.userId) + TextBytes(p.roomId)
  }

  function NumberBytes(p: VoicePacket): seq<u8> {
    LittleEndian(p.sequence, 8) + LittleEndian(p.sampleRate, 4) + LittleEndian(p.channels, 2)
    + [if p.codec == CODEC_OPUS then CODEC_BYTE_OPUS else CODEC_BYTE_PCM_S16LE] + LittleEndian(p.frameSamples, 4)
  }

  lemma HeaderWritten(p: VoicePacket)
    requires Encodable(p)
    ensures Written(HeaderBytes(p), p, 4)
  {
    hide Written, LittleEndian, Utf8.Encode;
    NothingWritten(p);
    WriteNext([], p, 0, MAGIC);
    assert [] + MAGIC == MAGIC;
    WriteNext(MAGIC, p, 1, [WIRE_VERSION]);
    WriteNext(MAGIC + [WIRE_VERSION], p, 2, TextBytes(p.userId));
    WriteNext(MAGIC + [WIRE_VERSION] + TextBytes(p.userId), p, 3, TextBytes(p.roomId));
  }

  lemma NumbersWritten(head: seq<u8>, p: VoicePacket)
    requires Written(head, p, 4)
    ensures Written(head + NumberBytes(p), p, 9)
  {
    hide Written, LittleEndian, HeaderBytes;
    var codec := [if p.codec == CODEC_OPUS then CODEC_BYTE_OPUS else CODEC_BYTE_PCM_S16LE];
    var b4 := head + LittleEndian(p.sequence, 8);
    var b5 := b4 + LittleEndian(p.sampleRate, 4);
    var b6 := b5 + LittleEndian(p.channels, 2);
    var b7 := b6 + codec;
    WriteNext(head, p, 4, LittleEndian(p.sequence, 8));
    WriteNext(b4, p, 5, LittleEndian(p.sampleRate, 4));
    WriteNext(b5, p, 6, LittleEndian(p.channels, 2));
    WriteNext(b6, p, 7, codec);
    WriteNext(b7, p, 8, LittleEndian(p.frameSamples, 4));
    assert head + NumberBytes(p) == b7 + LittleEndian(p.frameSamples, 4);
  }

  /** The bytes of a packet, spelled out in the documented order. */
  lemma WireLayout(p: VoicePacket)
    requires Encodable(p)
    ensures Encode(p) == Ok(HeaderBytes(p) + NumberBytes(p) + (LittleEndian(|p.payload|, 4) + p.payload))
  {
    hide Written, LittleEndian, HeaderBytes, NumberBytes, Encode;
    HeaderWritten(p);
    NumbersWritten(HeaderBytes(p), p);
    WriteNext(HeaderBytes(p) + NumberBytes(p), p, 9, LittleEndian(|p.payload|, 4) + p.payload);
    AllWritten(HeaderBytes(p) + NumberBytes(p) + (LittleEndian(|p.payload|, 4) + p.payload), p);
  }

  method EncodeVoicePacket(p: VoicePacket) returns (r: Result<seq<u8>, Error>)
    ensures r == Encode(p)
  {
    hide Utf8.Encode, LayoutBytes, FieldBytes, Fits, LittleEndian, Written;
    var userIdBytes := Utf8.Encode(p.userId);
    var roomIdBytes := Utf8.Encode(p.roomId);
    if |userIdBytes| > TWO_16 - 1 {
      return Err(FieldTooLong("user_id"));
    }
    if |roomIdBytes| > TWO_16 - 1 {
      return Err(FieldTooLong("room_id"));
    }
    if |p.payload| > TWO_32 - 1 {
      return Err(FieldTooLong("payload"));
    }
    var codecByte;
    if p.codec == CODEC_PCM_S16LE {
      codecByte := CODEC_BYTE_PCM_S16LE;
    } else if p.codec == CODEC_OPUS {
      codecByte := CODEC_BYTE_OPUS;
    } else {
      return Err(UnsupportedCodecString(p.codec));
    }

    var buf := AppendHeader(p);
    buf := AppendText(buf, p, 2, p.userId);
    buf := AppendText(buf, p, 3, p.roomId);
    buf := AppendNumber(buf, p, 4, p.sequence, 8);
    buf := AppendNumber(buf, p, 5, p.sampleRate, 4);
    buf := AppendNumber(buf, p, 6, p.channels, 2);
    buf := AppendCodec(buf, p, codecByte);
    buf := AppendNumber(buf, p, 8, p.frameSamples, 4);
    buf := AppendPayload(buf, p);
    AllWritten(buf, p);
    return Ok(buf);
  }

  method AppendHeader(ghost p: VoicePacket) returns (r: seq<u8>)
    requires Encodable(p)
    ensures Written(r, p, 2)
  {
    NothingWritten(p);
    r := [];
    WriteNext(r, p, 0, MAGIC);
    r := r + MAGIC;
    WriteNext(r, p, 1, [WIRE_VERSION]);
    r := r + [WIRE_VERSION];
  }

  method AppendNumber(buf: seq<u8>, ghost p: VoicePacket, ghost n: nat, x: nat, width: nat) returns (r: seq<u8>)
    requires n < |LAYOUT| && Written(buf, p, n)
    requires LAYOUT[n] == Number(width) && ValuesOf(p)[n] == NumberValue(x)
    ensures Written(r, p, n + 1)
  {
    assert Fits(LAYOUT[n], ValuesOf(p)[n]);
    WriteNext(buf, p, n, LittleEndian(x, width));
    r := buf + LittleEndian(x, width);
  }

  method AppendCodec(buf: seq<u8>, ghost p: VoicePacket, codecByte: u8) returns (r: seq<u8>)
    requires Written(buf, p, 7)
    requires codecByte == if p.codec == CODEC_OPUS then CODEC_BYTE_OPUS else CODEC_BYTE_PCM_S16LE
    ensures Written(r, p, 8)
  {
    WriteNext(buf, p, 7, [codecByte]);
    r := buf + [codecByte];
  }

  method AppendPayload(buf: seq<u8>, p: VoicePacket) returns (r: seq<u8>)
    requires Written(buf, p, 9)
    ensures Written(r, p, 10)
  {
    assert Fits(LAYOUT[9], ValuesOf(p)[9]);
    WriteNext(buf, p, 9, LittleEndian(|p.payload|, 4) + p.payload);
    r := buf + LittleEndian(|p.payload|, 4);
    r := r + p.payload;
    assert r == buf + (LittleEndian(|p.payload|, 4) + p.payload);
  }

  /** Appends the length and then the bytes of a text field. */
  method AppendText(buf: seq<u8>, ghost p: VoicePacket, ghost n: nat, text: string) returns (r: seq<u8>)
    requires n < |LAYOUT| && Written(buf, p, n)
    requires LAYOUT[n].Text? && ValuesOf(p)[n] == TextValue(text)
    ensures Written(r, p, n + 1)
  {
    var bytes := Utf8.Encode(text);
    assert Fits(LAYOUT[n], ValuesOf(p)[n]);
    WriteNext(buf, p, n, LittleEndian(|bytes|, 2) + bytes);
    r := buf + LittleEndian(|bytes|, 2);
    r := r + bytes;
    assert r == buf + (LittleEndian(|bytes|, 2) + bytes);
  }

  // ----- Decoding -----

  ghost function Chain(vs: seq<Value>, n: nat, r: Result<(seq<Value>, nat), Error>): Result<(seq<Value>, nat), Error> {
    match r
    case Ok((ws, m)) => Ok((vs + ws, n + m))
    case Err(e) => Err(e)
  }

  /** The cursor `pos` is past the first `|vs|` fields and `vs` are their values. */
  ghost predicate At(bytes: seq<u8>, vs: seq<Value>, pos: nat) {
    && |vs| <= |LAYOUT|
    && pos <= |bytes|
    && ReadLayout(LAYOUT, bytes) == Chain(vs, pos, ReadLayout(LAYOUT[|vs|..], bytes[pos..]))
  }

  lemma Start(bytes: seq<u8>)
    ensures At(bytes, [], 0)
  {
    assert LAYOUT[0..] == LAYOUT && bytes[0..] == bytes;
    match ReadLayout(LAYOUT, bytes)
    case Ok((ws, m)) => assert [] + ws == ws;
    case Err(_) =>
  }

  lemma ChainPrepend(vs: seq<Value>, pos: nat, v: Value, n: nat, r: Result<(seq<Value>, nat), Error>)
    ensures Chain(vs, pos, Prepend(v, n, r)) == Chain(vs + [v], pos + n, r)
  {
    if r.Ok? {
      assert vs + ([v] + r.value.0) == vs + [v] + r.value.0;
    }
  }

  lemma ReadStep(fs: seq<Field>, b: seq<u8>, v: Value, n: nat)
    requires fs != [] && ReadField(fs[0], b) == Ok((v, n))
    ensures ReadLayout(fs, b) == Prepend(v, n, ReadLayout(fs[1..], b[n..]))
  {
  }

  lemma DropMore<T>(s: seq<T>, i: nat, j: nat)
    requires i + j <= |s|
    ensures s[i..][j..] == s[i + j..]
  {
  }

  lemma Advance(bytes: seq<u8>, vs: seq<Value>, pos: nat, v: Value, n: nat)
    requires At(bytes, vs, pos) && |vs| < |LAYOUT|
    requires ReadField(LAYOUT[|vs|], bytes[pos..]) == Ok((v, n))
    ensures At(bytes, vs + [v], pos + n)
  {
    hide ReadField, ReadLayout;
    ReadStep(LAYOUT[|vs|..], bytes[pos..], v, n);
    DropMore(LAYOUT, |vs|, 1);
    DropMore(bytes, pos, n);
    ChainPrepend(vs, pos, v, n, ReadLayout(LAYOUT[|vs| + 1..], bytes[pos + n..]));
  }

  lemma Fail(bytes: seq<u8>, vs: seq<Value>, pos: nat, e: Error)
    requires At(bytes, vs, pos) && |vs| < |LAYOUT|
    requires ReadField(LAYOUT[|vs|], bytes[pos..]) == Err(e)
    ensures Decode(bytes) == Err(e)
  {
    assert LAYOUT[|vs|..][0] == LAYOUT[|vs|];
  }

  /** A text field at the cursor: its length, its bytes, the UTF-8 check. */
  method TakeText(bytes: seq<u8>, start: nat, name: string) returns (r: Result<string, Error>, pos: nat)
    requires start <= |bytes|
    ensures r.Ok? ==> && start <= pos <= |bytes|
                      && ReadField(Text(name), bytes[start..]) == Ok((TextValue(r.value), pos - start))
    ensures r.Err? ==> ReadField(Text(name), bytes[start..]) == Err(r.error)
  {
    pos := start;
    ghost var b := bytes[start..];
    if |bytes| < pos + 2 {
      return Err(Truncated), pos;
    }
    var length := FromLittleEndian(bytes[pos..pos + 2]);
    assert bytes[pos..pos + 2] == b[..2];
    pos := pos + 2;
    if |bytes| < pos + length {
      return Err(Truncated), pos;
    }
    assert bytes[pos..pos + length] == b[2..2 + length];
    match Utf8.Decode(bytes[pos..pos + length]) {
      case None => return Err(InvalidUtf8(name)), pos;
      case Some(text) => return Ok(text), pos + length;
    }
  }

  /** A number of `width` bytes at the cursor. */
  method TakeNumber(bytes: seq<u8>, start: nat, width: nat) returns (r: Result<nat, Error>, pos: nat)
    requires start <= |bytes|
    ensures r.Ok? ==> && pos == start + width && r.value < Pow256(width)
                      && ReadField(Number(width), bytes[start..]) == Ok((NumberValue(r.value), width))
    ensures r.Err? ==> ReadField(Number(width), bytes[start..]) == Err(r.error)
  {
    if |bytes| < start + width {
      return Err(Truncated), start;
    }
    assert bytes[start..start + width] == bytes[start..][..width];
    NumberIsCanonical(bytes[start..start + width]);
    return Ok(FromLittleEndian(bytes[start..start + width])), start + width;
  }

  /** Magic and version, at the start of the packet. */
  method TakeHeader(bytes: seq<u8>) returns (r: Option<Error>, pos: nat)
    ensures r.None? ==> At(bytes, [Unit, Unit], pos)
    ensures r.Some? ==> Decode(bytes) == Err(r.value)
  {
    hide ReadLayout, Decode, At;
    pos := 0;
    Start(bytes);
    assert bytes[0..] == bytes;
    if |bytes| < pos + 4 {
      Fail(bytes, [], 0, Truncated);
      return Some(Truncated), pos;
    }
    if bytes[pos..pos + 4] != MAGIC {
      Fail(bytes, [], 0, InvalidMagic);
      return Some(InvalidMagic), pos;
    }
    Advance(bytes, [], 0, Unit, 4);
    pos := pos + 4;
    assert [] + [Unit] == [Unit];
    if |bytes| < pos + 1 {
      Fail(bytes, [Unit], 4, Truncated);
      return Some(Truncated), pos;
    }
    var version := bytes[pos];
    pos := pos + 1;
    if version != WIRE_VERSION {
      Fail(bytes, [Unit], 4, UnsupportedVersion(version));
      return Some(UnsupportedVersion(version)), pos;
    }
    Advance(bytes, [Unit], 4, Unit, 1);
    assert [Unit] + [Unit] == [Unit, Unit];
    return None, pos;
  }

  /** The fixed-width fields between the two identifiers and the payload. */
  method TakeNumbers(bytes: seq<u8>, start: nat, ghost vs0: seq<Value>)
    returns (r: Result<(u64, u32, u16, string, u32), Error>, pos: nat)
    requires |vs0| == 4 && At(bytes, vs0, start)
    ensures r.Ok? ==>
              At(bytes, vs0 + [NumberValue(r.value.0), NumberValue(r.value.1), NumberValue(r.value.2),
                               CodecValue(r.value.3), NumberValue(r.value.4)], pos)
    ensures r.Err? ==> Decode(bytes) == Err(r.error)
  {
    hide ReadLayout, Decode, FromLittleEndian;
    Widths();
    ghost var vs := vs0;
    var sequence, sampleRate, channels, frameSamples;
    sequence, pos := TakeNumber(bytes, start, 8);
    if sequence.Err? {
      Fail(bytes, vs, start, sequence.error);
      return Err(sequence.error), pos;
    }
    Advance(bytes, vs, start, NumberValue(sequence.value), 8);
    vs := vs + [NumberValue(sequence.value)];

    sampleRate, pos := TakeNumber(bytes, pos, 4);
    if sampleRate.Err? {
      Fail(bytes, vs, start + 8, sampleRate.error);
      return Err(sampleRate.error), pos;
    }
    Advance(bytes, vs, start + 8, NumberValue(sampleRate.value), 4);
    vs := vs + [NumberValue(sampleRate.value)];

    channels, pos := TakeNumber(bytes, pos, 2);
    if channels.Err? {
      Fail(bytes, vs, start + 12, channels.error);
      return Err(channels.error), pos;
    }
    Advance(bytes, vs, start + 12, NumberValue(channels.value), 2);
    vs := vs + [NumberValue(channels.value)];

    if |bytes| < pos + 1 {
      Fail(bytes, vs, pos, Truncated);
      return Err(Truncated), pos;
    }
    var codecByte := bytes[pos];
    var codec;
    if codecByte == CODEC_BYTE_PCM_S16LE {
      codec := CODEC_PCM_S16LE;
    } else if codecByte == CODEC_BYTE_OPUS {
      codec := CODEC_OPUS;
    } else {
      Fail(bytes, vs, pos, UnsupportedCodecByte(codecByte));
      return Err(UnsupportedCodecByte(codecByte)), pos;
    }
    Advance(bytes, vs, pos, CodecValue(codec), 1);
    vs := vs + [CodecValue(codec)];
    pos := pos + 1;

    frameSamples, pos := TakeNumber(bytes, pos, 4);
    if frameSamples.Err? {
      Fail(bytes, vs, start + 15, frameSamples.error);
      return Err(frameSamples.error), pos;
    }
    Advance(bytes, vs, start + 15, NumberValue(frameSamples.value), 4);
    assert vs + [NumberValue(frameSamples.value)]
        == vs0 + [NumberValue(sequence.value), NumberValue(sampleRate.value), NumberValue(channels.value),
                  CodecValue(codec), NumberValue(frameSamples.value)];
    return Ok((sequence.value, sampleRate.value, channels.value, codec, frameSamples.value)), pos;
  }

  /** The payload field, which is the last. */
  method TakeBlob(bytes: seq<u8>, start: nat) returns (r: Result<seq<u8>, Error>, pos: nat)
    requires start <= |bytes|
    ensures r.Ok? ==> start <= pos && ReadField(Blob, bytes[start..]) == Ok((BlobValue(r.value), pos - start))
    ensures r.Err? ==> ReadField(Blob, bytes[start..]) == Err(r.error)
  {
    pos := start;
    ghost var b := bytes[start..];
    if |bytes| < pos + 4 {
      return Err(Truncated), pos;
    }
    var length := FromLittleEndian(bytes[pos..pos + 4]);
    assert bytes[pos..pos + 4] == b[..4];
    pos := pos + 4;
    if |bytes| < pos + length {
      return Err(Truncated), pos;
    }
    assert bytes[pos..pos + length] == b[4..4 + length];
    return Ok(bytes[pos..pos + length]), pos + length;
  }

  lemma Finish(bytes: seq<u8>, vs: seq<Value>, pos: nat)
    requires At(bytes, vs, pos) && |vs| == |LAYOUT|
    ensures AllFit(LAYOUT, vs)
    ensures Decode(bytes) == if pos != |bytes| then Err(TrailingData) else Ok(PacketOf(vs))
  {
    assert LAYOUT[|vs|..] == [];
    assert vs + [] == vs;
    LayoutIsCanonical(LAYOUT, bytes);
  }

  method DecodeVoicePacket(bytes: seq<u8>) returns (r: Result<VoicePacket, Error>)
    ensures r == Decode(bytes)
  {
    hide ReadField, ReadLayout, Decode;
    var header, pos := TakeHeader(bytes);
    if header.Some? {
      return Err(header.value);
    }
    ghost var vs: seq<Value> := [Unit, Unit];
    ghost var from := pos;

    var userId, roomId;
    userId, pos := TakeText(bytes, pos, "user_id");
    if userId.Err? {
      Fail(bytes, vs, from, userId.error);
      return Err(userId.error);
    }
    Advance(bytes, vs, from, TextValue(userId.value), pos - from);
    vs, from := vs + [TextValue(userId.value)], pos;

    roomId, pos := TakeText(bytes, pos, "room_id");
    if roomId.Err? {
      Fail(bytes, vs, from, roomId.error);
      return Err(roomId.error);
    }
    Advance(bytes, vs, from, TextValue(roomId.value), pos - from);
    vs, from := vs + [TextValue(roomId.value)], pos;

    var numbers;
    numbers, pos := TakeNumbers(bytes, pos, vs);
    if numbers.Err? {
      return Err(numbers.error);
    }
    var (sequence, sampleRate, channels, codec, frameSamples) := numbers.value;
    vs := vs + [NumberValue(sequence), NumberValue(sampleRate), NumberValue(channels), CodecValue(codec),
                NumberValue(frameSamples)];
    from := pos;

    var payload;
    payload, pos := TakeBlob(bytes, pos);
    if payload.Err? {
      Fail(bytes, vs, from, payload.error);
      return Err(payload.error);
    }
    Advance(bytes, vs, from, BlobValue(payload.value), pos - from);
    vs := vs + [BlobValue(payload.value)];
    Finish(bytes, vs, pos);
    if pos != |bytes| {
      return Err(TrailingData);
    }
    return Ok(VoicePacket(userId.value, roomId.value, sequence, sampleRate, channels, codec, frameSamples,
                          payload.value));
  }
}
