/** Voice packets byte by byte, and the decoder's errors by the bytes that cause them. */
module VoicePacketBytes {
  import opened Prelude
  import opened VoicePackets
  import opened VoicePacketCodec
  import Utf8

  // ----- The bytes one by one -----

  function TwoBytes(x: nat): seq<u8> {
    [x % 0x100, x / 0x100 % 0x100]
  }

  function FourBytes(x: nat): seq<u8> {
    [x % 0x100, x / 0x100 % 0x100, x / 0x1_0000 % 0x100, x / 0x100_0000 % 0x100]
  }

  /** Low bytes first. */
  lemma LittleEndianIs(x: nat)
    ensures LittleEndian(x, 2) == TwoBytes(x)
    ensures LittleEndian(x, 4) == FourBytes(x)
    ensures LittleEndian(x, 8) == FourBytes(x) + FourBytes(x / 0x1_0000_0000)
  {
    LittleEndianStep(x, 1);
    LittleEndianStep(x, 3);
    LittleEndianStep(x / 0x100, 2);
    LittleEndianStep(x / 0x1_0000, 1);
    LittleEndianFour(x);
    LittleEndianFour(x / 0x1_0000_0000);
    EightIsFourAndFour(x);
  }

  lemma LittleEndianStep(x: nat, width: nat)
    ensures LittleEndian(x, width + 1) == [x % 0x100] + LittleEndian(x / 0x100, width)
  {
  }

  lemma LittleEndianFour(x: nat)
    ensures LittleEndian(x, 4) == FourBytes(x)
    ensures LittleEndian(x, 2) == TwoBytes(x)
  {
    hide LittleEndian;
    Quotients(x);
    LittleEndianNone();
    LittleEndianStep(x, 3);
    LittleEndianStep(x, 1);
    LittleEndianStep(x / 0x100, 2);
    LittleEndianStep(x / 0x100, 0);
    LittleEndianStep(x / 0x1_0000, 1);
    LittleEndianStep(x / 0x100_0000, 0);
  }

  lemma LittleEndianNone()
    ensures forall x :: LittleEndian(x, 0) == []
  {
  }

  lemma Quotients(x: nat)
    ensures x / 0x100 / 0x100 == x / 0x1_0000
    ensures x / 0x1_0000 / 0x100 == x / 0x100_0000
    ensures x / 0x100_0000 / 0x100 == x / 0x1_0000_0000
  {
  }

  lemma EightIsFourAndFour(x: nat)
    ensures LittleEndian(x, 8) == LittleEndian(x, 4) + LittleEndian(x / 0x1_0000_0000, 4)
  {
    hide LittleEndian;
    Quotients(x);
    LittleEndianNone();
    LittleEndianStep(x, 7);
    LittleEndianStep(x / 0x100, 6);
    LittleEndianStep(x / 0x1_0000, 5);
    LittleEndianStep(x / 0x100_0000, 4);
    LittleEndianStep(x, 3);
    LittleEndianStep(x / 0x100, 2);
    LittleEndianStep(x / 0x1_0000, 1);
    LittleEndianStep(x / 0x100_0000, 0);
  }

  /** A packet on the wire, byte by byte: "LDVP", version 1, the two texts behind two-byte lengths,
      sequence, rate, channels, 1 for opus and 0 for PCM, frame size, and the payload behind a
      four-byte length, all numbers with the low byte first. */
  lemma WireBytes(p: VoicePacket)
    requires Encodable(p)
    ensures var user, room := Utf8.Encode(p.userId), Utf8.Encode(p.roomId);
            Encode(p) == Ok([0x4C, 0x44, 0x56, 0x50, 0x01]
                            + TwoBytes(|user|) + user + TwoBytes(|room|) + room
                            + FourBytes(p.sequence) + FourBytes(p.sequence / 0x1_0000_0000)
                            + FourBytes(p.sampleRate) + TwoBytes(p.channels)
                            + [if p.codec == "opus" then 1 else 0] + FourBytes(p.frameSamples)
                            + FourBytes(|p.payload|) + p.payload)
  {
    hide Encode, LittleEndian, Utf8.Encode, TwoBytes, FourBytes;
    WireLayout(p);
    LittleEndianIs(|Utf8.Encode(p.userId)|);
    LittleEndianIs(|Utf8.Encode(p.roomId)|);
    LittleEndianIs(p.sequence);
    LittleEndianIs(p.sampleRate);
    LittleEndianIs(p.channels);
    LittleEndianIs(p.frameSamples);
    LittleEndianIs(|p.payload|);
    var user, room := Utf8.Encode(p.userId), Utf8.Encode(p.roomId);
    var head := [0x4C, 0x44, 0x56, 0x50, 0x01] + TwoBytes(|user|) + user + TwoBytes(|room|) + room;
    assert HeaderBytes(p) == head;
    JoinNumbers(head, FourBytes(p.sequence), FourBytes(p.sequence / 0x1_0000_0000), FourBytes(p.sampleRate),
                TwoBytes(p.channels), [if p.codec == "opus" then 1 else 0], FourBytes(p.frameSamples),
                FourBytes(|p.payload|), p.payload);
  }

  lemma JoinNumbers(head: seq<u8>, a: seq<u8>, b: seq<u8>, c: seq<u8>, d: seq<u8>, e: seq<u8>, f: seq<u8>, g: seq<u8>,
                    payload: seq<u8>)
    ensures head + (a + b + c + d + e + f) + (g + payload) == head + a + b + c + d + e + f + g + payload
  {
  }

  // ----- The errors of the decoder -----

  /** The first field that cannot be read decides the answer, whatever follows it. */
  lemma {:induction false} FirstErrorDecides(fs: seq<Field>, vs: seq<Value>, k: nat, rest: seq<u8>, e: Error)
    requires k < |fs| && AllFit(fs[..k], vs) && ReadField(fs[k], rest) == Err(e)
    ensures ReadLayout(fs, LayoutBytes(fs[..k], vs) + rest) == Err(e)
  {
    hide ReadField, FieldBytes, Fits;
    if k == 0 {
      assert LayoutBytes(fs[..k], vs) + rest == rest;
    } else {
      assert fs[..k][0] == fs[0] && fs[..k][1..] == fs[1..][..k - 1];
      assert AllFit(fs[1..][..k - 1], vs[1..]);
      var head, tail := FieldBytes(fs[0], vs[0]), LayoutBytes(fs[1..][..k - 1], vs[1..]) + rest;
      FirstErrorDecides(fs[1..], vs[1..], k - 1, rest, e);
      FieldReadsBack(fs[0], vs[0], tail);
      ReadAcross(fs, head, vs[0], tail);
      assert LayoutBytes(fs[..k], vs) + rest == head + tail;
    }
  }

  /** What the decoder says to a packet whose field `k` has been replaced by other bytes. */
  lemma DecodeDamaged(buf: seq<u8>, p: VoicePacket, k: nat, rest: seq<u8>, e: Error)
    requires k < |LAYOUT| && Written(buf, p, k) && ReadField(LAYOUT[k], rest) == Err(e)
    ensures Decode(buf + rest) == Err(e)
  {
    hide ReadField, LayoutBytes;
    FirstErrorDecides(LAYOUT, ValuesOf(p)[..k], k, rest, e);
  }

  /** Another magic or version is named as such, whatever follows. */
  lemma HeaderErrors(p: VoicePacket, magic: seq<u8>, version: u8, rest: seq<u8>)
    requires Encodable(p) && |magic| == 4
    ensures magic != [0x4C, 0x44, 0x56, 0x50] ==> Decode(magic + rest) == Err(InvalidMagic)
    ensures version != 1 ==> Decode([0x4C, 0x44, 0x56, 0x50] + ([version] + rest)) == Err(UnsupportedVersion(version))
  {
    hide Decode, Written;
    NothingWritten(p);
    WriteNext([], p, 0, MAGIC);
    assert [] + MAGIC == MAGIC;
    if magic != MAGIC {
      assert (magic + rest)[..4] == magic;
      assert ReadField(LAYOUT[0], magic + rest) == Err(InvalidMagic);
      DecodeDamaged([], p, 0, magic + rest, InvalidMagic);
      assert [] + (magic + rest) == magic + rest;
    }
    if version != 1 {
      assert ReadField(LAYOUT[1], [version] + rest) == Err(UnsupportedVersion(version));
      DecodeDamaged(MAGIC, p, 1, [version] + rest, UnsupportedVersion(version));
    }
  }

  /** "LDVP" and version 1. */
  const HEAD: seq<u8> := [0x4C, 0x44, 0x56, 0x50, 1]

  /** A text that is not UTF-8 is named by its field, whatever follows and whatever good field comes
      before. */
  lemma TextErrors(p: VoicePacket, text: seq<u8>, rest: seq<u8>)
    requires Encodable(p) && |text| < 0x1_0000 && Utf8.Decode(text).None?
    ensures var user := TwoBytes(|Utf8.Encode(p.userId)|) + Utf8.Encode(p.userId);
            && Decode(HEAD + (TwoBytes(|text|) + text + rest)) == Err(InvalidUtf8("user_id"))
            && Decode(HEAD + user + (TwoBytes(|text|) + text + rest)) == Err(InvalidUtf8("room_id"))
  {
    hide Decode, Written, TwoBytes, Utf8.Encode, Utf8.Decode;
    HeadWritten(p);
    BadTextIn(HEAD, p, 2, "user_id", text, rest);
    UserWritten(p);
    BadTextIn(HEAD + (TwoBytes(|Utf8.Encode(p.userId)|) + Utf8.Encode(p.userId)), p, 3, "room_id", text, rest);
  }

  lemma BadTextIn(buf: seq<u8>, p: VoicePacket, k: nat, name: string, text: seq<u8>, rest: seq<u8>)
    requires k < |LAYOUT| && Written(buf, p, k) && LAYOUT[k] == Text(name)
    requires |text| < 0x1_0000 && Utf8.Decode(text).None?
    ensures Decode(buf + (TwoBytes(|text|) + text + rest)) == Err(InvalidUtf8(name))
  {
    hide Decode, Written, TwoBytes, ReadField, Utf8.Decode;
    BadText(name, text, rest);
    DecodeDamaged(buf, p, k, TwoBytes(|text|) + text + rest, InvalidUtf8(name));
  }

  lemma HeadWritten(p: VoicePacket)
    requires Encodable(p)
    ensures Written(HEAD, p, 2)
  {
    hide Written;
    NothingWritten(p);
    WriteNext([], p, 0, MAGIC);
    assert [] + MAGIC == MAGIC;
    WriteNext(MAGIC, p, 1, [WIRE_VERSION]);
    assert MAGIC + [WIRE_VERSION] == HEAD;
  }

  lemma UserWritten(p: VoicePacket)
    requires Encodable(p)
    ensures Written(HEAD + (TwoBytes(|Utf8.Encode(p.userId)|) + Utf8.Encode(p.userId)), p, 3)
  {
    hide Written, LittleEndian, TwoBytes, Utf8.Encode;
    HeadWritten(p);
    LittleEndianIs(|Utf8.Encode(p.userId)|);
    WriteNext(HEAD, p, 2, TextBytes(p.userId));
  }

  lemma BadText(name: string, text: seq<u8>, rest: seq<u8>)
    requires |text| < 0x1_0000 && Utf8.Decode(text).None?
    ensures ReadField(Text(name), TwoBytes(|text|) + text + rest) == Err(InvalidUtf8(name))
  {
    hide Utf8.Decode, TwoBytes, LittleEndian, FromLittleEndian;
    LittleEndianIs(|text|);
    Widths();
    NumberReadsBack(|text|, 2);
    var b := TwoBytes(|text|) + text + rest;
    assert b[..2] == LittleEndian(|text|, 2) && b[2..2 + |text|] == text;
  }

  /** An unknown codec byte is named, whatever follows. */
  lemma CodecError(p: VoicePacket, codec: u8, rest: seq<u8>)
    requires Encodable(p) && codec > 1
    ensures Decode(HeaderBytes(p) + FourBytes(p.sequence) + FourBytes(p.sequence / 0x1_0000_0000)
                   + FourBytes(p.sampleRate) + TwoBytes(p.channels) + ([codec] + rest))
         == Err(UnsupportedCodecByte(codec))
  {
    hide Decode, Written, LittleEndian, TwoBytes, FourBytes, HeaderBytes;
    var head := HeaderBytes(p);
    var b4 := head + LittleEndian(p.sequence, 8);
    var b5 := b4 + LittleEndian(p.sampleRate, 4);
    var b6 := b5 + LittleEndian(p.channels, 2);
    HeaderWritten(p);
    WriteNext(head, p, 4, LittleEndian(p.sequence, 8));
    WriteNext(b4, p, 5, LittleEndian(p.sampleRate, 4));
    WriteNext(b5, p, 6, LittleEndian(p.channels, 2));
    LittleEndianIs(p.sequence);
    LittleEndianIs(p.sampleRate);
    LittleEndianIs(p.channels);
    assert ReadField(LAYOUT[7], [codec] + rest) == Err(UnsupportedCodecByte(codec));
    DecodeDamaged(b6, p, 7, [codec] + rest, UnsupportedCodecByte(codec));
    assert b6 == head + FourBytes(p.sequence) + FourBytes(p.sequence / 0x1_0000_0000)
                 + FourBytes(p.sampleRate) + TwoBytes(p.channels);
  }

  /** Which error the encoder gives: a text or payload that does not fit its length field comes before
      a codec that has no byte. */
  lemma EncodeErrors(p: VoicePacket)
    ensures var user, room := |Utf8.Encode(p.userId)| <= 0xFFFF, |Utf8.Encode(p.roomId)| <= 0xFFFF;
            var payload, codec := |p.payload| <= 0xFFFF_FFFF, p.codec == "pcm_s16le" || p.codec == "opus";
            && (Encode(p) == Err(FieldTooLong("user_id")) <==> !user)
            && (Encode(p) == Err(FieldTooLong("room_id")) <==> user && !room)
            && (Encode(p) == Err(FieldTooLong("payload")) <==> user && room && !payload)
            && (Encode(p) == Err(UnsupportedCodecString(p.codec)) <==> user && room && payload && !codec)
            && (Encode(p).Ok? <==> user && room && payload && codec)
  {
    hide Utf8.Encode, LayoutBytes;
  }
}
