/** Which screen shares the server accepts and which of their frames it relays. */
module ScreenShare {
  import opened Prelude
  import opened Text
  import opened ServerTables

  const CODEC_AV1 := "av1"
  const CODEC_VP9 := "vp9"
  const CODEC_JPEG := "jpeg"
  const TRANSPORT_SFU_RELAY := "sfu_relay"

  datatype StartRequest = StartRequest(
    sourceName: string,
    width: u32,
    height: u32,
    mode: ScreenShareMode,
    resolution: ScreenShareResolution,
    targetFps: u32,
    requestedCodecs: seq<string>,
    transport: string)

  datatype FramePayload = FramePayload(
    width: u32,
    height: u32,
    imageFormat: string,
    codec: string,
    transport: string,
    dataBase64: string,
    sequence: u64,
    unixMs: u64)

  datatype ShareError =
    | EmptySourceName
    | ZeroDimension
    | InvalidFps
    | UnsupportedTransport
    | NoSupportedCodec
    | EmptyImageFormat
    | EmptyCodec
    | EmptyData
    | NoActiveShare
    | CodecMismatch
    | ImageFormatMismatch
    | FrameTooLarge

  /** What goes on a client's queue. Frames that do not concern screen shares are all alike here. */
  datatype ServerFrame =
    | Started(user: UserId, info: ScreenShareInfo, requestedCodecs: seq<string>)
    | Stopped(user: UserId)
    | Frame(user: UserId, width: u32, height: u32, imageFormat: string, mode: ScreenShareMode,
            resolution: ScreenShareResolution, targetFps: u32, codec: string, transport: string,
            dataBase64: string, sequence: u64, unixMs: u64)
    | Other

  // ----- Codec negotiation -----

  function NormalizeCodec(codec: string): string {
    ToAsciiLowercase(Trim(codec))
  }

  /** The distinct non-empty normalised codecs in the order they were first requested. */
  function DistinctCodecs(codecs: seq<string>): seq<string> {
    if codecs == [] then []
    else
      var before := DistinctCodecs(codecs[..|codecs| - 1]);
      var codec := NormalizeCodec(codecs[|codecs| - 1]);
      if codec == "" || codec in before then before else before + [codec]
  }

  function NormalizeRequested(codecs: seq<string>): seq<string> {
    var distinct := DistinctCodecs(codecs);
    if distinct == [] then [CODEC_AV1, CODEC_VP9, CODEC_JPEG] else distinct
  }

  method NormalizeRequestedCodecs(codecs: seq<string>) returns (normalized: seq<string>)
    ensures normalized == NormalizeRequested(codecs)
  {
    normalized := [];
    for i := 0 to |codecs|
      invariant normalized == DistinctCodecs(codecs[..i])
    {
      assert codecs[..i + 1][..i] == codecs[..i];
      var codec := NormalizeCodec(codecs[i]);
      if codec == "" || codec in normalized {
        continue;
      }
      normalized := normalized + [codec];
    }
    assert codecs[..|codecs|] == codecs;
    if normalized == [] {
      normalized := [CODEC_AV1, CODEC_VP9, CODEC_JPEG];
    }
  }

  /** Some requested codec is `codec` up to case and surrounding space. */
  predicate Names(codecs: seq<string>, codec: string) {
    exists i :: 0 <= i < |codecs| && NormalizeCodec(codecs[i]) == codec
  }

  function Negotiate(codecs: seq<string>): Option<string> {
    if Names(codecs, CODEC_JPEG) then Some(CODEC_JPEG) else None
  }

  method NegotiateCodec(codecs: seq<string>) returns (r: Option<string>)
    ensures r == Negotiate(codecs)
  {
    for i := 0 to |codecs|
      invariant forall j :: 0 <= j < i ==> NormalizeCodec(codecs[j]) != CODEC_JPEG
    {
      if NormalizeCodec(codecs[i]) == CODEC_JPEG {
        return Some(CODEC_JPEG);
      }
    }
    return None;
  }

  lemma NamesInit(codecs: seq<string>, codec: string)
    requires codecs != []
    ensures Names(codecs, codec) <==>
              Names(codecs[..|codecs| - 1], codec) || NormalizeCodec(codecs[|codecs| - 1]) == codec
  {
    hide NormalizeCodec;
    var n := |codecs| - 1;
    if Names(codecs, codec) {
      var i :| 0 <= i < |codecs| && NormalizeCodec(codecs[i]) == codec;
      if i < n { assert codecs[..n][i] == codecs[i]; }
    }
    if Names(codecs[..n], codec) {
      var i :| 0 <= i < n && NormalizeCodec(codecs[..n][i]) == codec;
      assert codecs[..n][i] == codecs[i];
    }
  }

  lemma {:induction false} DistinctCodecsContents(codecs: seq<string>)
    ensures var d := DistinctCodecs(codecs);
            && (forall i, j :: 0 <= i < j < |d| ==> d[i] != d[j])
            && (forall c :: c in d <==> c != "" && Names(codecs, c))
  {
    hide NormalizeCodec, Names;
    if codecs == [] {
      assert forall c :: !Names(codecs, c) by { NamesNothing(); }
    } else {
      DistinctCodecsContents(codecs[..|codecs| - 1]);
      forall c ensures c in DistinctCodecs(codecs) <==> c != "" && Names(codecs, c) {
        NamesInit(codecs, c);
      }
    }
  }

  lemma NamesNothing()
    ensures forall c :: !Names([], c)
  {
  }

  // ----- Normalising twice is normalising once -----

  lemma CaseKeepsWhitespace(c: char)
    ensures IsWhitespace(LowercaseAscii(c)) <==> IsWhitespace(c)
    ensures LowercaseAscii(LowercaseAscii(c)) == LowercaseAscii(c)
  {
  }

  lemma NormalizeTwice(codec: string)
    ensures NormalizeCodec(NormalizeCodec(codec)) == NormalizeCodec(codec)
  {
    var t, n := Trim(codec), NormalizeCodec(codec);
    TrimIsTrimmed(codec);
    if t != "" {
      CaseKeepsWhitespace(t[0]);
      CaseKeepsWhitespace(t[|t| - 1]);
    }
    assert Trim(n) == n;
    forall i | 0 <= i < |n| ensures LowercaseAscii(n[i]) == n[i] {
      CaseKeepsWhitespace(t[i]);
    }
    assert ToAsciiLowercase(n) == n;
  }

  lemma {:induction false} DistinctCodecsAreNormal(codecs: seq<string>)
    ensures forall i :: 0 <= i < |DistinctCodecs(codecs)| ==>
              NormalizeCodec(DistinctCodecs(codecs)[i]) == DistinctCodecs(codecs)[i]
  {
    hide NormalizeCodec;
    if codecs == [] {
    } else {
      DistinctCodecsAreNormal(codecs[..|codecs| - 1]);
      NormalizeTwice(codecs[|codecs| - 1]);
    }
  }

  lemma JpegIsNormal()
    ensures NormalizeCodec(CODEC_JPEG) == CODEC_JPEG
  {
    assert Trim("jpeg") == "jpeg";
    assert ToAsciiLowercase("jpeg") == "jpeg";
  }

  /** A request is met exactly when it names jpeg, in any case and spacing, or names nothing. */
  lemma NegotiationSucceedsIff(codecs: seq<string>)
    ensures Negotiate(NormalizeRequested(codecs)).Some? <==>
              Names(codecs, CODEC_JPEG) || forall c :: c != "" ==> !Names(codecs, c)
  {
    hide NormalizeCodec;
    var d := DistinctCodecs(codecs);
    DistinctCodecsContents(codecs);
    DistinctCodecsAreNormal(codecs);
    JpegIsNormal();
    if d == [] {
      assert NormalizeRequested(codecs)[2] == CODEC_JPEG;
    } else {
      assert d[0] in d;
      assert Names(d, CODEC_JPEG) <==> CODEC_JPEG in d;
    }
  }

  // ----- Starting a share -----

  predicate IsValidFps(mode: ScreenShareMode, fps: u32) {
    match mode
    case TextMode => 1 <= fps <= 15
    case GameMode => fps == 30 || fps == 60
  }

  /** The checks a start request passes before any lock is taken. */
  function CheckStart(r: StartRequest): Result<ScreenShareInfo, ShareError> {
    if Trim(r.sourceName) == "" then Err(EmptySourceName)
    else if r.width == 0 || r.height == 0 then Err(ZeroDimension)
    else if !IsValidFps(r.mode, r.targetFps) then Err(InvalidFps)
    else if Trim(r.transport) != TRANSPORT_SFU_RELAY then Err(UnsupportedTransport)
    else
      match Negotiate(NormalizeRequested(r.requestedCodecs))
      case None => Err(NoSupportedCodec)
      case Some(codec) =>
        Ok(ScreenShareInfo(Trim(r.sourceName), r.width, r.height, r.mode, r.resolution, r.targetFps, codec,
                           TRANSPORT_SFU_RELAY))
  }

  /** A start request is accepted exactly when it names a source, has a size, a frame rate of its
      mode and the one transport, and asks for jpeg or for nothing; what is then announced is
      well formed. */
  lemma StartAcceptedIff(r: StartRequest)
    ensures CheckStart(r).Ok? <==>
              && Trim(r.sourceName) != "" && r.width > 0 && r.height > 0
              && (r.mode == TextMode ==> 1 <= r.targetFps <= 15)
              && (r.mode == GameMode ==> r.targetFps == 30 || r.targetFps == 60)
              && Trim(r.transport) == "sfu_relay"
              && (Names(r.requestedCodecs, CODEC_JPEG) || forall c :: c != "" ==> !Names(r.requestedCodecs, c))
    ensures CheckStart(r).Ok? ==>
              && CheckStart(r).value.activeCodec == CODEC_JPEG
              && IsTrimmed(CheckStart(r).value.sourceName) && CheckStart(r).value.sourceName != ""
  {
    hide Trim, Names, NormalizeRequested;
    NegotiationSucceedsIff(r.requestedCodecs);
    TrimIsTrimmed(r.sourceName);
  }

  // ----- Relaying a frame -----

  /** The checks a frame passes before any lock is taken. */
  function CheckFrame(f: FramePayload): Option<ShareError> {
    if f.width == 0 || f.height == 0 then Some(ZeroDimension)
    else if Trim(f.imageFormat) == "" then Some(EmptyImageFormat)
    else if NormalizeCodec(f.codec) == "" then Some(EmptyCodec)
    else if Trim(f.transport) != TRANSPORT_SFU_RELAY then Some(UnsupportedTransport)
    else if Trim(f.dataBase64) == "" then Some(EmptyData)
    else None
  }

  /** The frame as relayed, given the sender's entry in the table of active shares. */
  function Admit(u: UserId, share: Option<ScreenShareInfo>, f: FramePayload): Result<ServerFrame, ShareError> {
    match CheckFrame(f)
    case Some(e) => Err(e)
    case None =>
      match share
      case None => Err(NoActiveShare)
      case Some(info) =>
        if NormalizeCodec(f.codec) != info.activeCodec then Err(CodecMismatch)
        else if info.activeCodec == CODEC_JPEG && NormalizeCodec(f.imageFormat) != CODEC_JPEG then
          Err(ImageFormatMismatch)
        else if f.width > info.width || f.height > info.height then Err(FrameTooLarge)
        else
          Ok(Frame(u, f.width, f.height, f.imageFormat, info.mode, info.resolution, info.targetFps,
                   info.activeCodec, info.transport, f.dataBase64, f.sequence, f.unixMs))
  }

  /** The frame is one that a share announced with `info` may send. */
  predicate FitsShare(f: ServerFrame, info: ScreenShareInfo)
    requires f.Frame?
  {
    && 0 < f.width <= info.width
    && 0 < f.height <= info.height
    && f.codec == info.activeCodec
    && f.mode == info.mode
    && f.resolution == info.resolution
    && f.targetFps == info.targetFps
    && f.transport == info.transport
  }

  /** A frame is admitted exactly when it is well formed and its sender shares with matching
      parameters; what is relayed fits the share. */
  lemma AdmitIff(u: UserId, share: Option<ScreenShareInfo>, f: FramePayload)
    ensures Admit(u, share, f).Ok? <==>
              && CheckFrame(f) == None
              && share.Some?
              && NormalizeCodec(f.codec) == share.value.activeCodec
              && (share.value.activeCodec == CODEC_JPEG ==> NormalizeCodec(f.imageFormat) == CODEC_JPEG)
              && f.width <= share.value.width && f.height <= share.value.height
    ensures Admit(u, share, f).Ok? ==>
              && Admit(u, share, f).value.Frame?
              && Admit(u, share, f).value.user == u
              && FitsShare(Admit(u, share, f).value, share.value)
  {
  }

  /** From the start request to the frames: while the share of an accepted request is active, a
      frame is relayed exactly when it says jpeg for both codec and format, names the transport,
      carries data and is no larger than requested, whatever codecs were requested. */
  lemma FrameOfAcceptedStartIff(u: UserId, r: StartRequest, f: FramePayload)
    requires CheckStart(r).Ok?
    ensures Admit(u, Some(CheckStart(r).value), f).Ok? <==>
              && NormalizeCodec(f.codec) == CODEC_JPEG && NormalizeCodec(f.imageFormat) == CODEC_JPEG
              && Trim(f.transport) == TRANSPORT_SFU_RELAY && Trim(f.dataBase64) != ""
              && 0 < f.width <= r.width && 0 < f.height <= r.height
  {
    hide Trim, Names, NormalizeRequested, NormalizeCodec;
    StartAcceptedIff(r);
    if NormalizeCodec(f.imageFormat) == CODEC_JPEG {
      NamedIsNotBlank(f.imageFormat);
    }
  }

  lemma NamedIsNotBlank(codec: string)
    ensures NormalizeCodec(codec) != "" ==> Trim(codec) != ""
  {
  }

  // ----- The list of codecs, and the errors -----

  /** The codec at `i` is named there for the first time. */
  predicate IsFirstNamed(codecs: seq<string>, i: nat, codec: string) {
    i < |codecs| && NormalizeCodec(codecs[i]) == codec && !Names(codecs[..i], codec)
  }

  /** The codecs are listed in the order in which they are first named; a request that names none
      stands for av1, vp9 and jpeg. */
  lemma {:induction false} DistinctCodecsInOrder(codecs: seq<string>) returns (at: seq<nat>)
    ensures |at| == |DistinctCodecs(codecs)|
    ensures forall k :: 0 <= k < |at| ==> IsFirstNamed(codecs, at[k], DistinctCodecs(codecs)[k])
    ensures forall k, l :: 0 <= k < l < |at| ==> at[k] < at[l]
    ensures DistinctCodecs(codecs) == [] ==> NormalizeRequested(codecs) == ["av1", "vp9", "jpeg"]
    ensures DistinctCodecs(codecs) != [] ==> NormalizeRequested(codecs) == DistinctCodecs(codecs)
  {
    hide NormalizeCodec, Names;
    if codecs == [] {
      at := [];
    } else {
      var n := |codecs| - 1;
      var codec := NormalizeCodec(codecs[n]);
      at := DistinctCodecsInOrder(codecs[..n]);
      forall k | 0 <= k < |at| ensures IsFirstNamed(codecs, at[k], DistinctCodecs(codecs[..n])[k]) {
        assert codecs[..n][..at[k]] == codecs[..at[k]];
      }
      DistinctCodecsContents(codecs[..n]);
      if codec != "" && codec !in DistinctCodecs(codecs[..n]) {
        at := at + [n];
      }
    }
  }

  /** Which error a start request gets: the first of the checks that fails, in this order. */
  lemma StartErrors(r: StartRequest)
    ensures var source, size := Trim(r.sourceName) != "", r.width > 0 && r.height > 0;
            var rate := if r.mode == TextMode then 1 <= r.targetFps <= 15 else r.targetFps == 30 || r.targetFps == 60;
            var transport := Trim(r.transport) == "sfu_relay";
            && (CheckStart(r) == Err(EmptySourceName) <==> !source)
            && (CheckStart(r) == Err(ZeroDimension) <==> source && !size)
            && (CheckStart(r) == Err(InvalidFps) <==> source && size && !rate)
            && (CheckStart(r) == Err(UnsupportedTransport) <==> source && size && rate && !transport)
            && (CheckStart(r).Ok? || CheckStart(r) == Err(NoSupportedCodec) <==> source && size && rate && transport)
  {
    hide Trim, Negotiate, NormalizeRequested;
  }

  /** Which error a frame gets: the checks on the frame alone come first, then that its sender shares,
      and then the codec, the format and the size of the share. */
  lemma FrameErrors(u: UserId, share: Option<ScreenShareInfo>, f: FramePayload)
    ensures var r := Admit(u, share, f);
            var size, format := f.width > 0 && f.height > 0, Trim(f.imageFormat) != "";
            var codec, transport := NormalizeCodec(f.codec) != "", Trim(f.transport) == "sfu_relay";
            var sound := size && format && codec && transport && Trim(f.dataBase64) != "";
            && (r == Err(ZeroDimension) <==> !size)
            && (r == Err(EmptyImageFormat) <==> size && !format)
            && (r == Err(EmptyCodec) <==> size && format && !codec)
            && (r == Err(UnsupportedTransport) <==> size && format && codec && !transport)
            && (r == Err(EmptyData) <==> size && format && codec && transport && Trim(f.dataBase64) == "")
            && (r == Err(NoActiveShare) <==> sound && share.None?)
            && (r == Err(CodecMismatch) <==> sound && share.Some? && NormalizeCodec(f.codec) != share.value.activeCodec)
            && (r == Err(FrameTooLarge) ==>
                  sound && share.Some? && (f.width > share.value.width || f.height > share.value.height))
            && (r == Err(ImageFormatMismatch) ==> sound && share.Some? && NormalizeCodec(f.imageFormat) != "jpeg")
  {
    hide Trim, NormalizeCodec;
  }
}
