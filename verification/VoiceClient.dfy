/** The client's voice worker: what it sends, what it does with a received datagram, and how
    it drains the jitter buffer of a remote user. */
module VoiceClient {
  import opened Prelude
  import opened JitterModel
  import opened VoicePackets

  const JITTER_TARGET_DEPTH := 3
  const JITTER_MAX_DEPTH := 20
  const OPUS_SAMPLE_RATE: u32 := 48_000
  const OPUS_FRAME_SAMPLES: u32 := 960

  /** One voice session. `frames` lists the payloads encoded so far and `reports` what each
      remote's buffer has reported; both are history that the program does not keep. */
  datatype Session = Session(
    userId: string,
    roomId: string,
    sequence: u64,
    frames: seq<Payload>,
    remotes: map<string, State>,
    reports: map<string, seq<JitterPop>>)

  function NewSession(userId: string, roomId: string): Session {
    Session(userId, roomId, 0, [], map[], map[])
  }

  function AudioPacket(s: Session, payload: Payload): VoicePacket {
    VoicePacket(s.userId, s.roomId, s.sequence, OPUS_SAMPLE_RATE, 1, CODEC_OPUS, OPUS_FRAME_SAMPLES, payload)
  }

  function HeartbeatPacket(s: Session): VoicePacket {
    VoicePacket(s.userId, s.roomId, s.sequence, OPUS_SAMPLE_RATE, 1, CODEC_OPUS, 0, [])
  }

  /** What goes on the wire; a packet that cannot be encoded is silently not sent. */
  function Wire(p: VoicePacket): Option<seq<u8>> {
    match Encode(p)
    case Ok(bytes) => Some(bytes)
    case Err(_) => None
  }

  /** Sending an encoded frame uses up its sequence number even if the packet is not sent. */
  function Transmit(s: Session, payload: Payload): (Session, Option<seq<u8>>) {
    (s.(sequence := WrappingSucc(s.sequence), frames := s.frames + [payload]), Wire(AudioPacket(s, payload)))
  }

  /** A heartbeat carries the current sequence and does not advance it. */
  function Heartbeat(s: Session): Option<seq<u8>> {
    Wire(HeartbeatPacket(s))
  }

  /** The packet a datagram delivers into a jitter buffer, if it does. */
  function Accepted(s: Session, bytes: seq<u8>, deafened: bool): Option<VoicePacket> {
    match Decode(bytes)
    case Err(_) => None
    case Ok(p) =>
      if p.userId == s.userId || p.payload == [] || deafened || p.codec != CODEC_OPUS then None else Some(p)
  }

  ghost function Receive(s: Session, bytes: seq<u8>, deafened: bool, decoderReady: bool): Session {
    match Accepted(s, bytes, deafened)
    case None => s
    case Some(p) =>
      if p.userId in s.remotes then PushPeer(s, p)
      else if decoderReady then PushPeer(AddPeer(s, p.userId), p)
      else s
  }

  ghost function PushPeer(s: Session, p: VoicePacket): Session
    requires p.userId in s.remotes
  {
    s.(remotes := s.remotes[p.userId := Push(s.remotes[p.userId], p.sequence, p.payload)])
  }

  ghost function AddPeer(s: Session, peer: string): Session {
    s.(remotes := s.remotes[peer := New(JITTER_TARGET_DEPTH, JITTER_MAX_DEPTH)])
  }

  function ReportsOf(s: Session, peer: string): seq<JitterPop> {
    if peer in s.reports then s.reports[peer] else []
  }

  ghost function PopPeer(s: Session, peer: string): Session
    requires peer in s.remotes
  {
    var (st, pop) := Pop(s.remotes[peer], false);
    var popped := s.(remotes := s.remotes[peer := st]);
    if pop == Empty then popped else popped.(reports := s.reports[peer := ReportsOf(s, peer) + [pop]])
  }

  /** The session after pops left `st` in the peer's buffer and reported `out`. */
  function DrainPeer(s: Session, peer: string, st: State, out: seq<JitterPop>): (r: Session)
    ensures peer in r.remotes && r.remotes[peer] == st
  {
    var drained := s.(remotes := s.remotes[peer := st]);
    if out == [] then drained else drained.(reports := s.reports[peer := ReportsOf(s, peer) + out])
  }

  lemma DrainPeerStep(s: Session, peer: string, st: State, out: seq<JitterPop>)
    requires peer in s.remotes
    ensures var (st', pop) := Pop(st, false);
            PopPeer(DrainPeer(s, peer, st, out), peer)
            == DrainPeer(s, peer, st', if pop == Empty then out else out + [pop])
  {
    var (st', pop) := Pop(st, false);
    var mid := DrainPeer(s, peer, st, out);
    assert mid.remotes[peer := st'] == s.remotes[peer := st'];
    assert ReportsOf(mid, peer) == ReportsOf(s, peer) + out;
    if pop != Empty {
      assert ReportsOf(s, peer) + out + [pop] == ReportsOf(s, peer) + (out + [pop]);
      assert mid.reports[peer := ReportsOf(mid, peer) + [pop]]
          == s.reports[peer := ReportsOf(s, peer) + (out + [pop])];
    }
  }

  lemma DrainPeerNone(s: Session, peer: string)
    requires peer in s.remotes
    ensures DrainPeer(s, peer, s.remotes[peer], []) == s
  {
    assert s.remotes[peer := s.remotes[peer]] == s.remotes;
  }

  /** Only an audio packet of another user, in the common codec and while not deafened, reaches a
      buffer, and then only the buffer of that user, as one push; everything else about the
      session stays as it is. */
  lemma ReceiveTouchesOneBuffer(s: Session, bytes: seq<u8>, deafened: bool, decoderReady: bool)
    ensures var s' := Receive(s, bytes, deafened, decoderReady);
            && s'.(remotes := s.remotes) == s
            && s.remotes.Keys <= s'.remotes.Keys
            && (forall peer :: peer in s'.remotes && !(peer in s.remotes && s'.remotes[peer] == s.remotes[peer]) ==>
                  && Decode(bytes).Ok? && peer == Decode(bytes).value.userId != s.userId
                  && Decode(bytes).value.payload != [] && Decode(bytes).value.codec == CODEC_OPUS && !deafened
                  && s'.remotes[peer] == Push(if peer in s.remotes then s.remotes[peer]
                                              else New(JITTER_TARGET_DEPTH, JITTER_MAX_DEPTH),
                                              Decode(bytes).value.sequence, Decode(bytes).value.payload))
  {
    hide Decode, Push, New;
  }
}
