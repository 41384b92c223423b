/** The voice path end to end: senders, the relay, a network that drops, duplicates and
    reorders datagrams, and the receivers' jitter buffers, as one step system over bytes. */
module VoiceProtocol {
  import opened Prelude
  import OrderedMaps
  import opened JitterModel
  import opened VoicePackets
  import opened VoiceClient
  import opened ServerTables
  import opened VoiceRelay

  /** A datagram stays in its set once sent, so the steps may deliver it never, once or often,
      in any order. `relaying` is the datagram the relay has heard and not yet forwarded. */
  datatype Net = Net(
    sessions: map<UserId, Session>,
    sockets: map<UserId, Addr>,
    tables: Tables,
    relaying: Option<seq<u8>>,
    toServer: set<Datagram>,
    toClients: set<Datagram>)

  datatype Member = Member(room: RoomId, socket: Addr)

  function NewNet(members: map<UserId, Member>): Net {
    Net(map u | u in members :: NewSession(u, members[u].room),
        map u | u in members :: members[u].socket, EMPTY, None, {}, {})
  }

  /** - `Foreign` is any datagram whatever, as long as it does not claim to be from a session.
      - `Hear` and `Forward` are the relay's two critical sections for one datagram.
      - `Administer` is any change of the server's tables by its other tasks. */
  datatype Step =
    | SendAudio(user: UserId, payload: Payload)
    | SendHeartbeat(user: UserId)
    | Foreign(datagram: Datagram)
    | Hear(datagram: Datagram)
    | Forward
    | Administer(tables: Tables)
    | Receive(user: UserId, bytes: seq<u8>, deafened: bool, decoderReady: bool)
    | PopFrom(user: UserId, peer: UserId)

  predicate Enabled(n: Net, step: Step) {
    match step
    case SendAudio(u, _) => u in n.sessions && u in n.sockets
    case SendHeartbeat(u) => u in n.sessions && u in n.sockets
    case Foreign(d) => Decode(d.bytes).Ok? ==> Decode(d.bytes).value.userId !in n.sessions
    case Hear(d) => d in n.toServer && n.relaying == None
    case Forward => n.relaying.Some?
    case Administer(_) => true
    case Receive(u, bytes, _, _) => u in n.sessions && u in n.sockets && Datagram(n.sockets[u], bytes) in n.toClients
    case PopFrom(u, peer) => u in n.sessions && peer in n.sessions[u].remotes
  }

  function Sent(from: Addr, bytes: Option<seq<u8>>): set<Datagram> {
    match bytes
    case None => {}
    case Some(b) => {Datagram(from, b)}
  }

  ghost function Apply(n: Net, step: Step): Net
    requires Enabled(n, step)
  {
    match step
    case SendAudio(u, payload) =>
      var (s', bytes) := Transmit(n.sessions[u], payload);
      n.(sessions := n.sessions[u := s'], toServer := n.toServer + Sent(n.sockets[u], bytes))
    case SendHeartbeat(u) =>
      n.(toServer := n.toServer + Sent(n.sockets[u], Heartbeat(n.sessions[u])))
    case Foreign(d) => n.(toServer := n.toServer + {d})
    case Hear(d) => n.(tables := VoiceRelay.Hear(n.tables, d), relaying := Some(d.bytes))
    case Forward =>
      n.(relaying := None, toClients := n.toClients + VoiceRelay.Forward(n.tables, n.relaying.value))
    case Administer(t) => n.(tables := t)
    case Receive(u, bytes, deafened, ready) =>
      n.(sessions := n.sessions[u := VoiceClient.Receive(n.sessions[u], bytes, deafened, ready)])
    case PopFrom(u, peer) => n.(sessions := n.sessions[u := PopPeer(n.sessions[u], peer)])
  }

  function Init(steps: seq<Step>): seq<Step>
    requires steps != []
  {
    steps[..|steps| - 1]
  }

  function Last(steps: seq<Step>): Step
    requires steps != []
  {
    steps[|steps| - 1]
  }

  /** The steps can be taken one after another from `start`. */
  ghost predicate EnabledRun(start: Net, steps: seq<Step>)
    decreases |steps|, 0
  {
    steps == [] || (EnabledRun(start, Init(steps)) && Enabled(After(start, Init(steps)), Last(steps)))
  }

  ghost function After(start: Net, steps: seq<Step>): Net
    requires EnabledRun(start, steps)
    decreases |steps|, 1
  {
    if steps == [] then start else Apply(After(start, Init(steps)), Last(steps))
  }

  // ----- The invariant -----

  /** The sequence names a frame that was sent, and the payload is that frame's. */
  predicate IsFrame(frames: seq<Payload>, sequence: u64, payload: Payload) {
    sequence < |frames| && frames[sequence] == payload
  }

  /** A frame that is not a heartbeat. */
  predicate IsAudio(frames: seq<Payload>, sequence: u64, payload: Payload) {
    IsFrame(frames, sequence, payload) && payload != []
  }

  /** Fewer frames have been sent than there are sequence numbers. */
  predicate Countable(frames: seq<Payload>) {
    |frames| < TWO_64
  }

  /** A datagram that claims to be from a session is a heartbeat or one of its frames. */
  ghost predicate Genuine(n: Net, bytes: seq<u8>) {
    Decode(bytes).Ok? ==>
      var p := Decode(bytes).value;
      p.userId in n.sessions && Countable(n.sessions[p.userId].frames) ==>
        p.payload == [] || IsFrame(n.sessions[p.userId].frames, p.sequence, p.payload)
  }

  /** What has been reported is strictly increasing without gaps, up to the cursor, and every
      packet reported or pending is a frame that was sent. */
  ghost predicate RemoteOk(st: State, out: seq<JitterPop>, frames: seq<Payload>) {
    && (forall k :: k in st.pending ==> IsAudio(frames, k, st.pending[k]))
    && (st.nextExpected.Some? <==> out != [])
    && (forall i :: 0 <= i < |out| ==> out[i] != Empty)
    && (forall i :: 0 <= i < |out| ==> out[i].sequence == out[0].sequence + i)
    && (out != [] ==> st.nextExpected.value == out[0].sequence + |out| <= |frames|)
    && (forall i :: 0 <= i < |out| && out[i].Packet? ==> IsAudio(frames, out[i].sequence, out[i].payload))
  }

  ghost predicate PeerOk(n: Net, peer: UserId, st: State, out: seq<JitterPop>) {
    && JitterModel.Inv(st)
    && (peer in n.sessions && Countable(n.sessions[peer].frames) ==> RemoteOk(st, out, n.sessions[peer].frames))
  }

  ghost predicate SessionOk(n: Net, u: UserId)
    requires u in n.sessions
  {
    var s := n.sessions[u];
    && s.userId == u && u !in s.remotes
    && (Countable(s.frames) ==> s.sequence == |s.frames|)
    && (forall peer :: peer in s.reports ==> peer in s.remotes)
    && (forall peer :: peer in s.remotes ==> PeerOk(n, peer, s.remotes[peer], ReportsOf(s, peer)))
  }

  ghost predicate Inv(n: Net) {
    && (forall d :: d in n.toServer ==> Genuine(n, d.bytes))
    && (forall d :: d in n.toClients ==> Genuine(n, d.bytes))
    && (n.relaying.Some? ==> Genuine(n, n.relaying.value))
    && (forall u :: u in n.sessions ==> SessionOk(n, u))
  }

  // ----- Preservation -----

  lemma PushKeepsRemoteOk(st: State, out: seq<JitterPop>, frames: seq<Payload>, sequence: u64, payload: Payload)
    requires JitterModel.Inv(st) && RemoteOk(st, out, frames) && IsAudio(frames, sequence, payload)
    ensures RemoteOk(Push(st, sequence, payload), out, frames)
    ensures JitterModel.Inv(Push(st, sequence, payload))
  {
    JitterModel.StepKeepsInv(st, PushOp(sequence, payload));
    if !IsStale(st, sequence) {
      OrderedMaps.KeepLargestIsLargestPart(st.pending[sequence := payload], st.maxDepth);
    }
  }

  lemma PopKeepsRemoteOk(st: State, out: seq<JitterPop>, frames: seq<Payload>)
    requires JitterModel.Inv(st) && RemoteOk(st, out, frames) && Countable(frames)
    ensures var (st', pop) := Pop(st, false);
            JitterModel.Inv(st') && RemoteOk(st', if pop == Empty then out else out + [pop], frames)
  {
    JitterModel.StepKeepsInv(st, PopOp(false));
    var pop := Pop(st, false).1;
    if pop != Empty {
      var k := OrderedMaps.MinKey(st.pending);
      assert IsAudio(frames, k, st.pending[k]);
      assert pop.sequence <= k < |frames|;
    }
  }

  /** More frames only make more packets genuine. */
  lemma FramesOnlyGrow(n: Net, n': Net, u: UserId, payload: Payload)
    requires u in n.sessions && n'.sessions.Keys == n.sessions.Keys
    requires forall v :: v in n.sessions && v != u ==> n'.sessions[v].frames == n.sessions[v].frames
    requires n'.sessions[u].frames == n.sessions[u].frames + [payload]
    ensures forall bytes :: Genuine(n, bytes) ==> Genuine(n', bytes)
  {
    hide Decode;
  }

  lemma RemoteOkGrows(st: State, out: seq<JitterPop>, frames: seq<Payload>, payload: Payload)
    requires RemoteOk(st, out, frames)
    ensures RemoteOk(st, out, frames + [payload])
  {
  }

  lemma SendAudioKeepsInv(n: Net, step: Step)
    requires Inv(n) && Enabled(n, step) && step.SendAudio?
    ensures Inv(Apply(n, step))
  {
    hide Decode, Encode, JitterModel.Inv, RemoteOk;
    var u, n' := step.user, Apply(n, step);
    FramesOnlyGrow(n, n', u, step.payload);
    assert SessionOk(n, u);
    forall d | d in n'.toServer ensures Genuine(n', d.bytes) {
      if d !in n.toServer {
        DecodeEncode(AudioPacket(n.sessions[u], step.payload));
      }
    }
    forall v | v in n'.sessions ensures SessionOk(n', v) {
      SendAudioKeepsSession(n, step, v);
    }
  }

  lemma SendAudioKeepsSession(n: Net, step: Step, v: UserId)
    requires Inv(n) && Enabled(n, step) && step.SendAudio? && v in n.sessions
    ensures SessionOk(Apply(n, step), v)
  {
    hide Decode, Encode, JitterModel.Inv, RemoteOk, Genuine;
    var u, n' := step.user, Apply(n, step);
    assert SessionOk(n, v) && SessionOk(n, u);
    var s := n'.sessions[v];
    forall peer | peer in s.remotes ensures PeerOk(n', peer, s.remotes[peer], ReportsOf(s, peer)) {
      assert PeerOk(n, peer, s.remotes[peer], ReportsOf(s, peer));
      if peer == u && Countable(n'.sessions[u].frames) {
        RemoteOkGrows(s.remotes[peer], ReportsOf(s, peer), n.sessions[u].frames, step.payload);
      }
    }
  }

  lemma HeartbeatKeepsInv(n: Net, step: Step)
    requires Inv(n) && Enabled(n, step) && step.SendHeartbeat?
    ensures Inv(Apply(n, step))
  {
    hide Decode, Encode, JitterModel.Inv, RemoteOk;
    var n' := Apply(n, step);
    DecodeEncode(HeartbeatPacket(n.sessions[step.user]));
    assert SessionOk(n, step.user);
    forall v | v in n'.sessions ensures SessionOk(n', v) { assert SessionOk(n, v); }
    forall d | d in n'.toServer ensures Genuine(n', d.bytes) {
      if d in n.toServer { assert Genuine(n, d.bytes); }
    }
    forall d | d in n'.toClients ensures Genuine(n', d.bytes) { assert Genuine(n, d.bytes); }
  }

  lemma NetworkKeepsInv(n: Net, step: Step)
    requires Inv(n) && Enabled(n, step) && (step.Foreign? || step.Hear? || step.Forward? || step.Administer?)
    ensures Inv(Apply(n, step))
  {
    hide Decode, JitterModel.Inv, RemoteOk, VoiceTargets, VoiceRelay.Hear;
    var n' := Apply(n, step);
    forall v | v in n'.sessions ensures SessionOk(n', v) { assert SessionOk(n, v); }
    forall d | d in n'.toServer ensures Genuine(n', d.bytes) {
      if d in n.toServer { assert Genuine(n, d.bytes); }
    }
    forall d | d in n'.toClients ensures Genuine(n', d.bytes) {
      if d in n.toClients { assert Genuine(n, d.bytes); } else { assert d.bytes == n.relaying.value; }
    }
  }

  lemma SameFramesSamePeers(n: Net, n': Net, v: UserId)
    requires v in n.sessions && n'.sessions.Keys == n.sessions.Keys && n'.sessions[v] == n.sessions[v]
    requires forall w :: w in n.sessions ==> n'.sessions[w].frames == n.sessions[w].frames
    requires SessionOk(n, v)
    ensures SessionOk(n', v)
  {
    hide JitterModel.Inv, RemoteOk;
    var s := n.sessions[v];
    forall peer | peer in s.remotes ensures PeerOk(n', peer, s.remotes[peer], ReportsOf(s, peer)) {
      assert PeerOk(n, peer, s.remotes[peer], ReportsOf(s, peer));
    }
  }

  /** A step that only touches the buffer one session keeps for one peer. */
  lemma OnePeerKeepsInv(n: Net, n': Net, u: UserId, peer: UserId, st: State, out: seq<JitterPop>)
    requires Inv(n) && u in n.sessions && peer != u
    requires n'.toServer == n.toServer && n'.toClients == n.toClients && n'.relaying == n.relaying
    requires n'.sessions == n.sessions[u := DrainPeer(n.sessions[u], peer, st, out)]
    requires PeerOk(n, peer, st, ReportsOf(n.sessions[u], peer) + out)
    ensures Inv(n')
  {
    hide Decode, JitterModel.Inv, RemoteOk, PeerOk;
    assert SessionOk(n, u);
    assert forall w :: w in n.sessions ==> n'.sessions[w].frames == n.sessions[w].frames;
    OnePeerKeepsSession(n, n', u, peer, st, out);
    forall v | v in n'.sessions ensures SessionOk(n', v) {
      if v != u { SameFramesSamePeers(n, n', v); }
    }
    forall d | d in n'.toServer ensures Genuine(n', d.bytes) { assert Genuine(n, d.bytes); }
    forall d | d in n'.toClients ensures Genuine(n', d.bytes) { assert Genuine(n, d.bytes); }
  }

  lemma OnePeerKeepsSession(n: Net, n': Net, u: UserId, peer: UserId, st: State, out: seq<JitterPop>)
    requires u in n.sessions && SessionOk(n, u) && peer != u
    requires n'.sessions == n.sessions[u := DrainPeer(n.sessions[u], peer, st, out)]
    requires PeerOk(n, peer, st, ReportsOf(n.sessions[u], peer) + out)
    ensures SessionOk(n', u)
  {
    hide JitterModel.Inv, RemoteOk;
    var s, s' := n.sessions[u], n'.sessions[u];
    assert ReportsOf(s', peer) == ReportsOf(s, peer) + out;
    forall q | q in s'.remotes ensures PeerOk(n', q, s'.remotes[q], ReportsOf(s', q)) {
      if q == peer {
        assert PeerOk(n, peer, st, ReportsOf(s', peer));
      } else {
        assert PeerOk(n, q, s.remotes[q], ReportsOf(s, q));
      }
    }
  }

  lemma ReceiveKeepsInv(n: Net, step: Step)
    requires Inv(n) && Enabled(n, step) && step.Receive?
    ensures Inv(Apply(n, step))
  {
    hide Decode, JitterModel.Inv, RemoteOk, Push, New, Genuine;
    var u := step.user;
    var s := n.sessions[u];
    assert SessionOk(n, u);
    assert n.sessions[u := s] == n.sessions;
    match Accepted(s, step.bytes, step.deafened)
    case None =>
    case Some(p) =>
      var before := if p.userId in s.remotes then s.remotes[p.userId] else New(JITTER_TARGET_DEPTH, JITTER_MAX_DEPTH);
      if p.userId in s.remotes || step.decoderReady {
        AcceptedIsAudio(n, step, p);
        NewRemoteOk(p, n);
        AcceptedPush(n, before, ReportsOf(s, p.userId), p);
        assert ReportsOf(s, p.userId) + [] == ReportsOf(s, p.userId);
        assert Apply(n, step).sessions[u].remotes == s.remotes[p.userId := Push(before, p.sequence, p.payload)];
        OnePeerKeepsInv(n, Apply(n, step), u, p.userId, Push(before, p.sequence, p.payload), []);
      }
  }

  lemma AcceptedIsAudio(n: Net, step: Step, p: VoicePacket)
    requires Inv(n) && Enabled(n, step) && step.Receive?
    requires Accepted(n.sessions[step.user], step.bytes, step.deafened) == Some(p)
    ensures p.userId != step.user && p.payload != []
    ensures p.userId in n.sessions && Countable(n.sessions[p.userId].frames) ==>
              IsAudio(n.sessions[p.userId].frames, p.sequence, p.payload)
  {
    hide Decode, RemoteOk, JitterModel.Inv;
    assert SessionOk(n, step.user) && Genuine(n, step.bytes);
  }

  lemma NewRemoteOk(p: VoicePacket, n: Net)
    ensures PeerOk(n, p.userId, New(JITTER_TARGET_DEPTH, JITTER_MAX_DEPTH), [])
  {
  }

  lemma AcceptedPush(n: Net, st: State, out: seq<JitterPop>, p: VoicePacket)
    requires PeerOk(n, p.userId, st, out)
    requires p.userId in n.sessions && Countable(n.sessions[p.userId].frames) ==>
               IsAudio(n.sessions[p.userId].frames, p.sequence, p.payload)
    ensures PeerOk(n, p.userId, Push(st, p.sequence, p.payload), out)
  {
    hide RemoteOk, IsAudio;
    JitterModel.StepKeepsInv(st, PushOp(p.sequence, p.payload));
    if p.userId in n.sessions && Countable(n.sessions[p.userId].frames) {
      PushKeepsRemoteOk(st, out, n.sessions[p.userId].frames, p.sequence, p.payload);
    }
  }

  lemma PopKeepsInv(n: Net, step: Step)
    requires Inv(n) && Enabled(n, step) && step.PopFrom?
    ensures Inv(Apply(n, step))
  {
    hide JitterModel.Inv, RemoteOk, Pop, Genuine;
    var u, peer := step.user, step.peer;
    var s := n.sessions[u];
    assert SessionOk(n, u);
    var (st, pop) := Pop(s.remotes[peer], false);
    var out := if pop == Empty then [] else [pop];
    StepKeepsInvAtPop(s.remotes[peer]);
    assert ReportsOf(s, peer) + [] == ReportsOf(s, peer);
    if peer in n.sessions && Countable(n.sessions[peer].frames) {
      PopKeepsRemoteOk(s.remotes[peer], ReportsOf(s, peer), n.sessions[peer].frames);
    }
    OnePeerKeepsInv(n, Apply(n, step), u, peer, st, out);
  }

  lemma StepKeepsInvAtPop(st: State)
    requires JitterModel.Inv(st)
    ensures JitterModel.Inv(Pop(st, false).0)
  {
    JitterModel.StepKeepsInv(st, PopOp(false));
  }

  lemma StepKeepsInv(n: Net, step: Step)
    requires Inv(n) && Enabled(n, step)
    ensures Inv(Apply(n, step))
  {
    hide Inv, Apply, Enabled;
    match step
    case SendAudio(_, _) => SendAudioKeepsInv(n, step);
    case SendHeartbeat(_) => HeartbeatKeepsInv(n, step);
    case Receive(_, _, _, _) => ReceiveKeepsInv(n, step);
    case PopFrom(_, _) => PopKeepsInv(n, step);
    case _ => NetworkKeepsInv(n, step);
  }

  lemma {:induction false} RunKeepsInv(start: Net, steps: seq<Step>)
    requires Inv(start) && EnabledRun(start, steps)
    ensures Inv(After(start, steps))
    decreases |steps|
  {
    hide Inv, Apply, Enabled;
    if steps == [] {
      assert After(start, steps) == start;
    } else {
      RunKeepsInv(start, Init(steps));
      StepKeepsInv(After(start, Init(steps)), Last(steps));
    }
  }

  // ----- Main result -----

  /** For every run of the network and every pair of sessions whose sender has sent fewer than
      2^64 frames: what the receiver's buffer reports for the sender is strictly increasing and
      without gaps, every sequence reported was sent, and every packet reported carries exactly
      the payload that was encoded for its sequence; heartbeats are never played, and a session
      never plays itself. */
  lemma PlayedFramesWereSent(members: map<UserId, Member>, steps: seq<Step>, receiver: UserId, sender: UserId)
    requires EnabledRun(NewNet(members), steps)
    requires receiver in After(NewNet(members), steps).sessions
    requires sender in After(NewNet(members), steps).sessions
    requires |After(NewNet(members), steps).sessions[sender].frames| < TWO_64
    ensures var n := After(NewNet(members), steps);
            var out, frames := ReportsOf(n.sessions[receiver], sender), n.sessions[sender].frames;
            && (forall i, j :: 0 <= i < j < |out| ==>
                  out[i] != Empty && out[j] != Empty && out[i].sequence < out[j].sequence)
            && (forall i :: 0 <= i < |out| ==>
                  out[i] != Empty && out[i].sequence == out[0].sequence + i < |frames|)
            && (forall i :: 0 <= i < |out| && out[i].Packet? ==>
                  out[i].payload == frames[out[i].sequence] && out[i].payload != [])
            && (receiver == sender ==> out == [])
  {
    hide Apply, Enabled, EnabledRun, After;
    var start := NewNet(members);
    assert Inv(start);
    RunKeepsInv(start, steps);
    var n := After(start, steps);
    assert SessionOk(n, receiver);
  }
}
