/** Where the packets a receiver reports come from: every one of them was forwarded to the
    receiver's socket when a member of the packet's room was known there. */
module VoiceConfinement {
  import opened Prelude
  import OrderedMaps
  import opened JitterModel
  import opened VoicePackets
  import opened VoiceClient
  import opened ServerTables
  import opened VoiceRelay
  import opened VoiceProtocol

  // ----- From the report back to the datagram -----

  predicate Carries(bytes: seq<u8>, peer: UserId, sequence: u64, payload: Payload) {
    && Decode(bytes).Ok?
    && Decode(bytes).value.userId == peer
    && Decode(bytes).value.sequence == sequence
    && Decode(bytes).value.payload == payload
  }

  /** Such a packet was sent to the socket. */
  ghost predicate Arrived(sent: set<Datagram>, socket: Addr, peer: UserId, sequence: u64, payload: Payload) {
    exists bytes :: Datagram(socket, bytes) in sent && Carries(bytes, peer, sequence, payload)
  }

  ghost predicate BufferTraced(sent: set<Datagram>, socket: Addr, peer: UserId, st: State, out: seq<JitterPop>) {
    && (forall k :: k in st.pending ==> Arrived(sent, socket, peer, k, st.pending[k]))
    && (forall i :: 0 <= i < |out| && out[i].Packet? ==> Arrived(sent, socket, peer, out[i].sequence, out[i].payload))
  }

  ghost predicate SessionTraced(sent: set<Datagram>, socket: Addr, s: Session) {
    && (forall peer :: peer in s.reports ==> peer in s.remotes)
    && (forall peer :: peer in s.remotes ==> BufferTraced(sent, socket, peer, s.remotes[peer], ReportsOf(s, peer)))
  }

  ghost predicate Traced(n: Net) {
    && n.sessions.Keys <= n.sockets.Keys
    && (forall u :: u in n.sessions ==> SessionTraced(n.toClients, n.sockets[u], n.sessions[u]))
  }

  lemma MoreSent(sent: set<Datagram>, more: set<Datagram>, socket: Addr, s: Session)
    requires SessionTraced(sent, socket, s)
    ensures SessionTraced(sent + more, socket, s)
  {
    hide Carries;
    forall peer | peer in s.remotes
      ensures BufferTraced(sent + more, socket, peer, s.remotes[peer], ReportsOf(s, peer))
    {
      MoreArrived(sent, more, socket, peer);
      assert BufferTraced(sent, socket, peer, s.remotes[peer], ReportsOf(s, peer));
    }
  }

  lemma MoreArrived(sent: set<Datagram>, more: set<Datagram>, socket: Addr, peer: UserId)
    ensures forall k, p :: Arrived(sent, socket, peer, k, p) ==> Arrived(sent + more, socket, peer, k, p)
  {
    hide Carries;
  }

  lemma PushTraced(sent: set<Datagram>, socket: Addr, bytes: seq<u8>, st: State, out: seq<JitterPop>, p: VoicePacket)
    requires BufferTraced(sent, socket, p.userId, st, out)
    requires Datagram(socket, bytes) in sent && Decode(bytes) == Ok(p)
    ensures BufferTraced(sent, socket, p.userId, Push(st, p.sequence, p.payload), out)
  {
    hide Decode, Arrived;
    assert Arrived(sent, socket, p.userId, p.sequence, p.payload) by { ArrivedNow(sent, socket, bytes, p); }
    if !IsStale(st, p.sequence) {
      OrderedMaps.KeepLargestIsLargestPart(st.pending[p.sequence := p.payload], st.maxDepth);
    }
  }

  lemma ArrivedNow(sent: set<Datagram>, socket: Addr, bytes: seq<u8>, p: VoicePacket)
    requires Datagram(socket, bytes) in sent && Decode(bytes) == Ok(p)
    ensures Arrived(sent, socket, p.userId, p.sequence, p.payload)
  {
    hide Decode;
    assert Carries(bytes, p.userId, p.sequence, p.payload);
  }

  lemma PopTraced(sent: set<Datagram>, socket: Addr, peer: UserId, st: State, out: seq<JitterPop>)
    requires BufferTraced(sent, socket, peer, st, out)
    ensures var (st', pop) := Pop(st, false);
            BufferTraced(sent, socket, peer, st', if pop == Empty then out else out + [pop])
  {
    hide Arrived;
  }

  lemma ReceiveTraced(sent: set<Datagram>, socket: Addr, s: Session, bytes: seq<u8>, deafened: bool, ready: bool)
    requires SessionTraced(sent, socket, s) && Datagram(socket, bytes) in sent
    ensures SessionTraced(sent, socket, VoiceClient.Receive(s, bytes, deafened, ready))
  {
    hide Decode, BufferTraced, Push, New;
    match Accepted(s, bytes, deafened)
    case None =>
    case Some(p) =>
      if p.userId in s.remotes {
        PushTraced(sent, socket, bytes, s.remotes[p.userId], ReportsOf(s, p.userId), p);
      } else {
        NewTraced(sent, socket, p.userId);
        PushTraced(sent, socket, bytes, New(JITTER_TARGET_DEPTH, JITTER_MAX_DEPTH), [], p);
      }
  }

  lemma NewTraced(sent: set<Datagram>, socket: Addr, peer: UserId)
    ensures BufferTraced(sent, socket, peer, New(JITTER_TARGET_DEPTH, JITTER_MAX_DEPTH), [])
  {
  }

  lemma PopPeerTraced(sent: set<Datagram>, socket: Addr, s: Session, peer: UserId)
    requires SessionTraced(sent, socket, s) && peer in s.remotes
    ensures SessionTraced(sent, socket, PopPeer(s, peer))
  {
    hide BufferTraced, Pop;
    PopTraced(sent, socket, peer, s.remotes[peer], ReportsOf(s, peer));
    var s' := PopPeer(s, peer);
    forall q | q in s'.remotes ensures BufferTraced(sent, socket, q, s'.remotes[q], ReportsOf(s', q)) {
      if q != peer { assert BufferTraced(sent, socket, q, s.remotes[q], ReportsOf(s, q)); }
    }
  }

  lemma StepKeepsTraced(n: Net, step: VoiceProtocol.Step)
    requires Traced(n) && Enabled(n, step)
    ensures Traced(Apply(n, step))
  {
    hide BufferTraced, Decode, Encode, VoiceRelay.Hear, VoiceRelay.Forward, VoiceClient.Receive, PopPeer;
    var n' := Apply(n, step);
    forall u | u in n'.sessions ensures SessionTraced(n'.toClients, n'.sockets[u], n'.sessions[u]) {
      var s := n.sessions[u];
      assert SessionTraced(n.toClients, n.sockets[u], s);
      match step
      case Receive(v, bytes, deafened, ready) =>
        if v == u { ReceiveTraced(n.toClients, n.sockets[u], s, bytes, deafened, ready); }
      case PopFrom(v, peer) =>
        if v == u { PopPeerTraced(n.toClients, n.sockets[u], s, peer); }
      case Forward =>
        MoreSent(n.toClients, VoiceRelay.Forward(n.tables, n.relaying.value), n.sockets[u], s);
      case _ =>
    }
  }

  // ----- From the datagram back to the relay -----

  /** Step `k` forwards the bytes to this address. */
  ghost predicate ForwardsAt(start: Net, steps: seq<VoiceProtocol.Step>, k: nat, d: Datagram) {
    && k < |steps| && EnabledRun(start, steps[..k]) && Enabled(After(start, steps[..k]), steps[k])
    && steps[k] == Forward
    && After(start, steps[..k]).relaying == Some(d.bytes)
    && d in VoiceRelay.Forward(After(start, steps[..k]).tables, d.bytes)
  }

  lemma {:induction false} SentWasForwarded(start: Net, steps: seq<VoiceProtocol.Step>, d: Datagram)
    requires EnabledRun(start, steps) && start.toClients == {} && d in After(start, steps).toClients
    ensures exists k: nat :: ForwardsAt(start, steps, k, d)
    decreases |steps|
  {
    hide VoiceRelay.Forward, VoiceRelay.Hear, Decode, Encode, VoiceClient.Receive, PopPeer;
    if steps == [] {
      assert false;
    } else {
      var before := Init(steps);
      var n := After(start, before);
      assert steps[..|steps| - 1] == before;
      if d in n.toClients {
        SentWasForwarded(start, before, d);
        var k: nat :| ForwardsAt(start, before, k, d);
        assert before[..k] == steps[..k];
        assert ForwardsAt(start, steps, k, d);
      } else {
        ForwardedBytes(n.tables, n.relaying.value, d);
        assert ForwardsAt(start, steps, |steps| - 1, d);
      }
    }
  }

  lemma ForwardedBytes(t: Tables, bytes: seq<u8>, d: Datagram)
    requires d in VoiceRelay.Forward(t, bytes)
    ensures d.bytes == bytes
  {
    hide Decode, VoiceTargets;
  }

  lemma {:induction false} RunKeepsTraced(start: Net, steps: seq<VoiceProtocol.Step>)
    requires Traced(start) && EnabledRun(start, steps)
    ensures Traced(After(start, steps)) && After(start, steps).sockets == start.sockets
    decreases |steps|
  {
    hide Traced, Enabled, VoiceRelay.Hear, VoiceRelay.Forward, VoiceClient.Receive, PopPeer, Encode, Decode;
    if steps == [] {
      assert After(start, steps) == start;
    } else {
      RunKeepsTraced(start, Init(steps));
      StepKeepsTraced(After(start, Init(steps)), Last(steps));
    }
  }

  // ----- Main result -----

  /** When the relay forwarded packet `p` to the socket, a member of the packet's room other than
      its sender was known there; if nobody but `receiver` was, that member is the receiver. */
  ghost predicate ReachedMember(t: Tables, socket: Addr, p: VoicePacket, receiver: UserId) {
    && p.roomId in t.voiceRooms
    && (exists m :: m in t.voiceRooms[p.roomId] && m != p.userId && m in t.voiceAddrs && t.voiceAddrs[m] == socket)
    && ((forall m :: m in t.voiceAddrs && t.voiceAddrs[m] == socket ==> m == receiver) ==>
          receiver in t.voiceRooms[p.roomId] && receiver in t.voiceAddrs)
  }

  lemma ForwardReachesMember(t: Tables, d: Datagram, receiver: UserId)
    requires d in VoiceRelay.Forward(t, d.bytes)
    ensures Decode(d.bytes).Ok? && ReachedMember(t, d.addr, Decode(d.bytes).value, receiver)
  {
    hide Decode;
    var p := Decode(d.bytes).value;
    var targets := VoiceTargets(t, p.roomId, p.userId);
    var m :| m in targets && d == Datagram(targets[m], d.bytes);
    assert m in t.voiceRooms[p.roomId] && m != p.userId && m in t.voiceAddrs && t.voiceAddrs[m] == d.addr;
  }

  /** Step `k` forwards packet `p` to the receiver's socket while a member of its room is there. */
  ghost predicate RelayedToMember(members: map<UserId, Member>, steps: seq<VoiceProtocol.Step>, k: nat,
                                  receiver: UserId, bytes: seq<u8>)
    requires receiver in members
  {
    && ForwardsAt(NewNet(members), steps, k, Datagram(members[receiver].socket, bytes))
    && Decode(bytes).Ok?
    && ReachedMember(After(NewNet(members), steps[..k]).tables, members[receiver].socket, Decode(bytes).value, receiver)
  }

  /** In every run of the network, every packet a receiver reports for anybody was forwarded to it
      by the relay at a moment when a member of the room named in the packet, other than its
      sender, was known at the receiver's socket; if nobody else was known there, when the receiver
      itself was a member. */
  lemma ReportsStayInTheRoom(members: map<UserId, Member>, steps: seq<VoiceProtocol.Step>, receiver: UserId,
                             sender: UserId, i: nat)
    requires EnabledRun(NewNet(members), steps) && receiver in members
    requires receiver in After(NewNet(members), steps).sessions
    requires i < |ReportsOf(After(NewNet(members), steps).sessions[receiver], sender)|
    requires ReportsOf(After(NewNet(members), steps).sessions[receiver], sender)[i].Packet?
    ensures var pop := ReportsOf(After(NewNet(members), steps).sessions[receiver], sender)[i];
            exists k: nat, bytes :: && RelayedToMember(members, steps, k, receiver, bytes)
                                    && Carries(bytes, sender, pop.sequence, pop.payload)
  {
    hide Apply, Enabled, EnabledRun, After, Carries, ForwardsAt, ReachedMember;
    var start := NewNet(members);
    var n := After(start, steps);
    RunKeepsTraced(start, steps);
    var pop := ReportsOf(n.sessions[receiver], sender)[i];
    assert SessionTraced(n.toClients, members[receiver].socket, n.sessions[receiver]);
    assert Arrived(n.toClients, members[receiver].socket, sender, pop.sequence, pop.payload);
    var bytes :| && Datagram(members[receiver].socket, bytes) in n.toClients
                 && Carries(bytes, sender, pop.sequence, pop.payload);
    var d := Datagram(members[receiver].socket, bytes);
    SentWasForwarded(start, steps, d);
    var k: nat :| ForwardsAt(start, steps, k, d);
    ForwardedToMember(members, steps, k, receiver, bytes);
  }

  lemma ForwardedToMember(members: map<UserId, Member>, steps: seq<VoiceProtocol.Step>, k: nat, receiver: UserId,
                          bytes: seq<u8>)
    requires receiver in members
    requires ForwardsAt(NewNet(members), steps, k, Datagram(members[receiver].socket, bytes))
    ensures RelayedToMember(members, steps, k, receiver, bytes)
  {
    hide Apply, Enabled, EnabledRun, After, Decode, VoiceRelay.Forward, ReachedMember;
    var d := Datagram(members[receiver].socket, bytes);
    ForwardReachesMember(After(NewNet(members), steps[..k]).tables, d, receiver);
  }
}
