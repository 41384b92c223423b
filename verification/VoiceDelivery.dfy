/** What a sender puts on the wire, who the relay sends it to, and what a listener does with it. */
module VoiceDelivery {
  import opened Prelude
  import opened JitterModel
  import JitterRuns
  import opened VoicePackets
  import opened VoiceClient
  import opened ServerTables
  import opened VoiceRelay
  import opened VoiceProtocol
  import Utf8

  // ----- The sender -----

  /** The payloads `u` has sent, oldest first. */
  function SentBy(steps: seq<VoiceProtocol.Step>, u: UserId): seq<Payload>
    decreases |steps|
  {
    if steps == [] then []
    else SentBy(Init(steps), u) + if Last(steps).SendAudio? && Last(steps).user == u then [Last(steps).payload] else []
  }

  /** A session keeps its user, room and socket, and counts the frames it has sent modulo 2^64. */
  ghost predicate SenderIs(n: Net, u: UserId, room: RoomId, socket: Addr, sent: seq<Payload>) {
    && u in n.sessions && u in n.sockets && n.sockets[u] == socket
    && n.sessions[u].userId == u && n.sessions[u].roomId == room
    && n.sessions[u].frames == sent && n.sessions[u].sequence == |sent| % TWO_64
  }

  lemma {:induction false} SenderFollowsSends(members: map<UserId, Member>, steps: seq<VoiceProtocol.Step>, u: UserId)
    requires EnabledRun(NewNet(members), steps) && u in members
    ensures SenderIs(After(NewNet(members), steps), u, members[u].room, members[u].socket, SentBy(steps, u))
    decreases |steps|
  {
    hide VoiceProtocol.Apply, Enabled, SenderIs;
    if steps == [] {
      NewSenderIs(members, u);
    } else {
      SenderFollowsSends(members, Init(steps), u);
      StepKeepsSender(After(NewNet(members), Init(steps)), Last(steps), u, members[u].room, members[u].socket,
                      SentBy(Init(steps), u));
    }
  }

  lemma NewSenderIs(members: map<UserId, Member>, u: UserId)
    requires u in members
    ensures SenderIs(NewNet(members), u, members[u].room, members[u].socket, [])
  {
  }

  lemma StepKeepsSender(n: Net, step: VoiceProtocol.Step, u: UserId, room: RoomId, socket: Addr, sent: seq<Payload>)
    requires SenderIs(n, u, room, socket, sent) && Enabled(n, step)
    ensures SenderIs(VoiceProtocol.Apply(n, step), u, room, socket,
                     sent + if step.SendAudio? && step.user == u then [step.payload] else [])
  {
    hide Decode, Encode, Push, New, Pop;
    JitterRuns.SuccIsModular(|sent|);
    assert sent + [] == sent;
  }

  // ----- From the sender to the members of its room -----

  /** Taken at `n`, the step puts `d` on the wire; when the relay has heard and forwarded it, every
      other member of the room that had an address has been sent the same bytes there, and the
      sender is known at the address it sent from. */
  ghost predicate ReachesRoom(n: Net, step: VoiceProtocol.Step, d: Datagram, u: UserId, room: RoomId) {
    && Enabled(n, step)
    && var sent := VoiceProtocol.Apply(n, step);
       && Enabled(sent, VoiceProtocol.Hear(d))
       && var heard := VoiceProtocol.Apply(sent, VoiceProtocol.Hear(d));
          && Enabled(heard, VoiceProtocol.Forward)
          && var done := VoiceProtocol.Apply(heard, VoiceProtocol.Forward);
             && u in done.tables.voiceAddrs && done.tables.voiceAddrs[u] == d.addr
             && (forall m :: room in n.tables.voiceRooms && m in n.tables.voiceRooms[room] && m != u
                             && m in n.tables.voiceAddrs ==>
                   Datagram(n.tables.voiceAddrs[m], d.bytes) in done.toClients)
  }

  lemma RelayReachesRoom(n: Net, step: VoiceProtocol.Step, d: Datagram, p: VoicePacket)
    requires Enabled(n, step) && n.relaying == None && Decode(d.bytes) == Ok(p)
    requires var sent := VoiceProtocol.Apply(n, step);
             d in sent.toServer && sent.relaying == None && sent.tables == n.tables
    ensures ReachesRoom(n, step, d, p.userId, p.roomId)
  {
    hide Decode, Encode, VoiceProtocol.Apply;
    var sent := VoiceProtocol.Apply(n, step);
    HearEffect(sent, d, p);
    var heard := VoiceProtocol.Apply(sent, VoiceProtocol.Hear(d));
    ForwardEffect(heard, d.bytes, p);
  }

  lemma HearEffect(n: Net, d: Datagram, p: VoicePacket)
    requires d in n.toServer && n.relaying == None && Decode(d.bytes) == Ok(p)
    ensures var step := VoiceProtocol.Hear(d);
            && Enabled(n, step)
            && VoiceProtocol.Apply(n, step).relaying == Some(d.bytes)
            && VoiceProtocol.Apply(n, step).tables == n.tables.(voiceAddrs := n.tables.voiceAddrs[p.userId := d.addr])
  {
    hide Decode;
  }

  lemma ForwardEffect(n: Net, bytes: seq<u8>, p: VoicePacket)
    requires n.relaying == Some(bytes) && Decode(bytes) == Ok(p)
    ensures Enabled(n, VoiceProtocol.Forward)
    ensures var n' := VoiceProtocol.Apply(n, VoiceProtocol.Forward);
            && n'.tables == n.tables
            && (forall m :: p.roomId in n.tables.voiceRooms && m in n.tables.voiceRooms[p.roomId] && m != p.userId
                            && m in n.tables.voiceAddrs ==>
                  Datagram(n.tables.voiceAddrs[m], bytes) in n'.toClients)
  {
    hide Decode;
    var targets := VoiceTargets(n.tables, p.roomId, p.userId);
    var n' := VoiceProtocol.Apply(n, VoiceProtocol.Forward);
    forall m | p.roomId in n.tables.voiceRooms && m in n.tables.voiceRooms[p.roomId] && m != p.userId
               && m in n.tables.voiceAddrs
      ensures Datagram(n.tables.voiceAddrs[m], bytes) in n'.toClients
    {
      assert m in targets && targets[m] == n.tables.voiceAddrs[m];
    }
  }

  /** The names fit their length fields. */
  predicate NamesFit(u: UserId, room: RoomId) {
    |Utf8.Encode(u)| < 0x1_0000 && |Utf8.Encode(room)| < 0x1_0000
  }

  /** In every reachable state, what a session sends as audio is a packet with its own id and room,
      the number of frames it has sent before, 20 ms of mono opus at 48 kHz and exactly the
      payload, and the relay brings it to every other member of that room. */
  lemma AudioReachesRoom(members: map<UserId, Member>, steps: seq<VoiceProtocol.Step>, u: UserId, payload: Payload)
    returns (bytes: seq<u8>)
    requires EnabledRun(NewNet(members), steps) && u in members
    requires After(NewNet(members), steps).relaying == None
    requires NamesFit(u, members[u].room) && |payload| < 0x1_0000_0000
    ensures Decode(bytes) ==
              Ok(VoicePacket(u, members[u].room, |SentBy(steps, u)| % TWO_64, 48000, 1, "opus", 960, payload))
    ensures ReachesRoom(After(NewNet(members), steps), SendAudio(u, payload), Datagram(members[u].socket, bytes), u,
                        members[u].room)
  {
    hide Decode, Encode, EnabledRun, After, ReachesRoom;
    var n := After(NewNet(members), steps);
    SenderFollowsSends(members, steps, u);
    var p := AudioPacket(n.sessions[u], payload);
    DecodeEncode(p);
    bytes := Encode(p).value;
    RelayReachesRoom(n, SendAudio(u, payload), Datagram(members[u].socket, bytes), p);
  }

  /** A heartbeat is a packet with the session's id and room, the number of frames sent so far, no
      samples and no payload; it reaches the room and uses up no number. */
  lemma HeartbeatReachesRoom(members: map<UserId, Member>, steps: seq<VoiceProtocol.Step>, u: UserId)
    returns (bytes: seq<u8>)
    requires EnabledRun(NewNet(members), steps) && u in members
    requires After(NewNet(members), steps).relaying == None
    requires NamesFit(u, members[u].room)
    ensures Decode(bytes) == Ok(VoicePacket(u, members[u].room, |SentBy(steps, u)| % TWO_64, 48000, 1, "opus", 0, []))
    ensures ReachesRoom(After(NewNet(members), steps), SendHeartbeat(u), Datagram(members[u].socket, bytes), u,
                        members[u].room)
  {
    hide Decode, Encode, EnabledRun, After, ReachesRoom;
    var n := After(NewNet(members), steps);
    SenderFollowsSends(members, steps, u);
    var p := HeartbeatPacket(n.sessions[u]);
    DecodeEncode(p);
    bytes := Encode(p).value;
    RelayReachesRoom(n, SendHeartbeat(u), Datagram(members[u].socket, bytes), p);
  }

  // ----- The listener -----

  /** Audio of another user in the common codec is put into that user's buffer, a new one with a
      pre-roll of 3 and a cap of 20 if this is the first, whenever the listener is not deafened and
      knows the user or has a decoder for it; anything else changes nothing. */
  lemma AudioIsPushed(s: Session, bytes: seq<u8>, deafened: bool, decoderReady: bool)
    ensures var s' := VoiceClient.Receive(s, bytes, deafened, decoderReady);
            if Decode(bytes).Ok? && Decode(bytes).value.userId != s.userId && Decode(bytes).value.payload != []
               && Decode(bytes).value.codec == "opus" && !deafened
               && (Decode(bytes).value.userId in s.remotes || decoderReady)
            then var p := Decode(bytes).value;
                 && p.userId in s'.remotes
                 && s'.remotes[p.userId] ==
                      Push(if p.userId in s.remotes then s.remotes[p.userId] else State(3, 20, None, map[], false),
                           p.sequence, p.payload)
                 && s'.(remotes := map[]) == s.(remotes := map[])
                 && s'.remotes - {p.userId} == s.remotes - {p.userId}
            else s' == s
  {
    hide Decode, Push;
  }
}
