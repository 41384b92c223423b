/** The server's voice relay: what one received datagram does. */
module VoiceRelay {
  import opened Prelude
  import opened ServerTables
  import opened InnerStates
  import opened VoicePackets
  import opened VoicePacketCodec

  /** Datagrams to the server carry where they came from, those from it where they go. */
  datatype Datagram = Datagram(addr: Addr, bytes: seq<u8>)

  /** The first critical section: the sender's address is remembered. */
  function Hear(t: Tables, d: Datagram): Tables {
    match Decode(d.bytes)
    case Err(_) => t
    case Ok(p) => RememberVoiceAddr(t, p.userId, d.addr)
  }

  /** The second: the bytes go out unchanged to every other member of the packet's room whose
      address is known by then; what does not decode is dropped. */
  function Forward(t: Tables, bytes: seq<u8>): set<Datagram> {
    match Decode(bytes)
    case Err(_) => {}
    case Ok(p) =>
      var targets := VoiceTargets(t, p.roomId, p.userId);
      set m | m in targets :: Datagram(targets[m], bytes)
  }

  method HearDatagram(state: InnerState, from: Addr, bytes: seq<u8>) returns (r: Result<VoicePacket, Error>)
    requires state.Valid()
    modifies state
    ensures state.Valid()
    ensures state.Model() == Hear(old(state.Model()), Datagram(from, bytes))
    ensures r == Decode(bytes)
  {
    hide Decode, DoAll;
    r := DecodeVoicePacket(bytes);
    if r.Ok? {
      state.RememberVoiceAddr(r.value.userId, from);
    }
  }

  /** Other tasks may have changed the tables since the packet was heard. */
  method ForwardTargets(state: InnerState, packet: VoicePacket, bytes: seq<u8>) returns (targets: seq<Addr>)
    requires Decode(bytes) == Ok(packet)
    ensures (set i | 0 <= i < |targets| :: Datagram(targets[i], bytes)) == Forward(state.Model(), bytes)
  {
    hide Decode;
    targets := state.VoiceTargets(packet.roomId, packet.userId);
    ghost var expected := VoiceTargets(state.Model(), packet.roomId, packet.userId);
    ghost var members :| ListsTargets(members, targets, expected);
    ghost var sent := set i | 0 <= i < |targets| :: Datagram(targets[i], bytes);
    forall m | m in expected ensures Datagram(expected[m], bytes) in sent {
      var i :| 0 <= i < |members| && members[i] == m;
      assert targets[i] == expected[m];
    }
  }

  /** One turn of the relay's loop when no other task comes in between. */
  method RelayDatagram(state: InnerState, from: Addr, bytes: seq<u8>) returns (targets: seq<Addr>)
    requires state.Valid()
    modifies state
    ensures state.Valid()
    ensures state.Model() == Hear(old(state.Model()), Datagram(from, bytes))
    ensures (set i | 0 <= i < |targets| :: Datagram(targets[i], bytes)) == Forward(state.Model(), bytes)
  {
    hide Decode, DoAll, Hear;
    var decoded := HearDatagram(state, from, bytes);
    if decoded.Err? {
      return [];
    }
    targets := ForwardTargets(state, decoded.value, bytes);
  }
}
