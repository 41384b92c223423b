/** The voice worker as the mutable object its thread owns, with one jitter buffer per remote
    user, proved to take the steps of VoiceClient. */
module VoiceWorkers {
  import opened Prelude
  import opened JitterModel
  import opened JitterRuns
  import opened JitterBuffers
  import opened VoicePackets
  import opened VoicePacketCodec
  import VoiceClient

  /** Nothing has happened to this peer from `s` to `s'`. */
  ghost predicate SamePeer(s: VoiceClient.Session, s': VoiceClient.Session, peer: string) {
    && peer in s.remotes && peer in s'.remotes
    && s'.remotes[peer] == s.remotes[peer]
    && VoiceClient.ReportsOf(s', peer) == VoiceClient.ReportsOf(s, peer)
  }

  /** `out` is what draining `start` reports, cut only at a report the decoder refused. */
  ghost predicate DrainCut(start: State, last: State, out: seq<JitterPop>, decodes: nat -> bool)
    requires Inv(start)
  {
    var (end, all) := Drain(start);
    && out <= all
    && (forall i :: 0 <= i < |out| - 1 ==> decodes(i))
    && (out == [] || decodes(|out| - 1) ==> out == all && last == end)
  }

  lemma CutHere(start: State, last: State, out: seq<JitterPop>, decodes: nat -> bool)
    requires Inv(start) && out <= Drain(start).1
    requires forall i :: 0 <= i < |out| - 1 ==> decodes(i)
    requires Drain(start) == (last, out) || (out != [] && !decodes(|out| - 1))
    ensures DrainCut(start, last, out, decodes)
  {
  }

  /** From `s` to `s'` this peer was drained once and reported `out`. */
  ghost predicate PeerDrained(s: VoiceClient.Session, s': VoiceClient.Session, peer: string, out: seq<JitterPop>,
                              decodes: (string, nat) -> bool)
  {
    && peer in s.remotes && peer in s'.remotes && Inv(s.remotes[peer])
    && DrainCut(s.remotes[peer], s'.remotes[peer], out, (i: nat) => decodes(peer, i))
    && VoiceClient.ReportsOf(s', peer) == VoiceClient.ReportsOf(s, peer) + out
  }

  lemma NothingDrainedYet(s: VoiceClient.Session)
    ensures forall peer :: peer in s.remotes ==> SamePeer(s, s, peer)
  {
  }

  /** Draining one peer leaves what has happened to the others as it was. */
  lemma OnePeerDrained(s: VoiceClient.Session, mid: VoiceClient.Session, s': VoiceClient.Session, peer: string,
                       out: seq<JitterPop>, decodes: (string, nat) -> bool)
    requires SamePeer(s, mid, peer) && Inv(mid.remotes[peer]) && peer in s'.remotes
    requires s' == VoiceClient.DrainPeer(mid, peer, s'.remotes[peer], out)
    requires DrainCut(mid.remotes[peer], s'.remotes[peer], out, (i: nat) => decodes(peer, i))
    ensures PeerDrained(s, s', peer, out, decodes)
    ensures forall q :: q != peer && SamePeer(s, mid, q) ==> SamePeer(s, s', q)
    ensures forall q, o :: q != peer && PeerDrained(s, mid, q, o, decodes) ==> PeerDrained(s, s', q, o, decodes)
    ensures s'.remotes.Keys == mid.remotes.Keys
  {
    hide DrainCut, Inv;
  }

  class VoiceWorker {
    const userId: string
    const roomId: string
    var sequence: u64
    var remotes: map<string, JitterBuffer>
    ghost var frames: seq<Payload>
    ghost var reports: map<string, seq<JitterPop>>

    ghost function Model(): VoiceClient.Session
      reads this, remotes.Values
    {
      VoiceClient.Session(userId, roomId, sequence, frames,
                          map peer | peer in remotes :: remotes[peer].Model(), reports)
    }

    ghost predicate Valid()
      reads this, remotes.Values
    {
      && (forall peer :: peer in remotes ==> remotes[peer].Valid())
      && (forall p, q :: p in remotes && q in remotes && p != q ==> remotes[p] != remotes[q])
    }

    constructor (user: string, room: string)
      ensures Valid() && Model() == VoiceClient.NewSession(user, room)
    {
      userId, roomId := user, room;
      sequence := 0;
      remotes := map[];
      frames := [];
      reports := map[];
    }

    method Send(p: VoicePacket) returns (datagram: Option<seq<u8>>)
      ensures datagram == VoiceClient.Wire(p)
    {
      var encoded := EncodeVoicePacket(p);
      datagram := if encoded.Ok? then Some(encoded.value) else None;
    }

    method Transmit(payload: Payload) returns (datagram: Option<seq<u8>>)
      requires Valid()
      modifies this
      ensures Valid()
      ensures (Model(), datagram) == VoiceClient.Transmit(old(Model()), payload)
    {
      hide Encode, Run, Inv;
      datagram := Send(VoicePacket(userId, roomId, sequence, VoiceClient.OPUS_SAMPLE_RATE, 1, CODEC_OPUS,
                                   VoiceClient.OPUS_FRAME_SAMPLES, payload));
      sequence := WrappingSucc(sequence);
      frames := frames + [payload];
      assert Model().remotes == old(Model()).remotes;
    }

    method Heartbeat() returns (datagram: Option<seq<u8>>)
      requires Valid()
      ensures datagram == VoiceClient.Heartbeat(Model())
    {
      datagram := Send(VoicePacket(userId, roomId, sequence, VoiceClient.OPUS_SAMPLE_RATE, 1, CODEC_OPUS, 0, []));
    }

    method AddPeer(peer: string)
      requires Valid() && peer !in remotes
      modifies this`remotes
      ensures Valid() && peer in remotes && fresh(remotes[peer])
      ensures remotes == old(remotes)[peer := remotes[peer]]
      ensures Model() == VoiceClient.AddPeer(old(Model()), peer)
    {
      hide New, Run, Inv;
      var buffer := new JitterBuffer(VoiceClient.JITTER_TARGET_DEPTH, VoiceClient.JITTER_MAX_DEPTH);
      remotes := remotes[peer := buffer];
      assert Model().remotes == VoiceClient.AddPeer(old(Model()), peer).remotes;
    }

    method PushPeer(packet: VoicePacket)
      requires Valid() && packet.userId in remotes
      modifies remotes.Values
      ensures Valid()
      ensures Model() == VoiceClient.PushPeer(old(Model()), packet)
    {
      hide Push, Run, Inv;
      remotes[packet.userId].Push(packet.sequence, packet.payload);
      assert Model().remotes == VoiceClient.PushPeer(old(Model()), packet).remotes;
    }

    method Receive(bytes: seq<u8>, deafened: bool, decoderReady: bool)
      requires Valid()
      modifies this, remotes.Values
      ensures Valid()
      ensures Model() == VoiceClient.Receive(old(Model()), bytes, deafened, decoderReady)
    {
      hide Decode, Run, Inv, New, Push;
      var decoded := DecodeVoicePacket(bytes);
      if decoded.Err? {
        return;
      }
      var packet := decoded.value;
      if packet.userId == userId || |packet.payload| == 0 || deafened {
        return;
      }
      // Packets of another codec bypass the buffers.
      if packet.codec != CODEC_OPUS {
        return;
      }
      if packet.userId !in remotes {
        if !decoderReady {
          return;
        }
        AddPeer(packet.userId);
      }
      PushPeer(packet);
    }

    method PopPeer(peer: string) returns (pop: JitterPop)
      requires Valid() && peer in remotes
      modifies this`reports, remotes.Values
      ensures Valid()
      ensures Model() == VoiceClient.PopPeer(old(Model()), peer)
      ensures pop == Pop(old(Model()).remotes[peer], false).1
    {
      hide Pop, Run, Inv;
      pop := remotes[peer].Pop(false);
      if pop != Empty {
        reports := reports[peer := VoiceClient.ReportsOf(old(Model()), peer) + [pop]];
      }
      assert Model().remotes == VoiceClient.PopPeer(old(Model()), peer).remotes;
    }

    lemma PeerIsSound(peer: string)
      requires Valid() && peer in remotes
      ensures peer in Model().remotes && Inv(Model().remotes[peer])
    {
    }

    /** The drain loop for one peer. `decodes(i)` says whether the decoder accepted the `i`th
        report; the loop stops at the first one it did not. */
    method DrainPeer(peer: string, decodes: nat -> bool) returns (out: seq<JitterPop>)
      requires Valid() && peer in remotes
      modifies this`reports, remotes.Values
      ensures Valid()
      ensures Model() == VoiceClient.DrainPeer(old(Model()), peer, Model().remotes[peer], out)
      ensures Inv(old(Model()).remotes[peer])
      ensures DrainCut(old(Model()).remotes[peer], Model().remotes[peer], out, decodes)
    {
      hide *;
      out := [];
      PeerIsSound(peer);
      ghost var before, start := Model(), Model().remotes[peer];
      ghost var st := start;
      VoiceClient.DrainPeerNone(before, peer);
      DrainedNothing(start);
      while true
        invariant Valid() && peer in remotes && peer in before.remotes
        invariant DrainedTo(start, st, out)
        invariant forall i :: 0 <= i < |out| ==> decodes(i)
        invariant Model() == VoiceClient.DrainPeer(before, peer, st, out)
        decreases Left(st)
      {
        DrainedMore(start, st, out);
        var pop := PopNext(peer, before, st, out);
        st := Pop(st, false).0;
        if pop == Empty {
          CutHere(start, st, out, decodes);
          return;
        }
        out := out + [pop];
        if !decodes(|out| - 1) {
          DrainedPrefix(start, st, out);
          CutHere(start, st, out, decodes);
          return;
        }
      }
    }

    /** The drain loop over all peers, in whatever order the map yields them; nothing is drained
        while deafened. `decodes(peer, i)` says whether the decoder accepted the `i`th report. */
    method DrainAll(deafened: bool, decodes: (string, nat) -> bool) returns (outs: map<string, seq<JitterPop>>)
      requires Valid()
      modifies this`reports, remotes.Values
      ensures Valid()
      ensures Model().remotes.Keys == old(Model()).remotes.Keys
      ensures outs.Keys == if deafened then {} else remotes.Keys
      ensures forall peer :: peer in remotes ==>
                if deafened then SamePeer(old(Model()), Model(), peer)
                else peer in outs && PeerDrained(old(Model()), Model(), peer, outs[peer], decodes)
    {
      hide *;
      outs := map[];
      ghost var before := Model();
      var todo: set<string> := {};
      if !deafened {
        todo := remotes.Keys;
      }
      ghost var all := todo;
      NothingDrainedYet(before);
      PeersAreRemotes();
      while todo != {}
        invariant Valid() && todo <= all <= remotes.Keys
        invariant Model().remotes.Keys == before.remotes.Keys == remotes.Keys
        invariant outs.Keys == all - todo
        invariant forall peer :: peer in remotes && peer !in outs ==> SamePeer(before, Model(), peer)
        invariant forall peer :: peer in outs ==> PeerDrained(before, Model(), peer, outs[peer], decodes)
        decreases |todo|
      {
        var peer :| peer in todo;
        ghost var mid := Model();
        todo := todo - {peer};
        var out := DrainPeer(peer, (i: nat) => decodes(peer, i));
        outs := outs[peer := out];
        PeersAreRemotes();
        OnePeerDrained(before, mid, Model(), peer, out, decodes);
      }
    }

    lemma PeersAreRemotes()
      ensures Model().remotes.Keys == remotes.Keys
    {
    }

    method PopNext(peer: string, ghost before: VoiceClient.Session, ghost st: State, ghost out: seq<JitterPop>)
      returns (pop: JitterPop)
      requires Valid() && peer in remotes && peer in before.remotes
      requires Model() == VoiceClient.DrainPeer(before, peer, st, out)
      modifies this`reports, remotes.Values
      ensures Valid()
      ensures pop == Pop(st, false).1
      ensures Model() ==
                VoiceClient.DrainPeer(before, peer, Pop(st, false).0, if pop == Empty then out else out + [pop])
    {
      hide Pop, Run, Inv, VoiceClient.PopPeer, VoiceClient.DrainPeer;
      VoiceClient.DrainPeerStep(before, peer, st, out);
      pop := PopPeer(peer);
    }
  }
}
