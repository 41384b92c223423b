/** Why a receiver reports a frame of a sender as lost: the buffer it keeps for the sender has been
    through exactly the packets it accepted from that sender and its own pops. */
module VoiceLoss {
  import opened Prelude
  import opened JitterModel
  import opened JitterRuns
  import opened JitterReadiness
  import OrderedMaps
  import opened VoicePackets
  import opened VoiceClient
  import opened ServerTables
  import opened VoiceProtocol

  /** What the step does to the buffer that `u` keeps for `peer`: the packet accepted, or the pop. */
  function BufferOp(s: Session, step: VoiceProtocol.Step, u: string, peer: string): seq<Op> {
    match step
    case Receive(v, bytes, deafened, ready) =>
      if v != u then []
      else
        (match Accepted(s, bytes, deafened)
         case None => []
         case Some(p) =>
           if p.userId == peer && (peer in s.remotes || ready) then [PushOp(p.sequence, p.payload)] else [])
    case PopFrom(v, q) => if v == u && q == peer then [PopOp(false)] else []
    case _ => []
  }

  ghost function BufferOps(start: Net, steps: seq<VoiceProtocol.Step>, u: string, peer: string): seq<Op>
    requires EnabledRun(start, steps)
    decreases |steps|
  {
    if steps == [] then []
    else
      var n := After(start, Init(steps));
      BufferOps(start, Init(steps), u, peer) +
      if u in n.sessions then BufferOp(n.sessions[u], Last(steps), u, peer) else []
  }

  function NewBuffer(): State {
    New(JITTER_TARGET_DEPTH, JITTER_MAX_DEPTH)
  }

  /** The session's buffer for the peer, and what it has reported, are those of these operations. */
  ghost predicate Mirrors(s: Session, peer: string, ops: seq<Op>) {
    if peer in s.remotes
    then s.remotes[peer] == Run(NewBuffer(), ops) && ReportsOf(s, peer) == Emissions(NewBuffer(), ops)
    else ops == [] && ReportsOf(s, peer) == []
  }

  lemma ReceiveMirrors(s: Session, step: VoiceProtocol.Step, u: string, peer: string, ops: seq<Op>)
    requires Mirrors(s, peer, ops) && step.Receive? && step.user == u
    ensures Mirrors(VoiceClient.Receive(s, step.bytes, step.deafened, step.decoderReady), peer,
                    ops + BufferOp(s, step, u, peer))
  {
    hide Run, Emissions, Decode, Push, New;
    var more := BufferOp(s, step, u, peer);
    if more == [] {
      assert ops + more == ops;
    } else {
      var op := more[0];
      if peer !in s.remotes { NothingHappened(ops); }
      RunAppend(NewBuffer(), ops, op);
      assert Emissions(NewBuffer(), ops) + [] == Emissions(NewBuffer(), ops);
    }
  }

  lemma NothingHappened(ops: seq<Op>)
    requires ops == []
    ensures Run(NewBuffer(), ops) == NewBuffer() && Emissions(NewBuffer(), ops) == []
  {
  }

  lemma PopMirrors(s: Session, peer: string, ops: seq<Op>)
    requires Mirrors(s, peer, ops) && peer in s.remotes
    ensures Mirrors(PopPeer(s, peer), peer, ops + [PopOp(false)])
  {
    hide Run, Emissions, Pop;
    RunAppend(NewBuffer(), ops, PopOp(false));
    assert Emissions(NewBuffer(), ops) + [] == Emissions(NewBuffer(), ops);
  }

  lemma StepMirrors(n: Net, step: VoiceProtocol.Step, u: string, peer: string, ops: seq<Op>)
    requires u in n.sessions && Enabled(n, step) && Mirrors(n.sessions[u], peer, ops)
    ensures u in VoiceProtocol.Apply(n, step).sessions
    ensures Mirrors(VoiceProtocol.Apply(n, step).sessions[u], peer, ops + BufferOp(n.sessions[u], step, u, peer))
  {
    hide Run, Emissions, Pop, Decode, Encode, VoiceClient.Receive, PopPeer, BufferOp;
    if step.Receive? && step.user == u {
      ReceiveMirrors(n.sessions[u], step, u, peer, ops);
    } else if step.PopFrom? && step.user == u && step.peer == peer {
      PopMirrors(n.sessions[u], peer, ops);
      assert BufferOp(n.sessions[u], step, u, peer) == [PopOp(false)] by { PopIsOp(n.sessions[u], step, u, peer); }
    } else {
      assert BufferOp(n.sessions[u], step, u, peer) == [] by { OtherIsNoOp(n.sessions[u], step, u, peer); }
      assert ops + [] == ops;
      OtherMirrors(n, step, u, peer, ops);
    }
  }

  lemma PopIsOp(s: Session, step: VoiceProtocol.Step, u: string, peer: string)
    requires step.PopFrom? && step.user == u && step.peer == peer
    ensures BufferOp(s, step, u, peer) == [PopOp(false)]
  {
  }

  lemma OtherIsNoOp(s: Session, step: VoiceProtocol.Step, u: string, peer: string)
    requires !(step.Receive? && step.user == u) && !(step.PopFrom? && step.user == u && step.peer == peer)
    ensures BufferOp(s, step, u, peer) == []
  {
  }

  lemma OtherMirrors(n: Net, step: VoiceProtocol.Step, u: string, peer: string, ops: seq<Op>)
    requires u in n.sessions && Enabled(n, step) && Mirrors(n.sessions[u], peer, ops)
    requires !(step.Receive? && step.user == u) && !(step.PopFrom? && step.user == u && step.peer == peer)
    ensures u in VoiceProtocol.Apply(n, step).sessions && Mirrors(VoiceProtocol.Apply(n, step).sessions[u], peer, ops)
  {
    hide Run, Emissions, Pop, Decode, Encode, VoiceClient.Receive;
  }

  lemma {:induction false} RemoteIsRun(members: map<UserId, Member>, steps: seq<VoiceProtocol.Step>, u: UserId,
                                       peer: UserId)
    requires EnabledRun(NewNet(members), steps) && u in members
    ensures u in After(NewNet(members), steps).sessions
    ensures Mirrors(After(NewNet(members), steps).sessions[u], peer, BufferOps(NewNet(members), steps, u, peer))
    decreases |steps|
  {
    hide Mirrors, VoiceProtocol.Apply, Enabled, BufferOp;
    if steps == [] {
      NewMirrors(members, u, peer);
    } else {
      RemoteIsRun(members, Init(steps), u, peer);
      StepMirrors(After(NewNet(members), Init(steps)), Last(steps), u, peer,
                  BufferOps(NewNet(members), Init(steps), u, peer));
    }
  }

  lemma NewMirrors(members: map<UserId, Member>, u: UserId, peer: UserId)
    requires u in members
    ensures Mirrors(NewNet(members).sessions[u], peer, [])
  {
  }

  // ----- Datagrams and buffer operations -----

  /** Step `j` hands `u` a datagram with audio of `peer`, in the common codec, while it listens and
      knows the peer or can decode it. */
  ghost predicate HearsAt(start: Net, steps: seq<VoiceProtocol.Step>, j: nat, u: string, peer: string, sequence: u64) {
    && j < |steps| && EnabledRun(start, steps[..j]) && u in After(start, steps[..j]).sessions
    && steps[j].Receive? && steps[j].user == u && !steps[j].deafened
    && Decode(steps[j].bytes).Ok?
    && var s, p := After(start, steps[..j]).sessions[u], Decode(steps[j].bytes).value;
       && p.userId == peer && peer != s.userId && p.sequence == sequence && p.payload != [] && p.codec == "opus"
       && (peer in s.remotes || steps[j].decoderReady)
  }

  ghost predicate HasHeard(start: Net, steps: seq<VoiceProtocol.Step>, u: string, peer: string, sequence: u64) {
    exists j: nat :: HearsAt(start, steps, j, u, peer, sequence)
  }

  /** The buffer has been given exactly the sequences that were heard. */
  lemma {:induction false} PushedIffHeard(start: Net, steps: seq<VoiceProtocol.Step>, u: string, peer: string, k: u64)
    requires EnabledRun(start, steps)
    ensures WasPushed(BufferOps(start, steps, u, peer), k) <==> HasHeard(start, steps, u, peer, k)
    decreases |steps|
  {
    hide VoiceProtocol.Apply, Enabled, Decode, WasPushed, HearsAt;
    if steps == [] {
      NothingHeard(start, u, peer, k);
    } else {
      var n, before := After(start, Init(steps)), BufferOps(start, Init(steps), u, peer);
      var more := if u in n.sessions then BufferOp(n.sessions[u], Last(steps), u, peer) else [];
      assert BufferOps(start, steps, u, peer) == before + more;
      PushedIffHeard(start, Init(steps), u, peer, k);
      PushedConcat(before, more, k);
      NothingHeard(start, u, peer, k);
      HeardLast(start, steps, u, peer, k);
      HeardEarlier(start, steps, u, peer, k);
    }
  }

  lemma NothingHeard(start: Net, u: string, peer: string, k: u64)
    ensures !WasPushed([], k) && !HasHeard(start, [], u, peer, k)
  {
  }

  lemma PushedConcat(before: seq<Op>, more: seq<Op>, k: u64)
    ensures WasPushed(before + more, k) <==> WasPushed(before, k) || WasPushed(more, k)
  {
    var ops := before + more;
    if WasPushed(before, k) {
      var i :| 0 <= i < |before| && before[i].PushOp? && before[i].sequence == k;
      assert ops[i] == before[i];
    }
    if WasPushed(more, k) {
      var i :| 0 <= i < |more| && more[i].PushOp? && more[i].sequence == k;
      assert ops[|before| + i] == more[i];
    }
  }

  lemma HeardLast(start: Net, steps: seq<VoiceProtocol.Step>, u: string, peer: string, k: u64)
    requires steps != [] && EnabledRun(start, steps)
    ensures var n := After(start, Init(steps));
            HearsAt(start, steps, |steps| - 1, u, peer, k) <==>
              u in n.sessions && WasPushed(BufferOp(n.sessions[u], Last(steps), u, peer), k)
  {
    hide VoiceProtocol.Apply, Enabled, Decode;
    assert steps[..|steps| - 1] == Init(steps);
    var n := After(start, Init(steps));
    if u in n.sessions && Last(steps).Receive? && Last(steps).user == u {
      var ops := BufferOp(n.sessions[u], Last(steps), u, peer);
      assert |ops| <= 1;
      if ops != [] && ops[0].sequence == k { assert WasPushed(ops, k); }
    }
  }

  lemma HeardEarlier(start: Net, steps: seq<VoiceProtocol.Step>, u: string, peer: string, k: u64)
    requires steps != [] && EnabledRun(start, steps)
    ensures HasHeard(start, steps, u, peer, k) <==>
              HasHeard(start, Init(steps), u, peer, k) || HearsAt(start, steps, |steps| - 1, u, peer, k)
  {
    hide VoiceProtocol.Apply, Enabled, EnabledRun, After, Decode;
    var before := Init(steps);
    forall j: nat | j < |before|
      ensures HearsAt(start, before, j, u, peer, k) <==> HearsAt(start, steps, j, u, peer, k)
    {
      assert before[..j] == steps[..j];
    }
    if HasHeard(start, before, u, peer, k) {
      var j: nat :| HearsAt(start, before, j, u, peer, k);
      assert HearsAt(start, steps, j, u, peer, k);
    }
    if HasHeard(start, steps, u, peer, k) {
      var j: nat :| HearsAt(start, steps, j, u, peer, k);
      assert j == |before| || HearsAt(start, before, j, u, peer, k);
    }
  }

  // ----- Evicted means crowded out -----

  lemma {:induction false} PendingWasPushed(ops: seq<Op>)
    ensures forall k :: k in Run(NewBuffer(), ops).pending ==> WasPushed(ops, k)
  {
    hide WasPushed;
    if ops == [] {
      NothingHappened(ops);
    } else {
      var before, op := ops[..|ops| - 1], ops[|ops| - 1];
      PendingWasPushed(before);
      StepAddsPushed(Run(NewBuffer(), before), op);
      assert before + [op] == ops;
      forall k | k in Run(NewBuffer(), ops).pending ensures WasPushed(ops, k) {
        PushedConcat(before, [op], k);
        if k !in Run(NewBuffer(), before).pending { assert WasPushed([op], k) by { PushedByOne(op, k); } }
      }
    }
  }

  lemma PushedByOne(op: Op, k: u64)
    requires op.PushOp? && op.sequence == k
    ensures WasPushed([op], k)
  {
    assert [op][0] == op;
  }

  lemma StepAddsPushed(st: State, op: Op)
    ensures forall k :: k in JitterModel.Step(st, op).pending ==> k in st.pending || (op.PushOp? && op.sequence == k)
  {
    if op.PushOp? && !IsStale(st, op.sequence) {
      OrderedMaps.KeepLargestIsLargestPart(st.pending[op.sequence := op.payload], st.maxDepth);
    }
  }

  /** The buffer's full cap of larger sequences has been pushed. */
  ghost predicate CrowdedOutBy(ops: seq<Op>, k: u64, larger: set<u64>) {
    |larger| == 20 && forall x :: x in larger ==> k < x && WasPushed(ops, x)
  }

  lemma {:induction false} EvictedIsCrowdedOut(ops: seq<Op>, k: u64) returns (larger: set<u64>)
    requires WasEvicted(NewBuffer(), ops, k)
    ensures CrowdedOutBy(ops, k, larger)
  {
    hide WasPushed, WasEvicted;
    assert ops != [] by { NothingEvicted(k); }
    var before, op := ops[..|ops| - 1], ops[|ops| - 1];
    assert before + [op] == ops;
    EvictedOrBefore(ops, k);
    if WasEvicted(NewBuffer(), before, k) {
      larger := EvictedIsCrowdedOut(before, k);
      forall x | x in larger ensures k < x && WasPushed(ops, x) { PushedConcat(before, [op], x); }
    } else {
      PendingWasPushed(ops);
      CapIs20(before);
      larger := EvictionKeeps(Run(NewBuffer(), before), op, k);
    }
  }

  lemma NothingEvicted(k: u64)
    ensures !WasEvicted(NewBuffer(), [], k)
  {
  }

  lemma EvictedOrBefore(ops: seq<Op>, k: u64)
    requires ops != [] && WasEvicted(NewBuffer(), ops, k)
    ensures var before, op := ops[..|ops| - 1], ops[|ops| - 1];
            WasEvicted(NewBuffer(), before, k)
            || exists a :: a in DiscardsOf(Run(NewBuffer(), before), op).evicted && a.sequence == k
  {
    hide Run, DiscardsOf;
    var before, op := ops[..|ops| - 1], ops[|ops| - 1];
    var a :| a in AllDiscards(NewBuffer(), ops).evicted && a.sequence == k;
    assert AllDiscards(NewBuffer(), ops).evicted
        == AllDiscards(NewBuffer(), before).evicted + DiscardsOf(Run(NewBuffer(), before), op).evicted;
    assert a in AllDiscards(NewBuffer(), before).evicted || a in DiscardsOf(Run(NewBuffer(), before), op).evicted;
  }

  lemma CapIs20(ops: seq<Op>)
    ensures Run(NewBuffer(), ops).maxDepth == 20
  {
    hide Run;
    CapIsKept(JITTER_TARGET_DEPTH, JITTER_MAX_DEPTH, ops);
  }

  lemma EvictionKeeps(st: State, op: Op, k: u64) returns (larger: set<u64>)
    requires st.maxDepth == 20 && exists a :: a in DiscardsOf(st, op).evicted && a.sequence == k
    ensures |larger| == 20 && forall x :: x in larger ==> k < x && x in JitterModel.Step(st, op).pending
  {
    var grown, kept := st.pending[op.sequence := op.payload], JitterModel.Step(st, op).pending;
    OrderedMaps.KeepLargestIsLargestPart(grown, 20);
    larger := kept.Keys;
    var a :| a in DiscardsOf(st, op).evicted && a.sequence == k;
    assert a in Entries(grown - kept.Keys);
    assert k in grown && k !in kept;
    assert |larger| == |kept|;
    SmallIsKept(grown);
  }

  lemma SmallIsKept(m: map<u64, Payload>)
    ensures |m| <= 20 ==> OrderedMaps.KeepLargest(m, 20) == m
  {
  }

  // ----- Main result -----

  ghost predicate HasHeardTwentyAbove(start: Net, steps: seq<VoiceProtocol.Step>, u: string, peer: string, k: u64,
                                      larger: set<u64>)
  {
    |larger| == 20 && forall x :: x in larger ==> k < x && HasHeard(start, steps, u, peer, x)
  }

  /** Step `m` pops `k` as lost; by then no datagram with it had been heard, or twenty with larger
      sequences had been. */
  ghost predicate LostAt(start: Net, steps: seq<VoiceProtocol.Step>, m: nat, u: string, peer: string, k: u64) {
    && m < |steps| && EnabledRun(start, steps[..m]) && Enabled(After(start, steps[..m]), steps[m])
    && steps[m] == PopFrom(u, peer)
    && Pop(After(start, steps[..m]).sessions[u].remotes[peer], false).1.Lost?
    && Pop(After(start, steps[..m]).sessions[u].remotes[peer], false).1.sequence == k
    && (HasHeard(start, steps[..m], u, peer, k) ==>
          exists larger: set<u64> :: HasHeardTwentyAbove(start, steps[..m], u, peer, k, larger))
  }

  /** Where the `i`th report was made. */
  ghost predicate ReportedAt(start: Net, steps: seq<VoiceProtocol.Step>, m: nat, u: string, peer: string, i: nat,
                             pop: JitterPop)
  {
    && m < |steps| && EnabledRun(start, steps[..m]) && Enabled(After(start, steps[..m]), steps[m])
    && steps[m] == PopFrom(u, peer)
    && Pop(After(start, steps[..m]).sessions[u].remotes[peer], false).1 == pop
    && |ReportsOf(After(start, steps[..m]).sessions[u], peer)| == i
  }

  lemma {:induction false} ReportHasStep(members: map<UserId, Member>, steps: seq<VoiceProtocol.Step>, u: UserId,
                                         peer: UserId, i: nat)
    requires EnabledRun(NewNet(members), steps) && u in members && u in After(NewNet(members), steps).sessions
    requires i < |ReportsOf(After(NewNet(members), steps).sessions[u], peer)|
    ensures exists m: nat :: ReportedAt(NewNet(members), steps, m, u, peer, i,
                                        ReportsOf(After(NewNet(members), steps).sessions[u], peer)[i])
    decreases |steps|
  {
    hide VoiceProtocol.Apply, Enabled, Pop, ReportsOf;
    var start := NewNet(members);
    if steps == [] {
      NoReports(members, u, peer);
      assert false;
    } else {
      var before, step := Init(steps), Last(steps);
      var n, pop := After(start, before), ReportsOf(After(start, steps).sessions[u], peer)[i];
      assert u in n.sessions by { RemoteIsRun(members, before, u, peer); }
      ReportsGrow(n, step, u, peer);
      assert steps[..|before|] == before;
      if i < |ReportsOf(n.sessions[u], peer)| {
        ReportHasStep(members, before, u, peer, i);
        var m: nat :| ReportedAt(start, before, m, u, peer, i, pop);
        assert before[..m] == steps[..m];
        assert ReportedAt(start, steps, m, u, peer, i, pop);
      } else {
        assert ReportedAt(start, steps, |before|, u, peer, i, pop);
      }
    }
  }

  lemma NoReports(members: map<UserId, Member>, u: UserId, peer: UserId)
    requires u in members
    ensures ReportsOf(NewNet(members).sessions[u], peer) == []
  {
  }

  lemma ReportsGrow(n: Net, step: VoiceProtocol.Step, u: UserId, peer: UserId)
    requires u in n.sessions && Enabled(n, step)
    ensures var n' := VoiceProtocol.Apply(n, step);
            u in n'.sessions &&
            (|| ReportsOf(n'.sessions[u], peer) == ReportsOf(n.sessions[u], peer)
             || (&& step == PopFrom(u, peer) && peer in n.sessions[u].remotes
                 && ReportsOf(n'.sessions[u], peer)
                    == ReportsOf(n.sessions[u], peer) + [Pop(n.sessions[u].remotes[peer], false).1]))
  {
    hide Decode, Encode, Pop;
  }

  /** In every run of the network, whatever a receiver reports lost from a sender of fewer than
      2^64 frames was sent, and by then no datagram with it had been heard from that sender, or the
      buffer's cap of twenty larger ones had been. */
  lemma LostFramesHaveACause(members: map<UserId, Member>, steps: seq<VoiceProtocol.Step>, receiver: UserId,
                             sender: UserId, i: nat)
    requires EnabledRun(NewNet(members), steps) && receiver in members
    requires receiver in After(NewNet(members), steps).sessions && sender in After(NewNet(members), steps).sessions
    requires |After(NewNet(members), steps).sessions[sender].frames| < TWO_64
    requires i < |ReportsOf(After(NewNet(members), steps).sessions[receiver], sender)|
    requires ReportsOf(After(NewNet(members), steps).sessions[receiver], sender)[i].Lost?
    ensures var n := After(NewNet(members), steps);
            var k := ReportsOf(n.sessions[receiver], sender)[i].sequence;
            && k < |n.sessions[sender].frames|
            && exists m: nat :: LostAt(NewNet(members), steps, m, receiver, sender, k)
  {
    hide VoiceProtocol.Apply, Enabled, EnabledRun, After, BufferOps, Pop, Run, Emissions, ReportsOf, HasHeard;
    var start := NewNet(members);
    var out := ReportsOf(After(start, steps).sessions[receiver], sender);
    PlayedFramesWereSent(members, steps, receiver, sender);
    ReportHasStep(members, steps, receiver, sender, i);
    var m: nat :| ReportedAt(start, steps, m, receiver, sender, i, out[i]);
    EarlierReportsArePrefix(members, steps, m, receiver, sender);
    PopHasBuffer(After(start, steps[..m]), receiver, sender);
    LossAtStep(members, steps, m, receiver, sender, out[i].sequence, |After(start, steps).sessions[sender].frames|);
    assert LostAt(start, steps, m, receiver, sender, out[i].sequence);
  }

  lemma {:induction false} EarlierReportsArePrefix(members: map<UserId, Member>, steps: seq<VoiceProtocol.Step>, m: nat,
                                                   u: UserId, peer: UserId)
    requires EnabledRun(NewNet(members), steps) && m <= |steps| && u in members
    ensures EnabledRun(NewNet(members), steps[..m]) && u in After(NewNet(members), steps[..m]).sessions
    ensures u in After(NewNet(members), steps).sessions
    ensures ReportsOf(After(NewNet(members), steps[..m]).sessions[u], peer)
         <= ReportsOf(After(NewNet(members), steps).sessions[u], peer)
    decreases |steps|
  {
    hide VoiceProtocol.Apply, Enabled, ReportsOf;
    RemoteIsRun(members, steps, u, peer);
    if m == |steps| {
      assert steps[..m] == steps;
    } else {
      EarlierReportsArePrefix(members, Init(steps), m, u, peer);
      assert Init(steps)[..m] == steps[..m];
      ReportsGrow(After(NewNet(members), Init(steps)), Last(steps), u, peer);
    }
  }

  lemma PopHasBuffer(n: Net, u: UserId, peer: UserId)
    ensures Enabled(n, PopFrom(u, peer)) <==> u in n.sessions && peer in n.sessions[u].remotes
  {
  }

  lemma LossAtStep(members: map<UserId, Member>, steps: seq<VoiceProtocol.Step>, m: nat, u: UserId, peer: UserId,
                   k: u64, bound: nat)
    requires m < |steps| && u in members && EnabledRun(NewNet(members), steps[..m]) && bound < TWO_64
    requires u in After(NewNet(members), steps[..m]).sessions
    requires peer in After(NewNet(members), steps[..m]).sessions[u].remotes
    requires forall j :: 0 <= j < |ReportsOf(After(NewNet(members), steps[..m]).sessions[u], peer)| ==>
               var pop := ReportsOf(After(NewNet(members), steps[..m]).sessions[u], peer)[j];
               pop != Empty && pop.sequence < bound
    requires var pop := Pop(After(NewNet(members), steps[..m]).sessions[u].remotes[peer], false).1;
             pop.Lost? && pop.sequence == k
    ensures HasHeard(NewNet(members), steps[..m], u, peer, k) ==>
              exists larger: set<u64> :: HasHeardTwentyAbove(NewNet(members), steps[..m], u, peer, k, larger)
  {
    hide VoiceProtocol.Apply, Enabled, EnabledRun, After, BufferOps, Pop, Run, Emissions, HasHeard, ReportsOf,
      WasPushed, WasEvicted, New;
    var start, early := NewNet(members), steps[..m];
    var ops := BufferOps(start, early, u, peer);
    RemoteIsRun(members, early, u, peer);
    assert ReportsOf(After(start, early).sessions[u], peer) == Emissions(NewBuffer(), ops);
    forall pop | pop in Emissions(NewBuffer(), ops) ensures pop != Empty && pop.sequence != TWO_64 - 1 {
      var j :| 0 <= j < |Emissions(NewBuffer(), ops)| && Emissions(NewBuffer(), ops)[j] == pop;
    }
    LossHasACause(JITTER_TARGET_DEPTH, JITTER_MAX_DEPTH, ops, false);
    PushedIffHeard(start, early, u, peer, k);
    if HasHeard(start, early, u, peer, k) {
      var larger := EvictedIsCrowdedOut(ops, k);
      forall x | x in larger ensures k < x && HasHeard(start, early, u, peer, x) {
        PushedIffHeard(start, early, u, peer, x);
      }
      assert HasHeardTwentyAbove(start, early, u, peer, k, larger);
    }
  }
}
