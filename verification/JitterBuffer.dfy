/** The jitter buffer as the mutable object the receive worker owns, one per remote user. */
module JitterBuffers {
  import opened Prelude
  import opened OrderedMaps
  import opened JitterModel
  import opened JitterRuns
  import JitterReadiness

  class JitterBuffer {
    const targetDepth: nat
    const maxDepth: nat
    var nextExpected: Option<u64>
    var pending: map<u64, Payload>
    var primed: bool

    /** Every operation applied so far, oldest first. */
    ghost var history: seq<Op>

    ghost function Model(): State
      reads this
    {
      State(targetDepth, maxDepth, nextExpected, pending, primed)
    }

    /** Every operation applied so far, replayed on values from a new buffer, gives the fields. */
    ghost predicate Valid()
      reads this
    {
      && 1 <= targetDepth <= maxDepth
      && Model() == Run(New(targetDepth, maxDepth), history)
      && Inv(Model())
    }

    constructor (target: nat, cap: nat)
      ensures Valid() && history == []
      ensures Model() == New(target, cap)
    {
      targetDepth := Max(target, 1);
      maxDepth := Max(cap, Max(target, 1));
      nextExpected := None;
      pending := map[];
      primed := false;
      history := [];
    }

    method Len() returns (n: nat)
      requires Valid()
      ensures n == |pending| <= maxDepth
    {
      n := |pending|;
    }

    method Push(sequence: u64, payload: Payload)
      requires Valid()
      modifies this
      ensures Valid()
      ensures history == old(history) + [PushOp(sequence, payload)]
      ensures Model() == JitterModel.Push(old(Model()), sequence, payload)
    {
      ghost var op := PushOp(sequence, payload);
      RunAppend(New(targetDepth, maxDepth), history, op);
      StepKeepsInv(Model(), op);
      history := history + [op];
      if nextExpected.Some? && sequence < nextExpected.value {
        return;
      }
      pending := pending[sequence := payload];
      ghost var grown := pending;
      while |pending| > maxDepth
        invariant KeepLargest(pending, maxDepth) == KeepLargest(grown, maxDepth)
        invariant nextExpected == old(nextExpected) && primed == old(primed)
        invariant history == old(history) + [op]
        decreases |pending|
      {
        var oldest := SmallestKey(pending);
        pending := pending - {oldest};
      }
    }

    method Pop(force: bool) returns (result: JitterPop)
      requires Valid()
      modifies this
      ensures Valid()
      ensures history == old(history) + [PopOp(force)]
      ensures (Model(), result) == JitterModel.Pop(old(Model()), force)
    {
      RunAppend(New(targetDepth, maxDepth), history, PopOp(force));
      StepKeepsInv(Model(), PopOp(force));
      history := history + [PopOp(force)];
      if |pending| == 0 {
        primed := false;
        return Empty;
      }
      if |pending| >= targetDepth {
        primed := true;
      }
      if !force && !primed {
        return Empty;
      }
      var firstKey := SmallestKey(pending);
      var expected := if nextExpected.Some? then nextExpected.value else firstKey;
      if expected in pending {
        var payload := pending[expected];
        pending := pending - {expected};
        nextExpected := Some(WrappingSucc(expected));
        return Packet(expected, payload);
      }
      var nextPayload := if |pending| == 0 then None else Some(pending[firstKey]);
      nextExpected := Some(WrappingSucc(expected));
      return Lost(expected, nextPayload);
    }

    /** Every report this object ever made follows the one before it. */
    lemma ReportsAreContiguous()
      requires Valid()
      ensures Contiguous(Emissions(New(targetDepth, maxDepth), history), nextExpected)
    {
      EmissionsAreContiguous(targetDepth, maxDepth, history);
    }

    /** The next pop reports something exactly when something is pending and the pre-roll is filled, or
        was at some pop since nothing was last found. */
    lemma PopReportsIff()
      requires Valid()
      ensures JitterModel.Pop(Model(), false).1 != Empty <==>
                pending != map[]
                && (|pending| >= targetDepth || JitterReadiness.Filled(targetDepth, maxDepth, history))
    {
      hide Run, JitterReadiness.Filled;
      JitterReadiness.PopReportsIff(targetDepth, maxDepth, history);
    }

    /** A push of anything this object has reported is ignored, as long as it has not reported the
        last sequence number. */
    lemma ReportedIsIgnored(i: nat, payload: Payload)
      requires Valid() && i < |Emissions(New(targetDepth, maxDepth), history)|
      ensures var out := Emissions(New(targetDepth, maxDepth), history);
              && out[i] != Empty && out[0] != Empty
              && (out[0].sequence + |out| < TWO_64 ==>
                    JitterModel.Push(Model(), out[i].sequence, payload) == Model())
    {
      hide Run, Emissions, New;
      EmissionsAreContiguous(targetDepth, maxDepth, history);
      ReportedIsStaleIff(targetDepth, maxDepth, history);
    }
  }

  /** The first key of an ordered map, found by scanning its keys. */
  method SmallestKey<V>(m: map<u64, V>) returns (k: u64)
    requires m != map[]
    ensures IsMinKey(m, k) && k == MinKey(m)
  {
    k :| k in m;
    var rest := m.Keys - {k};
    while rest != {}
      invariant k in m && rest <= m.Keys
      invariant forall j :: j in m ==> k <= j || j in rest
      decreases |rest|
    {
      var j :| j in rest;
      rest := rest - {j};
      if j < k {
        k := j;
      }
    }
  }
}
