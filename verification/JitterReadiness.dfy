/** When the jitter buffer holds its packets back, and how much it holds, read off what has been
    pushed and popped alone. */
module JitterReadiness {
  import opened Prelude
  import opened OrderedMaps
  import opened JitterModel
  import opened JitterRuns

  /** What is pending before the `n`th operation on a new buffer. */
  ghost function PendingBefore(target: nat, cap: nat, ops: seq<Op>, n: nat): map<u64, Payload>
    requires n <= |ops|
  {
    Run(New(target, cap), ops[..n]).pending
  }

  /** Operation `n` is a pop that found the pre-roll filled, and no pop since has found nothing. */
  ghost predicate FilledAt(target: nat, cap: nat, ops: seq<Op>, n: nat) {
    && n < |ops| && ops[n].PopOp?
    && |PendingBefore(target, cap, ops, n)| >= Max(target, 1)
    && forall m :: n < m < |ops| && ops[m].PopOp? ==> PendingBefore(target, cap, ops, m) != map[]
  }

  ghost predicate Filled(target: nat, cap: nat, ops: seq<Op>) {
    exists n: nat :: FilledAt(target, cap, ops, n)
  }

  /** In every run of a new buffer a pop reports something if and only if something is pending and
      the pre-roll is filled now, or was at some pop since nothing was last found; a forced pop
      does not wait. Draining reports something in exactly the same states. */
  lemma PopReportsIff(target: nat, cap: nat, ops: seq<Op>)
    ensures var st := Run(New(target, cap), ops);
            && (Pop(st, false).1 != Empty <==>
                  st.pending != map[] && (|st.pending| >= Max(target, 1) || Filled(target, cap, ops)))
            && (Pop(st, true).1 != Empty <==> st.pending != map[])
            && Inv(st) && (Drain(st).1 != [] <==> Pop(st, false).1 != Empty)
  {
    hide Run, Filled;
    PrimedIffFilled(target, cap, ops);
    NewIsSound(target, cap);
    RunKeepsInv(New(target, cap), ops);
  }

  lemma {:induction false} PrimedIffFilled(target: nat, cap: nat, ops: seq<Op>)
    ensures var st := Run(New(target, cap), ops);
            st.targetDepth == Max(target, 1) && (st.primed <==> Filled(target, cap, ops))
  {
    hide Filled, Step;
    if ops == [] {
      NothingFilled(target, cap);
    } else {
      var before, op := ops[..|ops| - 1], ops[|ops| - 1];
      PrimedIffFilled(target, cap, before);
      FilledAfter(target, cap, before, op);
      StepPrimes(Run(New(target, cap), before), op);
      assert before + [op] == ops;
    }
  }

  lemma NothingFilled(target: nat, cap: nat)
    ensures !Filled(target, cap, [])
  {
  }

  lemma StepPrimes(st: State, op: Op)
    ensures var st' := Step(st, op);
            && st'.targetDepth == st.targetDepth
            && st'.primed == if op.PushOp? then st.primed
                             else st.pending != map[] && (st.primed || |st.pending| >= st.targetDepth)
  {
  }

  lemma FilledAfter(target: nat, cap: nat, before: seq<Op>, op: Op)
    ensures var pending := Run(New(target, cap), before).pending;
            Filled(target, cap, before + [op]) <==>
              if op.PushOp? then Filled(target, cap, before)
              else pending != map[] && (Filled(target, cap, before) || |pending| >= Max(target, 1))
  {
    hide Run, New;
    var ops := before + [op];
    var pending := Run(New(target, cap), before).pending;
    assert ops[..|before|] == before;
    forall n: nat | n <= |before| ensures PendingBefore(target, cap, ops, n) == PendingBefore(target, cap, before, n) {
      assert ops[..n] == before[..n];
    }
    assert PendingBefore(target, cap, before, |before|) == pending by { assert before[..|before|] == before; }
    forall n: nat | n < |before|
      ensures FilledAt(target, cap, ops, n) <==>
                FilledAt(target, cap, before, n) && (op.PopOp? ==> pending != map[])
    {
      FilledEarlier(target, cap, before, op, n);
    }
    if op.PopOp? && pending != map[] && |pending| >= Max(target, 1) {
      assert FilledAt(target, cap, ops, |before|);
    }
    assert FilledAt(target, cap, ops, |before|) ==> op.PopOp? && |pending| >= Max(target, 1);
    if Filled(target, cap, before) {
      var n: nat :| FilledAt(target, cap, before, n);
      assert (op.PopOp? && pending == map[]) || FilledAt(target, cap, ops, n);
    }
    if Filled(target, cap, ops) {
      var n: nat :| FilledAt(target, cap, ops, n);
      assert n == |before| || FilledAt(target, cap, before, n);
    }
  }

  lemma FilledEarlier(target: nat, cap: nat, before: seq<Op>, op: Op, n: nat)
    requires n < |before|
    ensures FilledAt(target, cap, before + [op], n) <==>
              FilledAt(target, cap, before, n) && (op.PopOp? ==> Run(New(target, cap), before).pending != map[])
  {
    hide Run, New;
    var ops := before + [op];
    forall m: nat | m <= |before| ensures PendingBefore(target, cap, ops, m) == PendingBefore(target, cap, before, m) {
      assert ops[..m] == before[..m];
    }
    assert before[..|before|] == before;
    assert forall m :: 0 <= m < |before| ==> ops[m] == before[m];
    assert ops[|before|] == op;
  }

  /** A packet is refused if and only if the reports have got past its sequence; of what is pending
      and the packet the buffer keeps the largest sequences, as many as its cap, which is no less
      than its pre-roll. */
  lemma PushKeepsLargest(target: nat, cap: nat, ops: seq<Op>, sequence: u64, payload: Payload)
    ensures var st, out := Run(New(target, cap), ops), Emissions(New(target, cap), ops);
            var refused := out != [] && out[0] != Empty && sequence < (out[0].sequence + |out|) % TWO_64;
            IsLargestPart(Push(st, sequence, payload).pending,
                          if refused then st.pending else st.pending[sequence := payload], Max(cap, Max(target, 1)))
  {
    hide Run, Emissions;
    EmissionsAreContiguous(target, cap, ops);
    CapIsKept(target, cap, ops);
    NewIsSound(target, cap);
    RunKeepsInv(New(target, cap), ops);
    var st := Run(New(target, cap), ops);
    KeepLargestIsLargestPart(st.pending[sequence := payload], st.maxDepth);
  }

  lemma {:induction false} CapIsKept(target: nat, cap: nat, ops: seq<Op>)
    ensures Run(New(target, cap), ops).maxDepth == Max(cap, Max(target, 1))
  {
    if ops == [] {
      assert Run(New(target, cap), ops) == New(target, cap);
    } else {
      CapIsKept(target, cap, ops[..|ops| - 1]);
    }
  }
}
