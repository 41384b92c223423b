/** The per-remote reorder and loss buffer as a transition system on values. The class in
    JitterBuffer.dfy is proved to take exactly these steps. */
module JitterModel {
  import opened Prelude
  import opened OrderedMaps

  type Payload = seq<u8>

  datatype JitterPop =
    | Packet(sequence: u64, payload: Payload)
    | Lost(sequence: u64, nextPayload: Option<Payload>)
    | Empty

  datatype State = State(
    targetDepth: nat,
    maxDepth: nat,
    nextExpected: Option<u64>,
    pending: map<u64, Payload>,
    primed: bool)

  datatype Op = PushOp(sequence: u64, payload: Payload) | PopOp(force: bool)

  function New(targetDepth: nat, maxDepth: nat): State {
    State(Max(targetDepth, 1), Max(maxDepth, Max(targetDepth, 1)), None, map[], false)
  }

  /** The sequence is older than what has already been emitted. */
  predicate IsStale(st: State, sequence: u64) {
    st.nextExpected.Some? && sequence < st.nextExpected.value
  }

  ghost function Push(st: State, sequence: u64, payload: Payload): State {
    if IsStale(st, sequence) then st
    else st.(pending := KeepLargest(st.pending[sequence := payload], st.maxDepth))
  }

  /** The sequence number the next non-empty pop reports. */
  ghost function Expected(st: State): u64
    requires st.pending != map[]
  {
    if st.nextExpected.Some? then st.nextExpected.value else MinKey(st.pending)
  }

  /** A pop that is not forced emits something. */
  predicate IsReady(st: State) {
    st.pending != map[] && (st.primed || |st.pending| >= st.targetDepth)
  }

  ghost function Pop(st: State, force: bool): (State, JitterPop) {
    if st.pending == map[] then (st.(primed := false), Empty)
    else if !force && !IsReady(st) then (st, Empty)
    else
      var expected := Expected(st);
      var after := st.(primed := st.primed || |st.pending| >= st.targetDepth,
                       nextExpected := Some(WrappingSucc(expected)));
      if expected in st.pending then
        (after.(pending := st.pending - {expected}), Packet(expected, st.pending[expected]))
      else
        (after, Lost(expected, Some(st.pending[MinKey(st.pending)])))
  }

  ghost function Step(st: State, op: Op): State {
    match op
    case PushOp(sequence, payload) => Push(st, sequence, payload)
    case PopOp(force) => Pop(st, force).0
  }

  /** What one operation reports to the decoder; a push and an empty pop report nothing. */
  ghost function Report(st: State, op: Op): seq<JitterPop> {
    if op.PushOp? || Pop(st, op.force).1.Empty? then [] else [Pop(st, op.force).1]
  }

  ghost function Run(st: State, ops: seq<Op>): State {
    if ops == [] then st else Step(Run(st, ops[..|ops| - 1]), ops[|ops| - 1])
  }

  ghost function Emissions(st: State, ops: seq<Op>): seq<JitterPop> {
    if ops == [] then []
    else Emissions(st, ops[..|ops| - 1]) + Report(Run(st, ops[..|ops| - 1]), ops[|ops| - 1])
  }

  ghost predicate Inv(st: State) {
    && 1 <= st.targetDepth <= st.maxDepth
    && |st.pending| <= st.maxDepth
    && (st.nextExpected.Some? ==> forall k :: k in st.pending ==> st.nextExpected.value <= k)
    && (st.primed ==> st.nextExpected.Some?)
  }

  /** Every step keeps the buffer within its cap and every pending key at or above the
      cursor, although the cursor wraps: by the time it does, nothing is pending. */
  lemma StepKeepsInv(st: State, op: Op)
    requires Inv(st)
    ensures Inv(Step(st, op))
    ensures (op.PopOp? && Pop(st, op.force).1 != Empty && Pop(st, op.force).1.sequence == TWO_64 - 1) ==>
              Step(st, op).pending == map[]
  {
    match op
    case PushOp(sequence, payload) =>
      if !IsStale(st, sequence) {
        KeepLargestIsLargestPart(st.pending[sequence := payload], st.maxDepth);
      }
    case PopOp(force) =>
      if st.pending != map[] && (force || IsReady(st)) {
        var expected := Expected(st);
        var st' := Pop(st, force).0;
        assert forall k :: k in st'.pending ==> k in st.pending && k != expected;
        if expected == TWO_64 - 1 {
          assert forall k :: k in st'.pending ==> false;
        }
      }
  }

  lemma {:induction false} RunKeepsInv(st: State, ops: seq<Op>)
    requires Inv(st)
    ensures Inv(Run(st, ops))
  {
    if ops == [] {
    } else {
      RunKeepsInv(st, ops[..|ops| - 1]);
      StepKeepsInv(Run(st, ops[..|ops| - 1]), ops[|ops| - 1]);
    }
  }

  lemma RunAppend(st: State, ops: seq<Op>, op: Op)
    ensures Run(st, ops + [op]) == Step(Run(st, ops), op)
    ensures Emissions(st, ops + [op]) == Emissions(st, ops) + Report(Run(st, ops), op)
  {
    assert (ops + [op])[..|ops|] == ops;
  }
}
