/** What the jitter buffer guarantees over whole runs of pushes and pops. */
module JitterRuns {
  import opened Prelude
  import opened OrderedMaps
  import opened JitterModel

  // ----- Contiguous emission -----

  /** The reported sequences are consecutive modulo 2^64, and the cursor is one past the last. */
  ghost predicate Contiguous(out: seq<JitterPop>, cursor: Option<u64>) {
    && (forall i :: 0 <= i < |out| ==> out[i] != Empty)
    && (forall i :: 0 <= i < |out| ==> out[i].sequence == (out[0].sequence + i) % TWO_64)
    && (cursor.Some? <==> out != [])
    && (out != [] ==> cursor.value == (out[0].sequence + |out|) % TWO_64)
  }

  /** In every run of a new buffer each report, packet or loss, follows the one before it. */
  lemma {:induction false} EmissionsAreContiguous(targetDepth: nat, maxDepth: nat, ops: seq<Op>)
    ensures Contiguous(Emissions(New(targetDepth, maxDepth), ops),
                       Run(New(targetDepth, maxDepth), ops).nextExpected)
  {
    if ops == [] {
    } else {
      var st0 := New(targetDepth, maxDepth);
      var before, op := ops[..|ops| - 1], ops[|ops| - 1];
      EmissionsAreContiguous(targetDepth, maxDepth, before);
      var st := Run(st0, before);
      StepFollowsCursor(st, op);
      ExtendContiguous(Emissions(st0, before), Report(st, op), st.nextExpected, Step(st, op).nextExpected);
    }
  }

  lemma StepFollowsCursor(st: State, op: Op)
    ensures var more := Report(st, op);
            && |more| <= 1
            && (more == [] ==> Step(st, op).nextExpected == st.nextExpected)
            && (more != [] ==>
                  && more[0] != Empty
                  && (st.nextExpected.Some? ==> more[0].sequence == st.nextExpected.value)
                  && Step(st, op).nextExpected == Some(WrappingSucc(more[0].sequence)))
  {
  }

  lemma ExtendContiguous(out: seq<JitterPop>, more: seq<JitterPop>, cursor: Option<u64>, cursor': Option<u64>)
    requires Contiguous(out, cursor) && |more| <= 1
    requires more == [] ==> cursor' == cursor
    requires more != [] ==> && more[0] != Empty
                            && (cursor.Some? ==> more[0].sequence == cursor.value)
                            && cursor' == Some(WrappingSucc(more[0].sequence))
    ensures Contiguous(out + more, cursor')
  {
    if more == [] {
      assert out + more == out;
    } else if out != [] {
      SuccIsModular(out[0].sequence + |out|);
    }
  }

  lemma SuccIsModular(x: nat)
    ensures WrappingSucc(x % TWO_64) == (x + 1) % TWO_64
  {
  }

  /** When the stale filter keeps its promise: in every run of a new buffer, everything reported
      so far would be dropped if it came again, if and only if the cursor has not wrapped. */
  lemma ReportedIsStaleIff(targetDepth: nat, maxDepth: nat, ops: seq<Op>)
    ensures var st, out := Run(New(targetDepth, maxDepth), ops), Emissions(New(targetDepth, maxDepth), ops);
            (forall i :: 0 <= i < |out| ==> out[i] != Empty && IsStale(st, out[i].sequence)) <==>
              (out == [] || (out[0] != Empty && out[0].sequence + |out| < TWO_64))
  {
    hide Run, Emissions, New;
    EmissionsAreContiguous(targetDepth, maxDepth, ops);
    var st, out := Run(New(targetDepth, maxDepth), ops), Emissions(New(targetDepth, maxDepth), ops);
    if out != [] && out[0].sequence + |out| >= TWO_64 {
      var last := TWO_64 - 1 - out[0].sequence;
      assert out[last].sequence == TWO_64 - 1;
    }
  }

  /** Right after the last sequence number has been reported nothing is pending and the next push
      is accepted, however old. A session must end before it runs out of numbers. */
  lemma WrapForgetsThePast(st: State, force: bool, sequence: u64, payload: Payload)
    requires Inv(st)
    requires Pop(st, force).1 != Empty && Pop(st, force).1.sequence == TWO_64 - 1
    ensures var st' := Pop(st, force).0;
            st'.pending == map[] && sequence in Push(st', sequence, payload).pending
  {
    StepKeepsInv(st, PopOp(force));
    var st' := Pop(st, force).0;
    KeepLargestIsLargestPart(st'.pending[sequence := payload], st'.maxDepth);
  }

  // ----- Reports of losses -----

  /** A loss is reported only for a sequence that is not pending; the payload offered with
      it is always there and belongs to the smallest pending sequence, which is larger. The
      next report is that very packet exactly when the gap ends here; otherwise it is another
      loss offering the same payload. */
  lemma LossReport(st: State, force: bool, again: bool)
    requires Inv(st) && Pop(st, force).1.Lost?
    ensures var (st', pop) := Pop(st, force);
            && pop.sequence !in st.pending
            && st'.pending == st.pending
            && (exists next :: && IsMinKey(st.pending, next)
                               && pop.sequence < next
                               && pop.nextPayload == Some(st.pending[next])
                               && (again || st'.primed ==>
                                     if next == pop.sequence + 1
                                     then Pop(st', again).1 == Packet(next, st.pending[next])
                                     else Pop(st', again).1 == Lost(pop.sequence + 1, pop.nextPayload)))
  {
    var next := MinKey(st.pending);
    assert IsMinKey(st.pending, next);
  }

  // ----- Draining -----

  /** How many reports are left before the buffer is empty. */
  ghost function Remaining(st: State): int
    requires st.pending != map[]
  {
    MaxKey(st.pending) - Expected(st) + 1
  }

  lemma PopShrinksGap(st: State, force: bool)
    requires Inv(st) && Pop(st, force).1 != Empty
    ensures var st' := Pop(st, force).0;
            && Inv(st')
            && (st'.pending == map[] <==> Remaining(st) == 1)
            && (st'.pending != map[] ==>
                  && Expected(st') == Expected(st) + 1
                  && MaxKey(st'.pending) == MaxKey(st.pending)
                  && 0 < Remaining(st') == Remaining(st) - 1)
  {
    StepKeepsInv(st, PopOp(force));
    var st' := Pop(st, force).0;
    var expected := Expected(st);
    assert forall k :: k in st.pending <==> k in st'.pending || (k == expected && k in st.pending);
    if st'.pending == map[] {
      assert IsMaxKey(st.pending, expected);
    } else {
      assert IsMaxKey(st.pending, MaxKey(st'.pending));
    }
  }

  /** The measure under which draining ends. */
  ghost function Left(st: State): nat {
    if st.pending == map[] then 0 else Max(Remaining(st), 0)
  }

  /** The receive worker's drain loop: pop until nothing more is reported. */
  ghost function Drain(st: State): (State, seq<JitterPop>)
    requires Inv(st)
    decreases Left(st)
  {
    var (st', pop) := Pop(st, false);
    if pop == Empty then (st', [])
    else
      PopShrinksGap(st, false);
      var (last, rest) := Drain(st');
      (last, [pop] + rest)
  }

  lemma DrainStep(st: State)
    requires Inv(st)
    ensures var (st', pop) := Pop(st, false);
            && Inv(st')
            && (pop == Empty ==> Drain(st) == (st', []))
            && (pop != Empty ==> Left(st') < Left(st) && Drain(st) == (Drain(st').0, [pop] + Drain(st').1))
  {
    StepKeepsInv(st, PopOp(false));
    if Pop(st, false).1 != Empty {
      PopShrinksGap(st, false);
    }
  }

  /** Draining `start` has reported `out` and reached `st`. */
  ghost predicate DrainedTo(start: State, st: State, out: seq<JitterPop>) {
    Inv(start) && Inv(st) && Drain(start) == (Drain(st).0, out + Drain(st).1)
  }

  lemma DrainedNothing(st: State)
    requires Inv(st)
    ensures DrainedTo(st, st, [])
  {
    assert [] + Drain(st).1 == Drain(st).1;
  }

  lemma DrainedMore(start: State, st: State, out: seq<JitterPop>)
    requires DrainedTo(start, st, out)
    ensures var (st', pop) := Pop(st, false);
            if pop == Empty then Drain(start) == (st', out)
            else DrainedTo(start, st', out + [pop]) && Left(st') < Left(st)
  {
    DrainStep(st);
    var (st', pop) := Pop(st, false);
    if pop == Empty {
      assert out + [] == out;
    } else {
      assert out + ([pop] + Drain(st').1) == out + [pop] + Drain(st').1;
    }
  }

  lemma DrainedPrefix(start: State, st: State, out: seq<JitterPop>)
    requires DrainedTo(start, st, out)
    ensures out <= Drain(start).1
  {
  }

  ghost function Above(m: map<u64, Payload>, s: int): map<u64, Payload> {
    map k | k in m && s < k :: m[k]
  }

  ghost predicate AtOrBelowPending(m: map<u64, Payload>, s: int) {
    s in m || Above(m, s) != map[]
  }

  /** What draining `m` reports for sequence `s`, read off `m` alone. */
  ghost function DrainedAt(m: map<u64, Payload>, s: u64): JitterPop
    requires AtOrBelowPending(m, s)
  {
    if s in m then Packet(s, m[s]) else Lost(s, Some(m[MinKey(Above(m, s))]))
  }

  ghost predicate ReportsAt(pop: JitterPop, m: map<u64, Payload>, s: int) {
    0 <= s < TWO_64 && AtOrBelowPending(m, s) && pop == DrainedAt(m, s)
  }

  /** `out` covers the interval from `from` to the largest pending sequence, one report each. */
  ghost predicate CoversPending(out: seq<JitterPop>, m: map<u64, Payload>, from: u64)
    requires m != map[]
  {
    && |out| == MaxKey(m) - from + 1
    && forall i :: 0 <= i < |out| ==> ReportsAt(out[i], m, from + i)
  }

  /** Draining a buffer that is ready reports every sequence from the cursor to the largest
      pending one, with a packet exactly at the pending ones, and then is empty; draining one
      that is not ready reports nothing. This holds however large the gaps are. */
  lemma {:induction false} DrainIsExact(st: State)
    requires Inv(st)
    ensures var (last, out) := Drain(st);
            if IsReady(st)
            then && CoversPending(out, st.pending, Expected(st))
                 && last == st.(pending := map[], primed := false,
                                nextExpected := Some(WrappingSucc(MaxKey(st.pending))))
            else out == [] && last == st.(primed := st.primed && st.pending != map[])
    decreases Left(st)
  {
    if !IsReady(st) {
    } else {
      var (st', pop) := Pop(st, false);
      PopShrinksGap(st, false);
      DrainIsExact(st');
      FirstReport(st);
      if st'.pending != map[] {
        ExtendCover(st, Drain(st').1);
      }
    }
  }

  lemma SameReportLater(m: map<u64, Payload>, m': map<u64, Payload>, pop: JitterPop, from: u64, s: u64)
    requires m' == m - {from} && from < s && ReportsAt(pop, m', s)
    ensures ReportsAt(pop, m, s)
  {
    assert Above(m', s) == Above(m, s);
  }

  lemma ExtendCover(st: State, rest: seq<JitterPop>)
    requires Inv(st) && IsReady(st)
    requires var st' := Pop(st, false).0;
             st'.pending != map[] && CoversPending(rest, st'.pending, Expected(st'))
    ensures CoversPending([Pop(st, false).1] + rest, st.pending, Expected(st))
  {
    PopShrinksGap(st, false);
    FirstReport(st);
    var (st', pop) := Pop(st, false);
    var out, from := [pop] + rest, Expected(st);
    assert st'.pending == st.pending - {from};
    hide Pop, Expected, Inv, IsReady, Above, AtOrBelowPending;
    forall i | 0 <= i < |out| ensures ReportsAt(out[i], st.pending, from + i) {
      if i > 0 {
        assert ReportsAt(rest[i - 1], st'.pending, from + i);
        SameReportLater(st.pending, st'.pending, out[i], from, from + i);
      }
    }
  }

  lemma FirstReport(st: State)
    requires Inv(st) && IsReady(st)
    ensures ReportsAt(Pop(st, false).1, st.pending, Expected(st))
  {
    var s := Expected(st);
    if s !in st.pending {
      assert Above(st.pending, s) == st.pending;
    }
  }

  // ----- Arrival order -----

  datatype Arrival = Arrival(sequence: u64, payload: Payload)

  ghost function PushAll(st: State, arrivals: seq<Arrival>): State {
    if arrivals == [] then st
    else
      var n := |arrivals| - 1;
      Push(PushAll(st, arrivals[..n]), arrivals[n].sequence, arrivals[n].payload)
  }

  /** The pending map with every arrival that is not stale written over it, no cap applied. */
  ghost function Merge(st: State, arrivals: seq<Arrival>): map<u64, Payload> {
    if arrivals == [] then st.pending
    else
      var n := |arrivals| - 1;
      var m := Merge(st, arrivals[..n]);
      if IsStale(st, arrivals[n].sequence) then m else m[arrivals[n].sequence := arrivals[n].payload]
  }

  /** Pushing a list and evicting as it goes leaves what one would get by keeping, of all
      sequences pending or arrived in time, the `maxDepth` largest, each with its last
      payload. Nothing else changes. */
  lemma {:induction false} PushAllKeepsLargest(st: State, arrivals: seq<Arrival>)
    requires |st.pending| <= st.maxDepth
    ensures PushAll(st, arrivals) == st.(pending := KeepLargest(Merge(st, arrivals), st.maxDepth))
  {
    if arrivals == [] {
    } else {
      var n := |arrivals| - 1;
      PushAllKeepsLargest(st, arrivals[..n]);
      KeepLargestAbsorbs(Merge(st, arrivals[..n]), st.maxDepth, arrivals[n].sequence, arrivals[n].payload);
    }
  }

  lemma {:induction false} MergeContents(st: State, arrivals: seq<Arrival>, k: u64)
    ensures k in Merge(st, arrivals) <==>
              k in st.pending || exists a :: a in arrivals && a.sequence == k && !IsStale(st, k)
    ensures k in Merge(st, arrivals) ==>
              || Arrival(k, Merge(st, arrivals)[k]) in arrivals
              || (k in st.pending && Merge(st, arrivals)[k] == st.pending[k] &&
                    forall a :: a in arrivals && a.sequence == k ==> IsStale(st, k))
  {
    if arrivals == [] {
    } else {
      var n := |arrivals| - 1;
      MergeContents(st, arrivals[..n], k);
      assert arrivals == arrivals[..n] + [arrivals[n]];
      assert arrivals[n] in arrivals;
    }
  }

  /** The payload is a function of the sequence: any two arrivals with the same sequence agree. */
  ghost predicate Functional(arrivals: seq<Arrival>) {
    forall a, b :: a in arrivals && b in arrivals && a.sequence == b.sequence ==> a == b
  }

  /** Reordering or duplicating what arrives between two pops changes neither the buffer nor
      what it later reports, even when the cap evicts on the way. */
  lemma ArrivalOrderIsIrrelevant(st: State, first: seq<Arrival>, second: seq<Arrival>, later: seq<Op>)
    requires Inv(st) && Functional(first)
    requires forall a :: a in first <==> a in second
    ensures PushAll(st, first) == PushAll(st, second)
    ensures Emissions(PushAll(st, first), later) == Emissions(PushAll(st, second), later)
  {
    var m1, m2 := Merge(st, first), Merge(st, second);
    forall k: u64 ensures k in m1 <==> k in m2
                  ensures k in m1 ==> m1[k] == m2[k]
    {
      MergeContents(st, first, k);
      MergeContents(st, second, k);
    }
    assert m1 == m2;
    PushAllKeepsLargest(st, first);
    PushAllKeepsLargest(st, second);
  }

  /** The pending sequences after a burst: the `maxDepth` largest of those pending before and
      those that arrived at or above the cursor. */
  lemma BurstKeepsNewest(st: State, arrivals: seq<Arrival>)
    requires Inv(st)
    ensures var before := st.pending.Keys + (set a | a in arrivals && !IsStale(st, a.sequence) :: a.sequence);
            var after := PushAll(st, arrivals).pending.Keys;
            && after <= before
            && |after| == Min(st.maxDepth, |before|)
            && forall a, b :: a in after && b in before && b !in after ==> b < a
  {
    var before := st.pending.Keys + (set a | a in arrivals && !IsStale(st, a.sequence) :: a.sequence);
    var m := Merge(st, arrivals);
    forall k: u64 ensures k in m <==> k in before {
      MergeContents(st, arrivals, k);
    }
    assert m.Keys == before;
    assert |m.Keys| == |m|;
    PushAllKeepsLargest(st, arrivals);
    KeepLargestIsLargestPart(m, st.maxDepth);
    var after := PushAll(st, arrivals).pending;
    assert |after.Keys| == |after|;
  }

  // ----- Conservation -----

  ghost function Entries(m: map<u64, Payload>): (s: set<Arrival>)
    ensures forall x :: x in s <==> x.sequence in m && x.payload == m[x.sequence]
  {
    set k | k in m :: Arrival(k, m[k])
  }

  ghost function Held(m: map<u64, Payload>): multiset<Arrival> {
    multiset(Entries(m))
  }

  ghost function PushedBy(op: Op): multiset<Arrival> {
    if op.PushOp? then multiset{Arrival(op.sequence, op.payload)} else multiset{}
  }

  ghost function Pushed(ops: seq<Op>): multiset<Arrival> {
    if ops == [] then multiset{}
    else
      Pushed(ops[..|ops| - 1]) + PushedBy(ops[|ops| - 1])
  }

  /** The ways a pushed packet can leave the buffer without being reported. */
  datatype Discards = Discards(
    stale: multiset<Arrival>,
    overwritten: multiset<Arrival>,
    evicted: multiset<Arrival>)

  ghost function DiscardsOf(st: State, op: Op): Discards {
    if op.PopOp? then Discards(multiset{}, multiset{}, multiset{})
    else if IsStale(st, op.sequence) then
      Discards(multiset{Arrival(op.sequence, op.payload)}, multiset{}, multiset{})
    else
      var grown := st.pending[op.sequence := op.payload];
      Discards(multiset{},
               if op.sequence in st.pending then multiset{Arrival(op.sequence, st.pending[op.sequence])}
               else multiset{},
               Held(grown - Push(st, op.sequence, op.payload).pending.Keys))
  }

  ghost function AllDiscards(st: State, ops: seq<Op>): Discards {
    if ops == [] then Discards(multiset{}, multiset{}, multiset{})
    else
      var d := AllDiscards(st, ops[..|ops| - 1]);
      var e := DiscardsOf(Run(st, ops[..|ops| - 1]), ops[|ops| - 1]);
      Discards(d.stale + e.stale, d.overwritten + e.overwritten, d.evicted + e.evicted)
  }

  ghost function Packets(out: seq<JitterPop>): multiset<Arrival> {
    if out == [] then multiset{}
    else
      var pop := out[|out| - 1];
      Packets(out[..|out| - 1]) + if pop.Packet? then multiset{Arrival(pop.sequence, pop.payload)} else multiset{}
  }

  lemma BagOfDisjointUnion<T>(a: set<T>, b: set<T>)
    requires a !! b
    ensures multiset(a + b) == multiset(a) + multiset(b)
  {
  }

  lemma HeldSplit(m: map<u64, Payload>, part: map<u64, Payload>)
    requires part.Keys <= m.Keys && forall k :: k in part ==> part[k] == m[k]
    ensures Held(m) == Held(m - part.Keys) + Held(part)
  {
    var rest := m - part.Keys;
    forall x ensures x in Entries(m) <==> x in Entries(rest) + Entries(part) {
      assert x.sequence in m <==> x.sequence in rest || x.sequence in part;
    }
    assert Entries(m) == Entries(rest) + Entries(part);
    BagOfDisjointUnion(Entries(rest), Entries(part));
  }

  lemma HeldSingle(k: u64, p: Payload)
    ensures Held(map[k := p]) == multiset{Arrival(k, p)}
  {
    assert Entries(map[k := p]) == {Arrival(k, p)};
  }

  lemma HeldWithout(m: map<u64, Payload>, k: u64)
    requires k in m
    ensures Held(m) == Held(m - {k}) + multiset{Arrival(k, m[k])}
  {
    HeldSplit(m, map[k := m[k]]);
    HeldSingle(k, m[k]);
    assert map[k := m[k]].Keys == {k};
  }

  lemma HeldAfterInsert(m: map<u64, Payload>, k: u64, p: Payload)
    ensures Held(m) + multiset{Arrival(k, p)}
            == Held(m[k := p]) + (if k in m then multiset{Arrival(k, m[k])} else multiset{})
  {
    HeldWithout(m[k := p], k);
    assert m[k := p] - {k} == m - {k};
    if k in m {
      HeldWithout(m, k);
    } else {
      assert m - {k} == m;
    }
  }

  lemma EvictionSplits(grown: map<u64, Payload>, n: nat)
    ensures var kept := KeepLargest(grown, n);
            Held(grown) == Held(kept) + Held(grown - kept.Keys)
  {
    var kept := KeepLargest(grown, n);
    KeepLargestIsLargestPart(grown, n);
    HeldSplit(grown, kept);
  }

  lemma PopConserves(st: State, force: bool)
    requires Inv(st)
    ensures Held(st.pending) == Held(Pop(st, force).0.pending) + Packets(Report(st, PopOp(force)))
  {
    var pop := Pop(st, force).1;
    if pop != Empty {
      assert [pop][..0] == [];
      assert Packets([pop]) == if pop.Packet? then multiset{Arrival(pop.sequence, pop.payload)} else multiset{};
      if pop.Packet? { HeldWithout(st.pending, pop.sequence); }
    }
  }

  lemma StepConserves(st: State, op: Op)
    requires Inv(st)
    ensures var d := DiscardsOf(st, op);
            Held(st.pending) + PushedBy(op)
            == Held(Step(st, op).pending) + Packets(Report(st, op)) + d.stale + d.overwritten + d.evicted
  {
    if op.PopOp? {
      PopConserves(st, op.force);
    } else if !IsStale(st, op.sequence) {
      HeldAfterInsert(st.pending, op.sequence, op.payload);
      EvictionSplits(st.pending[op.sequence := op.payload], st.maxDepth);
    }
  }

  lemma PacketsConcat(out: seq<JitterPop>, pop: JitterPop)
    ensures Packets(out + [pop]) == Packets(out) + Packets([pop])
  {
    assert (out + [pop])[..|out|] == out;
    assert [pop][..0] == [];
  }

  /** Every packet ever pushed is accounted for exactly once: dropped as stale, overwritten by
      a later push of its sequence, evicted by the cap, reported, or still pending. */
  lemma {:induction false} PacketsAreConserved(st: State, ops: seq<Op>)
    requires Inv(st)
    ensures var d := AllDiscards(st, ops);
            Held(st.pending) + Pushed(ops)
            == Held(Run(st, ops).pending) + Packets(Emissions(st, ops)) + d.stale + d.overwritten + d.evicted
  {
    if ops == [] {
    } else {
      var before, op := ops[..|ops| - 1], ops[|ops| - 1];
      PacketsAreConserved(st, before);
      RunKeepsInv(st, before);
      StepConserves(Run(st, before), op);
      var mid := Run(st, before);
      var out, more := Emissions(st, before), Report(mid, op);
      if more != [] {
        PacketsConcat(out, more[0]);
        assert more == [more[0]];
      } else {
        assert out + more == out;
      }
      var d, e := AllDiscards(st, before), DiscardsOf(mid, op);
      AddLedgers(Held(st.pending), Pushed(before), Held(mid.pending), Packets(out), d,
                 PushedBy(op), Held(Step(mid, op).pending), Packets(more), e);
    }
  }

  lemma AddLedgers(h0: multiset<Arrival>, p0: multiset<Arrival>, h1: multiset<Arrival>, e0: multiset<Arrival>,
                   d0: Discards, p1: multiset<Arrival>, h2: multiset<Arrival>, e1: multiset<Arrival>, d1: Discards)
    requires h0 + p0 == h1 + e0 + d0.stale + d0.overwritten + d0.evicted
    requires h1 + p1 == h2 + e1 + d1.stale + d1.overwritten + d1.evicted
    ensures h0 + (p0 + p1) == h2 + (e0 + e1) + (d0.stale + d1.stale) + (d0.overwritten + d1.overwritten)
                              + (d0.evicted + d1.evicted)
  {
    var lhs := h0 + (p0 + p1);
    var rhs := h2 + (e0 + e1) + (d0.stale + d1.stale) + (d0.overwritten + d1.overwritten)
               + (d0.evicted + d1.evicted);
    forall x ensures lhs[x] == rhs[x] {
      assert (h0 + p0)[x] == (h1 + e0 + d0.stale + d0.overwritten + d0.evicted)[x];
      assert (h1 + p1)[x] == (h2 + e1 + d1.stale + d1.overwritten + d1.evicted)[x];
    }
  }

  // ----- Why a packet is lost -----

  predicate WasPushed(ops: seq<Op>, k: u64) {
    exists i :: 0 <= i < |ops| && ops[i].PushOp? && ops[i].sequence == k
  }

  ghost predicate WasEvicted(st: State, ops: seq<Op>, k: u64) {
    exists a :: a in AllDiscards(st, ops).evicted && a.sequence == k
  }

  lemma PushedLast(ops: seq<Op>, k: u64)
    requires ops != [] && WasPushed(ops, k)
    ensures var n := |ops| - 1;
            WasPushed(ops[..n], k) || (ops[n].PushOp? && ops[n].sequence == k)
  {
    var i :| 0 <= i < |ops| && ops[i].PushOp? && ops[i].sequence == k;
    if i < |ops| - 1 { assert ops[..|ops| - 1][i] == ops[i]; }
  }

  lemma EvictedLast(st: State, ops: seq<Op>, k: u64)
    requires ops != []
    ensures var n := |ops| - 1;
            (|| WasEvicted(st, ops[..n], k)
             || exists a :: a in DiscardsOf(Run(st, ops[..n]), ops[n]).evicted && a.sequence == k) ==>
              WasEvicted(st, ops, k)
  {
    hide DiscardsOf, Run;
    var n := |ops| - 1;
    var before, last := AllDiscards(st, ops[..n]).evicted, DiscardsOf(Run(st, ops[..n]), ops[n]).evicted;
    assert AllDiscards(st, ops).evicted == before + last;
    assert forall a :: a in before || a in last ==> a in before + last;
  }

  /** One step keeps a pending sequence that is still ahead of the cursor, or evicts it. */
  lemma PendingStaysOrEvicted(st: State, op: Op, k: u64)
    requires Inv(st) && !IsStale(st, k)
    requires k in st.pending || (op.PushOp? && op.sequence == k)
    requires Report(st, op) != [] ==> Report(st, op)[0].sequence != TWO_64 - 1
    requires !IsStale(Step(st, op), k)
    ensures k in Step(st, op).pending || exists a :: a in DiscardsOf(st, op).evicted && a.sequence == k
  {
    if op.PushOp? && !IsStale(st, op.sequence) {
      var grown, kept := st.pending[op.sequence := op.payload], Step(st, op).pending;
      if k !in kept {
        assert Arrival(k, grown[k]) in Entries(grown - kept.Keys);
        assert Arrival(k, grown[k]) in Held(grown - kept.Keys);
      }
    }
  }

  lemma CursorAdvances(st: State, op: Op, k: u64)
    requires Inv(st) && !IsStale(Step(st, op), k)
    requires Report(st, op) != [] ==> Report(st, op)[0].sequence != TWO_64 - 1
    ensures !IsStale(st, k)
  {
  }

  lemma {:induction false} PushedIsPendingOrEvicted(targetDepth: nat, maxDepth: nat, ops: seq<Op>, k: u64)
    requires WasPushed(ops, k) && !IsStale(Run(New(targetDepth, maxDepth), ops), k)
    requires forall pop :: pop in Emissions(New(targetDepth, maxDepth), ops) ==>
               pop != Empty && pop.sequence != TWO_64 - 1
    ensures k in Run(New(targetDepth, maxDepth), ops).pending || WasEvicted(New(targetDepth, maxDepth), ops, k)
  {
    hide New, WasPushed, WasEvicted, Inv, IsStale, Step, Report, DiscardsOf;
    var st0 := New(targetDepth, maxDepth);
    assert Inv(st0) by { NewIsSound(targetDepth, maxDepth); }
    PushedNotNothing(ops, k);
    var before, op := ops[..|ops| - 1], ops[|ops| - 1];
    var st := Run(st0, before);
    RunKeepsInv(st0, before);
    assert Emissions(st0, ops) == Emissions(st0, before) + Report(st, op);
    if Report(st, op) != [] { assert Report(st, op)[0] in Emissions(st0, ops); }
    assert forall pop :: pop in Emissions(st0, before) ==> pop in Emissions(st0, ops);
    CursorAdvances(st, op, k);
    PushedLast(ops, k);
    EvictedLast(st0, ops, k);
    if WasPushed(before, k) {
      PushedIsPendingOrEvicted(targetDepth, maxDepth, before, k);
    }
    if !WasEvicted(st0, before, k) {
      PendingStaysOrEvicted(st, op, k);
    }
  }

  lemma PushedNotNothing(ops: seq<Op>, k: u64)
    requires WasPushed(ops, k)
    ensures ops != []
  {
  }

  lemma NewIsSound(targetDepth: nat, maxDepth: nat)
    ensures Inv(New(targetDepth, maxDepth))
  {
  }

  /** Before the sequence numbers wrap, a sequence is reported lost only if it has not arrived or
      the cap has evicted it. */
  lemma LossHasACause(targetDepth: nat, maxDepth: nat, ops: seq<Op>, force: bool)
    requires forall pop :: pop in Emissions(New(targetDepth, maxDepth), ops) ==>
               pop != Empty && pop.sequence != TWO_64 - 1
    requires Pop(Run(New(targetDepth, maxDepth), ops), force).1.Lost?
    ensures var k := Pop(Run(New(targetDepth, maxDepth), ops), force).1.sequence;
            WasPushed(ops, k) ==> WasEvicted(New(targetDepth, maxDepth), ops, k)
  {
    hide New, Run, WasPushed, WasEvicted, Emissions;
    var st := Run(New(targetDepth, maxDepth), ops);
    var k := Pop(st, force).1.sequence;
    if WasPushed(ops, k) {
      assert !IsStale(st, k) && k !in st.pending;
      PushedIsPendingOrEvicted(targetDepth, maxDepth, ops, k);
    }
  }
}
