/** The noise gate: an automaton with hysteresis and hangover, and what it says about the whole
    history of frames it has seen. */
module NoiseGates {
  import opened Prelude

  /** How a frame compares with the two thresholds. */
  datatype Level = Loud | Middle | Quiet

  datatype Gate = Gate(hangover: u32, remaining: u32, isOpen: bool)

  function NewGate(hangover: u32): Gate {
    Gate(hangover, 0, false)
  }

  function Process(g: Gate, level: Level): Gate {
    match level
    case Loud => g.(isOpen := true, remaining := g.hangover)
    case Middle => if g.isOpen then g.(remaining := g.hangover) else g
    case Quiet =>
      if !g.isOpen then g
      else if g.remaining == 0 then g.(isOpen := false)
      else g.(remaining := g.remaining - 1)
  }

  function ProcessAll(hangover: u32, levels: seq<Level>): Gate {
    if levels == [] then NewGate(hangover)
    else Process(ProcessAll(hangover, levels[..|levels| - 1]), levels[|levels| - 1])
  }

  // ----- Energy -----

  /** The sum of the squared samples. */
  function Energy(frame: seq<i16>): nat {
    if frame == [] then 0 else Energy(frame[..|frame| - 1]) + Square(frame[|frame| - 1])
  }

  function Square(x: int): nat {
    if x >= 0 then x * x else (-x) * (-x)
  }

  /** The root mean square is at least `t`, without taking the root; it is 0 for no samples. */
  predicate RmsAtLeast(frame: seq<i16>, t: real) {
    t <= 0.0 || (frame != [] && Energy(frame) as real >= t * t * (|frame| as real))
  }

  function LevelOf(frame: seq<i16>, open: real, close: real): Level {
    if RmsAtLeast(frame, open) then Loud
    else if RmsAtLeast(frame, if close <= open then close else open) then Middle
    else Quiet
  }

  class NoiseGate {
    const openThreshold: real
    const closeThreshold: real
    const hangoverFrames: u32
    var remainingHangover: u32
    var isOpen: bool

    /** The level of every frame processed so far. */
    ghost var history: seq<Level>

    function Model(): Gate
      reads this
    {
      Gate(hangoverFrames, remainingHangover, isOpen)
    }

    ghost predicate Valid()
      reads this
    {
      Model() == ProcessAll(hangoverFrames, history)
    }

    constructor (open: real, close: real, hangover: u32)
      ensures Valid() && history == [] && hangoverFrames == hangover
      ensures openThreshold == open && closeThreshold == if close <= open then close else open
    {
      openThreshold := open;
      closeThreshold := if close <= open then close else open;
      hangoverFrames := hangover;
      remainingHangover := 0;
      isOpen := false;
      history := [];
    }

    method ProcessFrame(frame: seq<i16>) returns (active: bool)
      requires Valid()
      modifies this
      ensures Valid()
      ensures history == old(history) + [LevelOf(frame, openThreshold, closeThreshold)]
      ensures active == isOpen
    {
      ghost var level := LevelOf(frame, openThreshold, closeThreshold);
      ghost var before := history;
      history := history + [level];
      assert history[..|before|] == before;
      var energy := FrameEnergy(frame);
      if MeetsThreshold(energy, |frame|, openThreshold) {
        isOpen := true;
        remainingHangover := hangoverFrames;
      } else if isOpen {
        if !MeetsThreshold(energy, |frame|, closeThreshold) {
          if remainingHangover == 0 {
            isOpen := false;
          } else {
            remainingHangover := remainingHangover - 1;
          }
        } else {
          remainingHangover := hangoverFrames;
        }
      }
      active := isOpen;
    }

    lemma OpenIffHistory()
      requires Valid()
      ensures isOpen <==> OpenByHistory(history, hangoverFrames)
    {
      GateFollowsHistory(hangoverFrames, history);
    }
  }

  predicate MeetsThreshold(energy: nat, length: nat, t: real) {
    t <= 0.0 || (length > 0 && energy as real >= t * t * (length as real))
  }

  method FrameEnergy(frame: seq<i16>) returns (acc: nat)
    ensures acc == Energy(frame)
  {
    acc := 0;
    for i := 0 to |frame|
      invariant acc == Energy(frame[..i])
    {
      assert frame[..i + 1][..i] == frame[..i];
      acc := acc + Square(frame[i]);
    }
    assert frame[..|frame|] == frame;
  }

  // ----- The gate in terms of its history -----

  /** How many quiet frames the history ends with. */
  function QuietRun(levels: seq<Level>): (n: nat)
    ensures n <= |levels|
    ensures forall k :: |levels| - n <= k < |levels| ==> levels[k] == Quiet
    ensures n < |levels| ==> levels[|levels| - n - 1] != Quiet
  {
    if levels == [] || levels[|levels| - 1] != Quiet then 0 else QuietRun(levels[..|levels| - 1]) + 1
  }

  /** The `m` frames from position `j` on are all quiet. */
  predicate AllQuiet(levels: seq<Level>, j: nat, m: nat) {
    j + m <= |levels| && forall k :: j <= k < j + m ==> levels[k] == Quiet
  }

  /** The quiet frames from `j` on outlast the hangover. */
  predicate IsClosingRun(levels: seq<Level>, j: nat, hangover: u32) {
    AllQuiet(levels, j, hangover + 1)
  }

  /** Frame `i` was loud and has not been followed by hangover + 1 quiet frames in a row. */
  ghost predicate HoldsSince(levels: seq<Level>, i: nat, hangover: u32) {
    i < |levels| && levels[i] == Loud && forall j: nat :: i < j ==> !IsClosingRun(levels, j, hangover)
  }

  ghost predicate OpenByHistory(levels: seq<Level>, hangover: u32) {
    exists i: nat :: HoldsSince(levels, i, hangover)
  }

  lemma QuietWindowEnds(levels: seq<Level>, level: Level, j: nat, m: nat)
    requires m > 0
    ensures AllQuiet(levels + [level], j, m) <==>
              AllQuiet(levels, j, m) || (level == Quiet && j + m == |levels| + 1 && AllQuiet(levels, j, m - 1))
  {
    var all := levels + [level];
    if AllQuiet(all, j, m) && j + m <= |levels| {
      forall k | j <= k < j + m ensures levels[k] == Quiet { assert all[k] == levels[k]; }
    }
    if AllQuiet(all, j, m) && j + m == |levels| + 1 {
      assert all[|levels|] == level;
      forall k | j <= k < j + m - 1 ensures levels[k] == Quiet { assert all[k] == levels[k]; }
    }
  }

  /** After any frames the gate is open if and only if some frame was loud and no run of
      hangover + 1 quiet frames has come since; while open, the remaining hangover is the
      hangover less the quiet frames at the end. */
  lemma {:induction false} GateFollowsHistory(hangover: u32, levels: seq<Level>)
    ensures var g := ProcessAll(hangover, levels);
            && g.hangover == hangover
            && (g.isOpen <==> OpenByHistory(levels, hangover))
            && (g.isOpen ==> QuietRun(levels) <= hangover && g.remaining == hangover - QuietRun(levels))
  {
    if levels == [] {
    } else {
      var before, level := levels[..|levels| - 1], levels[|levels| - 1];
      assert levels == before + [level];
      GateFollowsHistory(hangover, before);
      if level == Loud {
        assert HoldsSince(levels, |levels| - 1, hangover);
      } else if ProcessAll(hangover, before).isOpen {
        StaysOrCloses(hangover, before, level);
      } else {
        StaysClosed(hangover, before, level);
      }
    }
  }

  lemma StaysClosed(hangover: u32, before: seq<Level>, level: Level)
    requires level != Loud && !OpenByHistory(before, hangover)
    ensures !OpenByHistory(before + [level], hangover)
  {
    var levels := before + [level];
    forall i: nat ensures !HoldsSince(levels, i, hangover) {
      if i < |before| && levels[i] == Loud {
        assert !HoldsSince(before, i, hangover);
        var j: nat :| i < j && IsClosingRun(before, j, hangover);
        QuietWindowEnds(before, level, j, hangover + 1);
        assert IsClosingRun(levels, j, hangover);
      }
    }
  }

  lemma StaysOrCloses(hangover: u32, before: seq<Level>, level: Level)
    requires level != Loud && OpenByHistory(before, hangover) && QuietRun(before) <= hangover
    ensures OpenByHistory(before + [level], hangover) <==> !(level == Quiet && QuietRun(before) == hangover)
    ensures QuietRun(before + [level]) == if level == Quiet then QuietRun(before) + 1 else 0
  {
    var levels, m, run := before + [level], hangover + 1, QuietRun(before);
    assert levels[..|before|] == before;
    if level == Quiet && run == hangover {
      var j := |before| - run;
      assert AllQuiet(before, j, run);
      QuietWindowEnds(before, level, j, m);
      assert IsClosingRun(levels, j, hangover);
      forall i: nat ensures !HoldsSince(levels, i, hangover) {
        if i < |levels| && levels[i] == Loud { assert i < j; }
      }
    } else {
      var i: nat :| HoldsSince(before, i, hangover);
      forall j: nat | i < j ensures !IsClosingRun(levels, j, hangover) {
        assert !IsClosingRun(before, j, hangover);
        QuietWindowEnds(before, level, j, m);
      }
      assert HoldsSince(levels, i, hangover);
    }
  }

  // ----- Levels of samples -----

  /** Energies of parts add up, and a sample's is its square. */
  lemma {:induction false} EnergyAddsUp(a: seq<i16>, b: seq<i16>)
    ensures Energy(a + b) == Energy(a) + Energy(b)
  {
    if b == [] {
      assert a + b == a;
    } else {
      var n := |b| - 1;
      EnergyAddsUp(a, b[..n]);
      assert (a + b)[..|a| + n] == a + b[..n];
    }
  }

  lemma EnergyOfOne(x: i16)
    ensures Energy([x]) == x * x
  {
    assert [x][..0] == [];
  }

  /** The signal swings between `a` and `-a`. */
  predicate Swings(frame: seq<i16>, a: int) {
    a >= 0 && forall i :: 0 <= i < |frame| ==> frame[i] == a || frame[i] == -a
  }

  lemma {:induction false} EnergyOfSwing(frame: seq<i16>, a: int)
    requires Swings(frame, a)
    ensures Energy(frame) == |frame| * (a * a)
  {
    if frame == [] {
    } else {
      var n := |frame| - 1;
      EnergyOfSwing(frame[..n], a);
      assert Square(frame[n]) == a * a;
      assert (n + 1) * (a * a) == n * (a * a) + a * a;
    }
  }

  lemma SquareOrder(a: real, t: real)
    requires a >= 0.0 && t > 0.0
    ensures a * a >= t * t <==> a >= t
  {
    assert a * a - t * t == (a - t) * (a + t);
    if a >= t {
      MulOrder(0.0, a - t, a + t);
    } else {
      MulOrder(a - t, 0.0, a + t);
    }
  }

  lemma MulOrder(x: real, y: real, z: real)
    requires x <= y && z >= 0.0
    ensures x * z <= y * z
    ensures x < y && z > 0.0 ==> x * z < y * z
  {
  }

  /** The root mean square of a swing is its amplitude. */
  lemma RmsOfSwing(frame: seq<i16>, a: int, t: real)
    requires frame != [] && Swings(frame, a)
    ensures RmsAtLeast(frame, t) <==> t <= a as real
  {
    hide Energy;
    EnergyOfSwing(frame, a);
    EnergyAsReal(|frame|, a);
    if t > 0.0 {
      SquareOrder(a as real, t);
      CompareScaled(a as real * a as real, t * t, |frame| as real);
    }
  }

  lemma CompareScaled(x: real, y: real, n: real)
    requires n > 0.0
    ensures x * n >= y * n <==> x >= y
  {
    if x >= y {
      MulOrder(y, x, n);
    } else {
      MulOrder(x, y, n);
    }
  }

  lemma EnergyAsReal(n: nat, a: nat)
    ensures (n * (a * a)) as real == (a as real * a as real) * (n as real)
  {
    ProductAsReal(a, a);
    ProductAsReal(n, a * a);
  }

  lemma ProductAsReal(a: nat, b: nat)
    ensures (a * b) as real == a as real * b as real
  {
    if a == 0 {
    } else {
      ProductAsReal(a - 1, b);
      assert a * b == (a - 1) * b + b;
      assert a as real == (a - 1) as real + 1.0;
      assert ((a - 1) as real + 1.0) * b as real == (a - 1) as real * b as real + b as real;
    }
  }

  /** A swing is loud from the opening threshold on, and quiet below both thresholds. */
  lemma LevelOfSwing(frame: seq<i16>, a: int, open: real, close: real)
    requires frame != [] && Swings(frame, a)
    ensures LevelOf(frame, open, close) == Loud <==> a as real >= open
    ensures LevelOf(frame, open, close) == Quiet <==> a as real < open && a as real < close
  {
    hide RmsAtLeast;
    RmsOfSwing(frame, a, open);
    RmsOfSwing(frame, a, close);
  }

  /** No samples at all are loud only if the threshold is not positive. */
  lemma LevelOfNothing(open: real, close: real)
    ensures LevelOf([], open, close) == Loud <==> open <= 0.0
    ensures LevelOf([], open, close) == Quiet <==> open > 0.0 && close > 0.0
  {
  }
}
