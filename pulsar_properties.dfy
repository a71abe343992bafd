/**
 * Properties of the pulsar oscillator over many samples: the accumulators
 * after `n` steps, the stream of samples the oscillator returns, and what
 * the burst counter counts.
 */
module PulsarProperties {
  import opened TableStack
  import opened PulsarOscillator

  /** The accumulators after `n` steps from `s`. */
  function After(c: Config, s: Phases, n: nat): Phases
    decreases n
  {
    if n == 0 then s else After(c, Advance(c, s), n - 1)
  }

  /** The number of the first `n` steps from `s` in which the wavetable phase completes a cycle. */
  function Cycles(c: Config, s: Phases, n: nat): (k: nat)
    ensures k <= n
    decreases n
  {
    if n == 0 then 0 else (if CompletesCycle(c, s) then 1 else 0) + Cycles(c, Advance(c, s), n - 1)
  }

  /** Any number of steps keeps the invariant. */
  lemma {:induction false} AfterKeepsWellFormed(c: Config, s: Phases, n: nat)
    requires WellFormed(c, s)
    ensures WellFormed(c, After(c, s, n))
    decreases n
  {
    if n > 0 {
      AdvanceKeepsWellFormed(c, s);
      AfterKeepsWellFormed(c, Advance(c, s), n - 1);
    }
  }

  /** With every step shorter than one cycle, the phases stay in `[0, boundary)` for good. */
  lemma {:induction false} AfterKeepsInRange(c: Config, s: Phases, n: nat)
    requires InRange(c, s) && StepsBounded(c)
    ensures InRange(c, After(c, s, n))
    decreases n
  {
    if n > 0 {
      AdvanceKeepsInRange(c, s);
      AfterKeepsInRange(c, Advance(c, s), n - 1);
    }
  }

  /**
   * A kept burst table is never read at its last entry: whatever the number
   * of steps, the counter indexes one of the entries before it.
   */
  lemma LastBurstEntryNeverRead(c: Config, s: Phases, n: nat)
    requires WellFormed(c, s) && c.burst.Some?
    ensures 0 <= After(c, s, n).burstPhase < |c.burst.value| - 1
  {
    AfterKeepsWellFormed(c, s, n);
  }

  /**
   * The burst counter counts completed wavetable cycles modulo the burst
   * boundary: after `n` steps it has moved on by the number of cycles
   * completed in them, wrapped.
   */
  lemma {:induction false} BurstCountsCycles(c: Config, s: Phases, n: nat)
    requires c.burstBoundary >= 1 && 0 <= s.burstPhase < c.burstBoundary
    ensures After(c, s, n).burstPhase == (s.burstPhase + Cycles(c, s, n)) % c.burstBoundary
    decreases n
  {
    if n > 0 {
      var s' := Advance(c, s);
      var d := if CompletesCycle(c, s) then 1 else 0;
      BurstCountsCycles(c, s', n - 1);
      CountOneStep(s.burstPhase, d, Cycles(c, s', n - 1), c.burstBoundary);
    }
  }

  /**
   * The counting step on plain integers: wrapping after adding `d` and then
   * adding `rest` modulo `b` is adding `d + rest` modulo `b`.
   */
  lemma CountOneStep(i: int, d: int, rest: int, b: int)
    requires b >= 1 && 0 <= i < b && 0 <= d <= 1
    ensures (WrapIndex(i + d, b) + rest) % b == (i + (d + rest)) % b
  {
    WrapIndexIsModulo(i + d, b);
    ModAddLeft(i + d, rest, b);
  }

  /** Reducing the first summand modulo `m` first does not change the sum modulo `m`. */
  lemma ModAddLeft(a: int, b: int, m: int)
    requires m > 0
    ensures (a % m + b) % m == (a + b) % m
  {
    var q := a / m;
    var y := a % m + b;
    var py, ry := y / m, y % m;
    assert y == py * m + ry;
    assert a + b == (q + py) * m + ry by {
      assert a == q * m + a % m;
      assert (q + py) * m == q * m + py * m;
    }
    ModUnique(a + b, m, q + py, ry);
  }

  /** The remainder modulo `m` is the one `r` in `[0, m)` that leaves a whole multiple of `m`. */
  lemma ModUnique(x: int, m: int, p: int, r: int)
    requires m > 0 && 0 <= r < m && x == p * m + r
    ensures x % m == r
  {
    var p0, r0 := x / m, x % m;
    assert x == p0 * m + r0;
    var k := p - p0;
    assert k * m == r0 - r by {
      assert p * m - p0 * m == (p - p0) * m;
    }
    if k >= 1 {
      MulAtLeast(k, m);
    } else if k <= -1 {
      MulAtMost(k, m);
    }
  }

  /** A positive multiple of a positive `m` is at least `m`. */
  lemma MulAtLeast(k: int, m: int)
    requires k >= 1 && m > 0
    ensures k * m >= m
  {
    assert k * m == (k - 1) * m + m;
    assert (k - 1) * m >= 0;
  }

  /** A negative multiple of a positive `m` is at most `-m`. */
  lemma MulAtMost(k: int, m: int)
    requires k <= -1 && m > 0
    ensures k * m <= -m
  {
    assert k * m == (k + 1) * m - m;
    assert (k + 1) * m <= 0;
  }

  /**
   * With a single burst entry the burst boundary is 0, so the wrap
   * subtracts nothing and the counter is never reset: it grows by one with
   * every completed cycle, without bound. The source's counter is a C `int`,
   * which overflows after `INT_MAX` cycles; the model's integers do not.
   */
  lemma {:induction false} BurstCounterUnbounded(c: Config, s: Phases, n: nat)
    requires c.burstBoundary == 0 && s.burstPhase >= 0
    ensures After(c, s, n).burstPhase == s.burstPhase + Cycles(c, s, n)
    decreases n
  {
    if n > 0 {
      BurstCounterUnbounded(c, Advance(c, s), n - 1);
    }
  }

  /**
   * The morph table only yields positions in `[0, 1)` at phases in
   * `[0, boundary)`, whenever one of the stacks is morphed.
   */
  ghost predicate MorphSafe(c: Config, interpolate: Interpolator) {
    (c.numWts > 1 || c.numWins > 1) ==>
      forall x :: 0.0 <= x < c.boundary as real ==> 0.0 <= interpolate(c.morph, c.boundary, x) < 1.0
  }

  /** A safe morph table keeps every read of a step in range. */
  lemma MorphSafeReadsInBounds(c: Config, s: Phases, interpolate: Interpolator)
    requires WellFormed(c, s) && InRange(c, s) && MorphSafe(c, interpolate)
    ensures ReadsInBounds(c, s, interpolate)
  {
    if c.numWts > 1 || c.numWins > 1 {
      var pos := MorphPosition(c, s, interpolate);
      UnitPositionInBounds(c.numWts, pos);
      UnitPositionInBounds(c.numWins, pos);
    }
  }

  /** The conditions under which the oscillator can be run for any number of samples. */
  ghost predicate Runnable(c: Config, s: Phases, interpolate: Interpolator) {
    WellFormed(c, s) && InRange(c, s) && StepsBounded(c) && MorphSafe(c, interpolate)
  }

  /** One step keeps the oscillator runnable. */
  lemma AdvanceKeepsRunnable(c: Config, s: Phases, interpolate: Interpolator)
    requires Runnable(c, s, interpolate)
    ensures Runnable(c, Advance(c, s), interpolate)
  {
    AdvanceKeepsWellFormed(c, s);
    AdvanceKeepsInRange(c, s);
  }

  /** The first `n` samples the oscillator returns from `s`. */
  function Outputs(c: Config, s: Phases, interpolate: Interpolator, n: nat): (r: seq<real>)
    requires Runnable(c, s, interpolate)
    ensures |r| == n
    decreases n
  {
    if n == 0 then []
    else
      MorphSafeReadsInBounds(c, s, interpolate);
      AdvanceKeepsRunnable(c, s, interpolate);
      [Sample(c, s, interpolate)] + Outputs(c, Advance(c, s), interpolate, n - 1)
  }

  /** Sample `k` of the stream is the one read at the accumulators after `k` steps. */
  lemma {:induction false} OutputsAt(c: Config, s: Phases, interpolate: Interpolator, n: nat, k: nat)
    requires Runnable(c, s, interpolate) && k < n
    ensures Runnable(c, After(c, s, k), interpolate)
    ensures ReadsInBounds(c, After(c, s, k), interpolate)
    ensures Outputs(c, s, interpolate, n)[k] == Sample(c, After(c, s, k), interpolate)
    decreases k
  {
    MorphSafeReadsInBounds(c, s, interpolate);
    AdvanceKeepsRunnable(c, s, interpolate);
    if k > 0 {
      OutputsAt(c, Advance(c, s), interpolate, n - 1, k - 1);
    }
  }

  /**
   * A pulse-width table that is nowhere positive silences the oscillator:
   * whatever the morph table and the step sizes, no table is read, and the
   * sample after any number `k` of steps is 0.
   */
  lemma SilentWithoutPulseWidth(c: Config, s: Phases, interpolate: Interpolator, k: nat)
    requires WellFormed(c, s)
    requires forall x :: interpolate(c.mod, c.boundary, x) <= 0.0
    ensures WellFormed(c, After(c, s, k)) && ReadsInBounds(c, After(c, s, k), interpolate)
    ensures Sample(c, After(c, s, k), interpolate) == 0.0
  {
    AfterKeepsWellFormed(c, s, k);
  }

  /** Hence the stream of a runnable oscillator without pulse width is all zeros. */
  lemma SilentStreamWithoutPulseWidth(c: Config, s: Phases, interpolate: Interpolator, n: nat)
    requires Runnable(c, s, interpolate)
    requires forall x :: interpolate(c.mod, c.boundary, x) <= 0.0
    ensures forall k :: 0 <= k < n ==> Outputs(c, s, interpolate, n)[k] == 0.0
  {
    forall k | 0 <= k < n
      ensures Outputs(c, s, interpolate, n)[k] == 0.0
    {
      OutputsAt(c, s, interpolate, n, k);
      SilentWithoutPulseWidth(c, s, interpolate, k);
    }
  }

  /**
   * A kept burst table gates the stream by completed cycles: sample `k` is
   * 0 whenever the burst entry for the number of cycles completed before it
   * is not positive.
   */
  lemma BurstGatesByCycle(c: Config, s: Phases, interpolate: Interpolator, n: nat, k: nat)
    requires Runnable(c, s, interpolate) && c.burst.Some? && k < n
    requires c.burst.value[(s.burstPhase + Cycles(c, s, k)) % c.burstBoundary] <= 0
    ensures Outputs(c, s, interpolate, n)[k] == 0.0
  {
    OutputsAt(c, s, interpolate, n, k);
    BurstCountsCycles(c, s, k);
  }

  /**
   * With one wavetable and one window, an audible sample is the first
   * wavetable times the first window, both read at the scaled phase; the
   * morph table plays no part.
   */
  lemma SingleTableSample(c: Config, s: Phases, interpolate: Interpolator)
    requires WellFormed(c, s) && ReadsInBounds(c, s, interpolate)
    requires c.numWts == 1 && c.numWins == 1 && Audible(c, s, interpolate)
    ensures Sample(c, s, interpolate)
         == interpolate(c.wts[0], c.boundary, ReadPhase(c, s, interpolate))
          * interpolate(c.wins[0], c.boundary, ReadPhase(c, s, interpolate))
  {
  }

  /**
   * A zero frequency freezes the wavetable phase, so no cycle is ever
   * completed and the burst counter, once in range, never moves.
   */
  lemma {:induction false} FrozenPhase(c: Config, s: Phases, n: nat)
    requires c.freq == 0.0 && 0.0 <= s.phase < c.boundary as real
    requires 0 <= s.burstPhase && (s.burstPhase < c.burstBoundary || c.burstBoundary == 0)
    ensures After(c, s, n).phase == s.phase
    ensures After(c, s, n).burstPhase == s.burstPhase
    ensures Cycles(c, s, n) == 0
    decreases n
  {
    if n > 0 {
      assert c.inc * c.freq == 0.0;
      FrozenPhase(c, Advance(c, s), n - 1);
    }
  }
}
