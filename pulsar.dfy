/**
 * The pulsar oscillator: a wavetable stack and a window stack read at a
 * common phase, morphed by a slow control table, gated by a pulse-width
 * control table and an optional burst pattern, and advanced once per output
 * sample.
 *
 * The per-sample step is specified by two pure functions over the
 * oscillator's fields, `Sample` (the value returned) and `Advance` (the new
 * accumulators); the class `Pulsar` holds the fields and its method
 * `Process` updates them in place, step by step, proved against the two.
 */
module PulsarOscillator {
  import opened TableStack

  datatype Option<T> = None | Some(value: T)

  /** The fields of the oscillator that the per-sample step reads and never writes. */
  datatype Config = Config(
    wts: Stack,
    wins: Stack,
    numWts: int,
    numWins: int,
    mod: Table,
    morph: Table,
    burst: Option<seq<int>>,
    tableSize: int,
    sampleRate: real,
    boundary: int,
    morphBoundary: int,
    burstBoundary: int,
    freq: real,
    modFreq: real,
    morphFreq: real,
    inc: real)

  /** The four accumulators the per-sample step advances. */
  datatype Phases = Phases(phase: real, modPhase: real, morphPhase: real, burstPhase: int)

  /** Every table of a stack has the shared table size. */
  predicate TablesOfSize(stack: Stack, size: int) {
    forall i :: 0 <= i < |stack| ==> |stack[i]| == size
  }

  /** What creation establishes about the configuration and no step changes. */
  predicate ConfigValid(c: Config) {
    && c.numWts == |c.wts| >= 1
    && c.numWins == |c.wins| >= 1
    && c.boundary >= 0
    && TablesOfSize(c.wts, c.boundary + 1) && TablesOfSize(c.wins, c.boundary + 1)
    && |c.mod| == c.boundary + 1 && |c.morph| == c.boundary + 1
    && c.sampleRate > 0.0
    && c.morphBoundary == c.numWts - 1
    && c.burstBoundary >= 0
    // the burst table is dropped exactly when it has at most two entries
    && (c.burst.None? <==> c.burstBoundary <= 1)
    && (c.burst.Some? ==> |c.burst.value| == c.burstBoundary + 1)
  }

  /**
   * The invariant of an oscillator: a valid configuration, and a burst
   * counter that, while the burst table is kept, indexes one of its entries
   * other than the last.
   */
  predicate WellFormed(c: Config, s: Phases) {
    && ConfigValid(c)
    && s.burstPhase >= 0
    && (c.burst.Some? ==> s.burstPhase < c.burstBoundary)
  }

  /** The three floating-point accumulators lie in `[0, boundary)`. */
  predicate InRange(c: Config, s: Phases) {
    && 0.0 <= s.phase < c.boundary as real
    && 0.0 <= s.modPhase < c.boundary as real
    && 0.0 <= s.morphPhase < c.boundary as real
  }

  /**
   * Each accumulator's per-sample step is non-negative and shorter than one
   * cycle: the documented assumption under which one conditional subtraction
   * wraps a phase back into range.
   */
  predicate StepsBounded(c: Config) {
    && 0.0 <= c.inc * c.freq < c.boundary as real
    && 0.0 <= c.inc * c.modFreq < c.boundary as real
    && 0.0 <= c.inc * c.morphFreq < c.boundary as real
  }

  /** The inverse pulse width: `1/pw` for a positive width, otherwise 0 (silence). */
  function InversePulseWidth(pw: real): (ipw: real)
    ensures pw > 0.0 ==> ipw > 0.0 && ipw * pw == 1.0
    ensures pw <= 0.0 ==> ipw == 0.0
  {
    if pw > 0.0 then 1.0 / pw else 0.0
  }

  /**
   * The burst gate: the current burst entry while the table is kept, and 1
   * (always open) once it has been dropped. The gate is open for a positive
   * entry only.
   */
  function Gate(burst: Option<seq<int>>, burstPhase: int): (g: real)
    requires burst.Some? ==> 0 <= burstPhase < |burst.value|
    ensures burst.None? ==> g == 1.0
    ensures burst.Some? ==> (g > 0.0 <==> burst.value[burstPhase] > 0)
  {
    if burst.Some? then burst.value[burstPhase] as real else 1.0
  }

  /** The pulse width read from the pulse-width table at the modulation phase. */
  function PulseWidth(c: Config, s: Phases, interpolate: Interpolator): real {
    interpolate(c.mod, c.boundary, s.modPhase)
  }

  /** The morph position read from the morph table at the morph phase. */
  function MorphPosition(c: Config, s: Phases, interpolate: Interpolator): real {
    interpolate(c.morph, c.boundary, s.morphPhase)
  }

  /** The tables are read this sample: positive pulse width and open gate. */
  predicate Audible(c: Config, s: Phases, interpolate: Interpolator)
    requires WellFormed(c, s)
  {
    InversePulseWidth(PulseWidth(c, s, interpolate)) > 0.0 && Gate(c.burst, s.burstPhase) > 0.0
  }

  /**
   * Every table index the step computes is in bounds: when the tables are
   * read, the morph position selects two tables inside each stack of two or
   * more.
   */
  predicate ReadsInBounds(c: Config, s: Phases, interpolate: Interpolator)
    requires WellFormed(c, s)
  {
    Audible(c, s, interpolate) ==>
      && MorphInBounds(c.numWts, MorphPosition(c, s, interpolate))
      && MorphInBounds(c.numWins, MorphPosition(c, s, interpolate))
  }

  /**
   * The value one step returns: the blended wavetable value times the
   * blended window value, both read at the phase scaled by the inverse pulse
   * width, and 0 whenever the pulse width is not positive or the burst gate
   * is closed.
   */
  function Sample(c: Config, s: Phases, interpolate: Interpolator): (out: real)
    requires WellFormed(c, s) && ReadsInBounds(c, s, interpolate)
    ensures PulseWidth(c, s, interpolate) <= 0.0 ==> out == 0.0
    ensures c.burst.Some? && c.burst.value[s.burstPhase] <= 0 ==> out == 0.0
    ensures out != 0.0 ==> Audible(c, s, interpolate)
    ensures Audible(c, s, interpolate) ==> out == WavetableValue(c, s, interpolate) * WindowValue(c, s, interpolate)
  {
    var ipw := InversePulseWidth(PulseWidth(c, s, interpolate));
    var gate := Gate(c.burst, s.burstPhase);
    if ipw > 0.0 && gate > 0.0 then
      WavetableValue(c, s, interpolate) * WindowValue(c, s, interpolate)
    else
      0.0
  }

  /** The phase the stacks are read at: the wavetable phase scaled by the inverse pulse width. */
  function ReadPhase(c: Config, s: Phases, interpolate: Interpolator): real {
    s.phase * InversePulseWidth(PulseWidth(c, s, interpolate))
  }

  /** The blended wavetable value of an audible sample. */
  function WavetableValue(c: Config, s: Phases, interpolate: Interpolator): real
    requires WellFormed(c, s) && ReadsInBounds(c, s, interpolate) && Audible(c, s, interpolate)
  {
    StackRead(c.wts, c.boundary, MorphPosition(c, s, interpolate), ReadPhase(c, s, interpolate), interpolate)
  }

  /** The blended window value of an audible sample. */
  function WindowValue(c: Config, s: Phases, interpolate: Interpolator): real
    requires WellFormed(c, s) && ReadsInBounds(c, s, interpolate) && Audible(c, s, interpolate)
  {
    StackRead(c.wins, c.boundary, MorphPosition(c, s, interpolate), ReadPhase(c, s, interpolate), interpolate)
  }

  /** One conditional subtraction of the boundary: `if (x >= boundary) x -= boundary`. */
  function Wrap(x: real, boundary: int): real {
    if x >= boundary as real then x - boundary as real else x
  }

  /** The same conditional subtraction on the integer burst counter. */
  function WrapIndex(i: int, boundary: int): int {
    if i >= boundary then i - boundary else i
  }

  /**
   * One subtraction moves a value in `[0, 2 * boundary)` into
   * `[0, boundary)`, changing it by a whole boundary or not at all, and
   * leaves a value below the boundary alone.
   */
  lemma WrapIntoRange(x: real, boundary: int)
    requires 0.0 <= x < 2.0 * boundary as real
    ensures 0.0 <= Wrap(x, boundary) < boundary as real
    ensures Wrap(x, boundary) == x || Wrap(x, boundary) == x - boundary as real
    ensures x < boundary as real ==> Wrap(x, boundary) == x
  {
  }

  /**
   * Under the same condition one subtraction is the true floating-point
   * modulo: `x - boundary * floor(x / boundary)`.
   */
  lemma WrapIsModulo(x: real, boundary: int)
    requires 0.0 <= x < 2.0 * boundary as real
    ensures Wrap(x, boundary) == x - boundary as real * (x / boundary as real).Floor as real
  {
    var b := boundary as real;
    if x < b {
      QuotientBetween(x, b, 0.0);
      assert (x / b).Floor == 0;
    } else {
      QuotientBetween(x, b, 1.0);
      assert (x / b).Floor == 1;
    }
  }

  /** A value between `k * b` and `(k + 1) * b` divided by a positive `b` lies between `k` and `k + 1`. */
  lemma QuotientBetween(x: real, b: real, k: real)
    requires b > 0.0 && k * b <= x < (k + 1.0) * b
    ensures k <= x / b < k + 1.0
  {
    var q := x / b;
    assert q * b == x;
    if q < k {
      ScaleStrict(q, k, b);
    }
    if q >= k + 1.0 {
      if q > k + 1.0 {
        ScaleStrict(k + 1.0, q, b);
      }
    }
  }

  /** Multiplying both sides of a strict inequality by a positive number keeps it. */
  lemma ScaleStrict(p: real, q: real, b: real)
    requires b > 0.0 && p < q
    ensures p * b < q * b
  {
    assert q * b - p * b == (q - p) * b;
  }

  /** On a counter in `[0, boundary]` the subtraction agrees with `% boundary`. */
  lemma WrapIndexIsModulo(i: int, boundary: int)
    requires 0 <= i <= boundary && 0 < boundary
    ensures WrapIndex(i, boundary) == i % boundary
    ensures 0 <= WrapIndex(i, boundary) < boundary
  {
  }

  /** The wavetable phase has reached the boundary after this step's increment. */
  predicate CompletesCycle(c: Config, s: Phases) {
    s.phase + c.inc * c.freq >= c.boundary as real
  }

  /**
   * The accumulators after one step: each phase moves on by `inc` times its
   * frequency and is wrapped, and the burst counter moves on by one exactly
   * when the wavetable phase completes a cycle, and is wrapped.
   */
  function Advance(c: Config, s: Phases): Phases {
    Phases(Wrap(s.phase + c.inc * c.freq, c.boundary),
           Wrap(s.modPhase + c.inc * c.modFreq, c.boundary),
           Wrap(s.morphPhase + c.inc * c.morphFreq, c.boundary),
           WrapIndex(s.burstPhase + if CompletesCycle(c, s) then 1 else 0, c.burstBoundary))
  }

  /** `Advance` field by field. */
  lemma AdvanceByFields(c: Config, s: Phases, s': Phases)
    requires s'.phase == Wrap(s.phase + c.inc * c.freq, c.boundary)
    requires s'.modPhase == Wrap(s.modPhase + c.inc * c.modFreq, c.boundary)
    requires s'.morphPhase == Wrap(s.morphPhase + c.inc * c.morphFreq, c.boundary)
    requires s'.burstPhase == WrapIndex(s.burstPhase + if s.phase + c.inc * c.freq >= c.boundary as real then 1 else 0, c.burstBoundary)
    ensures s' == Advance(c, s)
  {
  }

  /**
   * A step keeps the invariant: in particular a kept burst table is only
   * ever indexed below its last entry.
   */
  lemma AdvanceKeepsWellFormed(c: Config, s: Phases)
    requires WellFormed(c, s)
    ensures WellFormed(c, Advance(c, s))
  {
  }

  /**
   * When every step is shorter than one cycle, a step keeps the three
   * phases in `[0, boundary)`.
   */
  lemma AdvanceKeepsInRange(c: Config, s: Phases)
    requires InRange(c, s) && StepsBounded(c)
    ensures InRange(c, Advance(c, s))
  {
  }

  /**
   * Each phase moves on by its step, less one boundary when it reached the
   * boundary.
   */
  lemma AdvancePhases(c: Config, s: Phases)
    ensures var s' := Advance(c, s);
      && (s'.phase == s.phase + c.inc * c.freq || s'.phase == s.phase + c.inc * c.freq - c.boundary as real)
      && (s'.modPhase == s.modPhase + c.inc * c.modFreq || s'.modPhase == s.modPhase + c.inc * c.modFreq - c.boundary as real)
      && (s'.morphPhase == s.morphPhase + c.inc * c.morphFreq || s'.morphPhase == s.morphPhase + c.inc * c.morphFreq - c.boundary as real)
  {
  }

  /**
   * While the burst table is kept, the counter moves on by one modulo the
   * burst boundary exactly when the wavetable phase completes a cycle, and
   * is otherwise unchanged.
   */
  lemma AdvanceCountsCycles(c: Config, s: Phases)
    requires WellFormed(c, s) && c.burst.Some?
    ensures Advance(c, s).burstPhase == (s.burstPhase + if CompletesCycle(c, s) then 1 else 0) % c.burstBoundary
    ensures CompletesCycle(c, s) ==> Advance(c, s).burstPhase == if s.burstPhase + 1 == c.burstBoundary then 0 else s.burstPhase + 1
    ensures !CompletesCycle(c, s) ==> Advance(c, s).burstPhase == s.burstPhase
  {
  }

  /** Multiplying by the reciprocal of the sample rate divides by it. */
  lemma ScaledReciprocal(rate: real, x: real)
    requires rate > 0.0
    ensures (1.0 / rate) * x == x / rate
  {
  }

  const DefaultSampleRate: real := 44100.0
  const DefaultTableSize: int := 4096
  const DefaultFreq: real := 220.0
  const DefaultModFreq: real := 0.03
  const DefaultMorphFreq: real := 0.3
  /** Sizes of the default stacks "sine,square,tri,sine" and "sine,hann,sine" and burst "1,1,0,1". */
  const DefaultNumWts: int := 4
  const DefaultNumWins: int := 3
  const DefaultNumBursts: int := 4

  /**
   * One oscillator instance; its fields are those of the source's record.
   * The per-sample step writes only the four accumulators, so the others are
   * declared `const`: creation assigns them once.
   */
  class Pulsar {
    const wts: Stack
    const wins: Stack
    const numWts: int
    const numWins: int
    const mod: Table
    const morph: Table
    const burst: Option<seq<int>>
    const tableSize: int
    const sampleRate: real
    const boundary: int
    const morphBoundary: int
    const burstBoundary: int
    var burstPhase: int
    var phase: real
    var modPhase: real
    var morphPhase: real
    const freq: real
    const modFreq: real
    const morphFreq: real
    const inc: real

    ghost function Configuration(): Config {
      Config(wts, wins, numWts, numWins, mod, morph, burst, tableSize, sampleRate,
             boundary, morphBoundary, burstBoundary, freq, modFreq, morphFreq, inc)
    }

    ghost function Accumulators(): Phases
      reads this
    {
      Phases(phase, modPhase, morphPhase, burstPhase)
    }

    ghost predicate Valid()
      reads this
    {
      WellFormed(Configuration(), Accumulators())
    }

    /**
     * Creation from ready-built content: the stacks and the burst values an
     * external parser produced, and the pulse-width and morph tables an
     * external window generator produced, all of one table size. The
     * record's own `tableSize` field is never assigned and keeps the 0 of the
     * zero-filled allocation; the table size survives only as `boundary + 1`.
     */
    constructor Create(sampleRate: real, tableSize: int, freq: real, modFreq: real, morphFreq: real,
                       wts: Stack, wins: Stack, burstTable: seq<int>, mod: Table, morph: Table)
      requires sampleRate > 0.0 && tableSize >= 1
      requires |wts| >= 1 && |wins| >= 1 && |burstTable| >= 1
      requires TablesOfSize(wts, tableSize) && TablesOfSize(wins, tableSize)
      requires |mod| == tableSize && |morph| == tableSize
      ensures Valid()
      ensures this.wts == wts && this.wins == wins && numWts == |wts| && numWins == |wins|
      ensures this.mod == mod && this.morph == morph
      ensures this.tableSize == 0 && this.sampleRate == sampleRate
      ensures this.freq == freq && this.modFreq == modFreq && this.morphFreq == morphFreq
      ensures boundary == tableSize - 1
      ensures morphBoundary == |wts| - 1
      ensures burstBoundary == |burstTable| - 1
      ensures inc == boundary as real / sampleRate
      ensures burst == if |burstTable| <= 2 then None else Some(burstTable)
      ensures Accumulators() == Phases(0.0, 0.0, 0.0, 0)
    {
      var bound := tableSize - 1;
      var burstBound := |burstTable| - 1;
      var kept := Some(burstTable);
      this.wts := wts;
      this.wins := wins;
      this.numWts := |wts|;
      this.numWins := |wins|;
      this.sampleRate := sampleRate;
      this.tableSize := 0;  // the source leaves this field as allocated: zero-filled
      boundary := bound;
      morphBoundary := |wts| - 1;
      burstBoundary := burstBound;
      if burstBound <= 1 {
        kept := None;  // burst gating is off for tables of up to two entries
      }
      burst := kept;
      this.mod := mod;
      this.morph := morph;
      burstPhase := 0;
      phase := 0.0;
      modPhase := 0.0;
      morphPhase := 0.0;  // not set explicitly in the source: the record is zero-filled on allocation
      this.freq := freq;
      this.modFreq := modFreq;
      this.morphFreq := morphFreq;
      inc := (1.0 / sampleRate) * bound as real;
      ScaledReciprocal(sampleRate, bound as real);
    }

    /**
     * Creation with the default settings: sample rate 44100, table size
     * 4096, frequencies 220, 0.03 and 0.3, four wavetables, three windows and
     * a four-entry burst pattern (which is kept). The default steps are
     * shorter than one cycle and the phases start in range.
     */
    static method CreateDefault(wts: Stack, wins: Stack, burstTable: seq<int>, mod: Table, morph: Table)
      returns (p: Pulsar)
      requires |wts| == DefaultNumWts && |wins| == DefaultNumWins && |burstTable| == DefaultNumBursts
      requires TablesOfSize(wts, DefaultTableSize) && TablesOfSize(wins, DefaultTableSize)
      requires |mod| == DefaultTableSize && |morph| == DefaultTableSize
      ensures fresh(p) && p.Valid()
      ensures p.wts == wts && p.wins == wins && p.mod == mod && p.morph == morph
      ensures p.numWts == DefaultNumWts && p.numWins == DefaultNumWins
      ensures p.burst == Some(burstTable) && p.burstBoundary == 3
      ensures p.tableSize == 0 && p.boundary == 4095 && p.morphBoundary == 3
      ensures p.sampleRate == DefaultSampleRate
      ensures p.freq == DefaultFreq && p.modFreq == DefaultModFreq && p.morphFreq == DefaultMorphFreq
      ensures p.inc == 4095.0 / DefaultSampleRate
      ensures p.Accumulators() == Phases(0.0, 0.0, 0.0, 0)
      ensures StepsBounded(p.Configuration()) && InRange(p.Configuration(), p.Accumulators())
    {
      p := new Pulsar.Create(DefaultSampleRate, DefaultTableSize, DefaultFreq, DefaultModFreq,
                             DefaultMorphFreq, wts, wins, burstTable, mod, morph);
      DefaultStepsBounded();
    }

    /**
     * One output sample: reads the tables at the current accumulators, then
     * advances the accumulators. Only the four accumulators change.
     */
    method Process(interpolate: Interpolator) returns (out: real)
      requires Valid()
      requires ReadsInBounds(Configuration(), Accumulators(), interpolate)
      modifies this
      ensures Valid()
      ensures Accumulators() == Advance(Configuration(), old(Accumulators()))
      ensures out == Sample(Configuration(), old(Accumulators()), interpolate)
    {
      out := Read(interpolate);
      Step();
      AdvanceByFields(Configuration(), old(Accumulators()), Accumulators());
      AdvanceKeepsWellFormed(Configuration(), old(Accumulators()));
    }

    /**
     * The reading half of a step: the pulse width, its inverse, the burst
     * gate and, when both let sound through, the morph position and the two
     * stack reads, multiplied.
     */
    method Read(interpolate: Interpolator) returns (out: real)
      requires Valid()
      requires ReadsInBounds(Configuration(), Accumulators(), interpolate)
      ensures out == Sample(Configuration(), Accumulators(), interpolate)
    {
      var pw := interpolate(mod, boundary, modPhase);
      var ipw := 0.0;
      var sample := 0.0;
      var window := 0.0;
      var gate := 1.0;
      var morphPos := 0.0;

      if pw > 0.0 {
        ipw := 1.0 / pw;
      }
      if burst.Some? {
        gate := burst.value[burstPhase] as real;
      }
      ghost var c, s := Configuration(), Accumulators();
      assert ipw == InversePulseWidth(PulseWidth(c, s, interpolate));
      assert gate == Gate(c.burst, s.burstPhase);
      if ipw > 0.0 && gate > 0.0 {
        morphPos := interpolate(morph, boundary, morphPhase);
        assert morphPos == MorphPosition(c, s, interpolate);
        assert phase * ipw == ReadPhase(c, s, interpolate);
        sample := StackRead(wts, boundary, morphPos, phase * ipw, interpolate);
        window := StackRead(wins, boundary, morphPos, phase * ipw, interpolate);
        assert sample == WavetableValue(c, s, interpolate);
        assert window == WindowValue(c, s, interpolate);
      }
      out := sample * window;
    }

    /**
     * The advancing half of a step: each phase moves on by `inc` times its
     * frequency, the burst counter counts a completed wavetable cycle, and
     * each accumulator is wrapped by one conditional subtraction.
     */
    method Step()
      modifies this
      ensures phase == Wrap(old(phase) + inc * freq, boundary)
      ensures modPhase == Wrap(old(modPhase) + inc * modFreq, boundary)
      ensures morphPhase == Wrap(old(morphPhase) + inc * morphFreq, boundary)
      ensures burstPhase == WrapIndex(old(burstPhase) + if old(phase) + inc * freq >= boundary as real then 1 else 0, burstBoundary)
    {
      phase := phase + inc * freq;
      modPhase := modPhase + inc * modFreq;
      morphPhase := morphPhase + inc * morphFreq;

      if phase >= boundary as real {
        burstPhase := burstPhase + 1;
      }

      if phase >= boundary as real {
        phase := phase - boundary as real;
      }
      if modPhase >= boundary as real {
        modPhase := modPhase - boundary as real;
      }
      if morphPhase >= boundary as real {
        morphPhase := morphPhase - boundary as real;
      }
      if burstPhase >= burstBoundary {
        burstPhase := burstPhase - burstBoundary;
      }
    }
  }

  /**
   * With the default sample rate and table size, each default frequency's
   * step is non-negative and shorter than one cycle.
   */
  lemma DefaultStepsBounded()
    ensures var inc := (DefaultTableSize - 1) as real / DefaultSampleRate;
      && 0.0 <= inc * DefaultFreq < (DefaultTableSize - 1) as real
      && 0.0 <= inc * DefaultModFreq < (DefaultTableSize - 1) as real
      && 0.0 <= inc * DefaultMorphFreq < (DefaultTableSize - 1) as real
  {
  }
}
