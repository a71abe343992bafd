# Pulsar oscillator (libpulsar) in Dafny

A model of the pulsar synthesis oscillator of libpulsar, `src/pulsar.h`:
the oscillator record `pulsar_t`, its creation `create_pulsar` and its
per-sample step `process_pulsar`.

An oscillator holds a stack of wavetables and a stack of windows, all of one
table size, a pulse-width table, a morph table and an optional burst
pattern. Each call of the step

- reads the pulse width at the modulation phase and inverts it (0 when the
  width is not positive);
- reads the burst gate, the current burst entry, or 1 when the burst
  pattern is off;
- when both let sound through, reads the morph position at the morph phase
  and, in each stack, crossfades the two adjacent tables the position
  selects, both read at the wavetable phase scaled by the inverse pulse
  width;
- advances the three phase accumulators by `inc` times their frequencies,
  counts a completed wavetable cycle in the burst counter, and wraps every
  accumulator by a single conditional subtraction;
- returns the wavetable value times the window value.

Layout:

- `table_stack.dfy`, module `TableStack`: C's `(int)` truncation, the morph
  index and fraction, the crossfade and the stack read used for both stacks.
- `pulsar.dfy`, module `PulsarOscillator`: the configuration and the
  accumulators as values (`Config`, `Phases`), the pure specification of one
  step (`Sample`, the value returned, and `Advance`, the new accumulators),
  and the class `Pulsar` with the fields of `pulsar_t`, its constructors and
  the in-place step `Process`, proved against `Sample` and `Advance`.
- `pulsar_properties.dfy`, module `PulsarProperties`: the accumulators after
  any number of steps, the stream of samples, and what the burst counter
  counts.

Modelling choices:

- `lpfloat_t` is `real`; the record's fields are renamed to camel case and
  `boundry` is spelled `boundary` (`morphboundry` is `morphBoundary`,
  `burstboundry` is `burstBoundary`).
- `interpolate` lives in `pippicore.h`, which is not part of this model. Every
  operation that reads a table takes it as a parameter, any total function of
  (table, boundary, phase), with no range required of the phase.
- The burst table pointer, NULL once burst is switched off, is an
  `Option<seq<int>>`.
- The step writes only `phase`, `modphase`, `morphphase` and `burstphase`,
  so the other fields are `const` in the class. `create_pulsar` assigns most
  of them; it never assigns `tablesize` or `morphphase`, which keep the 0 of
  the zero-filled allocation.
- The step's body is split into `Read` (lines 99-155 and 174) and `Step`
  (lines 157-171). `Process` calls them in the source's order: every table is
  read before any accumulator moves.
- `Process` requires `ReadsInBounds`: whenever the tables are read, the
  morph position selects two tables inside each stack of two or more. For
  `n` tables that means the scaled position `morphpos * (n - 1)` lies in
  `(-1, n - 1)`, the exact condition under which the truncated index and the
  one after it are in bounds (`MorphIndex`). At 1.0 or above the upper read
  is past the end of the stack (`MorphIndexAtOneOverruns`); at
  `-1 / (n - 1)` or below the lower read is at index -1 or lower, before its
  start (`MorphIndexBelowStart` shows index -1 at `-1 / (n - 1)`). Negative positions above `-1 / (n - 1)` are in
  bounds and allowed: they give a negative weight, and the crossfade
  extrapolates beyond the lower table's value
  (`NegativePositionExtrapolates`).

Where the source and its documentation differ, the model follows the source:

- Burst gating is switched off when `burstboundry = numbursts - 1 <= 1`. That
  happens for tables of one *or two* entries, not only for single-entry tables.
- The burst counter wraps at `numbursts - 1`, so the last burst entry is never
  read (`LastBurstEntryNeverRead`).
- With a single burst entry, `burstboundry` is 0. The wrap then subtracts 0,
  so the counter is never reset: it grows by one per completed cycle
  (`BurstCounterUnbounded`) until, as a C `int`, it overflows.
- The gate lets sound through for a positive burst entry only, not for any
  nonzero entry.
- `morphboundry` is computed at creation but never used.
- `morphphase` is not assigned by `create_pulsar`. It is 0 only because the
  record is allocated zero-filled.
- `tablesize` is not assigned by `create_pulsar` either: it stays 0, and the
  table size appears in the record only as `boundry + 1`.

## Model

| member | source | states |
|---|---|---|
| TableStack.Trunc | src/pulsar.h:132 | the `(int)` conversion truncates toward zero: a non-negative value goes to its whole part, a negative one to the integer just above or equal to it |
| TableStack.MorphMul | src/pulsar.h:130 | the morph span is `n - 1` for two or more tables and never below 1 |
| TableStack.Scaled | src/pulsar.h:131 | the morph position times the span `MorphMul`; its sign is the position's (`ScaledSign`) |
| TableStack.ScaledSign | src/pulsar.h:130-131 | scaling by the span, which is at least 1, keeps the sign of the position |
| TableStack.MorphInBounds | src/pulsar.h:130-135 | the condition for both reads of a stack of two or more tables to be in bounds: the scaled position lies in `(-1, n - 1)`; its exactness is stated by `MorphIndex` |
| TableStack.MorphIndex | src/pulsar.h:130-132 | on a stack of two or more tables, the lower index and the one after it are both in bounds exactly when `MorphInBounds` holds; for a non-negative position the index is the whole part of the scaled position |
| TableStack.TruncInBounds | src/pulsar.h:132 | truncation toward zero gives an index in `[0, m)` exactly for values in `(-1, m)` |
| TableStack.UnitPositionInBounds | src/pulsar.h:130-135 | every morph position in [0, 1) reads in bounds |
| TableStack.MorphFrac | src/pulsar.h:133 | the index plus the weight gives back the scaled position; the weight is in [0, 1) for a non-negative position and in (-1, 0] for a negative one |
| TableStack.Blend | src/pulsar.h:136 | for a weight in [0, 1] the crossfade lies between the two table values, and weight 0 gives the lower table's value exactly |
| TableStack.StackRead | src/pulsar.h:123-136 | one table: exactly its value at the read phase; two or more: both selected indices are in bounds, and for a non-negative position the result lies between the two values read |
| TableStack.MorphIndexAtOneOverruns | src/pulsar.h:130-135 | a morph position of exactly 1.0 selects index `n - 1` as the lower table, so the upper read would be at index `n`, past the end, and `MorphInBounds` fails |
| TableStack.MorphIndexBelowStart | src/pulsar.h:130-134 | the morph position `-1 / (n - 1)` selects index -1, before the start of the stack, and `MorphInBounds` fails |
| TableStack.NegativePositionExtrapolates | src/pulsar.h:130-136 | on three tables position -0.25 is in bounds, reads tables 0 and 1 with weight -0.5, and for values 0 and 1 returns -0.5, outside the range they span |
| TableStack.StackReadAtTable | src/pulsar.h:130-136 | the morph position `k / (n - 1)` reads table `k` alone and exactly |
| TableStack.StackReadLocal | src/pulsar.h:123-136 | the read depends on no table other than the one or two it selects |
| PulsarOscillator.InversePulseWidth | src/pulsar.h:113 | a positive pulse width gives its reciprocal, which is positive; any other width gives 0 |
| PulsarOscillator.Gate | src/pulsar.h:115-117 | with the burst pattern off the gate is 1; with it on, the gate is open exactly when the current entry is positive |
| PulsarOscillator.PulseWidth | src/pulsar.h:99 | the pulse width: the pulse-width table read at the modulation phase; `InversePulseWidth` and `Sample` state what follows from it |
| PulsarOscillator.MorphPosition | src/pulsar.h:120 | the morph position: the morph table read at the morph phase; `ReadsInBounds` constrains it through `MorphInBounds` |
| PulsarOscillator.ReadPhase | src/pulsar.h:125 | the phase both stacks are read at: the wavetable phase times the inverse pulse width; `SingleTableSample` shows both single-table reads use it |
| PulsarOscillator.WavetableValue | src/pulsar.h:123-137 | the wavetable stack read at the morph position and read phase; its bounds and crossfade properties are those of `StackRead` |
| PulsarOscillator.WindowValue | src/pulsar.h:140-154 | the window stack read the same way; again `StackRead` states its properties |
| PulsarOscillator.Audible | src/pulsar.h:119 | the test under which the tables are read: positive inverse pulse width and open gate; `Sample` is 0 outside it and the product of the two stack reads inside it, and `ReadsInBounds` constrains only audible samples |
| PulsarOscillator.Sample | src/pulsar.h:99-155 | the value is 0 when the pulse width is not positive or the kept burst entry is not positive; a nonzero value implies both let sound through; then it is the wavetable read times the window read |
| PulsarOscillator.Wrap | src/pulsar.h:168-170 | one conditional subtraction of the boundary; `WrapIntoRange` and `WrapIsModulo` state what it achieves |
| PulsarOscillator.WrapIndex | src/pulsar.h:171 | the same subtraction on the burst counter; `WrapIndexIsModulo` states it is `% burstboundry` on its range |
| PulsarOscillator.WrapIntoRange | src/pulsar.h:168-170 | one conditional subtraction takes a phase in [0, 2·boundary) into [0, boundary), changing it by one boundary or not at all |
| PulsarOscillator.WrapIsModulo | src/pulsar.h:168-170 | on [0, 2·boundary) the single subtraction equals the true modulo `x - boundary·floor(x / boundary)` |
| PulsarOscillator.WrapIndexIsModulo | src/pulsar.h:171 | on a counter in [0, burstboundry] the subtraction equals `% burstboundry` and lands in range |
| PulsarOscillator.CompletesCycle | src/pulsar.h:163 | a step completes a cycle when the advanced wavetable phase reaches the boundary; `AdvanceCountsCycles` and `BurstCountsCycles` state how the counter follows it |
| PulsarOscillator.Advance | src/pulsar.h:157-171 | the accumulators after one step; `Pulsar.Process` is proved to produce it, and `AdvanceKeepsWellFormed`, `AdvanceKeepsInRange`, `AdvancePhases` and `AdvanceCountsCycles` state its properties |
| PulsarOscillator.AdvanceKeepsWellFormed | src/pulsar.h:163-171 | a step keeps the invariant: while the burst pattern is kept, the counter stays in [0, burstboundry), so `burst[burstphase]` is in bounds |
| PulsarOscillator.AdvanceKeepsInRange | src/pulsar.h:158-170 | if each phase is in [0, boundary) and each step `inc·freq` is in [0, boundary), the phases are in [0, boundary) after the step |
| PulsarOscillator.AdvancePhases | src/pulsar.h:158-170 | each phase moves on by `inc` times its frequency, less one boundary or not |
| PulsarOscillator.AdvanceCountsCycles | src/pulsar.h:163-171 | the burst counter moves on by one, modulo burstboundry, exactly when the advanced wavetable phase reaches the boundary, and is otherwise unchanged |
| PulsarOscillator.DefaultStepsBounded | src/pulsar.h:44-48 | with the default sample rate, table size and frequencies, every step is non-negative and shorter than one cycle |
| PulsarOscillator.Pulsar.Create | src/pulsar.h:42-92 | creation: the given stacks and tables stored, the record's `tablesize` left 0, `boundry = tablesize - 1` for the table size given, `morphboundry = numwts - 1`, `burstboundry = numbursts - 1`, `inc = boundry / samplerate`, all four accumulators 0, the burst pattern dropped exactly when `burstboundry <= 1`, and the invariant holds |
| PulsarOscillator.Pulsar.CreateDefault | src/pulsar.h:42-92 | creation with the default arguments stores the given stacks and tables, has four wavetables and three windows, keeps the four-entry burst pattern, leaves `tablesize` 0, has `boundry = 4095`, `morphboundry = 3`, sample rate 44100, frequencies 220, 0.03 and 0.3, `inc = 4095 / 44100` and all four accumulators 0, and starts in range with every step shorter than a cycle |
| PulsarOscillator.Pulsar.Process | src/pulsar.h:94-175 | one call returns `Sample` of the old accumulators, sets the accumulators to `Advance` of the old ones, and keeps the invariant; no other field changes |
| PulsarOscillator.Pulsar.Read | src/pulsar.h:99-155 | the reading half of the step computes exactly `Sample` |
| PulsarOscillator.Pulsar.Step | src/pulsar.h:157-171 | the advancing half of the step: each phase is its old value plus its step, wrapped once; the counter gains one when the advanced phase reaches the boundary and is wrapped once |
| PulsarProperties.After | src/pulsar.h:94-175 | the accumulators after `n` successive calls; `AfterKeepsWellFormed`, `AfterKeepsInRange`, `BurstCountsCycles` and `OutputsAt` state its properties |
| PulsarProperties.Cycles | src/pulsar.h:163 | counts the steps whose advanced phase reaches the boundary, the test at line 163; each step counts 0 or 1, so the count is at most the number of steps |
| PulsarProperties.AfterKeepsWellFormed | src/pulsar.h:163-171 | any number of steps keeps the invariant |
| PulsarProperties.AfterKeepsInRange | src/pulsar.h:158-170 | with every step shorter than a cycle, the phases stay in [0, boundary) for any number of steps |
| PulsarProperties.LastBurstEntryNeverRead | src/pulsar.h:171 | while the burst pattern is kept, the counter never indexes its last entry, however many steps are taken |
| PulsarProperties.BurstCountsCycles | src/pulsar.h:163-171 | after `n` steps the counter equals its start plus the number of cycles completed in them, modulo burstboundry |
| PulsarProperties.BurstCounterUnbounded | src/pulsar.h:171 | with `burstboundry == 0` the counter equals its start plus the number of completed cycles: it is never wrapped (in C it eventually overflows; see "## Left out") |
| PulsarProperties.MorphSafeReadsInBounds | src/pulsar.h:120-135 | a morph table whose values at phases in range lie in [0, 1), a sufficient condition, keeps every stack read of a step in bounds |
| PulsarProperties.AdvanceKeepsRunnable | src/pulsar.h:157-171 | a step keeps the invariant, the phase ranges and the safe morph table, so the next call's reads are in bounds too |
| PulsarProperties.Outputs | src/pulsar.h:94-175 | successive calls yield one sample each |
| PulsarProperties.OutputsAt | src/pulsar.h:94-175 | sample `k` of the stream is `Sample` at the accumulators after `k` steps, and its reads are in bounds |
| PulsarProperties.SilentWithoutPulseWidth | src/pulsar.h:99-119 | a pulse-width table that is nowhere positive makes the sample after any number of steps 0, for any morph table and step sizes: the invariant alone suffices, and no table read can go out of bounds |
| PulsarProperties.SilentStreamWithoutPulseWidth | src/pulsar.h:94-175 | consequently every sample of the returned stream is 0 |
| PulsarProperties.BurstGatesByCycle | src/pulsar.h:115-119 | sample `k` is 0 when the burst entry at the number of cycles completed so far, wrapped, is not positive |
| PulsarProperties.SingleTableSample | src/pulsar.h:123-142 | with one wavetable and one window, an audible sample is the first wavetable times the first window at the scaled phase; the morph table plays no part |
| PulsarProperties.FrozenPhase | src/pulsar.h:158-165 | with frequency 0 the wavetable phase never moves, no cycle is completed and the burst counter stays put |

## Left out

- `interpolate`, `create_window`, `parsewts`, `parsewins` and `parseburst` come from `pippicore.h`, which is not part of this model. `interpolate` is a parameter. The tables and burst values the others would produce are inputs to `Pulsar.Create`. `Pulsar.CreateDefault` fixes only their counts and table size and stores them as given.
- `destroy_pulsar` and the `calloc`/`free` calls only manage memory and are not modelled. Setting `burst` to NULL at line 76 leaks the allocated burst table; values have no ownership here.
- The `pulsar_factory_t` record and the `Pulsar` constant only dispatch to the three functions and are not modelled.
- Floating-point rounding of `lpfloat_t` is not modelled: values are exact reals. In particular `(1.0/samplerate) * boundry` is exactly `boundry / samplerate`.
- `src/oscs.tape.h` declares types only and holds no logic to model.
- PulsarOscillator.Pulsar.Process: requires `ReadsInBounds`, i.e. that the morph position selects two tables inside every stack of two or more that is read. The source has no such check and reads before the start or past the end of the stack otherwise; that behaviour is undefined and not modelled.
- PulsarOscillator.Pulsar.Create: the record's `tablesize` field is modelled as the source leaves it, 0; the table size the tables are built with is the creation argument `tableSize`, kept in the record only as `boundary + 1`.
- PulsarProperties.BurstCounterUnbounded: `burstphase` is a C `int`, but the model's counter is an unbounded integer. With a single burst entry (`burstboundry == 0`) the wrap subtracts nothing, so in C the counter overflows, which is undefined behaviour, after `INT_MAX` completed cycles. The model does not capture this overflow. With a kept burst table the counter stays below `burstboundry` and cannot overflow.
