/**
 * The stack-morph read of the pulsar oscillator: given a stack of equally
 * sized tables and a morph position, pick two adjacent tables, read each with
 * the table interpolator and crossfade between the two values. A stack with a
 * single table is read directly, without any morph arithmetic.
 *
 * Floating-point values (`lpfloat_t`) are modelled as `real`.
 */
module TableStack {

  /** One wavetable, window or control table: a cycle of samples. */
  type Table = seq<real>

  /** An ordered stack of tables, all of the same size. */
  type Stack = seq<Table>

  /**
   * The library's table interpolator `interpolate(data, boundary, phase)`.
   * Its definition is not part of this model, so every operation that reads
   * a table takes it as a parameter: any total function of the three
   * arguments. No range is required of the phase, since the oscillator
   * passes phases beyond the boundary when the pulse width is below 1.
   */
  type Interpolator = (Table, int, real) -> real

  /** C's conversion `(int)x` of a floating-point value: truncation toward zero. */
  function Trunc(x: real): (i: int)
    ensures 0.0 <= x ==> 0 <= i && i as real <= x < i as real + 1.0
    ensures x < 0.0 ==> i <= 0 && i as real - 1.0 < x <= i as real
  {
    if x >= 0.0 then x.Floor else -((-x).Floor)
  }

  /** The span the morph position is scaled by: one less than the stack size, and at least 1. */
  function MorphMul(n: int): (m: int)
    ensures m >= 1
    ensures n >= 2 ==> m == n - 1
    ensures n < 2 ==> m == 1
  {
    if n - 1 > 1 then n - 1 else 1
  }

  /** The morph position scaled by the span of a stack of `n` tables. */
  function Scaled(n: int, morphPos: real): real {
    morphPos * MorphMul(n) as real
  }

  /** Scaling by the span keeps the sign of the position. */
  lemma ScaledSign(n: int, morphPos: real)
    ensures 0.0 <= morphPos ==> 0.0 <= Scaled(n, morphPos)
    ensures morphPos < 0.0 ==> Scaled(n, morphPos) < 0.0
  {
  }

  /**
   * Both tables read for morph position `morphPos` in a stack of `n >= 2`
   * tables are in bounds: the scaled position lies in `(-1, n - 1)`. Stacks
   * of one table are read without a morph position.
   */
  predicate MorphInBounds(n: int, morphPos: real) {
    n >= 2 ==> -1.0 < Scaled(n, morphPos) < (n - 1) as real
  }

  /**
   * The index of the lower of the two tables read for morph position
   * `morphPos` in a stack of `n` tables: the scaled position truncated toward
   * zero. It and the next index are both in bounds exactly when
   * `MorphInBounds` holds, and for a non-negative position it is the whole
   * part of the scaled position.
   */
  function MorphIndex(n: int, morphPos: real): (idx: int)
    ensures n >= 2 ==> (0 <= idx && idx + 1 < n <==> MorphInBounds(n, morphPos))
    ensures 0.0 <= morphPos ==> idx as real <= Scaled(n, morphPos) < idx as real + 1.0
  {
    ScaledSign(n, morphPos);
    TruncInBounds(Scaled(n, morphPos), MorphMul(n));
    Trunc(Scaled(n, morphPos))
  }

  /** Truncation lands in `[0, m)` exactly for values in `(-1, m)`. */
  lemma TruncInBounds(x: real, m: int)
    requires m >= 1
    ensures 0 <= Trunc(x) < m <==> -1.0 < x < m as real
  {
    var i := Trunc(x);
    if x < 0.0 {
      assert i as real - 1.0 < x <= i as real;
      if -1.0 < x {
        assert i as real > -1.0;
      }
    }
  }

  /** Every position in `[0, 1)` reads in bounds. */
  lemma UnitPositionInBounds(n: int, morphPos: real)
    requires 0.0 <= morphPos < 1.0
    ensures MorphInBounds(n, morphPos)
  {
    var m := MorphMul(n);
    assert morphPos * m as real < 1.0 * m as real;
  }

  /**
   * The crossfade weight of the upper table: the fractional part of the
   * scaled morph position.
   */
  function MorphFrac(n: int, morphPos: real): (frac: real)
    ensures 0.0 <= morphPos ==> 0.0 <= frac < 1.0
    ensures morphPos < 0.0 ==> -1.0 < frac <= 0.0
    ensures MorphIndex(n, morphPos) as real + frac == Scaled(n, morphPos)
  {
    ScaledSign(n, morphPos);
    Scaled(n, morphPos) - MorphIndex(n, morphPos) as real
  }

  /**
   * `(1.0 - frac) * a + (frac * b)`: for a weight in [0, 1] the result lies
   * between `a` and `b`, and a weight of 0 gives `a` exactly.
   */
  function Blend(a: real, b: real, frac: real): (r: real)
    ensures 0.0 <= frac <= 1.0 && a <= b ==> a <= r <= b
    ensures 0.0 <= frac <= 1.0 && b <= a ==> b <= r <= a
    ensures frac == 0.0 ==> r == a
  {
    var r := (1.0 - frac) * a + frac * b;
    BlendBetween(a, b, frac, r);
    r
  }

  /** The crossfade moves from `a` toward `b` by the fraction `frac` of their distance. */
  lemma BlendBetween(a: real, b: real, frac: real, r: real)
    requires r == (1.0 - frac) * a + frac * b
    ensures 0.0 <= frac <= 1.0 && a <= b ==> a <= r <= b
    ensures 0.0 <= frac <= 1.0 && b <= a ==> b <= r <= a
  {
    if 0.0 <= frac <= 1.0 && a <= b {
      var d := b - a;
      FractionOf(frac, d);
      var part := frac * d;
      assert r == a + part;
      assert part <= d;
    }
    if 0.0 <= frac <= 1.0 && b <= a {
      var d := a - b;
      FractionOf(1.0 - frac, d);
      var part := (1.0 - frac) * d;
      assert r == b + part;
      assert part <= d;
    }
  }

  /** A fraction in [0, 1] of a non-negative distance lies between 0 and that distance. */
  lemma FractionOf(frac: real, d: real)
    requires 0.0 <= frac <= 1.0 && 0.0 <= d
    ensures 0.0 <= frac * d <= d
  {
    assert d - frac * d == (1.0 - frac) * d;
    assert (1.0 - frac) * d >= 0.0;
  }

  /**
   * The stack-morph read at read phase `x`. A single table is read directly;
   * otherwise the two adjacent tables at the morph position are read and
   * crossfaded. For a non-negative position the result lies between the two
   * values read; a negative position in bounds gives a negative weight, which
   * extrapolates beyond the lower table's value.
   */
  function StackRead(stack: Stack, boundary: int, morphPos: real, x: real, interpolate: Interpolator): (r: real)
    requires |stack| >= 1 && MorphInBounds(|stack|, morphPos)
    ensures |stack| == 1 ==> r == interpolate(stack[0], boundary, x)
    ensures |stack| >= 2 ==>
      var idx := MorphIndex(|stack|, morphPos);
      var a, b := interpolate(stack[idx], boundary, x), interpolate(stack[idx + 1], boundary, x);
      && 0 <= idx < idx + 1 < |stack|
      && (0.0 <= morphPos && a <= b ==> a <= r <= b)
      && (0.0 <= morphPos && b <= a ==> b <= r <= a)
  {
    if |stack| == 1 then
      interpolate(stack[0], boundary, x)
    else
      var idx := MorphIndex(|stack|, morphPos);
      var frac := MorphFrac(|stack|, morphPos);
      var a := interpolate(stack[idx], boundary, x);
      var b := interpolate(stack[idx + 1], boundary, x);
      Blend(a, b, frac)
  }

  /**
   * A morph position of exactly 1.0 on a stack of two or more tables selects
   * the last table as the lower one, so the upper table read would be one
   * past the end of the stack: the read is only in bounds for positions
   * strictly below 1.
   */
  lemma MorphIndexAtOneOverruns(n: int)
    requires n >= 2
    ensures MorphIndex(n, 1.0) == n - 1
    ensures MorphIndex(n, 1.0) + 1 == n
    ensures !MorphInBounds(n, 1.0)
  {
  }

  /**
   * The position `-1 / (n - 1)` selects index -1: the lower read would be one
   * before the start of the stack. Positions below it select index -1 or
   * lower, before the start as well.
   */
  lemma MorphIndexBelowStart(n: int)
    requires n >= 2
    ensures MorphIndex(n, -1.0 / (n - 1) as real) == -1
    ensures !MorphInBounds(n, -1.0 / (n - 1) as real)
  {
    var pos := -1.0 / (n - 1) as real;
    assert pos * (n - 1) as real == -1.0;
  }

  /**
   * A slightly negative position still reads in bounds but extrapolates: on
   * three tables, position -0.25 reads tables 0 and 1 with weight -0.5, so
   * lower and upper values 0 and 1 give -0.5, outside the range they span.
   */
  lemma NegativePositionExtrapolates(stack: Stack, boundary: int, x: real, interpolate: Interpolator)
    requires |stack| == 3
    requires interpolate(stack[0], boundary, x) == 0.0 && interpolate(stack[1], boundary, x) == 1.0
    ensures MorphInBounds(3, -0.25)
    ensures MorphIndex(3, -0.25) == 0 && MorphFrac(3, -0.25) == -0.5
    ensures StackRead(stack, boundary, -0.25, x, interpolate) == -0.5
  {
  }

  /**
   * A morph position that scales to a whole index `k` reads table `k` alone,
   * exactly; position 0.0 reads the first table.
   */
  lemma {:induction false} StackReadAtTable(stack: Stack, k: int, boundary: int, x: real, interpolate: Interpolator)
    requires |stack| >= 2 && 0 <= k < |stack| - 1
    ensures StackRead(stack, boundary, k as real / (|stack| - 1) as real, x, interpolate)
         == interpolate(stack[k], boundary, x)
  {
    var n := |stack|;
    var pos := k as real / (n - 1) as real;
    assert pos * (n - 1) as real == k as real;
    assert 0.0 <= pos < 1.0 by {
      assert k as real < (n - 1) as real;
    }
    UnitPositionInBounds(n, pos);
    assert MorphIndex(n, pos) == k;
    assert MorphFrac(n, pos) == 0.0;
  }

  /**
   * The read depends on no table but the ones it selects: two stacks of the
   * same size that agree on the selected tables give the same value.
   */
  lemma StackReadLocal(s1: Stack, s2: Stack, boundary: int, morphPos: real, x: real, interpolate: Interpolator)
    requires |s1| == |s2| >= 1 && MorphInBounds(|s1|, morphPos)
    requires |s1| == 1 ==> s1[0] == s2[0]
    requires |s1| >= 2 ==>
      var idx := MorphIndex(|s1|, morphPos);
      s1[idx] == s2[idx] && s1[idx + 1] == s2[idx + 1]
    ensures StackRead(s1, boundary, morphPos, x, interpolate) == StackRead(s2, boundary, morphPos, x, interpolate)
  {
  }
}
