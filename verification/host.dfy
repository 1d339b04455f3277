/** Values the animator receives from its host: the draws of `Math.random()`,
    the results of `Math.sin`/`Math.cos`, and viewport sizes. None of them is
    computed by the model; their bounds are carried by the types below. */
module Host {

  /** A value returned by `Math.random()`: a real in [0,1). */
  type UnitDraw = r: real | 0.0 <= r < 1.0

  /** A value returned by `Math.sin` or `Math.cos`: a real in [-1,1]. */
  type Wave = r: real | -1.0 <= r <= 1.0

  /** A viewport extent in pixels (`window.innerWidth`, `window.innerHeight`). */
  type Dim = r: real | 0.0 <= r

  /** The sequence of values successive calls of `Math.random()` return, read in
      program order; `pos` is the index of the value the next call returns. */
  datatype Rng = Rng(draw: nat -> UnitDraw, pos: nat) {

    /** The value the next call of `Math.random()` returns. */
    function Peek(): UnitDraw {
      draw(pos)
    }

    /** The stream after one call of `Math.random()`. */
    function Next(): Rng {
      Rng(draw, pos + 1)
    }

    /** The `k`-th value from now (`Ahead(0) == Peek()`). */
    function Ahead(k: nat): UnitDraw {
      draw(pos + k)
    }
  }

  /** `r` is `rng` after between `lo` and `hi` further draws. */
  ghost predicate Consumed(rng: Rng, r: Rng, lo: nat, hi: nat) {
    r.draw == rng.draw && rng.pos + lo <= r.pos <= rng.pos + hi
  }

  lemma MulNonneg(a: real, b: real)
    requires a >= 0.0 && b >= 0.0
    ensures a * b >= 0.0
  {
  }

  lemma MulPos(a: real, b: real)
    requires a > 0.0 && b > 0.0
    ensures a * b > 0.0
  {
  }

  /** `Math.random() * extent`: a point on [0, extent), or 0 for a zero extent. */
  function Scale(d: UnitDraw, extent: Dim): (v: real)
    ensures 0.0 <= v <= extent
    ensures extent > 0.0 ==> v < extent
  {
    var rest: real := 1.0 - d;
    MulNonneg(d, extent);
    MulNonneg(rest, extent);
    assert extent > 0.0 ==> rest * extent > 0.0 by {
      if extent > 0.0 { MulPos(rest, extent); }
    }
    assert d * extent == extent - rest * extent;
    d * extent
  }
}
