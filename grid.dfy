/** The ground grid drawn by `_initGrid` (display.js): a loop that steps `i` from `-size` to
    `size` by `step` and pushes, per step, the two end points of a line parallel to the x
    axis at z = i and of a line parallel to the z axis at x = i, all on the ground (y = 0). */
module Grid {
  import opened Placement

  /** The four vertices pushed in the iteration for `i`. */
  function Quad(i: int, size: int): seq<Point3>
  {
    [Point3(-size, 0, i), Point3(size, 0, i), Point3(i, 0, -size), Point3(i, 0, size)]
  }

  /** The vertices pushed by the iterations from `i` on, the loop running while i <= size. */
  function Lines(i: int, size: int, step: int): seq<Point3>
    requires step > 0
    decreases if i > size then 0 else size - i + 1
  {
    if i > size then [] else Quad(i, size) + Lines(i + step, size, step)
  }

  /** The number of iterations left when the loop variable is `i`. */
  function Iterations(i: int, size: int, step: int): nat
    requires step > 0
  {
    if i > size then 0 else (size - i) / step + 1
  }

  lemma MulAtLeast(d: int, b: int)
    requires d >= 1 && b > 0
    ensures d * b >= b
  {
    var e: nat := d - 1;
    assert d * b == e * b + b;
  }

  /** Euclidean quotient and remainder are the only pair with a == q * b + r, 0 <= r < b. */
  lemma DivUnique(a: int, b: int, q: int, r: int)
    requires 0 < b && 0 <= r < b && a == q * b + r
    ensures a / b == q && a % b == r
  {
    var q', r' := a / b, a % b;
    assert a == q' * b + r';
    assert (q - q') * b == r' - r;
    if q > q' {
      MulAtLeast(q - q', b);
      assert false;
    } else if q < q' {
      MulAtLeast(q' - q, b);
      assert false;
    }
  }

  /** Euclidean division by `b` after taking one `b` away. */
  lemma DivMinusDivisor(a: int, b: int)
    requires 0 < b <= a
    ensures (a - b) / b == a / b - 1
    ensures (a - b) % b == a % b
  {
    var q, r := a / b, a % b;
    assert a == q * b + r;
    assert a - b == (q - 1) * b + r;
    DivUnique(a - b, b, q - 1, r);
  }

  /** The loop runs `Iterations` times and pushes four vertices each time. */
  lemma {:induction false} LinesLength(i: int, size: int, step: int)
    requires step > 0
    ensures |Lines(i, size, step)| == 4 * Iterations(i, size, step)
    decreases if i > size then 0 else size - i + 1
  {
    if i <= size {
      LinesLength(i + step, size, step);
      if i + step <= size {
        DivMinusDivisor(size - i, step);
      }
    }
  }

  /** The whole grid: 4 * (2 * size / step + 1) vertices for a non-negative size. */
  lemma GridSize(size: int, step: int)
    requires step > 0 && size >= 0
    ensures |Lines(-size, size, step)| == 4 * ((2 * size) / step + 1)
  {
    LinesLength(-size, size, step);
  }

  /** Every vertex lies on the ground, inside the square [-size, size] x [-size, size]. */
  lemma {:induction false} LinesOnGround(i: int, size: int, step: int)
    requires step > 0 && -size <= i
    ensures forall k :: 0 <= k < |Lines(i, size, step)| ==>
              var v := Lines(i, size, step)[k];
              v.y == 0 && -size <= v.x <= size && -size <= v.z <= size
    decreases if i > size then 0 else size - i + 1
  {
    if i <= size {
      LinesOnGround(i + step, size, step);
    }
  }

  /** When `step` divides the width `2 * size`, the last iteration runs at i == size, so the
      far border lines are drawn. */
  lemma {:induction false} LastLineAtBorder(i: int, size: int, step: int)
    requires step > 0 && i <= size && (size - i) % step == 0
    ensures |Lines(i, size, step)| >= 4
    ensures Lines(i, size, step)[|Lines(i, size, step)| - 4..] == Quad(size, size)
    decreases size - i
  {
    if i < size {
      DivMinusDivisor(size - i, step);
      assert size - i >= step by {
        var q := (size - i) / step;
        assert size - i == q * step;
        assert q >= 1;
      }
      LastLineAtBorder(i + step, size, step);
    }
  }

  lemma GridClosed(size: int, step: int)
    requires step > 0 && size >= 0 && (2 * size) % step == 0
    ensures |Lines(-size, size, step)| >= 4
    ensures Lines(-size, size, step)[|Lines(-size, size, step)| - 4..] == Quad(size, size)
  {
    LastLineAtBorder(-size, size, step);
  }
}
