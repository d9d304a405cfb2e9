/** The discrete time grid that every generated table shares, the tolerance
    used for "has this point been reached" and "is this value zero", the
    scaling of a uniform draw onto an interval, and the way a table is read
    back row by row. A grid point is named by its index i; its time is
    i * step, taken as exact. */
module TimeGrid {

  /** Tolerance for boundary and zero comparisons on doubles. */
  const DELTA: real := 0.000001

  /** One row of a generated table: the grid point and the value written for it. */
  datatype Sample = Sample(point: nat, value: real)

  /** A value that the zero test `!(x < DELTA && x > -DELTA)` counts as present:
      a tolerant `x != 0` that also counts exactly -DELTA and DELTA as present. */
  function NonZero(x: real): (b: bool)
    ensures b <==> !(x < DELTA && x > -DELTA)
    ensures b ==> x != 0.0
    ensures b <==> (if x < 0.0 then -x else x) >= DELTA
  {
    x <= -DELTA || DELTA <= x
  }

  /** A draw of `rand() / RAND_MAX`. */
  predicate Unit(u: real)
  {
    0.0 <= u <= 1.0
  }

  /** Maps a unit draw onto [lo, hi] as `u * (hi - lo) + lo`. */
  function Uniform(u: real, lo: real, hi: real): (v: real)
    ensures Unit(u) && lo <= hi ==> lo <= v <= hi
    ensures lo == hi ==> v == lo
  {
    var d := hi - lo;
    assert Unit(u) && d >= 0.0 ==> 0.0 <= u * d && u * d <= d by {
      if Unit(u) && d >= 0.0 {
        assert d - u * d == (1.0 - u) * d;
      }
    }
    u * d + lo
  }

  /** The largest whole k with k * step <= x; negative exactly when x < 0. */
  function FloorSteps(x: real, step: real): (k: int)
    requires step > 0.0
    ensures k < 0 <==> x < 0.0
  {
    (x / step).Floor
  }

  lemma FloorStepsCounts(x: real, step: real, k: int)
    requires step > 0.0
    ensures k <= FloorSteps(x, step) <==> k as real * step <= x
  {
    var q := x / step;
    assert q * step == x;
    if k <= q.Floor {
      assert k as real <= q;
      assert (q - k as real) * step >= 0.0;
    } else {
      assert q < k as real;
      assert (k as real - q) * step > 0.0;
    }
  }

  /** Number of grid points t = 0, step, 2*step, ... with t <= duration + DELTA:
      the number of rows every generator writes, one per such point. The last
      point is within the bound and the next one past it. */
  function GridSize(duration: real, step: real): (n: nat)
    requires step > 0.0
    ensures n == 0 <==> duration + DELTA < 0.0
    ensures n > 0 ==> (n - 1) as real * step <= duration + DELTA < n as real * step
  {
    if duration + DELTA < 0.0 then 0
    else
      var last := FloorSteps(duration + DELTA, step);
      FloorStepsCounts(duration + DELTA, step, 0);
      FloorStepsCounts(duration + DELTA, step, last);
      FloorStepsCounts(duration + DELTA, step, last + 1);
      last + 1
  }

  /** Point i lies on the grid exactly when its time passes the loop test. */
  lemma GridSizeCounts(duration: real, step: real, i: nat)
    requires step > 0.0
    ensures i < GridSize(duration, step) <==> i as real * step <= duration + DELTA
  {
    if duration + DELTA < 0.0 {
      assert i as real * step >= 0.0;
    } else {
      FloorStepsCounts(duration + DELTA, step, i);
    }
  }

  /** The number of steps after its first point that a window of length T
      still covers: the largest k with k * step <= T + DELTA. */
  function StepsWithin(T: real, step: real): (k: int)
    requires step > 0.0
    ensures T + DELTA >= 0.0 ==> k >= 0
  {
    FloorSteps(T + DELTA, step)
  }

  /** Offset k from the window's first point passes the inner loop's time test
      `t <= T + initialT + DELTA` exactly when k <= StepsWithin(T, step). */
  lemma StepsWithinCounts(T: real, step: real, k: nat)
    requires step > 0.0
    ensures k <= StepsWithin(T, step) <==> k as real * step <= T + DELTA
  {
    FloorStepsCounts(T + DELTA, step, k);
  }

  /** What `reader >> x >> v` leaves in v when it reads row k: that row's value,
      or v unchanged once the table is exhausted (the extraction fails and
      leaves its target as it was). */
  function Read(rows: seq<Sample>, k: nat, prev: real): (v: real)
    ensures k < |rows| ==> v == rows[k].value
    ensures |rows| <= k ==> v == prev
  {
    if k < |rows| then rows[k].value else prev
  }

  /** The value held after reading rows 0..k in order into a variable that
      starts at 0: row k's own value while the table lasts, and afterwards
      the last row's value repeated. */
  function ReadBack(rows: seq<Sample>, k: nat): (v: real)
    ensures k < |rows| ==> v == rows[k].value
    ensures |rows| <= k && rows != [] ==> v == rows[|rows| - 1].value
    ensures rows == [] ==> v == 0.0
    decreases k
  {
    Read(rows, k, if k == 0 then 0.0 else ReadBack(rows, k - 1))
  }
}
