/**
 * The simulation time grid `np.arange(0.0, TMAX, TSTEP)` of initialisation.py:168, in exact
 * real arithmetic: the points `j * TSTEP` for every `j` with `j * TSTEP < TMAX`.
 */
module TimeGrid {

  /** The least integer not below `q`. */
  function Ceil(q: real): (n: int)
    ensures q <= n as real < q + 1.0
  {
    var f := q.Floor;
    if f as real == q then f else f + 1
  }

  predicate Increasing(t: seq<real>) {
    forall j, l | 0 <= j < l < |t| :: t[j] < t[l]
  }

  /** The `j`-th grid point. */
  function GridPoint(j: nat, step: real): real {
    j as real * step
  }

  /** The number of grid points numpy allocates: `ceil(stop / step)`, or none. */
  function GridSize(stop: real, step: real): (n: nat)
    requires step > 0.0
    ensures stop > 0.0 ==> n > 0
    ensures n as real * step >= stop
    ensures forall j: nat | j < n :: GridPoint(j, step) < stop
  {
    if stop <= 0.0 then 0
    else
      var q := stop / step;
      var n := Ceil(q);
      assert q * step == stop;
      Below(q, step, stop, n as real);
      forall j: nat | j < n ensures GridPoint(j, step) < stop {
        Above(q, step, stop, j as real);
      }
      n
  }

  lemma Below(q: real, step: real, stop: real, y: real)
    requires step > 0.0 && q * step == stop && y >= q
    ensures y * step >= stop
  {
    assert y * step >= q * step;
  }

  lemma Above(q: real, step: real, stop: real, y: real)
    requires step > 0.0 && q * step == stop && y < q
    ensures y * step < stop
  {
    assert y * step < q * step;
  }

  lemma Scale(x: real, y: real, s: real)
    requires 0.0 <= x < y && s > 0.0
    ensures 0.0 <= x * s < y * s
  {}

  /** `np.arange(0.0, stop, step)`. */
  function Arange(stop: real, step: real): (t: seq<real>)
    requires step > 0.0
    ensures stop > 0.0 ==> |t| > 0 && t[0] == 0.0
    ensures forall j | 0 <= j < |t| :: t[j] == j as real * step && 0.0 <= t[j] < stop
    ensures |t| as real * step >= stop
    ensures Increasing(t)
  {
    var n := GridSize(stop, step);
    var t := seq(n, (j: nat) => GridPoint(j, step));
    forall j, l | 0 <= j < l < n ensures t[j] < t[l] {
      Scale(j as real, l as real, step);
    }
    forall j | 0 <= j < n ensures 0.0 <= t[j] {
      Scale(j as real, j as real + 1.0, step);
    }
    t
  }
}
