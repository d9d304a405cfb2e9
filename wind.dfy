/** The base wind-speed series (`generateSpeedData`): at every grid point the
    mean speed plus a deviation drawn uniformly from [-gust, +gust]. */
module WindSampler {
  import opened TimeGrid
  import opened SimConfig

  /** `baseSpeed + (u - 0.5) * 2 * gust` for a unit draw u. */
  function WindSample(w: WindConfig, u: real): (v: real)
    ensures Unit(u) && w.gust >= 0.0 ==> w.baseSpeed - w.gust <= v <= w.baseSpeed + w.gust
    ensures w.gust == 0.0 ==> v == w.baseSpeed
  {
    var deviation := (u - 0.5) * 2.0 * w.gust;
    assert deviation == Uniform(u, -w.gust, w.gust);
    w.baseSpeed + deviation
  }

  /** One sample per grid point, in order, draws[k] feeding point k; under
      unit draws and a non-negative gust every sample lies within gust of the
      mean speed. */
  method GenerateSpeed(w: WindConfig, draws: seq<real>) returns (rows: seq<Sample>)
    requires w.step > 0.0 && GridSize(w.duration, w.step) <= |draws|
    ensures |rows| == GridSize(w.duration, w.step)
    ensures forall k :: 0 <= k < |rows| ==> rows[k] == Sample(k, WindSample(w, draws[k]))
    ensures w.gust >= 0.0 && (forall k :: 0 <= k < |draws| ==> Unit(draws[k])) ==>
      forall k :: 0 <= k < |rows| ==> w.baseSpeed - w.gust <= rows[k].value <= w.baseSpeed + w.gust
  {
    var n := GridSize(w.duration, w.step);
    rows := [];
    var i := 0;
    while i < n
      invariant i <= n && |rows| == i
      invariant forall k :: 0 <= k < i ==> rows[k] == Sample(k, WindSample(w, draws[k]))
    {
      rows := rows + [Sample(i, WindSample(w, draws[i]))];
      i := i + 1;
    }
  }
}
