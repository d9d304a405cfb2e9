/** The merged trace (`generateSimulationData`): the wind, storm and burst
    tables read in lockstep, one row of each per grid point, summed into the
    combined speed, with a flag for whether a storm is present. */
module SeriesMerger {
  import opened TimeGrid

  /** One row of the merged trace. */
  datatype SimRow = SimRow(point: nat, speed: real, stormPresent: bool)

  /** The row the merger writes for point k from the values its three readers
      hold there. Where all three tables have a row for the point, the speed is
      their exact sum and the storm flag is the storm value's distance from
      zero being at least DELTA. */
  function MergedRow(wind: seq<Sample>, storm: seq<Sample>, burst: seq<Sample>, k: nat): (row: SimRow)
    ensures row.point == k
    ensures k < |wind| && k < |storm| && k < |burst| ==>
      row.speed == wind[k].value + storm[k].value + burst[k].value
      && (row.stormPresent <==> storm[k].value <= -DELTA || storm[k].value >= DELTA)
  {
    SimRow(k, ReadBack(wind, k) + ReadBack(storm, k) + ReadBack(burst, k), NonZero(ReadBack(storm, k)))
  }

  /** Reads the three tables with one cursor each, one row per grid point. No
      lengths are compared: a table that runs out keeps contributing its last
      value (0 when it is empty). */
  method GenerateSimulation(duration: real, step: real, wind: seq<Sample>, storm: seq<Sample>, burst: seq<Sample>)
    returns (rows: seq<SimRow>)
    requires step > 0.0
    ensures |rows| == GridSize(duration, step)
    ensures forall k :: 0 <= k < |rows| ==> rows[k] == MergedRow(wind, storm, burst, k)
  {
    var n := GridSize(duration, step);
    var windS, stormM, burstM := 0.0, 0.0, 0.0;
    rows := [];
    var i := 0;
    while i < n
      invariant i <= n && |rows| == i
      invariant i > 0 ==> windS == ReadBack(wind, i - 1) && stormM == ReadBack(storm, i - 1) && burstM == ReadBack(burst, i - 1)
      invariant i == 0 ==> windS == 0.0 && stormM == 0.0 && burstM == 0.0
      invariant forall k :: 0 <= k < i ==> rows[k] == MergedRow(wind, storm, burst, k)
    {
      windS := Read(wind, i, windS);
      stormM := Read(storm, i, stormM);
      burstM := Read(burst, i, burstM);
      var pres;
      if !(stormM > -DELTA && stormM < DELTA) {
        pres := true;
      } else {
        pres := false;
      }
      rows := rows + [SimRow(i, windS + stormM + burstM, pres)];
      i := i + 1;
    }
  }
}
