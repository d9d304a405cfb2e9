/** Storm and microburst generation: a random-interval process over the grid.
    At an idle point a trigger draw may open a window; the window then covers
    its first point and every point within its drawn length, emitting a fresh
    magnitude at each, and closes at the grid's end or, for bursts, as soon as
    the storm series going along with it is zero. Draws are an oracle: one
    record per grid point, whose fields are used only where the generator
    consumes a draw at that point. */
module EventSeries {
  import opened TimeGrid
  import opened SimConfig

  /** The draws a generator may consume at one grid point: the trigger test,
      the window length and the magnitude, each a `rand() / RAND_MAX`. */
  datatype Draw = Draw(trigger: real, length: real, magnitude: real)

  predicate DrawsInRange(draws: seq<Draw>)
  {
    forall k :: 0 <= k < |draws| ==>
      Unit(draws[k].trigger) && Unit(draws[k].length) && Unit(draws[k].magnitude)
  }

  /** A storm runs ungated; a microburst is gated by the storm table it reads. */
  datatype Gate = Ungated | GatedBy(storm: seq<Sample>)

  /** Whether the gate lets an event be active at point i: the storm value the
      burst generator's reader holds there is not zero. */
  function Open(gate: Gate, i: nat): (b: bool)
    ensures gate == Ungated ==> b
    ensures gate.GatedBy? && i < |gate.storm| ==> (b <==> NonZero(gate.storm[i].value))
    ensures gate.GatedBy? && gate.storm == [] ==> !b
  {
    match gate
    case Ungated => true
    case GatedBy(storm) => NonZero(ReadBack(storm, i))
  }

  /** The trigger test `p < probability || probability == 1`: for a unit draw
      it never fires at probability 0 or below, always fires at probability 1
      or above, and in between fires exactly on draws below the probability. */
  function Triggers(cfg: EventConfig, p: real): (b: bool)
    ensures Unit(p) && cfg.probability <= 0.0 ==> !b
    ensures Unit(p) && cfg.probability >= 1.0 ==> b
    ensures cfg.probability < 1.0 ==> (b <==> p < cfg.probability)
  {
    p < cfg.probability || cfg.probability == 1.0
  }

  /** The window's length T drawn from [minDuration, maxDuration]. */
  function WindowLength(cfg: EventConfig, u: real): (T: real)
    ensures Unit(u) && EventValid(cfg) ==> cfg.minDuration <= T <= cfg.maxDuration
  {
    Uniform(u, cfg.minDuration, cfg.maxDuration)
  }

  /** How many points after its first one a window of that length covers. */
  function WindowSteps(cfg: EventConfig, step: real, u: real): (k: int)
    requires step > 0.0
    ensures Unit(u) && EventValid(cfg) ==> k >= 0
  {
    StepsWithin(WindowLength(cfg, u), step)
  }

  /** Offset k from a window's first point is inside the window exactly when
      its time passes the inner loop's test `t <= T + initialT + DELTA`. */
  lemma WindowStepsCounts(cfg: EventConfig, step: real, u: real, k: nat)
    requires step > 0.0
    ensures k <= WindowSteps(cfg, step, u) <==> k as real * step <= WindowLength(cfg, u) + DELTA
  {
    StepsWithinCounts(WindowLength(cfg, u), step, k);
  }

  /** The magnitude drawn from [minAmplitude, maxAmplitude]. */
  function Magnitude(cfg: EventConfig, u: real): (m: real)
    ensures Unit(u) && EventValid(cfg) ==> 0.0 < cfg.minAmplitude <= m <= cfg.maxAmplitude
  {
    Uniform(u, cfg.minAmplitude, cfg.maxAmplitude)
  }

  /** One generation run: its configuration, the grid step, the draws and the gate. */
  datatype EventRun = EventRun(cfg: EventConfig, step: real, draws: seq<Draw>, gate: Gate)
  {
    predicate Wf()
    {
      step > 0.0 && EventValid(cfg) && DrawsInRange(draws)
    }

    /** The drawn last point of the window in force at point i (its first
        point plus WindowSteps, possibly past the grid's last point), or i - 1
        when no window covers i. A window carries on from i - 1 while the gate stays
        open and is never re-triggered inside; a point that no window carries
        on to is evaluated as idle and may open a new one. */
    function WindowEnd(i: nat): (e: int)
      requires step > 0.0 && i < |draws|
      ensures Wf() ==> e >= i - 1
      ensures e >= i ==> Open(gate, i)
      ensures Wf() && Triggers(cfg, draws[i].trigger) && Open(gate, i) ==> e >= i
      decreases i
    {
      if i > 0 && WindowEnd(i - 1) >= i then
        (if Open(gate, i) then WindowEnd(i - 1) else i - 1)
      else if Open(gate, i) && Triggers(cfg, draws[i].trigger) then
        i + WindowSteps(cfg, step, draws[i].length)
      else
        i - 1
    }

    /** No earlier window reaches point i: it is evaluated under idle rules. */
    predicate Idle(i: nat)
      requires step > 0.0 && i < |draws|
    {
      i == 0 || WindowEnd(i - 1) < i
    }

    predicate Active(i: nat)
      requires step > 0.0 && i < |draws|
    {
      WindowEnd(i) >= i
    }

    /** The value emitted for point i: zero unless a window is in force there,
        which needs the gate to be open, and otherwise a magnitude drawn at i. */
    function Value(i: nat): (v: real)
      requires step > 0.0 && i < |draws|
      ensures v != 0.0 ==> Active(i) && Open(gate, i)
      ensures Wf() && Active(i) ==> 0.0 < cfg.minAmplitude <= v <= cfg.maxAmplitude
    {
      if Active(i) then Magnitude(cfg, draws[i].magnitude) else 0.0
    }
  }

  /** Every emitted value is zero or a magnitude in the configured range. */
  lemma ValueInRange(r: EventRun, i: nat)
    requires r.Wf() && i < |r.draws|
    ensures r.Value(i) != 0.0 <==> r.Active(i)
    ensures r.Value(i) != 0.0 ==> r.cfg.minAmplitude <= r.Value(i) <= r.cfg.maxAmplitude
  {
  }

  /** An event is active only where its gate is open. */
  lemma ClosedGateSilences(r: EventRun, i: nat)
    requires r.step > 0.0 && i < |r.draws|
    requires !Open(r.gate, i)
    ensures r.WindowEnd(i) == i - 1 && r.Value(i) == 0.0
  {
  }

  /** With probability 0 no window ever opens. */
  lemma {:induction false} ZeroProbabilityNeverOpens(r: EventRun, i: nat)
    requires r.step > 0.0 && DrawsInRange(r.draws) && i < |r.draws|
    requires r.cfg.probability == 0.0
    ensures r.WindowEnd(i) == i - 1
    ensures r.Value(i) == 0.0
  {
    if i > 0 {
      ZeroProbabilityNeverOpens(r, i - 1);
    }
  }

  /** With probability 1 (or more) a window is open at exactly the points where
      the gate is: at every point of an ungated storm. */
  lemma CertainTriggerFollowsGate(r: EventRun, i: nat)
    requires r.Wf() && i < |r.draws|
    requires r.cfg.probability >= 1.0
    ensures r.Active(i) <==> Open(r.gate, i)
    ensures Open(r.gate, i) ==> r.Value(i) == Magnitude(r.cfg, r.draws[i].magnitude) && r.Value(i) > 0.0
  {
    assert Triggers(r.cfg, r.draws[i].trigger);
  }

  /** A window opened at point i covers i and every later point j with
      j - i <= WindowSteps (in time: (j - i) * step <= T + DELTA) as long
      as the gate stays open, each with its own magnitude. */
  lemma {:induction false} WindowCovers(r: EventRun, i: nat, j: nat)
    requires r.Wf() && i <= j < |r.draws|
    requires r.Idle(i) && Open(r.gate, i) && Triggers(r.cfg, r.draws[i].trigger)
    requires j - i <= WindowSteps(r.cfg, r.step, r.draws[i].length)
    requires forall k :: i <= k <= j ==> Open(r.gate, k)
    ensures r.WindowEnd(j) == i + WindowSteps(r.cfg, r.step, r.draws[i].length)
    ensures r.Value(j) == Magnitude(r.cfg, r.draws[j].magnitude)
  {
    if j > i {
      WindowCovers(r, i, j - 1);
    }
  }

  /** The storm window opened at point i covers a later point j exactly when
      j - i <= WindowSteps, that is (WindowStepsCounts) exactly when
      (j - i) * step <= T + DELTA: the window ends early only at the grid's end. */
  lemma StormWindowExtent(r: EventRun, i: nat, j: nat)
    requires r.Wf() && r.gate == Ungated && i <= j < |r.draws|
    requires r.Idle(i) && Triggers(r.cfg, r.draws[i].trigger)
    ensures j - i <= WindowSteps(r.cfg, r.step, r.draws[i].length) ==>
      r.Active(j) && r.WindowEnd(j) == r.WindowEnd(i)
    ensures j - i > WindowSteps(r.cfg, r.step, r.draws[i].length) ==>
      r.WindowEnd(i) < j
  {
    WindowCovers(r, i, i);
    if j - i <= WindowSteps(r.cfg, r.step, r.draws[i].length) {
      WindowCovers(r, i, j);
    }
  }

  /** A burst is non-zero at a point only where the storm value read for that
      point is (beyond DELTA) non-zero. */
  lemma BurstNeedsStorm(r: EventRun, storm: seq<Sample>, i: nat)
    requires r.step > 0.0 && r.gate == GatedBy(storm) && i < |r.draws|
    requires r.Value(i) != 0.0
    ensures NonZero(ReadBack(storm, i))
    ensures i < |storm| ==> NonZero(storm[i].value)
  {
    if !Open(r.gate, i) {
      ClosedGateSilences(r, i);
    }
  }

  /** A storm table with no value beyond DELTA silences the bursts entirely,
      whatever their probability. */
  lemma ZeroStormSilencesBurst(r: EventRun, storm: seq<Sample>, i: nat)
    requires r.step > 0.0 && r.gate == GatedBy(storm) && i < |r.draws|
    requires forall k :: 0 <= k < |storm| ==> !NonZero(storm[k].value)
    ensures r.Value(i) == 0.0
  {
    assert !NonZero(ReadBack(storm, i)) by {
      if storm != [] && |storm| <= i {
        assert !NonZero(storm[|storm| - 1].value);
      }
    }
    ClosedGateSilences(r, i);
  }

  /** duration 10, step 5: the grid is {0, 5, 10}; a storm with probability 1,
      duration 10 and amplitude pinned at 3 is 3 at all three points. */
  lemma PinnedStormScenario(draws: seq<Draw>, k: nat)
    requires DrawsInRange(draws) && GridSize(10.0, 5.0) <= |draws| && k < GridSize(10.0, 5.0)
    ensures GridSize(10.0, 5.0) == 3
    ensures EventRun(EventConfig(1.0, 3.0, 3.0, 10.0, 10.0), 5.0, draws, Ungated).Value(k) == 3.0
  {
    assert (10.000001 / 5.0).Floor == 2;
    CertainTriggerFollowsGate(EventRun(EventConfig(1.0, 3.0, 3.0, 10.0, 10.0), 5.0, draws, Ungated), k);
  }

  /** Two runs that agree on everything up to point i agree on the windows in
      force up to i. */
  lemma {:induction false} WindowEndPrefix(r: EventRun, r': EventRun, i: nat)
    requires r.step > 0.0 && i < |r.draws| && i < |r'.draws|
    requires r.cfg == r'.cfg && r.step == r'.step
    requires forall k :: 0 <= k <= i ==> r.draws[k] == r'.draws[k]
    requires forall k :: 0 <= k <= i ==> Open(r.gate, k) == Open(r'.gate, k)
    ensures r.WindowEnd(i) == r'.WindowEnd(i)
  {
    if i > 0 {
      WindowEndPrefix(r, r', i - 1);
    }
  }

  /** Inside a window, the trigger and length draws of a point are never
      consulted: a window is not re-triggered mid-window. */
  lemma NoRetriggerMidWindow(r: EventRun, i: nat, d: Draw)
    requires r.step > 0.0 && 0 < i < |r.draws|
    requires r.WindowEnd(i - 1) >= i
    ensures r.WindowEnd(i) == r.(draws := r.draws[i := d.(magnitude := r.draws[i].magnitude)]).WindowEnd(i)
  {
    var r' := r.(draws := r.draws[i := d.(magnitude := r.draws[i].magnitude)]);
    WindowEndPrefix(r, r', i - 1);
  }

  /** The ungated storm generator (`generateStormData`): the grid's points in
      order, each written once, with the value the window process gives it. */
  method GenerateStorm(cfg: EventConfig, duration: real, step: real, draws: seq<Draw>)
    returns (rows: seq<Sample>)
    requires step > 0.0 && EventValid(cfg) && DrawsInRange(draws)
    requires GridSize(duration, step) <= |draws|
    ensures |rows| == GridSize(duration, step)
    ensures forall k :: 0 <= k < |rows| ==>
      rows[k] == Sample(k, EventRun(cfg, step, draws, Ungated).Value(k))
  {
    ghost var run := EventRun(cfg, step, draws, Ungated);
    var n := GridSize(duration, step);
    rows := [];
    var i := 0;
    while i < n
      invariant i <= n && |rows| == i
      invariant forall k :: 0 <= k < i ==> rows[k] == Sample(k, run.Value(k))
      invariant i < n ==> run.Idle(i)
    {
      if Triggers(cfg, draws[i].trigger) {
        var last := i + WindowSteps(cfg, step, draws[i].length);
        var start := i;
        i := start;  // t = initialT
        while i <= last && i < n
          invariant start <= i <= n && i <= last + 1 && |rows| == i
          invariant forall k :: 0 <= k < i ==> rows[k] == Sample(k, run.Value(k))
          invariant forall k :: start <= k < i ==> run.WindowEnd(k) == last
        {
          assert run.WindowEnd(i) == last by {
            if i > start {
              assert run.WindowEnd(i - 1) == last;
            }
          }
          rows := rows + [Sample(i, Magnitude(cfg, draws[i].magnitude))];
          i := i + 1;
        }
        // The window wrote at least its first point; step back so that the
        // outer step lands on the first point not yet written.
        i := i - 1;
      } else {
        rows := rows + [Sample(i, 0.0)];
      }
      i := i + 1;
    }
  }

  /** The microburst generator (`generateBurstData`), gated by the storm table
      it reads row by row; `consumed` counts the reads: the first row before
      the loop and one more after each row written. */
  method GenerateBurst(cfg: EventConfig, duration: real, step: real, draws: seq<Draw>, storm: seq<Sample>)
    returns (rows: seq<Sample>, consumed: nat)
    requires step > 0.0 && EventValid(cfg) && DrawsInRange(draws)
    requires GridSize(duration, step) <= |draws|
    ensures |rows| == GridSize(duration, step)
    ensures forall k :: 0 <= k < |rows| ==>
      rows[k] == Sample(k, EventRun(cfg, step, draws, GatedBy(storm)).Value(k))
    ensures consumed == |rows| + 1
  {
    ghost var run := EventRun(cfg, step, draws, GatedBy(storm));
    var n := GridSize(duration, step);
    var s := Read(storm, 0, 0.0);
    consumed := 1;
    rows := [];
    var i := 0;
    while i < n
      invariant i <= n && |rows| == i && consumed == i + 1
      invariant s == ReadBack(storm, i)
      invariant forall k :: 0 <= k < i ==> rows[k] == Sample(k, run.Value(k))
      invariant i < n ==> run.Idle(i) || !NonZero(s)
    {
      if !(s < DELTA && s > -DELTA) {
        if Triggers(cfg, draws[i].trigger) {
          var last := i + WindowSteps(cfg, step, draws[i].length);
          var start := i;
          i := start;  // t = initialT
          while i <= last && i < n && !(s < DELTA && s > -DELTA)
            invariant start <= i <= n && i <= last + 1 && |rows| == i && consumed == i + 1
            invariant s == ReadBack(storm, i)
            invariant forall k :: 0 <= k < i ==> rows[k] == Sample(k, run.Value(k))
            invariant forall k :: start <= k < i ==> run.WindowEnd(k) == last
          {
            assert run.WindowEnd(i) == last by {
              if i > start {
                assert run.WindowEnd(i - 1) == last;
              }
            }
            rows := rows + [Sample(i, Magnitude(cfg, draws[i].magnitude))];
            s := Read(storm, consumed, s);
            consumed := consumed + 1;
            i := i + 1;
          }
          i := i - 1;
        } else {
          rows := rows + [Sample(i, 0.0)];
          s := Read(storm, consumed, s);
          consumed := consumed + 1;
        }
      } else {
        rows := rows + [Sample(i, 0.0)];
        s := Read(storm, consumed, s);
        consumed := consumed + 1;
      }
      i := i + 1;
    }
  }

  /** The storm table followed by the burst table that reads it: the two are
      the same length and aligned point by point, a burst is present only where
      the storm is, and a storm with no value beyond DELTA yields no bursts. */
  method GenerateStormAndBurst(stormCfg: EventConfig, burstCfg: EventConfig, duration: real, step: real,
                               stormDraws: seq<Draw>, burstDraws: seq<Draw>)
    returns (storm: seq<Sample>, burst: seq<Sample>)
    requires step > 0.0 && EventValid(stormCfg) && EventValid(burstCfg)
    requires DrawsInRange(stormDraws) && DrawsInRange(burstDraws)
    requires GridSize(duration, step) <= |stormDraws| && GridSize(duration, step) <= |burstDraws|
    ensures |storm| == |burst| == GridSize(duration, step)
    ensures forall k :: 0 <= k < |burst| ==> storm[k].point == burst[k].point == k
    ensures forall k :: 0 <= k < |burst| && burst[k].value != 0.0 ==> NonZero(storm[k].value)
    ensures (forall k :: 0 <= k < |storm| ==> !NonZero(storm[k].value)) ==>
      forall k :: 0 <= k < |burst| ==> burst[k].value == 0.0
  {
    storm := GenerateStorm(stormCfg, duration, step, stormDraws);
    var consumed;
    burst, consumed := GenerateBurst(burstCfg, duration, step, burstDraws, storm);
    ghost var run := EventRun(burstCfg, step, burstDraws, GatedBy(storm));
    forall k | 0 <= k < |burst| && burst[k].value != 0.0
      ensures NonZero(storm[k].value)
    {
      BurstNeedsStorm(run, storm, k);
    }
    if forall k :: 0 <= k < |storm| ==> !NonZero(storm[k].value) {
      forall k | 0 <= k < |burst|
        ensures burst[k].value == 0.0
      {
        ZeroStormSilencesBurst(run, storm, k);
      }
    }
  }
}
