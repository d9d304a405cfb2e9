/** The configuration read from simulationConfiguration.txt and its validation:
    the four wind parameters, the five parameters shared by storms and
    microbursts, and the fourteen checks whose failures `configure` counts. */
module SimConfig {

  /** windConfig[0..3]: mean speed, gust bound, simulated duration, step size. */
  datatype WindConfig = WindConfig(baseSpeed: real, gust: real, duration: real, step: real)

  /** stormConfig[0..4] / burstConfig[0..4]: trigger probability, amplitude
      range and duration range of one kind of event. */
  datatype EventConfig = EventConfig(
    probability: real,
    minAmplitude: real, maxAmplitude: real,
    minDuration: real, maxDuration: real)

  /** A usable wind configuration: a gust no larger than the mean speed, on a
      non-empty duration with a positive step. */
  predicate WindValid(w: WindConfig)
  {
    0.0 <= w.gust <= w.baseSpeed && w.duration > 0.0 && w.step > 0.0
  }

  /** A usable event configuration: a probability that is not negative and
      non-empty, positive amplitude and duration ranges. */
  predicate EventValid(e: EventConfig)
  {
    e.probability >= 0.0
    && 0.0 < e.minAmplitude <= e.maxAmplitude
    && 0.0 < e.minDuration <= e.maxDuration
  }

  predicate ConfigValid(w: WindConfig, storm: EventConfig, burst: EventConfig)
  {
    WindValid(w) && EventValid(storm) && EventValid(burst)
  }

  /** The five checks `configure` makes of one event configuration, each as
      the condition that passes it, in the order they are made. */
  function EventChecks(e: EventConfig): (cs: seq<bool>)
    ensures |cs| == 5
    ensures (forall k :: 0 <= k < |cs| ==> cs[k]) <==> EventValid(e)
  {
    var cs := [ !(e.probability < 0.0),
                !(e.minAmplitude <= 0.0),
                !(e.maxAmplitude <= 0.0 || e.maxAmplitude < e.minAmplitude),
                !(e.minDuration <= 0.0),
                !(e.maxDuration <= 0.0 || e.maxDuration < e.minDuration) ];
    assert (forall k :: 0 <= k < 5 ==> cs[k]) <==> cs[0] && cs[1] && cs[2] && cs[3] && cs[4] by {
      if cs[0] && cs[1] && cs[2] && cs[3] && cs[4] {
        forall k | 0 <= k < 5 ensures cs[k] {
          assert k == 0 || k == 1 || k == 2 || k == 3 || k == 4;
        }
      }
    }
    cs
  }

  /** The four checks `configure` makes of the wind configuration. */
  function WindChecks(w: WindConfig): (cs: seq<bool>)
    ensures |cs| == 4
    ensures (forall k :: 0 <= k < |cs| ==> cs[k]) <==> WindValid(w)
  {
    var cs := [ !(w.baseSpeed < w.gust || w.baseSpeed < 0.0),
                !(w.gust < 0.0),
                !(w.duration <= 0.0),
                !(w.step <= 0.0) ];
    assert (forall k :: 0 <= k < 4 ==> cs[k]) <==> cs[0] && cs[1] && cs[2] && cs[3] by {
      if cs[0] && cs[1] && cs[2] && cs[3] {
        forall k | 0 <= k < 4 ensures cs[k] {
          assert k == 0 || k == 1 || k == 2 || k == 3;
        }
      }
    }
    cs
  }

  /** All fourteen checks of `configure`, each as the condition that passes it. */
  function Checks(w: WindConfig, storm: EventConfig, burst: EventConfig): (cs: seq<bool>)
    ensures |cs| == 14
    ensures (forall k :: 0 <= k < |cs| ==> cs[k]) <==> ConfigValid(w, storm, burst)
  {
    var ws, ss, bs := WindChecks(w), EventChecks(storm), EventChecks(burst);
    assert (forall k :: 0 <= k < 14 ==> (ws + ss + bs)[k])
      <==> (forall k :: 0 <= k < 4 ==> ws[k]) && (forall k :: 0 <= k < 5 ==> ss[k])
           && (forall k :: 0 <= k < 5 ==> bs[k]) by {
      if forall k :: 0 <= k < 14 ==> (ws + ss + bs)[k] {
        forall k | 0 <= k < 5 ensures ss[k] && bs[k] {
          assert (ws + ss + bs)[4 + k] == ss[k];
          assert (ws + ss + bs)[9 + k] == bs[k];
        }
        forall k | 0 <= k < 4 ensures ws[k] {
          assert (ws + ss + bs)[k] == ws[k];
        }
      }
    }
    ws + ss + bs
  }

  /** The number of failed checks in cs. */
  function Violations(cs: seq<bool>): (n: nat)
    ensures n <= |cs|
    ensures n == 0 <==> forall k :: 0 <= k < |cs| ==> cs[k]
  {
    if cs == [] then 0
    else Violations(cs[..|cs| - 1]) + (if cs[|cs| - 1] then 0 else 1)
  }

  lemma ViolationsSnoc(cs: seq<bool>, k: nat)
    requires k < |cs|
    ensures Violations(cs[..k + 1]) == Violations(cs[..k]) + (if cs[k] then 0 else 1)
  {
    assert cs[..k + 1][..k] == cs[..k];
  }

  /** The checks pass together exactly when the configuration is valid. */
  lemma ChecksPassIffValid(w: WindConfig, storm: EventConfig, burst: EventConfig)
    ensures |Checks(w, storm, burst)| == 14
    ensures Violations(Checks(w, storm, burst)) == 0 <==> ConfigValid(w, storm, burst)
  {
    var cs := Checks(w, storm, burst);
    if ConfigValid(w, storm, burst) {
      forall k | 0 <= k < |cs| ensures cs[k] {
      }
    } else {
      assert !(cs[0] && cs[1] && cs[2] && cs[3] && cs[4] && cs[5] && cs[6]
               && cs[7] && cs[8] && cs[9] && cs[10] && cs[11] && cs[12] && cs[13]);
    }
  }

  lemma {:induction false} ViolationsAppend(a: seq<bool>, b: seq<bool>)
    ensures Violations(a + b) == Violations(a) + Violations(b)
    decreases |b|
  {
    if b == [] {
      assert a + b == a;
    } else {
      assert (a + b)[..|a + b| - 1] == a + b[..|b| - 1];
      ViolationsAppend(a, b[..|b| - 1]);
    }
  }

  /** The wind checks of `configure`, one increment per failed check. */
  method WindErrors(w: WindConfig) returns (count: nat)
    ensures count == Violations(WindChecks(w))
  {
    ghost var cs := WindChecks(w);
    count := 0;
    assert cs[..0] == [];
    if w.baseSpeed < w.gust || w.baseSpeed < 0.0 {
      count := count + 1;
    }
    ViolationsSnoc(cs, 0);
    if w.gust < 0.0 {
      count := count + 1;
    }
    ViolationsSnoc(cs, 1);
    if w.duration <= 0.0 {
      count := count + 1;
    }
    ViolationsSnoc(cs, 2);
    if w.step <= 0.0 {
      count := count + 1;
    }
    ViolationsSnoc(cs, 3);
    assert cs[..4] == cs;
  }

  /** The checks `configure` makes of one event configuration (written out
      twice in the source, once for storms and once for bursts), one
      increment per failed check. */
  method EventErrors(e: EventConfig) returns (count: nat)
    ensures count == Violations(EventChecks(e))
  {
    ghost var cs := EventChecks(e);
    count := 0;
    assert cs[..0] == [];
    if e.probability < 0.0 {
      count := count + 1;
    }
    ViolationsSnoc(cs, 0);
    if e.minAmplitude <= 0.0 {
      count := count + 1;
    }
    ViolationsSnoc(cs, 1);
    if e.maxAmplitude <= 0.0 || e.maxAmplitude < e.minAmplitude {
      count := count + 1;
    }
    ViolationsSnoc(cs, 2);
    if e.minDuration <= 0.0 {
      count := count + 1;
    }
    ViolationsSnoc(cs, 3);
    if e.maxDuration <= 0.0 || e.maxDuration < e.minDuration {
      count := count + 1;
    }
    ViolationsSnoc(cs, 4);
    assert cs[..5] == cs;
  }

  /** The validation part of `configure`: errorCount is the number of failed
      checks, zero exactly when the configuration is valid. */
  method Configure(w: WindConfig, storm: EventConfig, burst: EventConfig) returns (errorCount: nat)
    ensures errorCount == Violations(Checks(w, storm, burst))
    ensures errorCount <= 14
    ensures errorCount == 0 <==> ConfigValid(w, storm, burst)
  {
    errorCount := WindErrors(w);
    var stormErrors := EventErrors(storm);
    errorCount := errorCount + stormErrors;
    var burstErrors := EventErrors(burst);
    errorCount := errorCount + burstErrors;
    ViolationsAppend(WindChecks(w), EventChecks(storm));
    ViolationsAppend(WindChecks(w) + EventChecks(storm), EventChecks(burst));
    ChecksPassIffValid(w, storm, burst);
  }
}
