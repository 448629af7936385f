/**
 The power state machine shared by every sun-sensor variant: the sensor stores
 the last voltage it was fed and reports a transition only when a new value
 crosses the power-on threshold.
 */
module Power {

  /** POWER_ON_VOLTAGE; 5.0 is exact in f32, so comparing reals against it
      agrees with the f32 comparisons (NaN inputs are not modelled). */
  const PowerOnVoltage: real := 5.0

  /** What one call to `voltage_in` reports: the two console messages of the
      source become tags, and a call that prints nothing reports NoChange. */
  datatype Transition = PoweredOn | PoweredOff | NoChange

  /** A sensor is powered when its stored voltage is at or above the threshold. */
  predicate Powered(voltage: real)
  {
    voltage >= PowerOnVoltage
  }

  /** The report of `voltage_in(value)` on a sensor whose stored voltage is `before`. */
  function TransitionOf(before: real, value: real): (t: Transition)
    ensures t == PoweredOn <==> !Powered(before) && Powered(value)
    ensures t == PoweredOff <==> Powered(before) && !Powered(value)
    ensures t == NoChange <==> Powered(before) == Powered(value)
  {
    if before < PowerOnVoltage && value >= PowerOnVoltage then PoweredOn
    else if before >= PowerOnVoltage && value < PowerOnVoltage then PoweredOff
    else NoChange
  }

  /** The messages printed when `inputs` are fed one after the other to a
      sensor whose stored voltage is `before` (silent calls are dropped). */
  function Reports(before: real, inputs: seq<real>): seq<Transition>
    decreases |inputs|
  {
    if inputs == [] then []
    else
      var t := TransitionOf(before, inputs[0]);
      (if t == NoChange then [] else [t]) + Reports(inputs[0], inputs[1..])
  }

  /** The stored voltage after feeding `inputs`: every call overwrites it. */
  function FinalVoltage(before: real, inputs: seq<real>): real
  {
    if inputs == [] then before else inputs[|inputs| - 1]
  }

  /** The i-th message of a run that starts powered (or not): messages alternate,
      beginning with the one that leaves the starting state. */
  function ExpectedReport(startPowered: bool, i: nat): Transition
  {
    if (i % 2 == 0) != startPowered then PoweredOn else PoweredOff
  }

  /** Over any run, "on" and "off" strictly alternate, starting from the
      sensor's initial state, and an odd number of messages was printed exactly
      when the final powered state differs from the initial one. */
  lemma {:induction false} ReportsAlternate(before: real, inputs: seq<real>)
    ensures var rs := Reports(before, inputs);
      (forall i :: 0 <= i < |rs| ==> rs[i] == ExpectedReport(Powered(before), i)) &&
      (|rs| % 2 == 1 <==> Powered(before) != Powered(FinalVoltage(before, inputs)))
    decreases |inputs|
  {
    if inputs != [] {
      var t := TransitionOf(before, inputs[0]);
      var rest := Reports(inputs[0], inputs[1..]);
      ReportsAlternate(inputs[0], inputs[1..]);
      assert FinalVoltage(inputs[0], inputs[1..]) == FinalVoltage(before, inputs);
      var rs := Reports(before, inputs);
      if t == NoChange {
        assert rs == rest;
      } else {
        assert rs == [t] + rest;
        forall i | 0 <= i < |rs|
          ensures rs[i] == ExpectedReport(Powered(before), i)
        {
          if i > 0 {
            assert rs[i] == rest[i - 1];
            assert ExpectedReport(Powered(inputs[0]), i - 1) == ExpectedReport(Powered(before), i);
          }
        }
      }
    }
  }

  /** Feeding the value the sensor already holds, any number of times, prints
      nothing (and leaves the stored voltage as it was). */
  lemma {:induction false} SteadyInputQuiet(v: real, k: nat)
    ensures Reports(v, seq(k, _ => v)) == []
    ensures FinalVoltage(v, seq(k, _ => v)) == v
  {
    if k > 0 {
      var s := seq(k, _ => v);
      assert s[1..] == seq(k - 1, _ => v);
      SteadyInputQuiet(v, k - 1);
    }
  }

  /** A fresh sensor (voltage 0) fed 5.0 and then 5.0 again any number of
      times reports power-on exactly once and nothing else. */
  lemma {:induction false} FreshSensorPowersOnOnce(k: nat)
    ensures Reports(0.0, [5.0] + seq(k, _ => 5.0)) == [PoweredOn]
  {
    var s := [5.0] + seq(k, _ => 5.0);
    assert s[0] == 5.0 && s[1..] == seq(k, _ => 5.0);
    SteadyInputQuiet(5.0, k);
  }
}
