/**
 The first sun sensor: nothing but a stored voltage, updated by the
 `voltage_in` input, which reports when the sensor powers on or off.
 */
module BasicInput {
  import opened Power

  class SunSensor {
    var voltage: real

    /** `SunSensor::new`: a fresh sensor holds 0 V and is therefore unpowered. */
    constructor ()
      ensures voltage == 0.0 && !Powered(voltage)
    {
      voltage := 0.0;
    }

    /** `voltage_in`: overwrites the stored voltage and reports the crossing of
        the power-on threshold, if any (see TransitionOf). */
    method VoltageIn(value: real) returns (t: Transition)
      modifies this
      ensures voltage == value
      ensures t == TransitionOf(old(voltage), value)
    {
      if voltage < PowerOnVoltage && value >= PowerOnVoltage {
        t := PoweredOn;
      } else if voltage >= PowerOnVoltage && value < PowerOnVoltage {
        t := PoweredOff;
      } else {
        t := NoChange;
      }
      voltage := value;
    }
  }

  /** A fresh sensor fed 5.0 twice reports power-on on the first call and
      nothing on the second, and stays powered. */
  method PowerOnTwice() returns (first: Transition, second: Transition, powered: bool)
    ensures first == PoweredOn && second == NoChange && powered
  {
    var sensor := new SunSensor();
    first := sensor.VoltageIn(5.0);
    second := sensor.VoltageIn(5.0);
    powered := Powered(sensor.voltage);
  }
}
