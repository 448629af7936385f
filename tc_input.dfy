/**
 The sun sensor with an address and a telecommand input: `tc` samples the sun
 position only when the sensor is powered and the command is addressed to it.
 */
module TcInput {
  import opened Power
  import opened Telecommand

  datatype Option<T> = None | Some(value: T)

  /** A cartesian position [x, y, z]. */
  datatype Vec3 = Vec3(x: real, y: real, z: real)

  /** The fixed sun position this version samples; its conversion to spherical
      coordinates and the printing of the result are not part of this model. */
  const FixedSunPosition: Vec3 := Vec3(0.0, 1.0, 10.0)

  class SunSensor {
    var voltage: real
    const address: Address

    /** `SunSensor::new(address)`: stores the address and starts at 0 V, unpowered. */
    constructor (address: Address)
      ensures this.address == address
      ensures voltage == 0.0 && !Powered(voltage)
    {
      this.address := address;
      voltage := 0.0;
    }

    /** `voltage_in`: overwrites the stored voltage and reports the crossing. */
    method VoltageIn(value: real) returns (t: Transition)
      modifies this
      ensures voltage == value
      ensures t == TransitionOf(old(voltage), value)
    {
      if voltage < PowerOnVoltage && value >= PowerOnVoltage {
        t := PoweredOn;
      } else if voltage >= PowerOnVoltage && value < PowerOnVoltage {
        t := PoweredOff;
      } else {
        t := NoChange;
      }
      voltage := value;
    }

    /** `tc`: returns the position whose spherical form is printed, or None
        when the command is ignored. It changes no state (it has no frame),
        and the command's source address plays no part. */
    method Tc(cmd: SampleCommand) returns (sampled: Option<Vec3>)
      ensures sampled.Some? <==> Powered(voltage) && address == cmd.destAddress
      ensures sampled.Some? ==> sampled.value == FixedSunPosition
    {
      if voltage < PowerOnVoltage || address != cmd.destAddress {
        return None;
      }
      sampled := Some(FixedSunPosition);
    }
  }
}
