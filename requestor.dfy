/**
 The sun sensor with a telemetry output `tm` and a requestor for the sun
 position: an accepted `tc` asks for the position, then sends a reply.
 */
module RequestorSensor {
  import opened Power
  import opened Telecommand

  class SunSensor {
    var voltage: real
    const address: Address
    /** The `tm` output, as the trace of the replies sent on it. */
    var tm: seq<SampleReply>
    var sunPositionReq: UniRequestor

    /** `SunSensor::new(address, sun_position_req)`: stores the wiring, starts
        at 0 V (unpowered) with a default output that has sent nothing. */
    constructor (address: Address, sunPositionReq: UniRequestor)
      ensures this.address == address && this.sunPositionReq == sunPositionReq
      ensures voltage == 0.0 && !Powered(voltage)
      ensures tm == []
    {
      this.address := address;
      voltage := 0.0;
      tm := [];
      this.sunPositionReq := sunPositionReq;
    }

    /** `voltage_in`: overwrites the stored voltage and reports the crossing. */
    method VoltageIn(value: real) returns (t: Transition)
      modifies this`voltage
      ensures voltage == value
      ensures t == TransitionOf(old(voltage), value)
    {
      if voltage < PowerOnVoltage && value >= PowerOnVoltage {
        t := PoweredOn;
      } else if voltage >= PowerOnVoltage && value < PowerOnVoltage {
        t := PoweredOff;
      } else {
        t := NoChange;
      }
      voltage := value;
    }

    /** `tc`: `answer` is what the requestor returns, converted to angles.
        `effects` lists, in order, what the call did on the two ports; the
        new `tm` and requestor are the old ones plus exactly those effects.
        The voltage cannot change (it is outside the frame). */
    method Tc(cmd: SampleCommand, answer: Angles) returns (effects: seq<PortEvent>)
      modifies this`tm, this`sunPositionReq
      ensures effects == TcEffects(voltage, address, cmd, answer)
      ensures tm == old(tm) + Replies(effects)
      ensures sunPositionReq.target == old(sunPositionReq.target)
      ensures sunPositionReq.issued == old(sunPositionReq.issued) + RequestCount(effects)
    {
      if voltage < PowerOnVoltage || address != cmd.destAddress {
        assert tm + [] == tm;
        return [];
      }
      sunPositionReq := sunPositionReq.(issued := sunPositionReq.issued + 1);
      var reply := SampleReply(cmd.destAddress, cmd.srcAddress, answer.polar, answer.azimuthal);
      tm := tm + [reply];
      effects := [PositionRequested, TelemetrySent(reply)];
      ExchangeCounts(reply);
    }
  }
}
