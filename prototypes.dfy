/**
 The final sun-sensor bench: the sensor is built from a prototype that carries
 its wiring, `tc` adds Gaussian noise to the polar angle, and an on-board
 computer (OBC) sends it a sample command every second.
 */
module Prototypes {
  import opened Power
  import opened Telecommand
  import opened Schedule

  /** `ProtoSunSensor`: the wiring fixed before the bench is assembled. */
  datatype ProtoSunSensor = ProtoSunSensor(
    tm: seq<SampleReply>,
    sunPositionReq: UniRequestor,
    address: Address)

  /** `ProtoSunSensor::new`: a prototype with a default (never used) `tm` output. */
  function NewProto(address: Address, sunPositionReq: UniRequestor): (proto: ProtoSunSensor)
    ensures proto.address == address && proto.sunPositionReq == sunPositionReq
    ensures proto.tm == []
  {
    ProtoSunSensor([], sunPositionReq, address)
  }

  /** `SunSensorEnv`: the sensor's private random generator, seeded from the
      operating system's entropy, which here is a parameter. */
  datatype SunSensorEnv = SunSensorEnv(entropy: nat)

  /** Scale of the noise added to the polar angle. */
  const NoiseScale: real := 0.1

  class SunSensor {
    var voltage: real
    const address: Address
    /** The `tm` output, as the trace of the replies sent on it. */
    var tm: seq<SampleReply>
    var sunPositionReq: UniRequestor

    /** `SunSensor::new(address, sun_position_req, tm)`: takes the wiring as
        given and starts at 0 V, unpowered. */
    constructor (address: Address, sunPositionReq: UniRequestor, tm: seq<SampleReply>)
      ensures this.address == address && this.sunPositionReq == sunPositionReq && this.tm == tm
      ensures voltage == 0.0 && !Powered(voltage)
    {
      this.address := address;
      voltage := 0.0;
      this.tm := tm;
      this.sunPositionReq := sunPositionReq;
    }

    /** `voltage_in`: overwrites the stored voltage and reports the crossing. */
    method VoltageIn(value: real) returns (t: Transition)
      modifies this`voltage
      ensures voltage == value
      ensures t == TransitionOf(old(voltage), value)
    {
      if voltage < PowerOnVoltage && value >= PowerOnVoltage {
        t := PoweredOn;
      } else if voltage >= PowerOnVoltage && value < PowerOnVoltage {
        t := PoweredOff;
      } else {
        t := NoChange;
      }
      voltage := value;
    }

    /** `tc`: `answer` is what the requestor returns, converted to angles, and
        `noise` the standard-normal sample drawn from the environment's
        generator; the reply's polar angle is shifted by a tenth of it, its
        addresses do not depend on either. `effects` lists, in order, what the
        call did on the two ports. */
    method Tc(cmd: SampleCommand, answer: Angles, noise: real) returns (effects: seq<PortEvent>)
      modifies this`tm, this`sunPositionReq
      ensures effects == TcEffects(voltage, address, cmd, Angles(answer.polar + noise * NoiseScale, answer.azimuthal))
      ensures tm == old(tm) + Replies(effects)
      ensures sunPositionReq.target == old(sunPositionReq.target)
      ensures sunPositionReq.issued == old(sunPositionReq.issued) + RequestCount(effects)
    {
      if voltage < PowerOnVoltage || address != cmd.destAddress {
        assert tm + [] == tm;
        return [];
      }
      sunPositionReq := sunPositionReq.(issued := sunPositionReq.issued + 1);
      var polarAngle := answer.polar;
      polarAngle := polarAngle + noise * NoiseScale;
      var reply := SampleReply(cmd.destAddress, cmd.srcAddress, polarAngle, answer.azimuthal);
      tm := tm + [reply];
      effects := [PositionRequested, TelemetrySent(reply)];
      ExchangeCounts(reply);
    }
  }

  /** `ProtoModel::build`: a fresh sensor carrying the prototype's wiring
      unchanged, at 0 V, together with its private environment. */
  method Build(proto: ProtoSunSensor, entropy: nat) returns (sensor: SunSensor, env: SunSensorEnv)
    ensures fresh(sensor)
    ensures sensor.address == proto.address && sensor.sunPositionReq == proto.sunPositionReq
    ensures sensor.tm == proto.tm
    ensures sensor.voltage == 0.0 && !Powered(sensor.voltage)
    ensures env.entropy == entropy
  {
    sensor := new SunSensor(proto.address, proto.sunPositionReq, proto.tm);
    env := SunSensorEnv(entropy);
  }

  /** The only schedulable action of the OBC: a run of `send_sample_command`. */
  datatype ObcAction = SampleCommandTick

  class Obc {
    /** The `tm` output, as the trace of the commands sent on it. */
    var tm: seq<SampleCommand>
    const address: Address
    const sensorAddress: Address

    /** `Obc::new`: stores both addresses; the output has sent nothing. */
    constructor (address: Address, sensorAddress: Address)
      ensures this.address == address && this.sensorAddress == sensorAddress
      ensures tm == []
    {
      tm := [];
      this.address := address;
      this.sensorAddress := sensorAddress;
    }

    /** `send_sample_command`: sends one command from the OBC to the sensor;
        the addresses are constants of the object and cannot change. */
    method SendSampleCommand()
      modifies this`tm
      ensures tm == old(tm) + [SampleCommand(address, sensorAddress)]
    {
      tm := tm + [SampleCommand(address, sensorAddress)];
    }

    /** `init`: asks for `send_sample_command` to run 1 s after initialisation
        and then every 1 s. By virtual time `horizon` (nanoseconds after
        initialisation) it has fired exactly `horizon / 1 s` times, the i-th
        time at (i + 1) s. */
    method Init() returns (event: PeriodicEvent<ObcAction>)
      ensures event.action == SampleCommandTick
      ensures event.period > 0
      ensures forall horizon: nat ::
        |Firings(event.delay, event.period, horizon)| == horizon / OneSecond &&
        forall i :: 0 <= i < |Firings(event.delay, event.period, horizon)| ==>
          Firings(event.delay, event.period, horizon)[i] == (i + 1) * OneSecond
    {
      event := PeriodicEvent(OneSecond, OneSecond, SampleCommandTick);
      forall horizon: nat
        ensures |Firings(event.delay, event.period, horizon)| == horizon / OneSecond
        ensures forall i :: 0 <= i < |Firings(event.delay, event.period, horizon)| ==>
          Firings(event.delay, event.period, horizon)[i] == (i + 1) * OneSecond
      {
        var f := Firings(OneSecond, OneSecond, horizon);
        FiringsShape(OneSecond, OneSecond, horizon);
        if f != [] {
          assert f[|f| - 1] == |f| * OneSecond;
        }
      }
    }
  }

  /** The bench of the source: `n` periodic firings send `n` identical
      commands; a powered sensor at the commanded address answers each with
      exactly one request and one reply, every reply going from the sensor
      back to the OBC. */
  lemma {:induction false} SamplingLoop(obcAddress: Address, sensorAddress: Address, voltage: real, answers: seq<Angles>)
    requires Powered(voltage)
    ensures var cmds := seq(|answers|, _ => SampleCommand(obcAddress, sensorAddress));
      var e := TcRun(voltage, sensorAddress, cmds, answers);
      RequestCount(e) == |Replies(e)| == |answers| &&
      forall j :: 0 <= j < |Replies(e)| ==>
        Replies(e)[j].srcAddress == sensorAddress && Replies(e)[j].destAddress == obcAddress
  {
    var cmds := seq(|answers|, _ => SampleCommand(obcAddress, sensorAddress));
    AllAccepted(voltage, sensorAddress, cmds);
    TcRunPairs(voltage, sensorAddress, cmds, answers);
  }
}
