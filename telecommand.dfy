/**
 The messages the on-board computer and the sun sensor exchange, the rule by
 which the sensor's `tc` handler accepts a sample command, and what an accepted
 command does on the sensor's ports: one sun-position request, then one reply
 on the `tm` output, addressed back to the command's sender.
 */
module Telecommand {
  import opened Power

  /** A `u8` bus address. */
  type Address = x: int | 0 <= x < 256

  /** SampleCommand: a request for a sun sample, from one address to another. */
  datatype SampleCommand = SampleCommand(srcAddress: Address, destAddress: Address)

  /** SampleReply: the sensor's telemetry. Angles are reals; f32 rounding is not modelled. */
  datatype SampleReply = SampleReply(
    srcAddress: Address,
    destAddress: Address,
    polarAngle: real,
    azimuthalAngle: real)

  /** The polar and azimuthal angles of the sun position the sensor's requestor
      answered with, already converted from cartesian coordinates. The replier
      and the conversion are not part of this model. */
  datatype Angles = Angles(polar: real, azimuthal: real)

  /** A `UniRequestor<(), [f32; 3]>`: the query handler it is bound to, which
      never changes, and how many requests have been sent through it. */
  datatype UniRequestor = UniRequestor(target: string, issued: nat)

  /** What a handler did on the sensor's two ports, in the order it did it. */
  datatype PortEvent = PositionRequested | TelemetrySent(reply: SampleReply)

  /** The early-return guard of `tc`: the command is ignored when the sensor is
      unpowered or the command is addressed to someone else. */
  predicate Ignores(voltage: real, address: Address, cmd: SampleCommand)
  {
    voltage < PowerOnVoltage || address != cmd.destAddress
  }

  /** The reply built for `cmd`: the addresses of the command, swapped. */
  function ReplyTo(cmd: SampleCommand, angles: Angles): SampleReply
  {
    SampleReply(cmd.destAddress, cmd.srcAddress, angles.polar, angles.azimuthal)
  }

  /** Reads a reply's addresses as the command that would travel the same way. */
  function AsCommand(reply: SampleReply): SampleCommand
  {
    SampleCommand(reply.srcAddress, reply.destAddress)
  }

  /** The port activity of one `tc(cmd)` call on a sensor with the given stored
      voltage and address, when the requestor answers with `answer`. */
  function TcEffects(voltage: real, address: Address, cmd: SampleCommand, answer: Angles): (effects: seq<PortEvent>)
    ensures effects != [] <==> Powered(voltage) && address == cmd.destAddress
    ensures effects != [] ==>
      |effects| == 2 && effects[0] == PositionRequested && effects[1].TelemetrySent? &&
      effects[1].reply.srcAddress == address &&
      effects[1].reply.destAddress == cmd.srcAddress &&
      effects[1].reply.polarAngle == answer.polar &&
      effects[1].reply.azimuthalAngle == answer.azimuthal
  {
    if Ignores(voltage, address, cmd) then []
    else [PositionRequested, TelemetrySent(ReplyTo(cmd, answer))]
  }

  /** Swapping the reply's addresses once more gives back the command's pair,
      whatever the angles: the reply routes back to the command's sender. */
  lemma ReplySwapsBack(cmd: SampleCommand, answer: Angles)
    ensures AsCommand(ReplyTo(cmd, answer)) == SampleCommand(cmd.destAddress, cmd.srcAddress)
    ensures AsCommand(ReplyTo(AsCommand(ReplyTo(cmd, answer)), answer)) == cmd
  {
  }

  /** The replies sent on `tm`, in order. */
  function Replies(events: seq<PortEvent>): seq<SampleReply>
    decreases |events|
  {
    if events == [] then []
    else (if events[0].TelemetrySent? then [events[0].reply] else []) + Replies(events[1..])
  }

  /** How many requests were sent through the requestor. */
  function RequestCount(events: seq<PortEvent>): nat
    decreases |events|
  {
    if events == [] then 0
    else (if events[0] == PositionRequested then 1 else 0) + RequestCount(events[1..])
  }

  /** One accepted command: one request and one reply. */
  lemma ExchangeCounts(reply: SampleReply)
    ensures Replies([PositionRequested, TelemetrySent(reply)]) == [reply]
    ensures RequestCount([PositionRequested, TelemetrySent(reply)]) == 1
  {
    var e := [PositionRequested, TelemetrySent(reply)];
    var tail := [TelemetrySent(reply)];
    assert e[1..] == tail && tail[1..] == [];
    assert Replies(tail) == [reply] + Replies([]);
    assert RequestCount(tail) == 0;
  }

  lemma {:induction false} RepliesAppend(a: seq<PortEvent>, b: seq<PortEvent>)
    ensures Replies(a + b) == Replies(a) + Replies(b)
    decreases |a|
  {
    if a != [] {
      assert (a + b)[0] == a[0] && (a + b)[1..] == a[1..] + b;
      RepliesAppend(a[1..], b);
    } else {
      assert a + b == b;
    }
  }

  lemma {:induction false} RequestCountAppend(a: seq<PortEvent>, b: seq<PortEvent>)
    ensures RequestCount(a + b) == RequestCount(a) + RequestCount(b)
    decreases |a|
  {
    if a != [] {
      assert (a + b)[0] == a[0] && (a + b)[1..] == a[1..] + b;
      RequestCountAppend(a[1..], b);
    } else {
      assert a + b == b;
    }
  }

  /** The commands among `cmds` that a sensor with this voltage and address accepts. */
  function Accepted(voltage: real, address: Address, cmds: seq<SampleCommand>): seq<SampleCommand>
    decreases |cmds|
  {
    if cmds == [] then []
    else (if Ignores(voltage, address, cmds[0]) then [] else [cmds[0]]) + Accepted(voltage, address, cmds[1..])
  }

  /** The port activity of a sequence of `tc` calls. Since `tc` changes neither
      the voltage nor the address, every call sees the same ones; `answers[i]`
      is what the requestor would answer to the i-th command. */
  function TcRun(voltage: real, address: Address, cmds: seq<SampleCommand>, answers: seq<Angles>): seq<PortEvent>
    requires |answers| == |cmds|
    decreases |cmds|
  {
    if cmds == [] then []
    else TcEffects(voltage, address, cmds[0], answers[0]) + TcRun(voltage, address, cmds[1..], answers[1..])
  }

  /** Over any sequence of commands, requests and replies strictly alternate,
      starting with a request; there is exactly one reply per accepted command,
      each sent from the sensor's own address back to that command's sender;
      an unpowered sensor does nothing at all. */
  lemma {:induction false} TcRunPairs(voltage: real, address: Address, cmds: seq<SampleCommand>, answers: seq<Angles>)
    requires |answers| == |cmds|
    ensures var e := TcRun(voltage, address, cmds, answers);
      |e| % 2 == 0 &&
      (forall i :: 0 <= i < |e| ==> (e[i] == PositionRequested <==> i % 2 == 0)) &&
      RequestCount(e) == |Replies(e)| == |Accepted(voltage, address, cmds)| &&
      (forall j :: 0 <= j < |Replies(e)| ==>
        Replies(e)[j].srcAddress == address &&
        Replies(e)[j].destAddress == Accepted(voltage, address, cmds)[j].srcAddress) &&
      (!Powered(voltage) ==> e == [])
    decreases |cmds|
  {
    if cmds != [] {
      var first := TcEffects(voltage, address, cmds[0], answers[0]);
      var rest := TcRun(voltage, address, cmds[1..], answers[1..]);
      var acc := Accepted(voltage, address, cmds[1..]);
      TcRunPairs(voltage, address, cmds[1..], answers[1..]);
      var e := TcRun(voltage, address, cmds, answers);
      assert e == first + rest;
      RepliesAppend(first, rest);
      RequestCountAppend(first, rest);
      if first == [] {
        assert e == rest;
        assert Accepted(voltage, address, cmds) == acc;
      } else {
        ExchangeCounts(first[1].reply);
        assert Accepted(voltage, address, cmds) == [cmds[0]] + acc;
        forall i | 0 <= i < |e|
          ensures e[i] == PositionRequested <==> i % 2 == 0
        {
          if i >= 2 {
            assert e[i] == rest[i - 2];
          }
        }
      }
    }
  }

  /** When every command is addressed to a powered sensor, it accepts them all. */
  lemma {:induction false} AllAccepted(voltage: real, address: Address, cmds: seq<SampleCommand>)
    requires Powered(voltage)
    requires forall i :: 0 <= i < |cmds| ==> cmds[i].destAddress == address
    ensures Accepted(voltage, address, cmds) == cmds
    decreases |cmds|
  {
    if cmds != [] {
      AllAccepted(voltage, address, cmds[1..]);
      assert [cmds[0]] + cmds[1..] == cmds;
    }
  }
}
