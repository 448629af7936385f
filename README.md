# Sun-sensor models of the nexosim model-authoring examples

This project models the example components of a simulation bench for a satellite
sun sensor. The bench is built on the nexosim discrete-event simulator. The
examples grow slide by slide:

- **slide 7** (`BasicInput`): a sensor that only stores a voltage. `voltage_in`
  reports "powered on" or "powered off" when the value crosses 5.0 V.
- **slide 8** (`TcInput`): the sensor gains a bus address and a telecommand
  input `tc`. `tc` samples the sun position only when the sensor is powered
  and the command is addressed to it.
- **slide 23** (`RequestorSensor`): the sensor gains a telemetry output `tm`
  and a requestor for the sun position. An accepted `tc` issues one request
  and then sends one `SampleReply` whose addresses are the command's, swapped.
- **slide 32** (`Prototypes`): the sensor is built from a prototype that
  carries its wiring, and `tc` adds Gaussian noise to the polar angle. An
  on-board computer (`Obc`) sends it a `SampleCommand` 1 s after
  initialisation and then every second.

Shared modules:

- `Power` holds the threshold state machine that all four sensors share. It
  also proves what a whole run of `voltage_in` calls reports.
- `Telecommand` holds the messages, the `tc` guard and the port activity of
  one `tc` call or a sequence of them.
- `Schedule` holds periodic firing on an abstract clock, counted in
  nanoseconds.

Modelling choices:

- Voltages and angles are `real`.
- Addresses (`u8`) are integers in `[0, 256)`.
- An `Output` is the sequence of values sent on it.
- A `UniRequestor` is its bound target plus a count of the requests sent
  through it.
- Each `println!` becomes a returned `Transition` tag.
- Each `tc` also returns the ordered list of what it did on the two ports:
  `PositionRequested`, then `TelemetrySent(reply)`.
- Fields the source never reassigns after construction (`address`,
  `sensor_address`) are `const`. A method's `modifies` frame names exactly
  the fields it may change.

## Model

| member | source | states |
|---|---|---|
| Power.TransitionOf | 1-model-authoring/slide-7-basic-input/sun-sensor/src/lib.rs:14-18 | "on" is reported iff the old voltage is below 5.0 and the new one is at or above it. "off" is reported iff the reverse holds. Nothing is reported iff both values are on the same side of the threshold, so at most one message per call. |
| Power.ReportsAlternate | 1-model-authoring/slide-7-basic-input/sun-sensor/src/lib.rs:13-20 | Over any sequence of `voltage_in` calls, "on" and "off" messages strictly alternate, starting with the one that leaves the initial state. An odd number of messages is printed exactly when the final powered state differs from the initial one. |
| Power.SteadyInputQuiet | 1-model-authoring/slide-7-basic-input/sun-sensor/src/lib.rs:14-19 | Idempotence: feeding the value the sensor already holds, any number of times, prints nothing and leaves the stored voltage unchanged. |
| Power.FreshSensorPowersOnOnce | 1-model-authoring/slide-7-basic-input/sun-sensor/src/lib.rs:13-24 | A sensor starting at 0 V and fed 5.0 repeatedly reports power-on exactly once and nothing else. |
| BasicInput.SunSensor.constructor | 1-model-authoring/slide-7-basic-input/sun-sensor/src/lib.rs:22-24 | A new sensor holds 0 V and is unpowered. |
| BasicInput.SunSensor.VoltageIn | 1-model-authoring/slide-7-basic-input/sun-sensor/src/lib.rs:13-20 | The stored voltage becomes the input, whatever it was. The report is the threshold transition from the old value to the new one. |
| BasicInput.PowerOnTwice | 1-model-authoring/slide-7-basic-input/sun-sensor/src/lib.rs:13-24 | On a fresh sensor, `voltage_in(5.0)` twice reports power-on, then nothing, and leaves the sensor powered. |
| TcInput.SunSensor.constructor | 1-model-authoring/slide-8-to-11-tc-input/sun-sensor/src/lib.rs:32-37 | Stores the address and starts at 0 V, unpowered. |
| TcInput.SunSensor.VoltageIn | 1-model-authoring/slide-8-to-11-tc-input/sun-sensor/src/lib.rs:14-21 | Overwrites the voltage and reports the threshold transition. |
| TcInput.SunSensor.Tc | 1-model-authoring/slide-8-to-11-tc-input/sun-sensor/src/lib.rs:23-30 | The sun position is sampled iff the sensor is powered and `address == cmd.dest_address`. The sampled position is the fixed [0, 1, 10]. The source address is never consulted, and no state changes. |
| RequestorSensor.SunSensor.constructor | 1-model-authoring/slide-23-to-26-requestor/sun-sensor/src/lib.rs:43-50 | Stores the address and the requestor unchanged. Starts at 0 V (unpowered) with nothing sent on `tm`. |
| RequestorSensor.SunSensor.VoltageIn | 1-model-authoring/slide-23-to-26-requestor/sun-sensor/src/lib.rs:18-25 | Overwrites the voltage and reports the threshold transition. Nothing else changes. |
| RequestorSensor.SunSensor.Tc | 1-model-authoring/slide-23-to-26-requestor/sun-sensor/src/lib.rs:27-41 | The port activity is exactly `TcEffects`. `tm` grows by exactly the replies sent. The requestor's request count grows by exactly the requests issued, and its target is unchanged. Voltage and address cannot change. |
| Telecommand.TcEffects | 1-model-authoring/slide-23-to-26-requestor/sun-sensor/src/lib.rs:27-41 | `tc` does nothing iff the sensor is unpowered or misaddressed. Otherwise it issues one request and then sends one reply, in that order. The reply goes from the sensor's own address to the command's source and carries the requestor's angles. |
| Telecommand.ReplySwapsBack | 1-model-authoring/slide-23-to-26-requestor/sun-sensor/src/lib.rs:34-39 | The reply's address pair is the command's pair swapped. Swapping again gives back the command. |
| Telecommand.TcRunPairs | 1-model-authoring/slide-23-to-26-requestor/sun-sensor/src/lib.rs:27-41 | Over any sequence of commands, requests and replies strictly alternate, starting with a request. There is one request and one reply per accepted command. The j-th reply goes from the sensor to the sender of the j-th accepted command. An unpowered sensor does nothing. |
| Telecommand.AllAccepted | 1-model-authoring/slide-23-to-26-requestor/sun-sensor/src/lib.rs:28-30 | A powered sensor accepts every command addressed to it. |
| Prototypes.NewProto | 1-model-authoring/slide-32-to-34-env-and-prototypes/sun-sensor/src/lib.rs:24-30 | The prototype holds the given address and requestor, and a default output with nothing sent. |
| Prototypes.Build | 1-model-authoring/slide-32-to-34-env-and-prototypes/sun-sensor/src/lib.rs:36-44 | The built sensor is fresh. Its address, requestor and `tm` are the prototype's, unchanged. It starts at 0 V, unpowered. Its environment is seeded from the given entropy. |
| Prototypes.SunSensor.constructor | 1-model-authoring/slide-32-to-34-env-and-prototypes/sun-sensor/src/lib.rs:85-96 | Takes the address, requestor and `tm` as given. Starts at 0 V, unpowered. |
| Prototypes.SunSensor.VoltageIn | 1-model-authoring/slide-32-to-34-env-and-prototypes/sun-sensor/src/lib.rs:57-64 | Overwrites the voltage and reports the threshold transition. Nothing else changes. |
| Prototypes.SunSensor.Tc | 1-model-authoring/slide-32-to-34-env-and-prototypes/sun-sensor/src/lib.rs:66-83 | Same gating and ordering as `TcEffects`. The reply's polar angle is shifted by 0.1 times the noise sample, and its addresses do not depend on the noise. `tm` and the requestor grow by exactly what was done. Voltage and address are unchanged. |
| Prototypes.Obc.constructor | 1-model-authoring/slide-32-to-34-env-and-prototypes/sun-sensor/src/lib.rs:154-160 | Stores both addresses. Nothing has been sent. |
| Prototypes.Obc.SendSampleCommand | 1-model-authoring/slide-32-to-34-env-and-prototypes/sun-sensor/src/lib.rs:163-170 | Appends exactly one command, from the OBC's address to the sensor's. The addresses cannot change. |
| Prototypes.Obc.Init | 1-model-authoring/slide-32-to-34-env-and-prototypes/sun-sensor/src/lib.rs:173-183 | Requests `send_sample_command` periodically. By virtual time t it has fired exactly `t / 1 s` times, the i-th firing at (i+1) s (so 10 firings by 10 s). |
| Schedule.FiringsShape | 1-model-authoring/slide-32-to-34-env-and-prototypes/sun-sensor/src/lib.rs:174-179 | A periodic event fires at first-delay + i·period. Its firings up to a horizon are exactly those not beyond it: the last one is within the horizon and the next one would be beyond. |
| Prototypes.SamplingLoop | 1-model-authoring/slide-32-to-34-env-and-prototypes/sun-sensor/src/lib.rs:163-170 | n commands from the OBC to a powered sensor at the commanded address yield exactly n requests and n replies. Every reply goes from the sensor back to the OBC. |

## Left out

- `cartesian_to_spherical` (f32 `sqrt`, `acos`, `signum`): the requestor's answer enters `tc` already converted, as an `Angles` parameter. In the slide-8 version, the spherical form of the fixed position and its printing are not modelled.
- `Dynamics::sun_position` is not modelled: it is float arithmetic on the simulation time. What it answers is the `answer` parameter of `tc`.
- Gaussian noise from `SmallRng::from_entropy` and `StandardNormal` is not modelled. The operating system's entropy is a parameter of `Build`, and the sample drawn in `tc` is the `noise` parameter. How the generator advances is not modelled.
- f32 arithmetic is not modelled. Voltages and angles are exact reals, so rounding in `polar + noise * 0.1` is not captured. NaN voltages are not modelled (every NaN comparison is false in the source).
- The nexosim kernel is not part of this model: mailboxes, addresses of models, the scheduler, delivery of `Output` values to connected sinks, asynchronous suspension of `tc` while the requestor waits, `BuildContext` and `Context`. An `Output`'s connections are not modelled, only the values sent on it.
- `Prototypes.Obc.Init` returns the periodic request instead of registering it with the scheduler. The firing times are derived from that request on an abstract clock that starts at initialisation. The `.unwrap()` failure path is not modelled, because with a 1 s delay and a 1 s period the call cannot fail.
- The `println!` output and the serde derives are not modelled. Messages are returned as `Transition` tags.
- The bench `main.rs` programs, the output-cloning demonstration and the empty slide-3 model are not modelled: they only wire and drive the simulator.
