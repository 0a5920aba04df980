# EnemGarageModule — a Dafny model of the garage/gate controller

The firmware drives a garage door and a gate through two relays. It reads
two debounced end-stop sensors on the garage door and reports the door's
position on the `state` property. It accepts `goGarage` and `goGate`
commands. Everything it does happens in `loopHandler`, which runs once per
tick, and in the two property handlers. The model has three parts:

- **Sensor fusion and change reporting** (`DoorStates`, `Reporter`). Two
  booleans are fused into the codes `o`, `c`, `u` or `i`. A code is
  published only when it differs from `lastGarageState`, which starts as `?`.
- **The garage actuator** (`Garage`). It is a four-phase machine
  (`NONE`, `INIT`, `RELAY_WAIT`, `WAIT_RETRY`):
  - it pulses the relay active-LOW for 1000 ms;
  - if the door was fully opened or closed when the command was taken, it
    waits 3000 ms and checks whether the fused state changed;
  - if the state did not change, it re-pulses, up to 5 times.
- **The gate actuator** (`Gate`). It sends one 1000 ms active-LOW pulse per
  command and does not check the result.

`Controller` puts them together as the firmware does. The pure functions
`GarageGo`, `GateGo` and `Tick` are the two handlers and `loopHandler`.
The class `Controller.GarageModule` holds the sketch's globals as fields.
Its handler methods and `LoopHandler` method are proved to change those
fields exactly as the pure functions say.

The hardware is modelled as follows:
- `millis()` becomes the parameter `now`, of type `Millis`, which ranges
  over 0..2^32-1.
- Elapsed time is computed as in `unsigned long` arithmetic, modulo 2^32
  (`Hardware.Elapsed`).
- The two debounced reads become boolean parameters.
- The relay pins become `Level` fields.
- `setProperty("state").send` becomes an append to a `published` log.
- Logger lines become `Event` tags appended to a diagnostic log.

A relay activation is a write of LOW to the relay. For the garage, that is a
step that enters `RELAY_WAIT` from another phase. For the gate, it is a tick
that finds the flag set and no recorded start.

Notes on behaviour taken from the code:
- The garage handler only sets `INIT` (src/main.cpp:35). The capture of
  `goGarageInitState`, the retry reset and the relay activation happen on
  the next tick (lines 80-87). That tick reads `lastGarageState` after it
  has been updated from the sensors. A command therefore discards any
  cycle in progress.
- The comment at src/main.cpp:74 says the check happens after 5 seconds.
  The code waits `GO_CMD_RETRY_INTERVAL` = 3000 ms (line 16), and so does
  the model.
- Within a tick, the garage switch runs before the gate block, as in the
  source. The two never share state.
- If `millis()` is exactly 0 when a gate pulse starts, the recorded start
  equals the "not started" sentinel. The pulse then restarts on the next
  tick. `Gate.Step` models this as written. The gate run lemmas consider
  ticks at nonzero times.

## Model

| member | source | states |
|---|---|---|
| `Hardware.Elapsed` | src/main.cpp:89 | elapsed time is `now - since` when the clock has not wrapped, and `now + 2^32 - since` when it has |
| `Hardware.ElapsedSinceLater` | src/main.cpp:106 | any delay shorter than one clock period is measured exactly, even across the 2^32 roll-over |
| `DoorStates.CodesDistinct` | src/main.cpp:9-13 | the five state codes are pairwise distinct, so comparing codes is comparing states |
| `DoorStates.Fuse` | src/main.cpp:54-59 | truth table: (1,0) gives `o`, (0,1) gives `c`, (0,0) gives `u`, (1,1) gives `i`, each as an iff; the result is never `?` |
| `DoorStates.FuseIsOneToOne` | src/main.cpp:56-59 | every fused state except `?` comes from exactly one sensor pair |
| `Reporter.Report` | src/main.cpp:62-68 | a tick publishes iff the fused state differs from the remembered one, and then publishes exactly that state |
| `Reporter.PublishedSnoc` | src/main.cpp:62-68 | one more tick appends exactly that tick's publication to the publish log |
| `Reporter.PublishCountIsChanges` | src/main.cpp:62-68 | over any run, the number of publications equals the number of value changes |
| `Reporter.PublishedMirrors` | src/main.cpp:62-68 | nothing is published iff every reading equals the remembered state; otherwise the last publication is the latest reading |
| `Reporter.PublishedHasNoRepeats` | src/main.cpp:62-68 | the first publication differs from the remembered state, and no publication repeats the one before it |
| `Garage.Command` | src/main.cpp:33-37 | the garage handler sets `INIT` from any phase and changes nothing else (no capture, no retry reset, no relay write); it keeps the actuator invariant |
| `Garage.Step` | src/main.cpp:78-131 | a tick never leaves `INIT` pending and writes at most one log line; it keeps the retry counter in 0..5; afterwards the relay is LOW iff the phase is `RELAY_WAIT` |
| `Garage.CommandRestarts` | src/main.cpp:80-87 | after a command, whatever the prior phase, the next tick captures that tick's state, resets retries to 0, drives the relay LOW, starts the chrono and enters `RELAY_WAIT` |
| `Garage.PulseEnds` | src/main.cpp:88-104 | in `RELAY_WAIT`, nothing changes iff less than 1000 ms have elapsed; after that the relay goes HIGH, and the phase is `WAIT_RETRY` (fresh chrono) iff the captured state is `o` or `c`, else `NONE` |
| `Garage.CheckOutcome` | src/main.cpp:105-130 | in `WAIT_RETRY`, nothing changes iff less than 3000 ms have elapsed; after that: success if the state changed, else a re-pulse with the counter incremented while it is below 5, else give up |
| `Garage.IdleRun` | src/main.cpp:78-131 | an idle actuator stays idle and silent under any ticks |
| `Garage.RunWithinBudget` | src/main.cpp:80-130 | under any door behaviour, one command causes at most 6 relay activations; a cycle in progress causes at most 5 minus its retry count |
| `Garage.FrozenCycle` | src/main.cpp:105-128 | with the door reading the captured terminal state at every check (other ticks free), a cycle spends exactly its remaining retries, ends with "gave up" and never logs success |
| `Garage.FrozenSensorsExhaustRetries` | src/main.cpp:80-130 | a command with the door opened or closed, still reading so at every check (frozen sensors being the special case): at most 6 activations, and exactly 6 when the cycle has ended, by giving up |
| `Garage.RunPrefixStep` | src/main.cpp:78-131 | the cycle after `i + 1` ticks is the cycle after `i` ticks from the cycle the first tick produced |
| `Garage.ChecksShift` | src/main.cpp:106-108 | a condition on the door at the checks of a run (the ticks where 3000 ms have elapsed in `WAIT_RETRY`) splits into the first tick and the rest |
| `Garage.MovedCycle` | src/main.cpp:105-112 | with the door away from the captured state at every check (readings during the pulse and the wait are free), a cycle does no further pulse or retry, and can only end in success |
| `Garage.MovesAfterOnePulse` | src/main.cpp:80-112 | a command with the door opened or closed, which reads some other state by the first check: exactly 1 activation, no retry, and any ending is "correctly moved" |
| `Garage.OpenedThenClosedExample` | src/main.cpp:80-112 | the run opened, opened, closed, closed at 100, 110, 1200 and 4300 ms gives one pulse and the log "relay on", "waiting for check", "correctly moved" |
| `Garage.UncheckedCycle` | src/main.cpp:88-102 | a cycle whose captured state is not verifiable finishes its pulse, does no further pulse, and only ever logs "no check" |
| `Garage.SinglePulseWhenUnverifiable` | src/main.cpp:80-102 | a command with the door at `u`, `i` or `?`: exactly 1 activation, and `WAIT_RETRY` is never entered |
| `Gate.Command` | src/main.cpp:39-44 | the gate handler sets the flag and changes nothing else (start time and relay untouched); while the flag is already set it changes nothing at all |
| `Gate.CommandIdempotent` | src/main.cpp:41 | two back-to-back commands equal one |
| `Gate.Step` | src/main.cpp:134-148 | a tick keeps the gate invariant, never raises the flag, and writes at most one log line; the door state is not an input |
| `Gate.PulseStarts` | src/main.cpp:136-140 | a pending, unstarted command drives the relay LOW and records the tick's time |
| `Gate.PulseEnds` | src/main.cpp:141-147 | a running pulse is unchanged iff less than 1000 ms have elapsed; after that the relay goes HIGH and the flag and start are cleared |
| `Gate.RestRun` | src/main.cpp:134 | with no command pending, the gate stays at rest under any ticks |
| `Gate.PulseRuns` | src/main.cpp:134-148 | a running pulse is neither restarted nor extended: its start is unchanged until it ends, and no further activation happens |
| `Gate.OnePulsePerCommand` | src/main.cpp:134-148 | a command on a gate at rest yields exactly one activation; when the flag clears, the relay is HIGH and "done" is logged once |
| `Controller.InitialValid` | src/main.cpp:159-160 | the power-up state satisfies the controller invariant, with both relays idle HIGH |
| `Controller.GarageGo` | src/main.cpp:33-37 | the garage handler changes only the garage, exactly as `Garage.Command`; the remembered state, the gate and both logs are untouched; it keeps the controller invariant |
| `Controller.GateGo` | src/main.cpp:39-44 | the gate handler sets the gate flag as `Gate.Command` and appends exactly one log line; the garage, the remembered state and the publish log are untouched; it keeps the controller invariant |
| `Controller.Tick` | src/main.cpp:46-149 | after a tick the state is never `?`, no garage command is pending, the invariant holds, and the garage relay is LOW iff the phase is `RELAY_WAIT` |
| `Controller.TickReports` | src/main.cpp:54-68 | a tick remembers the fused state, and appends it to the publish log iff it differs from the remembered one |
| `Controller.CommandThenTickCaptures` | src/main.cpp:80-87 | a command and then a tick give `RELAY_WAIT` with the state fused on that tick, retry 0, the chrono at `now` and the relay LOW |
| `Controller.GateIgnoresSensors` | src/main.cpp:134-148 | the gate's new state does not depend on the sensor readings |
| `Controller.ActuatorsNeverWriteState` | src/main.cpp:62-68 | the remembered state and the publish log after a tick do not depend on either actuator |
| `Controller.RunValid` | src/main.cpp:46-149 | the controller invariant holds after any run of ticks |
| `Controller.RunDecomposes` | src/main.cpp:46-149 | a run of the controller is the reporter, the garage actuator and the gate actuator, each run on its own inputs |
| `Controller.PublishesEveryChangeOnce` | src/main.cpp:22-68 | from power-up, the publish count equals the number of changes, the first reading included, and the last publication is the current state |
| `Controller.GarageModule.constructor` | src/main.cpp:159-160 | the globals start at their initial values, with both relays HIGH |
| `Controller.GarageModule.GarageGoHandler` | src/main.cpp:33-37 | returns true and changes the globals exactly as `GarageGo` does |
| `Controller.GarageModule.GateGoHandler` | src/main.cpp:39-44 | returns true and changes the globals exactly as `GateGo` does |
| `Controller.GarageModule.ReportState` | src/main.cpp:61-68 | publishes iff the state changed, remembers it, and touches neither actuator |
| `Controller.GarageModule.AdvanceGarage` | src/main.cpp:78-131 | the garage switch updates the garage globals exactly as `Garage.Step` does and touches nothing else |
| `Controller.GarageModule.AdvanceGate` | src/main.cpp:133-148 | the gate block updates the gate globals exactly as `Gate.Step` does and touches nothing else |
| `Controller.GarageModule.LoopHandler` | src/main.cpp:46-149 | one call changes the globals exactly as `Tick` does |

## Left out

- Homie setup and transport are left out: the firmware name, `Homie.setup`, `advertise`, `settable` and `Homie.loop`. They are library plumbing. Publishing is an append to a log, and the handlers are methods called between ticks. The firmware runs them on the same thread as the tick, so each is applied atomically.
- Bounce debouncing (`attach`, `interval(50)`, `update`) is left out. It is a foreign library that filters electrical noise, so the debounced reads are tick inputs.
- `pinMode`, `Serial.begin` and the hardware calls `digitalWrite` and `millis` are left out. The model keeps only the relay levels as fields and the time as a parameter.
- All `millis()` calls within one tick (src/main.cpp:85, 89, 95, 106, 119, 139, 141) are taken to return the same value, the tick's `now`. The real calls can differ by the time the tick takes.
- Logger output is left out as text. Each line is an `Event` tag, and nothing reads the tags back.
- Gate.OnePulsePerCommand: assumes every tick happens at a nonzero `millis()`. At time 0 the recorded start equals the "not started" sentinel, and the pulse restarts on the next tick. `Gate.Step` itself models that case as written.
- The worst-case length of a garage cycle (about 21 s) is not stated as a theorem. It depends on how often ticks happen, and the model takes tick times as arbitrary inputs. Only the activation count is bounded (`Garage.RunWithinBudget`).
