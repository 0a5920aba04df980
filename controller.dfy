/** The sketch as a whole: the globals of `main.cpp`, the two property
 *  handlers and the per-tick `loopHandler`, first as a pure transition
 *  system, then as the mutable object the firmware really is. */
module Controller {
  import opened Hardware
  import opened DoorStates
  import Reporter
  import Garage
  import Gate

  /** Every global the core reads or writes, plus what it sends out: the
   *  values published on `state` and the lines written to the logger. */
  datatype State = State(
    last: DoorState,          // lastGarageState
    garage: Garage.Cycle,
    gate: Gate.Cycle,
    published: seq<DoorState>,
    log: seq<Event>)

  /** After `setup()`: nothing known or published, both relays idle HIGH. */
  const Initial: State := State(NotInitialized, Garage.Reset, Gate.Reset, [], [])

  /** What holds between any two calls into the core. Both actuators are
   *  consistent, and the remembered state is the last one published: no
   *  publication yet exactly while it is still `NotInitialized`. */
  predicate Valid(s: State)
  {
    && Garage.Valid(s.garage)
    && Gate.Valid(s.gate)
    && (s.published == [] <==> s.last == NotInitialized)
    && (s.published != [] ==> s.published[|s.published| - 1] == s.last)
  }

  lemma InitialValid()
    ensures Valid(Initial)
    ensures Initial.garage.relay == High && Initial.gate.relay == High
  {
  }

  /** `garageGoHandler`: only the garage phase changes; the capture and the
   *  relay activation wait for the next tick. */
  function GarageGo(s: State): (t: State)
    ensures t.garage.phase == Garage.Init
    ensures t.garage == Garage.Command(s.garage) && t.(garage := s.garage) == s
    ensures Valid(s) ==> Valid(t)
  {
    s.(garage := Garage.Command(s.garage))
  }

  /** `gateGoHandler`: raises the flag and writes one log line; nothing
   *  else changes. */
  function GateGo(s: State): (t: State)
    ensures t.gate.pending
    ensures t.gate == Gate.Command(s.gate) && t.log == s.log + [GateRequested]
    ensures t.(gate := s.gate, log := s.log) == s
    ensures Valid(s) ==> Valid(t)
  {
    s.(gate := Gate.Command(s.gate), log := s.log + [GateRequested])
  }

  /** `loopHandler`: fuse the sensors, publish on change, advance the garage
   *  actuator on the freshly updated state, then advance the gate. After a
   *  tick the door state is never `NotInitialized` again, no command is left
   *  pending for the garage, and the garage relay is active exactly while
   *  the garage actuator is in `RelayWait`. */
  function Tick(s: State, now: Millis, openedValue: bool, closedValue: bool): (t: State)
    ensures t.last != NotInitialized
    ensures t.garage.phase != Garage.Init
    ensures Valid(s) ==> Valid(t)
    ensures Valid(s) ==> (t.garage.relay == Low <==> t.garage.phase == Garage.RelayWait)
  {
    var current := Fuse(openedValue, closedValue);
    var g := Garage.Step(s.garage, now, current);
    var h := Gate.Step(s.gate, now);
    State(current, g.cycle, h.cycle, s.published + Reporter.Report(s.last, current), s.log + g.log + h.log)
  }

  /** A tick publishes the fused state iff it differs from the remembered
   *  one, and remembers it either way. */
  lemma TickReports(s: State, now: Millis, openedValue: bool, closedValue: bool)
    ensures var t := Tick(s, now, openedValue, closedValue);
      && t.last == Fuse(openedValue, closedValue)
      && (Fuse(openedValue, closedValue) != s.last ==>
            t.published == s.published + [Fuse(openedValue, closedValue)])
      && (Fuse(openedValue, closedValue) == s.last ==> t.published == s.published)
  {
  }

  /** A garage command, whatever the phase it interrupts, is carried out by
   *  the next tick: the state just fused is captured, retries start again
   *  from zero, the relay goes active and the pulse is timed from `now`. */
  lemma CommandThenTickCaptures(s: State, now: Millis, openedValue: bool, closedValue: bool)
    ensures Tick(GarageGo(s), now, openedValue, closedValue).garage ==
      Garage.Cycle(Garage.RelayWait, Fuse(openedValue, closedValue), now, 0, Low)
  {
  }

  /** The gate never reads the door state: two ticks that differ only in the
   *  sensors leave the gate identical. */
  lemma GateIgnoresSensors(s: State, now: Millis, o1: bool, c1: bool, o2: bool, c2: bool)
    ensures Tick(s, now, o1, c1).gate == Tick(s, now, o2, c2).gate
  {
  }

  /** The actuators never write the door state: whatever they are doing, the
   *  remembered state after a tick is the one fused from the sensors. */
  lemma ActuatorsNeverWriteState(s: State, garage: Garage.Cycle, gate: Gate.Cycle,
                                 now: Millis, openedValue: bool, closedValue: bool)
    ensures Tick(s.(garage := garage, gate := gate), now, openedValue, closedValue).last ==
            Tick(s, now, openedValue, closedValue).last
    ensures Tick(s.(garage := garage, gate := gate), now, openedValue, closedValue).published ==
            Tick(s, now, openedValue, closedValue).published
  {
  }

  // ----------------------------------------------------------------------
  // Runs of ticks without an intervening command.

  /** The inputs of one call of `loopHandler`: `millis()` and the two
   *  debounced sensor reads. */
  datatype Sample = Sample(now: Millis, openedValue: bool, closedValue: bool)

  function Run(s: State, samples: seq<Sample>): State
    decreases |samples|
  {
    if samples == [] then s
    else
      var x := samples[0];
      Run(Tick(s, x.now, x.openedValue, x.closedValue), samples[1..])
  }

  /** The door states fused over a run. */
  function Fused(samples: seq<Sample>): (xs: seq<DoorState>)
    ensures |xs| == |samples|
  {
    seq(|samples|, i requires 0 <= i < |samples| => Fuse(samples[i].openedValue, samples[i].closedValue))
  }

  /** What the garage actuator sees over a run: the time and the fused state. */
  function Readings(samples: seq<Sample>): (rs: seq<Garage.Reading>)
    ensures |rs| == |samples|
  {
    seq(|samples|, i requires 0 <= i < |samples| =>
      Garage.Reading(samples[i].now, Fuse(samples[i].openedValue, samples[i].closedValue)))
  }

  /** What the gate actuator sees over a run: the time only. */
  function Times(samples: seq<Sample>): (ts: seq<Millis>)
    ensures |ts| == |samples|
  {
    seq(|samples|, i requires 0 <= i < |samples| => samples[i].now)
  }

  /** The invariant holds after any run. */
  lemma {:induction false} RunValid(s: State, samples: seq<Sample>)
    requires Valid(s)
    ensures Valid(Run(s, samples))
    decreases |samples|
  {
    if samples != [] {
      var x := samples[0];
      RunValid(Tick(s, x.now, x.openedValue, x.closedValue), samples[1..]);
    }
  }

  /** Over a run, the controller is exactly its three components side by
   *  side: the reporter fed with the fused states, the garage actuator with
   *  the times and fused states, the gate actuator with the times alone. */
  lemma {:induction false} RunDecomposes(s: State, samples: seq<Sample>)
    ensures Run(s, samples).published == s.published + Reporter.Published(s.last, Fused(samples))
    ensures Run(s, samples).garage == Garage.Run(s.garage, Readings(samples)).cycle
    ensures Run(s, samples).gate == Gate.Run(s.gate, Times(samples)).cycle
    decreases |samples|
  {
    if samples != [] {
      var x := samples[0];
      var t := Tick(s, x.now, x.openedValue, x.closedValue);
      RunDecomposes(t, samples[1..]);
      assert Fused(samples[1..]) == Fused(samples)[1..];
      assert Readings(samples[1..]) == Readings(samples)[1..];
      assert Times(samples[1..]) == Times(samples)[1..];
    }
  }

  /** From power-up, the number of values published on `state` is the
   *  number of changes of the fused state, the initial value included, and
   *  the last one published is the current state. */
  lemma PublishesEveryChangeOnce(samples: seq<Sample>)
    requires samples != []
    ensures |Run(Initial, samples).published| == Reporter.Changes(NotInitialized, Fused(samples))
    ensures var p := Run(Initial, samples).published;
      p != [] && p[|p| - 1] == Fused(samples)[|samples| - 1]
  {
    RunDecomposes(Initial, samples);
    Reporter.PublishCountIsChanges(NotInitialized, Fused(samples));
    Reporter.PublishedMirrors(NotInitialized, Fused(samples));
    assert Fused(samples)[0] != NotInitialized;
  }

  // ----------------------------------------------------------------------
  // The firmware's globals as one mutable object.

  class GarageModule {
    var lastGarageState: DoorState
    var goGarageInitState: DoorState
    var goGarageChrono: Millis
    var garageGoState: Garage.Phase
    var goGarageRetry: int
    var goGate: bool
    var lastGoGateCmd: Millis
    var garageRelay: Level   // pin PIN_GO_GARAGE
    var gateRelay: Level     // pin PIN_GO_GATE
    var published: seq<DoorState>
    var log: seq<Event>

    /** The globals read as a State. */
    ghost function Model(): State
      reads this
    {
      State(lastGarageState,
            Garage.Cycle(garageGoState, goGarageInitState, goGarageChrono, goGarageRetry, garageRelay),
            Gate.Cycle(goGate, lastGoGateCmd, gateRelay),
            published, log)
    }

    /** The static initialisers and `setup()`: both relays driven HIGH
     *  before anything else happens. */
    constructor ()
      ensures Model() == Initial
      ensures Valid(Model())
    {
      lastGarageState := NotInitialized;
      goGarageInitState := NotInitialized;
      goGarageChrono := 0;
      garageGoState := Garage.Idle;
      goGarageRetry := 0;
      goGate := false;
      lastGoGateCmd := 0;
      published := [];
      log := [];
      gateRelay := High;
      garageRelay := High;
    }

    /** `garageGoHandler`: accepts any value, only flags the garage cycle. */
    method GarageGoHandler() returns (accepted: bool)
      modifies this
      ensures accepted
      ensures Model() == GarageGo(old(Model()))
    {
      garageGoState := Garage.Init;
      accepted := true;
    }

    /** `gateGoHandler`: accepts any value, raises the gate flag. */
    method GateGoHandler() returns (accepted: bool)
      modifies this
      ensures accepted
      ensures Model() == GateGo(old(Model()))
    {
      goGate := true;
      log := log + [GateRequested];
      accepted := true;
    }

    /** The publish-on-change block of `loopHandler`. */
    method ReportState(currentGarageState: DoorState)
      modifies this
      ensures lastGarageState == currentGarageState
      ensures published == old(published) + Reporter.Report(old(lastGarageState), currentGarageState)
      ensures Model().garage == old(Model()).garage && Model().gate == old(Model()).gate
      ensures log == old(log)
    {
      if currentGarageState != lastGarageState {
        published := published + [currentGarageState];
        lastGarageState := currentGarageState;
      }
    }

    /** The `switch` on `garageGoState` in `loopHandler`. */
    method AdvanceGarage(now: Millis)
      modifies this
      ensures Model().garage == Garage.Step(old(Model()).garage, now, lastGarageState).cycle
      ensures log == old(log) + Garage.Step(old(Model()).garage, now, lastGarageState).log
      ensures lastGarageState == old(lastGarageState) && published == old(published)
      ensures Model().gate == old(Model()).gate
    {
      match garageGoState {
      case Init =>
        log := log + [TryingToMove];
        goGarageRetry := 0;
        goGarageInitState := lastGarageState;
        garageRelay := Low;
        goGarageChrono := now;
        garageGoState := Garage.RelayWait;
      case RelayWait =>
        if Elapsed(now, goGarageChrono) >= PulseInterval {
          garageRelay := High;
          if goGarageInitState == Opened || goGarageInitState == Closed {
            log := log + [WaitingForCheck];
            goGarageChrono := now;
            garageGoState := Garage.WaitRetry;
          } else {
            log := log + [NoCheck];
            garageGoState := Garage.Idle;
          }
        }
      case WaitRetry =>
        if Elapsed(now, goGarageChrono) >= Garage.RetryInterval {
          if lastGarageState != goGarageInitState {
            log := log + [Moved];
            garageGoState := Garage.Idle;
          } else if goGarageRetry < Garage.MaxRetries {
            goGarageRetry := goGarageRetry + 1;
            log := log + [Retrying(goGarageRetry)];
            goGarageChrono := now;
            garageRelay := Low;
            garageGoState := Garage.RelayWait;
          } else {
            log := log + [GaveUp];
            garageGoState := Garage.Idle;
          }
        }
      case Idle =>
      }
    }

    /** The gate block at the end of `loopHandler`. */
    method AdvanceGate(now: Millis)
      modifies this
      ensures Model().gate == Gate.Step(old(Model()).gate, now).cycle
      ensures log == old(log) + Gate.Step(old(Model()).gate, now).log
      ensures lastGarageState == old(lastGarageState) && published == old(published)
      ensures Model().garage == old(Model()).garage
    {
      if goGate {
        if lastGoGateCmd == 0 {
          gateRelay := Low;
          lastGoGateCmd := now;
        } else if Elapsed(now, lastGoGateCmd) >= PulseInterval {
          gateRelay := High;
          lastGoGateCmd := 0;
          goGate := false;
          log := log + [GateDone];
        }
      }
    }

    /** `loopHandler`, given `millis()` as `now` and the debounced sensors. */
    method LoopHandler(now: Millis, openedValue: bool, closedValue: bool)
      modifies this
      ensures Model() == Tick(old(Model()), now, openedValue, closedValue)
    {
      var currentGarageState := Fuse(openedValue, closedValue);
      ReportState(currentGarageState);
      AdvanceGarage(now);
      AdvanceGate(now);
    }
  }
}
