/** The garage door actuator: pulse the relay, wait, check that the fused door
 *  state changed, and re-pulse a bounded number of times if it did not. */
module Garage {
  import opened Hardware
  import opened DoorStates

  /** `GO_CMD_RETRY_INTERVAL`: delay after a pulse before the check, in ms. */
  const RetryInterval: int := 3000
  /** Re-pulses allowed after the first one before giving up. */
  const MaxRetries: int := 5

  /** `State_enum`: `NONE`, `INIT`, `RELAY_WAIT`, `WAIT_RETRY`. */
  datatype Phase = Idle | Init | RelayWait | WaitRetry

  /** The actuator's globals: `garageGoState`, `goGarageInitState`,
   *  `goGarageChrono`, `goGarageRetry`, and the level of the garage relay pin. */
  datatype Cycle = Cycle(phase: Phase, initState: DoorState, chrono: Millis, retry: int, relay: Level)

  /** The actuator after setup: idle, relay at its inactive HIGH level. */
  const Reset: Cycle := Cycle(Idle, NotInitialized, 0, 0, High)

  /** One tick's effect: the new cycle and the diagnostic lines written. */
  datatype Advance = Advance(cycle: Cycle, log: seq<Event>)

  /** What holds of the actuator whenever a tick begins: the retry counter
   *  stays within its budget, and outside `Init` the relay is active exactly
   *  while a pulse is in progress. */
  predicate Valid(c: Cycle)
  {
    && 0 <= c.retry <= MaxRetries
    && (c.phase == RelayWait ==> c.relay == Low)
    && (c.phase == Idle || c.phase == WaitRetry ==> c.relay == High)
  }

  /** `garageGoHandler`: whatever the phase, flag the cycle for a (re)start at
   *  the next tick; nothing else is touched yet. */
  function Command(c: Cycle): (c': Cycle)
    ensures c'.phase == Init
    ensures c'.(phase := c.phase) == c
    ensures Valid(c) ==> Valid(c')
  {
    c.(phase := Init)
  }

  /** The `switch (garageGoState)` of `loopHandler`. `door` is
   *  `lastGarageState`, already updated from this tick's sensors. A tick
   *  always consumes a pending command, writes at most one diagnostic line,
   *  and leaves the relay active exactly while a pulse is in progress. */
  function Step(c: Cycle, now: Millis, door: DoorState): (a: Advance)
    ensures a.cycle.phase != Init
    ensures |a.log| <= 1
    ensures Valid(c) ==> Valid(a.cycle)
    ensures Valid(c) ==> (a.cycle.relay == Low <==> a.cycle.phase == RelayWait)
  {
    match c.phase
    case Idle => Advance(c, [])
    case Init =>
      Advance(Cycle(RelayWait, door, now, 0, Low), [TryingToMove])
    case RelayWait =>
      if Elapsed(now, c.chrono) < PulseInterval then Advance(c, [])
      else if c.initState.IsTerminal() then
        Advance(c.(phase := WaitRetry, chrono := now, relay := High), [WaitingForCheck])
      else
        Advance(c.(phase := Idle, relay := High), [NoCheck])
    case WaitRetry =>
      if Elapsed(now, c.chrono) < RetryInterval then Advance(c, [])
      else if door != c.initState then Advance(c.(phase := Idle), [Moved])
      else if c.retry < MaxRetries then
        Advance(c.(phase := RelayWait, retry := c.retry + 1, chrono := now, relay := Low),
                [Retrying(c.retry + 1)])
      else Advance(c.(phase := Idle), [GaveUp])
  }

  /** A new command discards whatever cycle was in flight: the next tick
   *  restarts from scratch, capturing the door state fused on that tick,
   *  resetting the retry counter, activating the relay and starting the
   *  pulse's chrono. */
  lemma CommandRestarts(c: Cycle, now: Millis, door: DoorState)
    ensures Step(Command(c), now, door) == Advance(Cycle(RelayWait, door, now, 0, Low), [TryingToMove])
  {
  }

  /** A pulse holds, changing nothing, exactly until `PulseInterval` has
   *  elapsed on the chrono; then the relay is released and the machine
   *  waits for a check if and only if the captured state was verifiable. */
  lemma PulseEnds(c: Cycle, now: Millis, door: DoorState)
    requires c.phase == RelayWait
    ensures Step(c, now, door) == Advance(c, []) <==> Elapsed(now, c.chrono) < PulseInterval
    ensures Elapsed(now, c.chrono) >= PulseInterval ==>
      var next := Step(c, now, door).cycle;
      && next.relay == High
      && next.retry == c.retry && next.initState == c.initState
      && (next.phase == WaitRetry <==> c.initState.IsTerminal())
      && (next.phase == WaitRetry ==> next.chrono == now)
      && (next.phase != WaitRetry ==> next.phase == Idle)
  {
  }

  /** The check waits, changing nothing, exactly until `RetryInterval` has
   *  elapsed; then: success if the door state changed, otherwise a new
   *  pulse while retries remain, otherwise give up. */
  lemma CheckOutcome(c: Cycle, now: Millis, door: DoorState)
    requires c.phase == WaitRetry
    ensures Step(c, now, door) == Advance(c, []) <==> Elapsed(now, c.chrono) < RetryInterval
    ensures Elapsed(now, c.chrono) >= RetryInterval ==>
      var a := Step(c, now, door);
      && (door != c.initState ==> a.cycle.phase == Idle && a.log == [Moved])
      && (door == c.initState && c.retry < MaxRetries ==>
            a.cycle == c.(phase := RelayWait, retry := c.retry + 1, chrono := now, relay := Low))
      && (door == c.initState && c.retry >= MaxRetries ==> a.cycle.phase == Idle && a.log == [GaveUp])
  {
  }

  // ----------------------------------------------------------------------
  // Runs of ticks without an intervening command.

  /** One tick's inputs as the actuator sees them. */
  datatype Reading = Reading(now: Millis, door: DoorState)

  /** The outcome of a run: final cycle, diagnostic lines, relay activations. */
  datatype Trace = Trace(cycle: Cycle, log: seq<Event>, pulses: nat)

  /** A step that writes LOW to the relay: it enters `RelayWait` from another
   *  phase (the start of a cycle, or a retry). */
  predicate Activates(c: Cycle, next: Cycle)
  {
    c.phase != RelayWait && next.phase == RelayWait
  }

  function Run(c: Cycle, ts: seq<Reading>): Trace
    decreases |ts|
  {
    if ts == [] then Trace(c, [], 0)
    else
      var a := Step(c, ts[0].now, ts[0].door);
      var rest := Run(a.cycle, ts[1..]);
      Trace(rest.cycle, a.log + rest.log, (if Activates(c, a.cycle) then 1 else 0) + rest.pulses)
  }

  /** Relay activations still possible from a cycle. */
  function Budget(c: Cycle): int
  {
    match c.phase
    case Idle => 0
    case Init => MaxRetries + 1
    case RelayWait => MaxRetries - c.retry
    case WaitRetry => MaxRetries - c.retry
  }

  /** An idle actuator stays idle and silent until the next command. */
  lemma {:induction false} IdleRun(c: Cycle, ts: seq<Reading>)
    requires c.phase == Idle
    ensures Run(c, ts) == Trace(c, [], 0)
    decreases |ts|
  {
    if ts != [] {
      IdleRun(c, ts[1..]);
    }
  }

  /** Whatever the door does, one command causes at most `MaxRetries + 1`
   *  activations of the relay, and a cycle in progress at most what its
   *  retry counter leaves. */
  lemma {:induction false} RunWithinBudget(c: Cycle, ts: seq<Reading>)
    requires Valid(c)
    ensures Run(c, ts).pulses <= Budget(c)
    decreases |ts|
  {
    if ts != [] {
      var a := Step(c, ts[0].now, ts[0].door);
      RunWithinBudget(a.cycle, ts[1..]);
    }
  }

  /** The tick `r` is a check: the cycle is waiting for one and
   *  `RetryInterval` has elapsed. These are the only ticks on which the
   *  actuator compares the door state with the captured one. */
  predicate Checks(c: Cycle, r: Reading)
  {
    c.phase == WaitRetry && Elapsed(r.now, c.chrono) >= RetryInterval
  }

  /** On every check of the run from `c`, the door reads `d`; other ticks
   *  are unconstrained. */
  predicate StuckAtChecks(c: Cycle, ts: seq<Reading>, d: DoorState)
  {
    forall i :: 0 <= i < |ts| && Checks(Run(c, ts[..i]).cycle, ts[i]) ==> ts[i].door == d
  }

  /** On every check of the run from `c`, the door reads something other
   *  than `d`; other ticks are unconstrained. */
  predicate AwayAtChecks(c: Cycle, ts: seq<Reading>, d: DoorState)
  {
    forall i :: 0 <= i < |ts| && Checks(Run(c, ts[..i]).cycle, ts[i]) ==> ts[i].door != d
  }

  /** The cycle reached after `i + 1` ticks is the one reached after `i`
   *  ticks from the cycle the first tick produced. */
  lemma RunPrefixStep(c: Cycle, ts: seq<Reading>, i: nat)
    requires i < |ts|
    ensures Run(c, ts[..i + 1]).cycle == Run(Step(c, ts[0].now, ts[0].door).cycle, ts[1..][..i]).cycle
  {
    assert ts[..i + 1][0] == ts[0];
    assert ts[..i + 1][1..] == ts[1..][..i];
  }

  /** A condition on the door at the checks of a run splits into the first
   *  tick (when it is a check) and the same condition on the rest. */
  lemma {:induction false} ChecksShift(c: Cycle, ts: seq<Reading>, d: DoorState)
    requires ts != []
    ensures StuckAtChecks(c, ts, d) ==>
      && (Checks(c, ts[0]) ==> ts[0].door == d)
      && StuckAtChecks(Step(c, ts[0].now, ts[0].door).cycle, ts[1..], d)
    ensures AwayAtChecks(c, ts, d) ==>
      && (Checks(c, ts[0]) ==> ts[0].door != d)
      && AwayAtChecks(Step(c, ts[0].now, ts[0].door).cycle, ts[1..], d)
  {
    var next := Step(c, ts[0].now, ts[0].door).cycle;
    assert ts[..0] == [];
    assert Run(c, ts[..0]).cycle == c;
    forall i | 0 <= i < |ts[1..]|
      ensures Run(next, ts[1..][..i]).cycle == Run(c, ts[..i + 1]).cycle
      ensures ts[1..][i] == ts[i + 1]
    {
      RunPrefixStep(c, ts, i);
    }
  }

  /** With the door reading the captured terminal state at every check, a
   *  cycle in progress spends exactly its remaining retries and then gives
   *  up; it never reports success. */
  lemma {:induction false} FrozenCycle(c: Cycle, d: DoorState, ts: seq<Reading>)
    requires Valid(c) && d.IsTerminal() && c.initState == d
    requires c.phase == RelayWait || c.phase == WaitRetry
    requires StuckAtChecks(c, ts, d)
    ensures var r := Run(c, ts);
      && r.pulses <= MaxRetries - c.retry
      && Moved !in r.log && NoCheck !in r.log
      && (r.cycle.phase == Idle ==>
            r.pulses == MaxRetries - c.retry && r.log != [] && r.log[|r.log| - 1] == GaveUp)
      && (r.cycle.phase != Idle ==>
            (r.cycle.phase == RelayWait || r.cycle.phase == WaitRetry)
            && r.cycle.initState == d && r.cycle.retry == c.retry + r.pulses && Valid(r.cycle))
    decreases |ts|
  {
    if ts != [] {
      var a := Step(c, ts[0].now, ts[0].door);
      ChecksShift(c, ts, d);
      if a.cycle.phase == Idle {
        IdleRun(a.cycle, ts[1..]);
      } else {
        FrozenCycle(a.cycle, d, ts[1..]);
      }
    }
  }

  /** A command issued with the door fully opened or closed, which still
   *  reads so at every check: exactly `MaxRetries + 1` activations (the
   *  pulse and five retries) by the time the cycle ends, which it does by
   *  giving up. Frozen sensors are the special case where every tick reads
   *  `d`. */
  lemma FrozenSensorsExhaustRetries(c: Cycle, d: DoorState, ts: seq<Reading>)
    requires d.IsTerminal() && (ts != [] ==> ts[0].door == d)
    requires StuckAtChecks(Command(c), ts, d)
    ensures var r := Run(Command(c), ts);
      && r.pulses <= MaxRetries + 1
      && Moved !in r.log
      && (r.cycle.phase == Idle ==>
            r.pulses == MaxRetries + 1 && r.log[|r.log| - 1] == GaveUp)
  {
    if ts != [] {
      var a := Step(Command(c), ts[0].now, ts[0].door);
      ChecksShift(Command(c), ts, d);
      FrozenCycle(a.cycle, d, ts[1..]);
    }
  }

  /** With the door away from the captured terminal state `d` at every
   *  check, a cycle in progress pulses no more and can only end in
   *  success. */
  lemma {:induction false} MovedCycle(c: Cycle, d: DoorState, ts: seq<Reading>)
    requires Valid(c) && d.IsTerminal() && c.initState == d
    requires c.phase == RelayWait || c.phase == WaitRetry
    requires AwayAtChecks(c, ts, d)
    ensures var r := Run(c, ts);
      && r.pulses == 0 && r.cycle.retry == c.retry
      && (forall i :: 0 <= i < |r.log| ==> r.log[i] == WaitingForCheck || r.log[i] == Moved)
      && (r.cycle.phase == Idle ==> r.log != [] && r.log[|r.log| - 1] == Moved)
    decreases |ts|
  {
    if ts != [] {
      var a := Step(c, ts[0].now, ts[0].door);
      ChecksShift(c, ts, d);
      if a.cycle.phase == Idle {
        IdleRun(a.cycle, ts[1..]);
      } else {
        MovedCycle(a.cycle, d, ts[1..]);
      }
    }
  }

  /** A command issued with the door fully opened or closed, after which the
   *  sensors report it elsewhere by the first check (readings during the
   *  pulse and the wait do not matter): exactly one activation, no retry,
   *  and the cycle can only end in success. */
  lemma MovesAfterOnePulse(c: Cycle, ts: seq<Reading>)
    requires ts != [] && ts[0].door.IsTerminal()
    requires AwayAtChecks(Command(c), ts, ts[0].door)
    ensures var r := Run(Command(c), ts);
      && r.pulses == 1
      && (forall i :: 0 <= i < |r.log| ==> !r.log[i].Retrying? && r.log[i] != GaveUp)
      && (r.cycle.phase == Idle ==> r.log[|r.log| - 1] == Moved)
  {
    var a := Step(Command(c), ts[0].now, ts[0].door);
    ChecksShift(Command(c), ts, ts[0].door);
    MovedCycle(a.cycle, ts[0].door, ts[1..]);
  }

  /** The run the firmware sees when the door leaves its end-stop during the
   *  first wait: the end-stop still reads on the tick after the command,
   *  the door is closed at the check. One pulse, then success. */
  lemma OpenedThenClosedExample()
    ensures var ts := [Reading(100, Opened), Reading(110, Opened), Reading(1200, Closed), Reading(4300, Closed)];
      var r := Run(Command(Reset), ts);
      r.pulses == 1 && r.cycle.phase == Idle && r.log == [TryingToMove, WaitingForCheck, Moved]
  {
    var ts := [Reading(100, Opened), Reading(110, Opened), Reading(1200, Closed), Reading(4300, Closed)];
    assert AwayAtChecks(Command(Reset), ts, Opened) by {
      assert ts[..0] == [] && ts[..1] == [ts[0]];
      assert ts[..2] == [ts[0], ts[1]] && ts[..3] == [ts[0], ts[1], ts[2]];
    }
    MovesAfterOnePulse(Reset, ts);
  }

  /** A cycle whose captured state is not verifiable finishes its pulse and
   *  stops; whatever the door does, it pulses no more and never waits for
   *  a check. */
  lemma {:induction false} UncheckedCycle(c: Cycle, ts: seq<Reading>)
    requires Valid(c) && !c.initState.IsTerminal()
    requires c.phase == RelayWait || c.phase == Idle
    ensures var r := Run(c, ts);
      && r.pulses == 0
      && (r.cycle.phase == RelayWait || r.cycle.phase == Idle)
      && (forall i :: 0 <= i < |r.log| ==> r.log[i] == NoCheck)
      && (c.phase == RelayWait && r.cycle.phase == Idle ==> r.log == [NoCheck])
    decreases |ts|
  {
    if ts != [] {
      var a := Step(c, ts[0].now, ts[0].door);
      if a.cycle.phase == Idle {
        IdleRun(a.cycle, ts[1..]);
      } else {
        UncheckedCycle(a.cycle, ts[1..]);
      }
    }
  }

  /** A command issued while the door is in transit, incoherent or not yet
   *  known: exactly one activation, and `WaitRetry` is never entered (the
   *  line announcing it is never written). */
  lemma SinglePulseWhenUnverifiable(c: Cycle, ts: seq<Reading>)
    requires ts != [] && !ts[0].door.IsTerminal()
    ensures var r := Run(Command(c), ts);
      && r.pulses == 1
      && r.cycle.phase != WaitRetry
      && (forall i :: 0 <= i < |r.log| ==> r.log[i] != WaitingForCheck)
      && (r.cycle.phase == Idle ==> r.log == [TryingToMove, NoCheck])
  {
    var a := Step(Command(c), ts[0].now, ts[0].door);
    UncheckedCycle(a.cycle, ts[1..]);
  }
}
