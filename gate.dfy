/** The gate actuator: one pulse of the gate relay per command, no check. */
module Gate {
  import opened Hardware

  /** The actuator's globals: `goGate`, `lastGoGateCmd` (0 means "pulse not
   *  started") and the level of the gate relay pin. */
  datatype Cycle = Cycle(pending: bool, start: Millis, relay: Level)

  /** The actuator after setup: nothing pending, relay at its idle HIGH level. */
  const Reset: Cycle := Cycle(false, 0, High)

  /** One tick's effect: the new cycle and the diagnostic lines written. */
  datatype Advance = Advance(cycle: Cycle, log: seq<Event>)

  /** What holds whenever a tick begins: with nothing pending the actuator is
   *  at rest, and a recorded start means the relay is active. */
  predicate Valid(g: Cycle)
  {
    && (!g.pending ==> g.start == 0 && g.relay == High)
    && (g.start != 0 ==> g.relay == Low)
  }

  /** `gateGoHandler`: raise the boolean flag. A command while one is
   *  already pending, or while its pulse is running, changes nothing. */
  function Command(g: Cycle): (g': Cycle)
    ensures g'.pending
    ensures g'.(pending := g.pending) == g
    ensures g.pending ==> g' == g
    ensures Valid(g) ==> Valid(g')
  {
    g.(pending := true)
  }

  /** Two commands before any tick act as one. */
  lemma CommandIdempotent(g: Cycle)
    ensures Command(Command(g)) == Command(g)
  {
  }

  /** The gate block of `loopHandler`. The door state is not an input: the
   *  gate never depends on it. */
  function Step(g: Cycle, now: Millis): (a: Advance)
    ensures Valid(g) ==> Valid(a.cycle)
    ensures a.cycle.pending ==> g.pending
    ensures |a.log| <= 1
  {
    if !g.pending then Advance(g, [])
    else if g.start == 0 then Advance(g.(relay := Low, start := now), [])
    else if Elapsed(now, g.start) >= PulseInterval then Advance(Reset, [GateDone])
    else Advance(g, [])
  }

  /** A pending command starts its pulse on the next tick: the relay goes
   *  active and the tick's time is recorded (a start at time 0 is not
   *  recorded as started, since 0 is the sentinel). */
  lemma PulseStarts(g: Cycle, now: Millis)
    requires g.pending && g.start == 0
    ensures Step(g, now).cycle == Cycle(true, now, Low)
  {
  }

  /** A running pulse holds, changing nothing, exactly until `PulseInterval`
   *  has elapsed since its start; then the relay is released and both the
   *  flag and the start time are cleared. */
  lemma PulseEnds(g: Cycle, now: Millis)
    requires g.pending && g.start != 0
    ensures Step(g, now).cycle == g <==> Elapsed(now, g.start) < PulseInterval
    ensures Elapsed(now, g.start) >= PulseInterval ==> Step(g, now) == Advance(Reset, [GateDone])
  {
  }

  // ----------------------------------------------------------------------
  // Runs of ticks.

  /** The outcome of a run: final cycle, diagnostic lines, relay activations. */
  datatype Trace = Trace(cycle: Cycle, log: seq<Event>, pulses: nat)

  /** A step that writes LOW to the relay (the start of a pulse). */
  predicate Activates(g: Cycle)
  {
    g.pending && g.start == 0
  }

  function Run(g: Cycle, times: seq<Millis>): Trace
    decreases |times|
  {
    if times == [] then Trace(g, [], 0)
    else
      var a := Step(g, times[0]);
      var rest := Run(a.cycle, times[1..]);
      Trace(rest.cycle, a.log + rest.log, (if Activates(g) then 1 else 0) + rest.pulses)
  }

  /** Ticks at nonzero times: `millis()` has left 0, so the sentinel is
   *  unambiguous. */
  predicate AfterBoot(times: seq<Millis>)
  {
    forall i :: 0 <= i < |times| ==> times[i] != 0
  }

  /** Nothing pending: the gate stays at rest. */
  lemma {:induction false} RestRun(g: Cycle, times: seq<Millis>)
    requires !g.pending
    ensures Run(g, times) == Trace(g, [], 0)
    decreases |times|
  {
    if times != [] {
      RestRun(g, times[1..]);
    }
  }

  /** A running pulse is neither restarted nor extended: its start time stays
   *  put until it ends, no further activation happens, and when it ends the
   *  actuator is back at rest with its completion logged. */
  lemma {:induction false} PulseRuns(g: Cycle, times: seq<Millis>)
    requires Valid(g) && g.pending && g.start != 0
    ensures var r := Run(g, times);
      && r.pulses == 0
      && (r.cycle.pending ==> r.cycle == g && r.log == [])
      && (!r.cycle.pending ==> r.cycle == Reset && r.log == [GateDone])
    decreases |times|
  {
    if times != [] {
      var a := Step(g, times[0]);
      if a.cycle.pending {
        PulseRuns(g, times[1..]);
      } else {
        RestRun(a.cycle, times[1..]);
      }
    }
  }

  /** A command on a gate at rest yields exactly one pulse: one activation
   *  at most, and exactly one by the time the actuator is at rest again,
   *  relay released and completion logged. */
  lemma OnePulsePerCommand(g: Cycle, times: seq<Millis>)
    requires Valid(g) && !g.pending && AfterBoot(times)
    ensures var r := Run(Command(g), times);
      && r.pulses <= 1
      && (times != [] ==> r.pulses == 1)
      && (!r.cycle.pending ==> r.cycle == Reset && r.log == [GateDone])
  {
    if times != [] {
      var a := Step(Command(g), times[0]);
      assert a.cycle == Cycle(true, times[0], Low);
      PulseRuns(a.cycle, times[1..]);
    }
  }
}
