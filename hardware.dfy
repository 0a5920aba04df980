/** Board-level abstractions shared by the controller: the ESP8266 millisecond
 *  clock (`millis()` returns a 32-bit `unsigned long`), the level of a relay
 *  pin, and the lines the firmware writes to its diagnostic logger. */
module Hardware {

  /** `unsigned long` is 32 bits wide on the board. */
  const ClockModulus: int := 0x1_0000_0000

  /** A reading of `millis()`, or a timestamp kept in an `unsigned long`. */
  type Millis = t: int | 0 <= t < ClockModulus

  /** `now - since` computed in `unsigned long` arithmetic, as every timeout
   *  test of the firmware does: the difference wraps modulo 2^32, so a wait
   *  that straddles the clock's roll-over still measures the true delay. */
  function Elapsed(now: Millis, since: Millis): (d: Millis)
    ensures since <= now ==> d == now - since
    ensures now < since ==> d == now + ClockModulus - since
  {
    (now - since) % ClockModulus
  }

  /** `GO_CMD_INTERVAL`: how long a pulse holds either relay active, in ms. */
  const PulseInterval: int := 1000

  /** The clock reading `d` milliseconds after `t`, wrapping like `millis()`. */
  function Later(t: Millis, d: nat): Millis
  {
    (t + d) % ClockModulus
  }

  /** Elapsed is the inverse of letting time run: a delay shorter than one
   *  clock period is measured exactly, roll-over or not. */
  lemma ElapsedSinceLater(t: Millis, d: nat)
    requires d < ClockModulus
    ensures Elapsed(Later(t, d), t) == d
  {
  }

  /** Level of a digital output pin. Both relays are active LOW: `Low`
   *  closes the relay contact, `High` is the idle level. */
  datatype Level = Low | High

  /** The diagnostic lines written to the logger (observational only). */
  datatype Event =
    | GateRequested           // "GoGate !!!"
    | GateDone                // "GoGate fini !!!"
    | TryingToMove            // "Relay on, trying to move garage door"
    | WaitingForCheck         // "Relay off, waiting for check"
    | NoCheck                 // "Was not initially fully opened or closed, no check"
    | Moved                   // "Correctly moved"
    | Retrying(attempt: int)  // "Did not move, retry #<attempt>"
    | GaveUp                  // "Did not move, too much retries"
}
