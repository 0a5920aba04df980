/** The door-state codes and the fusion of the two debounced end-stop sensors. */
module DoorStates {

  /** The values of `lastGarageState` / `currentGarageState`. */
  datatype DoorState = NotInitialized | Opened | Closed | Unknown | Incoherent
  {
    /** The single character published on the `state` property. */
    function Code(): char
    {
      match this
      case NotInitialized => '?'
      case Closed => 'c'
      case Opened => 'o'
      case Unknown => 'u'
      case Incoherent => 'i'
    }

    /** A fully opened or fully closed door: the only states after which the
     *  garage actuator can tell whether a pulse moved the door. */
    predicate IsTerminal()
    {
      this == Opened || this == Closed
    }
  }

  /** Publishing codes instead of states loses nothing: two states share a
   *  code only if they are the same state. */
  lemma CodesDistinct(s: DoorState, t: DoorState)
    ensures s.Code() == t.Code() <==> s == t
  {
  }

  /** The four-way sensor fusion of one tick. Exactly one of the four cases
   *  applies to every sensor pair, so the result is always defined, and the
   *  door is never reported both opened and closed. */
  function Fuse(openedValue: bool, closedValue: bool): (s: DoorState)
    ensures s != NotInitialized
    ensures s == Opened <==> openedValue && !closedValue
    ensures s == Closed <==> closedValue && !openedValue
    ensures s == Unknown <==> !openedValue && !closedValue
    ensures s == Incoherent <==> openedValue && closedValue
  {
    if openedValue && !closedValue then Opened
    else if closedValue && !openedValue then Closed
    else if !closedValue && !openedValue then Unknown
    else Incoherent
  }

  /** Every fused state comes from exactly one sensor pair: the fusion neither
   *  merges two sensor situations nor leaves a state other than the initial
   *  one unreachable. */
  lemma FuseIsOneToOne(s: DoorState)
    requires s != NotInitialized
    ensures exists o: bool, c: bool :: Fuse(o, c) == s
    ensures forall a: bool, b: bool, c: bool, d: bool ::
      Fuse(a, b) == s && Fuse(c, d) == s ==> a == c && b == d
  {
    match s
    case Opened => assert Fuse(true, false) == s;
    case Closed => assert Fuse(false, true) == s;
    case Unknown => assert Fuse(false, false) == s;
    case Incoherent => assert Fuse(true, true) == s;
  }
}
