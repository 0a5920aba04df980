/** Publish-on-change of the `state` property: the fused door state is sent
 *  only when it differs from the last one sent, which is then remembered. */
module Reporter {
  import opened DoorStates

  /** What one tick publishes, given the remembered state `last` and the
   *  state fused this tick. After the tick the remembered state is `current`
   *  in both cases. */
  function Report(last: DoorState, current: DoorState): (sent: seq<DoorState>)
    ensures sent == [] <==> current == last
    ensures sent != [] ==> sent == [current]
  {
    if current != last then [current] else []
  }

  /** Everything published over a run of ticks whose fused states are `xs`,
   *  starting from the remembered state `last`. */
  function Published(last: DoorState, xs: seq<DoorState>): seq<DoorState>
    decreases |xs|
  {
    if xs == [] then [] else Report(last, xs[0]) + Published(xs[0], xs[1..])
  }

  /** The remembered state after a run. */
  function Latest(last: DoorState, xs: seq<DoorState>): DoorState
  {
    if xs == [] then last else xs[|xs| - 1]
  }

  /** Reference count of value changes in a run, counted from its end: the
   *  number of readings that differ from the reading before them (the first
   *  one is compared with `last`). */
  function Changes(last: DoorState, xs: seq<DoorState>): nat
    decreases |xs|
  {
    if xs == [] then 0
    else
      var prefix := xs[..|xs| - 1];
      Changes(last, prefix) + (if xs[|xs| - 1] != Latest(last, prefix) then 1 else 0)
  }

  /** Extending a run by one tick appends exactly that tick's publication. */
  lemma {:induction false} PublishedSnoc(last: DoorState, xs: seq<DoorState>, x: DoorState)
    ensures Published(last, xs + [x]) == Published(last, xs) + Report(Latest(last, xs), x)
    decreases |xs|
  {
    if xs == [] {
      assert Published(x, []) == [];
    } else {
      assert (xs + [x])[1..] == xs[1..] + [x];
      PublishedSnoc(xs[0], xs[1..], x);
      assert Latest(xs[0], xs[1..]) == Latest(last, xs);
    }
  }

  /** The number of publications equals the number of value changes: never a
   *  duplicate for a repeated reading, never a missed change. */
  lemma {:induction false} PublishCountIsChanges(last: DoorState, xs: seq<DoorState>)
    ensures |Published(last, xs)| == Changes(last, xs)
    decreases |xs|
  {
    if xs != [] {
      var prefix := xs[..|xs| - 1];
      assert xs == prefix + [xs[|xs| - 1]];
      PublishedSnoc(last, prefix, xs[|xs| - 1]);
      PublishCountIsChanges(last, prefix);
    }
  }

  /** Nothing is published iff every reading repeats the remembered state;
   *  otherwise the last publication is the latest reading, so the remote
   *  property always ends up mirroring the door. */
  lemma {:induction false} PublishedMirrors(last: DoorState, xs: seq<DoorState>)
    ensures Published(last, xs) == [] <==> forall i :: 0 <= i < |xs| ==> xs[i] == last
    ensures Published(last, xs) != [] ==>
      Published(last, xs)[|Published(last, xs)| - 1] == Latest(last, xs)
    decreases |xs|
  {
    if xs != [] {
      PublishedMirrors(xs[0], xs[1..]);
      var rest := Published(xs[0], xs[1..]);
      if xs[0] == last {
        assert Published(last, xs) == rest;
        if rest == [] {
          assert forall i :: 1 <= i < |xs| ==> xs[i] == xs[1..][i - 1];
        } else {
          assert Latest(xs[0], xs[1..]) == Latest(last, xs);
        }
        if forall i :: 0 <= i < |xs| ==> xs[i] == last {
          assert forall i :: 0 <= i < |xs[1..]| ==> xs[1..][i] == xs[i + 1];
        }
      } else {
        assert Published(last, xs) == [xs[0]] + rest;
        if rest == [] {
          assert forall i :: 0 <= i < |xs[1..]| ==> xs[1..][i] == xs[i + 1];
          assert Latest(last, xs) == xs[0] by {
            if |xs| > 1 {
              assert xs[|xs| - 1] == xs[1..][|xs| - 2];
            }
          }
        } else {
          assert Latest(xs[0], xs[1..]) == Latest(last, xs);
        }
      }
    }
  }

  /** Publications never repeat: the first differs from the remembered state
   *  and each differs from the one before it. */
  lemma {:induction false} PublishedHasNoRepeats(last: DoorState, xs: seq<DoorState>)
    ensures Published(last, xs) != [] ==> Published(last, xs)[0] != last
    ensures forall i :: 0 < i < |Published(last, xs)| ==>
      Published(last, xs)[i - 1] != Published(last, xs)[i]
    decreases |xs|
  {
    if xs != [] {
      PublishedHasNoRepeats(xs[0], xs[1..]);
      var rest := Published(xs[0], xs[1..]);
      if xs[0] == last {
        assert Published(last, xs) == rest;
        // the first publication of the rest differs from xs[0] == last
      } else {
        var log := Published(last, xs);
        assert log == [xs[0]] + rest;
        forall i | 0 < i < |log|
          ensures log[i - 1] != log[i]
        {
          if i == 1 {
            assert log[1] == rest[0];
          } else {
            assert log[i - 1] == rest[i - 2] && log[i] == rest[i - 1];
          }
        }
      }
    }
  }
}
