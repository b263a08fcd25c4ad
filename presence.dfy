/** Values shared by both revisions of the presence engine: an optional value
    and the two transition events that the ping loops hand to the
    here/away callbacks. */
module Presence {

  datatype Option<+T> = None | Some(value: T) {
    /** Python's `x or default` for a value that may be missing. */
    function GetOr(default: T): T {
      match this
      case Some(v) => v
      case None => default
    }
  }

  /** `Here` stands for a call of here_callback, `Away` for away_callback. */
  datatype Event = Here | Away

  /** One tick of a ping loop: the lost_pings counter after it, and the
      callback it fired, if any. */
  datatype Tick = Tick(lost: nat, event: Option<Event>)

  /** A run of ticks: the counter at the end and one entry per tick. */
  datatype Outcome = Outcome(lost: nat, events: seq<Option<Event>>)

  /** Number of ticks in a trace that fired `e`. */
  function Occurrences(trace: seq<Option<Event>>, e: Event): (n: nat)
    ensures n <= |trace|
    ensures n == 0 <==> forall i :: 0 <= i < |trace| ==> trace[i] != Some(e)
  {
    if trace == [] then 0
    else Occurrences(trace[..|trace| - 1], e) + (if trace[|trace| - 1] == Some(e) then 1 else 0)
  }

  /** Occurrences counts the two halves of a split trace separately. */
  lemma {:induction false} OccurrencesAppend(a: seq<Option<Event>>, b: seq<Option<Event>>, e: Event)
    ensures Occurrences(a + b, e) == Occurrences(a, e) + Occurrences(b, e)
    decreases |b|
  {
    if b == [] {
      assert a + b == a;
    } else {
      assert (a + b)[..|a + b| - 1] == a + b[..|b| - 1];
      OccurrencesAppend(a, b[..|b| - 1], e);
    }
  }
}
