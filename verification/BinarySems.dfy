/** Binary semaphores of a System V set: a reservation sleeps until it is granted, and retries when interrupted. */
module BinarySems {

  /** What can happen to a process asleep in semop: a release by another process, a signal handler, another error. */
  datatype Event = Released | Interrupted | Refused

  datatype Result = Success | Failure | Waiting

  /** How a reservation stands after some events, and the semaphore's value then. */
  datatype Outcome = Outcome(result: Result, val: int)

  /** A reservation that finds the value `v` and then lives through `events`. */
  function Reservation(v: int, events: seq<Event>, retry: bool): Outcome
    decreases |events|
  {
    if v > 0 then Outcome(Success, v - 1)
    else if events == [] then Outcome(Waiting, v)
    else match events[0]
      case Released => Reservation(v + 1, events[1..], retry)
      case Interrupted => if retry then Reservation(v, events[1..], retry) else Outcome(Failure, v)
      case Refused => Outcome(Failure, v)
  }

  /** How one semop call ends: `Slept` when the events run out before it does. */
  datatype Answer = Granted | Stopped(why: Event) | Slept

  /** What a reservation comes to after a semop call that ended with `a` and left the value `v`. */
  function Resumed(a: Answer, v: int, rest: seq<Event>, retry: bool): Outcome {
    match a
    case Granted => Outcome(Success, v)
    case Slept => Outcome(Waiting, v)
    case Stopped(why) => if why == Interrupted && retry then Reservation(v, rest, retry) else Outcome(Failure, v)
  }

  class SemSet {
    var val: map<nat, int>
    const retryOnEintr: bool

    constructor (retry: bool)
      ensures val == map[] && retryOnEintr == retry
    {
      val, retryOnEintr := map[], retry;
    }

    method InitAvailable(num: nat)
      modifies this
      ensures val == old(val)[num := 1]
    {
      val := val[num := 1];
    }

    method InitInUse(num: nat)
      modifies this
      ensures val == old(val)[num := 0]
    {
      val := val[num := 0];
    }

    /** The kernel's side of a decrement: it sleeps while the value is 0, and releases by others go on meanwhile. */
    method Semop(num: nat, events: seq<Event>) returns (a: Answer, rest: seq<Event>)
      requires num in val
      modifies this
      ensures num in val && val == old(val)[num := val[num]]
      ensures |rest| <= |events| && (a.Stopped? ==> |rest| < |events|)
      ensures Reservation(old(val)[num], events, retryOnEintr) == Resumed(a, val[num], rest, retryOnEintr)
    {
      rest := events;
      while val[num] <= 0
        invariant num in val && val == old(val)[num := val[num]] && |rest| <= |events|
        invariant Reservation(old(val)[num], events, retryOnEintr) == Reservation(val[num], rest, retryOnEintr)
        decreases |rest|
      {
        if rest == [] {
          return Slept, rest;
        }
        var e := rest[0];
        rest := rest[1..];
        if e != Released {
          return Stopped(e), rest;
        }
        Release(num);
      }
      val := val[num := val[num] - 1];
      a := Granted;
    }

    /** Called at any value, 0 included: it may have to wait for another process's release. */
    method Reserve(num: nat, events: seq<Event>) returns (r: Result)
      requires num in val
      modifies this
      ensures num in val && val == old(val)[num := val[num]]
      ensures Outcome(r, val[num]) == Reservation(old(val)[num], events, retryOnEintr)
    {
      var a, rest := Semop(num, events);
      while a.Stopped?
        invariant num in val && val == old(val)[num := val[num]]
        invariant Reservation(old(val)[num], events, retryOnEintr) == Resumed(a, val[num], rest, retryOnEintr)
        decreases |rest|, if a.Stopped? then 1 else 0
      {
        if a.why != Interrupted || !retryOnEintr {
          return Failure;
        }
        a, rest := Semop(num, rest);
      }
      return if a == Granted then Success else Waiting;
    }

    /** There is no upper bound: releasing twice makes the value 2. */
    method Release(num: nat)
      requires num in val
      modifies this
      ensures val == old(val)[num := old(val)[num] + 1]
    {
      val := val[num := val[num] + 1];
    }
  }

  /** A release comes, and no refusal before it. */
  ghost predicate ReleasedInTime(events: seq<Event>) {
    exists k :: 0 <= k < |events| && events[k] == Released && forall j :: 0 <= j < k ==> events[j] != Refused
  }

  lemma ReleasedLater(events: seq<Event>)
    requires events != [] && events[0] == Interrupted
    ensures ReleasedInTime(events) <==> ReleasedInTime(events[1..])
  {
    var rest := events[1..];
    if k :| 0 <= k < |events| && events[k] == Released && forall j :: 0 <= j < k ==> events[j] != Refused {
      assert rest[k - 1] == Released && forall j :: 0 <= j < k - 1 ==> rest[j] == events[j + 1];
    }
    if k :| 0 <= k < |rest| && rest[k] == Released && forall j :: 0 <= j < k ==> rest[j] != Refused {
      assert events[k + 1] == Released && forall j :: 1 <= j < k + 1 ==> events[j] == rest[j - 1];
    }
  }

  /** A retrying reservation succeeds iff the semaphore is available or another process releases it in time. */
  lemma {:induction false} ReserveSucceedsIff(v: int, events: seq<Event>)
    requires v >= 0
    ensures var out := Reservation(v, events, true);
            && (out.result == Success <==> v > 0 || ReleasedInTime(events))
            && out.val == if v > 0 then v - 1 else 0
    decreases |events|
  {
    if v == 0 && events != [] {
      match events[0]
      case Released =>
      case Interrupted =>
        ReserveSucceedsIff(v, events[1..]);
        ReleasedLater(events);
      case Refused =>
    }
  }

  /** Without retries the first event decides, when the semaphore is not available: it must be a release. */
  lemma SingleTry(v: int, events: seq<Event>)
    requires v >= 0
    ensures var r := Reservation(v, events, false).result;
            && (r == Success <==> v > 0 || (events != [] && events[0] == Released))
            && (r == Failure <==> v == 0 && events != [] && events[0] != Released)
  {
    if v == 0 && events != [] && events[0] == Released {
      assert Reservation(1, events[1..], false).result == Success;
    }
  }

  function WithoutInterruptions(events: seq<Event>): seq<Event> {
    if events == [] then []
    else (if events[0] == Interrupted then [] else [events[0]]) + WithoutInterruptions(events[1..])
  }

  /** With retries on, interruptions never change the outcome, wherever they come and however many there are. */
  lemma {:induction false} InterruptionsDoNotMatter(v: int, events: seq<Event>)
    ensures Reservation(v, events, true) == Reservation(v, WithoutInterruptions(events), true)
    decreases |events|
  {
    if v <= 0 && events != [] {
      var rest := WithoutInterruptions(events[1..]);
      InterruptionsDoNotMatter(if events[0] == Released then v + 1 else v, events[1..]);
      assert [] + rest == rest && ([events[0]] + rest)[1..] == rest;
    }
  }
}
