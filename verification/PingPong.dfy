/** Parent and child take turns sending each other one blocked signal and waiting for it in sigsuspend. */
module PingPong {

  /** Where a process stands in its loop: about to test the counter, to send, to wait, or gone. */
  datatype Pc = Test | Send | Wait | Exited

  /** `parentPending` and `childPending` say whether TESTSIG is pending; a pending signal is not queued twice. */
  datatype State = State(parent: Pc, child: Pc, parentRound: nat, childRound: nat,
                         parentPending: bool, childPending: bool)

  datatype Action = Parent | Child

  /** The state right after fork; the signal was blocked before, so none can have been lost. */
  function Start(): State { State(Test, Test, 0, 0, false, false) }

  /** sigsuspend returns only when the signal is pending; everything else can always happen. */
  predicate Enabled(s: State, a: Action) {
    match a
    case Parent => s.parent != Exited && (s.parent == Wait ==> s.parentPending)
    case Child => s.child != Exited && (s.child == Wait ==> s.childPending)
  }

  /** The child sends and then waits; the parent waits and then sends. */
  function Step(n: nat, s: State, a: Action): State
    requires Enabled(s, a)
  {
    match a
    case Child =>
      (match s.child
       case Test => s.(child := if s.childRound < n then Send else Exited)
       case Send => s.(parentPending := true, child := Wait)
       case Wait => s.(childPending := false, childRound := s.childRound + 1, child := Test))
    case Parent =>
      (match s.parent
       case Test => s.(parent := if s.parentRound < n then Wait else Exited)
       case Wait => s.(parentPending := false, parent := Send)
       case Send => s.(childPending := true, parentRound := s.parentRound + 1, parent := Test))
  }

  /** Exactly one side has the ball, or it is pending for one of them. */
  ghost predicate Inv(n: nat, s: State) {
    && s.parentRound <= n && s.childRound <= n
    && !(s.parentPending && s.childPending)
    && (s.parent in {Wait, Send} ==> s.parentRound < n)
    && (s.child in {Wait, Send} ==> s.childRound < n)
    && (s.parent == Exited ==> s.parentRound == n)
    && (s.child == Exited ==> s.childRound == n)
    && (s.parentPending ==> s.child == Wait && s.parent in {Test, Wait} && s.parentRound == s.childRound)
    && (s.parent == Send ==> s.child == Wait && !s.parentPending && !s.childPending && s.parentRound == s.childRound)
    && (s.childPending ==> s.child == Wait && s.parent in {Test, Wait, Exited} && s.parentRound == s.childRound + 1)
    && (s.child in {Test, Send, Exited} ==>
          !s.parentPending && !s.childPending && s.parent != Send && s.parentRound == s.childRound)
    && (s.child == Wait ==> s.parentPending || s.childPending || s.parent == Send)
  }

  lemma StepKeeps(n: nat, s: State, a: Action)
    requires Inv(n, s) && Enabled(s, a)
    ensures Inv(n, Step(n, s, a))
  {
  }

  /** A kill that finds its target gone, or finds the signal already pending there, would lose a wake-up. */
  predicate LosesWakeUp(s: State, a: Action) {
    match a
    case Child => s.child == Send && (s.parent == Exited || s.parentPending)
    case Parent => s.parent == Send && (s.child == Exited || s.childPending)
  }

  /** The calls still to be made. */
  function Measure(n: nat, s: State): int {
    3 * (n - s.parentRound) + 3 * (n - s.childRound)
    + (match s.parent case Test => 1 case Wait => 0 case Send => -1 case Exited => 0)
    + (match s.child case Test => 1 case Send => 0 case Wait => -1 case Exited => 0)
  }

  lemma StepCounts(n: nat, s: State, a: Action)
    requires Inv(n, s) && Enabled(s, a)
    ensures Measure(n, Step(n, s, a)) == Measure(n, s) - 1
  {
  }

  ghost predicate Runs(n: nat, s: State, acts: seq<Action>, t: State)
    decreases |acts|
  {
    if acts == [] then s == t else Enabled(s, acts[0]) && Runs(n, Step(n, s, acts[0]), acts[1..], t)
  }

  lemma {:induction false} RunKeeps(n: nat, s: State, acts: seq<Action>, t: State)
    requires Inv(n, s) && Runs(n, s, acts, t)
    ensures Inv(n, t) && Measure(n, t) == Measure(n, s) - |acts|
    decreases |acts|
  {
    if acts != [] {
      StepKeeps(n, s, acts[0]);
      StepCounts(n, s, acts[0]);
      RunKeeps(n, Step(n, s, acts[0]), acts[1..], t);
    }
  }

  /** In every reachable state at most one signal is pending, and no send is lost or merged into another. */
  lemma NoWakeUpLost(n: nat, acts: seq<Action>, t: State, a: Action)
    requires Runs(n, Start(), acts, t) && Enabled(t, a)
    ensures !(t.parentPending && t.childPending) && !LosesWakeUp(t, a)
    ensures t.parentRound == t.childRound || t.parentRound == t.childRound + 1
  {
    RunKeeps(n, Start(), acts, t);
  }

  /** Every run takes 6n+2 steps in all, never gets stuck before, and both sides then have made n rounds. */
  lemma BothFinish(n: nat, acts: seq<Action>, t: State)
    requires Runs(n, Start(), acts, t)
    ensures |acts| <= 6 * n + 2
    ensures (t.parent == Exited && t.child == Exited) <==> |acts| == 6 * n + 2
    ensures (t.parent == Exited && t.child == Exited) <==> !Enabled(t, Parent) && !Enabled(t, Child)
    ensures t.parent == Exited ==> t.parentRound == n
    ensures t.child == Exited ==> t.childRound == n
  {
    RunKeeps(n, Start(), acts, t);
  }
}
