/** Signals triggered, reset and handled by any number of threads (atomic_signal_handler). Every load, store, lock and
    unlock is a step of its own. */
module SignalHandler {
  import opened Options

  // ----- Threads

  /** Where a thread is inside trigger() or reset(), if it is in one of them. */
  datatype Call = NoCall | InTrigger | InReset

  /** Where a thread is. A running action may itself call trigger() and reset(). */
  datatype Pc =
    | Idle(call: Call)
    | SawTriggered
    | Passed
    | Locked
    | Running(call: Call)
    | Ended
    | Storing
    | Leaving(performed: bool)

  datatype State = State(triggered: bool, handled: bool, owner: Option<nat>, pcs: seq<Pc>)

  /** How an action ends. The handler catches standard exceptions, others pass through it. */
  datatype Ending = Normally | StandardException | OtherException

  datatype Step =
    | TriggerFirst(t: nat)
    | TriggerSecond(t: nat)
    | ResetFirst(t: nat)
    | ResetSecond(t: nat)
    | LoadTriggered(t: nat)
    | LoadHandled(t: nat)
    | Lock(t: nat)
    | LoadHandledAgain(t: nat)
    | EndAction(t: nat, ending: Ending)
    | LoadTriggeredAgain(t: nat)
    | StoreHandled(t: nat)
    | Unlock(t: nat)

  predicate InCall(pc: Pc, call: Call) {
    (pc.Idle? || pc.Running?) && pc.call == call
  }

  predicate Enabled(s: State, step: Step) {
    step.t < |s.pcs| &&
    var pc := s.pcs[step.t];
    match step
    case TriggerFirst(_) => InCall(pc, NoCall)
    case TriggerSecond(_) => InCall(pc, InTrigger)
    case ResetFirst(_) => InCall(pc, NoCall)
    case ResetSecond(_) => InCall(pc, InReset)
    case LoadTriggered(_) => pc == Idle(NoCall)
    case LoadHandled(_) => pc.SawTriggered?
    case Lock(_) => pc.Passed? && s.owner.None?
    case LoadHandledAgain(_) => pc.Locked?
    case EndAction(_, _) => pc == Running(NoCall)
    case LoadTriggeredAgain(_) => pc.Ended?
    case StoreHandled(_) => pc.Storing?
    case Unlock(_) => pc.Leaving?
  }

  /** The place the thread goes to. */
  function Goes(s: State, step: Step): Pc
    requires Enabled(s, step)
  {
    var pc := s.pcs[step.t];
    match step
    case TriggerFirst(_) => pc.(call := InTrigger)
    case TriggerSecond(_) => pc.(call := NoCall)
    case ResetFirst(_) => pc.(call := InReset)
    case ResetSecond(_) => pc.(call := NoCall)
    case LoadTriggered(_) => if s.triggered then SawTriggered else Idle(NoCall)
    case LoadHandled(_) => if s.handled then Idle(NoCall) else Passed
    case Lock(_) => Locked
    case LoadHandledAgain(_) => if s.handled then Leaving(false) else Running(NoCall)
    case EndAction(_, ending) => if ending.OtherException? then Leaving(true) else Ended
    case LoadTriggeredAgain(_) => if s.triggered then Storing else Leaving(true)
    case StoreHandled(_) => Leaving(true)
    case Unlock(_) => Idle(NoCall)
  }

  function Next(s: State, step: Step): State
    requires Enabled(s, step)
  {
    State(
      if step.TriggerFirst? then true else if step.ResetSecond? then false else s.triggered,
      if step.StoreHandled? then true else if step.TriggerSecond? || step.ResetFirst? then false else s.handled,
      if step.Lock? then Some(step.t) else if step.Unlock? then None else s.owner,
      s.pcs[step.t := Goes(s, step)])
  }

  /** The steps can be taken one after another. */
  predicate Runs(s: State, steps: seq<Step>)
    decreases |steps|
  {
    steps == [] || (Enabled(s, steps[0]) && Runs(Next(s, steps[0]), steps[1..]))
  }

  function After(s: State, steps: seq<Step>): State
    requires Runs(s, steps)
    decreases |steps|
  {
    if steps == [] then s else After(Next(s, steps[0]), steps[1..])
  }

  // ----- What happens in a run

  /** An action starts. */
  predicate Starts(s: State, step: Step)
    requires Enabled(s, step)
  {
    step.LoadHandledAgain? && !s.handled
  }

  /** A call of handle() ends: with true or an exception if it performed the action, else with false. */
  predicate Returns(s: State, step: Step)
    requires Enabled(s, step)
  {
    || (step.LoadTriggered? && !s.triggered)
    || (step.LoadHandled? && s.handled)
    || step.Unlock?
  }

  function StartsIn(s: State, steps: seq<Step>): nat
    requires Runs(s, steps)
    decreases |steps|
  {
    if steps == [] then 0
    else (if Starts(s, steps[0]) then 1 else 0) + StartsIn(Next(s, steps[0]), steps[1..])
  }

  function ReturnsIn(s: State, steps: seq<Step>): nat
    requires Runs(s, steps)
    decreases |steps|
  {
    if steps == [] then 0
    else (if Returns(s, steps[0]) then 1 else 0) + ReturnsIn(Next(s, steps[0]), steps[1..])
  }

  /** How many actions ended with an exception the handler does not catch. */
  function Uncaught(steps: seq<Step>): nat {
    if steps == [] then 0
    else (if steps[0].EndAction? && steps[0].ending.OtherException? then 1 else 0) + Uncaught(steps[1..])
  }

  /** How many calls of trigger() were completed. */
  function Triggers(steps: seq<Step>): nat {
    if steps == [] then 0 else (if steps[0].TriggerSecond? then 1 else 0) + Triggers(steps[1..])
  }

  predicate Resets(step: Step) {
    step.ResetFirst? || step.ResetSecond?
  }

  predicate Stores(step: Step) {
    Resets(step) || step.TriggerFirst? || step.TriggerSecond?
  }

  // ----- The lock

  predicate Critical(pc: Pc) {
    pc.Locked? || pc.Running? || pc.Ended? || pc.Storing? || pc.Leaving?
  }

  /** The mutex has an owner exactly while a thread is between lock and unlock. */
  ghost predicate Inv(s: State) {
    && (s.owner.Some? ==> s.owner.value < |s.pcs| && Critical(s.pcs[s.owner.value]))
    && (forall t | 0 <= t < |s.pcs| && Critical(s.pcs[t]) :: s.owner == Some(t))
  }

  ghost predicate Init(s: State) {
    !s.triggered && !s.handled && s.owner == None && forall t | 0 <= t < |s.pcs| :: s.pcs[t] == Idle(NoCall)
  }

  lemma StepKeepsInv(s: State, step: Step)
    requires Inv(s) && Enabled(s, step)
    ensures Inv(Next(s, step))
  {
    assert s.pcs[step.t] == s.pcs[step.t];
  }

  lemma {:induction false} RunKeepsInv(s: State, steps: seq<Step>)
    requires Inv(s) && Runs(s, steps)
    ensures Inv(After(s, steps))
    decreases |steps|
  {
    if steps != [] {
      StepKeepsInv(s, steps[0]);
      RunKeepsInv(Next(s, steps[0]), steps[1..]);
    }
  }

  /** Actions never overlap, whatever the threads do. */
  lemma ActionsNeverOverlap(s: State, steps: seq<Step>, a: nat, b: nat)
    requires Init(s) && Runs(s, steps)
    requires a < |After(s, steps).pcs| && b < |After(s, steps).pcs|
    requires After(s, steps).pcs[a].Running? && After(s, steps).pcs[b].Running?
    ensures a == b
  {
    hide After, Runs;
    RunKeepsInv(s, steps);
  }

  // ----- How often actions start

  /** A thread holds the lock and is going to store that the signal is handled. */
  predicate WillStore(s: State) {
    s.owner.Some? && s.owner.value < |s.pcs| &&
    var pc := s.pcs[s.owner.value];
    pc.Running? || pc.Ended? || pc.Storing?
  }

  /** How many more actions can start if nothing is triggered any more. */
  function Potential(s: State): nat {
    if s.handled || WillStore(s) then 0 else 1
  }

  lemma StepPotential(s: State, step: Step)
    requires Inv(s) && Enabled(s, step) && s.triggered && !Resets(step)
    ensures Next(s, step).triggered
    ensures (if Starts(s, step) then 1 else 0) + Potential(Next(s, step)) <= Potential(s) + Uncaught([step]) + Triggers([step])
  {
    assert [step][1..] == [];
    assert Critical(s.pcs[step.t]) ==> s.owner == Some(step.t);
  }

  lemma CountFirst(steps: seq<Step>)
    requires steps != []
    ensures Uncaught(steps) == Uncaught([steps[0]]) + Uncaught(steps[1..])
    ensures Triggers(steps) == Triggers([steps[0]]) + Triggers(steps[1..])
  {
    assert [steps[0]][1..] == [];
  }

  /** In a run that begins triggered and has no reset, every further trigger() allows one more action, and so does every
      exception that passes through the handler; otherwise at most one action starts. */
  lemma {:induction false} OneActionPerTrigger(s: State, steps: seq<Step>)
    requires Inv(s) && Runs(s, steps) && s.triggered
    requires forall i | 0 <= i < |steps| :: !Resets(steps[i])
    ensures StartsIn(s, steps) <= Potential(s) + Uncaught(steps) + Triggers(steps)
    decreases |steps|
  {
    if steps != [] {
      hide Potential, Enabled, Goes, Starts, Resets, Uncaught, Triggers;
      StepKeepsInv(s, steps[0]);
      StepPotential(s, steps[0]);
      CountFirst(steps);
      OneActionPerTrigger(Next(s, steps[0]), steps[1..]);
    }
  }

  /** Without any store by trigger() or reset() there is at most one action. */
  lemma AtMostOneAction(s: State, steps: seq<Step>)
    requires Inv(s) && Runs(s, steps) && s.triggered
    requires forall i | 0 <= i < |steps| :: !Stores(steps[i])
    ensures StartsIn(s, steps) <= 1 + Uncaught(steps)
  {
    hide Runs, StartsIn, Uncaught;
    OneActionPerTrigger(s, steps);
    NoTriggers(steps);
  }

  lemma {:induction false} NoTriggers(steps: seq<Step>)
    requires forall i | 0 <= i < |steps| :: !Stores(steps[i])
    ensures Triggers(steps) == 0
  {
    if steps != [] { NoTriggers(steps[1..]); }
  }

  // ----- Exactly one action among simultaneous calls

  /** Triggered, not handled, and no call of handle() has got to running the action. */
  ghost predicate Pending(s: State) {
    && s.triggered && !s.handled
    && forall t | 0 <= t < |s.pcs| :: s.pcs[t].Idle? || s.pcs[t].SawTriggered? || s.pcs[t].Passed? || s.pcs[t].Locked?
  }

  lemma {:induction false} NoReturnBeforeAction(s: State, steps: seq<Step>)
    requires Pending(s) && Runs(s, steps) && forall i | 0 <= i < |steps| :: !Stores(steps[i])
    requires StartsIn(s, steps) == 0
    ensures ReturnsIn(s, steps) == 0
    decreases |steps|
  {
    if steps != [] {
      assert !Stores(steps[0]);
      assert Pending(Next(s, steps[0]));
      NoReturnBeforeAction(Next(s, steps[0]), steps[1..]);
    }
  }

  /** Among the calls made while the signal is triggered and not handled, exactly one performs the action: once any of
      them has returned, one action has started and no second one. */
  lemma ExactlyOneAction(s: State, steps: seq<Step>)
    requires Inv(s) && Pending(s) && Runs(s, steps) && forall i | 0 <= i < |steps| :: !Stores(steps[i])
    requires Uncaught(steps) == 0 && ReturnsIn(s, steps) > 0
    ensures StartsIn(s, steps) == 1
  {
    hide Runs, StartsIn, ReturnsIn, Uncaught;
    AtMostOneAction(s, steps);
    if StartsIn(s, steps) == 0 { NoReturnBeforeAction(s, steps); }
  }

  // ----- Waiting for the action

  /** A caller that passed the first check stays where it is until a running action has ended. */
  lemma {:induction false} WaitsForAction(s: State, steps: seq<Step>, a: nat, b: nat)
    requires Inv(s) && Runs(s, steps) && a < |s.pcs| && b < |s.pcs| && a != b
    requires s.pcs[a].Running? && (s.pcs[b].Passed? || Critical(s.pcs[b]))
    requires forall i | 0 <= i < |steps| :: !(steps[i].EndAction? && steps[i].t == a)
    ensures b < |After(s, steps).pcs| && After(s, steps).pcs[b] == s.pcs[b] == Passed
    ensures forall i | 0 <= i < |steps| :: steps[i].t != b
    decreases |steps|
  {
    assert s.owner == Some(a);
    if steps != [] {
      assert !(steps[0].EndAction? && steps[0].t == a);
      StepKeepsInv(s, steps[0]);
      WaitsForAction(Next(s, steps[0]), steps[1..], a, b);
      forall i | 0 <= i < |steps|
        ensures steps[i].t != b
      {
        if i > 0 { assert steps[i] == steps[1..][i - 1]; }
      }
    }
  }

  // ----- Triggers counted from the start

  /** No call has been made that could see the signal triggered. */
  ghost predicate Untouched(s: State) {
    !s.triggered && s.owner == None && forall t | 0 <= t < |s.pcs| :: s.pcs[t].Idle?
  }

  /** From the start of the program, `n` calls of trigger() make at most `n + 1` actions if nothing resets the signal. */
  lemma {:induction false} ActionsFromStart(s: State, steps: seq<Step>)
    requires Untouched(s) && Runs(s, steps) && forall i | 0 <= i < |steps| :: !Resets(steps[i])
    ensures StartsIn(s, steps) <= 1 + Uncaught(steps) + Triggers(steps)
    decreases |steps|
  {
    if steps != [] {
      var next := Next(s, steps[0]);
      assert !Resets(steps[0]) && !Starts(s, steps[0]);
      CountFirst(steps);
      hide Uncaught, Triggers;
      if next.triggered {
        StepKeepsInv(s, steps[0]);
        OneActionPerTrigger(next, steps[1..]);
      } else {
        ActionsFromStart(next, steps[1..]);
      }
    }
  }

  /** Some thread is between the two stores of trigger(). */
  ghost predicate Between(s: State) {
    exists t :: 0 <= t < |s.pcs| && InCall(s.pcs[t], InTrigger)
  }

  /** How many actions start while some thread is between the two stores of trigger(). */
  ghost function StartsBetween(s: State, steps: seq<Step>): nat
    requires Runs(s, steps)
    decreases |steps|
  {
    if steps == [] then 0
    else (if Starts(s, steps[0]) && Between(s) then 1 else 0) + StartsBetween(Next(s, steps[0]), steps[1..])
  }

  lemma BetweenStays(s: State, step: Step)
    requires Between(s) && Enabled(s, step) && !step.TriggerSecond? && !Resets(step)
    ensures Between(Next(s, step))
  {
    var t :| 0 <= t < |s.pcs| && InCall(s.pcs[t], InTrigger);
    assert Next(s, step).pcs[t] == s.pcs[t];
  }

  lemma {:induction false} OnePerTriggerOnceBegun(s: State, steps: seq<Step>)
    requires Inv(s) && s.triggered && Between(s) && Runs(s, steps) && forall i | 0 <= i < |steps| :: !Resets(steps[i])
    ensures StartsIn(s, steps) <= Triggers(steps) + Uncaught(steps) + StartsBetween(s, steps)
    decreases |steps|
  {
    if steps != [] {
      var next := Next(s, steps[0]);
      assert !Resets(steps[0]);
      StepKeepsInv(s, steps[0]);
      CountFirst(steps);
      StepPotential(s, steps[0]);
      hide Uncaught, Inv, Between;
      if steps[0].TriggerSecond? {
        OneActionPerTrigger(next, steps[1..]);
      } else {
        BetweenStays(s, steps[0]);
        OnePerTriggerOnceBegun(next, steps[1..]);
      }
    }
  }

  /** From the start, without resets, there are at most as many actions as calls of trigger(), plus those that started
      between the two stores of one; so if none starts there, every call makes at most one action. */
  lemma {:induction false} OnePerTriggerOutside(s: State, steps: seq<Step>)
    requires Untouched(s) && Runs(s, steps) && forall i | 0 <= i < |steps| :: !Resets(steps[i])
    ensures StartsIn(s, steps) <= Triggers(steps) + Uncaught(steps) + StartsBetween(s, steps)
    decreases |steps|
  {
    if steps != [] {
      var next := Next(s, steps[0]);
      assert !Resets(steps[0]) && !Starts(s, steps[0]);
      CountFirst(steps);
      hide Uncaught, Triggers;
      if next.triggered {
        StepKeepsInv(s, steps[0]);
        assert InCall(next.pcs[steps[0].t], InTrigger);
        OnePerTriggerOnceBegun(next, steps[1..]);
      } else {
        OnePerTriggerOutside(next, steps[1..]);
      }
    }
  }

  // ----- The exact account

  /** The call of trigger() that completes here allows one action more: the signal counts as handled. */
  predicate Rearms(s: State, step: Step) {
    step.TriggerSecond? && s.handled && !WillStore(s)
  }

  /** How many calls of trigger() rearm the signal; the others find it not handled yet or about to be. */
  function Rearmed(s: State, steps: seq<Step>): nat
    requires Runs(s, steps)
    decreases |steps|
  {
    if steps == [] then 0 else (if Rearms(s, steps[0]) then 1 else 0) + Rearmed(Next(s, steps[0]), steps[1..])
  }

  /** Who is going to store that the signal is handled finds it not handled; nobody does while it is not triggered. */
  ghost predicate Orderly(s: State) {
    && Inv(s) && (WillStore(s) ==> !s.handled && s.triggered)
    && (!s.triggered ==> forall t | 0 <= t < |s.pcs| :: s.pcs[t].Idle?)
  }

  lemma StepAccount(s: State, step: Step)
    requires Orderly(s) && Enabled(s, step) && !Resets(step)
    ensures Orderly(Next(s, step))
    ensures (if Starts(s, step) then 1 else 0) + Potential(Next(s, step))
            == Potential(s) + Uncaught([step]) + (if Rearms(s, step) then 1 else 0)
  {
    StepKeepsInv(s, step);
    assert [step][1..] == [];
    assert Critical(s.pcs[step.t]) ==> s.owner == Some(step.t);
  }

  /** In a run without resets the actions are: one if the signal could be handled at the beginning and not at the end,
      one for every call of trigger() that rearmed it, and one for every exception the handler does not catch. */
  lemma {:induction false} ActionsAccount(s: State, steps: seq<Step>)
    requires Orderly(s) && Runs(s, steps) && forall i | 0 <= i < |steps| :: !Resets(steps[i])
    ensures StartsIn(s, steps) + Potential(After(s, steps)) == Potential(s) + Uncaught(steps) + Rearmed(s, steps)
    decreases |steps|
  {
    if steps != [] {
      hide Potential, Enabled, Goes, Starts, Resets, Uncaught, Rearms, Orderly, Triggers;
      StepAccount(s, steps[0]);
      CountFirst(steps);
      ActionsAccount(Next(s, steps[0]), steps[1..]);
    }
  }

  /** So from the start there are at most as many actions as calls of trigger() iff some call did not rearm the signal, or
      an action could still start. */
  lemma OnePerTriggerIff(s: State, steps: seq<Step>)
    requires Init(s) && Runs(s, steps) && forall i | 0 <= i < |steps| :: !Resets(steps[i])
    ensures StartsIn(s, steps) <= Triggers(steps) + Uncaught(steps) <==>
            Rearmed(s, steps) < Triggers(steps) || Potential(After(s, steps)) == 1
  {
    assert Orderly(s) && Potential(s) == 1;
    hide Runs, StartsIn, Triggers, Uncaught, Rearmed, After, Orderly;
    ActionsAccount(s, steps);
    RearmedAreTriggers(s, steps);
  }

  lemma {:induction false} RearmedAreTriggers(s: State, steps: seq<Step>)
    requires Runs(s, steps)
    ensures Rearmed(s, steps) <= Triggers(steps)
    decreases |steps|
  {
    if steps != [] { RearmedAreTriggers(Next(s, steps[0]), steps[1..]); }
  }

  /** What a run without resets comes to. */
  ghost predicate Sums(s: State, steps: seq<Step>, starts: nat, triggers: nat) {
    && Runs(s, steps) && StartsIn(s, steps) == starts && Triggers(steps) == triggers && Uncaught(steps) == 0
    && forall i | 0 <= i < |steps| :: !Resets(steps[i])
  }

  /** A run with one step more in front. */
  lemma Prepend(s: State, step: Step, next: State, steps: seq<Step>, starts: nat, triggers: nat)
    requires Enabled(s, step) && Next(s, step) == next && Sums(next, steps, starts, triggers)
    requires !Resets(step) && !(step.EndAction? && step.ending.OtherException?)
    ensures Sums(s, [step] + steps, starts + (if Starts(s, step) then 1 else 0),
                 triggers + (if step.TriggerSecond? then 1 else 0))
  {
    assert ([step] + steps)[1..] == steps;
  }

  /** Thread 1 calls handle() and starts the action. */
  lemma BeginsAction(pc: Pc, rest: seq<Step>, starts: nat, triggers: nat) returns (steps: seq<Step>)
    requires Sums(State(true, false, Some(1), [pc, Running(NoCall)]), rest, starts, triggers)
    ensures Sums(State(true, false, None, [pc, Idle(NoCall)]), steps, starts + 1, triggers)
  {
    hide Sums;
    var saw := State(true, false, None, [pc, SawTriggered]);
    var passed := State(true, false, None, [pc, Passed]);
    var locked := State(true, false, Some(1), [pc, Locked]);
    Prepend(locked, LoadHandledAgain(1), State(true, false, Some(1), [pc, Running(NoCall)]), rest, starts, triggers);
    steps := [LoadHandledAgain(1)] + rest;
    Prepend(passed, Lock(1), locked, steps, starts + 1, triggers);
    steps := [Lock(1)] + steps;
    Prepend(saw, LoadHandled(1), passed, steps, starts + 1, triggers);
    steps := [LoadHandled(1)] + steps;
    Prepend(State(true, false, None, [pc, Idle(NoCall)]), LoadTriggered(1), saw, steps, starts + 1, triggers);
    steps := [LoadTriggered(1)] + steps;
  }

  /** Thread 1 ends the action and returns from handle(). */
  lemma EndsAction(pc: Pc, rest: seq<Step>, starts: nat, triggers: nat) returns (steps: seq<Step>)
    requires Sums(State(true, true, None, [pc, Idle(NoCall)]), rest, starts, triggers)
    ensures Sums(State(true, false, Some(1), [pc, Running(NoCall)]), steps, starts, triggers)
  {
    hide Sums;
    var ended := State(true, false, Some(1), [pc, Ended]);
    var storing := State(true, false, Some(1), [pc, Storing]);
    var leaving := State(true, true, Some(1), [pc, Leaving(true)]);
    Prepend(leaving, Unlock(1), State(true, true, None, [pc, Idle(NoCall)]), rest, starts, triggers);
    steps := [Unlock(1)] + rest;
    Prepend(storing, StoreHandled(1), leaving, steps, starts, triggers);
    steps := [StoreHandled(1)] + steps;
    Prepend(ended, LoadTriggeredAgain(1), storing, steps, starts, triggers);
    steps := [LoadTriggeredAgain(1)] + steps;
    Prepend(State(true, false, Some(1), [pc, Running(NoCall)]), EndAction(1, Normally), ended, steps, starts, triggers);
    steps := [EndAction(1, Normally)] + steps;
  }

  /** The one more is possible: a handler that runs between the two stores of trigger() makes two actions out of one call. */
  lemma TwoActionsForOneTrigger() returns (s: State, steps: seq<Step>)
    ensures Init(s) && Sums(s, steps, 2, 1)
  {
    assert Sums(State(true, false, Some(1), [Idle(NoCall), Running(NoCall)]), [], 0, 0);
    hide Sums;
    s := State(false, false, None, [Idle(NoCall), Idle(NoCall)]);
    steps := BeginsAction(Idle(NoCall), [], 0, 0);
    Prepend(State(true, true, None, [Idle(InTrigger), Idle(NoCall)]), TriggerSecond(0),
            State(true, false, None, [Idle(NoCall), Idle(NoCall)]), steps, 1, 0);
    steps := EndsAction(Idle(InTrigger), [TriggerSecond(0)] + steps, 1, 1);
    steps := BeginsAction(Idle(InTrigger), steps, 1, 1);
    Prepend(s, TriggerFirst(0), State(true, false, None, [Idle(InTrigger), Idle(NoCall)]), steps, 2, 1);
    steps := [TriggerFirst(0)] + steps;
  }

  // ----- What the flags and the results say

  /** The last step for which `sets` or `clears` holds was one for which `sets` does. */
  ghost predicate LastSets(steps: seq<Step>, sets: Step -> bool, clears: Step -> bool) {
    exists i :: 0 <= i < |steps| && sets(steps[i]) && forall k | i < k < |steps| :: !clears(steps[k])
  }

  lemma LastSetsFirst(steps: seq<Step>, sets: Step -> bool, clears: Step -> bool)
    requires steps != []
    ensures LastSets(steps, sets, clears) <==>
            LastSets(steps[1..], sets, clears) || (sets(steps[0]) && forall k | 0 < k < |steps| :: !clears(steps[k]))
  {
    var rest := steps[1..];
    if i :| 0 <= i < |steps| && sets(steps[i]) && forall k | i < k < |steps| :: !clears(steps[k]) {
      if i > 0 { assert rest[i - 1] == steps[i] && forall k | i - 1 < k < |rest| :: !clears(rest[k]); }
    }
    if i :| 0 <= i < |rest| && sets(rest[i]) && forall k | i < k < |rest| :: !clears(rest[k]) {
      assert steps[i + 1] == rest[i];
      forall k | i + 1 < k < |steps|
        ensures !clears(steps[k])
      {
        assert steps[k] == rest[k - 1];
      }
    }
  }

  /** No step of the run clears. */
  ghost predicate NeverClears(steps: seq<Step>, clears: Step -> bool) {
    forall k | 0 <= k < |steps| :: !clears(steps[k])
  }

  lemma NeverClearsFirst(steps: seq<Step>, clears: Step -> bool)
    requires steps != []
    ensures NeverClears(steps, clears) <==> !clears(steps[0]) && NeverClears(steps[1..], clears)
    ensures NeverClears(steps[1..], clears) <==> forall k | 0 < k < |steps| :: !clears(steps[k])
  {
    var rest := steps[1..];
    assert forall k | 0 < k < |steps| :: steps[k] == rest[k - 1];
    assert forall k | 0 <= k < |rest| :: rest[k] == steps[k + 1];
  }

  /** The flags say which store came last: the signal is triggered iff trigger() came after every reset() or it was so at the
      start, and it is handled iff an action that ended did so after every trigger() and reset(). */
  lemma {:induction false} FlagsAreLastStores(s: State, steps: seq<Step>)
    requires Runs(s, steps)
    ensures var e := After(s, steps);
            && (e.triggered <==>
                  || LastSets(steps, (x: Step) => x.TriggerFirst?, (x: Step) => x.ResetSecond?)
                  || (s.triggered && NeverClears(steps, (x: Step) => x.ResetSecond?)))
            && (e.handled <==>
                  || LastSets(steps, (x: Step) => x.StoreHandled?, (x: Step) => x.TriggerSecond? || x.ResetFirst?)
                  || (s.handled && NeverClears(steps, (x: Step) => x.TriggerSecond? || x.ResetFirst?)))
    decreases |steps|
  {
    if steps != [] {
      hide LastSets, NeverClears, Enabled, Goes;
      FlagsAreLastStores(Next(s, steps[0]), steps[1..]);
      LastSetsFirst(steps, (x: Step) => x.TriggerFirst?, (x: Step) => x.ResetSecond?);
      LastSetsFirst(steps, (x: Step) => x.StoreHandled?, (x: Step) => x.TriggerSecond? || x.ResetFirst?);
      NeverClearsFirst(steps, (x: Step) => x.ResetSecond?);
      NeverClearsFirst(steps, (x: Step) => x.TriggerSecond? || x.ResetFirst?);
    }
  }

  /** The actions a thread starts in a run. */
  function StartsBy(s: State, steps: seq<Step>, t: nat): nat
    requires Runs(s, steps)
    decreases |steps|
  {
    if steps == [] then 0
    else (if steps[0].t == t && Starts(s, steps[0]) then 1 else 0) + StartsBy(Next(s, steps[0]), steps[1..], t)
  }

  /** The call of a thread has performed the action. */
  predicate Performed(pc: Pc) {
    pc.Running? || pc.Ended? || pc.Storing? || (pc.Leaving? && pc.performed)
  }

  lemma {:induction false} PerformedMeans(s: State, steps: seq<Step>, t: nat)
    requires Runs(s, steps) && t < |s.pcs| && Unlock(t) !in steps && (s.pcs[t].Locked? || s.pcs[t].Leaving? || Performed(s.pcs[t]))
    ensures t < |After(s, steps).pcs|
    ensures StartsBy(s, steps, t) + (if Performed(s.pcs[t]) then 1 else 0) == if Performed(After(s, steps).pcs[t]) then 1 else 0
    decreases |steps|
  {
    if steps != [] {
      assert steps[0] != Unlock(t);
      PerformedMeans(Next(s, steps[0]), steps[1..], t);
    }
  }

  /** A call of handle() that has taken the lock returns true (or the exception of the action) iff it started the action. */
  lemma ReturnsTruth(s: State, steps: seq<Step>, t: nat)
    requires t < |s.pcs| && s.pcs[t].Locked? && Runs(s, steps) && Unlock(t) !in steps
    requires t < |After(s, steps).pcs| && After(s, steps).pcs[t].Leaving?
    ensures After(s, steps).pcs[t].performed <==> StartsBy(s, steps, t) == 1
    ensures !After(s, steps).pcs[t].performed <==> StartsBy(s, steps, t) == 0
  {
    hide Runs, After, StartsBy;
    PerformedMeans(s, steps, t);
  }

  predicate InHandle(step: Step) {
    step.LoadTriggered? || step.LoadHandled? || step.Lock? || step.LoadHandledAgain? || step.EndAction? || step.LoadTriggeredAgain?
    || step.StoreHandled? || step.Unlock?
  }

  /** A call of handle() is over exactly when it returns: at once, without waiting for the lock, if the signal is not triggered
      or has been handled, and else with the unlock. */
  lemma ReturnsIff(s: State, step: Step)
    requires Enabled(s, step) && InHandle(step)
    ensures Next(s, step).pcs[step.t] == Idle(NoCall) <==> Returns(s, step)
  {
  }
}
