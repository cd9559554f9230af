/** The timeout watchdog: one owner, one polling thread, and an atomic pointer between them (watchdog). Every load, store,
    exchange, allocation and deletion is a step of its own. */
module Watchdog {
  import opened Options

  /** timeout_data; deadline 0 is the default time point, which means no deadline. */
  datatype Record = Record(deadline: nat, payload: int)

  /** The owner: outside, about to put a record into the slot, about to delete what an exchange gave back, or on the way
      through stop(). */
  datatype Owner = Free | Holding(id: nat) | Deleting(given: Option<nat>) | StoreStop | Joining | Draining

  /** The polling thread: at the loop test, about to empty the slot, about to copy or to delete what it got, about to
      test the deadline, about to call back, about to disarm, or gone. */
  datatype Poller = LoopTest | Emptying | Copying(id: nat) | Dropping(id: nat) | Testing | Calling | Disarming | Gone

  /** Record ids are positions in `records`. `current` is the poller's copy and the record it was made from. The last four
      are a history: what was freed, picked up by the poller, replaced by the owner, and reported through the callback;
      `sets` counts the exchanges made by the owner since the last stop. */
  datatype State = State(
    records: seq<Record>,
    slot: Option<nat>,
    running: bool,
    owner: Owner,
    poller: Poller,
    current: Record,
    source: nat,
    now: nat,
    freed: multiset<nat>,
    picked: set<nat>,
    replaced: set<nat>,
    called: multiset<nat>,
    sets: nat)

  datatype Step =
    | Tick(time: nat)
    | Allocate(record: Record)
    | Exchange
    | Delete
    | Stop
    | ClearFlag
    | Join
    | Drain
    | StartThread
    | Test
    | Empty
    | Copy
    | Drop
    | Compare
    | Call
    | Disarm

  predicate Enabled(s: State, step: Step) {
    match step
    case Tick(time) => s.now <= time
    case Allocate(record) => s.owner.Free?
    case Exchange => s.owner.Holding?
    case Delete => s.owner.Deleting?
    case Stop => s.owner.Free?
    case ClearFlag => s.owner.StoreStop?
    case Join => s.owner.Joining? && s.poller.Gone?
    case Drain => s.owner.Draining?
    case StartThread => s.owner.Free? && !s.running
    case Test => s.poller.LoopTest?
    case Empty => s.poller.Emptying?
    case Copy => s.poller.Copying? && s.poller.id < |s.records|
    case Drop => s.poller.Dropping?
    case Compare => s.poller.Testing?
    case Call => s.poller.Calling?
    case Disarm => s.poller.Disarming?
  }

  function Taken(slot: Option<nat>): set<nat> {
    if slot.Some? then {slot.value} else {}
  }

  function Next(s: State, step: Step): State
    requires Enabled(s, step)
  {
    match step
    case Tick(time) => s.(now := time)
    // set_timeout and cancel_timeout
    case Allocate(record) => s.(records := s.records + [record], owner := Holding(|s.records|))
    case Exchange =>
      s.(slot := Some(s.owner.id), owner := Deleting(s.slot), replaced := s.replaced + Taken(s.slot), sets := s.sets + 1)
    case Delete =>
      s.(owner := Free, freed := if s.owner.given.Some? then s.freed + multiset{s.owner.given.value} else s.freed)
    // stop
    case Stop => s.(owner := if s.running then StoreStop else Free)
    case ClearFlag => s.(running := false, owner := Joining)
    case Join => s.(owner := Draining)
    case Drain => s.(slot := None, owner := Deleting(s.slot), replaced := s.replaced + Taken(s.slot), sets := 0)
    // start, behind its own stop
    case StartThread => s.(running := true, poller := LoopTest, current := Record(0, 0))
    // the polling loop
    case Test => s.(poller := if s.running then Emptying else Gone)
    case Empty =>
      s.(slot := None, picked := s.picked + Taken(s.slot), poller := if s.slot.Some? then Copying(s.slot.value) else Testing)
    case Copy => s.(current := s.records[s.poller.id], source := s.poller.id, poller := Dropping(s.poller.id))
    case Drop => s.(freed := s.freed + multiset{s.poller.id}, poller := Testing)
    case Compare => s.(poller := if s.current.deadline != 0 && s.current.deadline < s.now then Calling else LoopTest)
    case Call => s.(called := s.called + multiset{s.source}, poller := Disarming)
    case Disarm => s.(current := s.current.(deadline := 0), poller := LoopTest)
  }

  predicate Runs(s: State, steps: seq<Step>)
    decreases |steps|
  {
    steps == [] || (Enabled(s, steps[0]) && Runs(Next(s, steps[0]), steps[1..]))
  }

  function After(s: State, steps: seq<Step>): State
    requires Runs(s, steps)
    decreases |steps|
  {
    if steps == [] then s else After(Next(s, steps[0]), steps[1..])
  }

  ghost predicate Init(s: State) {
    && s.records == [] && s.slot == None && !s.running && s.owner.Free? && s.poller.Gone? && s.current.deadline == 0
    && s.freed == s.called == multiset{} && s.picked == s.replaced == {} && s.sets == 0
  }

  // ----- Ownership of the records

  /** How many places hold the record: those that freed it, the slot, the owner and the poller. */
  function Places(s: State, id: nat): nat {
    s.freed[id]
    + (if s.slot == Some(id) then 1 else 0)
    + (if s.owner == Holding(id) || s.owner == Deleting(Some(id)) then 1 else 0)
    + (if s.poller == Copying(id) || s.poller == Dropping(id) then 1 else 0)
  }

  /** Every allocated record is in exactly one place. */
  ghost predicate Owned(s: State) {
    && (forall id: nat :: Places(s, id) == if id < |s.records| then 1 else 0)
    && (!s.running && !s.owner.Joining? ==> s.poller.Gone?)
    && (s.owner.StoreStop? ==> s.running) && (s.owner.Joining? || s.owner.Draining? ==> !s.running)
  }

  lemma StepOwned(s: State, step: Step)
    requires Owned(s) && Enabled(s, step)
    ensures Owned(Next(s, step))
  {
    var s' := Next(s, step);
    forall id: nat
      ensures Places(s', id) == if id < |s'.records| then 1 else 0
    {
      assert Places(s, id) == if id < |s.records| then 1 else 0;
    }
  }

  // ----- The slot of a stopped watchdog

  /** While nothing polls, the slot holds a record iff the owner has set or cancelled since the last stop. */
  ghost predicate SlotOk(s: State) {
    !s.running && !s.owner.Joining? && !s.owner.Draining? ==> (s.slot.Some? <==> s.sets > 0)
  }

  lemma StepSlotOk(s: State, step: Step)
    requires Owned(s) && SlotOk(s) && Enabled(s, step)
    ensures SlotOk(Next(s, step))
  {
    hide Places;
  }

  // ----- The callback

  /** What left the slot left it for good, either to the poller or to the owner. */
  ghost predicate Sorted(s: State) {
    && (forall id: nat | id in s.picked || id in s.replaced :: id < |s.records| && s.slot != Some(id) && s.owner != Holding(id))
    && (s.slot.Some? ==> s.slot.value < |s.records|) && (s.owner.Holding? ==> s.owner.id < |s.records|)
    && s.picked !! s.replaced
    && (s.poller.Copying? || s.poller.Dropping? ==> s.poller.id in s.picked)
  }

  /** Callbacks were made for armed records that were picked up, once each. */
  ghost predicate CalledOnce(s: State) {
    && (forall id: nat :: s.called[id] <= 1)
    && (forall id: nat | s.called[id] > 0 :: id in s.picked && id < |s.records| && s.records[id].deadline != 0)
    && (s.poller.Copying? ==> s.called[s.poller.id] == 0)
    && (s.current.deadline != 0 ==>
          && s.source in s.picked && s.source < |s.records| && s.current == s.records[s.source]
          && (!s.poller.Disarming? ==> s.called[s.source] == 0))
    && (s.poller.Calling? || s.poller.Disarming? ==> s.current.deadline != 0)
    && (s.poller.Calling? ==> s.current.deadline < s.now)
  }

  lemma StepSorted(s: State, step: Step)
    requires Owned(s) && Sorted(s) && Enabled(s, step)
    ensures Sorted(Next(s, step))
  {
    hide Owned;
    SlotIsNotHeld(s);
  }

  /** The owner's steps leave the poller's record as it is. */
  lemma OwnerStepCalledOnce(s: State, step: Step)
    requires Sorted(s) && CalledOnce(s) && Enabled(s, step)
    requires step.Tick? || step.Allocate? || step.Exchange? || step.Delete? || step.Stop? || step.ClearFlag? || step.Join? || step.Drain?
    ensures CalledOnce(Next(s, step))
  {
    var s' := Next(s, step);
    assert s'.called == s.called && s'.picked == s.picked && s'.poller == s.poller && s'.current == s.current;
    assert forall id: nat | id < |s.records| :: s'.records[id] == s.records[id];
  }

  lemma PickCalledOnce(s: State)
    requires Sorted(s) && CalledOnce(s) && Enabled(s, Empty)
    ensures CalledOnce(Next(s, Empty))
  {
    if s.slot.Some? {
      assert s.slot.value !in s.picked;
      assert s.called[s.slot.value] == 0;
    }
  }

  lemma CallCalledOnce(s: State)
    requires CalledOnce(s) && Enabled(s, Call)
    ensures CalledOnce(Next(s, Call))
  {
    var s' := Next(s, Call);
    assert forall id: nat :: s'.called[id] == s.called[id] + if id == s.source then 1 else 0;
  }

  lemma PollStepCalledOnce(s: State, step: Step)
    requires Sorted(s) && CalledOnce(s) && Enabled(s, step)
    requires step.StartThread? || step.Test? || step.Copy? || step.Drop? || step.Compare? || step.Disarm?
    ensures CalledOnce(Next(s, step))
  {
    var s' := Next(s, step);
    assert s'.called == s.called && s'.picked == s.picked && s'.records == s.records;
  }

  lemma StepCalledOnce(s: State, step: Step)
    requires Sorted(s) && CalledOnce(s) && Enabled(s, step)
    ensures CalledOnce(Next(s, step))
  {
    hide Sorted, CalledOnce;
    match step
    case Empty => PickCalledOnce(s);
    case Call => CallCalledOnce(s);
    case StartThread | Test | Copy | Drop | Compare | Disarm => PollStepCalledOnce(s, step);
    case _ => OwnerStepCalledOnce(s, step);
  }

  lemma SlotIsNotHeld(s: State)
    requires Owned(s)
    ensures s.owner.Holding? ==> s.slot != Some(s.owner.id)
    ensures s.owner.Draining? ==> !s.running
  {
    if s.owner.Holding? { assert Places(s, s.owner.id) <= 1; }
  }

  ghost predicate Inv(s: State) {
    Owned(s) && SlotOk(s) && Sorted(s) && CalledOnce(s)
  }

  lemma InitInv(s: State)
    requires Init(s)
    ensures Inv(s)
  {
  }

  lemma {:induction false} RunKeepsInv(s: State, steps: seq<Step>)
    requires Inv(s) && Runs(s, steps)
    ensures Inv(After(s, steps))
    decreases |steps|
  {
    hide Owned, SlotOk, Sorted, CalledOnce, Enabled, Next;
    if steps != [] {
      StepOwned(s, steps[0]);
      StepSlotOk(s, steps[0]);
      StepSorted(s, steps[0]);
      StepCalledOnce(s, steps[0]);
      RunKeepsInv(Next(s, steps[0]), steps[1..]);
    }
  }

  /** No record is ever freed twice; and when the watchdog has been stopped, every record has been freed exactly once iff
      the owner has neither set nor cancelled since the last stop (or since the beginning). */
  lemma FreedExactlyOnce(s: State, steps: seq<Step>)
    requires Init(s) && Runs(s, steps)
    ensures var e := After(s, steps);
            && (forall id: nat :: e.freed[id] <= 1 && (e.freed[id] == 1 ==> id < |e.records|))
            && (e.owner.Free? && !e.running ==>
                  (e.sets == 0 <==> forall id: nat :: e.freed[id] == if id < |e.records| then 1 else 0))
  {
    hide Runs, After, CalledOnce;
    InitInv(s);
    RunKeepsInv(s, steps);
    var e := After(s, steps);
    forall id: nat
      ensures e.freed[id] <= 1 && (e.freed[id] == 1 ==> id < |e.records|)
    {
      assert Places(e, id) == if id < |e.records| then 1 else 0;
    }
    if e.owner.Free? && !e.running {
      if e.slot.None? {
        NothingLeft(e);
      } else {
        assert Places(e, e.slot.value) == 1 && e.freed[e.slot.value] == 0;
      }
    }
  }

  /** The exception is real: a record set on a watchdog that was never started outlives stop(). */
  lemma SetWithoutStart(s: State, record: Record) returns (steps: seq<Step>)
    requires Init(s)
    ensures Runs(s, steps) && |steps| == 4 && steps[3] == Stop
    ensures var e := After(s, steps); e.owner.Free? && !e.running && |e.records| == 1 && e.freed[0] == 0
  {
    var a := Next(s, Allocate(record));
    var b := Next(a, Exchange);
    var c := Next(b, Delete);
    steps := [Allocate(record), Exchange, Delete, Stop];
    assert steps[1..] == [Exchange, Delete, Stop] && steps[1..][1..] == [Delete, Stop] && steps[1..][1..][1..] == [Stop];
    assert Runs(c, [Stop]) && After(c, [Stop]) == Next(c, Stop);
    assert Runs(b, [Delete, Stop]) && After(b, [Delete, Stop]) == Next(c, Stop);
    assert Runs(a, [Exchange, Delete, Stop]) && After(a, [Exchange, Delete, Stop]) == Next(c, Stop);
  }

  /** stop() of a running watchdog leaves nothing behind. */
  lemma StopLeavesNothing(s: State)
    requires Inv(s) && Enabled(s, Drain)
    ensures var e := Next(Next(s, Drain), Delete);
            e.owner.Free? && !e.running && forall id: nat :: e.freed[id] == if id < |e.records| then 1 else 0
  {
    hide CalledOnce, Owned;
    SlotIsNotHeld(s);
    StepOwned(s, Drain);
    StepOwned(Next(s, Drain), Delete);
    NothingLeft(Next(Next(s, Drain), Delete));
  }

  /** How far stop() has come. */
  predicate StopOnItsWay(s: State) {
    match s.owner
    case StoreStop => true
    case Joining => !s.running
    case Draining => !s.running
    case Deleting(_) => !s.running && s.slot.None?
    case Free => !s.running && s.slot.None?
    case Holding(_) => false
  }

  predicate OwnerCalls(step: Step) {
    step.Allocate? || step.Stop? || step.StartThread?
  }

  lemma {:induction false} StopGoesOn(s: State, steps: seq<Step>)
    requires Runs(s, steps) && StopOnItsWay(s) && forall i | 0 <= i < |steps| :: !OwnerCalls(steps[i])
    ensures StopOnItsWay(After(s, steps))
    decreases |steps|
  {
    if steps != [] {
      StopStep(s, steps[0]);
      hide Next, Enabled, StopOnItsWay;
      StopGoesOn(Next(s, steps[0]), steps[1..]);
    }
  }

  lemma StopStep(s: State, step: Step)
    requires Enabled(s, step) && StopOnItsWay(s) && !OwnerCalls(step)
    ensures StopOnItsWay(Next(s, step))
  {
  }

  /** Whenever stop() of a running watchdog returns, whatever the poller did meanwhile, nothing polls any more and every
      record ever allocated has been freed exactly once. */
  lemma StopStops(s: State, steps: seq<Step>)
    requires Inv(s) && s.running && steps != [] && steps[0].Stop? && Runs(s, steps)
    requires forall i | 1 <= i < |steps| :: !OwnerCalls(steps[i])
    requires After(s, steps).owner.Free?
    ensures var e := After(s, steps);
            !e.running && e.poller.Gone? && forall id: nat :: e.freed[id] == if id < |e.records| then 1 else 0
  {
    hide SlotOk, Sorted, CalledOnce, Places;
    RunKeepsInv(s, steps);
    assert forall i | 0 <= i < |steps[1..]| :: steps[1..][i] == steps[i + 1];
    StopGoesOn(Next(s, Stop), steps[1..]);
    NothingLeft(After(s, steps));
  }

  lemma NothingLeft(s: State)
    requires Owned(s) && s.owner.Free? && !s.running && s.slot.None?
    ensures forall id: nat :: s.freed[id] == if id < |s.records| then 1 else 0
  {
    forall id: nat
      ensures s.freed[id] == if id < |s.records| then 1 else 0
    {
      assert Places(s, id) == if id < |s.records| then 1 else 0;
    }
  }

  /** The callback runs at most once for a record, only for an armed one that the poller picked up, and never for one that
      was replaced before; and it only runs when the deadline has passed. */
  lemma CalledAtMostOnce(s: State, steps: seq<Step>, id: nat)
    requires Init(s) && Runs(s, steps)
    ensures var e := After(s, steps);
            && e.called[id] <= 1
            && (e.called[id] == 1 ==> id < |e.records| && e.records[id].deadline != 0 && id in e.picked && id !in e.replaced)
            && (Enabled(e, Call) ==> e.called[e.source] == 0 && e.source < |e.records| && 0 < e.records[e.source].deadline < e.now
                                     && e.current == e.records[e.source])
  {
    hide Runs, After, Owned;
    InitInv(s);
    RunKeepsInv(s, steps);
  }

  // ----- What is set is called

  /** The poller is about to look at the record, or holds a copy that stays armed until the callback. */
  ghost predicate Keeps(s: State, id: nat) {
    && id < |s.records|
    && (|| s.poller == Copying(id)
        || (&& !s.poller.Copying? && s.source == id && (s.called[id] == 0 ==> s.current == s.records[id])
            && (s.poller.Disarming? ==> s.called[id] > 0)))
  }

  lemma StepKeeps(s: State, step: Step, id: nat)
    requires Sorted(s) && Enabled(s, step) && Keeps(s, id) && id in s.picked && !step.StartThread?
    ensures s.picked <= Next(s, step).picked && id < |Next(s, step).records| && Next(s, step).records[id] == s.records[id]
    ensures Next(s, step).picked == s.picked ==> Keeps(Next(s, step), id)
  {
  }

  lemma {:induction false} RunKeeps(s: State, steps: seq<Step>, id: nat)
    requires Inv(s) && Runs(s, steps) && Keeps(s, id) && id in s.picked && StartThread !in steps
    ensures s.picked <= After(s, steps).picked
    ensures After(s, steps).picked == s.picked ==>
              Keeps(After(s, steps), id) && After(s, steps).records[id] == s.records[id]
    decreases |steps|
  {
    hide Owned, SlotOk, Sorted, CalledOnce, Enabled, Next, Keeps;
    if steps != [] {
      var s' := Next(s, steps[0]);
      assert Runs(s', steps[1..]);
      RunKeepsInv(s, [steps[0]]);
      assert After(s, [steps[0]]) == s' by { OneStep(s, steps[0]); }
      StepKeeps(s, steps[0], id);
      if s'.picked == s.picked {
        RunKeeps(s', steps[1..], id);
      } else {
        RunPicks(s', steps[1..]);
      }
    }
  }

  lemma OneStep(s: State, step: Step)
    requires Enabled(s, step)
    ensures Runs(s, [step]) && After(s, [step]) == Next(s, step)
  {
    assert [step][1..] == [];
  }

  lemma {:induction false} RunPicks(s: State, steps: seq<Step>)
    requires Runs(s, steps)
    ensures s.picked <= After(s, steps).picked
    decreases |steps|
  {
    if steps != [] { RunPicks(Next(s, steps[0]), steps[1..]); }
  }

  /** The slot holds an armed record when the poller empties it. From then on, as long as it picks up no other and is not
      restarted, every test of the deadline that comes after it calls back with the payload of the record, unless that
      has been done. */
  lemma DueIsCalled(s: State, steps: seq<Step>, id: nat)
    requires Inv(s) && s.slot == Some(id) && steps != [] && steps[0].Empty? && Runs(s, steps) && StartThread !in steps[1..]
    requires var e := After(s, steps);
             && e.picked == s.picked + {id} && e.poller.Testing? && e.called[id] == 0
             && id < |s.records| && 0 < s.records[id].deadline < e.now
    ensures var e := Next(After(s, steps), Compare);
            Enabled(e, Call) && e.source == id && e.current == s.records[id]
  {
    hide Inv, Keeps, Next;
    PickKeeps(s, id);
    RunKeepsInv(s, [Empty]);
    OneStep(s, Empty);
    RunKeeps(Next(s, Empty), steps[1..], id);
    CompareCalls(After(s, steps), id);
  }

  lemma PickKeeps(s: State, id: nat)
    requires Enabled(s, Empty) && s.slot == Some(id) && id < |s.records|
    ensures var s' := Next(s, Empty);
            Keeps(s', id) && s'.picked == s.picked + {id} && s'.records == s.records
  {
  }

  lemma CompareCalls(s: State, id: nat)
    requires Keeps(s, id) && s.poller.Testing? && s.called[id] == 0 && 0 < s.records[id].deadline < s.now
    ensures Enabled(s, Compare)
    ensures var e := Next(s, Compare); Enabled(e, Call) && e.source == id && e.current == s.records[id]
  {
  }

  /** As long as the watchdog runs there is a poller. */
  lemma {:induction false} PollsWhileRunning(s: State, steps: seq<Step>)
    requires Runs(s, steps) && (s.running ==> !s.poller.Gone?)
    ensures After(s, steps).running ==> !After(s, steps).poller.Gone?
    decreases |steps|
  {
    if steps != [] { PollsWhileRunning(Next(s, steps[0]), steps[1..]); }
  }
}
