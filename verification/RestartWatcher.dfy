/** The hot-restart debounce loop over what it observes (restart_handler). */
module RestartWatcher {

  /** What one turn of the loop observes: the stop flag, the result of select, the value loaded from the flag that
      trigger() sets, the number of bytes read, and the verdict of a dry run. What the turn does not look at is arbitrary. */
  datatype Obs = Obs(stop: bool, selected: int, triggered: bool, bytes: int, check: bool)

  datatype Turn = Quiet | Event | EmptyRead | SelectFails | ReadFails

  function Classify(o: Obs): Turn {
    if o.selected < 0 then SelectFails
    else if o.selected == 0 && !o.triggered then Quiet
    else if o.selected > 0 && o.bytes < 0 then ReadFails
    else if o.selected > 0 && o.bytes == 0 && !o.triggered then EmptyRead
    else Event
  }

  /** What the turns mean: a turn is an event iff nothing failed and there was something to see, that is bytes were read or
      a restart was forced; it is quiet iff select found nothing and no restart was forced. */
  lemma TurnsMean(o: Obs)
    ensures Classify(o).Event? <==>
            if o.selected > 0 then o.bytes > 0 || (o.bytes == 0 && o.triggered) else o.selected == 0 && o.triggered
    ensures Classify(o).Quiet? <==> o.selected == 0 && !o.triggered
    ensures Classify(o).SelectFails? <==> o.selected < 0
    ensures Classify(o).ReadFails? <==> o.selected > 0 && o.bytes < 0
    ensures Classify(o).EmptyRead? <==> o.selected > 0 && o.bytes == 0 && !o.triggered
  {
  }

  /** The loop is left in this turn without a restart. */
  predicate Ends(o: Obs) {
    o.stop || Classify(o).SelectFails? || Classify(o).ReadFails?
  }

  /** A dry run is due in turn `t`: it is quiet and the one before was an event. */
  predicate CheckAt(obs: seq<Obs>, t: nat) {
    1 <= t < |obs| && Classify(obs[t]).Quiet? && Classify(obs[t - 1]).Event?
  }

  /** A restart is due in turn `t`: event, quiet with a dry run that succeeded, quiet. */
  predicate RestartAt(obs: seq<Obs>, t: nat) {
    2 <= t < |obs| && Classify(obs[t]).Quiet? && CheckAt(obs, t - 1) && obs[t - 1].check
  }

  /** What this asks of the observations: something to see two turns ago, then a dry run that succeeded, and nothing to see
      nor any failure since. */
  lemma RestartMeans(obs: seq<Obs>, t: nat)
    requires 2 <= t < |obs|
    ensures RestartAt(obs, t) <==>
            && (if obs[t - 2].selected > 0 then obs[t - 2].bytes > 0 || (obs[t - 2].bytes == 0 && obs[t - 2].triggered)
                else obs[t - 2].selected == 0 && obs[t - 2].triggered)
            && obs[t - 1].selected == 0 && !obs[t - 1].triggered && obs[t - 1].check
            && obs[t].selected == 0 && !obs[t].triggered
  {
    TurnsMean(obs[t - 2]);
  }

  /** The loop gets to turn `t`. */
  ghost predicate Reaches(obs: seq<Obs>, t: nat) {
    t <= |obs| && forall u | 0 <= u < t :: !Ends(obs[u]) && !RestartAt(obs, u)
  }

  datatype Outcome = Restart(at: nat) | Stopped(at: nat) | Failed(at: nat) | Watching

  /** watcher_loop: signals a restart in the first turn in which one is due, if the loop gets that far, and makes dry runs
      in exactly the turns in which one is due. */
  method Watch(obs: seq<Obs>) returns (outcome: Outcome, checks: seq<nat>)
    ensures outcome.Restart? ==> Reaches(obs, outcome.at) && RestartAt(obs, outcome.at) && !Ends(obs[outcome.at])
    ensures outcome.Stopped? ==> Reaches(obs, outcome.at) && outcome.at < |obs| && obs[outcome.at].stop
    ensures outcome.Failed? ==> Reaches(obs, outcome.at) && outcome.at < |obs| && Ends(obs[outcome.at]) && !obs[outcome.at].stop
    ensures outcome.Watching? ==> Reaches(obs, |obs|)
    ensures forall t: nat :: t in checks <==> t < (if outcome.Watching? then |obs| else outcome.at) && CheckAt(obs, t)
  {
    checks := [];
    var shouldCheck, shouldRestart := false, false;
    var i := 0;
    while i < |obs|
      invariant 0 <= i <= |obs| && Reaches(obs, i)
      invariant shouldCheck <==> i >= 1 && Classify(obs[i - 1]).Event?
      invariant shouldRestart <==> i >= 2 && CheckAt(obs, i - 1) && obs[i - 1].check
      invariant !(shouldCheck && shouldRestart)
      invariant forall t: nat :: t in checks <==> t < i && CheckAt(obs, t)
    {
      var o := obs[i];
      if o.stop {
        return Stopped(i), checks;
      }
      if o.selected < 0 {
        return Failed(i), checks;
      }
      var forced := o.triggered;
      if o.selected == 0 && !forced {
        if shouldCheck {
          shouldCheck := false;
          shouldRestart := o.check;
          checks := checks + [i];
          i := i + 1;
          continue;
        }
        if shouldRestart {
          return Restart(i), checks;
        }
        i := i + 1;
        continue;
      }
      shouldRestart := false;
      shouldCheck := false;
      if o.selected > 0 {
        if o.bytes < 0 {
          return Failed(i), checks;
        } else if o.bytes == 0 {
          if !forced {
            i := i + 1;
            continue;
          }
        }
      }
      shouldCheck := true;
      i := i + 1;
    }
    outcome := Watching;
  }

  // ----- The flag that forces a restart

  /** Accesses to m_forced: the store of trigger(), and the load and the store of one turn of the loop. */
  datatype Access = Trigger | Load | Store

  function Flag(steps: seq<Access>): bool {
    if steps == [] then false
    else
      match steps[|steps| - 1]
      case Trigger => true
      case Load => Flag(steps[..|steps| - 1])
      case Store => false
  }

  /** The loop is between its load and its store. */
  predicate InWindow(steps: seq<Access>) {
    steps != [] &&
    match steps[|steps| - 1]
    case Trigger => InWindow(steps[..|steps| - 1])
    case Load => true
    case Store => false
  }

  /** The loop loads and stores in turns, other threads call trigger() at any time. */
  predicate Alternates(steps: seq<Access>) {
    steps == [] ||
    (var front, last := steps[..|steps| - 1], steps[|steps| - 1];
     && Alternates(front) && (last.Load? ==> !InWindow(front)) && (last.Store? ==> InWindow(front)))
  }

  /** The load at `q` is the next one after position `p`. */
  ghost predicate NextLoad(steps: seq<Access>, p: nat, q: nat) {
    p < q < |steps| && steps[q].Load? && forall i | p < i < q :: !steps[i].Load?
  }

  ghost predicate StoredBetween(steps: seq<Access>, p: nat, q: nat)
    requires q <= |steps|
  {
    exists i :: p < i < q && steps[i].Store?
  }

  lemma PrefixStep(steps: seq<Access>, q: nat)
    requires q < |steps|
    ensures steps[..q + 1][..q] == steps[..q] && steps[..q + 1][q] == steps[q]
  {
  }

  /** The flag is set iff trigger() was called and nothing was stored since. */
  lemma {:induction false} FlagMeans(steps: seq<Access>, q: nat)
    requires q <= |steps|
    ensures Flag(steps[..q]) <==> exists r :: 0 <= r < q && steps[r].Trigger? && !StoredBetween(steps, r, q)
  {
    if q > 0 {
      var last := q - 1;
      PrefixStep(steps, last);
      FlagMeans(steps, last);
      match steps[last]
      case Trigger =>
        assert !StoredBetween(steps, last, q);
      case Store =>
        forall r | 0 <= r < last
          ensures StoredBetween(steps, r, q)
        {
        }
      case Load =>
        forall r | 0 <= r < last
          ensures StoredBetween(steps, r, q) <==> StoredBetween(steps, r, last)
        {
          if i :| r < i < q && steps[i].Store? { assert i < last; }
        }
    }
  }

  lemma {:induction false} AlternatesBefore(steps: seq<Access>, q: nat)
    requires Alternates(steps) && q <= |steps|
    ensures Alternates(steps[..q])
  {
    if q < |steps| {
      AlternatesBefore(steps[..|steps| - 1], q);
      assert steps[..|steps| - 1][..q] == steps[..q];
    } else {
      assert steps[..q] == steps;
    }
  }

  /** Without a load in between, the window that was open at `p` is open at `q` unless something was stored. */
  lemma {:induction false} WindowStays(steps: seq<Access>, p: nat, q: nat)
    requires Alternates(steps) && p < q <= |steps| && steps[p].Trigger? && forall i | p < i < q :: !steps[i].Load?
    ensures InWindow(steps[..q]) <==> InWindow(steps[..p]) && !StoredBetween(steps, p, q)
    ensures StoredBetween(steps, p, q) ==> InWindow(steps[..p])
  {
    var last := q - 1;
    PrefixStep(steps, last);
    if p < last {
      WindowStays(steps, p, last);
      AlternatesBefore(steps, q);
      if i :| p < i < q && steps[i].Store? {
        if i < last { assert StoredBetween(steps, p, last); }
      }
      if StoredBetween(steps, p, last) {
        var i :| p < i < last && steps[i].Store?;
        assert StoredBetween(steps, p, q);
      }
      if steps[last].Store? { assert StoredBetween(steps, p, q); }
    } else {
      assert !StoredBetween(steps, p, q);
    }
  }

  /** A call of trigger() is seen by the next load iff it was not made between a load and its store; the load finds the flag
      set iff this call or a later one was not. */
  lemma TriggerIsSeenIff(steps: seq<Access>, p: nat, q: nat)
    requires Alternates(steps) && NextLoad(steps, p, q) && steps[p].Trigger?
    ensures !InWindow(steps[..p]) <==> !StoredBetween(steps, p, q)
    ensures Flag(steps[..q]) <==> exists r :: p <= r < q && steps[r].Trigger? && !InWindow(steps[..r])
  {
    forall r | p <= r < q && steps[r].Trigger?
      ensures !InWindow(steps[..r]) <==> !StoredBetween(steps, r, q)
    {
      LoadClosesWindow(steps, r, q);
    }
    FlagMeans(steps, q);
    if Flag(steps[..q]) {
      var r :| 0 <= r < q && steps[r].Trigger? && !StoredBetween(steps, r, q);
      StoredWider(steps, r, p, q);
      assert r < p ==> !StoredBetween(steps, p, q);
    }
  }

  lemma StoredWider(steps: seq<Access>, r: nat, p: nat, q: nat)
    requires q <= |steps|
    ensures r <= p && StoredBetween(steps, p, q) ==> StoredBetween(steps, r, q)
  {
  }

  lemma LoadClosesWindow(steps: seq<Access>, r: nat, q: nat)
    requires Alternates(steps) && NextLoad(steps, r, q) && steps[r].Trigger?
    ensures !InWindow(steps[..r]) <==> !StoredBetween(steps, r, q)
  {
    WindowStays(steps, r, q);
    AlternatesBefore(steps, q + 1);
    PrefixStep(steps, q);
  }

  /** So, where select reports nothing, the turn that makes that load is an event turn iff this call or a later one was made
      outside of the window. */
  lemma TriggerMakesEvent(steps: seq<Access>, p: nat, q: nat, o: Obs)
    requires Alternates(steps) && NextLoad(steps, p, q) && steps[p].Trigger?
    requires o.selected == 0 && o.triggered == Flag(steps[..q])
    ensures Classify(o).Event? <==> exists r :: p <= r < q && steps[r].Trigger? && !InWindow(steps[..r])
  {
    hide Flag, InWindow, Alternates;
    TriggerIsSeenIff(steps, p, q);
  }

  /** A call can be lost: between the load and the store of a turn. */
  lemma LostTrigger() returns (steps: seq<Access>)
    ensures Alternates(steps) && |steps| == 4 && steps[1].Trigger? && NextLoad(steps, 1, 3) && !Flag(steps[..3])
  {
    steps := [Load, Trigger, Store, Load];
    assert steps[..3] == [Load, Trigger, Store] && steps[..3][..2] == [Load, Trigger] && [Load, Trigger][..1] == [Load];
    assert Alternates([Load]) && Alternates([Load, Trigger]) && Alternates([Load, Trigger, Store]);
  }
}
