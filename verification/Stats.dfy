/** Counting the matches of rules (stats_manager). */
module Stats {
  import opened RulesetSpec

  function Total(counts: seq<nat>): nat {
    if counts == [] then 0 else Total(counts[..|counts| - 1]) + counts[|counts| - 1]
  }

  lemma {:induction false} TotalIncremented(counts: seq<nat>, i: nat)
    requires i < |counts|
    ensures Total(counts[i := counts[i] + 1]) == Total(counts) + 1
  {
    var n := |counts| - 1;
    var more := counts[i := counts[i] + 1];
    if i < n {
      TotalIncremented(counts[..n], i);
      assert more[..n] == counts[..n][i := counts[i] + 1];
    } else {
      assert more[..n] == counts[..n];
    }
  }

  lemma {:induction false} TotalGrown(counts: seq<nat>, n: nat)
    ensures Total(counts + seq(n, _ => 0)) == Total(counts)
  {
    var more := counts + seq(n, _ => 0);
    if n == 0 {
      assert more == counts;
    } else {
      TotalGrown(counts, n - 1);
      assert more[..|more| - 1] == counts + seq(n - 1, _ => 0);
    }
  }

  /** How far the counters reach. */
  datatype Bounds = Bounds(ids: nat, priorities: nat) {
    predicate Covers(rule: Rule) {
      rule.id < ids && rule.priority < priorities
    }
  }

  /** stats_manager. The total is at all times the sum over the rules and the sum over the priorities. */
  class StatsManager {
    var total: nat
    var byRuleId: seq<nat>
    var byPriority: seq<nat>

    constructor ()
      ensures Valid() && total == 0 && byRuleId == byPriority == []
    {
      total, byRuleId, byPriority := 0, [], [];
    }

    ghost predicate Valid()
      reads this
    {
      total == Total(byRuleId) == Total(byPriority)
    }

    function Reach(): Bounds
      reads this
    {
      Bounds(|byRuleId|, |byPriority|)
    }

    method Clear()
      modifies this
      ensures Valid() && total == 0 && byRuleId == byPriority == []
    {
      total, byRuleId, byPriority := 0, [], [];
    }

    method OnRuleLoaded(rule: Rule)
      requires Valid()
      modifies this
      ensures Valid() && Reach().Covers(rule) && total == old(total)
      ensures |old(byRuleId)| <= |byRuleId| && byRuleId[..|old(byRuleId)|] == old(byRuleId)
      ensures |old(byPriority)| <= |byPriority| && byPriority[..|old(byPriority)|] == old(byPriority)
    {
      hide Total;
      if |byRuleId| <= rule.id {
        TotalGrown(byRuleId, rule.id + 1 - |byRuleId|);
        byRuleId := byRuleId + seq(rule.id + 1 - |byRuleId|, _ => 0);
      }
      if |byPriority| <= rule.priority {
        TotalGrown(byPriority, rule.priority + 1 - |byPriority|);
        byPriority := byPriority + seq(rule.priority + 1 - |byPriority|, _ => 0);
      }
    }

    /** Counts a match; a rule that was never loaded is refused, which the source reports by an exception. */
    method OnEvent(rule: Rule) returns (ok: bool)
      requires Valid()
      modifies this
      ensures Valid() && ok == old(Reach().Covers(rule))
      ensures !ok ==> unchanged(this)
      ensures ok ==> |byRuleId| == |old(byRuleId)| && |byPriority| == |old(byPriority)| && total == old(total) + 1
      ensures ok ==> byRuleId == old(byRuleId)[rule.id := old(byRuleId)[rule.id] + 1]
      ensures ok ==> byPriority == old(byPriority)[rule.priority := old(byPriority)[rule.priority] + 1]
    {
      hide Total;
      if |byRuleId| <= rule.id || |byPriority| <= rule.priority {
        return false;
      }
      TotalIncremented(byRuleId, rule.id);
      TotalIncremented(byPriority, rule.priority);
      total := total + 1;
      byRuleId := byRuleId[rule.id := byRuleId[rule.id] + 1];
      byPriority := byPriority[rule.priority := byPriority[rule.priority] + 1];
      ok := true;
    }
  }

  // ----- Counting from several threads

  /** Where a thread is in on_event: outside, or about to make the first, second or third addition. */
  datatype Counting = Outside | AtTotal(rule: Rule) | AtRule(rule: Rule) | AtPriority(rule: Rule)

  datatype Shared = Shared(total: nat, byRuleId: seq<nat>, byPriority: seq<nat>, threads: seq<Counting>)

  datatype Step = Enter(t: nat, rule: Rule) | Add(t: nat)

  predicate Enabled(s: Shared, step: Step) {
    && step.t < |s.threads|
    && (if step.Enter? then s.threads[step.t].Outside? else !s.threads[step.t].Outside?)
  }

  function Bumped(counts: seq<nat>, i: nat): seq<nat> {
    if i < |counts| then counts[i := counts[i] + 1] else counts
  }

  /** The bounds are tested on entry, which refuses a rule that was not loaded; every addition is a step of its own. */
  function Next(s: Shared, step: Step): Shared
    requires Enabled(s, step)
  {
    match step
    case Enter(t, rule) =>
      if Bounds(|s.byRuleId|, |s.byPriority|).Covers(rule) then s.(threads := s.threads[t := AtTotal(rule)]) else s
    case Add(t) =>
      match s.threads[t]
      case AtTotal(rule) => s.(total := s.total + 1, threads := s.threads[t := AtRule(rule)])
      case AtRule(rule) => s.(byRuleId := Bumped(s.byRuleId, rule.id), threads := s.threads[t := AtPriority(rule)])
      case AtPriority(rule) => s.(byPriority := Bumped(s.byPriority, rule.priority), threads := s.threads[t := Outside])
  }

  predicate Runs(s: Shared, steps: seq<Step>)
    decreases |steps|
  {
    steps == [] || (Enabled(s, steps[0]) && Runs(Next(s, steps[0]), steps[1..]))
  }

  function After(s: Shared, steps: seq<Step>): Shared
    requires Runs(s, steps)
    decreases |steps|
  {
    if steps == [] then s else After(Next(s, steps[0]), steps[1..])
  }

  /** How many threads have counted a match in the total and not yet by rule, or not yet by priority. */
  function Ahead(threads: seq<Counting>, byRule: bool): nat {
    if threads == [] then 0
    else Ahead(threads[..|threads| - 1], byRule) + AheadOf(threads[|threads| - 1], byRule)
  }

  function AheadOf(thread: Counting, byRule: bool): nat {
    if thread.AtRule? || (!byRule && thread.AtPriority?) then 1 else 0
  }

  lemma {:induction false} AheadUpdate(threads: seq<Counting>, t: nat, thread: Counting, byRule: bool)
    requires t < |threads|
    ensures Ahead(threads[t := thread], byRule) + AheadOf(threads[t], byRule) == Ahead(threads, byRule) + AheadOf(thread, byRule)
  {
    hide AheadOf;
    var n := |threads| - 1;
    if t < n {
      AheadUpdate(threads[..n], t, thread, byRule);
      assert threads[t := thread][..n] == threads[..n][t := thread];
    } else {
      assert threads[t := thread][..n] == threads[..n];
    }
  }

  lemma {:induction false} AheadAtMost(threads: seq<Counting>, byRule: bool)
    ensures Ahead(threads, byRule) <= |threads|
    ensures (forall t | 0 <= t < |threads| :: threads[t].Outside?) ==> Ahead(threads, byRule) == 0
  {
    if threads != [] { AheadAtMost(threads[..|threads| - 1], byRule); }
  }

  /** The total is ahead of both sums by the matches being counted, and these are of loaded rules. */
  ghost predicate Balanced(s: Shared) {
    && s.total == Total(s.byRuleId) + Ahead(s.threads, true) == Total(s.byPriority) + Ahead(s.threads, false)
    && forall t | 0 <= t < |s.threads| && !s.threads[t].Outside? :: Bounds(|s.byRuleId|, |s.byPriority|).Covers(s.threads[t].rule)
  }

  lemma StepKeepsBalance(s: Shared, step: Step)
    requires Balanced(s) && Enabled(s, step)
    ensures Balanced(Next(s, step))
  {
    hide Total, Ahead;
    var s' := Next(s, step);
    AheadUpdate(s.threads, step.t, s'.threads[step.t], true);
    AheadUpdate(s.threads, step.t, s'.threads[step.t], false);
    assert s'.threads == s.threads[step.t := s'.threads[step.t]];
    if step.Add? {
      var rule := s.threads[step.t].rule;
      assert Bounds(|s.byRuleId|, |s.byPriority|).Covers(rule);
      TotalIncremented(s.byRuleId, rule.id);
      TotalIncremented(s.byPriority, rule.priority);
    }
  }

  /** However the threads take turns, the total equals the sum over the rules and the sum over the priorities whenever no
      match is being counted, and is never ahead of them by more than the number of threads. */
  lemma {:induction false} TotalsAgree(s: Shared, steps: seq<Step>)
    requires Balanced(s) && Runs(s, steps)
    ensures var e := After(s, steps);
            && Balanced(e)
            && Total(e.byRuleId) <= e.total <= Total(e.byRuleId) + |e.threads|
            && Total(e.byPriority) <= e.total <= Total(e.byPriority) + |e.threads|
            && ((forall t | 0 <= t < |e.threads| :: e.threads[t].Outside?) ==> e.total == Total(e.byRuleId) == Total(e.byPriority))
    decreases |steps|
  {
    hide Total, Enabled, Next, Ahead;
    if steps == [] {
      AheadAtMost(s.threads, true);
      AheadAtMost(s.threads, false);
    } else {
      StepKeepsBalance(s, steps[0]);
      TotalsAgree(Next(s, steps[0]), steps[1..]);
    }
  }

  /** The counter a match of the rule is added to, by rule or by priority. */
  function Key(rule: Rule, byRule: bool): nat {
    if byRule then rule.id else rule.priority
  }

  function Counter(s: Shared, byRule: bool, k: nat): nat {
    var counts := if byRule then s.byRuleId else s.byPriority;
    if k < |counts| then counts[k] else 0
  }

  /** How many threads have yet to add to counter `k`. */
  function Due(threads: seq<Counting>, byRule: bool, k: nat): nat {
    if threads == [] then 0
    else Due(threads[..|threads| - 1], byRule, k) + DueOf(threads[|threads| - 1], byRule, k)
  }

  function DueOf(thread: Counting, byRule: bool, k: nat): nat {
    if !thread.Outside? && Key(thread.rule, byRule) == k && !(byRule && thread.AtPriority?) then 1 else 0
  }

  lemma {:induction false} DueUpdate(threads: seq<Counting>, t: nat, thread: Counting, byRule: bool, k: nat)
    requires t < |threads|
    ensures Due(threads[t := thread], byRule, k) + DueOf(threads[t], byRule, k) == Due(threads, byRule, k) + DueOf(thread, byRule, k)
  {
    hide DueOf;
    var n := |threads| - 1;
    if t < n {
      DueUpdate(threads[..n], t, thread, byRule, k);
      assert threads[t := thread][..n] == threads[..n][t := thread];
    } else {
      assert threads[t := thread][..n] == threads[..n];
    }
  }

  lemma {:induction false} NothingDue(threads: seq<Counting>, byRule: bool, k: nat)
    requires forall t | 0 <= t < |threads| :: threads[t].Outside?
    ensures Due(threads, byRule, k) == 0
  {
    if threads != [] { NothingDue(threads[..|threads| - 1], byRule, k); }
  }

  /** The matches reported in a run that go to counter `k`: those of rules the counters cover. */
  function Reported(steps: seq<Step>, bounds: Bounds, byRule: bool, k: nat): nat
    decreases |steps|
  {
    if steps == [] then 0
    else
      (if steps[0].Enter? && bounds.Covers(steps[0].rule) && Key(steps[0].rule, byRule) == k then 1 else 0)
      + Reported(steps[1..], bounds, byRule, k)
  }

  lemma StepCounts(s: Shared, step: Step, byRule: bool, k: nat)
    requires Balanced(s) && Enabled(s, step)
    ensures var s', bounds := Next(s, step), Bounds(|s.byRuleId|, |s.byPriority|);
            && bounds == Bounds(|s'.byRuleId|, |s'.byPriority|)
            && Counter(s', byRule, k) + Due(s'.threads, byRule, k) ==
               Counter(s, byRule, k) + Due(s.threads, byRule, k)
               + (if step.Enter? && bounds.Covers(step.rule) && Key(step.rule, byRule) == k then 1 else 0)
  {
    hide Total, Ahead, Due;
    var s' := Next(s, step);
    DueUpdate(s.threads, step.t, s'.threads[step.t], byRule, k);
    assert s'.threads == s.threads[step.t := s'.threads[step.t]];
    if step.Add? {
      assert Bounds(|s.byRuleId|, |s.byPriority|).Covers(s.threads[step.t].rule);
    }
  }

  /** Over every interleaving: each counter grows by the matches reported for its rule or its priority, less those still
      being counted; so when no match is being counted it has grown by exactly these. */
  lemma {:induction false} EachIsCounted(s: Shared, steps: seq<Step>, byRule: bool, k: nat)
    requires Balanced(s) && Runs(s, steps)
    ensures var e, bounds := After(s, steps), Bounds(|s.byRuleId|, |s.byPriority|);
            && Counter(e, byRule, k) + Due(e.threads, byRule, k) ==
               Counter(s, byRule, k) + Due(s.threads, byRule, k) + Reported(steps, bounds, byRule, k)
            && ((forall t | 0 <= t < |e.threads| :: e.threads[t].Outside?) ==> Due(e.threads, byRule, k) == 0)
    decreases |steps|
  {
    hide Enabled, Next, Due, Counter, Balanced;
    if steps == [] {
      if forall t | 0 <= t < |s.threads| :: s.threads[t].Outside? { NothingDue(s.threads, byRule, k); }
    } else {
      StepKeepsBalance(s, steps[0]);
      StepCounts(s, steps[0], byRule, k);
      EachIsCounted(Next(s, steps[0]), steps[1..], byRule, k);
    }
  }
}
