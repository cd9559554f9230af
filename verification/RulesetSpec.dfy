/** What enabling and disabling rules means, independently of the index (the contract of filter_ruleset). */
module RulesetSpec {
  import opened Text
  import opened Wildcard

  datatype Rule = Rule(id: nat, name: string, source: string, priority: nat, tags: set<string>)

  /** evttype_index_wrapper. The address is the identity of the shared object; `filter` names the compiled filter. */
  datatype Wrapper = Wrapper(address: nat, rule: Rule, codes: set<nat>, filter: int)

  /** An event: its type, and which compiled filters accept it. */
  datatype Event = Event(kind: nat, accepts: int -> bool)

  /** How an operation selects rules. */
  datatype Selector =
    | Exact(pattern: string)
    | Substring(pattern: string)
    | Wildcarded(pattern: string)
    | Tagged(tags: set<string>)

  predicate Selects(sel: Selector, r: Rule) {
    match sel
    case Exact(pattern) => pattern == "" || (Find(r.name, pattern, 0) == 0 && |pattern| == |r.name|)
    case Substring(pattern) => pattern == "" || Find(r.name, pattern, 0) != -1
    case Wildcarded(pattern) => MatchesWildcard(pattern, r.name)
    case Tagged(tags) => tags * r.tags != {}
  }

  /** The selectors mean what the interface says. */
  lemma SelectsMeans(sel: Selector, r: Rule)
    ensures sel.Exact? ==> (Selects(sel, r) <==> sel.pattern == "" || sel.pattern == r.name)
    ensures sel.Substring? ==> (Selects(sel, r) <==> exists i :: At(r.name, sel.pattern, i))
    ensures sel.Wildcarded? && Open(sel.pattern) ==> (Selects(sel, r) <==> Glob(sel.pattern, r.name))
    ensures sel.Tagged? ==> (Selects(sel, r) <==> exists t :: t in sel.tags && t in r.tags)
  {
    hide MatchesWildcard, Glob, Open;
    match sel
    case Exact(pattern) =>
      assert r.name[0..|r.name|] == r.name;
      if pattern == r.name { assert At(r.name, pattern, 0); }
    case Substring(pattern) =>
      if pattern == "" { assert At(r.name, pattern, 0); }
    case Wildcarded(pattern) => ExactIffOpen(pattern);
    case Tagged(tags) =>
      if t :| t in tags && t in r.tags { assert t in tags * r.tags; }
  }

  // ----- Histories of operations

  datatype Op =
    | Add(wrap: Wrapper)
    | Toggle(sel: Selector, on: bool, ruleset: nat)
    | Clear

  function Selected(known: set<Wrapper>, sel: Selector): set<Wrapper> {
    set w | w in known && Selects(sel, w.rule)
  }

  function KnownNext(known: set<Wrapper>, op: Op): set<Wrapper> {
    match op
    case Add(w) => known + {w}
    case Toggle(_, _, _) => known
    case Clear => {}
  }

  function EnabledNext(enabled: set<Wrapper>, known: set<Wrapper>, op: Op, ruleset: nat): set<Wrapper> {
    match op
    case Add(_) => enabled
    case Clear => {}
    case Toggle(sel, on, r) =>
      if r != ruleset then enabled
      else if on then enabled + Selected(known, sel)
      else enabled - Selected(known, sel)
  }

  /** The rules known after a history. */
  function KnownAfter(log: seq<Op>): set<Wrapper> {
    if log == [] then {} else KnownNext(KnownAfter(log[..|log| - 1]), log[|log| - 1])
  }

  /** The rules enabled in a ruleset after a history. */
  function EnabledAfter(log: seq<Op>, ruleset: nat): set<Wrapper> {
    if log == [] then {}
    else
      var front := log[..|log| - 1];
      EnabledNext(EnabledAfter(front, ruleset), KnownAfter(front), log[|log| - 1], ruleset)
  }

  lemma LogStep(log: seq<Op>, op: Op)
    ensures KnownAfter(log + [op]) == KnownNext(KnownAfter(log), op)
    ensures forall r: nat :: EnabledAfter(log + [op], r) == EnabledNext(EnabledAfter(log, r), KnownAfter(log), op, r)
  {
    hide KnownNext, EnabledNext;
    assert (log + [op])[..|log|] == log;
  }

  /** Operation `i` of the history enables (or disables) `w` in the ruleset: its selector matches and `w` is known. */
  predicate Touches(log: seq<Op>, i: nat, ruleset: nat, w: Wrapper, on: bool) {
    && i < |log| && log[i].Toggle? && log[i].ruleset == ruleset && log[i].on == on
    && Selects(log[i].sel, w.rule) && w in KnownAfter(log[..i])
  }

  /** Operation `i` takes `w` out of the ruleset. */
  predicate Undoes(log: seq<Op>, i: nat, ruleset: nat, w: Wrapper) {
    i < |log| && (log[i].Clear? || Touches(log, i, ruleset, w, false))
  }

  /** The last word: `i` enables `w` and nothing after it takes it out again. */
  predicate LastWord(log: seq<Op>, i: nat, ruleset: nat, w: Wrapper) {
    Touches(log, i, ruleset, w, true) && forall k | i < k < |log| :: !Undoes(log, k, ruleset, w)
  }

  lemma PrefixSame(log: seq<Op>, i: nat, ruleset: nat, w: Wrapper)
    requires i < |log| - 1
    ensures var front := log[..|log| - 1];
            && (Touches(log, i, ruleset, w, true) <==> Touches(front, i, ruleset, w, true))
            && (Undoes(log, i, ruleset, w) <==> Undoes(front, i, ruleset, w))
  {
    hide Selects, KnownAfter;
    assert log[..|log| - 1][..i] == log[..i];
  }

  predicate KeptBehind(log: seq<Op>, i: nat) {
    forall k | i < k < |log| :: !log[k].Clear?
  }

  /** A rule is known iff it was added and nothing was cleared since. */
  lemma {:induction false} KnownIffAdded(log: seq<Op>, w: Wrapper)
    ensures w in KnownAfter(log) <==> exists i: nat :: i < |log| && log[i] == Add(w) && KeptBehind(log, i)
  {
    if log != [] {
      var n := |log| - 1;
      var front := log[..n];
      KnownIffAdded(front, w);
      assert KeptBehind(log, n);
      if i: nat :| i < n && front[i] == Add(w) && KeptBehind(front, i) {
        if !log[n].Clear? { assert log[i] == Add(w) && KeptBehind(log, i); }
      }
      if i: nat :| i < |log| && log[i] == Add(w) && KeptBehind(log, i) {
        if i < n { assert front[i] == Add(w) && KeptBehind(front, i); }
      }
    }
  }

  lemma {:induction false} EnabledIsKnown(log: seq<Op>, ruleset: nat)
    ensures EnabledAfter(log, ruleset) <= KnownAfter(log)
  {
    hide Selects;
    if log != [] { EnabledIsKnown(log[..|log| - 1], ruleset); }
  }

  /** A rule is enabled in a ruleset iff the last operation on that ruleset that concerned it was an enable. */
  lemma {:induction false} LastOpWins(log: seq<Op>, ruleset: nat, w: Wrapper)
    ensures w in EnabledAfter(log, ruleset) <==> exists i: nat :: LastWord(log, i, ruleset, w)
  {
    hide Selects;
    if log != [] {
      var n := |log| - 1;
      var front := log[..n];
      LastOpWins(front, ruleset, w);
      EnabledIsKnown(front, ruleset);
      forall i: nat | i < n
        ensures LastWord(log, i, ruleset, w) <==> LastWord(front, i, ruleset, w) && !Undoes(log, n, ruleset, w)
      {
        LastWordInPrefix(log, i, ruleset, w);
      }
      assert log[..n] == front;
      if w in EnabledAfter(log, ruleset) {
        if Touches(log, n, ruleset, w, true) {
          assert LastWord(log, n, ruleset, w);
        } else {
          var i: nat :| LastWord(front, i, ruleset, w);
          assert LastWord(log, i, ruleset, w);
        }
      }
      if i: nat :| LastWord(log, i, ruleset, w) {
        if i < n { assert LastWord(front, i, ruleset, w); }
      }
    }
  }

  lemma LastWordInPrefix(log: seq<Op>, i: nat, ruleset: nat, w: Wrapper)
    requires i < |log| - 1
    ensures LastWord(log, i, ruleset, w) <==>
            LastWord(log[..|log| - 1], i, ruleset, w) && !Undoes(log, |log| - 1, ruleset, w)
  {
    hide Touches, Undoes;
    var front := log[..|log| - 1];
    PrefixSame(log, i, ruleset, w);
    forall k: nat | k < |log| - 1
      ensures Undoes(log, k, ruleset, w) <==> Undoes(front, k, ruleset, w)
    {
      PrefixSame(log, k, ruleset, w);
    }
  }

  /** Operations on other rulesets leave a ruleset alone. */
  lemma {:induction false} OtherRulesetsApart(log: seq<Op>, more: seq<Op>, ruleset: nat)
    requires forall i | 0 <= i < |more| :: more[i].Toggle? && more[i].ruleset != ruleset
    ensures EnabledAfter(log + more, ruleset) == EnabledAfter(log, ruleset)
  {
    hide Selects;
    if more == [] {
      assert log + more == log;
    } else {
      var n := |more| - 1;
      assert (log + more)[..|log + more| - 1] == log + more[..n];
      OtherRulesetsApart(log, more[..n], ruleset);
    }
  }
}
