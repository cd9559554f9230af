/** The event-type index over enabled rules (indexable_ruleset and evttype_index_ruleset). */
module Ruleset {
  import opened RulesetSpec

  // ----- Lists of wrappers

  ghost predicate Distinct(list: seq<Wrapper>) {
    forall i, k | 0 <= i < k < |list| :: list[i] != list[k]
  }

  /** add_wrapper_to_list */
  function Included(list: seq<Wrapper>, w: Wrapper): seq<Wrapper> {
    if w in list then list else list + [w]
  }

  /** remove_wrapper_from_list: erases the first occurrence. */
  function Excluded(list: seq<Wrapper>, w: Wrapper): seq<Wrapper> {
    if list == [] then []
    else if list[0] == w then list[1..]
    else [list[0]] + Excluded(list[1..], w)
  }

  lemma IncludedMembers(list: seq<Wrapper>, w: Wrapper)
    requires Distinct(list)
    ensures Distinct(Included(list, w))
    ensures forall x :: x in Included(list, w) <==> x in list || x == w
  {
  }

  lemma {:induction false} ExcludedMembers(list: seq<Wrapper>, w: Wrapper)
    requires Distinct(list)
    ensures Distinct(Excluded(list, w))
    ensures forall x :: x in Excluded(list, w) <==> x in list && x != w
  {
    if list != [] {
      ExcludedMembers(list[1..], w);
      assert list == [list[0]] + list[1..];
      assert Distinct(list[1..]);
      if list[0] == w {
        assert w !in list[1..];
      } else {
        assert list[0] !in list[1..];
      }
    }
  }

  lemma NothingExcluded(w: Wrapper)
    ensures Excluded([], w) == []
  {
  }

  /** The rules of a list whose filter accepts the event, in list order. */
  function Accepted(list: seq<Wrapper>, evt: Event): seq<Wrapper> {
    if list == [] then []
    else
      var n := |list| - 1;
      Accepted(list[..n], evt) + (if evt.accepts(list[n].filter) then [list[n]] else [])
  }

  function Rules(list: seq<Wrapper>): seq<Rule> {
    seq(|list|, i requires 0 <= i < |list| => list[i].rule)
  }

  lemma {:induction false} AcceptedMembers(list: seq<Wrapper>, evt: Event)
    requires Distinct(list)
    ensures Distinct(Accepted(list, evt))
    ensures forall x :: x in Accepted(list, evt) <==> x in list && evt.accepts(x.filter)
  {
    if list != [] {
      var n := |list| - 1;
      AcceptedMembers(list[..n], evt);
      assert list == list[..n] + [list[n]];
      assert list[n] !in list[..n];
    }
  }

  lemma {:induction false} AcceptedPrefix(list: seq<Wrapper>, evt: Event, k: nat)
    requires k <= |list|
    ensures Accepted(list[..k], evt) <= Accepted(list, evt)
  {
    if k < |list| {
      AcceptedPrefix(list[..|list| - 1], evt, k);
      assert list[..|list| - 1][..k] == list[..k];
    } else {
      assert list[..k] == list;
    }
  }

  lemma AcceptedNone(list: seq<Wrapper>, evt: Event)
    ensures list[..0] == [] && Accepted([], evt) == [] && Rules([]) == []
  {
  }

  lemma AcceptedNext(list: seq<Wrapper>, evt: Event, k: nat)
    requires k < |list|
    ensures Accepted(list[..k + 1], evt) == Accepted(list[..k], evt) + (if evt.accepts(list[k].filter) then [list[k]] else [])
    ensures Rules(Accepted(list[..k + 1], evt)) ==
            Rules(Accepted(list[..k], evt)) + (if evt.accepts(list[k].filter) then [list[k].rule] else [])
  {
    assert list[..k + 1][..k] == list[..k];
  }

  /** The list holds the enabled filters for one event type, each once. */
  ghost predicate TypedOk(list: seq<Wrapper>, filters: set<Wrapper>, t: nat) {
    Distinct(list) && forall w :: w in list <==> w in filters && t in w.codes
  }

  /** The list holds the enabled filters without event types, each once. */
  ghost predicate UntypedOk(list: seq<Wrapper>, filters: set<Wrapper>) {
    Distinct(list) && forall w :: w in list <==> w in filters && w.codes == {}
  }

  lemma TypedAdded(list: seq<Wrapper>, filters: set<Wrapper>, t: nat, w: Wrapper)
    requires TypedOk(list, filters, t)
    ensures TypedOk(if t in w.codes then Included(list, w) else list, filters + {w}, t)
  {
    hide Distinct, Included;
    IncludedMembers(list, w);
  }

  lemma TypedRemoved(list: seq<Wrapper>, filters: set<Wrapper>, t: nat, w: Wrapper)
    requires TypedOk(list, filters, t)
    ensures TypedOk(if t in w.codes then Excluded(list, w) else list, filters - {w}, t)
  {
    hide Distinct, Excluded;
    ExcludedMembers(list, w);
  }

  lemma UntypedChanged(list: seq<Wrapper>, filters: set<Wrapper>, w: Wrapper)
    requires UntypedOk(list, filters)
    ensures UntypedOk(if w.codes == {} then Included(list, w) else list, filters + {w})
    ensures UntypedOk(if w.codes == {} then Excluded(list, w) else list, filters - {w})
  {
    hide Distinct, Included, Excluded;
    IncludedMembers(list, w);
    ExcludedMembers(list, w);
  }

  // ----- One ruleset

  /** ruleset_filters: per event type a list of filters, a list of filters for all types, and the set of both. */
  class RulesetFilters {
    var byType: seq<seq<Wrapper>>
    var allTypes: seq<Wrapper>
    var filters: set<Wrapper>

    constructor ()
      ensures Valid() && filters == {} && allTypes == [] && forall t: nat :: Bucket(t) == []
    {
      byType, allTypes, filters := [], [], {};
    }

    ghost function Bucket(t: nat): seq<Wrapper>
      reads this
    {
      if t < |byType| then byType[t] else []
    }

    /** The three containers agree. */
    ghost predicate Valid()
      reads this
    {
      (forall t: nat :: TypedOk(Bucket(t), filters, t)) && UntypedOk(allTypes, filters)
    }

    method AddFilter(w: Wrapper)
      requires Valid()
      modifies this
      ensures Valid() && filters == old(filters) + {w}
      ensures forall t: nat :: Bucket(t) == if t in w.codes then Included(old(Bucket(t)), w) else old(Bucket(t))
      ensures allTypes == if w.codes == {} then Included(old(allTypes), w) else old(allTypes)
    {
      hide TypedOk, UntypedOk, Included;
      UntypedChanged(allTypes, filters, w);
      if w.codes == {} {
        allTypes := Included(allTypes, w);
      } else {
        var todo := w.codes;
        while todo != {}
          invariant todo <= w.codes && filters == old(filters) && allTypes == old(allTypes)
          invariant forall t: nat ::
            Bucket(t) == if t in w.codes && t !in todo then Included(old(Bucket(t)), w) else old(Bucket(t))
          decreases todo
        {
          var t :| t in todo;
          if |byType| <= t {
            Grow(t + 1);
          }
          byType := byType[t := Included(byType[t], w)];
          todo := todo - {t};
        }
      }
      filters := filters + {w};
      forall t: nat
        ensures TypedOk(Bucket(t), filters, t)
      {
        TypedAdded(old(Bucket(t)), old(filters), t, w);
      }
    }

    /** vector::resize to a larger size: the new lists are empty. */
    method Grow(n: nat)
      requires n > |byType|
      modifies `byType
      ensures |byType| == n && forall t: nat :: Bucket(t) == old(Bucket(t))
    {
      byType := byType + seq(n - |byType|, _ => []);
    }

    method RemoveFilter(w: Wrapper)
      requires Valid()
      modifies this
      ensures Valid() && filters == old(filters) - {w}
      ensures forall t: nat :: Bucket(t) == if t in w.codes then Excluded(old(Bucket(t)), w) else old(Bucket(t))
      ensures allTypes == if w.codes == {} then Excluded(old(allTypes), w) else old(allTypes)
    {
      hide TypedOk, UntypedOk, Excluded;
      UntypedChanged(allTypes, filters, w);
      NothingExcluded(w);
      if w.codes == {} {
        allTypes := Excluded(allTypes, w);
      } else {
        var todo := w.codes;
        while todo != {}
          invariant todo <= w.codes && filters == old(filters) && allTypes == old(allTypes)
          invariant forall t: nat ::
            Bucket(t) == if t in w.codes && t !in todo then Excluded(old(Bucket(t)), w) else old(Bucket(t))
          decreases todo
        {
          var t :| t in todo;
          if t < |byType| {
            byType := byType[t := Excluded(byType[t], w)];
          }
          todo := todo - {t};
        }
      }
      filters := filters - {w};
      forall t: nat
        ensures TypedOk(Bucket(t), filters, t)
      {
        TypedRemoved(old(Bucket(t)), old(filters), t, w);
      }
    }

    /** What an event matches here: the filters of its type, or if none of them accepts it the untyped ones. */
    ghost function Matching(evt: Event): seq<Wrapper>
      reads this
    {
      var typed := Accepted(Bucket(evt.kind), evt);
      if typed != [] then typed else Accepted(allTypes, evt)
    }

    method RunFirst(evt: Event) returns (found: bool, rule: Rule)
      ensures found <==> Matching(evt) != []
      ensures found ==> rule == Matching(evt)[0].rule
    {
      found, rule := false, Rule(0, "", "", 7, {});
      if evt.kind < |byType| && |byType[evt.kind]| > 0 {
        found, rule := RunWrappersFirst(evt, byType[evt.kind]);
        if found { return; }
      }
      if |allTypes| > 0 {
        found, rule := RunWrappersFirst(evt, allTypes);
      }
    }

    method RunAll(evt: Event, matches: seq<Rule>) returns (found: bool, matches': seq<Rule>)
      ensures found <==> Matching(evt) != []
      ensures matches' == matches + Rules(Matching(evt))
    {
      found, matches' := false, matches;
      if evt.kind < |byType| && |byType[evt.kind]| > 0 {
        found, matches' := RunWrappersAll(evt, byType[evt.kind], matches);
        if found { return; }
      }
      if |allTypes| > 0 {
        found, matches' := RunWrappersAll(evt, allTypes, matches');
      }
    }
  }

  method RunWrappersFirst(evt: Event, wrappers: seq<Wrapper>) returns (found: bool, rule: Rule)
    ensures found <==> Accepted(wrappers, evt) != []
    ensures found ==> rule == Accepted(wrappers, evt)[0].rule
  {
    var i := 0;
    assert wrappers[..0] == [];
    while i < |wrappers|
      invariant 0 <= i <= |wrappers| && Accepted(wrappers[..i], evt) == []
    {
      AcceptedNext(wrappers, evt, i);
      if evt.accepts(wrappers[i].filter) {
        AcceptedPrefix(wrappers, evt, i + 1);
        return true, wrappers[i].rule;
      }
      i := i + 1;
    }
    assert wrappers[..i] == wrappers;
    return false, Rule(0, "", "", 7, {});
  }

  method RunWrappersAll(evt: Event, wrappers: seq<Wrapper>, matches: seq<Rule>) returns (found: bool, matches': seq<Rule>)
    ensures found <==> Accepted(wrappers, evt) != []
    ensures matches' == matches + Rules(Accepted(wrappers, evt))
  {
    hide Accepted, Rules;
    found, matches' := false, matches;
    var i := 0;
    AcceptedNone(wrappers, evt);
    while i < |wrappers|
      invariant 0 <= i <= |wrappers|
      invariant found <==> Accepted(wrappers[..i], evt) != []
      invariant matches' == matches + Rules(Accepted(wrappers[..i], evt))
    {
      AcceptedNext(wrappers, evt, i);
      if evt.accepts(wrappers[i].filter) {
        matches' := matches' + [wrappers[i].rule];
        found := true;
      }
      i := i + 1;
    }
    assert wrappers[..i] == wrappers;
  }

  /** Running the generic index misses an enabled match exactly when both a typed and an untyped filter accept the event; then
      it finds the typed ones. */
  lemma GenericRunComplete(rs: RulesetFilters, evt: Event)
    requires rs.Valid()
    ensures (forall w | w in rs.filters && (evt.kind in w.codes || w.codes == {}) && evt.accepts(w.filter) :: w in rs.Matching(evt))
       <==> Accepted(rs.Bucket(evt.kind), evt) == [] || Accepted(rs.allTypes, evt) == []
    ensures (exists w | w in rs.filters :: evt.kind in w.codes && evt.accepts(w.filter)) ==>
              forall w | w in rs.Matching(evt) :: evt.kind in w.codes
  {
    var typed, untyped := Accepted(rs.Bucket(evt.kind), evt), Accepted(rs.allTypes, evt);
    assert TypedOk(rs.Bucket(evt.kind), rs.filters, evt.kind);
    AcceptedMembers(rs.Bucket(evt.kind), evt);
    AcceptedMembers(rs.allTypes, evt);
    hide Distinct, Accepted;
    if typed != [] && untyped != [] {
      var w := untyped[0];
      assert w in untyped && w !in typed;
    }
  }

  /** A bucket after one wrapper has been enabled or disabled. */
  function ToggledList(list: seq<Wrapper>, w: Wrapper, on: bool, t: nat): seq<Wrapper> {
    if t !in w.codes then list else if on then Included(list, w) else Excluded(list, w)
  }

  /** A bucket after the wrappers in `order` have been enabled or disabled one by one. */
  function Applied(list: seq<Wrapper>, order: seq<Wrapper>, on: bool, t: nat): seq<Wrapper> {
    if order == [] then list
    else ToggledList(Applied(list, order[..|order| - 1], on, t), order[|order| - 1], on, t)
  }

  lemma AppliedNext(list: seq<Wrapper>, order: seq<Wrapper>, on: bool, t: nat, w: Wrapper)
    ensures Applied(list, order + [w], on, t) == ToggledList(Applied(list, order, on, t), w, on, t)
  {
    hide ToggledList;
    assert (order + [w])[..|order|] == order;
  }

  lemma AppliedNone()
    ensures forall list, on, t :: Applied(list, [], on, t) == list
    ensures Lists([], {})
  {
  }

  function Toggled(enabled: set<Wrapper>, selected: set<Wrapper>, on: bool): set<Wrapper> {
    if on then enabled + selected else enabled - selected
  }

  lemma ToggledNone(enabled: set<Wrapper>, on: bool)
    ensures Toggled(enabled, {}, on) == enabled
  {
  }

  lemma ToggledNext(enabled: set<Wrapper>, done: set<Wrapper>, w: Wrapper, on: bool)
    ensures Toggled(enabled, done + {w}, on) ==
            if on then Toggled(enabled, done, on) + {w} else Toggled(enabled, done, on) - {w}
  {
  }

  lemma SelectedNext(known: set<Wrapper>, todo: set<Wrapper>, w: Wrapper, sel: Selector)
    requires w in todo && todo <= known
    ensures Selected(known - (todo - {w}), sel) ==
            if Selects(sel, w.rule) then Selected(known - todo, sel) + {w} else Selected(known - todo, sel)
    ensures w !in Selected(known - todo, sel)
  {
    hide Selects;
  }

  /** `order` lists the elements of the set, each once. */
  ghost predicate Lists(order: seq<Wrapper>, elements: set<Wrapper>) {
    Distinct(order) && forall w :: w in order <==> w in elements
  }

  lemma ListsNext(order: seq<Wrapper>, elements: set<Wrapper>, w: Wrapper)
    requires Lists(order, elements) && w !in elements
    ensures Lists(order + [w], elements + {w})
  {
  }

  // ----- All rulesets of a source

  /** evttype_index_ruleset on top of indexable_ruleset. `log` records the operations made so far. */
  class EvttypeRuleset {
    const pluginCode: nat
    const asyncCode: nat
    var rulesets: seq<RulesetFilters>
    var filters: set<Wrapper>
    var nextAddress: nat
    ghost var log: seq<Op>

    constructor (pluginCode: nat, asyncCode: nat)
      ensures Valid() && log == [] && rulesets == [] && this.pluginCode == pluginCode && this.asyncCode == asyncCode
    {
      this.pluginCode, this.asyncCode := pluginCode, asyncCode;
      rulesets, filters, nextAddress, log := [], {}, 0, [];
    }

    ghost predicate Valid()
      reads this, rulesets
    {
      && (forall i, k | 0 <= i < k < |rulesets| :: rulesets[i] != rulesets[k])
      && (forall i | 0 <= i < |rulesets| :: rulesets[i].Valid() && rulesets[i].filters == EnabledAfter(log, i))
      && (forall i: nat | |rulesets| <= i :: EnabledAfter(log, i) == {})
      && filters == KnownAfter(log)
      && (forall w | w in filters :: w.address < nextAddress && asyncCode in w.codes)
    }

    /** The object and all it is made of. */
    ghost predicate LivesIn(area: set<object>)
      reads this
    {
      this in area && forall r | r in rulesets :: r in area
    }

    ghost function ListAt(id: nat, t: nat): seq<Wrapper>
      reads this, rulesets
    {
      if id < |rulesets| then rulesets[id].Bucket(t) else []
    }

    /** add: a new wrapper whose event codes are never empty. */
    method Add(rule: Rule, filter: int, syscall: bool, conditionCodes: set<nat>) returns (w: Wrapper)
      requires Valid()
      modifies this
      ensures Valid() && rulesets == old(rulesets) && log == old(log) + [Op.Add(w)]
      ensures filters == old(filters) + {w} && w !in old(filters) && w.rule == rule && w.filter == filter
      ensures w.codes == (if syscall then conditionCodes else {pluginCode}) + {asyncCode}
    {
      hide EnabledAfter, KnownAfter;
      w := Wrapper(nextAddress, rule, (if syscall then conditionCodes else {pluginCode}) + {asyncCode}, filter);
      LogStep(log, Op.Add(w));
      nextAddress := nextAddress + 1;
      filters := filters + {w};
      log := log + [Op.Add(w)];
    }

    method Clear()
      requires Valid()
      modifies this
      ensures Valid() && log == old(log) + [Op.Clear]
      ensures |rulesets| == |old(rulesets)| && forall i | 0 <= i < |rulesets| :: fresh(rulesets[i])
    {
      hide EnabledAfter, KnownAfter;
      LogStep(log, Op.Clear);
      var i, n := 0, |rulesets|;
      var cleared: seq<RulesetFilters> := [];
      while i < n
        invariant 0 <= i <= n == |old(rulesets)| && |cleared| == i && unchanged(this)
        invariant forall k | 0 <= k < i :: fresh(cleared[k]) && cleared[k].Valid() && cleared[k].filters == {}
        invariant forall j, k | 0 <= j < k < i :: cleared[j] != cleared[k]
      {
        var r := new RulesetFilters();
        cleared := cleared + [r];
        i := i + 1;
      }
      rulesets := cleared;
      filters := {};
      log := log + [Op.Clear];
    }

    /** Ruleset ids come into being when they are first used. */
    method EnsureRuleset(id: nat)
      requires Valid()
      modifies `rulesets
      ensures Valid() && id < |rulesets| && |old(rulesets)| <= |rulesets|
      ensures forall i | 0 <= i < |old(rulesets)| :: rulesets[i] == old(rulesets[i])
      ensures forall i | |old(rulesets)| <= i < |rulesets| :: fresh(rulesets[i])
      ensures forall r: nat, t: nat :: ListAt(r, t) == old(ListAt(r, t))
    {
      hide EnabledAfter, KnownAfter;
      while |rulesets| < id + 1
        invariant Valid() && |old(rulesets)| <= |rulesets|
        invariant forall i | 0 <= i < |old(rulesets)| :: rulesets[i] == old(rulesets[i])
        invariant forall i | |old(rulesets)| <= i < |rulesets| :: fresh(rulesets[i])
        invariant forall r: nat, t: nat :: ListAt(r, t) == old(ListAt(r, t))
      {
        var r := new RulesetFilters();
        rulesets := rulesets + [r];
      }
    }

    method EnabledCount(id: nat) returns (n: nat)
      requires Valid()
      modifies `rulesets
      ensures Valid() && n == |EnabledAfter(log, id)|
      ensures forall i | 0 <= i < |rulesets| :: fresh(rulesets[i]) || rulesets[i] in old(rulesets)
      ensures forall r: nat, t: nat :: ListAt(r, t) == old(ListAt(r, t))
    {
      EnsureRuleset(id);
      n := |rulesets[id].filters|;
    }

    /** enable, disable, enable_tags and disable_tags: every known rule the selector matches is added to or removed
        from the ruleset, in the order the set happens to be iterated in. */
    method ToggleRules(sel: Selector, on: bool, id: nat) returns (ghost order: seq<Wrapper>)
      requires Valid()
      modifies this, rulesets
      ensures Valid() && filters == old(filters) && log == old(log) + [Toggle(sel, on, id)]
      ensures forall i | 0 <= i < |rulesets| :: fresh(rulesets[i]) || rulesets[i] in old(rulesets)
      ensures Lists(order, Selected(filters, sel))
      ensures forall r: nat, t: nat ::
        ListAt(r, t) == if r == id then Applied(old(ListAt(r, t)), order, on, t) else old(ListAt(r, t))
    {
      hide EnabledAfter, KnownAfter, Selects, Applied, Lists;
      EnsureRuleset(id);
      LogStep(log, Toggle(sel, on, id));
      order := ToggleIn(rulesets[id], sel, on);
      log := log + [Toggle(sel, on, id)];
    }

    method ToggleIn(target: RulesetFilters, sel: Selector, on: bool) returns (ghost order: seq<Wrapper>)
      requires target.Valid()
      modifies target
      ensures target.Valid() && target.filters == Toggled(old(target.filters), Selected(filters, sel), on)
      ensures Lists(order, Selected(filters, sel))
      ensures forall t: nat :: target.Bucket(t) == Applied(old(target.Bucket(t)), order, on, t)
    {
      hide Selects, Included, Excluded, Applied, TypedOk, UntypedOk, Lists, Toggled;
      order := [];
      AppliedNone();
      ToggledNone(target.filters, on);
      var todo := filters;
      assert Selected(filters - todo, sel) == {};
      while todo != {}
        invariant todo <= filters && target.Valid()
        invariant Lists(order, Selected(filters - todo, sel))
        invariant target.filters == Toggled(old(target.filters), Selected(filters - todo, sel), on)
        invariant forall t: nat :: target.Bucket(t) == Applied(old(target.Bucket(t)), order, on, t)
        decreases todo
      {
        var w :| w in todo;
        ghost var done := Selected(filters - todo, sel);
        SelectedNext(filters, todo, w, sel);
        if Selects(sel, w.rule) {
          ToggledNext(old(target.filters), done, w, on);
          ListsNext(order, done, w);
          forall t: nat
            ensures Applied(old(target.Bucket(t)), order + [w], on, t) == ToggledList(target.Bucket(t), w, on, t)
          {
            AppliedNext(old(target.Bucket(t)), order, on, t, w);
          }
          ToggleOne(target, w, on);
          order := order + [w];
        }
        todo := todo - {w};
      }
      assert filters - todo == filters;
    }

    static method ToggleOne(target: RulesetFilters, w: Wrapper, on: bool)
      requires target.Valid()
      modifies target
      ensures target.Valid() && target.filters == if on then old(target.filters) + {w} else old(target.filters) - {w}
      ensures forall t: nat :: target.Bucket(t) == ToggledList(old(target.Bucket(t)), w, on, t)
    {
      hide Included, Excluded, TypedOk, UntypedOk;
      if on {
        target.AddFilter(w);
      } else {
        target.RemoveFilter(w);
      }
    }

    /** The enabled rules an event matches: exactly those whose event codes contain its type and whose filter accepts
        it, each once. */
    ghost function Matching(evt: Event, id: nat): seq<Wrapper>
      reads this, rulesets
    {
      if id < |rulesets| then rulesets[id].Matching(evt) else []
    }

    lemma MatchingIsExact(evt: Event, id: nat)
      requires Valid()
      ensures Matching(evt, id) == Accepted(ListAt(id, evt.kind), evt)
      ensures Distinct(Matching(evt, id))
      ensures forall w :: w in Matching(evt, id) <==>
                w in EnabledAfter(log, id) && evt.kind in w.codes && evt.accepts(w.filter)
    {
      hide EnabledAfter, KnownAfter;
      if id < |rulesets| {
        var rs := rulesets[id];
        assert TypedOk(rs.Bucket(evt.kind), rs.filters, evt.kind);
        AcceptedMembers(rs.Bucket(evt.kind), evt);
        EnabledIsKnown(log, id);
        assert rs.allTypes != [] ==> rs.allTypes[0] in rs.filters && rs.allTypes[0].codes == {};
      }
    }

    method RunAll(evt: Event, id: nat, matches: seq<Rule>) returns (found: bool, matches': seq<Rule>)
      requires Valid()
      ensures found <==> Matching(evt, id) != []
      ensures matches' == matches + Rules(Matching(evt, id))
    {
      if |rulesets| < id + 1 {
        return false, matches;
      }
      found, matches' := rulesets[id].RunAll(evt, matches);
    }

    /** The first match is the head of all matches. */
    method RunFirst(evt: Event, id: nat) returns (found: bool, rule: Rule)
      requires Valid()
      ensures found <==> Matching(evt, id) != []
      ensures found ==> rule == Rules(Matching(evt, id))[0]
    {
      if |rulesets| < id + 1 {
        return false, Rule(0, "", "", 7, {});
      }
      found, rule := rulesets[id].RunFirst(evt);
    }
  }
}
