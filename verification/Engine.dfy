/** Loading rules, and running events through the rulesets of a source (falco_engine). */
module Engine {
  import opened Options
  import opened IndexedVectors
  import opened RulesetSpec
  import opened Ruleset
  import opened Stats
  import opened Loading
  import M = MacroCompiler

  /** A ruleset in the middle of loading: the rules below `n` have been enabled or disabled in the default ruleset, and none
      are enabled in any other. */
  ghost predicate LoadedUpTo(rs: EvttypeRuleset, out: seq<CompiledRule>, n: nat, intake: Intake, default: nat)
    reads rs, rs.rulesets
  {
    && rs.Valid() && rs.pluginCode == intake.pluginCode && rs.asyncCode == intake.asyncCode
    && HoldsRules(rs.filters, out, |out|, intake)
    && EnabledAfter(rs.log, default) == ToEnable(rs.filters, out, n)
    && (forall r: nat | r != default :: EnabledAfter(rs.log, r) == {})
    && (forall t: nat :: Ascending(rs.ListAt(default, t), n))
  }

  lemma NothingEnabled(rs: EvttypeRuleset, out: seq<CompiledRule>, intake: Intake, default: nat)
    requires rs.Valid() && rs.rulesets == [] && rs.pluginCode == intake.pluginCode && rs.asyncCode == intake.asyncCode
    requires HoldsRules(rs.filters, out, |out|, intake)
    ensures LoadedUpTo(rs, out, 0, intake, default)
  {
    hide EnabledAfter, KnownAfter;
  }

  /** add_compile_output: a new ruleset takes the rules of its source, none of them enabled yet. */
  method NewRuleset(out: seq<CompiledRule>, intake: Intake, ghost default: nat) returns (rs: EvttypeRuleset)
    requires forall i | 0 <= i < |out| :: out[i].rule.id == i
    ensures fresh(rs) && rs.rulesets == [] && LoadedUpTo(rs, out, 0, intake, default)
  {
    hide EnabledAfter, KnownAfter;
    rs := new EvttypeRuleset(intake.pluginCode, intake.asyncCode);
    assert rs.filters == {} by { assert KnownAfter([]) == {} by { EmptyLog(); } }
    var i := 0;
    while i < |out|
      invariant 0 <= i <= |out| && fresh(rs) && rs.Valid() && rs.rulesets == []
      invariant HoldsRules(rs.filters, out, i, intake)
    {
      hide HoldsRules;
      if Taken(out[i], intake) {
        ghost var before := rs.filters;
        var w := rs.Add(out[i].rule, out[i].filter, intake.source == SYSCALL_SOURCE, out[i].codes);
        HoldsAdded(before, w, out, i, intake);
      } else {
        HoldsSkipped(rs.filters, out, i, intake);
      }
      i := i + 1;
    }
    NothingEnabled(rs, out, intake, default);
  }

  lemma EmptyLog()
    ensures KnownAfter([]) == {}
  {
  }

  lemma HoldsSkipped(filters: set<Wrapper>, out: seq<CompiledRule>, n: nat, intake: Intake)
    requires n < |out| && HoldsRules(filters, out, n, intake) && !Taken(out[n], intake)
    ensures HoldsRules(filters, out, n + 1, intake)
  {
  }

  /** The loop of load_rules, seen from the source of rule `i`. */
  method LoadOne(rs: EvttypeRuleset, ghost area: set<object>, out: seq<CompiledRule>, i: nat, default: nat,
                 ghost intake: Intake, ghost sources: seq<string>)
    returns (ghost area': set<object>)
    requires CompileOutput(out, sources) && i < |out| && Taken(out[i], intake)
    requires rs.LivesIn(area) && LoadedUpTo(rs, out, i, intake, default)
    modifies area
    ensures area <= area' && fresh(area' - area)
    ensures rs.LivesIn(area') && LoadedUpTo(rs, out, i + 1, intake, default)
  {
    hide EnabledAfter, KnownAfter, HoldsRules, ToEnable, Selects, Applied, Lists, Ascending, CompileOutput;
    ghost var w := NameSelectsOne(rs.filters, out, sources, intake, i);
    var sel := Exact(out[i].rule.name);
    LogStep(rs.log, Toggle(sel, out[i].enabled, default));
    ToEnableNext(rs.filters, out, i, intake, w);
    ghost var order := rs.ToggleRules(sel, out[i].enabled, default);
    SingletonOrder(order, w);
    forall t: nat
      ensures Ascending(rs.ListAt(default, t), i + 1)
    {
      BucketStep(old(rs.ListAt(default, t)), i, w, out[i].enabled, t);
    }
    area' := area + set r | r in rs.rulesets;
  }

  /** The loop of load_rules, seen from any other source. */
  lemma LoadedNext(rs: EvttypeRuleset, out: seq<CompiledRule>, i: nat, intake: Intake, default: nat)
    requires i < |out| && !Taken(out[i], intake) && LoadedUpTo(rs, out, i, intake, default)
    ensures LoadedUpTo(rs, out, i + 1, intake, default)
  {
    hide EnabledAfter, KnownAfter;
    ToEnableSame(rs.filters, out, i, intake);
    hide ToEnable;
  }

  // ----- All sources

  datatype Source = Source(name: string, ruleset: EvttypeRuleset)

  /** The engine's settings that a load depends on. */
  datatype Setup = Setup(min: nat, pluginCode: nat, asyncCode: nat, default: nat) {
    function For(source: string): Intake {
      Intake(source, min, pluginCode, asyncCode)
    }
  }

  ghost predicate Disjoint(areas: seq<set<object>>) {
    forall j, k | 0 <= j < k < |areas| :: areas[j] !! areas[k]
  }

  ghost function Union(areas: seq<set<object>>): set<object> {
    set k, o | 0 <= k < |areas| && o in areas[k] :: o
  }

  ghost predicate SourceLoaded(src: Source, area: set<object>, out: seq<CompiledRule>, n: nat, setup: Setup)
    reads area
  {
    src.ruleset in area && src.ruleset.LivesIn(area) && LoadedUpTo(src.ruleset, out, n, setup.For(src.name), setup.default)
  }

  /** Every source keeps to its own objects. */
  ghost predicate AllLoaded(entries: seq<Source>, areas: seq<set<object>>, out: seq<CompiledRule>, n: nat, setup: Setup)
    reads Union(areas)
  {
    && |areas| == |entries| && Disjoint(areas)
    && forall k | 0 <= k < |entries| :: SourceLoaded(entries[k], areas[k], out, n, setup)
  }

  /** Every source is found under its own name. */
  ghost predicate Named(sources: IndexedVector<Source>)
    reads sources
  {
    sources.Valid() && forall k | 0 <= k < |sources.entries| :: sources.entries[k].name == sources.names[k]
  }

  /** The first loop of load_rules: each source gets a new ruleset. */
  method CreateRulesets(sources: IndexedVector<Source>, out: seq<CompiledRule>, setup: Setup)
    returns (ghost areas: seq<set<object>>)
    requires Named(sources) && CompileOutput(out, sources.names)
    modifies sources`entries
    ensures Named(sources) && |sources.entries| == |old(sources.entries)|
    ensures forall k | 0 <= k < |areas| :: fresh(areas[k])
    ensures AllLoaded(sources.entries, areas, out, 0, setup)
  {
    hide LoadedUpTo, CompileOutput;
    IdsArePositions(out, sources.names);
    areas := [];
    var k := 0;
    while k < |sources.entries|
      invariant 0 <= k <= |sources.entries| == |old(sources.entries)| && Named(sources)
      invariant |areas| == k && Disjoint(areas)
      invariant forall j | 0 <= j < k :: fresh(areas[j]) && SourceLoaded(sources.entries[j], areas[j], out, 0, setup)
    {
      var src := sources.entries[k];
      var rs := NewRuleset(out, setup.For(src.name), setup.default);
      sources.Set(k, src.(ruleset := rs));
      areas := areas + [{rs}];
      k := k + 1;
    }
  }

  lemma IdsArePositions(out: seq<CompiledRule>, sources: seq<string>)
    requires CompileOutput(out, sources)
    ensures forall i | 0 <= i < |out| :: out[i].rule.id == i && out[i].rule.source in sources
  {
  }

  /** The areas grew by new objects only. */
  twostate predicate Grown(areas: seq<set<object>>, new areas': seq<set<object>>) {
    |areas| == |areas'| && forall k | 0 <= k < |areas| :: areas[k] <= areas'[k] && fresh(areas'[k] - areas[k])
  }

  /** One turn of the second loop of load_rules, on the rulesets. */
  method EnableDefault(sources: IndexedVector<Source>, ghost areas: seq<set<object>>, out: seq<CompiledRule>, i: nat,
                       setup: Setup)
    returns (ok: bool, ghost areas': seq<set<object>>)
    requires Named(sources) && CompileOutput(out, sources.names) && i < |out|
    requires sources !in Union(areas) && AllLoaded(sources.entries, areas, out, i, setup)
    modifies Union(areas)
    ensures ok && Grown(areas, areas') && AllLoaded(sources.entries, areas', out, i + 1, setup)
  {
    hide LoadedUpTo, CompileOutput;
    IdsArePositions(out, sources.names);
    areas' := areas;
    var found := sources.Find(out[i].rule.source);
    if found.None? {
      return false, areas;
    }
    var k := found.value;
    var src := sources.entries[k];
    forall j | 0 <= j < |areas| && !Taken(out[i], setup.For(sources.entries[j].name))
      ensures SourceLoaded(sources.entries[j], areas[j], out, i + 1, setup)
    {
      LoadedNext(sources.entries[j].ruleset, out, i, setup.For(sources.entries[j].name), setup.default);
    }
    if out[i].rule.priority <= setup.min {
      assert SourceLoaded(src, areas[k], out, i, setup);
      ghost var area := LoadOne(src.ruleset, areas[k], out, i, setup.default, setup.For(src.name), sources.names);
      areas' := areas[k := area];
    }
    ok := true;
  }

  /** The engine holds the first `n` compiled rules under their ids and names. */
  ghost predicate KnowsRules(rules: IndexedVector<Rule>, out: seq<CompiledRule>, n: nat)
    reads rules
  {
    && rules.Valid() && n <= |out| && |rules.entries| == n
    && forall k | 0 <= k < n :: rules.entries[k] == out[k].rule && rules.names[k] == out[k].rule.name
  }

  /** One turn of the second loop of load_rules, on the engine's rules; `ok` unless the ids differ. */
  method InsertRule(rules: IndexedVector<Rule>, out: seq<CompiledRule>, i: nat, ghost sources: seq<string>) returns (ok: bool)
    requires CompileOutput(out, sources) && i < |out| && KnowsRules(rules, out, i)
    modifies rules
    ensures ok && KnowsRules(rules, out, i + 1)
  {
    var id := rules.Insert(out[i].rule, out[i].rule.name);
    ok := id == out[i].rule.id;
  }

  /** The part of load_rules behind a successful compilation; not `ok` means it has thrown. */
  method LoadInto(sources: IndexedVector<Source>, rules: IndexedVector<Rule>, out: seq<CompiledRule>, setup: Setup)
    returns (ok: bool, ghost areas: seq<set<object>>)
    requires Named(sources) && rules.Valid() && sources as object != rules && CompileOutput(out, sources.names)
    modifies sources`entries, rules
    ensures ok && Named(sources) && |sources.entries| == |old(sources.entries)|
    ensures forall k | 0 <= k < |areas| :: fresh(areas[k])
    ensures AllLoaded(sources.entries, areas, out, |out|, setup) && KnowsRules(rules, out, |out|)
  {
    hide AllLoaded, CompileOutput, Named;
    rules.Clear();
    areas := CreateRulesets(sources, out, setup);
    var i := 0;
    ok := true;
    while i < |out|
      invariant 0 <= i <= |out| && ok && Named(sources) && |sources.entries| == |old(sources.entries)|
      invariant forall k | 0 <= k < |areas| :: fresh(areas[k])
      invariant AllLoaded(sources.entries, areas, out, i, setup) && KnowsRules(rules, out, i)
    {
      hide KnowsRules;
      ok := InsertRule(rules, out, i, sources.names);
      if !ok {
        return;
      }
      ok, areas := EnableDefault(sources, areas, out, i, setup);
      if !ok {
        return;
      }
      i := i + 1;
    }
  }

  method LoadStats(stats: StatsManager, rules: seq<Rule>)
    modifies stats
    ensures stats.Valid() && stats.total == 0
    ensures forall i | 0 <= i < |rules| :: stats.Reach().Covers(rules[i])
  {
    stats.Clear();
    var i := 0;
    while i < |rules|
      invariant 0 <= i <= |rules| && stats.Valid() && stats.total == 0
      invariant forall k | 0 <= k < i :: stats.Reach().Covers(rules[k])
    {
      stats.OnRuleLoaded(rules[i]);
      i := i + 1;
    }
  }

  /** Right after a load, the default ruleset of a source finds exactly what a plain scan of its compiled rules finds,
      in the order of their ids. */
  lemma MatchesAfterLoad(src: Source, area: set<object>, out: seq<CompiledRule>, sources: seq<string>, setup: Setup, evt: Event)
    requires CompileOutput(out, sources) && SourceLoaded(src, area, out, |out|, setup)
    ensures Rules(src.ruleset.Matching(evt, setup.default)) == Firing(out, setup.For(src.name), evt)
  {
    hide EnabledAfter, KnownAfter, Rules, Accepted, Firing, HoldsRules, Ascending, ToEnable;
    var rs := src.ruleset;
    rs.MatchingIsExact(evt, setup.default);
    IdsArePositions(out, sources);
    BucketIsTyped(rs, setup.default, evt.kind);
    LoadedMatches(rs.ListAt(setup.default, evt.kind), rs.filters, out, setup.For(src.name), evt);
  }

  lemma BucketIsTyped(rs: EvttypeRuleset, id: nat, t: nat)
    requires rs.Valid()
    ensures TypedOk(rs.ListAt(id, t), EnabledAfter(rs.log, id), t)
  {
    hide EnabledAfter, KnownAfter;
    if id < |rs.rulesets| {
      assert rs.rulesets[id].Valid();
    }
  }

  // ----- The engine

  const DEFAULT_RULESET := "falco-default-ruleset"

  /** The rules file: it cannot be read, or it has macros (None if the condition of one cannot be parsed) and rules. */
  datatype LoadInput = ReadFails | Reads(macros: Option<seq<M.MacroInfo>>, infos: seq<RuleInfo>) {
    ghost predicate Collected() {
      Reads? ==> Loading.Collected(infos) && (macros.Some? ==> M.Collected(macros.value))
    }

    /** Everything compiles: the macros can all be resolved, and no rule of a known source is broken. */
    ghost predicate Compiles(sources: seq<string>) {
      Reads? && macros.Some? && M.Resolvable(macros.value) && forall i | 0 <= i < |infos| :: !Broken(infos[i], sources)
    }
  }

  /** compile_macros_infos, as far as the engine looks at it. */
  method MacrosCompile(macros: Option<seq<M.MacroInfo>>) returns (ok: bool)
    requires macros.Some? ==> M.Collected(macros.value)
    ensures ok <==> macros.Some? && M.Resolvable(macros.value)
  {
    hide *;
    if macros.None? {
      return false;
    }
    var compiled;
    ok, compiled := M.CompileMacros(macros.value);
  }

  datatype LoadOutcome = Loaded | Failed | LoadThrew

  datatype Processed = UnknownSource | NoMatch | Matches(rules: seq<Rule>) | CountThrew

  /** A source of a running engine: whatever its rulesets hold can be counted. */
  ghost predicate SourceOk(src: Source, area: set<object>, reach: Bounds)
    reads area
  {
    && src.ruleset in area && src.ruleset.LivesIn(area) && src.ruleset.Valid()
    && forall w | w in src.ruleset.filters :: reach.Covers(w.rule)
  }

  /** The sources of a running engine keep to their own objects. */
  ghost predicate AllOk(entries: seq<Source>, areas: seq<set<object>>, reach: Bounds)
    reads Union(areas)
  {
    && |areas| == |entries| && Disjoint(areas)
    && forall k | 0 <= k < |areas| :: SourceOk(entries[k], areas[k], reach)
  }

  lemma LoadedIsOk(src: Source, area: set<object>, out: seq<CompiledRule>, setup: Setup, reach: Bounds)
    requires SourceLoaded(src, area, out, |out|, setup)
    requires forall i | 0 <= i < |out| :: reach.Covers(out[i].rule)
    ensures SourceOk(src, area, reach)
  {
    hide EnabledAfter, KnownAfter;
  }

  class FalcoEngine {
    const pluginCode: nat
    const asyncCode: nat
    const sources: IndexedVector<Source>
    const rules: IndexedVector<Rule>
    const stats: StatsManager
    var knownRulesets: map<string, nat>
    var nextRulesetId: nat
    var minPriority: nat
    ghost var areas: seq<set<object>>

    constructor (pluginCode: nat, asyncCode: nat, minPriority: nat)
      ensures Valid() && fresh(sources) && fresh(rules) && fresh(stats) && areas == []
      ensures sources.entries == [] && rules.entries == [] && stats.total == 0
      ensures Settings() == Setup(minPriority, pluginCode, asyncCode, 0)
    {
      this.pluginCode, this.asyncCode, this.minPriority := pluginCode, asyncCode, minPriority;
      sources := new IndexedVector<Source>();
      rules := new IndexedVector<Rule>();
      stats := new StatsManager();
      knownRulesets, nextRulesetId := map[DEFAULT_RULESET := 0], 1;
      areas := [];
    }

    /** Different ruleset names have different ids. */
    ghost predicate RulesetIds()
      reads `knownRulesets, `nextRulesetId
    {
      && DEFAULT_RULESET in knownRulesets
      && (forall a | a in knownRulesets :: knownRulesets[a] < nextRulesetId)
      && (forall a, b | a in knownRulesets && b in knownRulesets && a != b :: knownRulesets[a] != knownRulesets[b])
    }

    ghost predicate Valid()
      reads this, sources, rules, stats, Union(areas)
    {
      && Named(sources) && rules.Valid() && stats.Valid() && RulesetIds()
      && sources as object != rules && sources as object != stats && rules as object != stats
      && {this, sources, rules, stats} !! Union(areas)
      && AllOk(sources.entries, areas, stats.Reach())
    }

    ghost function Settings(): Setup
      requires RulesetIds()
      reads this
    {
      Setup(minPriority, pluginCode, asyncCode, knownRulesets[DEFAULT_RULESET])
    }

    method FindRulesetId(name: string) returns (id: nat)
      requires RulesetIds()
      modifies `knownRulesets, `nextRulesetId
      ensures RulesetIds() && name in knownRulesets && id == knownRulesets[name]
      ensures forall a | a in old(knownRulesets) :: a in knownRulesets && knownRulesets[a] == old(knownRulesets[a])
    {
      if name !in knownRulesets {
        knownRulesets := knownRulesets[name := nextRulesetId];
        nextRulesetId := nextRulesetId + 1;
      }
      id := knownRulesets[name];
    }

    /** load_rules: never throws, and a failed load leaves rules, rulesets and counters as they were. */
    method LoadRules(input: LoadInput) returns (outcome: LoadOutcome)
      requires Valid() && input.Collected()
      modifies `areas, sources`entries, rules, stats
      ensures Valid() && !outcome.LoadThrew?
      ensures outcome.Loaded? <==> input.Compiles(sources.names)
      ensures outcome.Failed? ==> areas == old(areas) && unchanged(sources) && unchanged(rules) && unchanged(stats)
      ensures outcome.Loaded? ==>
                var out := Compiled(input.infos);
                && CompileOutput(out, sources.names) && KnowsRules(rules, out, |out|)
                && AllLoaded(sources.entries, areas, out, |out|, Settings())
                && stats.total == 0
    {
      hide AllLoaded, KnowsRules, AllOk, CompileOutput, Kept, Compiled, Loading.Collected, Broken, M.Collected, M.Resolvable;
      if input.ReadFails? {
        return Failed;
      }
      var resolved := MacrosCompile(input.macros);
      if !resolved {
        return Failed;
      }
      var names := SourceNames(sources);
      var ok, out := CompileRules(names, input.infos);
      if !ok {
        return Failed;
      }
      var setup := Setup(minPriority, pluginCode, asyncCode, knownRulesets[DEFAULT_RULESET]);
      var loaded;
      loaded, areas := LoadInto(sources, rules, out, setup);
      if !loaded {
        return LoadThrew;
      }
      assert stats !in Union(areas);
      LoadStats(stats, rules.entries);
      assert AllLoaded(sources.entries, areas, out, |out|, setup);
      assert KnowsRules(rules, out, |out|);
      assert forall i | 0 <= i < |rules.entries| :: stats.Reach().Covers(rules.entries[i]);
      AllLoadedIsOk(sources.entries, areas, rules, out, setup, stats.Reach());
      return Loaded;
    }

    /** add_source: a source of that name starts over with an empty ruleset, other sources stay. */
    method AddSource(name: string) returns (id: nat)
      requires Valid()
      modifies `areas, sources
      ensures Valid() && id < |sources.entries| && sources.names[id] == name
      ensures sources.names == if name in old(sources.names) then old(sources.names) else old(sources.names) + [name]
      ensures sources.entries[id].ruleset.log == []
      ensures forall k | 0 <= k < |old(sources.entries)| && k != id :: sources.entries[k] == old(sources.entries[k])
    {
      hide SourceOk, AllOk, Total, RulesetIds;
      ghost var before, entries := areas, sources.entries;
      var src, area := EmptySource(name, pluginCode, asyncCode, stats.Reach());
      id := sources.Insert(src, name);
      areas := SourceReplaced(entries, before, stats.Reach(), id, src, area);
    }

    /** enable_rule, enable_rule_exact, enable_rule_wildcard and enable_rule_by_tag: the selector is applied to every
        source, in the ruleset of that name. */
    method EnableRules(sel: Selector, on: bool, ruleset: string)
      requires Valid()
      modifies `knownRulesets, `nextRulesetId, `areas, Union(areas)
      ensures Valid() && ruleset in knownRulesets
      ensures forall k | 0 <= k < |sources.entries| ::
                sources.entries[k].ruleset.log == old(sources.entries[k].ruleset.log) + [Toggle(sel, on, knownRulesets[ruleset])]
    {
      hide AllOk, Total, Named;
      var id := FindRulesetId(ruleset);
      areas := ToggleAll(sources.entries, areas, stats.Reach(), sel, on, id);
    }

    /** process_event: the matches are those of the source's ruleset, all of them or the first one, and each is counted
        once under its rule and its priority. No match is ever refused by the counters. */
    method ProcessEvent(source: nat, evt: Event, ruleset: nat, all: bool) returns (res: Processed)
      requires Valid()
      modifies stats
      ensures Valid() && !res.CountThrew? && (res.UnknownSource? <==> source >= |sources.entries|)
      ensures !res.UnknownSource? ==>
                var found := Rules(sources.entries[source].ruleset.Matching(evt, ruleset));
                res == if found == [] then NoMatch else Matches(if all then found else [found[0]])
      ensures Counted(stats, if res.Matches? then res.rules else [])
    {
      hide AllOk, Total, Named, RulesetIds, Rules, Ids, Priorities;
      NothingCounted(stats);
      if source >= |sources.entries| {
        return UnknownSource;
      }
      SourceMatches(sources.entries, areas, stats.Reach(), source, evt, ruleset);
      var rules := RunSource(sources.entries[source].ruleset, evt, ruleset, all);
      if rules == [] {
        return NoMatch;
      }
      ghost var found := sources.entries[source].ruleset.Matching(evt, ruleset);
      var ok := CountAll(stats, rules);
      assert found == sources.entries[source].ruleset.Matching(evt, ruleset);
      res := if ok then Matches(rules) else CountThrew;
    }
  }

  method RunSource(rs: EvttypeRuleset, evt: Event, ruleset: nat, all: bool) returns (rules: seq<Rule>)
    requires rs.Valid()
    ensures var found := Rules(rs.Matching(evt, ruleset)); rules == if found == [] || all then found else [found[0]]
  {
    hide EnabledAfter, KnownAfter, Accepted;
    var found;
    if all {
      found, rules := rs.RunAll(evt, ruleset, []);
    } else {
      var rule;
      found, rule := rs.RunFirst(evt, ruleset);
      rules := if found then [rule] else [];
    }
  }

  twostate lemma NothingCounted(stats: StatsManager)
    requires unchanged(stats)
    ensures Counted(stats, [])
  {
  }

  /** The counters grew by exactly these rules. */
  twostate predicate Counted(stats: StatsManager, new rules: seq<Rule>)
    reads stats
  {
    && stats.total == old(stats.total) + |rules|
    && |stats.byRuleId| == |old(stats.byRuleId)| && |stats.byPriority| == |old(stats.byPriority)|
    && (forall i | 0 <= i < |stats.byRuleId| :: stats.byRuleId[i] == old(stats.byRuleId)[i] + multiset(Ids(rules))[i])
    && (forall i | 0 <= i < |stats.byPriority| ::
          stats.byPriority[i] == old(stats.byPriority)[i] + multiset(Priorities(rules))[i])
  }

  function Ids(rules: seq<Rule>): seq<nat> {
    seq(|rules|, i requires 0 <= i < |rules| => rules[i].id)
  }

  function Priorities(rules: seq<Rule>): seq<nat> {
    seq(|rules|, i requires 0 <= i < |rules| => rules[i].priority)
  }

  lemma CountNext(rules: seq<Rule>, k: nat)
    requires k < |rules|
    ensures Ids(rules[..k + 1]) == Ids(rules[..k]) + [rules[k].id]
    ensures Priorities(rules[..k + 1]) == Priorities(rules[..k]) + [rules[k].priority]
  {
  }

  /** The counting loop of process_event; `ok` unless a rule is out of bounds. */
  method CountAll(stats: StatsManager, rules: seq<Rule>) returns (ok: bool)
    requires stats.Valid() && forall i | 0 <= i < |rules| :: stats.Reach().Covers(rules[i])
    modifies stats
    ensures ok && stats.Valid() && stats.Reach() == old(stats.Reach()) && Counted(stats, rules)
  {
    hide Total, Ids, Priorities;
    var k := 0;
    ok := true;
    NoneCounted(rules);
    while k < |rules|
      invariant 0 <= k <= |rules| && stats.Valid() && ok && Counted(stats, rules[..k])
    {
      CountNext(rules, k);
      ok := stats.OnEvent(rules[k]);
      if !ok {
        return;
      }
      k := k + 1;
    }
    assert rules[..k] == rules;
  }

  lemma NoneCounted(rules: seq<Rule>)
    ensures rules[..0] == [] && Ids([]) == [] && Priorities([]) == []
  {
  }

  /** What a source matches can be counted. */
  lemma SourceMatches(entries: seq<Source>, areas: seq<set<object>>, reach: Bounds, k: nat, evt: Event, id: nat)
    requires AllOk(entries, areas, reach) && k < |entries|
    ensures entries[k].ruleset in Union(areas) && entries[k].ruleset.Valid()
    ensures forall r | r in entries[k].ruleset.rulesets :: r in Union(areas)
    ensures var found := Rules(entries[k].ruleset.Matching(evt, id)); forall i | 0 <= i < |found| :: reach.Covers(found[i])
  {
    hide EnabledAfter, KnownAfter, Accepted;
    assert SourceOk(entries[k], areas[k], reach);
    var rs := entries[k].ruleset;
    var found := rs.Matching(evt, id);
    rs.MatchingIsExact(evt, id);
    EnabledIsKnown(rs.log, id);
    forall i | 0 <= i < |found|
      ensures reach.Covers(found[i].rule)
    {
      assert found[i] in found;
    }
  }

  method EmptySource(name: string, pluginCode: nat, asyncCode: nat, ghost reach: Bounds)
    returns (src: Source, ghost area: set<object>)
    ensures src.name == name && fresh(area) && src.ruleset in area && src.ruleset.log == [] && SourceOk(src, area, reach)
  {
    var rs := new EvttypeRuleset(pluginCode, asyncCode);
    src, area := Source(name, rs), {rs};
  }

  method ToggleSource(src: Source, ghost area: set<object>, ghost reach: Bounds, sel: Selector, on: bool, id: nat)
    returns (ghost area': set<object>)
    requires SourceOk(src, area, reach)
    modifies area
    ensures area <= area' && fresh(area' - area) && SourceOk(src, area', reach)
    ensures src.ruleset.log == old(src.ruleset.log) + [Toggle(sel, on, id)]
  {
    hide Selects, Applied, Lists, KnownAfter, EnabledAfter;
    ghost var order := src.ruleset.ToggleRules(sel, on, id);
    area' := area + set r | r in src.ruleset.rulesets;
  }

  method ToggleAll(entries: seq<Source>, ghost areas: seq<set<object>>, ghost reach: Bounds, sel: Selector, on: bool,
                   id: nat)
    returns (ghost areas': seq<set<object>>)
    requires AllOk(entries, areas, reach)
    modifies Union(areas)
    ensures Grown(areas, areas') && AllOk(entries, areas', reach)
    ensures forall k | 0 <= k < |entries| :: entries[k].ruleset.log == old(entries[k].ruleset.log) + [Toggle(sel, on, id)]
  {
    RulesetsInside(entries, areas, reach);
    hide SourceOk;
    areas' := areas;
    var k := 0;
    while k < |entries|
      invariant 0 <= k <= |entries| && Grown(areas, areas') && AllOk(entries, areas', reach)
      invariant forall j | k <= j < |areas| :: areas'[j] == areas[j]
      invariant forall j | k <= j < |areas| :: forall o | o in areas[j] :: unchanged(o)
      invariant forall j | 0 <= j < k :: entries[j].ruleset.log == old(entries[j].ruleset.log) + [Toggle(sel, on, id)]
    {
      ghost var area := ToggleSource(entries[k], areas'[k], reach, sel, on, id);
      areas' := areas'[k := area];
      k := k + 1;
    }
  }

  lemma RulesetsInside(entries: seq<Source>, areas: seq<set<object>>, reach: Bounds)
    requires |entries| == |areas| && forall k | 0 <= k < |areas| :: SourceOk(entries[k], areas[k], reach)
    ensures forall k | 0 <= k < |areas| :: entries[k].ruleset in areas[k]
  {
  }

  ghost function SourceReplaced(entries: seq<Source>, areas: seq<set<object>>, reach: Bounds, id: nat, src: Source,
                                area: set<object>): (areas': seq<set<object>>)
    requires AllOk(entries, areas, reach) && SourceOk(src, area, reach) && area !! Union(areas) && id <= |entries|
    reads Union(areas), area
    ensures AllOk(if id < |entries| then entries[id := src] else entries + [src], areas', reach)
    ensures Union(areas') <= Union(areas) + area
  {
    if id < |areas| then areas[id := area] else areas + [area]
  }

  method SourceNames(sources: IndexedVector<Source>) returns (names: seq<string>)
    requires Named(sources)
    ensures names == sources.names
  {
    names := seq(|sources.entries|, k requires 0 <= k < |sources.entries| reads sources => sources.entries[k].name);
  }

  lemma AllLoadedIsOk(entries: seq<Source>, areas: seq<set<object>>, rules: IndexedVector<Rule>, out: seq<CompiledRule>,
                      setup: Setup, reach: Bounds)
    requires AllLoaded(entries, areas, out, |out|, setup) && KnowsRules(rules, out, |out|)
    requires forall i | 0 <= i < |rules.entries| :: reach.Covers(rules.entries[i])
    ensures rules.Valid() && AllOk(entries, areas, reach)
  {
    hide SourceLoaded, SourceOk, CompileOutput;
    forall k | 0 <= k < |areas|
      ensures SourceOk(entries[k], areas[k], reach)
    {
      LoadedIsOk(entries[k], areas[k], out, setup, reach);
    }
  }
}
