/** From the collected rules to the rules of each source, as values: what compile_rule_infos puts out, what
    add_compile_output takes from it, and what the loop of load_rules does to the buckets. */
module Loading {
  import opened Options
  import opened IndexedVectors
  import opened RulesetSpec
  import opened Ruleset

  const SYSCALL_SOURCE := "syscall"

  // ----- compile_rule_infos

  /** What compiling a rule comes to: a filter and its event codes, a rule skipped with a warning, or an error. */
  datatype Verdict = Compiles(filter: int, codes: set<nat>) | Skipped | Fails

  /** A collected rule. */
  datatype RuleInfo = RuleInfo(name: string, source: string, unknownSource: bool, priority: nat, tags: set<string>,
                               enabled: bool, verdict: Verdict)

  /** A rule the compiler put out, with its filter, the event codes of its condition, and whether it is to be enabled. */
  datatype CompiledRule = CompiledRule(rule: Rule, filter: int, codes: set<nat>, enabled: bool)

  /** What the collector guarantees: names are unique and not empty. */
  ghost predicate Collected(infos: seq<RuleInfo>) {
    && (forall i | 0 <= i < |infos| :: infos[i].name != "")
    && (forall i, k | 0 <= i < k < |infos| :: infos[i].name != infos[k].name)
  }

  predicate Broken(info: RuleInfo, sources: seq<string>) {
    !info.unknownSource && (info.source !in sources || info.verdict.Fails?)
  }

  /** The rules that are compiled, in order. */
  function Kept(infos: seq<RuleInfo>): seq<RuleInfo> {
    if infos == [] then []
    else
      var last := infos[|infos| - 1];
      Kept(infos[..|infos| - 1]) + (if !last.unknownSource && last.verdict.Compiles? then [last] else [])
  }

  lemma {:induction false} KeptNames(infos: seq<RuleInfo>)
    requires Collected(infos)
    ensures Collected(Kept(infos))
    ensures forall i | 0 <= i < |Kept(infos)| :: Kept(infos)[i] in infos
  {
    if infos != [] {
      KeptNames(infos[..|infos| - 1]);
    }
  }

  function CompiledAs(info: RuleInfo, id: nat): CompiledRule {
    var verdict := if info.verdict.Compiles? then info.verdict else Compiles(0, {});
    CompiledRule(Rule(id, info.name, info.source, info.priority, info.tags), verdict.filter, verdict.codes, info.enabled)
  }

  /** The compile output of the collected rules. */
  function Compiled(infos: seq<RuleInfo>): seq<CompiledRule> {
    var kept := Kept(infos);
    seq(|kept|, i requires 0 <= i < |kept| => CompiledAs(kept[i], i))
  }

  /** Rule ids are positions, names are unique and not empty, and every rule belongs to a known source. */
  ghost predicate CompileOutput(out: seq<CompiledRule>, sources: seq<string>) {
    && (forall i | 0 <= i < |out| :: out[i].rule.id == i && out[i].rule.name != "" && out[i].rule.source in sources)
    && (forall i, k | 0 <= i < k < |out| :: out[i].rule.name != out[k].rule.name)
  }

  lemma KeptNext(infos: seq<RuleInfo>, i: nat)
    requires i < |infos|
    ensures var last := infos[i];
            Kept(infos[..i + 1]) == Kept(infos[..i]) + (if !last.unknownSource && last.verdict.Compiles? then [last] else [])
  {
    assert infos[..i + 1][..i] == infos[..i];
  }

  // ----- What the compile output has to do with the collected rules

  /** A rule that is to be compiled: its source is known, and compiling it gives a filter. */
  predicate Wanted(info: RuleInfo) {
    !info.unknownSource && info.verdict.Compiles?
  }

  /** The entry has all that was collected of the rule. */
  predicate MadeOf(c: CompiledRule, info: RuleInfo) {
    && c.rule.name == info.name && c.rule.source == info.source && c.rule.priority == info.priority && c.rule.tags == info.tags
    && info.verdict == Compiles(c.filter, c.codes) && c.enabled == info.enabled
  }

  /** `places` tells for each entry which collected rule it was made of: each wanted rule once, in the order in which the
      rules were collected, and no other. */
  ghost predicate Placed(out: seq<CompiledRule>, infos: seq<RuleInfo>, places: seq<nat>) {
    && |places| == |out|
    && (forall i | 0 <= i < |out| :: places[i] < |infos| && Wanted(infos[places[i]]) && MadeOf(out[i], infos[places[i]]))
    && (forall i, k | 0 <= i < k < |places| :: places[i] < places[k])
    && (forall k: nat | k < |infos| && Wanted(infos[k]) :: k in places)
  }

  ghost predicate Translates(out: seq<CompiledRule>, infos: seq<RuleInfo>) {
    exists places :: Placed(out, infos, places)
  }

  lemma CompiledNext(infos: seq<RuleInfo>)
    requires infos != []
    ensures var n := |infos| - 1;
            var front := Compiled(infos[..n]);
            Compiled(infos) == if Wanted(infos[n]) then front + [CompiledAs(infos[n], |front|)] else front
  {
    hide CompiledAs;
  }

  lemma PlacedNext(out: seq<CompiledRule>, c: CompiledRule, infos: seq<RuleInfo>, places: seq<nat>)
    requires infos != [] && Placed(out, infos[..|infos| - 1], places)
    ensures !Wanted(infos[|infos| - 1]) ==> Placed(out, infos, places)
    ensures Wanted(infos[|infos| - 1]) && MadeOf(c, infos[|infos| - 1]) ==> Placed(out + [c], infos, places + [|infos| - 1])
  {
    hide MadeOf, Wanted;
    var n := |infos| - 1;
    assert forall k | 0 <= k < n :: infos[..n][k] == infos[k];
    assert forall k | k in places :: k in places + [n];
    assert (places + [n])[|places|] == n;
  }

  /** Every wanted rule has exactly one entry in the compile output, with everything that was collected of it; the order is
      kept, and there is nothing else. */
  lemma {:induction false} CompiledTranslates(infos: seq<RuleInfo>) returns (places: seq<nat>)
    ensures Placed(Compiled(infos), infos, places) && Translates(Compiled(infos), infos)
  {
    if infos == [] {
      places := [];
    } else {
      hide Compiled, Placed, MadeOf, CompiledAs;
      var n := |infos| - 1;
      places := CompiledTranslates(infos[..n]);
      CompiledNext(infos);
      var c := CompiledAs(infos[n], |Compiled(infos[..n])|);
      if Wanted(infos[n]) { CompiledIsMadeOf(infos[n], |Compiled(infos[..n])|); }
      PlacedNext(Compiled(infos[..n]), c, infos, places);
      if Wanted(infos[n]) { places := places + [n]; }
    }
  }

  lemma CompiledIsMadeOf(info: RuleInfo, id: nat)
    requires Wanted(info)
    ensures MadeOf(CompiledAs(info, id), info)
  {
  }

  /** The vector holds the compiled rules, each under its name. */
  ghost predicate Mirrors(rules: IndexedVector<CompiledRule>, kept: seq<RuleInfo>)
    reads rules
  {
    && rules.Valid() && |rules.entries| == |kept|
    && (forall k | 0 <= k < |kept| :: rules.names[k] == kept[k].name && rules.entries[k] == CompiledAs(kept[k], k))
  }

  /** Adds one compiled rule under the next free id. */
  method AddCompiled(rules: IndexedVector<CompiledRule>, info: RuleInfo, ghost kept: seq<RuleInfo>)
    requires Mirrors(rules, kept) && info.verdict.Compiles?
    requires forall k | 0 <= k < |kept| :: kept[k].name != info.name
    modifies rules
    ensures Mirrors(rules, kept + [info])
  {
    var rule := Rule(0, info.name, info.source, info.priority, info.tags);
    var c := CompiledRule(rule, info.verdict.filter, info.verdict.codes, info.enabled);
    var id := rules.Insert(c, info.name);
    rules.Set(id, c.(rule := rule.(id := id)));
  }

  /** compile_rule_infos: fails iff some rule of a known source does; else puts out the kept rules, numbered in order. */
  method CompileRules(sources: seq<string>, infos: seq<RuleInfo>) returns (ok: bool, out: seq<CompiledRule>)
    requires Collected(infos)
    ensures ok <==> forall i | 0 <= i < |infos| :: !Broken(infos[i], sources)
    ensures ok ==> out == Compiled(infos) && CompileOutput(out, sources) && Translates(out, infos)
  {
    hide Placed, Translates;
    var rules := new IndexedVector<CompiledRule>();
    var i := 0;
    ghost var kept: seq<RuleInfo> := [];
    while i < |infos|
      invariant 0 <= i <= |infos| && fresh(rules)
      invariant kept == Kept(infos[..i]) && Mirrors(rules, kept)
      invariant forall k | 0 <= k < i :: !Broken(infos[k], sources)
      invariant forall k | 0 <= k < |kept| :: kept[k].source in sources
    {
      hide Kept, Collected, Mirrors;
      var info := infos[i];
      KeptNext(infos, i);
      if Broken(info, sources) {
        return false, [];
      }
      if !info.unknownSource && info.verdict.Compiles? {
        NameIsNew(infos, i);
        AddCompiled(rules, info, kept);
        kept := kept + [info];
      }
      i := i + 1;
    }
    assert infos[..i] == infos;
    KeptNames(infos);
    ok, out := true, rules.entries;
    assert out == Compiled(infos);
    ghost var places := CompiledTranslates(infos);
  }

  lemma NameIsNew(infos: seq<RuleInfo>, i: nat)
    requires Collected(infos) && i < |infos|
    ensures forall k | 0 <= k < |Kept(infos[..i])| :: Kept(infos[..i])[k].name != infos[i].name
  {
    KeptNames(infos[..i]);
  }

  // ----- The rules of a source

  /** What a source takes from the compile output, and the two event codes its ruleset adds. */
  datatype Intake = Intake(source: string, min: nat, pluginCode: nat, asyncCode: nat)

  predicate Taken(c: CompiledRule, intake: Intake) {
    c.rule.priority <= intake.min && c.rule.source == intake.source
  }

  function CodesFor(c: CompiledRule, intake: Intake): set<nat> {
    (if intake.source == SYSCALL_SOURCE then c.codes else {intake.pluginCode}) + {intake.asyncCode}
  }

  ghost predicate WrapperOf(w: Wrapper, c: CompiledRule, intake: Intake) {
    Taken(c, intake) && w.rule == c.rule && w.filter == c.filter && w.codes == CodesFor(c, intake)
  }

  /** The wrappers are exactly the rules among the first `n` that the source takes, one each. */
  ghost predicate HoldsRules(filters: set<Wrapper>, out: seq<CompiledRule>, n: nat, intake: Intake)
    requires n <= |out|
  {
    && (forall w | w in filters :: w.rule.id < n && WrapperOf(w, out[w.rule.id], intake))
    && (forall v, w | v in filters && w in filters && v.rule.id == w.rule.id :: v == w)
    && (forall i | 0 <= i < n && Taken(out[i], intake) :: HasRule(filters, i))
  }

  ghost predicate HasRule(filters: set<Wrapper>, id: nat) {
    exists w :: w in filters && w.rule.id == id
  }

  lemma HoldsAdded(filters: set<Wrapper>, w: Wrapper, out: seq<CompiledRule>, n: nat, intake: Intake)
    requires n < |out| && HoldsRules(filters, out, n, intake) && out[n].rule.id == n && WrapperOf(w, out[n], intake)
    ensures HoldsRules(filters + {w}, out, n + 1, intake)
  {
    forall i | 0 <= i < n + 1 && Taken(out[i], intake)
      ensures HasRule(filters + {w}, i)
    {
      if i < n {
        assert HasRule(filters, i);
        var v :| v in filters && v.rule.id == i;
        assert v in filters + {w};
      } else {
        assert w in filters + {w};
      }
    }
  }

  /** Strictly increasing rule ids, all below `n`. */
  ghost predicate Ascending(list: seq<Wrapper>, n: nat) {
    && (forall i | 0 <= i < |list| :: list[i].rule.id < n)
    && (forall i, k | 0 <= i < k < |list| :: list[i].rule.id < list[k].rule.id)
  }

  lemma AscendingAppend(list: seq<Wrapper>, n: nat, w: Wrapper)
    requires Ascending(list, n) && w.rule.id == n
    ensures Included(list, w) == list + [w] && Ascending(list + [w], n + 1)
  {
  }

  lemma {:induction false} ExcludeAbsent(list: seq<Wrapper>, w: Wrapper)
    requires w !in list
    ensures Excluded(list, w) == list
  {
    if list != [] {
      ExcludeAbsent(list[1..], w);
      assert list == [list[0]] + list[1..];
    }
  }

  /** The wrappers of the rules below `n` that are to be enabled. */
  ghost function ToEnable(filters: set<Wrapper>, out: seq<CompiledRule>, n: nat): set<Wrapper> {
    set w | w in filters && w.rule.id < n && w.rule.id < |out| && out[w.rule.id].enabled
  }

  lemma ToEnableNext(filters: set<Wrapper>, out: seq<CompiledRule>, n: nat, intake: Intake, w: Wrapper)
    requires n < |out| && HoldsRules(filters, out, |out|, intake) && w in filters && w.rule.id == n
    ensures ToEnable(filters, out, n + 1) == Toggled(ToEnable(filters, out, n), {w}, out[n].enabled)
  {
    assert forall v | v in filters :: v.rule.id == n <==> v == w;
  }

  lemma ToEnableSame(filters: set<Wrapper>, out: seq<CompiledRule>, n: nat, intake: Intake)
    requires n < |out| && HoldsRules(filters, out, |out|, intake) && !Taken(out[n], intake)
    ensures ToEnable(filters, out, n + 1) == ToEnable(filters, out, n)
  {
  }

  /** The exact name of a rule selects that rule only. */
  lemma NameSelectsOne(filters: set<Wrapper>, out: seq<CompiledRule>, sources: seq<string>, intake: Intake, i: nat)
    returns (w: Wrapper)
    requires CompileOutput(out, sources) && HoldsRules(filters, out, |out|, intake) && i < |out| && Taken(out[i], intake)
    ensures w in filters && w.rule.id == i && Selected(filters, Exact(out[i].rule.name)) == {w}
  {
    hide Selects;
    assert HasRule(filters, i);
    w :| w in filters && w.rule.id == i;
    forall v | v in filters
      ensures Selects(Exact(out[i].rule.name), v.rule) <==> v == w
    {
      SelectsMeans(Exact(out[i].rule.name), v.rule);
      assert v.rule.name == out[v.rule.id].rule.name;
    }
  }

  lemma SingletonOrder(order: seq<Wrapper>, w: Wrapper)
    requires Lists(order, {w})
    ensures order == [w]
  {
    assert w in order;
    FrontMembers(order);
  }

  lemma FrontMembers(order: seq<Wrapper>)
    ensures |order| > 0 ==> order[0] in order
    ensures |order| > 1 ==> order[1] in order
  {
  }

  /** Enabling or disabling rule `i` by name in the loading loop puts it at the end of its buckets, or changes nothing. */
  lemma BucketStep(list: seq<Wrapper>, i: nat, w: Wrapper, on: bool, t: nat)
    requires Ascending(list, i) && w.rule.id == i
    ensures Ascending(Applied(list, [w], on, t), i + 1)
  {
    assert [w][..0] == [];
    assert Applied(list, [w], on, t) == ToggledList(list, w, on, t);
    if w in list { assert false; }
    AscendingAppend(list, i, w);
    ExcludeAbsent(list, w);
  }

  // ----- What a freshly loaded source matches

  /** The rule is enabled for the source and matches the event. */
  predicate Fires(c: CompiledRule, intake: Intake, evt: Event) {
    Taken(c, intake) && c.enabled && evt.kind in CodesFor(c, intake) && evt.accepts(c.filter)
  }

  /** A plain scan of the compile output. */
  function Firing(out: seq<CompiledRule>, intake: Intake, evt: Event): seq<Rule> {
    if out == [] then []
    else
      var last := out[|out| - 1];
      Firing(out[..|out| - 1], intake, evt) + (if Fires(last, intake, evt) then [last.rule] else [])
  }

  /** The scan finds a rule iff some rule fires, and its head is the one that was compiled first. */
  lemma {:induction false} FiringHead(out: seq<CompiledRule>, intake: Intake, evt: Event)
    ensures Firing(out, intake, evt) == [] <==> forall i | 0 <= i < |out| :: !Fires(out[i], intake, evt)
    ensures Firing(out, intake, evt) != [] ==>
              exists i :: 0 <= i < |out| && Firing(out, intake, evt)[0] == out[i].rule && Fires(out[i], intake, evt)
                && forall k | 0 <= k < i :: !Fires(out[k], intake, evt)
  {
    hide Fires;
    if out != [] {
      FiringHead(out[..|out| - 1], intake, evt);
      assert out[..|out| - 1] + [out[|out| - 1]] == out;
    }
  }

  lemma {:induction false} AcceptedAscending(list: seq<Wrapper>, evt: Event, n: nat)
    requires Ascending(list, n)
    ensures Ascending(Accepted(list, evt), n)
  {
    if list != [] {
      var last := list[|list| - 1];
      AcceptedAscending(list[..|list| - 1], evt, last.rule.id);
    }
  }

  /** The list holds the firing rules, each as the compile output has it. */
  ghost predicate Covers(list: seq<Wrapper>, out: seq<CompiledRule>, intake: Intake, evt: Event) {
    && Ascending(list, |out|)
    && (forall i | 0 <= i < |list| :: list[i].rule == out[list[i].rule.id].rule && Fires(out[list[i].rule.id], intake, evt))
    && (forall i | 0 <= i < |out| && Fires(out[i], intake, evt) :: HasId(list, i))
  }

  ghost predicate HasId(list: seq<Wrapper>, id: nat) {
    exists k :: 0 <= k < |list| && list[k].rule.id == id
  }

  lemma CoversShorter(list: seq<Wrapper>, out: seq<CompiledRule>, intake: Intake, evt: Event)
    requires Covers(list, out, intake, evt) && out != []
    ensures var n := |out| - 1;
            if Fires(out[n], intake, evt) then
              |list| > 0 && list[|list| - 1].rule == out[n].rule && Covers(list[..|list| - 1], out[..n], intake, evt)
            else Covers(list, out[..n], intake, evt)
  {
    hide Fires;
    var n := |out| - 1;
    if Fires(out[n], intake, evt) {
      assert HasId(list, n);
      var m := |list| - 1;
      assert list[m].rule.id == n;
      forall i | 0 <= i < n && Fires(out[..n][i], intake, evt)
        ensures HasId(list[..m], i)
      {
        assert HasId(list, i);
        var k :| 0 <= k < |list| && list[k].rule.id == i;
        assert list[..m][k].rule.id == i;
      }
    }
  }

  lemma RulesLast(list: seq<Wrapper>)
    requires list != []
    ensures Rules(list) == Rules(list[..|list| - 1]) + [list[|list| - 1].rule]
  {
  }

  /** A list of wrappers in ascending order that holds exactly the firing rules is the scan. */
  lemma {:induction false} AscendingIsFiring(list: seq<Wrapper>, out: seq<CompiledRule>, intake: Intake, evt: Event)
    requires Covers(list, out, intake, evt)
    ensures Rules(list) == Firing(out, intake, evt)
  {
    hide Fires, Rules, HasId;
    if out == [] {
      NoRules(list, out, intake, evt);
    } else {
      hide Covers;
      CoversShorter(list, out, intake, evt);
      if Fires(out[|out| - 1], intake, evt) {
        AscendingIsFiring(list[..|list| - 1], out[..|out| - 1], intake, evt);
        RulesLast(list);
      } else {
        AscendingIsFiring(list, out[..|out| - 1], intake, evt);
      }
    }
  }

  lemma NoRules(list: seq<Wrapper>, out: seq<CompiledRule>, intake: Intake, evt: Event)
    requires Covers(list, out, intake, evt) && out == []
    ensures Rules(list) == []
  {
    assert |list| > 0 ==> list[0].rule.id < |out|;
  }

  /** The buckets of a freshly loaded source find what the scan finds, in the same order. */
  lemma LoadedMatches(list: seq<Wrapper>, filters: set<Wrapper>, out: seq<CompiledRule>, intake: Intake, evt: Event)
    requires HoldsRules(filters, out, |out|, intake) && Ascending(list, |out|)
    requires TypedOk(list, ToEnable(filters, out, |out|), evt.kind)
    requires forall i | 0 <= i < |out| :: out[i].rule.id == i
    ensures Rules(Accepted(list, evt)) == Firing(out, intake, evt)
  {
    hide Firing, Rules, Accepted;
    var found := Accepted(list, evt);
    AcceptedMembers(list, evt);
    AcceptedAscending(list, evt, |out|);
    forall i | 0 <= i < |found|
      ensures found[i].rule == out[found[i].rule.id].rule && Fires(out[found[i].rule.id], intake, evt)
    {
      assert found[i] in found;
    }
    forall i | 0 <= i < |out| && Fires(out[i], intake, evt)
      ensures HasId(found, i)
    {
      assert HasRule(filters, i);
      var w :| w in filters && w.rule.id == i;
      assert w in found;
    }
    AscendingIsFiring(found, out, intake, evt);
  }
}
