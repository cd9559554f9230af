/** From the collector to the macro compiler (rule_loader), and from there to the events a loaded rule matches. */
module Pipeline {
  import opened Options
  import opened FilterAst
  import opened CollectorSpec
  import C = Collector
  import M = MacroCompiler
  import R = MacroResolver
  import RulesetSpec
  import Ruleset
  import Loading
  import Engine

  /** The collected macros with their conditions parsed. */
  function MacroInfos(entries: seq<C.Info<string>>, parse: string -> Expr): seq<M.MacroInfo> {
    seq(|entries|, i requires 0 <= i < |entries| =>
      M.MacroInfo(entries[i].name, parse(entries[i].body), entries[i].index, entries[i].visibility))
  }

  /** Whatever was collected meets what the compiler asks for, as long as the clock has not reached its limit. */
  lemma MacrosAreCollected(c: C.Collector, parse: string -> Expr)
    requires c.Valid() && c.curIndex <= M.MAX_VISIBILITY
    ensures M.Collected(MacroInfos(c.macros.entries, parse))
  {
    hide EntryAfter, Clock;
    forall i | 0 <= i < |c.macros.entries|
      ensures c.macros.entries[i].index < M.MAX_VISIBILITY
    {
      C.EntryAt(c.macros, c.log, MacroKind, C.MacroHolds, i);
      IndexBehindClock(c.log, MacroKind, c.macros.names[i]);
    }
    forall i, k | 0 <= i < k < |c.macros.entries|
      ensures c.macros.entries[i].name != c.macros.entries[k].name
    {
      C.PositionIsUnique(c.macros, i);
      C.EntryAt(c.macros, c.log, MacroKind, C.MacroHolds, i);
      C.EntryAt(c.macros, c.log, MacroKind, C.MacroHolds, k);
    }
  }

  /** If the macros compile, then in the history of definitions every macro was first defined before the last change of
      each macro that mentions it. */
  lemma ReferencesWereDefinedBefore(c: C.Collector, parse: string -> Expr, j: nat, x: string)
    requires c.Valid() && c.curIndex <= M.MAX_VISIBILITY && j < |c.macros.entries|
    requires M.Compile(MacroInfos(c.macros.entries, parse)).Some? && Mentions(parse(c.macros.entries[j].body), x)
    ensures var mentioned, mentioning := EntryAfter(c.log, MacroKind, x), EntryAfter(c.log, MacroKind, c.macros.names[j]);
            mentioned.Some? && mentioning.Some? && mentioned.value.index < mentioning.value.visibility
  {
    hide EntryAfter, Clock, Mentions, M.Compile;
    var infos := MacroInfos(c.macros.entries, parse);
    MacrosAreCollected(c, parse);
    M.DirectReferencesVisible(infos, j, x);
    var i :| 0 <= i < |infos| && infos[i].name == x && infos[i].index < infos[j].visibility;
    C.EntryAt(c.macros, c.log, MacroKind, C.MacroHolds, i);
    C.EntryAt(c.macros, c.log, MacroKind, C.MacroHolds, j);
  }

  // ----- From the raw condition to the matching event

  /** A condition without names means the same under every reading of names. */
  lemma {:induction false} ClosedIgnoresNames(e: Expr, env: string -> bool, env': string -> bool, checks: int -> bool)
    requires M.Closed(e)
    ensures Holds(e, env, checks) == Holds(e, env', checks)
    decreases e
  {
    match e
    case And(cs) =>
      forall c | c in cs
        ensures Holds(c, env, checks) == Holds(c, env', checks)
      {
        ClosedIgnoresNames(c, env, env', checks);
      }
    case Or(cs) =>
      forall c | c in cs
        ensures Holds(c, env, checks) == Holds(c, env', checks)
      {
        ClosedIgnoresNames(c, env, env', checks);
      }
    case Not(c) => ClosedIgnoresNames(c, env, env', checks);
    case Check(_) =>
  }

  /** The resolved condition of a rule. */
  function Resolved(cond: Expr, macros: seq<M.MacroInfo>, outs: seq<Expr>): R.Outcome
    requires |outs| == |macros|
  {
    R.Resolve(cond, [], M.Table(macros, outs, M.MAX_VISIBILITY))
  }

  /** The compiled rules were resolved against the compiled macros without a name left over, and their filters were made from
      the result. `cond` gives the parsed condition of each rule, `made` what a filter was made from. */
  ghost predicate MadeFrom(out: seq<Loading.CompiledRule>, macros: seq<M.MacroInfo>, cond: string -> Expr, made: int -> Expr) {
    && M.Compile(macros).Some? && |M.Compile(macros).value| == |macros|
    && forall i | 0 <= i < |out| ::
         var o := Resolved(cond(out[i].rule.name), macros, M.Compile(macros).value);
         o.unknown == [] && made(out[i].filter) == o.expr
  }

  /** An event is accepted by a filter iff it passes the checks of what the filter was made from. */
  ghost predicate Evaluates(evt: RulesetSpec.Event, made: int -> Expr, checks: int -> bool) {
    forall f :: evt.accepts(f) <==> Holds(made(f), _ => false, checks)
  }

  /** A filter accepts an event iff the raw condition of its rule holds. */
  lemma AcceptsIffRaw(out: seq<Loading.CompiledRule>, macros: seq<M.MacroInfo>, cond: string -> Expr, made: int -> Expr,
                      evt: RulesetSpec.Event, env: string -> bool, checks: int -> bool, i: nat)
    requires M.Collected(macros) && MadeFrom(out, macros, cond, made) && Evaluates(evt, made, checks)
    requires R.Models(env, checks, M.Raw(macros)) && i < |out|
    ensures evt.accepts(out[i].filter) <==> Holds(cond(out[i].rule.name), env, checks)
  {
    hide M.Compile, M.Raw, R.Models, R.Resolve, M.Closed, M.Unfold, Holds;
    var c := cond(out[i].rule.name);
    M.RuleConditionUnfolds(macros, c);
    var u := made(out[i].filter);
    var depth: nat :| M.Unfold(depth, c, M.Raw(macros)) == u;
    M.UnfoldMeans(depth, c, M.Raw(macros), env, checks);
    ClosedIgnoresNames(u, env, _ => false, checks);
  }

  /** The rule a collected rule becomes, without its number. */
  function AsRule(info: Loading.RuleInfo): RulesetSpec.Rule {
    RulesetSpec.Rule(0, info.name, info.source, info.priority, info.tags)
  }

  function Unnumbered(rules: seq<RulesetSpec.Rule>): seq<RulesetSpec.Rule> {
    seq(|rules|, i requires 0 <= i < |rules| => rules[i].(id := 0))
  }

  /** The event is one the rule listens to: an asynchronous one, or one of the types of its condition, or for a plugin the
      plugin event. */
  predicate Listens(info: Loading.RuleInfo, source: string, setup: Engine.Setup, kind: nat) {
    || kind == setup.asyncCode
    || (if source == "syscall" then info.verdict.Compiles? && kind in info.verdict.codes else kind == setup.pluginCode)
  }

  /** The collected rule compiles, belongs to the source, is enabled and important enough, listens to the event, and its raw
      condition holds on it. */
  predicate RawFires(info: Loading.RuleInfo, source: string, setup: Engine.Setup, kind: nat, cond: string -> Expr,
                     env: string -> bool, checks: int -> bool)
  {
    && !info.unknownSource && info.verdict.Compiles?
    && info.source == source && info.enabled && info.priority <= setup.min
    && Listens(info, source, setup, kind) && Holds(cond(info.name), env, checks)
  }

  /** The collected rules that fire, in the order in which they were collected. */
  function RawFiring(infos: seq<Loading.RuleInfo>, source: string, setup: Engine.Setup, kind: nat, cond: string -> Expr,
                     env: string -> bool, checks: int -> bool): seq<RulesetSpec.Rule>
  {
    if infos == [] then []
    else
      var last := infos[|infos| - 1];
      RawFiring(infos[..|infos| - 1], source, setup, kind, cond, env, checks)
      + (if RawFires(last, source, setup, kind, cond, env, checks) then [AsRule(last)] else [])
  }

  /** Filters judge by the raw conditions of their rules. */
  ghost predicate JudgesRaw(out: seq<Loading.CompiledRule>, evt: RulesetSpec.Event, cond: string -> Expr,
                            env: string -> bool, checks: int -> bool)
  {
    forall i | 0 <= i < |out| :: evt.accepts(out[i].filter) <==> Holds(cond(out[i].rule.name), env, checks)
  }

  lemma OneFires(info: Loading.RuleInfo, id: nat, source: string, setup: Engine.Setup, evt: RulesetSpec.Event,
                 cond: string -> Expr, env: string -> bool, checks: int -> bool)
    requires Loading.Wanted(info)
    requires var c := Loading.CompiledAs(info, id); evt.accepts(c.filter) <==> Holds(cond(c.rule.name), env, checks)
    ensures var c := Loading.CompiledAs(info, id);
            && c.rule.(id := 0) == AsRule(info)
            && (Loading.Fires(c, setup.For(source), evt) <==> RawFires(info, source, setup, evt.kind, cond, env, checks))
  {
    hide Holds;
  }

  lemma FiringNext(out: seq<Loading.CompiledRule>, c: Loading.CompiledRule, intake: Loading.Intake, evt: RulesetSpec.Event)
    ensures Unnumbered(Loading.Firing(out + [c], intake, evt)) ==
            Unnumbered(Loading.Firing(out, intake, evt)) + (if Loading.Fires(c, intake, evt) then [c.rule.(id := 0)] else [])
  {
    hide Loading.Fires;
    assert (out + [c])[..|out|] == out;
  }

  /** The scan of the compile output finds the collected rules that fire. */
  lemma {:induction false} FiringIsRaw(infos: seq<Loading.RuleInfo>, source: string, setup: Engine.Setup,
                                       evt: RulesetSpec.Event, cond: string -> Expr, env: string -> bool, checks: int -> bool)
    requires JudgesRaw(Loading.Compiled(infos), evt, cond, env, checks)
    ensures Unnumbered(Loading.Firing(Loading.Compiled(infos), setup.For(source), evt)) ==
            RawFiring(infos, source, setup, evt.kind, cond, env, checks)
  {
    if infos != [] {
      hide Loading.Compiled, Loading.Firing, Loading.Fires, Loading.CompiledAs, RawFires, Unnumbered, AsRule, Holds;
      var n := |infos| - 1;
      var front := Loading.Compiled(infos[..n]);
      Loading.CompiledNext(infos);
      assert Loading.Wanted(infos[n]) || !RawFires(infos[n], source, setup, evt.kind, cond, env, checks) by {
        UnwantedIsSilent(infos[n], source, setup, evt.kind, cond, env, checks);
      }
      assert forall i | 0 <= i < |front| :: front[i] == Loading.Compiled(infos)[i];
      FiringIsRaw(infos[..n], source, setup, evt, cond, env, checks);
      if Loading.Wanted(infos[n]) {
        var c := Loading.CompiledAs(infos[n], |front|);
        assert Loading.Compiled(infos)[|front|] == c;
        OneFires(infos[n], |front|, source, setup, evt, cond, env, checks);
        FiringNext(front, c, setup.For(source), evt);
      }
    } else {
      assert Loading.Compiled(infos) == [];
    }
  }

  lemma UnwantedIsSilent(info: Loading.RuleInfo, source: string, setup: Engine.Setup, kind: nat, cond: string -> Expr,
                         env: string -> bool, checks: int -> bool)
    ensures RawFires(info, source, setup, kind, cond, env, checks) ==> Loading.Wanted(info)
  {
  }

  /** After a load, an event matches exactly the collected rules that are enabled, of that source, within the minimum priority,
      listen to the type of the event, and whose raw condition holds on it, in the order in which they were collected: under
      every reading of the macro names that agrees with the raw definitions. */
  lemma LoadedRulesMeanRaw(src: Engine.Source, area: set<object>, infos: seq<Loading.RuleInfo>, sources: seq<string>,
                           setup: Engine.Setup, evt: RulesetSpec.Event, macros: seq<M.MacroInfo>, cond: string -> Expr,
                           made: int -> Expr, env: string -> bool, checks: int -> bool)
    requires var out := Loading.Compiled(infos);
             && Loading.CompileOutput(out, sources) && Engine.SourceLoaded(src, area, out, |out|, setup)
             && M.Collected(macros) && MadeFrom(out, macros, cond, made)
    requires Evaluates(evt, made, checks) && R.Models(env, checks, M.Raw(macros))
    ensures Unnumbered(Ruleset.Rules(src.ruleset.Matching(evt, setup.default))) ==
            RawFiring(infos, src.name, setup, evt.kind, cond, env, checks)
  {
    hide MadeFrom, Evaluates, R.Models, M.Collected, M.Raw, Ruleset.Rules, Loading.Firing, Loading.Compiled, Holds;
    var out := Loading.Compiled(infos);
    Engine.MatchesAfterLoad(src, area, out, sources, setup, evt);
    forall i | 0 <= i < |out|
      ensures evt.accepts(out[i].filter) <==> Holds(cond(out[i].rule.name), env, checks)
    {
      AcceptsIffRaw(out, macros, cond, made, evt, env, checks, i);
    }
    FiringIsRaw(infos, src.name, setup, evt, cond, env, checks);
  }
}
