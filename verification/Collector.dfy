/** Collecting lists, macros and rules in three vectors (rule_loader_collector). */
module Collector {
  import opened Options
  import opened IndexedVectors
  import opened CollectorSpec
  import L = ConditionLexer
  import E = Exceptions

  /** An entry of one of the vectors; `body` is what the three kinds differ in. */
  datatype Info<T> = Info(name: string, index: nat, visibility: nat, body: T)

  datatype RuleBody = RuleBody(cond: string, source: string, unknownSource: bool, enabled: bool, exceptions: seq<E.Exception>)

  /** A request to append to a rule or to replace parts of it; `other` tells that it has a property besides these two. */
  datatype RuleUpdate = RuleUpdate(cond: Option<string>, enabled: Option<bool>, other: bool) {
    predicate HasAnyValue() {
      cond.Some? || enabled.Some? || other
    }
  }

  /** Pieces of a condition separated by single spaces. */
  function Spaced(pieces: seq<string>): string {
    if pieces == [] then ""
    else if |pieces| == 1 then pieces[0]
    else Spaced(pieces[..|pieces| - 1]) + " " + pieces[|pieces| - 1]
  }

  lemma SpacedNext(pieces: seq<string>, piece: string)
    requires pieces != []
    ensures Spaced(pieces + [piece]) == Spaced(pieces) + " " + piece
  {
    assert (pieces + [piece])[..|pieces|] == pieces;
  }

  ghost predicate ListHolds(items: seq<string>, body: seq<string>) {
    items == body
  }

  ghost predicate MacroHolds(cond: string, body: seq<string>) {
    body != [] && cond == Spaced(body)
  }

  /** The exception has fields and is not refused. */
  predicate Accepted(ex: E.Exception, library: L.Library, known: bool) {
    ex.fields.IsValid() && E.Validated(ex, library, known).Some?
  }

  /** The exceptions with their default operators filled in. */
  predicate Checked(checked: seq<E.Exception>, exs: seq<E.Exception>, library: L.Library, known: bool) {
    && |checked| == |exs|
    && forall i | 0 <= i < |exs| :: Accepted(exs[i], library, known) && checked[i] == E.Validated(exs[i], library, known).value
  }

  method CheckExceptions(exs: seq<E.Exception>, library: L.Library, known: bool) returns (ok: bool, checked: seq<E.Exception>)
    ensures ok <==> forall i | 0 <= i < |exs| :: Accepted(exs[i], library, known)
    ensures ok ==> Checked(checked, exs, library, known)
  {
    hide E.Validated;
    ok, checked := true, [];
    for i := 0 to |exs|
      invariant Checked(checked, exs[..i], library, known)
    {
      if !Accepted(exs[i], library, known) {
        return false, [];
      }
      assert exs[..i + 1] == exs[..i] + [exs[i]];
      checked := checked + [E.Validated(exs[i], library, known).value];
    }
    assert exs[..|exs|] == exs;
  }

  ghost predicate RuleHolds(rule: RuleBody, body: seq<string>) {
    MacroHolds(rule.cond, body)
  }

  /** An entry is what the history says about its name. */
  ghost predicate Fits<T(!new)>(info: Info<T>, entry: Option<Entry>, holds: (T, seq<string>) -> bool) {
    && entry.Some? && info.index == entry.value.index && info.visibility == entry.value.visibility
    && holds(info.body, entry.value.body)
  }

  /** The entries are exactly the names the history knows, each under its name, in the order of their indexes. */
  ghost predicate Agree<T(!new)>(entries: seq<Info<T>>, names: seq<string>, log: seq<Op>, kind: Kind,
                                 holds: (T, seq<string>) -> bool)
  {
    && |entries| == |names|
    && (forall p | 0 <= p < |names| :: entries[p].name == names[p] && Fits(entries[p], EntryAfter(log, kind, names[p]), holds))
    && (forall name | EntryAfter(log, kind, name).Some? :: name in names)
    && (forall p, q | 0 <= p < q < |names| :: entries[p].index < entries[q].index)
  }

  ghost predicate Matches<T(!new)>(infos: IndexedVector<Info<T>>, log: seq<Op>, kind: Kind, holds: (T, seq<string>) -> bool)
    reads infos
  {
    infos.Valid() && Agree(infos.entries, infos.names, log, kind, holds)
  }

  /** Operations about other kinds leave a vector as it should be. */
  lemma OtherKind<T(!new)>(infos: IndexedVector<Info<T>>, log: seq<Op>, kind: Kind, holds: (T, seq<string>) -> bool, op: Op)
    requires Matches(infos, log, kind, holds) && !op.Clear? && (Ticking(op) ==> op.kind != kind)
    ensures Matches(infos, log + [op], kind, holds)
  {
    hide EntryAfter, Clock, Fits;
    forall name
      ensures EntryAfter(log + [op], kind, name) == EntryAfter(log, kind, name)
    {
      LogStep(log, op, kind, name);
    }
  }

  lemma NamesAfter(log: seq<Op>, op: Op, kind: Kind)
    requires Ticking(op) && op.kind == kind
    ensures forall name | name != op.name :: EntryAfter(log + [op], kind, name) == EntryAfter(log, kind, name)
    ensures EntryAfter(log + [op], kind, op.name) == Changed(EntryAfter(log, kind, op.name), op, kind, op.name, Clock(log))
  {
    hide EntryAfter, Clock;
    forall name
      ensures EntryAfter(log + [op], kind, name) == Changed(EntryAfter(log, kind, name), op, kind, name, Clock(log))
    {
      LogStep(log, op, kind, name);
    }
  }

  /** Changing the entry of a name. */
  lemma AgreeSet<T(!new)>(entries: seq<Info<T>>, names: seq<string>, log: seq<Op>, holds: (T, seq<string>) -> bool, op: Op,
                          p: nat, info: Info<T>)
    requires Ticking(op) && Agree(entries, names, log, op.kind, holds) && p < |names| && names[p] == op.name == info.name
    requires forall q | 0 <= q < |names| && q != p :: names[q] != op.name
    requires Fits(info, Changed(EntryAfter(log, op.kind, op.name), op, op.kind, op.name, Clock(log)), holds)
    ensures Agree(entries[p := info], names, log + [op], op.kind, holds)
  {
    hide EntryAfter, Clock, Changed, Fits;
    SameIndex(entries[p], info, EntryAfter(log, op.kind, op.name), op, Clock(log), holds);
    NamesAfter(log, op, op.kind);
  }

  lemma SameIndex<T(!new)>(info: Info<T>, info': Info<T>, entry: Option<Entry>, op: Op, clock: nat,
                           holds: (T, seq<string>) -> bool)
    requires Ticking(op) && Fits(info, entry, holds) && Fits(info', Changed(entry, op, op.kind, op.name, clock), holds)
    ensures info.index == info'.index
  {
  }

  /** Adding an entry for a new name. */
  lemma AgreeAdd<T(!new)>(entries: seq<Info<T>>, names: seq<string>, log: seq<Op>, holds: (T, seq<string>) -> bool, op: Op,
                          info: Info<T>)
    requires op.Define? && Agree(entries, names, log, op.kind, holds) && op.name !in names && info.name == op.name
    requires info.index == info.visibility == Clock(log) && holds(info.body, op.body)
    ensures Agree(entries + [info], names + [op.name], log + [op], op.kind, holds)
  {
    NamesAfter(log, op, op.kind);
    forall p | 0 <= p < |names|
      ensures entries[p].index < Clock(log)
    {
      IndexBehindClock(log, op.kind, names[p]);
      hide EntryAfter, Clock;
    }
    assert Fits(info, EntryAfter(log + [op], op.kind, op.name), holds);
    hide EntryAfter, Clock, Changed, Fits;
  }

  lemma EmptyMatches<T(!new)>(infos: IndexedVector<Info<T>>, log: seq<Op>, kind: Kind, holds: (T, seq<string>) -> bool)
    requires infos.Valid() && infos.entries == [] && infos.names == []
    ensures Matches(infos, log + [Clear], kind, holds)
  {
    hide EntryAfter, Clock;
    forall name
      ensures EntryAfter(log + [Clear], kind, name).None?
    {
      LogStep(log, Clear, kind, name);
    }
  }

  lemma PositionIsUnique<T>(infos: IndexedVector<T>, p: nat)
    requires infos.Valid() && p < |infos.names|
    ensures forall q | 0 <= q < |infos.names| && q != p :: infos.names[q] != infos.names[p]
  {
  }

  /** define_info */
  method DefineInfo<T(!new)>(infos: IndexedVector<Info<T>>, name: string, body: T, clock: nat,
                             ghost log: seq<Op>, ghost op: Op, ghost holds: (T, seq<string>) -> bool)
    requires op.Define? && op.name == name && Matches(infos, log, op.kind, holds) && holds(body, op.body) && clock == Clock(log)
    modifies infos
    ensures Matches(infos, log + [op], op.kind, holds)
    ensures |old(infos.names)| <= |infos.names| && name in infos.names
    ensures forall p | 0 <= p < |infos.names| ::
              if infos.names[p] == name then infos.entries[p].body == body
              else p < |old(infos.names)| && infos.entries[p] == old(infos.entries)[p] && infos.names[p] == old(infos.names)[p]
  {
    hide EntryAfter, Clock, Agree;
    ghost var entries, names := infos.entries, infos.names;
    var prev := infos.Find(name);
    if prev.Some? {
      var p := prev.value;
      var info := Info(name, infos.entries[p].index, clock, body);
      EntryAt(infos, log, op.kind, holds, p);
      PositionIsUnique(infos, p);
      AgreeSet(entries, names, log, holds, op, p, info);
      infos.Set(p, info);
    } else {
      var info := Info(name, clock, clock, body);
      AgreeAdd(entries, names, log, holds, op, info);
      var id := infos.Insert(info, name);
    }
  }

  /** What a vector says about a name. */
  lemma EntryAt<T(!new)>(infos: IndexedVector<Info<T>>, log: seq<Op>, kind: Kind, holds: (T, seq<string>) -> bool, p: nat)
    requires Matches(infos, log, kind, holds) && p < |infos.names|
    ensures infos.entries[p].name == infos.names[p] && Fits(infos.entries[p], EntryAfter(log, kind, infos.names[p]), holds)
  {
  }

  /** A name that is not in the vector is not known. */
  lemma NoEntry<T(!new)>(infos: IndexedVector<Info<T>>, log: seq<Op>, kind: Kind, holds: (T, seq<string>) -> bool, name: string)
    requires Matches(infos, log, kind, holds) && name !in infos.names
    ensures EntryAfter(log, kind, name).None?
  {
  }

  /** append_info and replace_info, together with the change of the body they go with. */
  method UpdateInfo<T(!new)>(infos: IndexedVector<Info<T>>, p: nat, body: T, clock: nat,
                             ghost log: seq<Op>, ghost op: Op, ghost holds: (T, seq<string>) -> bool)
    requires (op.Append? || op.Replace?) && Matches(infos, log, op.kind, holds)
    requires p < |infos.names| && infos.names[p] == op.name && clock == Clock(log)
    requires EntryAfter(log, op.kind, op.name).Some?
    requires holds(body, Changed(EntryAfter(log, op.kind, op.name), op, op.kind, op.name, clock).value.body)
    modifies infos
    ensures Matches(infos, log + [op], op.kind, holds) && infos.names == old(infos.names)
    ensures infos.entries == old(infos.entries)[p := Info(op.name, old(infos.entries[p].index), clock, body)]
  {
    hide EntryAfter, Clock, Agree;
    EntryAt(infos, log, op.kind, holds, p);
    PositionIsUnique(infos, p);
    var info := Info(infos.entries[p].name, infos.entries[p].index, clock, body);
    AgreeSet(infos.entries, infos.names, log, holds, op, p, info);
    infos.Set(p, info);
  }

  class Collector {
    const lists: IndexedVector<Info<seq<string>>>
    const macros: IndexedVector<Info<string>>
    const rules: IndexedVector<Info<RuleBody>>
    var curIndex: nat
    ghost var log: seq<Op>

    constructor ()
      ensures Valid() && fresh(lists) && fresh(macros) && fresh(rules) && log == []
    {
      lists := new IndexedVector<Info<seq<string>>>();
      macros := new IndexedVector<Info<string>>();
      rules := new IndexedVector<Info<RuleBody>>();
      curIndex, log := 0, [];
    }

    ghost predicate Valid()
      reads this, lists, macros, rules
    {
      && lists as object != macros && lists as object != rules && macros as object != rules
      && curIndex == Clock(log)
      && Matches(lists, log, ListKind, ListHolds)
      && Matches(macros, log, MacroKind, MacroHolds)
      && Matches(rules, log, RuleKind, RuleHolds)
    }

    /** Operations that are refused leave everything as it was. */
    twostate predicate Untouched()
      reads this, lists, macros, rules
    {
      unchanged(this) && unchanged(lists) && unchanged(macros) && unchanged(rules)
    }

    method DefineList(name: string, items: seq<string>)
      requires Valid()
      modifies this, lists
      ensures Valid() && log == old(log) + [Define(ListKind, name, items)]
      ensures name in lists.names && forall p | 0 <= p < |lists.names| && lists.names[p] == name :: lists.entries[p].body == items
    {
      hide EntryAfter, Clock, Fits, Matches;
      ghost var op := Define(ListKind, name, items);
      OtherKind(macros, log, MacroKind, MacroHolds, op);
      OtherKind(rules, log, RuleKind, RuleHolds, op);
      LogStep(log, op, ListKind, name);
      DefineInfo(lists, name, items, curIndex, log, op, ListHolds);
      curIndex, log := curIndex + 1, log + [op];
    }

    method AppendList(name: string, items: seq<string>) returns (ok: bool)
      requires Valid()
      modifies this, lists
      ensures Valid() && (ok <==> EntryAfter(old(log), ListKind, name).Some?)
      ensures if ok then log == old(log) + [Append(ListKind, name, items)] else Untouched()
      ensures lists.names == old(lists.names) && forall p | 0 <= p < |lists.names| ::
                lists.entries[p].body == old(lists.entries)[p].body + (if lists.names[p] == name then items else [])
    {
      hide EntryAfter, Clock, Agree;
      ghost var op := Append(ListKind, name, items);
      OtherKind(macros, log, MacroKind, MacroHolds, op);
      OtherKind(rules, log, RuleKind, RuleHolds, op);
      LogStep(log, op, ListKind, name);
      var prev := lists.Find(name);
      if prev.None? {
        NoEntry(lists, log, ListKind, ListHolds, name);
        return false;
      }
      EntryAt(lists, log, ListKind, ListHolds, prev.value);
      PositionIsUnique(lists, prev.value);
      UpdateInfo(lists, prev.value, lists.entries[prev.value].body + items, curIndex, log, op, ListHolds);
      curIndex, log := curIndex + 1, log + [op];
      ok := true;
    }

    method DefineMacro(name: string, cond: string)
      requires Valid()
      modifies this, macros
      ensures Valid() && log == old(log) + [Define(MacroKind, name, [cond])]
      ensures name in macros.names && forall p | 0 <= p < |macros.names| && macros.names[p] == name :: macros.entries[p].body == cond
    {
      hide EntryAfter, Clock, Fits, Matches;
      ghost var op := Define(MacroKind, name, [cond]);
      OtherKind(lists, log, ListKind, ListHolds, op);
      OtherKind(rules, log, RuleKind, RuleHolds, op);
      LogStep(log, op, MacroKind, name);
      DefineInfo(macros, name, cond, curIndex, log, op, MacroHolds);
      curIndex, log := curIndex + 1, log + [op];
    }

    method AppendMacro(name: string, cond: string) returns (ok: bool)
      requires Valid()
      modifies this, macros
      ensures Valid() && (ok <==> EntryAfter(old(log), MacroKind, name).Some?)
      ensures if ok then log == old(log) + [Append(MacroKind, name, [cond])] else Untouched()
      ensures macros.names == old(macros.names) && forall p | 0 <= p < |macros.names| ::
                macros.entries[p].body == old(macros.entries)[p].body + (if macros.names[p] == name then " " + cond else "")
    {
      hide EntryAfter, Clock, Agree, Spaced;
      ghost var op := Append(MacroKind, name, [cond]);
      OtherKind(lists, log, ListKind, ListHolds, op);
      OtherKind(rules, log, RuleKind, RuleHolds, op);
      LogStep(log, op, MacroKind, name);
      var prev := macros.Find(name);
      if prev.None? {
        NoEntry(macros, log, MacroKind, MacroHolds, name);
        return false;
      }
      EntryAt(macros, log, MacroKind, MacroHolds, prev.value);
      PositionIsUnique(macros, prev.value);
      SpacedNext(EntryAfter(log, MacroKind, name).value.body, cond);
      UpdateInfo(macros, prev.value, macros.entries[prev.value].body + " " + cond, curIndex, log, op, MacroHolds);
      curIndex, log := curIndex + 1, log + [op];
      ok := true;
    }

    /** A rule cannot be defined again with another source, and its exceptions must pass validation. `known` tells whether
        the engine has the source. */
    method DefineRule(name: string, cond: string, source: string, known: bool, enabled: bool, exceptions: seq<E.Exception>,
                      library: L.Library) returns (ok: bool)
      requires Valid()
      modifies this, rules
      ensures Valid()
      ensures ok <==>
              && (forall p | 0 <= p < |old(rules.names)| && old(rules.names)[p] == name :: old(rules.entries)[p].body.source == source)
              && (forall i | 0 <= i < |exceptions| :: Accepted(exceptions[i], library, known))
      ensures if ok then log == old(log) + [Define(RuleKind, name, [cond])] else Untouched()
      ensures ok ==> name in rules.names && forall p | 0 <= p < |rules.names| && rules.names[p] == name ::
                       var body := rules.entries[p].body;
                       && body == RuleBody(cond, source, !known, enabled, body.exceptions)
                       && Checked(body.exceptions, exceptions, library, known)
    {
      hide EntryAfter, Clock, Fits, Agree, Accepted, Checked;
      ghost var op := Define(RuleKind, name, [cond]);
      OtherKind(lists, log, ListKind, ListHolds, op);
      OtherKind(macros, log, MacroKind, MacroHolds, op);
      LogStep(log, op, RuleKind, name);
      var prev := rules.Find(name);
      if prev.Some? {
        PositionIsUnique(rules, prev.value);
        if rules.entries[prev.value].body.source != source {
          return false;
        }
      }
      var valid, checked := CheckExceptions(exceptions, library, known);
      if !valid {
        return false;
      }
      DefineInfo(rules, name, RuleBody(cond, source, !known, enabled, checked), curIndex, log, op, RuleHolds);
      curIndex, log := curIndex + 1, log + [op];
      ok := true;
    }

    /** append: `known` tells whether the engine has the source of the rule. An empty condition is not appended. */
    method AppendRule(name: string, update: RuleUpdate, known: bool) returns (ok: bool)
      requires Valid()
      modifies this, rules
      ensures Valid()
      ensures ok <==> update.HasAnyValue() && UpdatableRule(old(rules.entries), name, known)
      ensures var piece := if update.cond.Some? && update.cond.value != "" then [update.cond.value] else [];
              if ok then log == old(log) + [Append(RuleKind, name, piece)] else Untouched()
      ensures |rules.entries| == |old(rules.entries)| && rules.names == old(rules.names)
      ensures forall p | 0 <= p < |rules.entries| ::
                var body := old(rules.entries)[p].body;
                rules.entries[p].body ==
                  if ok && rules.names[p] == name && update.cond.Some? && update.cond.value != ""
                  then body.(cond := body.cond + " " + update.cond.value) else body
    {
      hide EntryAfter, Clock, Agree, Spaced;
      var piece := if update.cond.Some? && update.cond.value != "" then [update.cond.value] else [];
      ghost var op := Append(RuleKind, name, piece);
      OtherKind(lists, log, ListKind, ListHolds, op);
      OtherKind(macros, log, MacroKind, MacroHolds, op);
      LogStep(log, op, RuleKind, name);
      var p;
      ok, p := FindUpdatable(name, update, known);
      if !ok {
        return;
      }
      var body := rules.entries[p].body;
      EntryAt(rules, log, RuleKind, RuleHolds, p);
      ghost var pieces := EntryAfter(log, RuleKind, name).value.body;
      if piece != [] {
        SpacedNext(pieces, piece[0]);
        body := body.(cond := body.cond + " " + update.cond.value);
      } else {
        assert pieces + piece == pieces;
      }
      UpdateInfo(rules, p, body, curIndex, log, op, RuleHolds);
      curIndex, log := curIndex + 1, log + [op];
    }

    /** selective_replace */
    method ReplaceRule(name: string, update: RuleUpdate, known: bool) returns (ok: bool)
      requires Valid()
      modifies this, rules
      ensures Valid()
      ensures ok <==> update.HasAnyValue() && UpdatableRule(old(rules.entries), name, known)
      ensures var piece := if update.cond.Some? then Some([update.cond.value]) else None;
              if ok then log == old(log) + [Replace(RuleKind, name, piece)] else Untouched()
      ensures |rules.entries| == |old(rules.entries)| && rules.names == old(rules.names)
      ensures ok ==> forall p | 0 <= p < |rules.entries| ::
                var body := old(rules.entries)[p].body;
                rules.entries[p].body ==
                  if rules.names[p] != name then body
                  else body.(cond := if update.cond.Some? then update.cond.value else body.cond,
                             enabled := if update.enabled.Some? then update.enabled.value else body.enabled)
    {
      hide EntryAfter, Clock, Agree;
      ghost var op := Replace(RuleKind, name, if update.cond.Some? then Some([update.cond.value]) else None);
      OtherKind(lists, log, ListKind, ListHolds, op);
      OtherKind(macros, log, MacroKind, MacroHolds, op);
      LogStep(log, op, RuleKind, name);
      var p;
      ok, p := FindUpdatable(name, update, known);
      if !ok {
        return;
      }
      var body := rules.entries[p].body;
      EntryAt(rules, log, RuleKind, RuleHolds, p);
      if update.cond.Some? {
        body := body.(cond := update.cond.value);
      }
      if update.enabled.Some? {
        body := body.(enabled := update.enabled.value);
      }
      UpdateInfo(rules, p, body, curIndex, log, op, RuleHolds);
      curIndex, log := curIndex + 1, log + [op];
    }

    /** The checks append and selective_replace make first. */
    method FindUpdatable(name: string, update: RuleUpdate, known: bool) returns (ok: bool, p: nat)
      requires Valid()
      ensures ok <==> update.HasAnyValue() && UpdatableRule(rules.entries, name, known)
      ensures ok ==> p < |rules.names| && rules.names[p] == name
    {
      hide EntryAfter, Clock, Fits;
      var prev := rules.Find(name);
      if prev.None? {
        return false, 0;
      }
      p := prev.value;
      PositionIsUnique(rules, p);
      EntryAt(rules, log, RuleKind, RuleHolds, p);
      ok := update.HasAnyValue() && (rules.entries[p].body.unknownSource || known);
    }

    /** enable: neither the clock nor the visibility moves. */
    method EnableRule(name: string, on: bool) returns (ok: bool)
      requires Valid()
      modifies this, rules
      ensures Valid() && (ok <==> name in old(rules.names)) && curIndex == old(curIndex) && rules.names == old(rules.names)
      ensures if ok then log == old(log) + [Enable(name, on)] else Untouched()
      ensures ok ==> forall p | 0 <= p < |rules.entries| ::
                       rules.entries[p] == if rules.names[p] == name
                                           then old(rules.entries)[p].(body := old(rules.entries)[p].body.(enabled := on))
                                           else old(rules.entries)[p]
    {
      hide EntryAfter, Clock, Agree;
      ghost var op := Enable(name, on);
      OtherKind(lists, log, ListKind, ListHolds, op);
      OtherKind(macros, log, MacroKind, MacroHolds, op);
      OtherKind(rules, log, RuleKind, RuleHolds, op);
      LogStep(log, op, RuleKind, name);
      var prev := rules.Find(name);
      if prev.None? {
        return false;
      }
      var p := prev.value;
      PositionIsUnique(rules, p);
      AgreeSameBut(rules.entries, rules.names, log + [op], p, on);
      rules.Set(p, rules.entries[p].(body := rules.entries[p].body.(enabled := on)));
      log := log + [op];
      ok := true;
    }

    method Clear()
      requires Valid()
      modifies this, lists, macros, rules
      ensures Valid() && log == old(log) + [CollectorSpec.Clear]
      ensures lists.entries == [] && macros.entries == [] && rules.entries == [] && curIndex == 0
    {
      hide EntryAfter, Clock, Matches;
      LogStep(log, CollectorSpec.Clear, ListKind, "");
      curIndex := 0;
      rules.Clear();
      lists.Clear();
      macros.Clear();
      EmptyMatches(lists, log, ListKind, ListHolds);
      EmptyMatches(macros, log, MacroKind, MacroHolds);
      EmptyMatches(rules, log, RuleKind, RuleHolds);
      log := log + [CollectorSpec.Clear];
    }
  }

  /** A rule by that name exists, and its source is known unless it was unknown from the start. */
  ghost predicate UpdatableRule(entries: seq<Info<RuleBody>>, name: string, known: bool) {
    exists p :: 0 <= p < |entries| && entries[p].name == name && (entries[p].body.unknownSource || known)
  }

  lemma AgreeSameBut(entries: seq<Info<RuleBody>>, names: seq<string>, log: seq<Op>, p: nat, on: bool)
    requires Agree(entries, names, log, RuleKind, RuleHolds) && p < |entries|
    ensures Agree(entries[p := entries[p].(body := entries[p].body.(enabled := on))], names, log, RuleKind, RuleHolds)
  {
    hide EntryAfter, Spaced;
  }

  /** Across the three vectors no two entries have the same index. */
  lemma IndexesAcrossKinds(c: Collector, p: nat, q: nat, r: nat)
    requires c.Valid() && p < |c.lists.entries| && q < |c.macros.entries| && r < |c.rules.entries|
    ensures c.lists.entries[p].index != c.macros.entries[q].index
    ensures c.lists.entries[p].index != c.rules.entries[r].index
    ensures c.macros.entries[q].index != c.rules.entries[r].index
  {
    hide EntryAfter, Clock, Spaced;
    IndexesDiffer(c.log, ListKind, c.lists.names[p], MacroKind, c.macros.names[q]);
    IndexesDiffer(c.log, ListKind, c.lists.names[p], RuleKind, c.rules.names[r]);
    IndexesDiffer(c.log, MacroKind, c.macros.names[q], RuleKind, c.rules.names[r]);
  }
}
