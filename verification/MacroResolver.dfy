/** Macro substitution on one filter tree (filter_macro_resolver). */
module MacroResolver {
  import opened Options
  import opened FilterAst

  /** The macros known to a resolver. A null definition is kept in the table and counts as undefined. */
  type Macros = map<string, Option<Expr>>

  predicate Defined(macros: Macros, x: string) {
    x in macros && macros[x].Some?
  }

  datatype Outcome = Outcome(expr: Expr, unknown: seq<Ref>, resolved: seq<Ref>, errors: seq<Ref>)

  datatype Outcomes = Outcomes(exprs: seq<Expr>, unknown: seq<Ref>, resolved: seq<Ref>, errors: seq<Ref>)

  ghost function Unvisited(macros: Macros, path: seq<string>): set<string> {
    set x | x in macros && x !in path
  }

  /** What visiting `e` yields while the macros in `path` are being expanded: the tree that replaces it and the
      references appended to the three result vectors. */
  function Resolve(e: Expr, path: seq<string>, macros: Macros): Outcome
    decreases Unvisited(macros, path), e, 1
  {
    match e
    case And(children) =>
      var o := ResolveAll(children, path, macros);
      Outcome(And(o.exprs), o.unknown, o.resolved, o.errors)
    case Or(children) =>
      var o := ResolveAll(children, path, macros);
      Outcome(Or(o.exprs), o.unknown, o.resolved, o.errors)
    case Not(child) =>
      var o := Resolve(child, path, macros);
      o.(expr := Not(o.expr))
    case Check(_) => Outcome(e, [], [], [])
    case Ident(ref) =>
      if !Defined(macros, ref.name) then
        Outcome(e, [ref], [], [])
      else if ref.name in path then
        Outcome(e, [ref], [], [ref])
      else
        assert ref.name in Unvisited(macros, path) && ref.name !in Unvisited(macros, path + [ref.name]);
        var o := Resolve(macros[ref.name].value, path + [ref.name], macros);
        o.(resolved := o.resolved + [ref])
  }

  function ResolveAll(es: seq<Expr>, path: seq<string>, macros: Macros): (o: Outcomes)
    ensures |o.exprs| == |es|
    decreases Unvisited(macros, path), es, 0
  {
    if es == [] then
      Outcomes([], [], [], [])
    else
      var n := |es| - 1;
      var front := ResolveAll(es[..n], path, macros);
      var last := Resolve(es[n], path, macros);
      Outcomes(front.exprs + [last.expr], front.unknown + last.unknown,
               front.resolved + last.resolved, front.errors + last.errors)
  }

  lemma ResolveAllNone(es: seq<Expr>, path: seq<string>, macros: Macros)
    ensures es[..0] == [] && ResolveAll([], path, macros) == Outcomes([], [], [], [])
  {
  }

  /** Visiting one child more. */
  lemma ResolveAllNext(es: seq<Expr>, path: seq<string>, macros: Macros, i: nat)
    requires i < |es|
    ensures var front, next := ResolveAll(es[..i], path, macros), Resolve(es[i], path, macros);
            ResolveAll(es[..i + 1], path, macros) ==
            Outcomes(front.exprs + [next.expr], front.unknown + next.unknown,
                     front.resolved + next.resolved, front.errors + next.errors)
  {
    hide Resolve;
    assert es[..i + 1][..i] == es[..i];
  }

  /** Visiting a vector of children visits each of them and keeps whatever each of them reports. */
  lemma {:induction false} ResolveAllPart(es: seq<Expr>, path: seq<string>, macros: Macros, i: nat)
    requires i < |es|
    ensures var all, one := ResolveAll(es, path, macros), Resolve(es[i], path, macros);
            && all.exprs[i] == one.expr
            && (one.errors != [] ==> all.errors != [])
            && (one.unknown != [] ==> all.unknown != [])
            && (one.resolved != [] ==> all.resolved != [])
  {
    var n := |es| - 1;
    if i < n {
      ResolveAllPart(es[..n], path, macros, i);
    }
  }

  /** Conversely, whatever is reported for a vector of children comes from one of them. */
  lemma {:induction false} ErrorFromPart(es: seq<Expr>, path: seq<string>, macros: Macros) returns (i: nat)
    requires ResolveAll(es, path, macros).errors != []
    ensures i < |es| && Resolve(es[i], path, macros).errors != []
  {
    var n := |es| - 1;
    if Resolve(es[n], path, macros).errors != [] {
      i := n;
    } else {
      i := ErrorFromPart(es[..n], path, macros);
    }
  }

  // ----- The identifiers that are left

  /** The identifiers left in the resolved tree are those reported as unknown: the same ones, in the same order. */
  lemma {:induction false} LeftoverIsUnknown(e: Expr, path: seq<string>, macros: Macros)
    ensures Idents(Resolve(e, path, macros).expr) == Resolve(e, path, macros).unknown
    decreases Unvisited(macros, path), e, 1
  {
    match e
    case And(children) => LeftoverIsUnknownAll(children, path, macros);
    case Or(children) => LeftoverIsUnknownAll(children, path, macros);
    case Not(child) => LeftoverIsUnknown(child, path, macros);
    case Check(_) =>
    case Ident(ref) =>
      if Defined(macros, ref.name) && ref.name !in path {
        assert ref.name in Unvisited(macros, path) && ref.name !in Unvisited(macros, path + [ref.name]);
        LeftoverIsUnknown(macros[ref.name].value, path + [ref.name], macros);
      }
  }

  lemma {:induction false} LeftoverIsUnknownAll(es: seq<Expr>, path: seq<string>, macros: Macros)
    ensures IdentsAll(ResolveAll(es, path, macros).exprs) == ResolveAll(es, path, macros).unknown
    decreases Unvisited(macros, path), es, 0
  {
    if es != [] {
      var n := |es| - 1;
      LeftoverIsUnknownAll(es[..n], path, macros);
      LeftoverIsUnknown(es[n], path, macros);
      var exprs := ResolveAll(es, path, macros).exprs;
      assert exprs[..n] == ResolveAll(es[..n], path, macros).exprs;
    }
  }

  function SelectDefined(refs: seq<Ref>, macros: Macros): seq<Ref> {
    if refs == [] then []
    else
      var n := |refs| - 1;
      SelectDefined(refs[..n], macros) + (if Defined(macros, refs[n].name) then [refs[n]] else [])
  }

  lemma {:induction false} SelectDefinedConcat(a: seq<Ref>, b: seq<Ref>, macros: Macros)
    ensures SelectDefined(a + b, macros) == SelectDefined(a, macros) + SelectDefined(b, macros)
  {
    if b == [] {
      assert a + b == a;
    } else {
      var n := |b| - 1;
      SelectDefinedConcat(a, b[..n], macros);
      assert (a + b)[..|a + b| - 1] == a + b[..n];
    }
  }

  /** The loop errors are exactly the leftover identifiers that do have a definition, in order. */
  lemma {:induction false} ErrorsAreDefinedLeftovers(e: Expr, path: seq<string>, macros: Macros)
    ensures Resolve(e, path, macros).errors == SelectDefined(Resolve(e, path, macros).unknown, macros)
    decreases Unvisited(macros, path), e, 1
  {
    match e
    case And(children) => ErrorsAreDefinedLeftoversAll(children, path, macros);
    case Or(children) => ErrorsAreDefinedLeftoversAll(children, path, macros);
    case Not(child) => ErrorsAreDefinedLeftovers(child, path, macros);
    case Check(_) =>
    case Ident(ref) =>
      assert [ref][..0] == [];
      if Defined(macros, ref.name) && ref.name !in path {
        assert ref.name in Unvisited(macros, path) && ref.name !in Unvisited(macros, path + [ref.name]);
        ErrorsAreDefinedLeftovers(macros[ref.name].value, path + [ref.name], macros);
      }
  }

  lemma {:induction false} ErrorsAreDefinedLeftoversAll(es: seq<Expr>, path: seq<string>, macros: Macros)
    ensures ResolveAll(es, path, macros).errors == SelectDefined(ResolveAll(es, path, macros).unknown, macros)
    decreases Unvisited(macros, path), es, 0
  {
    if es != [] {
      var n := |es| - 1;
      ErrorsAreDefinedLeftoversAll(es[..n], path, macros);
      ErrorsAreDefinedLeftovers(es[n], path, macros);
      SelectDefinedConcat(ResolveAll(es[..n], path, macros).unknown, Resolve(es[n], path, macros).unknown, macros);
    }
  }

  lemma {:induction false} SelectDefinedMembers(refs: seq<Ref>, macros: Macros)
    ensures forall r :: r in SelectDefined(refs, macros) <==> r in refs && Defined(macros, r.name)
  {
    if refs != [] {
      var n := |refs| - 1;
      SelectDefinedMembers(refs[..n], macros);
      assert refs == refs[..n] + [refs[n]];
    }
  }

  // ----- Running twice

  /** The tree mentions no defined macro. */
  ghost predicate Foreign(e: Expr, macros: Macros) {
    forall x | Mentions(e, x) :: !Defined(macros, x)
  }

  /** A tree that mentions no defined macro is returned as it is. */
  lemma {:induction false} NothingToResolve(e: Expr, path: seq<string>, macros: Macros)
    requires Foreign(e, macros)
    ensures Resolve(e, path, macros) == Outcome(e, Idents(e), [], [])
    decreases e, 1
  {
    match e
    case And(children) =>
      forall i | 0 <= i < |children| ensures Foreign(children[i], macros) { ForeignChild(e, macros, i); }
      NothingToResolveAll(children, path, macros);
    case Or(children) =>
      forall i | 0 <= i < |children| ensures Foreign(children[i], macros) { ForeignChild(e, macros, i); }
      NothingToResolveAll(children, path, macros);
    case Not(child) => NothingToResolve(child, path, macros);
    case Check(_) =>
    case Ident(ref) => assert Mentions(e, ref.name);
  }

  lemma ForeignChild(e: Expr, macros: Macros, i: nat)
    requires (e.And? || e.Or?) && i < |e.children| && Foreign(e, macros)
    ensures Foreign(e.children[i], macros)
  {
    forall x | Mentions(e.children[i], x) ensures !Defined(macros, x) { assert Mentions(e, x); }
  }

  lemma {:induction false} NothingToResolveAll(es: seq<Expr>, path: seq<string>, macros: Macros)
    requires forall i | 0 <= i < |es| :: Foreign(es[i], macros)
    ensures ResolveAll(es, path, macros) == Outcomes(es, IdentsAll(es), [], [])
    decreases es, 0
  {
    if es != [] {
      hide Resolve, ResolveAll, Idents, IdentsAll, Foreign;
      NothingToResolveAll(es[..|es| - 1], path, macros);
      NothingToResolve(es[|es| - 1], path, macros);
      NothingToResolveLast(es, path, macros);
    }
  }

  lemma NothingToResolveLast(es: seq<Expr>, path: seq<string>, macros: Macros)
    requires es != []
    requires var front := es[..|es| - 1]; ResolveAll(front, path, macros) == Outcomes(front, IdentsAll(front), [], [])
    requires var last := es[|es| - 1]; Resolve(last, path, macros) == Outcome(last, Idents(last), [], [])
    ensures ResolveAll(es, path, macros) == Outcomes(es, IdentsAll(es), [], [])
  {
    hide Resolve, Idents, ResolveAll, IdentsAll;
    var n := |es| - 1;
    ResolveAllNext(es, path, macros, n);
    IdentsOfLast(es);
    assert es[..n + 1] == es && es[..n] + [es[n]] == es;
  }

  lemma IdentsOfLast(es: seq<Expr>)
    requires es != []
    ensures IdentsAll(es) == IdentsAll(es[..|es| - 1]) + Idents(es[|es| - 1])
  {
    hide Idents;
  }

  /** Resolution is idempotent: without loop errors, a second run leaves the tree alone, resolves nothing and
      reports the same unknown identifiers. */
  lemma SecondRunChangesNothing(e: Expr, macros: Macros)
    requires Resolve(e, [], macros).errors == []
    ensures var o := Resolve(e, [], macros); Resolve(o.expr, [], macros) == Outcome(o.expr, o.unknown, [], [])
  {
    var o := Resolve(e, [], macros);
    LeftoverIsUnknown(e, [], macros);
    ErrorsAreDefinedLeftovers(e, [], macros);
    SelectDefinedMembers(o.unknown, macros);
    forall x | Mentions(o.expr, x)
      ensures !Defined(macros, x)
    {
      MentionsIsIdents(o.expr, x);
      var r :| r in Idents(o.expr) && r.name == x;
      assert r !in SelectDefined(o.unknown, macros);
    }
    NothingToResolve(o.expr, [], macros);
  }

  /** A run reports that it resolved something iff the filter mentions a defined macro. */
  lemma {:induction false} ResolvesIffMentions(e: Expr, macros: Macros)
    ensures Resolve(e, [], macros).resolved != [] <==> exists x :: Mentions(e, x) && Defined(macros, x)
    decreases e, 1
  {
    match e
    case And(children) => ResolvesIffMentionsAll(children, macros);
    case Or(children) => ResolvesIffMentionsAll(children, macros);
    case Not(child) => ResolvesIffMentions(child, macros);
    case Check(_) =>
    case Ident(ref) => assert Mentions(e, ref.name);
  }

  lemma {:induction false} ResolvesIffMentionsAll(es: seq<Expr>, macros: Macros)
    ensures ResolveAll(es, [], macros).resolved != [] <==>
            exists x, i :: 0 <= i < |es| && Mentions(es[i], x) && Defined(macros, x)
    decreases es, 0
  {
    if es != [] {
      var n := |es| - 1;
      var front := es[..n];
      assert forall i | 0 <= i < n :: front[i] == es[i];
      ResolvesIffMentionsAll(front, macros);
      ResolvesIffMentions(es[n], macros);
    }
  }

  // ----- Meaning

  /** `env` gives every defined macro the truth value of its definition. */
  ghost predicate Models(env: string -> bool, checks: int -> bool, macros: Macros) {
    forall x | Defined(macros, x) :: env(x) == Holds(macros[x].value, env, checks)
  }

  /** The resolved tree has the truth value of the original for every event, whatever the unknown identifiers
      stand for, with or without reference loops. */
  lemma {:induction false} MeaningPreserved(e: Expr, path: seq<string>, macros: Macros,
                                            env: string -> bool, checks: int -> bool)
    requires Models(env, checks, macros)
    ensures Holds(Resolve(e, path, macros).expr, env, checks) == Holds(e, env, checks)
    decreases Unvisited(macros, path), e
  {
    match e
    case And(children) =>
      forall i | 0 <= i < |children|
        ensures Holds(ResolveAll(children, path, macros).exprs[i], env, checks) == Holds(children[i], env, checks)
      {
        ResolveAllPart(children, path, macros, i);
        MeaningPreserved(children[i], path, macros, env, checks);
      }
      SameTruths(ResolveAll(children, path, macros).exprs, children, env, checks);
    case Or(children) =>
      forall i | 0 <= i < |children|
        ensures Holds(ResolveAll(children, path, macros).exprs[i], env, checks) == Holds(children[i], env, checks)
      {
        ResolveAllPart(children, path, macros, i);
        MeaningPreserved(children[i], path, macros, env, checks);
      }
      SameTruths(ResolveAll(children, path, macros).exprs, children, env, checks);
    case Not(child) => MeaningPreserved(child, path, macros, env, checks);
    case Check(_) =>
    case Ident(ref) =>
      if Defined(macros, ref.name) && ref.name !in path {
        assert ref.name in Unvisited(macros, path) && ref.name !in Unvisited(macros, path + [ref.name]);
        MeaningPreserved(macros[ref.name].value, path + [ref.name], macros, env, checks);
      }
  }

  lemma SameTruths(a: seq<Expr>, b: seq<Expr>, env: string -> bool, checks: int -> bool)
    requires |a| == |b| && forall i | 0 <= i < |a| :: Holds(a[i], env, checks) == Holds(b[i], env, checks)
    ensures Holds(And(a), env, checks) == Holds(And(b), env, checks)
    ensures Holds(Or(a), env, checks) == Holds(Or(b), env, checks)
  {
    ByIndex(a, env, checks);
    ByIndex(b, env, checks);
  }

  lemma ByIndex(a: seq<Expr>, env: string -> bool, checks: int -> bool)
    ensures Holds(And(a), env, checks) <==> forall i | 0 <= i < |a| :: Holds(a[i], env, checks)
    ensures Holds(Or(a), env, checks) <==> exists i | 0 <= i < |a| :: Holds(a[i], env, checks)
  {
    assert forall i | 0 <= i < |a| :: a[i] in a;
  }

  // ----- Loops

  /** A chain of references: `e` mentions w[0], and the definition of each w[i] mentions w[i+1]; all are defined. */
  ghost predicate Walk(e: Expr, w: seq<string>, macros: Macros)
    decreases w
  {
    && w != [] && Defined(macros, w[0]) && Mentions(e, w[0])
    && (|w| > 1 ==> Walk(macros[w[0]].value, w[1..], macros))
  }

  /** The last macro of the chain has already been met on the way, so it lies on a reference cycle. */
  ghost predicate ReturnsTo(w: seq<string>, path: seq<string>)
    requires w != []
  {
    w[|w| - 1] in path + w[..|w| - 1]
  }

  ghost predicate LoopReachable(e: Expr, macros: Macros) {
    exists w :: Walk(e, w, macros) && ReturnsTo(w, [])
  }

  /** Every loop error comes with the chain of references that closes the loop. */
  lemma {:induction false} ErrorGivesWalk(e: Expr, path: seq<string>, macros: Macros) returns (w: seq<string>)
    requires Resolve(e, path, macros).errors != []
    ensures Walk(e, w, macros) && ReturnsTo(w, path)
    decreases Unvisited(macros, path), e
  {
    match e
    case And(children) =>
      var i := ErrorFromPart(children, path, macros);
      w := ErrorGivesWalk(children[i], path, macros);
    case Or(children) =>
      var i := ErrorFromPart(children, path, macros);
      w := ErrorGivesWalk(children[i], path, macros);
    case Not(child) => w := ErrorGivesWalk(child, path, macros);
    case Ident(ref) =>
      if ref.name in path {
        w := [ref.name];
      } else {
        assert ref.name in Unvisited(macros, path) && ref.name !in Unvisited(macros, path + [ref.name]);
        var v := ErrorGivesWalk(macros[ref.name].value, path + [ref.name], macros);
        w := [ref.name] + v;
        assert w[1..] == v;
        assert path + w[..|w| - 1] == path + [ref.name] + v[..|v| - 1];
      }
  }

  /** Every chain that closes a loop is detected, wherever it lies in the tree. */
  lemma {:induction false} WalkGivesError(e: Expr, path: seq<string>, macros: Macros, w: seq<string>)
    requires Walk(e, w, macros) && ReturnsTo(w, path)
    ensures Resolve(e, path, macros).errors != []
    decreases w, e
  {
    match e
    case And(children) =>
      var i :| 0 <= i < |children| && Mentions(children[i], w[0]);
      WalkGivesError(children[i], path, macros, w);
      ResolveAllPart(children, path, macros, i);
    case Or(children) =>
      var i :| 0 <= i < |children| && Mentions(children[i], w[0]);
      WalkGivesError(children[i], path, macros, w);
      ResolveAllPart(children, path, macros, i);
    case Not(child) => WalkGivesError(child, path, macros, w);
    case Ident(ref) =>
      if ref.name !in path {
        var v := w[1..];
        assert path + w[..|w| - 1] == path + [ref.name] + v[..|v| - 1];
        WalkGivesError(macros[ref.name].value, path + [ref.name], macros, v);
      }
  }

  /** Loop detection is exact: a run reports an error iff a macro on a reference cycle is reachable. */
  lemma LoopErrorIff(e: Expr, macros: Macros)
    ensures Resolve(e, [], macros).errors != [] <==> LoopReachable(e, macros)
  {
    if Resolve(e, [], macros).errors != [] {
      var w := ErrorGivesWalk(e, [], macros);
    }
    if LoopReachable(e, macros) {
      var w :| Walk(e, w, macros) && ReturnsTo(w, []);
      WalkGivesError(e, [], macros, w);
    }
  }

  // ----- Which macros get marked as resolved

  /** Without loops and unknown names, every macro the tree mentions is reported as resolved. */
  lemma {:induction false} MentionedIsResolved(e: Expr, path: seq<string>, macros: Macros, x: string)
    requires Mentions(e, x) && Resolve(e, path, macros).unknown == []
    ensures exists r :: r in Resolve(e, path, macros).resolved && r.name == x
    decreases e, 1
  {
    match e
    case And(children) => MentionedIsResolvedAll(children, path, macros, x);
    case Or(children) => MentionedIsResolvedAll(children, path, macros, x);
    case Not(child) => MentionedIsResolved(child, path, macros, x);
    case Ident(ref) => assert ref in Resolve(e, path, macros).resolved;
  }

  lemma {:induction false} MentionedIsResolvedAll(es: seq<Expr>, path: seq<string>, macros: Macros, x: string)
    requires (exists i :: 0 <= i < |es| && Mentions(es[i], x)) && ResolveAll(es, path, macros).unknown == []
    ensures exists r :: r in ResolveAll(es, path, macros).resolved && r.name == x
    decreases es, 0
  {
    var n := |es| - 1;
    if Mentions(es[n], x) {
      MentionedIsResolved(es[n], path, macros, x);
    } else {
      var i :| 0 <= i < |es| && Mentions(es[i], x);
      assert es[..n][i] == es[i];
      MentionedIsResolvedAll(es[..n], path, macros, x);
    }
  }

  /** Every macro reported as resolved is mentioned by the tree or by the definition of a macro in the table. */
  lemma {:induction false} ResolvedIsMentioned(e: Expr, path: seq<string>, macros: Macros, r: Ref)
    requires r in Resolve(e, path, macros).resolved
    ensures Defined(macros, r.name)
    ensures Mentions(e, r.name) || exists y :: Defined(macros, y) && Mentions(macros[y].value, r.name)
    decreases Unvisited(macros, path), e, 1
  {
    match e
    case And(children) => ResolvedIsMentionedAll(children, path, macros, r);
    case Or(children) => ResolvedIsMentionedAll(children, path, macros, r);
    case Not(child) => ResolvedIsMentioned(child, path, macros, r);
    case Ident(ref) =>
      if r != ref {
        assert ref.name in Unvisited(macros, path) && ref.name !in Unvisited(macros, path + [ref.name]);
        ResolvedIsMentioned(macros[ref.name].value, path + [ref.name], macros, r);
      }
  }

  lemma {:induction false} ResolvedIsMentionedAll(es: seq<Expr>, path: seq<string>, macros: Macros, r: Ref)
    requires r in ResolveAll(es, path, macros).resolved
    ensures Defined(macros, r.name)
    ensures (exists i :: 0 <= i < |es| && Mentions(es[i], r.name))
         || exists y :: Defined(macros, y) && Mentions(macros[y].value, r.name)
    decreases Unvisited(macros, path), es, 0
  {
    var n := |es| - 1;
    if r in Resolve(es[n], path, macros).resolved {
      ResolvedIsMentioned(es[n], path, macros, r);
    } else {
      ResolvedIsMentionedAll(es[..n], path, macros, r);
      if i :| 0 <= i < n && Mentions(es[..n][i], r.name) {
        assert Mentions(es[i], r.name);
      }
    }
  }

  // ----- The stateful resolver

  /** The child vector while it is being rewritten: resolved up to `i`, untouched from there on. */
  lemma NodesNext(children: seq<Expr>, path: seq<string>, macros: Macros, i: nat, nodes: seq<Expr>)
    requires i < |children| && nodes == ResolveAll(children[..i], path, macros).exprs + children[i..]
    ensures nodes[i] == children[i]
    ensures nodes[i := Resolve(children[i], path, macros).expr]
         == ResolveAll(children[..i + 1], path, macros).exprs + children[i + 1..]
  {
    ResolveAllNext(children, path, macros, i);
    hide Resolve, ResolveAll;
    assert children[i..] == [children[i]] + children[i + 1..];
  }

  /** filter_macro_resolver together with its visitor. The nodes of a tree have a single owner, so a visit that
      rewrites children in place is modelled as returning the rewritten node; `substitute` is the side channel
      through which a visited identifier hands its replacement to the parent. */
  class Resolver {
    var macros: Macros
    var path: seq<string>
    var substitute: Option<Expr>
    var unknown: seq<Ref>
    var resolved: seq<Ref>
    var errors: seq<Ref>

    constructor ()
      ensures macros == map[] && path == [] && unknown == resolved == errors == []
    {
      macros, path, substitute, unknown, resolved, errors := map[], [], None, [], [], [];
    }

    method SetMacro(name: string, macro: Option<Expr>)
      modifies `macros
      ensures macros == old(macros)[name := macro]
    {
      macros := macros[name := macro];
    }

    method Clear()
      modifies `macros, `unknown, `resolved, `errors
      ensures macros == map[] && unknown == resolved == errors == []
    {
      errors, unknown, resolved, macros := [], [], [], map[];
    }

    /** What an outcome adds to the result vectors. */
    twostate predicate Reports(new unknown': seq<Ref>, new resolved': seq<Ref>, new errors': seq<Ref>)
      reads this
    {
      unknown == old(unknown) + unknown' && resolved == old(resolved) + resolved' && errors == old(errors) + errors'
    }

    /** The node a parent ends up with after a visit. */
    function Taken(node: Expr): Expr
      reads this
    {
      if substitute.Some? then substitute.value else node
    }

    method Visit(e: Expr) returns (node: Expr)
      modifies `path, `substitute, `unknown, `resolved, `errors
      ensures path == old(path)
      ensures var o := Resolve(e, path, macros); Taken(node) == o.expr && Reports(o.unknown, o.resolved, o.errors)
      decreases Unvisited(macros, path), e, 1
    {
      node := e;
      match e
      case And(children) =>
        var nodes := VisitChildren(children);
        node := And(nodes);
        substitute := None;
      case Or(children) =>
        var nodes := VisitChildren(children);
        node := Or(nodes);
        substitute := None;
      case Not(child) =>
        var c := Visit(child);
        node := Not(Taken(c));
        substitute := None;
      case Check(_) =>
        substitute := None;
      case Ident(ref) =>
        if Defined(macros, ref.name) {
          if ref.name in path {
            errors := errors + [ref];
            substitute := None;
            unknown := unknown + [ref];
          } else {
            assert ref.name in Unvisited(macros, path) && ref.name !in Unvisited(macros, path + [ref.name]);
            path := path + [ref.name];
            substitute := None;
            var clone := Visit(macros[ref.name].value);
            if substitute.None? {
              substitute := Some(clone);
            }
            resolved := resolved + [ref];
            path := path[..|path| - 1];
          }
        } else {
          substitute := None;
          unknown := unknown + [ref];
        }
    }

    method VisitChildren(children: seq<Expr>) returns (nodes: seq<Expr>)
      modifies `path, `substitute, `unknown, `resolved, `errors
      ensures path == old(path)
      ensures var o := ResolveAll(children, path, macros); nodes == o.exprs && Reports(o.unknown, o.resolved, o.errors)
      decreases Unvisited(macros, path), children, 0
    {
      hide Resolve, ResolveAll, Unvisited;
      nodes := children;
      var i := 0;
      ResolveAllNone(children, path, macros);
      while i < |nodes|
        invariant 0 <= i <= |nodes| == |children|
        invariant path == old(path)
        invariant nodes == ResolveAll(children[..i], path, macros).exprs + children[i..]
        invariant var o := ResolveAll(children[..i], path, macros); Reports(o.unknown, o.resolved, o.errors)
      {
        ResolveAllNext(children, path, macros, i);
        NodesNext(children, path, macros, i, nodes);
        ghost var front, next := ResolveAll(children[..i], path, macros), Resolve(children[i], path, macros);
        var child := Visit(nodes[i]);
        nodes := nodes[i := Taken(child)];
        assert unknown == old(unknown) + (front.unknown + next.unknown);
        assert resolved == old(resolved) + (front.resolved + next.resolved);
        assert errors == old(errors) + (front.errors + next.errors);
        i := i + 1;
      }
      assert children[..i] == children;
    }

    /** One run over a filter: the filter is replaced by its resolution, the result vectors hold what this run
        found, and the result tells whether any macro was substituted. */
    method Run(filter: Expr) returns (result: Expr, changed: bool)
      modifies `path, `substitute, `unknown, `resolved, `errors
      ensures Outcome(result, unknown, resolved, errors) == Resolve(filter, [], macros)
      ensures changed <==> exists x :: Mentions(filter, x) && Defined(macros, x)
      ensures Idents(result) == unknown
      ensures errors != [] <==> LoopReachable(filter, macros)
    {
      unknown, resolved, errors := [], [], [];
      path, substitute := [], None;
      var node := Visit(filter);
      result := Taken(node);
      changed := resolved != [];
      ResolvesIffMentions(filter, macros);
      LeftoverIsUnknown(filter, [], macros);
      LoopErrorIff(filter, macros);
    }
  }
}
