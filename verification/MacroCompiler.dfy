/** Compilation of all collected macros, one after another and in place (compile_macros_infos). */
module MacroCompiler {
  import opened Options
  import opened FilterAst
  import opened MacroResolver

  const MAX_VISIBILITY: nat := 0xFFFF_FFFF

  /** A collected macro: its parsed condition, the clock value of its first definition and of its last change. */
  datatype MacroInfo = MacroInfo(name: string, cond: Expr, index: nat, visibility: nat)

  /** What the collector guarantees: one entry per name, and a clock that has not reached its limit. */
  ghost predicate Collected(infos: seq<MacroInfo>) {
    && (forall i, k | 0 <= i < k < |infos| :: infos[i].name != infos[k].name)
    && (forall i | 0 <= i < |infos| :: infos[i].index < MAX_VISIBILITY)
  }

  function Conds(infos: seq<MacroInfo>): seq<Expr> {
    seq(|infos|, i requires 0 <= i < |infos| => infos[i].cond)
  }

  /** The macros visible at clock value `limit`, each with its current condition. */
  function Table(infos: seq<MacroInfo>, conds: seq<Expr>, limit: nat): Macros
    requires |conds| == |infos|
  {
    if infos == [] then map[]
    else
      var n := |infos| - 1;
      var front := Table(infos[..n], conds[..n], limit);
      if infos[n].index < limit then front[infos[n].name := Some(conds[n])] else front
  }

  /** The raw definitions: every macro with the condition it was written with. */
  ghost function Raw(infos: seq<MacroInfo>): Macros {
    Table(infos, Conds(infos), MAX_VISIBILITY)
  }

  ghost predicate Visible(infos: seq<MacroInfo>, x: string, limit: nat) {
    exists i :: 0 <= i < |infos| && infos[i].name == x && infos[i].index < limit
  }

  lemma {:induction false} TableHas(infos: seq<MacroInfo>, conds: seq<Expr>, limit: nat, i: nat)
    requires |conds| == |infos| && Collected(infos) && i < |infos| && infos[i].index < limit
    ensures var t := Table(infos, conds, limit); infos[i].name in t && t[infos[i].name] == Some(conds[i])
  {
    var n := |infos| - 1;
    if i < n {
      TableHas(infos[..n], conds[..n], limit, i);
      assert infos[i].name != infos[n].name;
    }
  }

  lemma {:induction false} TableOnly(infos: seq<MacroInfo>, conds: seq<Expr>, limit: nat, x: string) returns (i: nat)
    requires |conds| == |infos| && x in Table(infos, conds, limit)
    ensures i < |infos| && infos[i].name == x && infos[i].index < limit && Table(infos, conds, limit)[x] == Some(conds[i])
  {
    var n := |infos| - 1;
    if infos[n].name == x && infos[n].index < limit {
      i := n;
    } else {
      i := TableOnly(infos[..n], conds[..n], limit, x);
    }
  }

  lemma DefinedIffVisible(infos: seq<MacroInfo>, conds: seq<Expr>, limit: nat, x: string)
    requires |conds| == |infos| && Collected(infos)
    ensures Defined(Table(infos, conds, limit), x) <==> Visible(infos, x, limit)
  {
    if x in Table(infos, conds, limit) {
      var i := TableOnly(infos, conds, limit, x);
    }
    if Visible(infos, x, limit) {
      var i :| 0 <= i < |infos| && infos[i].name == x && infos[i].index < limit;
      TableHas(infos, conds, limit, i);
    }
  }

  // ----- Reference definition: the unfolding of a condition

  /** The condition with every macro reference replaced by its definition, `depth` levels deep. It looks at the
      raw definitions only: there is no order, no visibility and no path. */
  function Unfold(depth: nat, e: Expr, raw: Macros): Expr
    decreases depth, e
  {
    match e
    case And(cs) => And(seq(|cs|, i requires 0 <= i < |cs| => Unfold(depth, cs[i], raw)))
    case Or(cs) => Or(seq(|cs|, i requires 0 <= i < |cs| => Unfold(depth, cs[i], raw)))
    case Not(c) => Not(Unfold(depth, c, raw))
    case Check(_) => e
    case Ident(ref) => if depth == 0 || !Defined(raw, ref.name) then e else Unfold(depth - 1, raw[ref.name].value, raw)
  }

  /** No identifier is left. */
  predicate Closed(e: Expr) {
    match e
    case And(cs) => forall i | 0 <= i < |cs| :: Closed(cs[i])
    case Or(cs) => forall i | 0 <= i < |cs| :: Closed(cs[i])
    case Not(c) => Closed(c)
    case Check(_) => true
    case Ident(_) => false
  }

  /** `u` is the full unfolding of `e`: some depth leaves no identifier, and then going deeper changes nothing. */
  ghost predicate UnfoldsTo(e: Expr, raw: Macros, u: Expr) {
    Closed(u) && exists depth: nat :: Unfold(depth, e, raw) == u
  }

  lemma {:induction false} ClosedMentionsNothing(e: Expr, x: string)
    requires Closed(e)
    ensures !Mentions(e, x)
    decreases e
  {
    match e
    case And(cs) => forall i | 0 <= i < |cs| { ClosedMentionsNothing(cs[i], x); }
    case Or(cs) => forall i | 0 <= i < |cs| { ClosedMentionsNothing(cs[i], x); }
    case Not(c) => ClosedMentionsNothing(c, x);
    case Check(_) =>
  }

  lemma {:induction false} UnfoldStable(d: nat, d': nat, e: Expr, raw: Macros)
    requires d <= d' && Closed(Unfold(d, e, raw))
    ensures Unfold(d', e, raw) == Unfold(d, e, raw)
    decreases d, e
  {
    match e
    case And(cs) =>
      forall i | 0 <= i < |cs| ensures Unfold(d', cs[i], raw) == Unfold(d, cs[i], raw) {
        assert Unfold(d, e, raw).children[i] == Unfold(d, cs[i], raw);
        UnfoldStable(d, d', cs[i], raw);
      }
    case Or(cs) =>
      forall i | 0 <= i < |cs| ensures Unfold(d', cs[i], raw) == Unfold(d, cs[i], raw) {
        assert Unfold(d, e, raw).children[i] == Unfold(d, cs[i], raw);
        UnfoldStable(d, d', cs[i], raw);
      }
    case Not(c) => UnfoldStable(d, d', c, raw);
    case Check(_) =>
    case Ident(ref) =>
      if d > 0 && Defined(raw, ref.name) { UnfoldStable(d - 1, d' - 1, raw[ref.name].value, raw); }
  }

  /** The full unfolding is unique. */
  lemma UnfoldsToUnique(e: Expr, raw: Macros, u: Expr, v: Expr)
    requires UnfoldsTo(e, raw, u) && UnfoldsTo(e, raw, v)
    ensures u == v
  {
    var d: nat :| Unfold(d, e, raw) == u;
    var f: nat :| Unfold(f, e, raw) == v;
    UnfoldStable(d, d + f, e, raw);
    UnfoldStable(f, d + f, e, raw);
  }

  /** The full unfolding has the truth value of the condition it came from, for every event. */
  lemma {:induction false} UnfoldMeans(d: nat, e: Expr, raw: Macros, env: string -> bool, checks: int -> bool)
    requires Models(env, checks, raw)
    ensures Holds(Unfold(d, e, raw), env, checks) == Holds(e, env, checks)
    decreases d, e
  {
    match e
    case And(cs) =>
      var us := Unfold(d, e, raw).children;
      forall i | 0 <= i < |cs| ensures Holds(us[i], env, checks) == Holds(cs[i], env, checks) {
        UnfoldMeans(d, cs[i], raw, env, checks);
      }
      SameTruths(us, cs, env, checks);
    case Or(cs) =>
      var us := Unfold(d, e, raw).children;
      forall i | 0 <= i < |cs| ensures Holds(us[i], env, checks) == Holds(cs[i], env, checks) {
        UnfoldMeans(d, cs[i], raw, env, checks);
      }
      SameTruths(us, cs, env, checks);
    case Not(c) => UnfoldMeans(d, c, raw, env, checks);
    case Check(_) =>
    case Ident(ref) =>
      if d > 0 && Defined(raw, ref.name) { UnfoldMeans(d - 1, raw[ref.name].value, raw, env, checks); }
  }

  // ----- Partly resolved tables

  /** Each entry of `table` is a raw definition or already fully unfolded, within `depth` levels. */
  ghost predicate PartlyResolved(table: Macros, raw: Macros, depth: nat) {
    forall x | Defined(table, x) ::
      && Defined(raw, x)
      && (|| table[x] == raw[x]
          || (Closed(table[x].value) && Unfold(depth, raw[x].value, raw) == table[x].value))
  }

  lemma {:induction false} NoIdentsIsClosed(e: Expr)
    requires Idents(e) == []
    ensures Closed(e)
    decreases e, 1
  {
    match e
    case And(cs) => NoIdentsIsClosedAll(cs);
    case Or(cs) => NoIdentsIsClosedAll(cs);
    case Not(c) => NoIdentsIsClosed(c);
    case Check(_) =>
  }

  lemma {:induction false} NoIdentsIsClosedAll(es: seq<Expr>)
    requires IdentsAll(es) == []
    ensures forall i | 0 <= i < |es| :: Closed(es[i])
    decreases es, 0
  {
    if es != [] {
      NoIdentsIsClosedAll(es[..|es| - 1]);
      NoIdentsIsClosed(es[|es| - 1]);
    }
  }

  ghost predicate Clean(o: Outcome) {
    o.errors == [] && o.unknown == []
  }

  /** A clean run over a partly resolved table yields the full unfolding over the raw definitions: it does not
      matter which entries were resolved before, nor which macros are on the path. */
  lemma {:induction false} CleanRunUnfolds(e: Expr, path: seq<string>, table: Macros, raw: Macros, depth: nat)
    requires PartlyResolved(table, raw, depth) && Clean(Resolve(e, path, table))
    ensures var u := Resolve(e, path, table).expr;
            Closed(u) && Unfold(depth + |Unvisited(table, path)|, e, raw) == u
    decreases Unvisited(table, path), e, 1
  {
    var u := Resolve(e, path, table).expr;
    var d := depth + |Unvisited(table, path)|;
    match e
    case And(cs) =>
      forall i | 0 <= i < |cs| ensures Closed(u.children[i]) && Unfold(d, cs[i], raw) == u.children[i] {
        ResolveAllPart(cs, path, table, i);
        CleanRunUnfolds(cs[i], path, table, raw, depth);
      }
    case Or(cs) =>
      forall i | 0 <= i < |cs| ensures Closed(u.children[i]) && Unfold(d, cs[i], raw) == u.children[i] {
        ResolveAllPart(cs, path, table, i);
        CleanRunUnfolds(cs[i], path, table, raw, depth);
      }
    case Not(c) => CleanRunUnfolds(c, path, table, raw, depth);
    case Check(_) =>
    case Ident(ref) => CleanReferenceUnfolds(ref, path, table, raw, depth);
  }

  lemma {:induction false} CleanReferenceUnfolds(ref: Ref, path: seq<string>, table: Macros, raw: Macros, depth: nat)
    requires PartlyResolved(table, raw, depth) && Clean(Resolve(Ident(ref), path, table))
    ensures var u := Resolve(Ident(ref), path, table).expr;
            Closed(u) && Unfold(depth + |Unvisited(table, path)|, Ident(ref), raw) == u
    decreases Unvisited(table, path), Ident(ref), 0
  {
    var d := depth + |Unvisited(table, path)|;
    var x := ref.name;
    var inner := path + [x];
    assert x in Unvisited(table, path) && x !in Unvisited(table, inner);
    ProperSubsetIsSmaller(Unvisited(table, inner), Unvisited(table, path));
    if table[x] == raw[x] {
      CleanRunUnfolds(raw[x].value, inner, table, raw, depth);
      UnfoldStable(depth + |Unvisited(table, inner)|, d - 1, raw[x].value, raw);
    } else {
      forall y { ClosedMentionsNothing(table[x].value, y); }
      NothingToResolve(table[x].value, inner, table);
      UnfoldStable(depth, d - 1, raw[x].value, raw);
    }
  }

  lemma {:induction false} ProperSubsetIsSmaller<T>(a: set<T>, b: set<T>)
    requires a < b
    ensures |a| < |b|
  {
    var x :| x in b && x !in a;
    assert |b - {x}| == |b| - 1;
    SubsetIsNotLarger(a, b - {x});
  }

  lemma {:induction false} SubsetIsNotLarger<T>(a: set<T>, b: set<T>)
    requires a <= b
    ensures |a| <= |b|
    decreases a
  {
    if a != {} {
      var x :| x in a;
      SubsetIsNotLarger(a - {x}, b - {x});
    }
  }

  // ----- The compiler loop

  /** The conditions once the macros from position `j` on have been resolved in place, or None if one of them
      refers to a loop or to a macro it cannot see. */
  function CompileFrom(infos: seq<MacroInfo>, conds: seq<Expr>, j: nat): Option<seq<Expr>>
    requires |conds| == |infos| && j <= |infos|
    decreases |infos| - j
  {
    if j == |infos| then Some(conds)
    else
      var o := Resolve(conds[j], [], Table(infos, conds, infos[j].visibility));
      if o.errors != [] || o.unknown != [] then None
      else CompileFrom(infos, conds[j := o.expr], j + 1)
  }

  function Compile(infos: seq<MacroInfo>): Option<seq<Expr>> {
    CompileFrom(infos, Conds(infos), 0)
  }

  /** The state of the loop at position `j`: macros before it are fully unfolded, the others are as written. */
  ghost predicate Progress(infos: seq<MacroInfo>, conds: seq<Expr>, j: nat, depth: nat) {
    && |conds| == |infos| && j <= |infos|
    && (forall i | 0 <= i < j :: Closed(conds[i]) && Unfold(depth, infos[i].cond, Raw(infos)) == conds[i])
    && (forall i | j <= i < |infos| :: conds[i] == infos[i].cond)
  }

  lemma ProgressTable(infos: seq<MacroInfo>, conds: seq<Expr>, j: nat, depth: nat, limit: nat)
    requires Collected(infos) && Progress(infos, conds, j, depth)
    ensures PartlyResolved(Table(infos, conds, limit), Raw(infos), depth)
  {
    var table := Table(infos, conds, limit);
    forall x | Defined(table, x)
      ensures Defined(Raw(infos), x)
      ensures table[x] == Raw(infos)[x]
           || (Closed(table[x].value) && Unfold(depth, Raw(infos)[x].value, Raw(infos)) == table[x].value)
    {
      var i := TableOnly(infos, conds, limit, x);
      TableHas(infos, Conds(infos), MAX_VISIBILITY, i);
    }
  }

  lemma ProgressStep(infos: seq<MacroInfo>, conds: seq<Expr>, j: nat, depth: nat) returns (depth': nat)
    requires Collected(infos) && Progress(infos, conds, j, depth) && j < |infos|
    requires Clean(Resolve(conds[j], [], Table(infos, conds, infos[j].visibility)))
    ensures Progress(infos, conds[j := Resolve(conds[j], [], Table(infos, conds, infos[j].visibility)).expr], j + 1, depth')
  {
    var table := Table(infos, conds, infos[j].visibility);
    ProgressTable(infos, conds, j, depth, infos[j].visibility);
    CleanRunUnfolds(conds[j], [], table, Raw(infos), depth);
    depth' := depth + |Unvisited(table, [])|;
    forall i | 0 <= i < j
      ensures Unfold(depth', infos[i].cond, Raw(infos)) == conds[i]
    {
      UnfoldStable(depth, depth', infos[i].cond, Raw(infos));
    }
  }

  /** When the loop succeeds, every output is the full unfolding of its raw condition. */
  lemma {:induction false} CompileFromUnfolds(infos: seq<MacroInfo>, conds: seq<Expr>, j: nat, depth: nat)
    requires Collected(infos) && Progress(infos, conds, j, depth) && CompileFrom(infos, conds, j).Some?
    ensures |CompileFrom(infos, conds, j).value| == |infos|
    ensures forall i | 0 <= i < |infos| :: UnfoldsTo(infos[i].cond, Raw(infos), CompileFrom(infos, conds, j).value[i])
    decreases |infos| - j
  {
    if j < |infos| {
      var depth' := ProgressStep(infos, conds, j, depth);
      var o := Resolve(conds[j], [], Table(infos, conds, infos[j].visibility));
      CompileFromUnfolds(infos, conds[j := o.expr], j + 1, depth');
    }
  }

  // ----- When does compilation succeed?

  /** A chain of references from `e` to the last name of `w`; the names before the last one are defined. */
  ghost predicate Chain(e: Expr, w: seq<string>, macros: Macros)
    decreases w
  {
    && w != [] && Mentions(e, w[0])
    && (|w| > 1 ==> Defined(macros, w[0]) && Chain(macros[w[0]].value, w[1..], macros))
  }

  ghost predicate Acyclic(infos: seq<MacroInfo>) {
    forall i, w | 0 <= i < |infos| && Chain(infos[i].cond, w, Raw(infos)) :: w[|w| - 1] != infos[i].name
  }

  /** `x` is a macro first defined after the one at position `j`. */
  ghost predicate Later(infos: seq<MacroInfo>, j: nat, x: string) {
    exists i :: j < i < |infos| && infos[i].name == x
  }

  /** A chain that macro `j` has to follow itself, because every macro on the way is compiled after it. */
  ghost predicate Exposed(infos: seq<MacroInfo>, j: nat, w: seq<string>)
    requires j < |infos|
  {
    Chain(infos[j].cond, w, Raw(infos)) && forall k | 0 <= k < |w| - 1 :: Later(infos, j, w[k])
  }

  /** No reference cycle, and every macro sees all it has to look up: its direct references, and the references
      of the later macros it reaches. */
  ghost predicate Resolvable(infos: seq<MacroInfo>) {
    && Acyclic(infos)
    && forall j, w | 0 <= j < |infos| && Exposed(infos, j, w) :: Visible(infos, w[|w| - 1], infos[j].visibility)
  }

  lemma {:induction false} ChainFuel(e: Expr, w: seq<string>, raw: Macros, depth: nat)
    requires Chain(e, w, raw) && Defined(raw, w[|w| - 1]) && Closed(Unfold(depth, e, raw))
    ensures |w| <= depth && Closed(Unfold(depth - |w|, raw[w[|w| - 1]].value, raw))
    decreases w, e
  {
    match e
    case And(cs) =>
      var i :| 0 <= i < |cs| && Mentions(cs[i], w[0]);
      assert Unfold(depth, e, raw).children[i] == Unfold(depth, cs[i], raw);
      ChainFuel(cs[i], w, raw, depth);
    case Or(cs) =>
      var i :| 0 <= i < |cs| && Mentions(cs[i], w[0]);
      assert Unfold(depth, e, raw).children[i] == Unfold(depth, cs[i], raw);
      ChainFuel(cs[i], w, raw, depth);
    case Not(c) => ChainFuel(c, w, raw, depth);
    case Ident(ref) =>
      if |w| > 1 {
        ChainFuel(raw[w[0]].value, w[1..], raw, depth - 1);
      }
  }

  /** A macro on a cycle has no full unfolding. */
  lemma {:induction false} CycleNeverCloses(x: string, w: seq<string>, raw: Macros, depth: nat)
    requires Defined(raw, x) && Chain(raw[x].value, w, raw) && w[|w| - 1] == x
    ensures !Closed(Unfold(depth, raw[x].value, raw))
  {
    if Closed(Unfold(depth, raw[x].value, raw)) {
      ChainFuel(raw[x].value, w, raw, depth);
      CycleNeverCloses(x, w, raw, depth - |w|);
    }
  }

  /** A clean run sees the end of every chain it has to follow. */
  lemma {:induction false} CleanRunSees(infos: seq<MacroInfo>, conds: seq<Expr>, j: nat, depth: nat,
                                        e: Expr, path: seq<string>, w: seq<string>)
    requires Collected(infos) && Progress(infos, conds, j, depth) && j < |infos|
    requires Clean(Resolve(e, path, Table(infos, conds, infos[j].visibility)))
    requires Chain(e, w, Raw(infos)) && forall k | 0 <= k < |w| - 1 :: Later(infos, j, w[k])
    ensures Visible(infos, w[|w| - 1], infos[j].visibility)
    decreases w, e
  {
    var table := Table(infos, conds, infos[j].visibility);
    match e
    case And(cs) =>
      var i :| 0 <= i < |cs| && Mentions(cs[i], w[0]);
      ResolveAllPart(cs, path, table, i);
      CleanRunSees(infos, conds, j, depth, cs[i], path, w);
    case Or(cs) =>
      var i :| 0 <= i < |cs| && Mentions(cs[i], w[0]);
      ResolveAllPart(cs, path, table, i);
      CleanRunSees(infos, conds, j, depth, cs[i], path, w);
    case Not(c) => CleanRunSees(infos, conds, j, depth, c, path, w);
    case Ident(ref) =>
      DefinedIffVisible(infos, conds, infos[j].visibility, w[0]);
      if |w| > 1 {
        assert Later(infos, j, w[0]);
        var i := TableOnly(infos, conds, infos[j].visibility, w[0]);
        TableHas(infos, Conds(infos), MAX_VISIBILITY, i);
        CleanRunSees(infos, conds, j, depth, table[w[0]].value, path + [w[0]], w[1..]);
      }
  }

  /** A run that is not clean followed a chain to an undefined name or back to a name met before. */
  lemma {:induction false} DirtyRunGivesChain(e: Expr, path: seq<string>, table: Macros) returns (w: seq<string>)
    requires !Clean(Resolve(e, path, table))
    ensures Chain(e, w, table) && (!Defined(table, w[|w| - 1]) || w[|w| - 1] in path + w[..|w| - 1])
    decreases Unvisited(table, path), e, 1
  {
    match e
    case And(cs) => w := DirtyChildGivesChain(cs, path, table);
    case Or(cs) => w := DirtyChildGivesChain(cs, path, table);
    case Not(c) => w := DirtyRunGivesChain(c, path, table);
    case Ident(ref) =>
      w := [ref.name];
      if Defined(table, ref.name) && ref.name !in path {
        assert ref.name in Unvisited(table, path) && ref.name !in Unvisited(table, path + [ref.name]);
        var v := DirtyRunGivesChain(table[ref.name].value, path + [ref.name], table);
        w := [ref.name] + v;
        assert w[1..] == v;
        assert path + w[..|w| - 1] == path + [ref.name] + v[..|v| - 1];
      }
  }

  lemma {:induction false} DirtyChildGivesChain(es: seq<Expr>, path: seq<string>, table: Macros) returns (w: seq<string>)
    requires var o := ResolveAll(es, path, table); o.errors != [] || o.unknown != []
    ensures exists i :: 0 <= i < |es| && Chain(es[i], w, table)
    ensures w != [] && (!Defined(table, w[|w| - 1]) || w[|w| - 1] in path + w[..|w| - 1])
    decreases Unvisited(table, path), es, 0
  {
    var n := |es| - 1;
    if Clean(Resolve(es[n], path, table)) {
      w := DirtyChildGivesChain(es[..n], path, table);
      var i :| 0 <= i < n && Chain(es[..n][i], w, table);
      assert Chain(es[i], w, table);
    } else {
      w := DirtyRunGivesChain(es[n], path, table);
    }
  }

  /** The names on the way of a chain through the current table are not compiled yet, so it is a raw chain. */
  lemma {:induction false} ChainIsRaw(infos: seq<MacroInfo>, conds: seq<Expr>, j: nat, depth: nat, limit: nat,
                                      e: Expr, w: seq<string>)
    requires Collected(infos) && Progress(infos, conds, j, depth)
    requires Chain(e, w, Table(infos, conds, limit))
    ensures Chain(e, w, Raw(infos))
    ensures forall k | 0 <= k < |w| - 1 :: exists i :: j <= i < |infos| && infos[i].name == w[k]
    decreases w
  {
    if |w| > 1 {
      var i := TableOnly(infos, conds, limit, w[0]);
      TableHas(infos, Conds(infos), MAX_VISIBILITY, i);
      if i < j {
        ClosedMentionsNothing(conds[i], w[1]);
        assert false;
      }
      ChainIsRaw(infos, conds, j, depth, limit, infos[i].cond, w[1..]);
      forall k | 0 <= k < |w| - 1
        ensures exists i :: j <= i < |infos| && infos[i].name == w[k]
      {
        if k > 0 { assert w[k] == w[1..][k - 1]; }
      }
    }
  }

  lemma {:induction false} ChainParts(e: Expr, w: seq<string>, macros: Macros, k: nat)
    requires Chain(e, w, macros) && k < |w| - 1
    ensures Chain(e, w[..k + 1], macros)
    ensures Defined(macros, w[k]) && Chain(macros[w[k]].value, w[k + 1..], macros)
    decreases w
  {
    if k > 0 {
      ChainParts(macros[w[0]].value, w[1..], macros, k - 1);
      assert w[1..][..k] == w[..k + 1][1..];
      assert w[1..][k..] == w[k + 1..];
    }
  }

  /** A name on a chain of an acyclic set that the chain met before cannot come back. */
  lemma AcyclicChain(infos: seq<MacroInfo>, e: Expr, w: seq<string>, k: nat)
    requires Collected(infos) && Acyclic(infos) && Chain(e, w, Raw(infos)) && k < |w| - 1
    ensures w[|w| - 1] != w[k]
  {
    hide Table, Mentions;
    ChainParts(e, w, Raw(infos), k);
    var i := TableOnly(infos, Conds(infos), MAX_VISIBILITY, w[k]);
    assert Chain(infos[i].cond, w[k + 1..], Raw(infos));
  }

  /** On a raw chain from macro `j` of an acyclic set, the names before the last one are neither `j` nor the last. */
  lemma OnTheWay(infos: seq<MacroInfo>, j: nat, w: seq<string>, k: nat)
    requires Collected(infos) && Acyclic(infos) && j < |infos| && Chain(infos[j].cond, w, Raw(infos)) && k < |w| - 1
    ensures w[k] != infos[j].name && w[k] != w[|w| - 1]
  {
    hide Raw, Chain;
    ChainParts(infos[j].cond, w, Raw(infos), k);
    assert w[..k + 1][k] == w[k];
    AcyclicChain(infos, infos[j].cond, w, k);
  }

  /** A run that is not clean gives a chain that macro `j` has to follow and that breaks off. */
  lemma DirtyStepGivesChain(infos: seq<MacroInfo>, conds: seq<Expr>, j: nat, depth: nat) returns (w: seq<string>)
    requires Collected(infos) && Acyclic(infos) && Progress(infos, conds, j, depth) && j < |infos|
    requires !Clean(Resolve(conds[j], [], Table(infos, conds, infos[j].visibility)))
    ensures Exposed(infos, j, w) && !Visible(infos, w[|w| - 1], infos[j].visibility)
  {
    var limit := infos[j].visibility;
    var table := Table(infos, conds, limit);
    w := DirtyRunGivesChain(conds[j], [], table);
    assert w != [];
    hide Resolve, Table, Raw, Chain, Acyclic, Collected, Visible, Clean, Defined, Unfold, Closed;
    ChainIsRaw(infos, conds, j, depth, limit, conds[j], w);
    forall k | 0 <= k < |w| - 1
      ensures Later(infos, j, w[k]) && w[k] != w[|w| - 1]
    {
      OnTheWay(infos, j, w, k);
    }
    DefinedIffVisible(infos, conds, limit, w[|w| - 1]);
  }

  lemma StepIsClean(infos: seq<MacroInfo>, conds: seq<Expr>, j: nat, depth: nat)
    requires Collected(infos) && Resolvable(infos) && Progress(infos, conds, j, depth) && j < |infos|
    ensures Clean(Resolve(conds[j], [], Table(infos, conds, infos[j].visibility)))
  {
    if !Clean(Resolve(conds[j], [], Table(infos, conds, infos[j].visibility))) {
      var w := DirtyStepGivesChain(infos, conds, j, depth);
    }
  }

  /** Compilation fails only at a macro whose run is not clean. */
  lemma {:induction false} FailureGivesStep(infos: seq<MacroInfo>, conds: seq<Expr>, j: nat, depth: nat)
    returns (conds': seq<Expr>, j': nat, depth': nat)
    requires Collected(infos) && Progress(infos, conds, j, depth) && CompileFrom(infos, conds, j).None?
    ensures Progress(infos, conds', j', depth') && j' < |infos|
    ensures !Clean(Resolve(conds'[j'], [], Table(infos, conds', infos[j'].visibility)))
    decreases |infos| - j
  {
    var o := Resolve(conds[j], [], Table(infos, conds, infos[j].visibility));
    if Clean(o) {
      depth' := ProgressStep(infos, conds, j, depth);
      conds', j', depth' := FailureGivesStep(infos, conds[j := o.expr], j + 1, depth');
    } else {
      conds', j', depth' := conds, j, depth;
    }
  }

  lemma {:induction false} CompileFromSees(infos: seq<MacroInfo>, conds: seq<Expr>, j: nat, depth: nat)
    requires Collected(infos) && Progress(infos, conds, j, depth) && CompileFrom(infos, conds, j).Some?
    ensures forall i, w | j <= i < |infos| && Exposed(infos, i, w) :: Visible(infos, w[|w| - 1], infos[i].visibility)
    decreases |infos| - j
  {
    if j < |infos| {
      var depth' := ProgressStep(infos, conds, j, depth);
      var o := Resolve(conds[j], [], Table(infos, conds, infos[j].visibility));
      CompileFromSees(infos, conds[j := o.expr], j + 1, depth');
      forall w | Exposed(infos, j, w)
        ensures Visible(infos, w[|w| - 1], infos[j].visibility)
      {
        CleanRunSees(infos, conds, j, depth, conds[j], [], w);
      }
    }
  }

  /** Compilation succeeds exactly on the resolvable sets of macros, and then every output condition is free of
      identifiers and is the full unfolding of the raw one. */
  lemma CompileCorrect(infos: seq<MacroInfo>)
    requires Collected(infos)
    ensures Compile(infos).Some? <==> Resolvable(infos)
    ensures Compile(infos).Some? ==>
      && |Compile(infos).value| == |infos|
      && forall i | 0 <= i < |infos| :: UnfoldsTo(infos[i].cond, Raw(infos), Compile(infos).value[i])
  {
    if Compile(infos).Some? {
      CompileFromUnfolds(infos, Conds(infos), 0, 0);
      CompileFromSees(infos, Conds(infos), 0, 0);
      forall i, w | 0 <= i < |infos| && Chain(infos[i].cond, w, Raw(infos))
        ensures w[|w| - 1] != infos[i].name
      {
        if w[|w| - 1] == infos[i].name {
          TableHas(infos, Conds(infos), MAX_VISIBILITY, i);
          var depth: nat :| Unfold(depth, infos[i].cond, Raw(infos)) == Compile(infos).value[i];
          CycleNeverCloses(infos[i].name, w, Raw(infos), depth);
        }
      }
    }
    if Resolvable(infos) && Compile(infos).None? {
      var conds, j, depth := FailureGivesStep(infos, Conds(infos), 0, 0);
      StepIsClean(infos, conds, j, depth);
    }
  }

  /** On success every direct reference was visible to the macro that makes it. */
  lemma DirectReferencesVisible(infos: seq<MacroInfo>, j: nat, x: string)
    requires Collected(infos) && Compile(infos).Some? && j < |infos| && Mentions(infos[j].cond, x)
    ensures Visible(infos, x, infos[j].visibility)
  {
    CompileCorrect(infos);
    var w := [x];
    assert Exposed(infos, j, w);
    assert w[|w| - 1] == x;
  }

  /** A compiled macro is true on an event iff its raw definition is, under any reading of the macro names that
      agrees with the raw definitions. */
  lemma CompiledMeansRaw(infos: seq<MacroInfo>, i: nat, env: string -> bool, checks: int -> bool)
    requires Collected(infos) && Compile(infos).Some? && i < |infos| && Models(env, checks, Raw(infos))
    ensures |Compile(infos).value| == |infos|
    ensures Holds(Compile(infos).value[i], env, checks) == Holds(infos[i].cond, env, checks)
  {
    CompileCorrect(infos);
    var depth: nat :| Unfold(depth, infos[i].cond, Raw(infos)) == Compile(infos).value[i];
    UnfoldMeans(depth, infos[i].cond, Raw(infos), env, checks);
  }

  /** The reading that gives each macro the truth value of its compiled condition, and `base` to other names. */
  function Read(infos: seq<MacroInfo>, outs: seq<Expr>, base: string -> bool, checks: int -> bool, x: string): bool
    requires |outs| == |infos|
  {
    if infos == [] then base(x)
    else
      var n := |infos| - 1;
      if infos[n].name == x then Holds(outs[n], base, checks) else Read(infos[..n], outs[..n], base, checks, x)
  }

  ghost function Reading(infos: seq<MacroInfo>, outs: seq<Expr>, base: string -> bool, checks: int -> bool): string -> bool
    requires |outs| == |infos|
  {
    x => Read(infos, outs, base, checks, x)
  }

  lemma {:induction false} ReadingAt(infos: seq<MacroInfo>, outs: seq<Expr>, base: string -> bool, checks: int -> bool, i: nat)
    requires Collected(infos) && |outs| == |infos| && i < |infos|
    ensures Read(infos, outs, base, checks, infos[i].name) == Holds(outs[i], base, checks)
  {
    var n := |infos| - 1;
    if i < n {
      assert infos[i].name != infos[n].name;
      ReadingAt(infos[..n], outs[..n], base, checks, i);
    }
  }

  lemma {:induction false} ReadingAgrees(infos: seq<MacroInfo>, outs: seq<Expr>, base: string -> bool, checks: int -> bool,
                                         e: Expr, depth: nat)
    requires Collected(infos) && |outs| == |infos|
    requires forall i | 0 <= i < |infos| :: UnfoldsTo(infos[i].cond, Raw(infos), outs[i])
    requires Closed(Unfold(depth, e, Raw(infos)))
    ensures Holds(e, Reading(infos, outs, base, checks), checks) == Holds(Unfold(depth, e, Raw(infos)), base, checks)
    decreases e
  {
    var raw, env := Raw(infos), Reading(infos, outs, base, checks);
    var u := Unfold(depth, e, raw);
    match e
    case And(cs) =>
      forall i | 0 <= i < |cs| ensures Holds(cs[i], env, checks) == Holds(u.children[i], base, checks) {
        assert u.children[i] == Unfold(depth, cs[i], raw);
        ReadingAgrees(infos, outs, base, checks, cs[i], depth);
      }
      ByIndex(cs, env, checks);
      ByIndex(u.children, base, checks);
    case Or(cs) =>
      forall i | 0 <= i < |cs| ensures Holds(cs[i], env, checks) == Holds(u.children[i], base, checks) {
        assert u.children[i] == Unfold(depth, cs[i], raw);
        ReadingAgrees(infos, outs, base, checks, cs[i], depth);
      }
      ByIndex(cs, env, checks);
      ByIndex(u.children, base, checks);
    case Not(c) => ReadingAgrees(infos, outs, base, checks, c, depth);
    case Check(_) =>
    case Ident(ref) =>
      var i := TableOnly(infos, Conds(infos), MAX_VISIBILITY, ref.name);
      assert u == Unfold(depth - 1, infos[i].cond, raw);
      UnfoldsToUnique(infos[i].cond, raw, u, outs[i]);
      ReadingAt(infos, outs, base, checks, i);
  }

  lemma ReadingOfMacro(infos: seq<MacroInfo>, outs: seq<Expr>, base: string -> bool, checks: int -> bool, i: nat)
    requires Collected(infos) && |outs| == |infos| && i < |infos|
    requires forall k | 0 <= k < |infos| :: UnfoldsTo(infos[k].cond, Raw(infos), outs[k])
    ensures var env := Reading(infos, outs, base, checks); env(infos[i].name) == Holds(infos[i].cond, env, checks)
  {
    var depth: nat :| Unfold(depth, infos[i].cond, Raw(infos)) == outs[i];
    ReadingAgrees(infos, outs, base, checks, infos[i].cond, depth);
    ReadingAt(infos, outs, base, checks, i);
  }

  /** Such readings exist, so CompiledMeansRaw speaks about every event: the compiled conditions themselves give one. */
  lemma CompiledIsAReading(infos: seq<MacroInfo>, base: string -> bool, checks: int -> bool)
    requires Collected(infos) && Compile(infos).Some?
    ensures |Compile(infos).value| == |infos|
    ensures Models(Reading(infos, Compile(infos).value, base, checks), checks, Raw(infos))
  {
    CompileCorrect(infos);
    var raw, outs := Raw(infos), Compile(infos).value;
    var env := Reading(infos, outs, base, checks);
    forall x | Defined(raw, x)
      ensures env(x) == Holds(raw[x].value, env, checks)
    {
      var i := TableOnly(infos, Conds(infos), MAX_VISIBILITY, x);
      ReadingOfMacro(infos, outs, base, checks, i);
    }
  }

  /** A rule condition is resolved against the compiled macros with no visibility limit: it never runs into a loop,
      it fails only on a name that is no macro at all, and otherwise it becomes its full raw unfolding. */
  lemma RuleConditionUnfolds(infos: seq<MacroInfo>, cond: Expr)
    requires Collected(infos) && Compile(infos).Some?
    ensures |Compile(infos).value| == |infos|
    ensures var o := Resolve(cond, [], Table(infos, Compile(infos).value, MAX_VISIBILITY));
            && o.errors == []
            && (o.unknown == [] <==> forall x | Mentions(cond, x) :: Visible(infos, x, MAX_VISIBILITY))
            && (o.unknown == [] ==> UnfoldsTo(cond, Raw(infos), o.expr))
  {
    CompileCorrect(infos);
    var outs := Compile(infos).value;
    var table := Table(infos, outs, MAX_VISIBILITY);
    var o := Resolve(cond, [], table);
    if !Clean(o) {
      var w := DirtyRunGivesChain(cond, [], table);
      if |w| > 1 {
        var i := TableOnly(infos, outs, MAX_VISIBILITY, w[0]);
        ClosedMentionsNothing(outs[i], w[1]);
      }
      DefinedIffVisible(infos, outs, MAX_VISIBILITY, w[0]);
    }
    if o.errors != [] {
      var w := ErrorGivesWalk(cond, [], table);
      var i := TableOnly(infos, outs, MAX_VISIBILITY, w[0]);
      ClosedMentionsNothing(outs[i], w[1]);
    }
    if o.unknown == [] {
      forall x | Mentions(cond, x)
        ensures Visible(infos, x, MAX_VISIBILITY)
      {
        MentionedIsResolved(cond, [], table, x);
        var r :| r in o.resolved && r.name == x;
        ResolvedIsMentioned(cond, [], table, r);
        DefinedIffVisible(infos, outs, MAX_VISIBILITY, x);
      }
      RuleUnfolds(infos, outs, cond);
    }
  }

  lemma RuleUnfolds(infos: seq<MacroInfo>, outs: seq<Expr>, cond: Expr)
    requires Collected(infos) && |outs| == |infos|
    requires forall i | 0 <= i < |infos| :: UnfoldsTo(infos[i].cond, Raw(infos), outs[i])
    requires Clean(Resolve(cond, [], Table(infos, outs, MAX_VISIBILITY)))
    ensures UnfoldsTo(cond, Raw(infos), Resolve(cond, [], Table(infos, outs, MAX_VISIBILITY)).expr)
  {
    var depth := CommonDepth(infos, outs, |infos|);
    ProgressTable(infos, outs, |infos|, depth, MAX_VISIBILITY);
    CleanRunUnfolds(cond, [], Table(infos, outs, MAX_VISIBILITY), Raw(infos), depth);
  }

  lemma {:induction false} CommonDepth(infos: seq<MacroInfo>, outs: seq<Expr>, n: nat) returns (depth: nat)
    requires n <= |infos| == |outs|
    requires forall i | 0 <= i < |infos| :: UnfoldsTo(infos[i].cond, Raw(infos), outs[i])
    ensures forall i | 0 <= i < n :: Closed(outs[i]) && Unfold(depth, infos[i].cond, Raw(infos)) == outs[i]
  {
    if n == 0 {
      depth := 0;
    } else {
      var d := CommonDepth(infos, outs, n - 1);
      var f: nat :| Unfold(f, infos[n - 1].cond, Raw(infos)) == outs[n - 1];
      depth := d + f;
      UnfoldStable(f, depth, infos[n - 1].cond, Raw(infos));
      forall i | 0 <= i < n - 1 ensures Unfold(depth, infos[i].cond, Raw(infos)) == outs[i] {
        UnfoldStable(d, depth, infos[i].cond, Raw(infos));
      }
    }
  }

  // ----- The stateful compiler

  datatype FalcoMacro = FalcoMacro(name: string, condition: Expr, used: bool)

  function Conditions(macros: seq<FalcoMacro>): seq<Expr> {
    seq(|macros|, i requires 0 <= i < |macros| => macros[i].condition)
  }

  ghost predicate Aligned(infos: seq<MacroInfo>, macros: seq<FalcoMacro>) {
    |macros| == |infos| && forall i | 0 <= i < |infos| :: macros[i].name == infos[i].name
  }

  /** Some collected macro mentions the name. */
  ghost predicate Referred(infos: seq<MacroInfo>, x: string) {
    exists j :: 0 <= j < |infos| && Mentions(infos[j].cond, x)
  }

  method MarkUsed(macros: seq<FalcoMacro>, resolved: seq<Ref>) returns (marked: seq<FalcoMacro>)
    ensures |marked| == |macros|
    ensures forall i | 0 <= i < |macros| ::
      marked[i] == macros[i].(used := macros[i].used || exists r :: r in resolved && r.name == macros[i].name)
  {
    marked := macros;
    var k := 0;
    while k < |resolved|
      invariant 0 <= k <= |resolved| && |marked| == |macros|
      invariant forall i | 0 <= i < |macros| ::
        marked[i] == macros[i].(used := macros[i].used || exists r :: r in resolved[..k] && r.name == macros[i].name)
    {
      var name := resolved[k].name;
      marked := seq(|marked|, i requires 0 <= i < |marked| =>
        if marked[i].name == name then marked[i].(used := true) else marked[i]);
      assert resolved[..k + 1] == resolved[..k] + [resolved[k]];
      k := k + 1;
    }
    assert resolved[..k] == resolved;
  }

  /** resolve_macros: fill the resolver with what is visible, run it, and mark the macros it substituted. */
  method ResolveMacros(resolver: Resolver, infos: seq<MacroInfo>, macros: seq<FalcoMacro>, ast: Expr, visibility: nat)
    returns (o: Outcome, marked: seq<FalcoMacro>)
    requires Aligned(infos, macros)
    modifies resolver
    ensures o == Resolve(ast, [], Table(infos, Conditions(macros), visibility))
    ensures Aligned(infos, marked) && Conditions(marked) == Conditions(macros)
    ensures forall i | 0 <= i < |infos| ::
      marked[i].used <==> macros[i].used || (Clean(o) && exists r :: r in o.resolved && r.name == infos[i].name)
  {
    resolver.Clear();
    var i := 0;
    assert infos[..0] == [] && Conditions(macros)[..0] == [];
    while i < |infos|
      invariant 0 <= i <= |infos|
      invariant resolver.macros == Table(infos[..i], Conditions(macros)[..i], visibility)
    {
      assert infos[..i + 1][..i] == infos[..i] && Conditions(macros)[..i + 1][..i] == Conditions(macros)[..i];
      if infos[i].index < visibility {
        resolver.SetMacro(infos[i].name, Some(macros[i].condition));
      }
      i := i + 1;
    }
    assert infos[..i] == infos && Conditions(macros)[..i] == Conditions(macros);
    var result, changed := resolver.Run(ast);
    o := Outcome(result, resolver.unknown, resolver.resolved, resolver.errors);
    marked := macros;
    if resolver.errors == [] && resolver.unknown == [] {
      marked := MarkUsed(macros, resolver.resolved);
    }
    assert Conditions(marked) == Conditions(macros);
  }

  /** The used marks once the macros before position `j` have been compiled. */
  ghost predicate Marked(infos: seq<MacroInfo>, macros: seq<FalcoMacro>, j: nat) {
    && Aligned(infos, macros) && j <= |infos|
    && (forall i | 0 <= i < |infos| && macros[i].used :: Referred(infos, infos[i].name))
    && (forall i, k | 0 <= i < |infos| && 0 <= k < j && Mentions(infos[k].cond, infos[i].name) :: macros[i].used)
  }

  /** One turn of the loop: macro `j` is resolved against the current, partly resolved conditions of the others. */
  method CompileOne(resolver: Resolver, infos: seq<MacroInfo>, macros: seq<FalcoMacro>, j: nat, ghost depth: nat)
    returns (ok: bool, out: seq<FalcoMacro>, ghost depth': nat)
    requires Collected(infos) && j < |infos| && Marked(infos, macros, j)
    requires Progress(infos, Conditions(macros), j, depth)
    modifies resolver
    ensures !ok ==> CompileFrom(infos, Conditions(macros), j).None?
    ensures ok ==> Marked(infos, out, j + 1) && Progress(infos, Conditions(out), j + 1, depth')
    ensures ok ==> CompileFrom(infos, Conditions(out), j + 1) == CompileFrom(infos, Conditions(macros), j)
  {
    ghost var conds := Conditions(macros);
    var o, marked := ResolveMacros(resolver, infos, macros, macros[j].condition, infos[j].visibility);
    ok, out, depth' := o.errors == [] && o.unknown == [], marked, depth;
    if ok {
      depth' := ProgressStep(infos, conds, j, depth);
      MarksAreReferences(infos, conds, j, o);
      assert Marked(infos, marked, j + 1);
      out := marked[j := marked[j].(condition := o.expr)];
      assert Conditions(out) == conds[j := o.expr];
    }
  }

  /** The loop over all macros, in place and in order. It succeeds on exactly the resolvable sets, leaves the full
      unfolding of each raw condition, and marks as used the macros that some macro mentions. */
  method CompileMacros(infos: seq<MacroInfo>) returns (ok: bool, out: seq<FalcoMacro>)
    requires Collected(infos)
    ensures ok <==> Resolvable(infos)
    ensures ok ==> Aligned(infos, out) && Compile(infos) == Some(Conditions(out))
    ensures ok ==> forall i | 0 <= i < |infos| :: UnfoldsTo(infos[i].cond, Raw(infos), Conditions(out)[i])
    ensures ok ==> forall i | 0 <= i < |infos| :: out[i].used <==> Referred(infos, infos[i].name)
  {
    out := seq(|infos|, i requires 0 <= i < |infos| => FalcoMacro(infos[i].name, infos[i].cond, false));
    assert Conditions(out) == Conds(infos);
    var resolver := new Resolver();
    ghost var depth: nat := 0;
    ok := true;
    var j := 0;
    while j < |infos| && ok
      invariant 0 <= j <= |infos|
      invariant !ok ==> Compile(infos).None?
      invariant ok ==> Marked(infos, out, j) && Progress(infos, Conditions(out), j, depth)
      invariant ok ==> CompileFrom(infos, Conditions(out), j) == Compile(infos)
      decreases |infos| - j
    {
      ok, out, depth := CompileOne(resolver, infos, out, j, depth);
      j := j + 1;
    }
    CompileCorrect(infos);
  }

  /** What a clean step marks: everything its raw condition mentions, and nothing that no raw condition mentions. */
  lemma MarksAreReferences(infos: seq<MacroInfo>, conds: seq<Expr>, j: nat, o: Outcome)
    requires Collected(infos) && j < |infos| == |conds| && conds[j] == infos[j].cond
    requires forall i | 0 <= i < |infos| :: Closed(conds[i]) || conds[i] == infos[i].cond
    requires o == Resolve(conds[j], [], Table(infos, conds, infos[j].visibility)) && Clean(o)
    ensures forall x | Mentions(infos[j].cond, x) :: exists r :: r in o.resolved && r.name == x
    ensures forall r | r in o.resolved :: Referred(infos, r.name)
  {
    var table := Table(infos, conds, infos[j].visibility);
    forall x | Mentions(infos[j].cond, x)
      ensures exists r :: r in o.resolved && r.name == x
    {
      MentionedIsResolved(conds[j], [], table, x);
    }
    forall r | r in o.resolved
      ensures Referred(infos, r.name)
    {
      ResolvedIsMentioned(conds[j], [], table, r);
      if !Mentions(conds[j], r.name) {
        var y :| Defined(table, y) && Mentions(table[y].value, r.name);
        var i := TableOnly(infos, conds, infos[j].visibility, y);
        if Closed(conds[i]) { ClosedMentionsNothing(conds[i], r.name); }
      }
    }
  }
}
