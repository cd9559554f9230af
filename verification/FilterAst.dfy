/** The part of the filter syntax tree that macro resolution looks at. */
module FilterAst {
  /** An identifier node, or the record of one: its name and its position in the condition text. */
  datatype Ref = Ref(name: string, pos: int)

  /** A parsed condition. `Check` stands for every node the resolver treats as a leaf: unary and binary
      checks, values, lists, fields and field transformers. */
  datatype Expr =
    | And(children: seq<Expr>)
    | Or(children: seq<Expr>)
    | Not(child: Expr)
    | Ident(ref: Ref)
    | Check(id: int)

  /** The identifiers left in a tree, in reading order. */
  function Idents(e: Expr): seq<Ref>
    decreases e, 1
  {
    match e
    case And(children) => IdentsAll(children)
    case Or(children) => IdentsAll(children)
    case Not(child) => Idents(child)
    case Ident(ref) => [ref]
    case Check(_) => []
  }

  function IdentsAll(es: seq<Expr>): seq<Ref>
    decreases es, 0
  {
    if es == [] then [] else IdentsAll(es[..|es| - 1]) + Idents(es[|es| - 1])
  }

  /** Whether the tree mentions the name `x`. */
  predicate Mentions(e: Expr, x: string)
    decreases e
  {
    match e
    case And(children) => exists c | c in children :: Mentions(c, x)
    case Or(children) => exists c | c in children :: Mentions(c, x)
    case Not(child) => Mentions(child, x)
    case Ident(ref) => ref.name == x
    case Check(_) => false
  }

  /** The truth value of a tree for one event: `checks` says which leaf checks the event passes, `env` gives
      the truth value of each identifier. */
  predicate Holds(e: Expr, env: string -> bool, checks: int -> bool)
    decreases e
  {
    match e
    case And(children) => forall c | c in children :: Holds(c, env, checks)
    case Or(children) => exists c | c in children :: Holds(c, env, checks)
    case Not(child) => !Holds(child, env, checks)
    case Ident(ref) => env(ref.name)
    case Check(id) => checks(id)
  }

  lemma {:induction false} MentionsIsIdents(e: Expr, x: string)
    ensures Mentions(e, x) <==> exists r :: r in Idents(e) && r.name == x
    decreases e, 1
  {
    match e
    case And(children) => MentionsIsIdentsAll(children, x);
    case Or(children) => MentionsIsIdentsAll(children, x);
    case Not(child) => MentionsIsIdents(child, x);
    case Ident(ref) => assert ref in Idents(e);
    case Check(_) =>
  }

  lemma {:induction false} MentionsIsIdentsAll(es: seq<Expr>, x: string)
    ensures (exists c | c in es :: Mentions(c, x)) <==> exists r :: r in IdentsAll(es) && r.name == x
    decreases es, 0
  {
    if es != [] {
      var n := |es| - 1;
      MentionsIsIdentsAll(es[..n], x);
      MentionsIsIdents(es[n], x);
      assert es == es[..n] + [es[n]];
      forall c | c in es
        ensures c in es[..n] || c == es[n]
      {
      }
    }
  }
}
