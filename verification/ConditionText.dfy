/** How a condition text is read: `or` binds weaker than `and`, `and` weaker than `not`, parentheses group. */
module ConditionText {
  import opened Options
  import opened ConditionLexer

  // ----- Reading

  datatype Cond =
    | All(conds: seq<Cond>)
    | Any(conds: seq<Cond>)
    | Neg(cond: Cond)
    | Comparison(field: string, op: string, operand: Operand)
    | Named(name: string)

  /** What a value as written stands for: quotation marks are not part of it. */
  function Meaning(l: string): string {
    if |l| > 1 && QuoteMark(l[0]) then l[1..|l| - 1] else l
  }

  /** What an event makes of a condition: which values its fields compare to, and what the names stand for. A field compares
      to a list if it does to one of its values. */
  predicate Truth(c: Cond, passes: (string, string, string) -> bool, env: string -> bool)
    decreases c
  {
    match c
    case All(conds) => forall x | x in conds :: Truth(x, passes, env)
    case Any(conds) => exists x | x in conds :: Truth(x, passes, env)
    case Neg(cond) => !Truth(cond, passes, env)
    case Comparison(field, op, operand) => Compares(field, op, operand, passes)
    case Named(name) => env(name)
  }

  predicate Compares(field: string, op: string, x: Operand, passes: (string, string, string) -> bool) {
    match x
    case Nothing => passes(field, op, "")
    case One(l) => passes(field, op, Meaning(l))
    case Many(ls) => exists l | l in ls :: passes(field, op, Meaning(l))
  }

  /** What was read from the front, and the tokens behind it. */
  datatype Reading = Unreadable | Read(cond: Cond, rest: seq<Token>)

  /** The conditions of a chain, and the tokens behind it. */
  datatype Chain = Broken | Chain(conds: seq<Cond>, rest: seq<Token>)

  function ReadOr(t: seq<Token>): (r: Reading)
    ensures r.Read? ==> |r.rest| < |t|
    decreases |t|, 6
  {
    var chain := Ors(t);
    if chain.Chain? then Read(Either(chain.conds), chain.rest) else Unreadable
  }

  function Either(conds: seq<Cond>): Cond {
    if |conds| == 1 then conds[0] else Any(conds)
  }

  function Ors(t: seq<Token>): (r: Chain)
    ensures r.Chain? ==> |r.rest| < |t|
    decreases |t|, 5
  {
    var first := ReadAnd(t);
    if first.Read? then OrTail(first.rest, [first.cond]) else Broken
  }

  function OrTail(t: seq<Token>, read: seq<Cond>): (r: Chain)
    ensures r.Chain? ==> |r.rest| <= |t|
    decreases |t|, 4
  {
    if t != [] && t[0].Or? then
      var next := ReadAnd(t[1..]);
      if next.Read? then OrTail(next.rest, read + [next.cond]) else Broken
    else Chain(read, t)
  }

  function ReadAnd(t: seq<Token>): (r: Reading)
    ensures r.Read? ==> |r.rest| < |t|
    decreases |t|, 3
  {
    var chain := Ands(t);
    if chain.Chain? then Read(Together(chain.conds), chain.rest) else Unreadable
  }

  function Together(conds: seq<Cond>): Cond {
    if |conds| == 1 then conds[0] else All(conds)
  }

  function Ands(t: seq<Token>): (r: Chain)
    ensures r.Chain? ==> |r.rest| < |t|
    decreases |t|, 2
  {
    var first := ReadNot(t);
    if first.Read? then AndTail(first.rest, [first.cond]) else Broken
  }

  function AndTail(t: seq<Token>, read: seq<Cond>): (r: Chain)
    ensures r.Chain? ==> |r.rest| <= |t|
    decreases |t|, 1
  {
    if t != [] && t[0].And? then
      var next := ReadNot(t[1..]);
      if next.Read? then AndTail(next.rest, read + [next.cond]) else Broken
    else Chain(read, t)
  }

  function ReadNot(t: seq<Token>): (r: Reading)
    ensures r.Read? ==> |r.rest| < |t|
    decreases |t|, 1
  {
    if t != [] && t[0].Not? then
      var inner := ReadNot(t[1..]);
      if inner.Read? then Read(Neg(inner.cond), inner.rest) else Unreadable
    else ReadPrimary(t)
  }

  function ReadPrimary(t: seq<Token>): (r: Reading)
    ensures r.Read? ==> |r.rest| < |t|
    decreases |t|, 0
  {
    if t == [] then Unreadable
    else
      match t[0]
      case Open =>
        var inner := ReadOr(t[1..]);
        if inner.Read? && inner.rest != [] && inner.rest[0].Close? then Read(inner.cond, inner.rest[1..]) else Unreadable
      case Check(field, op, operand) => Read(Comparison(field, op, operand), t[1..])
      case Name(name) => Read(Named(name), t[1..])
      case _ => Unreadable
  }

  // ----- What follows a condition does not change how it is read, unless it can continue it

  predicate ContinuesAnd(ext: seq<Token>) {
    ext != [] && ext[0].And?
  }

  predicate ContinuesOr(ext: seq<Token>) {
    ext != [] && (ext[0].And? || ext[0].Or?)
  }

  lemma Behind(t: seq<Token>, ext: seq<Token>)
    requires t != []
    ensures (t + ext)[1..] == t[1..] + ext && (t + ext)[0] == t[0]
  {
  }

  lemma {:induction false} OrsOn(t: seq<Token>, ext: seq<Token>)
    requires Ors(t).Chain? && (Ors(t).rest != [] || !ContinuesOr(ext))
    ensures Ors(t + ext) == Chain(Ors(t).conds, Ors(t).rest + ext)
    decreases |t|, 5
  {
    ReadAndOn(t, ext);
    OrTailOn(ReadAnd(t).rest, ext, [ReadAnd(t).cond]);
  }

  lemma {:induction false} OrTailOn(t: seq<Token>, ext: seq<Token>, read: seq<Cond>)
    requires OrTail(t, read).Chain? && (OrTail(t, read).rest != [] || !ContinuesOr(ext))
    ensures OrTail(t + ext, read) == Chain(OrTail(t, read).conds, OrTail(t, read).rest + ext)
    decreases |t|, 4
  {
    if t != [] && t[0].Or? {
      Behind(t, ext);
      ReadAndOn(t[1..], ext);
      var next := ReadAnd(t[1..]);
      OrTailOn(next.rest, ext, read + [next.cond]);
    } else if t == [] {
      assert t + ext == ext;
    }
  }

  lemma {:induction false} ReadAndOn(t: seq<Token>, ext: seq<Token>)
    requires ReadAnd(t).Read? && (ReadAnd(t).rest != [] || !ContinuesAnd(ext))
    ensures ReadAnd(t + ext) == Read(ReadAnd(t).cond, ReadAnd(t).rest + ext)
    decreases |t|, 2
  {
    ReadNotOn(t, ext);
    AndTailOn(ReadNot(t).rest, ext, [ReadNot(t).cond]);
  }

  lemma {:induction false} AndTailOn(t: seq<Token>, ext: seq<Token>, read: seq<Cond>)
    requires AndTail(t, read).Chain? && (AndTail(t, read).rest != [] || !ContinuesAnd(ext))
    ensures AndTail(t + ext, read) == Chain(AndTail(t, read).conds, AndTail(t, read).rest + ext)
    decreases |t|, 1
  {
    if t != [] && t[0].And? {
      Behind(t, ext);
      ReadNotOn(t[1..], ext);
      var next := ReadNot(t[1..]);
      AndTailOn(next.rest, ext, read + [next.cond]);
    } else if t == [] {
      assert t + ext == ext;
    }
  }

  lemma {:induction false} ReadNotOn(t: seq<Token>, ext: seq<Token>)
    requires ReadNot(t).Read?
    ensures ReadNot(t + ext) == Read(ReadNot(t).cond, ReadNot(t).rest + ext)
    decreases |t|, 1
  {
    if t != [] {
      Behind(t, ext);
      if t[0].Not? {
        ReadNotOn(t[1..], ext);
      } else {
        ReadPrimaryOn(t, ext);
      }
    }
  }

  lemma {:induction false} ReadPrimaryOn(t: seq<Token>, ext: seq<Token>)
    requires ReadPrimary(t).Read?
    ensures ReadPrimary(t + ext) == Read(ReadPrimary(t).cond, ReadPrimary(t).rest + ext)
    decreases |t|, 0
  {
    Behind(t, ext);
    if t[0].Open? {
      OrsOn(t[1..], ext);
      Behind(ReadOr(t[1..]).rest, ext);
    }
  }

  // ----- Putting conditions together

  /** A condition in parentheses is read as the condition. */
  lemma InParentheses(t: seq<Token>, c: Cond)
    requires ReadOr(t) == Read(c, [])
    ensures ReadNot([Open] + t + [Close]) == Read(c, [])
  {
    var whole := [Open] + t + [Close];
    OrsOn(t, [Close]);
    assert whole[1..] == t + [Close];
    assert ReadOr(t + [Close]) == Read(c, [Close]);
  }

  /** One link more at the end of an `and` chain. */
  lemma {:induction false} AndTailSnoc(t: seq<Token>, read: seq<Cond>, b: seq<Token>)
    requires AndTail(t, read).Chain? && AndTail(t, read).rest == [] && ReadNot(b).Read? && ReadNot(b).rest == []
    ensures AndTail(t + [And] + b, read) == Chain(AndTail(t, read).conds + [ReadNot(b).cond], [])
    decreases |t|
  {
    var ext := [And] + b;
    assert t + [And] + b == t + ext;
    if t == [] {
      assert t + ext == ext && ext[1..] == b;
    } else {
      Behind(t, ext);
      ReadNotOn(t[1..], ext);
      var next := ReadNot(t[1..]);
      AndTailSnoc(next.rest, read + [next.cond], b);
      assert next.rest + ext == next.rest + [And] + b;
    }
  }

  lemma AndsSnoc(t: seq<Token>, b: seq<Token>)
    requires Ands(t).Chain? && Ands(t).rest == [] && ReadNot(b).Read? && ReadNot(b).rest == []
    ensures Ands(t + [And] + b) == Chain(Ands(t).conds + [ReadNot(b).cond], [])
  {
    ReadNotOn(t, [And] + b);
    assert t + ([And] + b) == t + [And] + b;
    var first := ReadNot(t);
    AndTailSnoc(first.rest, [first.cond], b);
    assert first.rest + ([And] + b) == first.rest + [And] + b;
  }

  /** One link more at the end of an `or` chain. */
  lemma {:induction false} OrTailSnoc(t: seq<Token>, read: seq<Cond>, b: seq<Token>)
    requires OrTail(t, read).Chain? && OrTail(t, read).rest == [] && ReadAnd(b).Read? && ReadAnd(b).rest == []
    ensures OrTail(t + [Or] + b, read) == Chain(OrTail(t, read).conds + [ReadAnd(b).cond], [])
    decreases |t|
  {
    var ext := [Or] + b;
    assert t + [Or] + b == t + ext;
    if t == [] {
      assert t + ext == ext && ext[1..] == b;
    } else {
      Behind(t, ext);
      ReadAndOn(t[1..], ext);
      var next := ReadAnd(t[1..]);
      OrTailSnoc(next.rest, read + [next.cond], b);
      assert next.rest + ext == next.rest + [Or] + b;
    }
  }

  lemma OrsSnoc(t: seq<Token>, b: seq<Token>)
    requires Ors(t).Chain? && Ors(t).rest == [] && ReadAnd(b).Read? && ReadAnd(b).rest == []
    ensures Ors(t + [Or] + b) == Chain(Ors(t).conds + [ReadAnd(b).cond], [])
  {
    ReadAndOn(t, [Or] + b);
    assert t + ([Or] + b) == t + [Or] + b;
    var first := ReadAnd(t);
    OrTailSnoc(first.rest, [first.cond], b);
    assert first.rest + ([Or] + b) == first.rest + [Or] + b;
  }

  lemma AndsAreRead(t: seq<Token>)
    requires Ands(t).Chain? && Ands(t).rest == []
    ensures ReadAnd(t) == Read(Together(Ands(t).conds), []) && ReadOr(t) == Read(Together(Ands(t).conds), [])
  {
    assert Ors(t) == OrTail([], [ReadAnd(t).cond]);
  }

  lemma NotIsRead(t: seq<Token>)
    requires ReadNot(t).Read? && ReadNot(t).rest == []
    ensures Ands(t) == Chain([ReadNot(t).cond], []) && ReadAnd(t) == ReadNot(t) && Ors(t) == Chain([ReadNot(t).cond], [])
  {
    var c := ReadNot(t).cond;
    assert Ands(t) == AndTail([], [c]);
    assert ReadAnd(t) == Read(c, []);
    assert Ors(t) == OrTail([], [c]);
  }

  lemma NegIsRead(t: seq<Token>)
    requires ReadNot(t).Read? && ReadNot(t).rest == []
    ensures ReadNot([Not] + t) == Read(Neg(ReadNot(t).cond), [])
  {
    assert ([Not] + t)[1..] == t;
  }

  // ----- Texts

  /** What a whole text is read as. */
  function ReadText(s: string, library: Library): Option<Cond> {
    var ts := Lex(s, library);
    if ts.None? then None
    else
      var r := ReadOr(ts.value);
      if r.Read? && r.rest == [] then Some(r.cond) else None
  }

  // ----- What is read is well formed

  /** A condition as reading produces them: its comparisons are written properly, and no conjunction or disjunction has
      fewer than two parts. */
  predicate WellFormed(c: Cond, library: Library)
    decreases c
  {
    match c
    case All(conds) => |conds| > 1 && forall x | x in conds :: WellFormed(x, library)
    case Any(conds) => |conds| > 1 && forall x | x in conds :: WellFormed(x, library)
    case Neg(cond) => WellFormed(cond, library)
    case Comparison(field, op, operand) => IsCheck(field, op, operand, library)
    case Named(name) => IsName(name)
  }

  predicate AllWellFormed(conds: seq<Cond>, library: Library) {
    forall i | 0 <= i < |conds| :: WellFormed(conds[i], library)
  }

  lemma TogetherWellFormed(conds: seq<Cond>, library: Library)
    ensures WellFormed(Together(conds), library) <==> conds != [] && AllWellFormed(conds, library)
    ensures WellFormed(Either(conds), library) <==> conds != [] && AllWellFormed(conds, library)
  {
    if |conds| != 1 {
      assert forall i | 0 <= i < |conds| :: conds[i] in conds;
    }
  }

  predicate ReadWell(r: Reading, library: Library) {
    r.Read? ==> WellFormed(r.cond, library) && AllTokens(r.rest, library)
  }

  predicate ChainWell(r: Chain, library: Library) {
    r.Chain? ==> r.conds != [] && AllWellFormed(r.conds, library) && AllTokens(r.rest, library)
  }

  lemma {:induction false} OrsReadWell(t: seq<Token>, library: Library)
    requires AllTokens(t, library)
    ensures ChainWell(Ors(t), library) && ReadWell(ReadOr(t), library)
    decreases |t|, 5
  {
    hide WellFormed, IsToken;
    AndsReadWell(t, library);
    var first := ReadAnd(t);
    if first.Read? { OrTailReadWell(first.rest, [first.cond], library); }
    if Ors(t).Chain? { TogetherWellFormed(Ors(t).conds, library); }
  }

  lemma {:induction false} OrTailReadWell(t: seq<Token>, read: seq<Cond>, library: Library)
    requires AllTokens(t, library) && read != [] && AllWellFormed(read, library)
    ensures ChainWell(OrTail(t, read), library)
    decreases |t|, 4
  {
    hide WellFormed, IsToken;
    if t != [] && t[0].Or? {
      AndsReadWell(t[1..], library);
      var next := ReadAnd(t[1..]);
      if next.Read? { OrTailReadWell(next.rest, read + [next.cond], library); }
    }
  }

  lemma {:induction false} AndsReadWell(t: seq<Token>, library: Library)
    requires AllTokens(t, library)
    ensures ChainWell(Ands(t), library) && ReadWell(ReadAnd(t), library)
    decreases |t|, 3
  {
    hide WellFormed, IsToken;
    NotReadsWell(t, library);
    var first := ReadNot(t);
    if first.Read? { AndTailReadWell(first.rest, [first.cond], library); }
    if Ands(t).Chain? { TogetherWellFormed(Ands(t).conds, library); }
  }

  lemma {:induction false} AndTailReadWell(t: seq<Token>, read: seq<Cond>, library: Library)
    requires AllTokens(t, library) && read != [] && AllWellFormed(read, library)
    ensures ChainWell(AndTail(t, read), library)
    decreases |t|, 2
  {
    hide WellFormed, IsToken;
    if t != [] && t[0].And? {
      NotReadsWell(t[1..], library);
      var next := ReadNot(t[1..]);
      if next.Read? { AndTailReadWell(next.rest, read + [next.cond], library); }
    }
  }

  lemma {:induction false} NotReadsWell(t: seq<Token>, library: Library)
    requires AllTokens(t, library)
    ensures ReadWell(ReadNot(t), library)
    decreases |t|, 1
  {
    hide IsToken;
    if t != [] && t[0].Not? {
      NotReadsWell(t[1..], library);
    } else {
      PrimaryReadsWell(t, library);
    }
  }

  lemma {:induction false} PrimaryReadsWell(t: seq<Token>, library: Library)
    requires AllTokens(t, library)
    ensures ReadWell(ReadPrimary(t), library)
    decreases |t|, 0
  {
    if t != [] {
      assert IsToken(t[0], library);
      if t[0].Open? {
        hide IsToken, WellFormed;
        OrsReadWell(t[1..], library);
      } else {
        hide IsCheck, IsName;
      }
    }
  }

  /** Whatever is read from a text is well formed. */
  lemma ReadTextWellFormed(s: string, library: Library)
    ensures ReadText(s, library).Some? ==> WellFormed(ReadText(s, library).value, library)
  {
    hide Lex, ReadOr, WellFormed, AllTokens;
    LexedAreTokens(s, library);
    if Lex(s, library).Some? { OrsReadWell(Lex(s, library).value, library); }
  }
}
