/** Values that break the condition they are built into: nothing in them is escaped. */
module ExceptionFailures {
  import opened Options
  import opened ConditionLexer
  import opened ConditionText
  import opened Exceptions

  /** An exception with one field `f` in a list, one operator and one row with one value. */
  function OneValue(op: string, value: string): Exception {
    Exception(Items([Item("f")]), Items([Item(op)]), [Items([Item(value)])])
  }

  lemma OneValueRow(op: string, value: string, library: Library)
    ensures var ex := OneValue(op, value);
            && RowUsable(ex, ex.values[0]) && AllFit([ex])
            && RowText(ex, ex.values[0], 1, library) == " " + CheckText("f", op, OperandText(Item(value), op, library))
  {
    hide OperandText, CheckText;
    var ex := OneValue(op, value);
    var row := ex.values[0];
    assert RowFits(ex, row);
    var check := CheckText("f", op, OperandText(Item(value), op, library));
    assert RowCheck(ex, row, 0, library) == check && RowText(ex, row, 0, library) == "";
    assert "" + "" + " " + check == " " + check;
  }

  lemma OneValueText(op: string, value: string, library: Library)
    ensures var ex := OneValue(op, value);
            && AllFit([ex]) && RowUsable(ex, ex.values[0])
            && ExceptionText([ex][0], library) == "((" + (RowText(ex, ex.values[0], 1, library) + "))")
  {
    hide RowText;
    var ex := OneValue(op, value);
    OneValueRow(op, value, library);
    var row := RowText(ex, ex.values[0], 1, library);
    assert ex.values[..0] == [] && RowsText(ex, [], library) == "";
    assert RowsText(ex, ex.values, library) == "" + "" + "(" + row + ")";
    Glued(row);
  }

  /** What is written for it. */
  lemma OneValueBuilt(cond: string, op: string, value: string, library: Library)
    ensures AllFit([OneValue(op, value)])
    ensures var check := CheckText("f", op, OperandText(Item(value), op, library));
            Built(cond, [OneValue(op, value)], library) ==
            "(" + (cond + ")") + (" " + "and" + " " + ("not" + (" " + ("((" + (" " + (check + "))"))))))
  {
    hide OperandText, CheckText, ExceptionText, RowText;
    var ex := OneValue(op, value);
    OneValueRow(op, value, library);
    OneValueText(op, value, library);
    var check := CheckText("f", op, OperandText(Item(value), op, library));
    assert [ex][..0] == [] && Built(cond, [], library) == "(" + (cond + ")");
    assert " " + check + "))" == " " + (check + "))");
    NotGlue("((" + (" " + (check + "))")));
  }

  lemma Glued(row: string)
    ensures "(" + ("" + "" + "(" + row + ")" + ")") == "((" + (row + "))")
  {
    assert "((" == "(" + "(" && "))" == ")" + ")";
  }

  /** Tokens behind the condition: the condition, and what is read behind `and`. */
  lemma BehindCondition(cond: string, c: Cond, rest: string, tokens: seq<Token>, library: Library)
    requires ReadText(cond, library) == Some(c) && Lex(rest, library) == Some(tokens)
    ensures var text, r := "(" + (cond + ")") + (" " + "and" + " " + rest), ReadNot(tokens);
            && (r.Unreadable? ==> ReadText(text, library) == None)
            && (r.Read? && r.rest == [] ==> ReadText(text, library) == Some(All([c, r.cond])))
  {
    hide Lex, ReadOr, ReadNot, OrTail;
    var front := "(" + (cond + ")");
    var t := Lex(cond, library).value;
    LexInParentheses(cond, library);
    LexJoined(front, "and", rest, library);
    var start := [Open] + t + [Close];
    var all := start + ([And] + tokens);
    assert Lex(front + (" " + "and" + " " + rest), library) == Some(all);
    InParentheses(t, c);
    ReadNotOn(start, [And] + tokens);
    assert [] + ([And] + tokens) == [And] + tokens && ([And] + tokens)[1..] == tokens;
    assert Ands(all) == AndTail([And] + tokens, [c]);
    var r := ReadNot(tokens);
    if r.Read? && r.rest == [] {
      assert AndTail([], [c] + [r.cond]) == Chain([c, r.cond], []);
      AndsAreRead(all);
    } else if r.Unreadable? {
      BrokenAnd(all);
    }
  }

  lemma BrokenAnd(t: seq<Token>)
    requires Ands(t).Broken?
    ensures ReadOr(t).Unreadable?
  {
    assert ReadAnd(t).Unreadable?;
    assert Ors(t).Broken?;
  }

  // ----- An unclosed list

  lemma InIsOperator(library: Library)
    requires "in" in library.operators
    ensures IsOperator("in", library) && IsName("f")
  {
    var op := "in";
    assert op[..2] == op;
    RunIs(op, Names, 2);
  }

  /** The closing parenthesis of the row ends the list. */
  lemma UnclosedLexes(library: Library)
    requires "in" in library.operators && "in" in library.listOperators && "in" !in library.unary
    ensures Lex(CheckText("f", "in", "(a") + "))", library) == Some([Check("f", "in", Many(["a"])), Close])
  {
    hide Lex, TakeToken, TakeOperand;
    InIsOperator(library);
    ListEndsEarly();
    assert CheckText("f", "in", "(a") + "))" == CheckText("f", "in", "(a)") + ")";
    var check := Check("f", "in", Many(["a"]));
    CheckIsTaken("f", "in", "(a)", Many(["a"]), ")", library);
    assert CheckText("f", "in", "(a)")[0] == 'f';
    LexFirst(CheckText("f", "in", "(a)"), ")", check, library);
    LexParenthesis("", library);
    LexEmpty(library);
    assert ")" + "" == ")" && [Close] + [] == [Close] && [check] + [Close] == [check, Close];
  }

  lemma ListEndsEarly()
    ensures TakeOperand("(a)" + ")", true) == Taken(Many(["a"]), 3)
  {
    hide TakeList;
    assert "a"[..1] == "a";
    RunIs("a", Values, 1);
    WrittenIsTaken(["a"]);
    assert Joined(["a"]) + ")" == "a)";
    TakeListOn("a)", ")");
    var s := "(a)" + ")";
    assert s[1..] == "a)" + ")";
  }

  /** An `in` comparison with the value `(a` makes every condition unreadable. */
  lemma UnclosedList(cond: string, c: Cond, library: Library)
    requires ReadText(cond, library) == Some(c)
    requires "in" in library.operators && "in" in library.listOperators && "in" !in library.unary
    ensures AllFit([OneValue("in", "(a")]) && ReadText(Built(cond, [OneValue("in", "(a")], library), library) == None
  {
    hide Lex, ReadText, CheckText, ReadNot, Built;
    var check := Check("f", "in", Many(["a"]));
    var text := CheckText("f", "in", "(a");
    OneValueBuilt(cond, "in", "(a", library);
    UnclosedLexes(library);
    var tokens := [Not, Open, Open, check, Close];
    RowBehindNot(text + "))", [check, Close], library);
    assert [Not, Open, Open] + [check, Close] == tokens;
    BehindCondition(cond, c, "not" + (" " + ("((" + (" " + (text + "))")))), tokens, library);
    OneShort(check);
  }

  lemma RowBehindNot(text: string, tokens: seq<Token>, library: Library)
    requires Lex(text, library) == Some(tokens)
    ensures Lex("not" + (" " + ("((" + (" " + text))), library) == Some([Not, Open, Open] + tokens)
  {
    hide Lex;
    LexBlank(text, library);
    LexParenthesis(" " + text, library);
    LexParenthesis("(" + (" " + text), library);
    assert "((" + (" " + text) == "(" + ("(" + (" " + text));
    LexKeyword("not", "((" + (" " + text), library);
    assert [Not] + ([Open] + ([Open] + tokens)) == [Not, Open, Open] + tokens;
  }

  /** A parenthesis too few. */
  lemma OneShort(check: Token)
    requires check.Check?
    ensures ReadNot([Not, Open, Open, check, Close]).Unreadable?
  {
    hide ReadNot, ReadOr;
    CheckReads(check);
    InParentheses([check], ReadCheck(check));
    var inner := [Open, check, Close];
    assert [Open] + [check] + [Close] == inner;
    NotIsRead(inner);
    ChainIsRead(inner);
    Unclosed(inner);
    NotUnreadable([Open] + inner);
    assert [Not] + ([Open] + inner) == [Not, Open, Open, check, Close];
  }

  lemma Unclosed(t: seq<Token>)
    requires ReadOr(t).Read? && ReadOr(t).rest == []
    ensures ReadNot([Open] + t).Unreadable?
  {
    hide ReadOr;
    assert ([Open] + t)[1..] == t;
  }

  lemma NotUnreadable(t: seq<Token>)
    requires ReadNot(t).Unreadable?
    ensures ReadNot([Not] + t).Unreadable?
  {
    assert ([Not] + t)[1..] == t;
  }

  // ----- A value that closes its parenthesis

  lemma EqualsIsOperator(library: Library)
    requires "=" in library.operators
    ensures IsOperator("=", library) && IsName("f")
  {
    assert "="[..1] == "=";
  }

  lemma NameLexes(w: string, rest: string, library: Library)
    requires IsName(w)
    ensures Lex(w + (")" + rest), library) == Then(Name(w), Lex(")" + rest, library))
  {
    var tail := ")" + rest;
    var s := w + tail;
    assert s[..|w|] == w && s[|w|] == ')' && s[0] == w[0];
    RunIs(s, Names, |w|);
    RunIs(tail, Blanks, 0);
    assert s[|w|..] == tail && OperatorLen(tail, library) == 0;
    hide Run;
    LexFirst(w, tail, Name(w), library);
  }

  lemma OrLexes(rest: string, library: Library)
    ensures Lex("or" + ("(" + rest), library) == Then(Or, Lex("(" + rest, library))
  {
    var s := "or" + ("(" + rest);
    assert s[..2] == "or" && s[2] == '(' && s[0] == 'o';
    RunIs(s, Names, 2);
    LexFirst("or", "(" + rest, Or, library);
  }

  lemma ValueEndsEarly(library: Library)
    requires "=" !in library.listOperators
    ensures TakeOperand("x" + ")or(y))", "=" in library.listOperators) == Taken(One("x"), 1)
  {
    var s := "x" + ")or(y))";
    assert s[..1] == "x" && s[0] == 'x' && s[1] == ')';
    RunIs(s, Values, 1);
  }

  lemma ClosingLexes(library: Library)
    requires "=" in library.operators && "=" !in library.listOperators && "=" !in library.unary
    ensures Lex(CheckText("f", "=", "x)or(y") + "))", library) ==
            Some([Check("f", "=", One("x")), Close, Or, Open, Name("y"), Close, Close])
  {
    hide Lex, TakeToken, TakeOperand;
    EqualsIsOperator(library);
    ValueEndsEarly(library);
    var check, rest := Check("f", "=", One("x")), ")or(y))";
    assert CheckText("f", "=", "x)or(y") + "))" == CheckText("f", "=", "x") + rest;
    CheckIsTaken("f", "=", "x", One("x"), rest, library);
    assert CheckText("f", "=", "x")[0] == 'f';
    LexFirst(CheckText("f", "=", "x"), rest, check, library);
    RestLexes(library);
    assert [check] + [Close, Or, Open, Name("y"), Close, Close] == [check, Close, Or, Open, Name("y"), Close, Close];
  }

  lemma RestLexes(library: Library)
    ensures Lex(")or(y))", library) == Some([Close, Or, Open, Name("y"), Close, Close])
  {
    hide Lex;
    LexEmpty(library);
    LexParenthesis("", library);
    LexParenthesis(")", library);
    assert ")" + "" == ")" && ")" + ")" == "))";
    NameLexes("y", ")", library);
    assert "y" + (")" + ")") == "y))";
    LexParenthesis("y))", library);
    assert "(" + "y))" == "(y))";
    OrLexes("y))", library);
    assert "or" + "(y))" == "or(y))";
    LexParenthesis("or(y))", library);
    assert ")" + "or(y))" == ")or(y))";
    assert [Close] + ([Or] + ([Open] + ([Name("y")] + ([Close] + ([Close] + []))))) == [Close, Or, Open, Name("y"), Close, Close];
  }

  lemma SplitReads(check: Token)
    requires check.Check?
    ensures ReadNot([Not, Open, Open, check, Close, Or, Open, Name("y"), Close, Close]) ==
            Read(Neg(Any([ReadCheck(check), Named("y")])), [])
  {
    hide ReadNot, ReadOr, ReadAnd, Ors;
    CheckReads(check);
    InParentheses([check], ReadCheck(check));
    var a := [Open] + [check] + [Close];
    NotIsRead(a);
    NameReads("y");
    InParentheses([Name("y")], Named("y"));
    var b := [Open] + [Name("y")] + [Close];
    NotIsRead(b);
    OrsSnoc(a, b);
    var both := a + [Or] + b;
    ChainIsRead(both);
    assert [ReadCheck(check)] + [Named("y")] == [ReadCheck(check), Named("y")];
    InParentheses(both, Any([ReadCheck(check), Named("y")]));
    NegIsRead([Open] + both + [Close]);
    assert [Not] + ([Open] + both + [Close]) == [Not, Open, Open, check, Close, Or, Open, Name("y"), Close, Close];
  }

  lemma NameReads(w: string)
    ensures ReadOr([Name(w)]) == Read(Named(w), [])
  {
    assert [Name(w)][1..] == [];
    assert ReadNot([Name(w)]) == Read(Named(w), []);
    NotIsRead([Name(w)]);
  }

  /** A comparison with the value `x)or(y` is read as a comparison with `x`, or the name `y`: another condition than meant. */
  lemma SplitValue(cond: string, c: Cond, library: Library)
    requires ReadText(cond, library) == Some(c)
    requires "=" in library.operators && "=" !in library.listOperators && "=" !in library.unary
    ensures AllFit([OneValue("=", "x)or(y")])
    ensures ReadText(Built(cond, [OneValue("=", "x)or(y")], library), library) ==
            Some(All([c, Neg(Any([Comparison("f", "=", One("x")), Named("y")]))]))
  {
    hide Lex, ReadText, CheckText, ReadNot, Built;
    var check := Check("f", "=", One("x"));
    var text := CheckText("f", "=", "x)or(y");
    OneValueBuilt(cond, "=", "x)or(y", library);
    NoSpace();
    ClosingLexes(library);
    var tail := [check, Close, Or, Open, Name("y"), Close, Close];
    var tokens := [Not, Open, Open, check, Close, Or, Open, Name("y"), Close, Close];
    RowBehindNot(text + "))", tail, library);
    assert [Not, Open, Open] + tail == tokens;
    BehindCondition(cond, c, "not" + (" " + ("((" + (" " + (text + "))")))), tokens, library);
    SplitReads(check);
  }

  lemma NoSpace()
    ensures Quoted("x)or(y") == "x)or(y"
  {
  }
}
