/** Rule exceptions: checking them, the condition text they make up with a rule, and what it means (rule_loader). */
module Exceptions {
  import opened Options
  import opened ConditionLexer
  import opened ConditionText

  /** A single value or a list of values. */
  datatype Entry = Item(text: string) | Items(entries: seq<Entry>) {
    /** `item` of a list is the empty string. */
    function Value(): string {
      if Item? then text else ""
    }

    /** `items` of a single value is empty. */
    function Parts(): seq<Entry> {
      if Items? then entries else []
    }

    predicate IsValid() {
      if Item? then text != "" else entries != []
    }
  }

  datatype Exception = Exception(fields: Entry, comps: Entry, values: seq<Entry>)

  // ----- validate_exception_info

  /** The operators of the exception, or those that go without saying: `in` for a single field, `=` for each of several. */
  function Comps(ex: Exception): (r: Entry)
    requires ex.fields.IsValid()
    ensures ex.comps.IsValid() ==> r == ex.comps
    ensures !ex.comps.IsValid() && ex.fields.Item? ==> r == Item("in")
    ensures !ex.comps.IsValid() && ex.fields.Items? ==>
      r.Items? && |r.entries| == |ex.fields.entries| && forall c | c in r.entries :: c == Item("=")
  {
    if ex.comps.IsValid() then ex.comps
    else if ex.fields.Item? then Item("in")
    else Items(seq(|ex.fields.entries|, _ => Item("=")))
  }

  /** An operator for each field that the filter library knows, or one of three for a single field. */
  predicate Operable(ex: Exception, comps: Entry, library: Library) {
    if ex.fields.Item? then comps.Item? && comps.text in {"in", "pmatch", "intersects"}
    else comps.Items? && |comps.entries| == |ex.fields.entries| && forall c | c in comps.entries :: c.Value() in library.operators
  }

  predicate FieldsKnown(ex: Exception, library: Library) {
    if ex.fields.Item? then ex.fields.text in library.fields
    else forall f | f in ex.fields.entries :: f.Value() in library.fields
  }

  /** Fills in the default operators; None where the source refuses the exception. */
  function Validated(ex: Exception, library: Library, sourceKnown: bool): (r: Option<Exception>)
    requires ex.fields.IsValid()
    ensures r.Some? <==> Operable(ex, Comps(ex), library) && (sourceKnown ==> FieldsKnown(ex, library))
    ensures r.Some? ==> r.value == ex.(comps := Comps(ex)) && Usable(r.value)
  {
    var comps := Comps(ex);
    if ex.fields.Items? then
      if |ex.fields.entries| != |comps.Parts()|
         || (exists c | c in comps.Parts() :: c.Value() !in library.operators)
         || (sourceKnown && exists f | f in ex.fields.entries :: f.Value() !in library.fields)
      then None
      else Some(ex.(comps := comps))
    else if comps.Items? || comps.text !in {"in", "pmatch", "intersects"} || (sourceKnown && ex.fields.text !in library.fields)
    then None
    else Some(ex.(comps := comps))
  }

  // ----- The written text

  /** paren_item */
  function Parenthesized(s: string): string {
    if s != "" && s[0] == '(' then s else "(" + (s + ")")
  }

  /** The values as they are written between the commas of a list. */
  function Written(values: seq<Entry>): seq<string> {
    seq(|values|, i requires 0 <= i < |values| => Quoted(values[i].Value()))
  }

  /** A nested list of values; no comma is put where nothing but the parenthesis has been written. */
  function Listed(values: seq<Entry>): string {
    if values == [] then "("
    else
      var front := Listed(values[..|values| - 1]);
      front + (if front == "(" then "" else ", ") + Quoted(values[|values| - 1].Value())
  }

  function OperandText(value: Entry, op: string, library: Library): string {
    if value.Items? then Listed(value.entries) + ")"
    else if op in library.listOperators then Parenthesized(value.text)
    else Quoted(value.text)
  }

  /** A row of values fits the fields: a value for each field, or a single value for a single field. */
  predicate RowFits(ex: Exception, row: Entry) {
    if ex.fields.Items? then |row.Parts()| == |ex.fields.entries| else row.Item?
  }

  predicate Fits(ex: Exception) {
    forall i | 0 <= i < |ex.values| :: RowFits(ex, ex.values[i])
  }

  /** There is an operator for each field that is written. */
  predicate Usable(ex: Exception) {
    ex.fields.Items? && ex.values != [] ==> |ex.fields.entries| <= |ex.comps.Parts()|
  }

  /** A row that can be written. */
  predicate RowUsable(ex: Exception, row: Entry) {
    ex.fields.Items? && RowFits(ex, row) && |ex.fields.entries| <= |ex.comps.Parts()|
  }

  /** The comparison of field `k` in a row of values. */
  function RowCheck(ex: Exception, row: Entry, k: nat, library: Library): string
    requires RowUsable(ex, row) && k < |ex.fields.entries|
  {
    var op := ex.comps.Parts()[k].Value();
    CheckText(ex.fields.entries[k].Value(), op, OperandText(row.Parts()[k], op, library))
  }

  /** The first `k` comparisons of a row, joined by `and`. */
  function RowText(ex: Exception, row: Entry, k: nat, library: Library): string
    requires RowUsable(ex, row) && k <= |ex.fields.entries|
  {
    if k == 0 then ""
    else RowText(ex, row, k - 1, library) + (if k == 1 then "" else " and ") + " " + RowCheck(ex, row, k - 1, library)
  }

  /** The rows in parentheses, joined by `or`. */
  function RowsText(ex: Exception, rows: seq<Entry>, library: Library): string
    requires forall i | 0 <= i < |rows| :: RowUsable(ex, rows[i])
  {
    if rows == [] then ""
    else
      var n := |rows| - 1;
      assert RowUsable(ex, rows[n]);
      RowsText(ex, rows[..n], library) + (if n == 0 then "" else " or ")
      + "(" + RowText(ex, rows[n], |ex.fields.entries|, library) + ")"
  }

  /** The text of one exception with values. */
  function ExceptionText(ex: Exception, library: Library): string
    requires Fits(ex) && Usable(ex) && ex.values != []
  {
    if ex.fields.Item? then "(" + (CheckText(ex.fields.text, ex.comps.Value(), "(" + (Joined(Written(ex.values)) + ")")) + ")")
    else "(" + (RowsText(ex, ex.values, library) + ")")
  }

  predicate AllFit(exs: seq<Exception>) {
    forall i | 0 <= i < |exs| :: Fits(exs[i]) && Usable(exs[i])
  }

  /** The condition with its exceptions: the condition in parentheses, and not the exceptions that have values. */
  function Built(cond: string, exs: seq<Exception>, library: Library): string
    requires AllFit(exs)
  {
    if exs == [] then "(" + (cond + ")")
    else
      var n := |exs| - 1;
      Built(cond, exs[..n], library) + (if exs[n].values == [] then "" else " and not " + ExceptionText(exs[n], library))
  }

  // ----- What an exception means

  /** What a value stands for. */
  function Plain(v: string): (r: string)
    ensures v == "" || !QuoteMark(v[0]) ==> r == v
  {
    Meaning(Quoted(v))
  }

  /** The text is that of a list, with or without its parentheses. */
  predicate ReadsAsList(v: string) {
    var list := Parenthesized(v);
    var r := TakeList(list[1..]);
    r.Taken? && r.len == |list| - 1
  }

  /** The values written in the text of a list. */
  function ValuesIn(v: string): seq<string> {
    if ReadsAsList(v) then TakeList(Parenthesized(v)[1..]).value else [v]
  }

  /** The field compares to the value, or to one of the values of a list. */
  predicate ValueMatches(field: string, op: string, value: Entry, library: Library, passes: (string, string, string) -> bool) {
    if value.Items? then exists e | e in value.entries :: passes(field, op, Plain(e.Value()))
    else if op in library.listOperators then exists l | l in ValuesIn(value.text) :: passes(field, op, Meaning(l))
    else passes(field, op, Plain(value.text))
  }

  /** The row matches in all its fields. */
  predicate RowMatches(ex: Exception, row: Entry, library: Library, passes: (string, string, string) -> bool)
    requires RowUsable(ex, row)
  {
    forall k | 0 <= k < |ex.fields.entries| ::
      ValueMatches(ex.fields.entries[k].Value(), ex.comps.Parts()[k].Value(), row.Parts()[k], library, passes)
  }

  /** Some value of a single field, or some row of values, matches the event. */
  predicate ExceptionMatches(ex: Exception, library: Library, passes: (string, string, string) -> bool)
    requires Fits(ex) && Usable(ex)
  {
    if ex.fields.Item? then exists v | v in ex.values :: passes(ex.fields.text, ex.comps.Value(), Plain(v.Value()))
    else exists i :: 0 <= i < |ex.values| && RowMatches(ex, ex.values[i], library, passes)
  }

  // ----- When the text can be read: what the exception may contain

  predicate SoundValue(value: Entry, op: string, library: Library) {
    && op !in library.unary
    && (if value.Items? then op in library.listOperators && AllValues(Written(value.entries))
        else if op in library.listOperators then ReadsAsList(value.text)
        else IsValue(Quoted(value.text)))
  }

  predicate SoundCheck(field: string, op: string, value: Entry, library: Library) {
    IsName(field) && IsOperator(op, library) && SoundValue(value, op, library)
  }

  predicate SoundRow(ex: Exception, row: Entry, library: Library)
    requires RowUsable(ex, row)
  {
    && ex.fields.entries != []
    && forall k | 0 <= k < |ex.fields.entries| ::
         SoundCheck(ex.fields.entries[k].Value(), ex.comps.Parts()[k].Value(), row.Parts()[k], library)
  }

  /** Fields are names, operators are operators, and every value is written as one value, or as a list where the operator
      takes one. */
  predicate Sound(ex: Exception, library: Library)
    requires Fits(ex) && Usable(ex)
  {
    if ex.values == [] then true
    else if ex.fields.Item? then SoundCheck(ex.fields.text, ex.comps.Value(), Items(ex.values), library)
    else forall i | 0 <= i < |ex.values| :: SoundRow(ex, ex.values[i], library)
  }

  predicate AllSound(exs: seq<Exception>, library: Library)
    requires AllFit(exs)
  {
    forall i | 0 <= i < |exs| :: Sound(exs[i], library)
  }

  lemma {:induction false} QuoteEndsLast(q: string, i: nat)
    requires 1 <= i < |q| && q[|q| - 1] == q[0]
    ensures QuoteEnd(q, i) == |q| <==>
            (forall j | i <= j < |q| - 1 && q[j] == q[0] :: q[j - 1] == '\\') && q[|q| - 2] != '\\'
    decreases |q| - i
  {
    if i < |q| - 1 && !(q[i] == q[0] && q[i - 1] != '\\') {
      QuoteEndsLast(q, i + 1);
    }
  }

  lemma QuotedEndsLast(v: string)
    requires v != "" && !QuoteMark(v[0])
    ensures var q := "\"" + (v + "\"");
            QuoteEnd(q, 1) == |q| <==> (forall i | 0 < i < |v| && v[i] == '"' :: v[i - 1] == '\\') && v[|v| - 1] != '\\'
  {
    var q := "\"" + (v + "\"");
    QuoteEndsLast(q, 1);
    hide QuoteEnd;
    assert forall i | 0 <= i < |v| :: q[i + 1] == v[i];
    assert q[|q| - 2] == v[|v| - 1] && q[0] == '"';
    if forall i | 0 < i < |v| && v[i] == '"' :: v[i - 1] == '\\' {
      forall j | 1 <= j < |q| - 1 && q[j] == q[0]
        ensures q[j - 1] == '\\'
      {
        assert q[j] == v[j - 1];
      }
    }
    if forall j | 1 <= j < |q| - 1 && q[j] == q[0] :: q[j - 1] == '\\' {
      forall i | 0 < i < |v| && v[i] == '"'
        ensures v[i - 1] == '\\'
      {
        assert q[i + 1] == q[0];
      }
    }
  }

  /** A value is written as one value iff it has only plain characters, or has a space and neither a bare quotation mark nor
      a backslash at its end, or is a quoted value itself. */
  lemma WrittenAsOne(v: string)
    ensures IsValue(Quoted(v)) <==>
            v != "" && (|| Only(v, Values)
                        || (QuoteMark(v[0]) && QuoteEnd(v, 1) == |v|)
                        || (' ' in v && !QuoteMark(v[0]) && v[|v| - 1] != '\\'
                            && forall i | 0 < i < |v| && v[i] == '"' :: v[i - 1] == '\\'))
  {
    hide QuoteEnd, Run;
    if v != "" {
      if QuoteMark(v[0]) {
        assert Quoted(v) == v && !In(v[0], Values);
      } else if ' ' in v {
        QuotedEndsLast(v);
        var i :| 0 <= i < |v| && v[i] == ' ';
        assert !In(v[i], Values);
        assert ("\"" + (v + "\""))[0] == '"';
      } else {
        PlainValue(v);
      }
    }
  }

  lemma PlainValue(v: string)
    requires v != "" && !QuoteMark(v[0])
    ensures IsValue(v) <==> Only(v, Values)
  {
    hide Run;
    assert v[..|v|] == v;
    if Only(v, Values) {
      RunIs(v, Values, |v|);
    }
  }

  // ----- What the text is read as

  function OperandRead(value: Entry, op: string, library: Library): Operand {
    if value.Items? then Many(Written(value.entries))
    else if op in library.listOperators then Many(ValuesIn(value.text))
    else One(Quoted(value.text))
  }

  function RowToken(ex: Exception, row: Entry, k: nat, library: Library): Token
    requires RowUsable(ex, row) && k < |ex.fields.entries|
  {
    var op := ex.comps.Parts()[k].Value();
    Check(ex.fields.entries[k].Value(), op, OperandRead(row.Parts()[k], op, library))
  }

  function RowTokens(ex: Exception, row: Entry, k: nat, library: Library): seq<Token>
    requires RowUsable(ex, row) && k <= |ex.fields.entries|
  {
    if k == 0 then []
    else RowTokens(ex, row, k - 1, library) + (if k == 1 then [] else [And]) + [RowToken(ex, row, k - 1, library)]
  }

  function RowsTokens(ex: Exception, rows: seq<Entry>, library: Library): seq<Token>
    requires forall i | 0 <= i < |rows| :: RowUsable(ex, rows[i])
  {
    if rows == [] then []
    else
      var n := |rows| - 1;
      assert RowUsable(ex, rows[n]);
      RowsTokens(ex, rows[..n], library) + (if n == 0 then [] else [Or])
      + ([Open] + RowTokens(ex, rows[n], |ex.fields.entries|, library) + [Close])
  }

  function SingleToken(ex: Exception): Token
    requires ex.fields.Item?
  {
    Check(ex.fields.text, ex.comps.Value(), Many(Written(ex.values)))
  }

  function ExceptionTokens(ex: Exception, library: Library): seq<Token>
    requires Fits(ex) && Usable(ex) && ex.values != []
  {
    if ex.fields.Item? then [Open] + [SingleToken(ex)] + [Close]
    else [Open] + RowsTokens(ex, ex.values, library) + [Close]
  }

  function BuiltTokens(tokens: seq<Token>, exs: seq<Exception>, library: Library): seq<Token>
    requires AllFit(exs)
  {
    if exs == [] then [Open] + tokens + [Close]
    else
      var n := |exs| - 1;
      BuiltTokens(tokens, exs[..n], library)
      + (if exs[n].values == [] then [] else [And] + ([Not] + ExceptionTokens(exs[n], library)))
  }

  // ----- The text has these tokens

  lemma {:induction false} ListedIsJoined(values: seq<Entry>)
    requires AllValues(Written(values))
    ensures Listed(values) == "(" + Joined(Written(values))
  {
    if values != [] {
      var n := |values| - 1;
      var front := Written(values[..n]);
      assert Written(values)[..n] == front && Written(values)[n] == Quoted(values[n].Value());
      assert forall i | 0 <= i < n :: front[i] == Written(values)[i];
      ListedIsJoined(values[..n]);
      hide Quoted, IsValue;
      if n > 0 { JoinedStarts(front); }
      ListedNext(Joined(front), Quoted(values[n].Value()));
    }
  }

  lemma ListedNext(front: string, l: string)
    ensures "(" + front + ", " + l == "(" + (front + ", " + l)
    ensures "(" + "" + l == "(" + l && "(" + "" == "("
  {
  }

  /** The operand is taken as meant. */
  lemma OperandIsTaken(value: Entry, op: string, ext: string, library: Library)
    requires SoundValue(value, op, library) && Follows(ext)
    ensures var x := OperandText(value, op, library);
            && x != "" && !Text.Blank(x[0])
            && TakeOperand(x + ext, op in library.listOperators) == Taken(OperandRead(value, op, library), |x|)
  {
    hide TakeList, ValueLen, Listed, Written, Follows;
    var x := OperandText(value, op, library);
    if value.Items? {
      var ls := Written(value.entries);
      ListedIsJoined(value.entries);
      WrittenIsTaken(ls);
      assert x == "(" + (Joined(ls) + ")");
      ListIsTaken(Joined(ls) + ")", ext);
    } else if op in library.listOperators {
      assert x[0] == '(' && x == "(" + x[1..];
      ListIsTaken(x[1..], ext);
    } else {
      ValueStarts(x);
      ValueIsTaken(x, ext);
    }
  }

  lemma ListIsTaken(list: string, ext: string)
    requires TakeList(list).Taken? && TakeList(list).len == |list|
    ensures TakeOperand("(" + list + ext, true) == Taken(Many(TakeList(list).value), |list| + 1)
  {
    hide TakeList;
    TakeListOn(list, ext);
    var s := "(" + list + ext;
    assert s[0] == '(' && s[1..] == list + ext;
  }

  lemma ValueIsTaken(l: string, ext: string)
    requires IsValue(l) && Follows(ext)
    ensures TakeOperand(l + ext, false) == Taken(One(l), |l|)
  {
    hide ValueLen;
    if ext != "" { FollowsCuts(ext, Values); }
    ValueLenOn(l, ext);
    assert (l + ext)[..|l|] == l;
  }

  lemma CheckLexes(field: string, op: string, value: Entry, library: Library)
    requires SoundCheck(field, op, value, library)
    ensures var t := CheckText(field, op, OperandText(value, op, library));
            Lex(t, library) == Some([Check(field, op, OperandRead(value, op, library))])
  {
    hide Lex, IsOperator, IsName, SoundValue, OperandText, OperandRead, TakeToken, TakeOperand;
    var x := OperandText(value, op, library);
    OperandIsTaken(value, op, "", library);
    NotUnary(value, op, library);
    CheckIsTaken(field, op, x, OperandRead(value, op, library), "", library);
    CheckStarts(field, op, x);
    var t, token := CheckText(field, op, x), Check(field, op, OperandRead(value, op, library));
    LexFirst(t, "", token, library);
    LexEmpty(library);
    assert t + "" == t && [token] + [] == [token];
  }

  lemma NotUnary(value: Entry, op: string, library: Library)
    requires SoundValue(value, op, library)
    ensures op !in library.unary
  {
  }

  lemma CheckStarts(field: string, op: string, x: string)
    requires IsName(field)
    ensures CheckText(field, op, x) != "" && !Text.Blank(CheckText(field, op, x)[0])
  {
    assert CheckText(field, op, x)[0] == field[0];
  }

  lemma LexEmpty(library: Library)
    ensures Lex("", library) == Some([])
  {
  }

  lemma LexBlank(b: string, library: Library)
    ensures Lex(" " + b, library) == Lex(b, library)
  {
    hide Lex;
    LexBlanks(" ", b, library);
  }

  /** A text in parentheses. */
  lemma LexInParentheses(s: string, library: Library)
    requires Lex(s, library).Some?
    ensures Lex("(" + (s + ")"), library) == Some([Open] + Lex(s, library).value + [Close])
  {
    hide Lex;
    LexParenthesis(s + ")", library);
    LexOn(s, ")", library);
    LexParenthesis("", library);
    LexEmpty(library);
    assert ")" + "" == ")" && [Close] + [] == [Close];
    assert [Open] + (Lex(s, library).value + [Close]) == [Open] + Lex(s, library).value + [Close];
  }

  /** A text behind another one and `and` or `or`. */
  lemma LexJoined(a: string, w: string, b: string, library: Library)
    requires (w == "and" || w == "or") && Lex(a, library).Some? && Lex(b, library).Some?
    ensures Lex(a + (" " + w + " " + b), library) == Some(Lex(a, library).value + ([KeywordToken(w)] + Lex(b, library).value))
  {
    hide Lex;
    LexOn(a, " " + w + " " + b, library);
    LexBlank(w + (" " + b), library);
    assert " " + w + " " + b == " " + (w + (" " + b));
    LexKeyword(w, b, library);
  }

  lemma {:induction false} RowLexes(ex: Exception, row: Entry, k: nat, library: Library)
    requires RowUsable(ex, row) && SoundRow(ex, row, library) && 1 <= k <= |ex.fields.entries|
    ensures Lex(RowText(ex, row, k, library), library) == Some(RowTokens(ex, row, k, library))
  {
    hide Lex, RowText, RowTokens, RowCheck, RowToken;
    var check, token := RowCheck(ex, row, k - 1, library), RowToken(ex, row, k - 1, library);
    RowCheckLexes(ex, row, k - 1, library);
    RowStep(ex, row, k, library);
    if k > 1 {
      RowLexes(ex, row, k - 1, library);
      LexJoined(RowText(ex, row, k - 1, library), "and", " " + check, library);
      AndGlue(RowTokens(ex, row, k - 1, library), [token]);
    }
  }

  lemma RowCheckLexes(ex: Exception, row: Entry, k: nat, library: Library)
    requires RowUsable(ex, row) && SoundRow(ex, row, library) && k < |ex.fields.entries|
    ensures Lex(" " + RowCheck(ex, row, k, library), library) == Some([RowToken(ex, row, k, library)])
  {
    hide Lex, SoundCheck, OperandRead, OperandText, CheckText;
    CheckLexes(ex.fields.entries[k].Value(), ex.comps.Parts()[k].Value(), row.Parts()[k], library);
    LexBlank(RowCheck(ex, row, k, library), library);
  }

  lemma RowStep(ex: Exception, row: Entry, k: nat, library: Library)
    requires RowUsable(ex, row) && 1 <= k <= |ex.fields.entries|
    ensures var check := " " + RowCheck(ex, row, k - 1, library);
            RowText(ex, row, k, library) ==
            if k == 1 then check else RowText(ex, row, k - 1, library) + (" " + "and" + " " + check)
    ensures RowTokens(ex, row, k, library) ==
            if k == 1 then [RowToken(ex, row, k - 1, library)]
            else RowTokens(ex, row, k - 1, library) + [And] + [RowToken(ex, row, k - 1, library)]
  {
    hide RowCheck, RowToken;
    RowGlue(RowText(ex, row, k - 1, library), RowCheck(ex, row, k - 1, library));
  }

  lemma RowGlue(front: string, check: string)
    ensures front + " and " + " " + check == front + (" " + "and" + " " + (" " + check))
    ensures "" + "" + " " + check == " " + check
  {
    assert " " + "and" + " " == " and ";
  }

  /** A row in its parentheses. */
  lemma WholeRowLexes(ex: Exception, row: Entry, library: Library)
    requires RowUsable(ex, row) && SoundRow(ex, row, library)
    ensures var n := |ex.fields.entries|;
            Lex("(" + (RowText(ex, row, n, library) + ")"), library) == Some([Open] + RowTokens(ex, row, n, library) + [Close])
  {
    hide Lex, RowText, RowTokens, SoundCheck;
    RowLexes(ex, row, |ex.fields.entries|, library);
    LexInParentheses(RowText(ex, row, |ex.fields.entries|, library), library);
  }

  lemma {:induction false} RowsLex(ex: Exception, rows: seq<Entry>, library: Library)
    requires rows != [] && forall i | 0 <= i < |rows| :: RowUsable(ex, rows[i]) && SoundRow(ex, rows[i], library)
    ensures Lex(RowsText(ex, rows, library), library) == Some(RowsTokens(ex, rows, library))
  {
    hide Lex, RowText, RowTokens, SoundRow;
    var n := |rows| - 1;
    assert RowUsable(ex, rows[n]);
    var row := RowText(ex, rows[n], |ex.fields.entries|, library);
    WholeRowLexes(ex, rows[n], library);
    RowsGlue(RowsText(ex, rows[..n], library), row);
    if n > 0 {
      RowsLex(ex, rows[..n], library);
      LexJoined(RowsText(ex, rows[..n], library), "or", "(" + (row + ")"), library);
      OrGlue(RowsTokens(ex, rows[..n], library), [Open] + RowTokens(ex, rows[n], |ex.fields.entries|, library) + [Close]);
    } else {
      assert rows[..0] == [];
      NoRow([Open] + RowTokens(ex, rows[n], |ex.fields.entries|, library) + [Close]);
    }
  }

  lemma RowsGlue(front: string, row: string)
    ensures front + " or " + "(" + row + ")" == front + (" " + "or" + " " + ("(" + (row + ")")))
    ensures "" + "" + "(" + row + ")" == "(" + (row + ")")
  {
    assert " " + "or" + " " == " or ";
  }

  lemma OrGlue(a: seq<Token>, b: seq<Token>)
    ensures a + [Or] + b == a + ([Or] + b)
  {
  }

  lemma NoRow(b: seq<Token>)
    ensures [] + [] + b == b
  {
  }

  lemma ExceptionLexes(ex: Exception, library: Library)
    requires Fits(ex) && Usable(ex) && ex.values != [] && Sound(ex, library)
    ensures Lex(ExceptionText(ex, library), library) == Some(ExceptionTokens(ex, library))
  {
    hide Lex, RowsText, RowsTokens, SoundRow, SoundCheck, CheckText;
    if ex.fields.Item? {
      var list := Items(ex.values);
      CheckLexes(ex.fields.text, ex.comps.Value(), list, library);
      SingleOperand(ex, library);
      LexInParentheses(CheckText(ex.fields.text, ex.comps.Value(), "(" + (Joined(Written(ex.values)) + ")")), library);
    } else {
      forall i | 0 <= i < |ex.values|
        ensures RowUsable(ex, ex.values[i])
      {
        assert RowFits(ex, ex.values[i]);
      }
      RowsLex(ex, ex.values, library);
      LexInParentheses(RowsText(ex, ex.values, library), library);
    }
  }

  lemma SingleOperand(ex: Exception, library: Library)
    requires ex.fields.Item? && SoundCheck(ex.fields.text, ex.comps.Value(), Items(ex.values), library)
    ensures OperandText(Items(ex.values), ex.comps.Value(), library) == "(" + (Joined(Written(ex.values)) + ")")
    ensures OperandRead(Items(ex.values), ex.comps.Value(), library) == Many(Written(ex.values))
  {
    hide Listed, Written, Joined;
    ListedIsJoined(ex.values);
  }

  lemma {:induction false} BuiltLexes(cond: string, exs: seq<Exception>, library: Library)
    requires AllFit(exs) && AllSound(exs, library) && Lex(cond, library).Some?
    ensures Lex(Built(cond, exs, library), library) == Some(BuiltTokens(Lex(cond, library).value, exs, library))
  {
    hide Lex, Sound, ExceptionText, ExceptionTokens, Fits, Usable;
    if exs == [] {
      LexInParentheses(cond, library);
    } else {
      var n := |exs| - 1;
      var front := exs[..n];
      BuiltLexes(cond, front, library);
      if exs[n].values == [] {
        assert Built(cond, front, library) + "" == Built(cond, front, library);
        var tokens := BuiltTokens(Lex(cond, library).value, front, library);
        assert tokens + [] == tokens;
      } else {
        var text := ExceptionText(exs[n], library);
        ExceptionLexes(exs[n], library);
        LexKeyword("not", text, library);
        LexJoined(Built(cond, front, library), "and", "not" + (" " + text), library);
        NotGlue(text);
      }
    }
  }

  lemma NotGlue(text: string)
    ensures " and not " + text == " " + "and" + " " + ("not" + (" " + text))
  {
    assert " and not " == " " + "and" + " " + "not" + " ";
  }

  // ----- The tokens are read as the condition and not the exceptions

  /** What the first `k` comparisons of a row are read as. */
  function RowConds(ex: Exception, row: Entry, k: nat, library: Library): seq<Cond>
    requires RowUsable(ex, row) && k <= |ex.fields.entries|
  {
    seq(k, i requires 0 <= i < k => ReadCheck(RowToken(ex, row, i, library)))
  }

  function ReadCheck(t: Token): Cond {
    if t.Check? then Comparison(t.field, t.op, t.operand) else Any([])
  }

  function RowCond(ex: Exception, row: Entry, library: Library): Cond
    requires RowUsable(ex, row)
  {
    Together(RowConds(ex, row, |ex.fields.entries|, library))
  }

  function RowsConds(ex: Exception, rows: seq<Entry>, library: Library): seq<Cond>
    requires forall i | 0 <= i < |rows| :: RowUsable(ex, rows[i])
  {
    seq(|rows|, i requires 0 <= i < |rows| => RowCond(ex, rows[i], library))
  }

  function ExceptionCond(ex: Exception, library: Library): Cond
    requires Fits(ex) && Usable(ex) && ex.values != []
  {
    if ex.fields.Item? then ReadCheck(SingleToken(ex)) else Either(RowsConds(ex, ex.values, library))
  }

  /** What the exceptions with values are read as, each negated. */
  function Negated(exs: seq<Exception>, library: Library): seq<Cond>
    requires AllFit(exs)
  {
    if exs == [] then []
    else
      var n := |exs| - 1;
      Negated(exs[..n], library) + (if exs[n].values == [] then [] else [Neg(ExceptionCond(exs[n], library))])
  }

  /** The condition and none of the exceptions. */
  function Intended(c: Cond, exs: seq<Exception>, library: Library): Cond
    requires AllFit(exs)
  {
    Together([c] + Negated(exs, library))
  }

  lemma CheckReads(t: Token)
    requires t.Check?
    ensures ReadNot([t]) == Read(ReadCheck(t), []) && Ands([t]) == Chain([ReadCheck(t)], [])
    ensures ReadOr([t]) == Read(ReadCheck(t), [])
  {
    assert [t][1..] == [];
    assert ReadNot([t]) == Read(ReadCheck(t), []);
    NotIsRead([t]);
  }

  lemma {:induction false} RowReads(ex: Exception, row: Entry, k: nat, library: Library)
    requires RowUsable(ex, row) && 1 <= k <= |ex.fields.entries|
    ensures Ands(RowTokens(ex, row, k, library)) == Chain(RowConds(ex, row, k, library), [])
  {
    hide Ands, ReadNot, ReadOr, ReadCheck, OperandRead;
    var token := RowToken(ex, row, k - 1, library);
    CheckReads(token);
    if k == 1 {
      assert RowTokens(ex, row, 1, library) == [token];
      assert RowConds(ex, row, 1, library) == [ReadCheck(token)];
    } else {
      RowReads(ex, row, k - 1, library);
      AndsSnoc(RowTokens(ex, row, k - 1, library), [token]);
      assert RowConds(ex, row, k, library) == RowConds(ex, row, k - 1, library) + [ReadCheck(token)];
    }
  }

  lemma WholeRowReads(ex: Exception, row: Entry, library: Library)
    requires RowUsable(ex, row) && ex.fields.entries != []
    ensures var t := [Open] + RowTokens(ex, row, |ex.fields.entries|, library) + [Close];
            ReadAnd(t) == Read(RowCond(ex, row, library), []) && Ors(t) == Chain([RowCond(ex, row, library)], [])
  {
    hide Ands, ReadNot, ReadAnd, Ors, ReadOr, RowConds, RowTokens;
    var t := RowTokens(ex, row, |ex.fields.entries|, library);
    RowReads(ex, row, |ex.fields.entries|, library);
    AndsAreRead(t);
    InParentheses(t, RowCond(ex, row, library));
    NotIsRead([Open] + t + [Close]);
  }

  lemma {:induction false} RowsRead(ex: Exception, rows: seq<Entry>, library: Library)
    requires rows != [] && (forall i | 0 <= i < |rows| :: RowUsable(ex, rows[i])) && ex.fields.Parts() != []
    ensures Ors(RowsTokens(ex, rows, library)) == Chain(RowsConds(ex, rows, library), [])
  {
    hide Ors, ReadAnd, RowCond, RowTokens;
    var n := |rows| - 1;
    assert RowUsable(ex, rows[n]);
    var row := [Open] + RowTokens(ex, rows[n], |ex.fields.entries|, library) + [Close];
    WholeRowReads(ex, rows[n], library);
    if n == 0 {
      assert rows[..0] == [];
      NoRow(row);
      assert RowsConds(ex, rows, library) == [RowCond(ex, rows[n], library)];
    } else {
      RowsRead(ex, rows[..n], library);
      OrsSnoc(RowsTokens(ex, rows[..n], library), row);
      assert RowsConds(ex, rows, library) == RowsConds(ex, rows[..n], library) + [RowCond(ex, rows[n], library)];
    }
  }

  lemma ExceptionReads(ex: Exception, library: Library)
    requires Fits(ex) && Usable(ex) && ex.values != [] && (ex.fields.Items? ==> ex.fields.entries != [])
    ensures ReadNot(ExceptionTokens(ex, library)) == Read(ExceptionCond(ex, library), [])
  {
    hide Ors, ReadNot, ReadOr, RowsTokens, RowsConds, ReadCheck;
    if ex.fields.Item? {
      CheckReads(SingleToken(ex));
      InParentheses([SingleToken(ex)], ExceptionCond(ex, library));
    } else {
      forall i | 0 <= i < |ex.values|
        ensures RowUsable(ex, ex.values[i])
      {
        assert RowFits(ex, ex.values[i]);
      }
      var rows := RowsTokens(ex, ex.values, library);
      RowsRead(ex, ex.values, library);
      ChainIsRead(rows);
      InParentheses(rows, ExceptionCond(ex, library));
    }
  }

  lemma ChainIsRead(t: seq<Token>)
    requires Ors(t).Chain?
    ensures ReadOr(t) == Read(Either(Ors(t).conds), Ors(t).rest)
  {
  }

  lemma {:induction false} BuiltTokensRead(tokens: seq<Token>, c: Cond, exs: seq<Exception>, library: Library)
    requires AllFit(exs) && AllSound(exs, library) && ReadOr(tokens) == Read(c, [])
    ensures Ands(BuiltTokens(tokens, exs, library)) == Chain([c] + Negated(exs, library), [])
  {
    hide Ands, ReadNot, ReadOr, ExceptionTokens, ExceptionCond, Usable, Fits, Sound;
    if exs == [] {
      InParentheses(tokens, c);
      NotIsRead([Open] + tokens + [Close]);
    } else {
      var n := |exs| - 1;
      var front := exs[..n];
      BuiltTokensRead(tokens, c, front, library);
      if exs[n].values == [] {
        assert BuiltTokens(tokens, exs, library) == BuiltTokens(tokens, front, library);
        assert Negated(exs, library) == Negated(front, library);
      } else {
        var ex := ExceptionTokens(exs[n], library);
        SoundHasFields(exs[n], library);
        ExceptionReads(exs[n], library);
        NegIsRead(ex);
        AndsSnoc(BuiltTokens(tokens, front, library), [Not] + ex);
        AndGlue(BuiltTokens(tokens, front, library), [Not] + ex);
        assert [c] + Negated(exs, library) == [c] + Negated(front, library) + [Neg(ExceptionCond(exs[n], library))];
      }
    }
  }

  lemma AndGlue(a: seq<Token>, b: seq<Token>)
    ensures a + [And] + b == a + ([And] + b)
  {
  }

  lemma SoundHasFields(ex: Exception, library: Library)
    requires Fits(ex) && Usable(ex) && ex.values != [] && Sound(ex, library)
    ensures ex.fields.Items? ==> ex.fields.entries != []
  {
    if ex.fields.Items? { assert SoundRow(ex, ex.values[0], library); }
  }

  // ----- Only sound exceptions are well formed

  lemma ListOfOne(v: string)
    requires IsValue(v)
    ensures ReadsAsList(v)
  {
    hide TakeList, IsValue;
    ValueStarts(v);
    WrittenIsTaken([v]);
    assert Joined([v]) == v;
    var list := "(" + (v + ")");
    assert list[1..] == v + ")";
  }

  /** The text of a list, with its parentheses or without, is that of its values. */
  lemma ListTextReads(ls: seq<string>)
    requires AllValues(ls)
    ensures var list := "(" + (Joined(ls) + ")");
            && ReadsAsList(list) && ValuesIn(list) == ls
            && ReadsAsList(Joined(ls)) && ValuesIn(Joined(ls)) == ls
  {
    hide TakeList, IsValue, Joined;
    WrittenIsTaken(ls);
    var list := "(" + (Joined(ls) + ")");
    assert list[1..] == Joined(ls) + ")" && list[0] == '(';
    if ls == [] {
      assert Joined(ls) == "" by { NoneJoined(); }
    } else {
      JoinedStarts(ls);
      ValueStarts(ls[0]);
    }
  }

  lemma NoneJoined()
    ensures Joined([]) == ""
  {
  }

  /** The operand that is meant is well formed exactly when the value is sound. */
  lemma OperandIff(value: Entry, op: string, library: Library)
    ensures IsOperand(OperandRead(value, op, library), op, library) <==> SoundValue(value, op, library)
  {
    hide TakeList, IsValue, Written, ReadsAsList;
    if value.Item? && op in library.listOperators {
      ListIff(value.text);
    }
  }

  lemma ListIff(v: string)
    ensures AllValues(ValuesIn(v)) <==> ReadsAsList(v)
  {
    hide IsValue;
    if ReadsAsList(v) {
      ListedAreValues(Parenthesized(v)[1..]);
    } else {
      if IsValue(v) { ListOfOne(v); }
      assert ValuesIn(v)[0] == v;
    }
  }

  lemma RowIff(ex: Exception, row: Entry, library: Library)
    requires RowUsable(ex, row)
    ensures WellFormed(RowCond(ex, row, library), library) <==> SoundRow(ex, row, library)
  {
    hide IsName, IsOperator, IsOperand, SoundValue, OperandRead;
    var conds := RowConds(ex, row, |ex.fields.entries|, library);
    TogetherWellFormed(conds, library);
    forall k | 0 <= k < |conds|
      ensures WellFormed(conds[k], library) <==>
              SoundCheck(ex.fields.entries[k].Value(), ex.comps.Parts()[k].Value(), row.Parts()[k], library)
    {
      OperandIff(row.Parts()[k], ex.comps.Parts()[k].Value(), library);
    }
  }

  lemma ExceptionIff(ex: Exception, library: Library)
    requires Fits(ex) && Usable(ex) && ex.values != []
    ensures WellFormed(ExceptionCond(ex, library), library) <==> Sound(ex, library)
  {
    hide IsName, IsOperator, IsOperand, SoundValue, SoundRow, RowCond;
    if ex.fields.Item? {
      OperandIff(Items(ex.values), ex.comps.Value(), library);
    } else {
      forall i | 0 <= i < |ex.values|
        ensures RowUsable(ex, ex.values[i])
      {
        assert RowFits(ex, ex.values[i]);
      }
      var conds := RowsConds(ex, ex.values, library);
      forall i | 0 <= i < |conds|
        ensures WellFormed(conds[i], library) <==> SoundRow(ex, ex.values[i], library)
      {
        RowIff(ex, ex.values[i], library);
      }
      TogetherWellFormed(conds, library);
    }
  }

  lemma AllWellFormedNext(conds: seq<Cond>, c: Cond, library: Library)
    ensures AllWellFormed(conds + [c], library) <==> AllWellFormed(conds, library) && WellFormed(c, library)
  {
    hide WellFormed;
    assert (conds + [c])[|conds|] == c;
    assert forall i | 0 <= i < |conds| :: (conds + [c])[i] == conds[i];
  }

  lemma AllSoundNext(exs: seq<Exception>, library: Library)
    requires AllFit(exs) && exs != []
    ensures var n := |exs| - 1;
            AllFit(exs[..n]) && (AllSound(exs, library) <==> AllSound(exs[..n], library) && Sound(exs[n], library))
  {
    hide Sound, Fits, Usable;
    var n := |exs| - 1;
    assert forall i | 0 <= i < n :: exs[..n][i] == exs[i];
  }

  lemma {:induction false} NegatedIff(exs: seq<Exception>, library: Library)
    requires AllFit(exs)
    ensures AllWellFormed(Negated(exs, library), library) <==> AllSound(exs, library)
  {
    if exs != [] {
      hide ExceptionCond, AllWellFormed, AllSound, Fits, Usable;
      var n := |exs| - 1;
      AllSoundNext(exs, library);
      NegatedIff(exs[..n], library);
      if exs[n].values == [] {
        assert Negated(exs, library) == Negated(exs[..n], library);
      } else {
        ExceptionIff(exs[n], library);
        AllWellFormedNext(Negated(exs[..n], library), Neg(ExceptionCond(exs[n], library)), library);
      }
    }
  }

  lemma IntendedIff(c: Cond, exs: seq<Exception>, library: Library)
    requires AllFit(exs)
    ensures WellFormed(Intended(c, exs, library), library) <==> WellFormed(c, library) && AllSound(exs, library)
  {
    hide Negated, AllSound, WellFormed;
    var negated := Negated(exs, library);
    NegatedIff(exs, library);
    TogetherWellFormed([c] + negated, library);
    assert ([c] + negated)[0] == c;
    assert forall i | 0 <= i < |negated| :: ([c] + negated)[i + 1] == negated[i];
  }

  /** The built text is read as the condition and none of the exceptions exactly when all exceptions are sound. */
  lemma BuiltReadsIff(cond: string, c: Cond, exs: seq<Exception>, library: Library)
    requires AllFit(exs) && ReadText(cond, library) == Some(c)
    ensures ReadText(Built(cond, exs, library), library) == Some(Intended(c, exs, library)) <==> AllSound(exs, library)
  {
    hide Lex, ReadOr, Ands, AllSound, Built, BuiltTokens, Negated, WellFormed;
    ReadTextWellFormed(Built(cond, exs, library), library);
    IntendedIff(c, exs, library);
    if AllSound(exs, library) {
      var tokens := Lex(cond, library).value;
      BuiltLexes(cond, exs, library);
      BuiltTokensRead(tokens, c, exs, library);
      AndsAreRead(BuiltTokens(tokens, exs, library));
    }
  }

  // ----- Meaning

  lemma TogetherMeans(conds: seq<Cond>, passes: (string, string, string) -> bool, env: string -> bool)
    ensures Truth(Together(conds), passes, env) <==> AllTrue(conds, passes, env)
  {
    if |conds| != 1 {
      assert forall i | 0 <= i < |conds| :: conds[i] in conds;
    }
  }

  lemma EitherMeans(conds: seq<Cond>, passes: (string, string, string) -> bool, env: string -> bool)
    ensures Truth(Either(conds), passes, env) <==> exists i :: 0 <= i < |conds| && Truth(conds[i], passes, env)
  {
    if |conds| == 1 {
      assert Truth(conds[0], passes, env) <==> Truth(Either(conds), passes, env);
    } else {
      assert forall i | 0 <= i < |conds| :: conds[i] in conds;
    }
  }

  /** Comparing to the written values is comparing to what they stand for. */
  lemma WrittenMeans(field: string, op: string, values: seq<Entry>, passes: (string, string, string) -> bool)
    ensures Compares(field, op, Many(Written(values)), passes) <==> exists v | v in values :: passes(field, op, Plain(v.Value()))
  {
    hide Quoted, Meaning;
    var ls := Written(values);
    forall i | 0 <= i < |values|
      ensures ls[i] in ls && values[i] in values && Meaning(ls[i]) == Plain(values[i].Value())
    {
    }
  }

  lemma OperandMeans(field: string, op: string, value: Entry, library: Library, passes: (string, string, string) -> bool)
    ensures Compares(field, op, OperandRead(value, op, library), passes) <==> ValueMatches(field, op, value, library, passes)
  {
    hide Quoted, ValuesIn, Written;
    if value.Items? {
      WrittenMeans(field, op, value.entries, passes);
    }
  }

  lemma RowMeans(ex: Exception, row: Entry, library: Library, passes: (string, string, string) -> bool, env: string -> bool)
    requires RowUsable(ex, row)
    ensures Truth(RowCond(ex, row, library), passes, env) <==> RowMatches(ex, row, library, passes)
  {
    hide OperandRead, Compares, ValueMatches;
    var conds := RowConds(ex, row, |ex.fields.entries|, library);
    TogetherMeans(conds, passes, env);
    forall k | 0 <= k < |conds|
      ensures Truth(conds[k], passes, env) <==>
              ValueMatches(ex.fields.entries[k].Value(), ex.comps.Parts()[k].Value(), row.Parts()[k], library, passes)
    {
      OperandMeans(ex.fields.entries[k].Value(), ex.comps.Parts()[k].Value(), row.Parts()[k], library, passes);
    }
  }

  lemma ExceptionMeans(ex: Exception, library: Library, passes: (string, string, string) -> bool, env: string -> bool)
    requires Fits(ex) && Usable(ex) && ex.values != []
    ensures Truth(ExceptionCond(ex, library), passes, env) <==> ExceptionMatches(ex, library, passes)
  {
    hide RowMatches, RowCond, Written, Compares, Plain;
    if ex.fields.Item? {
      WrittenMeans(ex.fields.text, ex.comps.Value(), ex.values, passes);
    } else {
      forall i | 0 <= i < |ex.values|
        ensures RowUsable(ex, ex.values[i])
      {
        assert RowFits(ex, ex.values[i]);
      }
      var conds := RowsConds(ex, ex.values, library);
      EitherMeans(conds, passes, env);
      forall i | 0 <= i < |conds|
        ensures Truth(conds[i], passes, env) <==> RowMatches(ex, ex.values[i], library, passes)
      {
        RowMeans(ex, ex.values[i], library, passes, env);
      }
    }
  }

  predicate AllTrue(conds: seq<Cond>, passes: (string, string, string) -> bool, env: string -> bool) {
    forall i | 0 <= i < |conds| :: Truth(conds[i], passes, env)
  }

  lemma AllTrueNext(conds: seq<Cond>, c: Cond, passes: (string, string, string) -> bool, env: string -> bool)
    ensures AllTrue(conds + [c], passes, env) <==> AllTrue(conds, passes, env) && Truth(c, passes, env)
  {
    hide Truth;
    assert (conds + [c])[|conds|] == c;
    assert forall i | 0 <= i < |conds| :: (conds + [c])[i] == conds[i];
  }

  /** The event matches none of the exceptions. */
  predicate NoneMatches(exs: seq<Exception>, library: Library, passes: (string, string, string) -> bool)
    requires AllFit(exs)
  {
    forall i | 0 <= i < |exs| :: !ExceptionMatches(exs[i], library, passes)
  }

  lemma NoneMatchesNext(exs: seq<Exception>, library: Library, passes: (string, string, string) -> bool)
    requires AllFit(exs) && exs != []
    ensures var n := |exs| - 1;
            && AllFit(exs[..n])
            && (NoneMatches(exs, library, passes) <==>
                NoneMatches(exs[..n], library, passes) && !ExceptionMatches(exs[n], library, passes))
  {
    hide ExceptionMatches, Fits, Usable;
    var n := |exs| - 1;
    assert forall i | 0 <= i < n :: exs[..n][i] == exs[i];
  }

  lemma {:induction false} NegatedMeans(exs: seq<Exception>, library: Library, passes: (string, string, string) -> bool,
                                        env: string -> bool)
    requires AllFit(exs)
    ensures AllTrue(Negated(exs, library), passes, env) <==> NoneMatches(exs, library, passes)
  {
    if exs != [] {
      hide ExceptionCond, ExceptionMatches, AllTrue, NoneMatches;
      var n := |exs| - 1;
      NoneMatchesNext(exs, library, passes);
      NegatedMeans(exs[..n], library, passes, env);
      if exs[n].values == [] {
        NoValues(exs[n], library, passes);
        assert Negated(exs, library) == Negated(exs[..n], library);
      } else {
        ExceptionMeans(exs[n], library, passes, env);
        AllTrueNext(Negated(exs[..n], library), Neg(ExceptionCond(exs[n], library)), passes, env);
      }
    }
  }

  lemma NoValues(ex: Exception, library: Library, passes: (string, string, string) -> bool)
    requires Fits(ex) && Usable(ex) && ex.values == []
    ensures !ExceptionMatches(ex, library, passes)
  {
  }

  lemma FirstAndRest(c: Cond, conds: seq<Cond>, passes: (string, string, string) -> bool, env: string -> bool)
    ensures AllTrue([c] + conds, passes, env) <==> Truth(c, passes, env) && AllTrue(conds, passes, env)
  {
    hide Truth;
    var all := [c] + conds;
    assert all[0] == c;
    assert forall i | 0 <= i < |conds| :: all[i + 1] == conds[i];
  }

  /** If the condition is read as `c` and the exceptions are sound, the built text is read as something that is true on an
      event iff `c` is and no exception matches it; exceptions without values change nothing. */
  lemma BuiltMeans(cond: string, c: Cond, exs: seq<Exception>, library: Library,
                   passes: (string, string, string) -> bool, env: string -> bool)
    requires AllFit(exs) && ReadText(cond, library) == Some(c) && AllSound(exs, library)
    ensures var r := ReadText(Built(cond, exs, library), library);
            && r.Some?
            && (Truth(r.value, passes, env) <==> Truth(c, passes, env) && NoneMatches(exs, library, passes))
  {
    hide ReadText, Negated, Built, Truth, NoneMatches, AllTrue;
    var negated := Negated(exs, library);
    BuiltReadsIff(cond, c, exs, library);
    TogetherMeans([c] + negated, passes, env);
    NegatedMeans(exs, library, passes, env);
    FirstAndRest(c, negated, passes, env);
  }

  lemma {:induction false} WithoutValues(cond: string, exs: seq<Exception>, library: Library)
    requires AllFit(exs) && forall i | 0 <= i < |exs| :: exs[i].values == []
    ensures Built(cond, exs, library) == "(" + cond + ")"
  {
    if exs != [] {
      WithoutValues(cond, exs[..|exs| - 1], library);
      assert exs[|exs| - 1].values == [];
    }
  }
}
