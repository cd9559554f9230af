/** Building the exceptions of a rule into its condition text (build_rule_exception_infos). */
module ExceptionText {
  import opened ConditionLexer
  import opened Exceptions

  /** The operators the code reads are there: one for each field, if the first row of values fits the fields. */
  predicate Defined(ex: Exception) {
    ex.fields.Items? && ex.values != [] && RowFits(ex, ex.values[0]) ==> |ex.fields.entries| <= |ex.comps.Parts()|
  }

  lemma JoinedNext(values: seq<Entry>, i: nat)
    requires i < |values|
    ensures Joined(Written(values[..i + 1])) ==
            if i == 0 then Quoted(values[i].Value()) else Joined(Written(values[..i])) + ", " + Quoted(values[i].Value())
  {
    hide Quoted;
    var ls := Written(values[..i + 1]);
    assert ls[..i] == Written(values[..i]) && ls[i] == Quoted(values[i].Value());
  }

  lemma CommaGlue(head: string, list: string, l: string)
    ensures head + list + ", " + l == head + (list + ", " + l) && "" + head + l == head + l
  {
  }

  lemma SingleGlue(field: string, op: string, list: string)
    ensures "(" + field + " " + op + " (" + list + "))" == "(" + (CheckText(field, op, "(" + (list + ")")) + ")")
  {
    var operand := "(" + (list + ")");
    calc {
      "(" + field + " " + op + " (" + list + "))";
    ==
      "(" + field + " " + op + " " + operand + ")";
    ==
      "(" + (field + (" " + (op + (" " + operand)))) + ")";
    }
  }

  /** The text of an exception with one field. */
  method WriteSingle(ex: Exception, library: Library) returns (ok: bool, text: string)
    requires ex.fields.Item?
    ensures ok <==> Fits(ex)
    ensures ok ==> text == if ex.values == [] then "" else ExceptionText(ex, library)
  {
    hide Joined, Quoted, Written, CheckText;
    text := "";
    var head := "(" + ex.fields.text + " " + ex.comps.Value() + " (";
    var i := 0;
    while i < |ex.values|
      invariant 0 <= i <= |ex.values|
      invariant forall k | 0 <= k < i :: RowFits(ex, ex.values[k])
      invariant text == if i == 0 then "" else head + Joined(Written(ex.values[..i]))
    {
      if ex.values[i].Items? {
        return false, "";
      }
      JoinedNext(ex.values, i);
      CommaGlue(head, Joined(Written(ex.values[..i])), Quoted(ex.values[i].Value()));
      text := text + (if text == "" then head else ", ");
      text := text + Quoted(ex.values[i].Value());
      i := i + 1;
    }
    assert ex.values[..i] == ex.values;
    SingleGlue(ex.fields.text, ex.comps.Value(), Joined(Written(ex.values)));
    text := text + if text == "" then "" else "))";
    ok := true;
  }

  /** A nested list of values. */
  method WriteNested(values: seq<Entry>) returns (text: string)
    ensures text == Listed(values) + ")"
  {
    hide Quoted;
    text := "(";
    var i := 0;
    while i < |values|
      invariant 0 <= i <= |values| && text == Listed(values[..i])
    {
      assert values[..i + 1][..i] == values[..i];
      text := text + (if text == "(" then "" else ", ");
      text := text + Quoted(values[i].Value());
      i := i + 1;
    }
    assert values[..i] == values;
    text := text + ")";
  }

  method WriteOperand(value: Entry, op: string, library: Library) returns (text: string)
    ensures text == OperandText(value, op, library)
  {
    if value.Items? {
      text := WriteNested(value.entries);
    } else if op in library.listOperators {
      text := Parenthesized(value.text);
    } else {
      text := Quoted(value.text);
    }
  }

  /** The comparisons of one row of values. */
  method WriteRow(ex: Exception, row: Entry, library: Library) returns (text: string)
    requires RowUsable(ex, row)
    ensures text == RowText(ex, row, |ex.fields.entries|, library)
  {
    hide OperandText;
    text := "";
    var k := 0;
    while k < |ex.fields.entries|
      invariant 0 <= k <= |ex.fields.entries| && text == RowText(ex, row, k, library)
    {
      var field, op := ex.fields.entries[k].Value(), ex.comps.Parts()[k].Value();
      var operand := WriteOperand(row.Parts()[k], op, library);
      text := text + (if k == 0 then "" else " and ");
      CheckGlue(text, field, op, operand);
      text := text + " " + field + " " + op + " " + operand;
      k := k + 1;
    }
  }

  lemma CheckGlue(front: string, field: string, op: string, operand: string)
    ensures front + " " + field + " " + op + " " + operand == front + " " + CheckText(field, op, operand)
  {
  }

  lemma RowsNext(ex: Exception, rows: seq<Entry>, i: nat, library: Library)
    requires i < |rows| && forall k | 0 <= k <= i :: RowUsable(ex, rows[k])
    ensures RowsText(ex, rows[..i + 1], library) ==
            RowsText(ex, rows[..i], library) + (if i == 0 then "" else " or ")
            + "(" + RowText(ex, rows[i], |ex.fields.entries|, library) + ")"
  {
    hide RowText;
    assert rows[..i + 1][..i] == rows[..i];
  }

  /** The text of an exception with a list of fields. */
  method WriteRows(ex: Exception, library: Library) returns (ok: bool, text: string)
    requires ex.fields.Items? && Defined(ex)
    ensures ok <==> Fits(ex) && Usable(ex)
    ensures ok ==> text == if ex.values == [] then "" else ExceptionText(ex, library)
  {
    hide RowText, RowsText;
    text := "(";
    NoRows(ex, library);
    var i := 0;
    while i < |ex.values|
      invariant 0 <= i <= |ex.values|
      invariant forall k | 0 <= k < i :: RowUsable(ex, ex.values[k])
      invariant text == "(" + RowsText(ex, ex.values[..i], library) && (text == "(" <==> i == 0)
    {
      if |ex.fields.entries| != |ex.values[i].Parts()| {
        assert !RowFits(ex, ex.values[i]);
        return false, "";
      }
      assert RowUsable(ex, ex.values[i]);
      RowsNext(ex, ex.values, i, library);
      var row := WriteRow(ex, ex.values[i], library);
      GlueRow(RowsText(ex, ex.values[..i], library), if i == 0 then "" else " or ", row);
      text := text + (if text == "(" then "" else " or ");
      text := text + "(";
      text := text + row;
      text := text + ")";
      i := i + 1;
    }
    assert ex.values[..i] == ex.values;
    if text == "(" {
      text := "";
    } else {
      assert "(" + RowsText(ex, ex.values, library) + ")" == "(" + (RowsText(ex, ex.values, library) + ")");
      text := text + ")";
    }
    ok := true;
  }

  lemma GlueRow(front: string, joiner: string, row: string)
    ensures "(" + front + joiner + "(" + row + ")" == "(" + (front + joiner + "(" + row + ")")
    ensures |"(" + front + joiner + "(" + row + ")"| > 1
  {
  }

  lemma NoRows(ex: Exception, library: Library)
    requires ex.fields.Items?
    ensures ex.values[..0] == [] && RowsText(ex, [], library) == "" && "(" + "" == "("
  {
  }

  method WriteException(ex: Exception, library: Library) returns (ok: bool, text: string)
    requires Defined(ex)
    ensures ok <==> Fits(ex) && Usable(ex)
    ensures ok ==> text == (if ex.values == [] then "" else ExceptionText(ex, library)) && (text == "" <==> ex.values == [])
  {
    hide RowsText, Joined, Written, CheckText;
    if ex.fields.Item? {
      ok, text := WriteSingle(ex, library);
    } else {
      ok, text := WriteRows(ex, library);
    }
  }

  /** The fields of the exceptions that have values. */
  function FieldsOf(exs: seq<Exception>): set<string> {
    if exs == [] then {}
    else
      var ex := exs[|exs| - 1];
      FieldsOf(exs[..|exs| - 1])
      + (if ex.values == [] then {} else if ex.fields.Item? then {ex.fields.text} else set f | f in ex.fields.entries :: f.Value())
  }

  /** The condition in parentheses, followed by the exceptions; not `ok` where a value does not fit its fields. */
  method BuildCondition(cond: string, exs: seq<Exception>, library: Library)
    returns (ok: bool, condition: string, fields: set<string>)
    requires forall i | 0 <= i < |exs| :: Defined(exs[i])
    ensures ok <==> AllFit(exs)
    ensures ok ==> condition == Built(cond, exs, library) && fields == FieldsOf(exs)
  {
    hide Fits, Usable, Built, ExceptionText, FieldsOf, Defined;
    condition, fields := "(" + cond + ")", {};
    NothingAdded(cond, exs, library);
    var i := 0;
    while i < |exs|
      invariant 0 <= i <= |exs| && AllFit(exs[..i])
      invariant condition == Built(cond, exs[..i], library) && fields == FieldsOf(exs[..i])
    {
      var fits, text := WriteException(exs[i], library);
      if !fits {
        assert !(Fits(exs[i]) && Usable(exs[i]));
        return false, "", {};
      }
      BuiltNext(cond, exs, i, library);
      condition := condition + (if text == "" then "" else " and not " + text);
      if exs[i].values != [] {
        fields := fields + (if exs[i].fields.Item? then {exs[i].fields.text} else set f | f in exs[i].fields.entries :: f.Value());
      }
      i := i + 1;
    }
    assert exs[..i] == exs;
    ok := true;
  }

  lemma NothingAdded(cond: string, exs: seq<Exception>, library: Library)
    ensures exs[..0] == [] && AllFit([]) && Built(cond, [], library) == "(" + cond + ")" && FieldsOf([]) == {}
  {
  }

  lemma BuiltNext(cond: string, exs: seq<Exception>, i: nat, library: Library)
    requires i < |exs| && AllFit(exs[..i]) && Fits(exs[i]) && Usable(exs[i])
    ensures AllFit(exs[..i + 1])
    ensures Built(cond, exs[..i + 1], library) ==
            Built(cond, exs[..i], library) + (if exs[i].values == [] then "" else " and not " + ExceptionText(exs[i], library))
    ensures FieldsOf(exs[..i + 1]) == FieldsOf(exs[..i])
            + (if exs[i].values == [] then {} else if exs[i].fields.Item? then {exs[i].fields.text}
               else set f | f in exs[i].fields.entries :: f.Value())
  {
    hide ExceptionText, Fits, Usable;
    var more := exs[..i + 1];
    assert more[..i] == exs[..i] && more[i] == exs[i] && |more| == i + 1;
    forall k | 0 <= k < |more|
      ensures Fits(more[k]) && Usable(more[k])
    {
      if k < i { assert more[k] == exs[..i][k]; }
    }
  }

  predicate HasField(ex: Exception, f: string) {
    if ex.fields.Item? then f == ex.fields.text else exists e | e in ex.fields.entries :: e.Value() == f
  }

  /** The fields collected are those of exceptions that have values. */
  lemma {:induction false} FieldsMean(exs: seq<Exception>, f: string)
    ensures f in FieldsOf(exs) <==> exists ex | ex in exs :: ex.values != [] && HasField(ex, f)
  {
    if exs != [] {
      var n := |exs| - 1;
      FieldsMean(exs[..n], f);
      assert exs == exs[..n] + [exs[n]];
    }
  }
}
