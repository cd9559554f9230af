/** The tokens of a condition text: parentheses, the words `and`, `or` and `not`, comparisons with their operands, and names. */
module ConditionLexer {
  import opened Options
  import opened Text

  // ----- Runs of characters

  datatype Class = Blanks | Signs | Names | Values

  predicate QuoteMark(c: char) {
    c == '"' || c == '\''
  }

  predicate ValueChar(c: char) {
    !Blank(c) && c != '(' && c != ')' && c != ',' && !QuoteMark(c) && c != '='
  }

  /** Names are made of the characters an unquoted value may have, without those of operators. */
  predicate In(c: char, k: Class) {
    match k
    case Blanks => Blank(c)
    case Signs => c == '=' || c == '<' || c == '>' || c == '!'
    case Values => ValueChar(c)
    case Names => ValueChar(c) && c != '<' && c != '>' && c != '!'
  }

  predicate Only(s: string, k: Class) {
    forall i | 0 <= i < |s| :: In(s[i], k)
  }

  /** The length of the longest beginning of `s` made of characters of the class. */
  function Run(s: string, k: Class): (n: nat)
    ensures n <= |s| && Only(s[..n], k) && (n < |s| ==> !In(s[n], k))
  {
    if s == "" || !In(s[0], k) then 0
    else
      var n := Run(s[1..], k);
      assert s[..n + 1] == [s[0]] + s[1..][..n];
      n + 1
  }

  /** The longest beginning is the one that ends where the class does. */
  lemma RunIs(s: string, k: Class, n: nat)
    requires n <= |s| && Only(s[..n], k) && (n < |s| ==> !In(s[n], k))
    ensures Run(s, k) == n
  {
    hide Run;
    var r := Run(s, k);
    assert forall i | 0 <= i < r :: s[..r][i] == s[i];
    assert forall i | 0 <= i < n :: s[..n][i] == s[i];
  }

  lemma RunOn(a: string, b: string, k: Class)
    requires Run(a, k) < |a| || b == "" || !In(b[0], k)
    ensures Run(a + b, k) == Run(a, k)
  {
    hide Run, In;
    var n := Run(a, k);
    assert (a + b)[..n] == a[..n];
    RunIs(a + b, k, n);
  }

  // ----- Values

  /** quote_item */
  function Quoted(s: string): string {
    if ' ' in s && s[0] != '"' && s[0] != '\'' then "\"" + (s + "\"") else s
  }

  /** Where a quoted value that starts with its mark ends; 0 if nowhere. A mark behind a backslash does not end it. */
  function QuoteEnd(s: string, i: nat): (n: nat)
    requires s != "" && 1 <= i
    ensures n == 0 || i < n <= |s|
    decreases |s| - i
  {
    if i >= |s| then 0
    else if s[i] == s[0] && s[i - 1] != '\\' then i + 1
    else QuoteEnd(s, i + 1)
  }

  /** The length of the value at the beginning of `s`, quoted or not; 0 if there is none. */
  function ValueLen(s: string): (n: nat)
    ensures n <= |s|
  {
    if s == "" then 0
    else if QuoteMark(s[0]) then QuoteEnd(s, 1)
    else Run(s, Values)
  }

  /** `l` is written as one value. */
  predicate IsValue(l: string) {
    l != "" && ValueLen(l) == |l|
  }

  lemma {:induction false} QuoteEndOn(s: string, ext: string, i: nat)
    requires s != "" && 1 <= i && QuoteEnd(s, i) != 0
    ensures QuoteEnd(s + ext, i) == QuoteEnd(s, i)
    decreases |s| - i
  {
    if !(s[i] == s[0] && s[i - 1] != '\\') {
      QuoteEndOn(s, ext, i + 1);
    }
  }

  lemma ValueLenOn(s: string, ext: string)
    requires 0 < ValueLen(s) && (ValueLen(s) < |s| || ext == "" || !In(ext[0], Values))
    ensures ValueLen(s + ext) == ValueLen(s)
  {
    assert (s + ext)[0] == s[0];
    if QuoteMark(s[0]) {
      QuoteEndOn(s, ext, 1);
    } else {
      RunOn(s, ext, Values);
    }
  }

  lemma {:induction false} QuoteEndOf(s: string, n: nat, i: nat)
    requires s != "" && 1 <= i < n <= |s| && QuoteEnd(s, i) == n
    ensures QuoteEnd(s[..n], i) == n
    decreases n - i
  {
    var t := s[..n];
    assert t[i] == s[i] && t[i - 1] == s[i - 1] && t[0] == s[0];
    if !(s[i] == s[0] && s[i - 1] != '\\') {
      QuoteEndOf(s, n, i + 1);
    }
  }

  /** What is taken as a value is one. */
  lemma ValueTaken(s: string)
    requires 0 < ValueLen(s)
    ensures IsValue(s[..ValueLen(s)])
  {
    var n := ValueLen(s);
    var l := s[..n];
    assert l[0] == s[0];
    if QuoteMark(s[0]) {
      QuoteEndOf(s, n, 1);
    } else {
      assert l[..n] == l;
      RunIs(l, Values, n);
    }
  }

  // ----- Lists of values

  /** What stands at the beginning of a text, and its length. */
  datatype Taken<T> = Fail | Taken(value: T, len: nat)

  /** The value at the beginning of a list; its length counts the blanks on both sides. */
  function TakeValue(s: string): (r: Taken<string>)
    ensures r.Taken? ==> r.len < |s|
  {
    var b := Run(s, Blanks);
    var n := ValueLen(s[b..]);
    var e := b + n + Run(s[b + n..], Blanks);
    if n == 0 || e == |s| then Fail else Taken(s[b..b + n], e)
  }

  /** The values of a non-empty list behind its opening parenthesis, up to the closing one. */
  function TakeValues(s: string): (r: Taken<seq<string>>)
    ensures r.Taken? ==> 1 <= r.len <= |s|
    decreases |s|
  {
    var first := TakeValue(s);
    if first.Fail? then Fail
    else if s[first.len] == ')' then Taken([first.value], first.len + 1)
    else if s[first.len] != ',' then Fail
    else
      var more := TakeValues(s[first.len + 1..]);
      if more.Fail? then Fail else Taken([first.value] + more.value, first.len + 1 + more.len)
  }

  /** The values of a list behind its opening parenthesis. */
  function TakeList(s: string): (r: Taken<seq<string>>)
    ensures r.Taken? ==> 1 <= r.len <= |s|
  {
    var b := Run(s, Blanks);
    if b < |s| && s[b] == ')' then Taken([], b + 1) else TakeValues(s)
  }

  predicate AllValues(ls: seq<string>) {
    forall i | 0 <= i < |ls| :: IsValue(ls[i])
  }

  lemma Slices(s: string, ext: string, i: nat, j: nat)
    requires i <= j <= |s|
    ensures (s + ext)[i..] == s[i..] + ext && (s + ext)[j..] == s[j..] + ext && (s + ext)[i..j] == s[i..j]
  {
  }

  lemma TakeValueOn(s: string, ext: string)
    requires TakeValue(s).Taken?
    ensures TakeValue(s + ext) == TakeValue(s)
  {
    hide Run, ValueLen, Only, In;
    var b := Run(s, Blanks);
    var n := ValueLen(s[b..]);
    RunOn(s, ext, Blanks);
    Slices(s, ext, b, b + n);
    ValueLenOn(s[b..], ext);
    RunOn(s[b + n..], ext, Blanks);
  }

  /** A closed list does not depend on what follows it. */
  lemma {:induction false} TakeValuesOn(s: string, ext: string)
    requires TakeValues(s).Taken?
    ensures TakeValues(s + ext) == TakeValues(s)
    decreases |s|
  {
    hide TakeValue;
    TakeValueOn(s, ext);
    var e := TakeValue(s).len;
    assert (s + ext)[e] == s[e];
    if s[e] == ',' {
      Slices(s, ext, e + 1, e + 1);
      TakeValuesOn(s[e + 1..], ext);
    }
  }

  lemma TakeListOn(s: string, ext: string)
    requires TakeList(s).Taken?
    ensures TakeList(s + ext) == TakeList(s)
  {
    hide Run, ValueLen, TakeValues;
    var b := Run(s, Blanks);
    if b == |s| {
      NothingListed(s);
    } else {
      RunOn(s, ext, Blanks);
      assert (s + ext)[b] == s[b];
      if s[b] != ')' { TakeValuesOn(s, ext); }
    }
  }

  lemma NothingListed(s: string)
    requires Run(s, Blanks) == |s|
    ensures TakeValues(s).Fail?
  {
    hide Run;
    assert s[|s|..] == "";
  }

  lemma {:induction false} ListedAreValues(s: string)
    ensures TakeValues(s).Taken? ==> AllValues(TakeValues(s).value)
    decreases |s|
  {
    hide TakeValue, IsValue;
    if TakeValues(s).Taken? {
      var first := TakeValue(s);
      TakenIsValue(s);
      if s[first.len] == ',' { ListedAreValues(s[first.len + 1..]); }
    }
  }

  lemma TakenIsValue(s: string)
    requires TakeValue(s).Taken?
    ensures IsValue(TakeValue(s).value)
  {
    hide Run, ValueLen, IsValue;
    var b := Run(s, Blanks);
    var n := ValueLen(s[b..]);
    ValueTaken(s[b..]);
    assert s[b..][..n] == s[b..b + n];
  }

  /** Values separated by commas. */
  function Joined(ls: seq<string>): string {
    if ls == [] then ""
    else if |ls| == 1 then ls[0]
    else Joined(ls[..|ls| - 1]) + ", " + ls[|ls| - 1]
  }

  lemma {:induction false} JoinedFront(ls: seq<string>)
    requires |ls| > 1
    ensures Joined(ls) == ls[0] + ", " + Joined(ls[1..])
  {
    var n := |ls| - 1;
    if n == 1 {
      assert ls[..1] == [ls[0]] && ls[1..] == [ls[1]];
    } else {
      JoinedFront(ls[..n]);
      assert ls[..n][1..] == ls[1..][..n - 1];
      var mid := Joined(ls[1..][..n - 1]);
      assert ls[0] + ", " + mid + ", " + ls[n] == ls[0] + ", " + (mid + ", " + ls[n]);
    }
  }

  lemma ValueThen(pre: string, l: string, c: char, rest: string)
    requires Only(pre, Blanks) && IsValue(l) && (c == ',' || c == ')')
    ensures TakeValue(pre + (l + ([c] + rest))) == Taken(l, |pre| + |l|)
  {
    var tail := [c] + rest;
    var s := pre + (l + tail);
    ValueLenOn(l, tail);
    ValueStarts(l);
    RunIs(tail, Blanks, 0);
    assert s[..|pre|] == pre && s[|pre|] == l[0];
    RunIs(s, Blanks, |pre|);
    hide Run, ValueLen, IsValue, Only, In;
    PreSlices(pre, l, tail);
  }

  lemma PreSlices(pre: string, l: string, tail: string)
    ensures var s := pre + (l + tail);
            s[|pre|..] == l + tail && s[|pre| + |l|..] == tail && s[|pre|..|pre| + |l|] == l
  {
  }

  lemma ValueStarts(l: string)
    requires IsValue(l)
    ensures !Blank(l[0]) && l[0] != '(' && l[0] != ')'
  {
  }

  lemma NextValue(pre: string, l: string, rest: string)
    requires Only(pre, Blanks) && IsValue(l) && TakeValues(rest).Taken?
    ensures var more := TakeValues(rest);
            TakeValues(pre + (l + ([','] + rest))) == Taken([l] + more.value, |pre| + |l| + 1 + more.len)
  {
    hide TakeValue, TakeValues, IsValue, Only;
    ValueThen(pre, l, ',', rest);
    CommaAt(pre, l, rest);
    ListStep(pre + (l + ([','] + rest)));
  }

  lemma CommaAt(pre: string, l: string, rest: string)
    ensures var s, e := pre + (l + ([','] + rest)), |pre| + |l|;
            e < |s| && s[e] == ',' && s[e + 1..] == rest
  {
    PreSlices(pre, l, [','] + rest);
    PreSlices(pre + l, [','], rest);
    assert pre + (l + ([','] + rest)) == pre + l + ([','] + rest);
  }

  lemma ListStep(s: string)
    requires TakeValue(s).Taken? && s[TakeValue(s).len] == ',' && TakeValues(s[TakeValue(s).len + 1..]).Taken?
    ensures var first := TakeValue(s);
            var more := TakeValues(s[first.len + 1..]);
            TakeValues(s) == Taken([first.value] + more.value, first.len + 1 + more.len)
  {
    hide TakeValue;
  }

  lemma LastValue(pre: string, l: string)
    requires Only(pre, Blanks) && IsValue(l)
    ensures TakeValues(pre + (l + ([')'] + ""))) == Taken([l], |pre| + |l| + 1)
  {
    hide TakeValue, IsValue;
    ValueThen(pre, l, ')', "");
    assert pre + (l + ([')'] + "")) == pre + l + [')'];
  }

  /** A list written out is read as its values. */
  lemma {:induction false} JoinedIsTaken(pre: string, ls: seq<string>)
    requires Only(pre, Blanks) && ls != [] && AllValues(ls)
    ensures TakeValues(pre + (Joined(ls) + ")")) == Taken(ls, |pre| + |Joined(ls)| + 1)
    decreases |ls|
  {
    hide TakeValue, TakeValues, IsValue, Joined;
    if |ls| == 1 {
      LastValue(pre, ls[0]);
      OneJoined(ls);
    } else {
      var rest := " " + (Joined(ls[1..]) + ")");
      JoinedIsTaken(" ", ls[1..]);
      JoinedFront(ls);
      assert Joined(ls) + ")" == ls[0] + ([','] + rest);
      NextValue(pre, ls[0], rest);
      assert [ls[0]] + ls[1..] == ls;
    }
  }

  lemma OneJoined(ls: seq<string>)
    requires |ls| == 1
    ensures ls == [ls[0]] && Joined(ls) == ls[0] && Joined(ls) + ")" == ls[0] + ([')'] + "")
  {
  }

  /** A written list, empty or not. */
  lemma WrittenIsTaken(ls: seq<string>)
    requires AllValues(ls)
    ensures TakeList(Joined(ls) + ")") == Taken(ls, |Joined(ls)| + 1)
  {
    hide TakeValues, IsValue, ValueLen;
    if ls == [] {
      assert Joined(ls) + ")" == ")";
    } else {
      JoinedIsTaken("", ls);
      assert "" + (Joined(ls) + ")") == Joined(ls) + ")";
      ValueStarts(ls[0]);
      JoinedStarts(ls);
    }
  }

  lemma JoinedStarts(ls: seq<string>)
    requires ls != [] && AllValues(ls)
    ensures Joined(ls) != "" && Joined(ls)[0] == ls[0][0]
  {
    hide ValueLen;
    if |ls| > 1 { JoinedFront(ls); }
  }

  // ----- Tokens

  /** What the filter library knows: its operators, those that take a list, those that take nothing, and the fields of the
      source. */
  datatype Library = Library(operators: set<string>, listOperators: set<string>, unary: set<string>, fields: set<string>)

  datatype Operand = Nothing | One(text: string) | Many(texts: seq<string>)

  datatype Token = Open | Close | And | Or | Not | Check(field: string, op: string, operand: Operand) | Name(name: string)

  predicate Keyword(w: string) {
    w == "and" || w == "or" || w == "not"
  }

  /** How much of `s` would be its operator: one or two signs, or a word. */
  function OperatorSpan(s: string, library: Library): (m: nat)
    ensures m <= |s|
  {
    if s == "" then 0
    else if In(s[0], Signs) then (if |s| > 1 && In(s[1], Signs) && s[..2] in library.operators then 2 else 1)
    else Run(s, Names)
  }

  /** The length of the operator at the beginning of `s`; 0 if there is none. */
  function OperatorLen(s: string, library: Library): (m: nat)
    ensures m <= |s|
  {
    var m := OperatorSpan(s, library);
    if s[..m] in library.operators && !Keyword(s[..m]) then m else 0
  }

  /** The operand of a comparison: a value, or a list in parentheses or its name. */
  function TakeOperand(s: string, list: bool): (r: Taken<Operand>)
    ensures r.Taken? ==> 1 <= r.len <= |s|
  {
    if list && s != "" && s[0] == '(' then
      var r := TakeList(s[1..]);
      if r.Fail? then Fail else Taken(Many(r.value), 1 + r.len)
    else
      var n := if list then Run(s, Names) else ValueLen(s);
      if n == 0 then Fail else Taken(One(s[..n]), n)
  }

  /** What begins with a word of length `w`: a comparison if an operator follows, else a name. */
  function TakeCheck(s: string, w: nat, library: Library): (r: Taken<Token>)
    requires 1 <= w <= |s|
    ensures r.Taken? ==> 1 <= r.len <= |s|
  {
    var o := w + Run(s[w..], Blanks);
    var m := OperatorLen(s[o..], library);
    if m == 0 then Taken(Name(s[..w]), w)
    else
      var op := s[o..o + m];
      if op in library.unary then Taken(Check(s[..w], op, Nothing), o + m)
      else
        var v := o + m + Run(s[o + m..], Blanks);
        var x := TakeOperand(s[v..], op in library.listOperators);
        if x.Fail? then Fail else Taken(Check(s[..w], op, x.value), v + x.len)
  }

  function TakeToken(s: string, library: Library): (r: Taken<Token>)
    ensures r.Taken? ==> 1 <= r.len <= |s|
  {
    if s == "" then Fail
    else if s[0] == '(' then Taken(Open, 1)
    else if s[0] == ')' then Taken(Close, 1)
    else
      var w := Run(s, Names);
      if w == 0 then Fail
      else if s[..w] == "and" then Taken(And, w)
      else if s[..w] == "or" then Taken(Or, w)
      else if s[..w] == "not" then Taken(Not, w)
      else TakeCheck(s, w, library)
  }

  /** The tokens of a text, without the blanks between them. */
  function Lex(s: string, library: Library): Option<seq<Token>>
    decreases |s|
  {
    if Only(s, Blanks) then Some([])
    else
      var first := TakeFirst(s, library);
      if first.Fail? then None else Then(first.value, Lex(s[first.len..], library))
  }

  /** The token behind the blanks at the beginning of `s`, and how far it goes. */
  function TakeFirst(s: string, library: Library): (r: Taken<Token>)
    ensures r.Taken? ==> 1 <= r.len <= |s|
  {
    var b := Run(s, Blanks);
    var t := TakeToken(s[b..], library);
    if t.Fail? then Fail else Taken(t.value, b + t.len)
  }

  function Then(t: Token, more: Option<seq<Token>>): Option<seq<Token>> {
    if more.None? then None else Some([t] + more.value)
  }

  // ----- What follows a token does not change it

  /** `ext` neither goes on with the last word of a text nor gives it an operator. */
  predicate Follows(ext: string) {
    ext == "" || ext[0] == ')' || " and " <= ext || " or " <= ext
  }

  lemma FollowsCuts(ext: string, k: Class)
    requires Follows(ext) && ext != "" && k != Blanks
    ensures !In(ext[0], k)
  {
  }

  lemma RunThrough(a: string, b: string, k: Class)
    requires Run(a, k) == |a|
    ensures Run(a + b, k) == |a| + Run(b, k)
  {
    hide Run, In;
    var n := Run(b, k);
    assert a[..|a|] == a;
    assert (a + b)[..|a| + n] == a + b[..n];
    RunIs(a + b, k, |a| + n);
  }

  lemma NoOperatorFollows(ext: string, library: Library)
    requires Follows(ext)
    ensures OperatorLen(ext[Run(ext, Blanks)..], library) == 0
  {
    if ext != "" && ext[0] == ')' {
      assert ext[0..] == ext && Run(ext, Blanks) == 0;
    } else if ext != "" {
      var word := if " and " <= ext then "and" else "or";
      WordFollows(ext, word);
    } else {
      assert ext[0..] == "";
    }
  }

  lemma WordFollows(ext: string, word: string)
    requires (word == "and" || word == "or") && " " + word + " " <= ext
    ensures Run(ext, Blanks) == 1 && ext[1..1 + |word|] == word && Run(ext[1..], Names) == |word|
    ensures ext[1..] != "" && !In(ext[1..][0], Signs)
  {
    hide Run;
    var pre := " " + word + " ";
    assert ext[..|pre|] == pre;
    assert ext[0] == pre[0] && ext[1] == pre[1] && ext[1 + |word|] == pre[1 + |word|];
    assert ext[1..1 + |word|] == pre[1..1 + |word|] == word;
    RunIs(ext, Blanks, 1);
    assert ext[1..][..|word|] == word;
    RunIs(ext[1..], Names, |word|);
  }

  lemma OperatorLenOn(s: string, ext: string, library: Library)
    requires s != "" && Follows(ext)
    ensures OperatorLen(s + ext, library) == OperatorLen(s, library)
    ensures var m := OperatorLen(s, library); (s + ext)[..m] == s[..m]
  {
    hide Run;
    if ext != "" {
      FollowsCuts(ext, Names);
      FollowsCuts(ext, Signs);
    } else {
      assert s + ext == s;
    }
    RunOn(s, ext, Names);
    assert (s + ext)[0] == s[0];
    if |s| > 1 { assert (s + ext)[1] == s[1] && (s + ext)[..2] == s[..2]; }
    var m := OperatorSpan(s, library);
    assert (s + ext)[..m] == s[..m];
  }

  lemma TakeOperandOn(s: string, ext: string, list: bool)
    requires TakeOperand(s, list).Taken? && Follows(ext)
    ensures TakeOperand(s + ext, list) == TakeOperand(s, list)
  {
    hide Run, ValueLen, TakeList;
    if ext != "" {
      FollowsCuts(ext, Names);
      FollowsCuts(ext, Values);
    }
    assert (s + ext)[0] == s[0];
    if list && s[0] == '(' {
      TakeListOn(s[1..], ext);
      assert (s + ext)[1..] == s[1..] + ext;
    } else {
      if list { RunOn(s, ext, Names); } else { ValueLenOn(s, ext); }
      var n := if list then Run(s, Names) else ValueLen(s);
      assert (s + ext)[..n] == s[..n];
    }
  }

  lemma TakeCheckAtEnd(s: string, w: nat, ext: string, library: Library)
    requires 1 <= w <= |s| && Run(s[w..], Blanks) == |s| - w && Follows(ext)
    ensures TakeCheck(s + ext, w, library) == TakeCheck(s, w, library) == Taken(Name(s[..w]), w)
  {
    hide Run, OperatorLen, Only, In, Follows, TakeOperand;
    RunThrough(s[w..], ext, Blanks);
    NoOperatorFollows(ext, library);
    Slices(s, ext, 0, w);
    assert (s + ext)[..w] == s[..w];
    var b := Run(ext, Blanks);
    assert (s + ext)[|s| + b..] == ext[b..];
    assert s[|s|..] == "";
  }

  lemma TakeCheckOn(s: string, w: nat, ext: string, library: Library)
    requires 1 <= w <= |s| && TakeCheck(s, w, library).Taken? && Follows(ext)
    ensures TakeCheck(s + ext, w, library) == TakeCheck(s, w, library)
  {
    hide Run, OperatorLen, TakeOperand, Only, Follows;
    var o := w + Run(s[w..], Blanks);
    if o == |s| {
      TakeCheckAtEnd(s, w, ext, library);
    } else {
      RunOn(s[w..], ext, Blanks);
      Slices(s, ext, w, o);
      assert (s + ext)[..w] == s[..w];
      OperatorLenOn(s[o..], ext, library);
      var m := OperatorLen(s[o..], library);
      OperatorSlice(s, ext, o, m);
      if m > 0 && s[o..o + m] !in library.unary {
        TakeOperandBehind(s, ext, o + m, s[o..o + m] in library.listOperators);
      }
    }
  }

  lemma OperatorSlice(s: string, ext: string, o: nat, m: nat)
    requires o + m <= |s|
    ensures (s + ext)[o..o + m] == s[o..o + m]
  {
  }

  lemma TakeOperandBehind(s: string, ext: string, i: nat, list: bool)
    requires i <= |s| && TakeOperand(s[i + Run(s[i..], Blanks)..], list).Taken? && Follows(ext)
    ensures var v := i + Run(s[i..], Blanks);
            && Run((s + ext)[i..], Blanks) == v - i
            && TakeOperand((s + ext)[v..], list) == TakeOperand(s[v..], list)
  {
    hide Run, TakeOperand;
    var v := i + Run(s[i..], Blanks);
    Slices(s, ext, i, v);
    TakeOperandOn(s[v..], ext, list);
    RunOn(s[i..], ext, Blanks);
  }

  lemma TakeTokenOn(s: string, ext: string, library: Library)
    requires TakeToken(s, library).Taken? && Follows(ext)
    ensures TakeToken(s + ext, library) == TakeToken(s, library)
  {
    hide Run, TakeCheck, Only;
    assert (s + ext)[0] == s[0];
    if s[0] != '(' && s[0] != ')' {
      if ext != "" { FollowsCuts(ext, Names); }
      RunOn(s, ext, Names);
      var w := Run(s, Names);
      assert (s + ext)[..w] == s[..w];
      if !Keyword(s[..w]) { TakeCheckOn(s, w, ext, library); }
    }
  }

  lemma TakeFirstOn(s: string, ext: string, library: Library)
    requires TakeFirst(s, library).Taken? && Follows(ext)
    ensures TakeFirst(s + ext, library) == TakeFirst(s, library)
  {
    hide Run, TakeToken, Follows, Only;
    var b := Run(s, Blanks);
    TakeTokenOn(s[b..], ext, library);
    Slices(s, ext, b, b);
    RunOn(s, ext, Blanks);
  }

  /** The tokens of a text do not depend on what follows it. */
  lemma {:induction false} LexOn(a: string, b: string, library: Library)
    requires Lex(a, library).Some? && Follows(b)
    ensures Lex(a + b, library) ==
            if Lex(b, library).None? then None else Some(Lex(a, library).value + Lex(b, library).value)
    decreases |a|
  {
    hide TakeFirst, Follows, Only, Lex;
    LexStep(a, library);
    LexStep(a + b, library);
    if Only(a, Blanks) {
      LexBlanks(a, b, library);
      if Lex(b, library).Some? { assert [] + Lex(b, library).value == Lex(b, library).value; }
    } else {
      NotOnlyBlanks(a, b);
      TakeFirstOn(a, b, library);
      var first := TakeFirst(a, library);
      Slices(a, b, first.len, first.len);
      var rest := a[first.len..];
      LexOn(rest, b, library);
      if Lex(b, library).Some? {
        assert [first.value] + (Lex(rest, library).value + Lex(b, library).value)
            == [first.value] + Lex(rest, library).value + Lex(b, library).value;
      }
    }
  }

  lemma LexStep(s: string, library: Library)
    ensures Lex(s, library) ==
            if Only(s, Blanks) then Some([])
            else
              var first := TakeFirst(s, library);
              if first.Fail? then None else Then(first.value, Lex(s[first.len..], library))
  {
    hide TakeFirst, Only;
  }

  lemma NotOnlyBlanks(a: string, b: string)
    requires !Only(a, Blanks)
    ensures !Only(a + b, Blanks)
  {
    var i :| 0 <= i < |a| && !In(a[i], Blanks);
    assert (a + b)[i] == a[i];
  }

  lemma LexBlanks(a: string, b: string, library: Library)
    requires Only(a, Blanks)
    ensures Lex(a + b, library) == Lex(b, library)
  {
    hide TakeFirst, Only;
    BlanksBefore(a, b);
    FirstBehindBlanks(a, b, library);
    var first := TakeFirst(b, library);
    if first.Taken? { BehindBlanks(a, b, first.len); }
  }

  lemma BlanksBefore(a: string, b: string)
    requires Only(a, Blanks)
    ensures Only(a + b, Blanks) <==> Only(b, Blanks)
  {
    if Only(a + b, Blanks) {
      assert forall i | 0 <= i < |b| :: b[i] == (a + b)[|a| + i];
    }
  }

  lemma BehindBlanks(a: string, b: string, n: nat)
    requires n <= |b|
    ensures (a + b)[|a| + n..] == b[n..]
  {
  }

  lemma FirstBehindBlanks(a: string, b: string, library: Library)
    requires Only(a, Blanks)
    ensures var first := TakeFirst(b, library);
            TakeFirst(a + b, library) == if first.Fail? then Fail else Taken(first.value, |a| + first.len)
  {
    hide Run, TakeToken;
    assert a[..|a|] == a;
    RunIs(a, Blanks, |a|);
    RunThrough(a, b, Blanks);
    var n := Run(b, Blanks);
    assert (a + b)[|a| + n..] == b[n..];
  }

  // ----- The tokens of written text

  /** A text that begins with a token. */
  lemma LexFirst(a: string, b: string, t: Token, library: Library)
    requires a != "" && !Blank(a[0]) && TakeToken(a + b, library) == Taken(t, |a|)
    ensures Lex(a + b, library) == Then(t, Lex(b, library))
  {
    var s := a + b;
    assert s[0] == a[0] && Run(s, Blanks) == 0 && !In(s[0], Blanks);
    hide Run, TakeToken;
    assert s[0..] == s && s[|a|..] == b;
  }

  lemma LexParenthesis(b: string, library: Library)
    ensures Lex("(" + b, library) == Then(Open, Lex(b, library))
    ensures Lex(")" + b, library) == Then(Close, Lex(b, library))
  {
    LexFirst("(", b, Open, library);
    LexFirst(")", b, Close, library);
  }

  function KeywordToken(w: string): Token
    requires Keyword(w)
  {
    if w == "and" then And else if w == "or" then Or else Not
  }

  lemma LexKeyword(w: string, b: string, library: Library)
    requires Keyword(w)
    ensures Lex(w + (" " + b), library) == Then(KeywordToken(w), Lex(b, library))
  {
    var rest := " " + b;
    var s := w + rest;
    assert s[..|w|] == w && s[|w|] == ' ' && s[0] == w[0];
    RunIs(s, Names, |w|);
    LexFirst(w, rest, KeywordToken(w), library);
    LexBlanks(" ", b, library);
  }

  // ----- Comparisons

  predicate IsName(w: string) {
    w != "" && Only(w, Names) && !Keyword(w)
  }

  predicate IsOperator(op: string, library: Library) {
    op != "" && OperatorLen(op, library) == |op|
  }

  /** The operand fits the operator and is written as it should be. */
  predicate IsOperand(x: Operand, op: string, library: Library) {
    if op in library.unary then x.Nothing?
    else if op !in library.listOperators then x.One? && IsValue(x.text)
    else (x.One? && x.text != "" && Only(x.text, Names)) || (x.Many? && AllValues(x.texts))
  }

  predicate IsCheck(field: string, op: string, x: Operand, library: Library) {
    IsName(field) && IsOperator(op, library) && IsOperand(x, op, library)
  }

  /** A comparison as written: the field, the operator and the operand with a blank between them. */
  function CheckText(field: string, op: string, operand: string): string {
    field + (" " + (op + (" " + operand)))
  }

  lemma OperatorThen(op: string, rest: string, library: Library)
    requires IsOperator(op, library)
    ensures OperatorLen(op + (" " + rest), library) == |op|
  {
    var s := op + (" " + rest);
    assert s[0] == op[0] && s[|op|] == ' ' && s[..|op|] == op;
    assert op[..|op|] == op;
    if In(op[0], Signs) {
      if |op| > 1 { assert s[1] == op[1] && s[..2] == op[..2]; }
    } else {
      RunIs(s, Names, |op|);
    }
  }

  lemma OneBlank(s: string)
    requires s == "" || !Blank(s[0])
    ensures Run(" " + s, Blanks) == 1 && (" " + s)[1..] == s
  {
    var t := " " + s;
    assert t[1..] == s && Run(s, Blanks) == 0;
  }

  /** A written comparison is taken as one, whatever follows its operand. */
  lemma CheckIsTaken(field: string, op: string, operand: string, x: Operand, ext: string, library: Library)
    requires IsName(field) && IsOperator(op, library) && op !in library.unary && operand != "" && !Blank(operand[0])
    requires TakeOperand(operand + ext, op in library.listOperators) == Taken(x, |operand|)
    ensures TakeToken(CheckText(field, op, operand) + ext, library) == Taken(Check(field, op, x), |CheckText(field, op, operand)|)
  {
    hide TakeOperand, IsOperator, TakeCheck, Run, Only;
    var tail := operand + ext;
    assert CheckText(field, op, operand) + ext == field + (" " + (op + (" " + tail)));
    NameFirst(field, " " + (op + (" " + tail)));
    CheckBehindField(field, op, tail, library);
  }

  lemma CheckBehindField(field: string, op: string, tail: string, library: Library)
    requires field != "" && IsOperator(op, library) && op !in library.unary && tail != "" && !Blank(tail[0])
    ensures var x := TakeOperand(tail, op in library.listOperators);
            TakeCheck(field + (" " + (op + (" " + tail))), |field|, library) ==
            if x.Fail? then Fail else Taken(Check(field, op, x.value), |field| + |op| + 2 + x.len)
  {
    hide TakeOperand, OperatorLen, IsOperator, Run;
    var ops := op + (" " + tail);
    OperatorThen(op, tail, library);
    OperatorStarts(op, library);
    assert ops[0] == op[0];
    OneBlank(ops);
    OneBlank(tail);
    CheckSlices(field, op, tail);
  }

  lemma OperatorStarts(op: string, library: Library)
    requires IsOperator(op, library)
    ensures op != "" && !Blank(op[0])
  {
  }

  lemma NameFirst(field: string, rest: string)
    requires IsName(field) && rest != "" && rest[0] == ' '
    ensures var s := field + rest; Run(s, Names) == |field| && s[..|field|] == field && s[0] != '(' && s[0] != ')'
  {
    hide Run;
    var s := field + rest;
    assert s[..|field|] == field && s[|field|] == ' ' && s[0] == field[0];
    RunIs(s, Names, |field|);
  }

  lemma CheckSlices(field: string, op: string, tail: string)
    ensures var s, o := field + (" " + (op + (" " + tail))), |field| + 1;
            && s[..|field|] == field && s[|field|..] == " " + (op + (" " + tail)) && s[o..] == op + (" " + tail) && s[o..o + |op|] == op
            && s[o + |op|..] == " " + tail && s[o + |op| + 1..] == tail
  {
  }

  // ----- What tokens are made of

  predicate IsToken(t: Token, library: Library) {
    match t
    case Check(field, op, x) => IsCheck(field, op, x, library)
    case Name(name) => IsName(name)
    case _ => true
  }

  lemma OperatorTaken(s: string, library: Library)
    requires OperatorLen(s, library) > 0
    ensures IsOperator(s[..OperatorLen(s, library)], library)
  {
    var m := OperatorLen(s, library);
    var op := s[..m];
    assert op[..m] == op && op[0] == s[0];
    if In(s[0], Signs) {
      if m == 2 { assert op[1] == s[1] && op[..2] == s[..2]; }
    } else {
      RunIs(op, Names, m);
    }
  }

  lemma OperandTaken(s: string, op: string, library: Library)
    requires op !in library.unary && TakeOperand(s, op in library.listOperators).Taken?
    ensures IsOperand(TakeOperand(s, op in library.listOperators).value, op, library)
  {
    hide Run, ValueLen, TakeValues, IsValue;
    if op !in library.listOperators {
      ValueTaken(s);
    } else if s[0] == '(' {
      ListedAreValues(s[1..]);
    }
  }

  lemma TokenTaken(s: string, library: Library)
    requires TakeToken(s, library).Taken?
    ensures IsToken(TakeToken(s, library).value, library)
  {
    hide Run, OperatorLen, TakeOperand, IsOperator, IsOperand;
    var w := Run(s, Names);
    if s[0] != '(' && s[0] != ')' && !Keyword(s[..w]) {
      var o := w + Run(s[w..], Blanks);
      var m := OperatorLen(s[o..], library);
      if m > 0 {
        var op := s[o..o + m];
        OperatorTaken(s[o..], library);
        assert s[o..][..m] == op;
        if op in library.unary {
          UnaryOperand(op, library);
        } else {
          OperandTaken(s[o + m + Run(s[o + m..], Blanks)..], op, library);
        }
      }
    }
  }

  lemma UnaryOperand(op: string, library: Library)
    requires op in library.unary
    ensures IsOperand(Nothing, op, library)
  {
  }

  predicate AllTokens(ts: seq<Token>, library: Library) {
    forall i | 0 <= i < |ts| :: IsToken(ts[i], library)
  }

  /** Every token of a text is well formed. */
  lemma {:induction false} LexedAreTokens(s: string, library: Library)
    ensures Lex(s, library).Some? ==> AllTokens(Lex(s, library).value, library)
    decreases |s|
  {
    hide TakeFirst, TakeToken, IsToken, Only;
    if !Only(s, Blanks) {
      var first := TakeFirst(s, library);
      if first.Taken? {
        FirstTaken(s, library);
        LexedAreTokens(s[first.len..], library);
      }
    }
  }

  lemma FirstTaken(s: string, library: Library)
    requires TakeFirst(s, library).Taken?
    ensures IsToken(TakeFirst(s, library).value, library)
  {
    hide TakeToken, IsToken;
    TokenTaken(s[Run(s, Blanks)..], library);
  }
}
