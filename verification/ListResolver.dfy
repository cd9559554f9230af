/** Expansion of a list name inside the text of a condition (resolve_list). */
module ListResolver {
  import opened Text
  import opened ListText
  import L = ConditionLexer

  // ----- What the expansion should do, on tokens

  /** The tokens `out` followed by `toks` with each word `name` replaced by `sub`. An empty list (`drop`) takes one
      comma with it: the one before the name if there is one, else the one after it. */
  function Expand(out: seq<Token>, toks: seq<Token>, name: string, sub: seq<Token>, drop: bool): seq<Token>
    decreases |toks|
  {
    if toks == [] then out
    else if toks[0] != Word(name) then Expand(out + [toks[0]], toks[1..], name, sub, drop)
    else if !drop then Expand(out + sub, toks[1..], name, sub, drop)
    else if out != [] && out[|out| - 1] == Comma then Expand(out[..|out| - 1], toks[1..], name, sub, drop)
    else Expand(out, AfterName(toks, drop), name, sub, drop)
  }

  function AfterName(toks: seq<Token>, drop: bool): seq<Token>
    requires toks != []
  {
    if drop && |toks| > 1 && toks[1] == Comma then toks[2..] else toks[1..]
  }

  lemma {:induction false} ExpandSkips(out: seq<Token>, a: seq<Token>, b: seq<Token>, name: string, sub: seq<Token>, drop: bool)
    requires Word(name) !in a
    ensures Expand(out, a + b, name, sub, drop) == Expand(out + a, b, name, sub, drop)
    decreases |a|
  {
    if a == [] {
      assert a + b == b && out + a == out;
    } else {
      assert (a + b)[1..] == a[1..] + b;
      assert out + [a[0]] + a[1..] == out + a;
      ExpandSkips(out + [a[0]], a[1..], b, name, sub, drop);
    }
  }

  lemma {:induction false} ExpandIsLocal(out: seq<Token>, toks: seq<Token>, name: string, sub: seq<Token>)
    ensures Expand(out, toks, name, sub, false) == out + Expand([], toks, name, sub, false)
    decreases |toks|
  {
    if toks != [] {
      var t := if toks[0] == Word(name) then sub else [toks[0]];
      ExpandIsLocal(out + t, toks[1..], name, sub);
      ExpandIsLocal([] + t, toks[1..], name, sub);
      assert out + t + Expand([], toks[1..], name, sub, false) == out + (t + Expand([], toks[1..], name, sub, false));
      assert [] + t == t;
    }
  }

  /** Expanding an empty list leaves no word `name`. */
  lemma {:induction false} EmptyListLeavesNoName(out: seq<Token>, toks: seq<Token>, name: string, sub: seq<Token>)
    requires Word(name) !in out
    ensures Word(name) !in Expand(out, toks, name, sub, true)
    decreases |toks|
  {
    if toks == [] {
    } else if toks[0] != Word(name) {
      EmptyListLeavesNoName(out + [toks[0]], toks[1..], name, sub);
    } else if out != [] && out[|out| - 1] == Comma {
      EmptyListLeavesNoName(out[..|out| - 1], toks[1..], name, sub);
    } else {
      EmptyListLeavesNoName(out, AfterName(toks, true), name, sub);
    }
  }

  lemma {:induction false} ExpandKeepsFirst(out: seq<Token>, toks: seq<Token>, name: string, sub: seq<Token>, drop: bool)
    requires out != [] && out[0] != Comma
    ensures Expand(out, toks, name, sub, drop) != [] && Expand(out, toks, name, sub, drop)[0] == out[0]
    decreases |toks|
  {
    if toks == [] {
    } else if toks[0] != Word(name) {
      ExpandKeepsFirst(out + [toks[0]], toks[1..], name, sub, drop);
    } else if !drop {
      ExpandKeepsFirst(out + sub, toks[1..], name, sub, drop);
    } else if out[|out| - 1] == Comma {
      ExpandKeepsFirst(out[..|out| - 1], toks[1..], name, sub, drop);
    } else {
      ExpandKeepsFirst(out, AfterName(toks, drop), name, sub, drop);
    }
  }

  // ----- The inserted text

  /** The text put in place of the name. */
  function Join(items: seq<string>): string {
    if items == [] then ""
    else
      var n := |items| - 1;
      var front := Join(items[..n]);
      (if front == "" then "" else front + ", ") + L.Quoted(items[n])
  }

  function Separated(items: seq<string>): seq<Token> {
    if items == [] then []
    else
      var n := |items| - 1;
      (if n == 0 then [] else Separated(items[..n]) + [Comma]) + [Word(items[n])]
  }

  /** For bare items the inserted text reads as the items separated by commas. */
  lemma {:induction false} JoinReadsAsItems(items: seq<string>)
    requires forall i | 0 <= i < |items| :: items[i] != "" && Bare(items[i])
    ensures Tokens(Join(items)) == Separated(items) && (Join(items) == "" <==> items == [])
  {
    TokensOfShort();
    hide Tokens;
    if items != [] {
      var n := |items| - 1;
      var front := Join(items[..n]);
      JoinReadsAsItems(items[..n]);
      assert L.Quoted(items[n]) == items[n];
      TokensOfBare(items[n]);
      if n > 0 {
        assert Join(items) == front + (", " + items[n]);
        TokensConcat(", ", items[n]);
        TokensConcat(front, ", " + items[n]);
      } else {
        assert items[..0] == [] && Join(items) == "" + items[0] == items[0];
      }
    }
  }

  function QuotedAll(items: seq<string>): seq<string> {
    seq(|items|, i requires 0 <= i < |items| => L.Quoted(items[i]))
  }

  lemma {:induction false} JoinIsJoined(items: seq<string>)
    requires L.AllValues(QuotedAll(items))
    ensures Join(items) == L.Joined(QuotedAll(items)) && (Join(items) == "" <==> items == [])
  {
    hide L.Quoted, L.IsValue;
    if items != [] {
      var n := |items| - 1;
      var ls := QuotedAll(items);
      assert ls[..n] == QuotedAll(items[..n]) && ls[n] == L.Quoted(items[n]);
      assert forall i | 0 <= i < n :: QuotedAll(items[..n])[i] == ls[i];
      JoinIsJoined(items[..n]);
      ValueIsText(ls[n]);
      assert "" + ls[n] == ls[n];
    }
  }

  lemma ValueIsText(l: string)
    requires L.IsValue(l)
    ensures l != ""
  {
  }

  /** Whatever the items are, if each is written as one value then the inserted text, closed by a parenthesis, is read back
      as these values: a list in parentheses around the name is then the list of the items. */
  lemma InsertedReadsBack(items: seq<string>)
    requires L.AllValues(QuotedAll(items))
    ensures L.TakeList(Join(items) + ")") == L.Taken(QuotedAll(items), |Join(items)| + 1)
  {
    hide Join, QuotedAll, L.TakeList, L.IsValue, L.Joined;
    JoinIsJoined(items);
    L.WrittenIsTaken(QuotedAll(items));
  }

  // ----- What the expansion means for a list

  lemma {:induction false} SeparatedFront(items: seq<string>)
    requires items != []
    ensures Separated(items) == [Word(items[0])] + (if |items| == 1 then [] else [Comma] + Separated(items[1..]))
  {
    var n := |items| - 1;
    if n > 0 {
      SeparatedFront(items[..n]);
      assert items[..n][1..] == items[1..][..n - 1] && items[1..][n - 1] == items[n];
    }
  }

  lemma {:induction false} SeparatedJoin(a: seq<string>, b: seq<string>)
    requires a != [] && b != []
    ensures Separated(a + b) == Separated(a) + [Comma] + Separated(b)
  {
    var n := |b| - 1;
    assert (a + b)[..|a| + n] == a + b[..n];
    if n == 0 {
      assert a + b[..n] == a;
    } else {
      SeparatedJoin(a, b[..n]);
    }
  }

  /** The items without the name. */
  function Without(items: seq<string>, name: string): seq<string> {
    if items == [] then [] else (if items[0] == name then [] else [items[0]]) + Without(items[1..], name)
  }

  /** What is left of a list behind the items `kept`. */
  function Remaining(kept: seq<string>, items: seq<string>): seq<Token> {
    if items == [] then [] else if kept == [] then Separated(items) else [Comma] + Separated(items)
  }

  lemma ExpandKeeps(out: seq<Token>, t: Token, rest: seq<Token>, name: string)
    requires t != Word(name)
    ensures Expand(out, [t] + rest, name, [], true) == Expand(out + [t], rest, name, [], true)
  {
    assert ([t] + rest)[1..] == rest;
  }

  lemma ExpandDropsLeft(out: seq<Token>, rest: seq<Token>, name: string)
    ensures Expand(out + [Comma], [Word(name)] + rest, name, [], true) == Expand(out, rest, name, [], true)
  {
    assert ([Word(name)] + rest)[1..] == rest && (out + [Comma])[..|out|] == out;
  }

  lemma ExpandDropsRight(rest: seq<Token>, name: string)
    ensures Expand([], [Word(name)] + ([Comma] + rest), name, [], true) == Expand([], rest, name, [], true)
    ensures Expand([], [Word(name)] + [], name, [], true) == []
  {
    var toks := [Word(name)] + ([Comma] + rest);
    assert toks[2..] == rest && toks[1] == Comma;
    assert ([Word(name)] + [])[1..] == [];
  }

  /** One item at the front of the list. */
  lemma DropFirst(items: seq<string>, name: string)
    requires items != []
    ensures var kept := if items[0] == name then [] else [items[0]];
            Expand([], Separated(items), name, [], true) == Expand(Separated(kept), Remaining(kept, items[1..]), name, [], true)
  {
    SeparatedFront(items);
    SeparatedFront([items[0]]);
    NoneSeparated();
    hide Expand, Separated;
    var w := Word(items[0]);
    var rest := if |items| == 1 then [] else [Comma] + Separated(items[1..]);
    assert [w] + [] == [w] && [] + [w] == [w];
    if items[0] == name {
      ExpandDropsRight(if |items| == 1 then [] else Separated(items[1..]), name);
      if |items| == 1 { ExpandNothing([], name); }
    } else {
      ExpandKeeps([], w, rest, name);
    }
  }

  lemma ExpandNothing(out: seq<Token>, name: string)
    ensures Expand(out, [], name, [], true) == out
  {
  }

  /** One item behind others. */
  lemma DropLater(kept: seq<string>, items: seq<string>, name: string)
    requires kept != [] && items != []
    ensures var kept' := if items[0] == name then kept else kept + [items[0]];
            Expand(Separated(kept), [Comma] + Separated(items), name, [], true) ==
            Expand(Separated(kept'), Remaining(kept', items[1..]), name, [], true)
  {
    SeparatedFront(items);
    SeparatedFront([items[0]]);
    SeparatedJoin(kept, [items[0]]);
    hide Expand, Separated;
    var w := Word(items[0]);
    var rest := if |items| == 1 then [] else [Comma] + Separated(items[1..]);
    assert [w] + [] == [w];
    ExpandKeeps(Separated(kept), Comma, Separated(items), name);
    if items[0] == name {
      ExpandDropsLeft(Separated(kept), rest, name);
    } else {
      ExpandKeeps(Separated(kept) + [Comma], w, rest, name);
    }
  }

  lemma {:induction false} DropFrom(kept: seq<string>, items: seq<string>, name: string)
    ensures Expand(Separated(kept), Remaining(kept, items), name, [], true) == Separated(kept + Without(items, name))
    decreases |items|
  {
    hide Expand, Separated;
    if items == [] {
      ExpandNothing(Separated(kept), name);
      assert Without(items, name) == [] && kept + [] == kept;
    } else {
      NoneSeparated();
      if kept == [] { DropFirst(items, name); } else { DropLater(kept, items, name); }
      if items[0] == name {
        DropFrom(kept, items[1..], name);
        assert kept + Without(items, name) == kept + Without(items[1..], name);
      } else {
        DropFrom(kept + [items[0]], items[1..], name);
        assert kept + [items[0]] + Without(items[1..], name) == kept + Without(items, name);
        assert [] + [items[0]] == [items[0]];
      }
    }
  }

  lemma NoneSeparated()
    ensures Separated([]) == []
  {
  }

  lemma SeparatedNext(items: seq<string>)
    requires items != []
    ensures var n := |items| - 1;
            Separated(items) == if n == 0 then [Word(items[0])] else Separated(items[..n]) + [Comma] + [Word(items[n])]
  {
  }

  /** In a list of words, an empty list takes its name out with one comma: what is left is the list of the other words. */
  lemma EmptyListIsTakenOut(items: seq<string>, name: string)
    ensures Expand([], Separated(items), name, [], true) == Separated(Without(items, name))
  {
    hide Expand, Separated;
    DropFrom([], items, name);
    NoneSeparated();
    assert [] + Without(items, name) == Without(items, name);
  }

  /** The items with the name replaced by those of the list. */
  function With(items: seq<string>, name: string, list: seq<string>): seq<string> {
    if items == [] then []
    else With(items[..|items| - 1], name, list) + (if items[|items| - 1] == name then list else [items[|items| - 1]])
  }

  lemma {:induction false} ExpandJoins(a: seq<Token>, b: seq<Token>, name: string, sub: seq<Token>)
    ensures Expand([], a + b, name, sub, false) == Expand([], a, name, sub, false) + Expand([], b, name, sub, false)
    decreases |a|
  {
    if a == [] {
      assert a + b == b;
    } else {
      var t := if a[0] == Word(name) then sub else [a[0]];
      assert (a + b)[1..] == a[1..] + b && [] + t == t;
      ExpandIsLocal(t, a[1..] + b, name, sub);
      ExpandIsLocal(t, a[1..], name, sub);
      ExpandJoins(a[1..], b, name, sub);
    }
  }

  lemma ExpandOne(t: Token, name: string, sub: seq<Token>)
    ensures Expand([], [t], name, sub, false) == if t == Word(name) then sub else [t]
  {
    assert [t][1..] == [] && [] + [t] == [t] && [] + sub == sub;
  }

  lemma {:induction false} WithIsNotEmpty(items: seq<string>, name: string, list: seq<string>)
    requires items != [] && list != []
    ensures With(items, name, list) != []
  {
  }

  /** In a list of words, a list that is not empty takes the place of its name: the result is the list of all the items. */
  lemma {:induction false} ListIsPutIn(items: seq<string>, name: string, list: seq<string>)
    requires list != []
    ensures Expand([], Separated(items), name, Separated(list), false) == Separated(With(items, name, list))
  {
    NoneSeparated();
    hide Expand, Separated;
    if items == [] {
      NothingExpanded(name, Separated(list));
    } else {
      var n := |items| - 1;
      var last := if items[n] == name then list else [items[n]];
      SeparatedNext(items);
      SeparatedNext([items[n]]);
      ExpandOne(Word(items[n]), name, Separated(list));
      if n == 0 {
        assert items[..0] == [] && With(items, name, list) == [] + last == last;
      } else {
        ListIsPutIn(items[..n], name, list);
        ExpandOne(Comma, name, Separated(list));
        ExpandJoins(Separated(items[..n]) + [Comma], [Word(items[n])], name, Separated(list));
        ExpandJoins(Separated(items[..n]), [Comma], name, Separated(list));
        WithIsNotEmpty(items[..n], name, list);
        SeparatedJoin(With(items[..n], name, list), last);
      }
    }
  }

  lemma NothingExpanded(name: string, sub: seq<Token>)
    ensures Expand([], [], name, sub, false) == []
  {
  }

  // ----- One substitution, on text

  /** How much of the text left of the name is kept: trailing blanks go, and for an empty list a comma. */
  function KeepLeft(left: string, sub: string): (l: nat)
    ensures l <= |left|
  {
    var l := TrimLen(left);
    if sub == "" && l > 0 && left[l - 1] == ',' then l - 1 else l
  }

  /** How much of the text right of the name is consumed. */
  function TakeRight(left: string, right: string, sub: string): (r: nat)
    ensures r <= |right|
  {
    var l, r := TrimLen(left), SkipLen(right);
    if sub == "" && !(l > 0 && left[l - 1] == ',') && r < |right| && right[r] == ',' then r + 1 else r
  }

  function NewFront(left: string, sub: string): string {
    var l := KeepLeft(left, sub);
    (if l > 0 then left[..l] + " " else "") + sub + " "
  }

  function NewRest(left: string, right: string, sub: string): string {
    right[TakeRight(left, right, sub)..]
  }

  lemma NewFrontTokens(left: string, sub: string)
    ensures Tokens(NewFront(left, sub)) == Tokens(left[..KeepLeft(left, sub)]) + Tokens(sub)
  {
    TokensOfShort();
    hide Tokens, KeepLeft;
    var l := KeepLeft(left, sub);
    TokensConcat(sub, " ");
    if l > 0 {
      TokensConcat(left[..l], " ");
      TokensConcat(left[..l] + " ", sub + " ");
      assert left[..l] + " " + (sub + " ") == NewFront(left, sub);
    } else {
      assert "" + sub + " " == sub + " ";
      assert left[..0] == "";
    }
  }

  /** The kept text has the tokens of the left text, without the comma that goes with an empty list. */
  lemma KeepLeftTokens(left: string, sub: string)
    ensures var out := Tokens(left);
            Tokens(left[..KeepLeft(left, sub)]) ==
            if sub == "" && out != [] && out[|out| - 1] == Comma then out[..|out| - 1] else out
  {
    TokensOfShort();
    hide Tokens, TrimLen;
    var l := TrimLen(left);
    TokensTrimmed(left);
    if l > 0 {
      LastToken(left[..l]);
      if left[l - 1] == ',' {
        TokensDropLastComma(left[..l]);
        assert left[..l][..l - 1] == left[..l - 1];
      }
    } else {
      assert left[..0] == "";
    }
  }

  lemma TokensOfCommaText(s: string)
    requires s != "" && !Blank(s[0])
    ensures Tokens(s) != [] && (Tokens(s)[0] == Comma <==> s[0] == ',')
    ensures s[0] == ',' ==> Tokens(s[1..]) == Tokens(s)[1..]
  {
  }

  lemma NewRestTokens(left: string, right: string, name: string, sub: string)
    ensures var out, toks := Tokens(left), [Word(name)] + Tokens(right);
            Tokens(NewRest(left, right, sub)) ==
            if sub == "" && out != [] && out[|out| - 1] == Comma then toks[1..] else AfterName(toks, sub == "")
  {
    TokensOfShort();
    hide Tokens, TrimLen, SkipLen;
    var l, r := TrimLen(left), SkipLen(right);
    TokensTrimmed(left);
    if l > 0 {
      LastToken(left[..l]);
    } else {
      assert left[..0] == "";
    }
    TokensSkipped(right);
    var rest := right[r..];
    if rest != "" {
      TokensOfCommaText(rest);
      assert r + 1 <= |right| && rest[1..] == right[r + 1..];
    }
  }

  /** One textual substitution is one step of the token expansion. */
  lemma StepExpands(left: string, right: string, name: string, sub: string)
    ensures Expand(Tokens(left), [Word(name)] + Tokens(right), name, Tokens(sub), sub == "")
         == Expand(Tokens(NewFront(left, sub)), Tokens(NewRest(left, right, sub)), name, Tokens(sub), sub == "")
  {
    TokensOfShort();
    hide Tokens, NewFront, NewRest, KeepLeft;
    NewFrontTokens(left, sub);
    KeepLeftTokens(left, sub);
    NewRestTokens(left, right, name, sub);
    var toks := [Word(name)] + Tokens(right);
    assert toks[1..] == Tokens(right);
    if sub == "" {
      assert Tokens(NewFront(left, sub)) == Tokens(left[..KeepLeft(left, sub)]) + [] == Tokens(left[..KeepLeft(left, sub)]);
    }
  }

  // ----- The scanning loop

  /** The text falls into a finished part of length `k` and a rest still to be expanded, and expanding the rest
      onto the finished part gives `target`. */
  ghost predicate Expands(cnd: string, name: string, sub: string, k: nat, target: seq<Token>) {
    && k <= |cnd| && Seam(cnd[..k], cnd[k..])
    && Expand(Tokens(cnd[..k]), Tokens(cnd[k..]), name, Tokens(sub), sub == "") == target
  }

  /** `start` is where the search stands: no whole occurrence of the name lies between `k` and it. */
  ghost predicate Scanned(cnd: string, name: string, k: nat, start: int) {
    if start == -1 then forall i | k <= i :: !Whole(cnd, name, i)
    else k <= start && At(cnd, name, start) && forall i | k <= i < start :: !Whole(cnd, name, i)
  }

  lemma SliceOfSlice(s: string, a: nat, b: nat, i: nat, j: nat)
    requires a <= b <= |s| && i <= j <= b - a
    ensures s[a..b][i..j] == s[a + i..a + j]
  {
    forall x | 0 <= x < j - i
      ensures s[a..b][i..j][x] == s[a + i..a + j][x]
    {
      assert s[a..b][i + x] == s[a + i + x];
    }
  }

  /** A word between two places of the text occurs there as a whole. */
  lemma WordBetween(cnd: string, name: string, k: nat, start: nat) returns (p: nat)
    requires name != "" && Bare(name) && k <= start <= |cnd| && Seam(cnd[..k], cnd[k..])
    requires start == |cnd| || Whole(cnd, name, start)
    requires Word(name) in Tokens(cnd[k..start])
    ensures k <= p < start && Whole(cnd, name, p)
  {
    hide Tokens;
    var mid := cnd[k..start];
    var i := WordOccurs(mid, name);
    p := k + i;
    BareStartsOffDelim(mid, name, i);
    SliceOfSlice(cnd, k, start, i, i + |name|);
    assert !Delim(name[|name| - 1]) && cnd[k + i..k + i + |name|][|name| - 1] == cnd[k + i + |name| - 1];
  }

  lemma NoWordBefore(cnd: string, name: string, k: nat, start: nat)
    requires name != "" && Bare(name) && k <= start <= |cnd| && Seam(cnd[..k], cnd[k..])
    requires start == |cnd| || Whole(cnd, name, start)
    requires forall i | k <= i < start :: !Whole(cnd, name, i)
    ensures Word(name) !in Tokens(cnd[k..start])
  {
    hide Tokens, Whole;
    if Word(name) in Tokens(cnd[k..start]) {
      var p := WordBetween(cnd, name, k, start);
    }
  }

  /** When the search is over, the text reads as the target. */
  lemma DoneReadsTarget(cnd: string, name: string, sub: string, k: nat, target: seq<Token>)
    requires name != "" && Bare(name) && Expands(cnd, name, sub, k, target) && Scanned(cnd, name, k, -1)
    ensures Tokens(cnd) == target
  {
    assert Expand(Tokens(cnd[..k]) + Tokens(cnd[k..]), [], name, Tokens(sub), sub == "") == Tokens(cnd[..k]) + Tokens(cnd[k..]);
    hide Tokens, Expand;
    NoWordBefore(cnd, name, k, |cnd|);
    assert cnd[k..|cnd|] == cnd[k..];
    ExpandSkips(Tokens(cnd[..k]), Tokens(cnd[k..]), [], name, Tokens(sub), sub == "");
    assert Tokens(cnd[k..]) + [] == Tokens(cnd[k..]);
    TokensConcat(cnd[..k], cnd[k..]);
    assert cnd[..k] + cnd[k..] == cnd;
  }

  /** The tokens around the occurrence at `start`. */
  lemma AroundName(cnd: string, name: string, sub: string, k: nat, target: seq<Token>, start: nat)
    requires name != "" && Bare(name) && Expands(cnd, name, sub, k, target)
    requires Scanned(cnd, name, k, start) && Whole(cnd, name, start)
    ensures Tokens(cnd[..start]) == Tokens(cnd[..k]) + Tokens(cnd[k..start])
    ensures Tokens(cnd[k..]) == Tokens(cnd[k..start]) + [Word(name)] + Tokens(cnd[start + |name|..])
    ensures Word(name) !in Tokens(cnd[k..start])
  {
    hide Tokens, Expand;
    NoWordBefore(cnd, name, k, start);
    assert cnd[..start] == cnd[..k] + cnd[k..start];
    TokensConcat(cnd[..k], cnd[k..start]);
    var rest := cnd[k..];
    assert rest == cnd[k..|cnd|];
    SliceOfSlice(cnd, k, |cnd|, start - k, start - k + |name|);
    WholeSplits(rest, name, start - k);
    assert rest[..start - k] == cnd[k..start] && rest[start - k + |name|..] == cnd[start + |name|..];
  }

  lemma SubstitutionExpands(cnd: string, name: string, sub: string, k: nat, target: seq<Token>, start: nat)
    requires name != "" && Bare(name) && Expands(cnd, name, sub, k, target)
    requires Scanned(cnd, name, k, start) && Whole(cnd, name, start)
    ensures var left, right := cnd[..start], cnd[start + |name|..];
            Expands(NewFront(left, sub) + NewRest(left, right, sub), name, sub, |NewFront(left, sub)|, target)
  {
    hide Tokens, Expand, NewRest, KeepLeft;
    var left, right := cnd[..start], cnd[start + |name|..];
    AroundName(cnd, name, sub, k, target, start);
    var mid := Tokens(cnd[k..start]);
    assert mid + [Word(name)] + Tokens(right) == mid + ([Word(name)] + Tokens(right));
    ExpandSkips(Tokens(cnd[..k]), mid, [Word(name)] + Tokens(right), name, Tokens(sub), sub == "");
    StepExpands(left, right, name, sub);
    var front, rest := NewFront(left, sub), NewRest(left, right, sub);
    assert (front + rest)[..|front|] == front && (front + rest)[|front|..] == rest;
  }

  // ----- The one thing that can go wrong: after a substitution that keeps nothing on its left the search resumes one
  // character too late, so a name standing right there is not seen.

  /** What has been produced at the beginning of a text, as long as it is only blanks and commas: how many commas, and
      whether the first of them is the first character of all (without commas: whether nothing has been produced). */
  datatype Front = Front(commas: nat, edge: bool)

  /** The next substitution keeps nothing on its left. */
  predicate KeepsNothing(f: Front) {
    f.commas == 0 || (f.commas == 1 && f.edge)
  }

  /** The name is met where the search skips it: behind blanks and commas the text has the name, what is left of the front
      after the substitution (an empty list takes a comma with it, the one before it if there is one) is nothing, and the
      rest begins with the name again; or this happens further on. */
  predicate MissedFrom(s: string, name: string, drop: bool, f: Front)
    requires name != ""
    decreases |s|
  {
    var b := SkipLen(s);
    var t := s[b..];
    if drop && t != "" && t[0] == ',' then
      MissedFrom(t[1..], name, drop, Front(f.commas + 1, f.edge && (f.commas > 0 || b == 0)))
    else
      Whole(t, name, 0) &&
      var v := Behind(t[|name|..], drop && f.commas == 0);
      if KeepsNothing(f) then Whole(v, name, 0) || MissedFrom(v, name, drop, Front(0, false))
      else MissedFrom(v, name, drop, Front(f.commas - 1, f.commas > 1 && f.edge))
  }

  lemma MissedStep(s: string, name: string, drop: bool, f: Front)
    requires name != ""
    ensures var b := SkipLen(s);
            var t := s[b..];
            MissedFrom(s, name, drop, f) <==>
            if drop && t != "" && t[0] == ',' then
              MissedFrom(t[1..], name, drop, Front(f.commas + 1, f.edge && (f.commas > 0 || b == 0)))
            else
              Whole(t, name, 0) &&
              var v := Behind(t[|name|..], drop && f.commas == 0);
              if KeepsNothing(f) then Whole(v, name, 0) || MissedFrom(v, name, drop, Front(0, false))
              else MissedFrom(v, name, drop, Front(f.commas - 1, f.commas > 1 && f.edge))
  {
    hide SkipLen, Whole, Behind;
  }

  predicate Missed(s: string, name: string, drop: bool)
    requires name != ""
  {
    MissedFrom(s, name, drop, Front(0, true))
  }

  function Behind(s: string, drop: bool): (v: string)
    ensures |v| <= |s|
  {
    var t := s[SkipLen(s)..];
    if drop && t != "" && t[0] == ',' then t[1..] else t
  }

  ghost function Goal(cnd: string, name: string, sub: string): seq<Token> {
    Expand([], Tokens(cnd), name, Tokens(sub), sub == "")
  }

  function Commas(s: string): nat {
    if s == "" then 0 else Commas(s[..|s| - 1]) + (if s[|s| - 1] == ',' then 1 else 0)
  }

  /** A text of blanks and commas. */
  predicate Loose(s: string) {
    forall i | 0 <= i < |s| :: Blank(s[i]) || s[i] == ','
  }

  predicate FrontText(p: string, f: Front) {
    && Loose(p) && Commas(p) == f.commas
    && (f.edge <==> if f.commas == 0 then p == "" else p != "" && p[0] == ',')
  }

  /** Nothing but blanks and commas has been produced so far, so a later substitution may be left with nothing. */
  ghost predicate AtFront(cnd: string, sub: string, k: nat, f: Front) {
    k <= |cnd| && FrontText(cnd[..k], f) && (sub != "" ==> k == 0)
  }

  /** Some text that no later substitution takes away. */
  ghost predicate Steady(toks: seq<Token>, sub: string) {
    exists i :: 0 <= i < |toks| && (sub == "" ==> toks[i] != Comma)
  }

  /** Every later substitution keeps some text on its left. */
  ghost predicate Solid(cnd: string, name: string, sub: string, k: nat) {
    && k <= |cnd|
    && (|| Steady(Tokens(cnd[..k]), sub)
        || (sub != "" && (k == |cnd| || (!Blank(cnd[k]) && !Whole(cnd, name, k)))))
  }

  lemma SteadyWithMore(a: seq<Token>, b: seq<Token>, sub: string)
    requires Steady(a, sub)
    ensures Steady(a + b, sub)
  {
    var i :| 0 <= i < |a| && (sub == "" ==> a[i] != Comma);
    assert (a + b)[i] == a[i];
  }

  lemma SteadyWithoutComma(a: seq<Token>, sub: string)
    requires Steady(a, sub) && a[|a| - 1] == Comma && sub == ""
    ensures Steady(a[..|a| - 1], sub)
  {
    var i :| 0 <= i < |a| && (sub == "" ==> a[i] != Comma);
    assert a[..|a| - 1][i] == a[i];
  }

  lemma KeepsSomething(left: string, sub: string)
    requires Steady(Tokens(left), sub)
    ensures KeepLeft(left, sub) > 0 && Steady(Tokens(NewFront(left, sub)), sub)
  {
    TokensOfShort();
    hide Tokens, KeepLeft, NewFront;
    var kept := Tokens(left[..KeepLeft(left, sub)]);
    KeepLeftTokens(left, sub);
    NewFrontTokens(left, sub);
    if kept != Tokens(left) { SteadyWithoutComma(Tokens(left), sub); }
    SteadyWithMore(kept, Tokens(sub), sub);
    assert left[..0] == "";
  }

  lemma NonBlankHasToken(s: string, i: nat)
    requires i < |s| && !Blank(s[i])
    ensures Tokens(s) != []
  {
    hide Tokens, TrimLen;
    var n := TrimLen(s);
    TokensTrimmed(s);
    LastToken(s[..n]);
  }

  /** Once solid, always solid. */
  lemma SolidStays(cnd: string, name: string, sub: string, k: nat, target: seq<Token>, start: nat)
    requires name != "" && Bare(name) && Expands(cnd, name, sub, k, target) && Solid(cnd, name, sub, k)
    requires Scanned(cnd, name, k, start) && Whole(cnd, name, start)
    ensures var left, right := cnd[..start], cnd[start + |name|..];
            && KeepLeft(left, sub) > 0
            && Solid(NewFront(left, sub) + NewRest(left, right, sub), name, sub, |NewFront(left, sub)|)
  {
    hide Tokens, Expand, NewFront, NewRest, KeepLeft;
    var left, right := cnd[..start], cnd[start + |name|..];
    AroundName(cnd, name, sub, k, target, start);
    if Steady(Tokens(cnd[..k]), sub) {
      SteadyWithMore(Tokens(cnd[..k]), Tokens(cnd[k..start]), sub);
    } else {
      assert start != k;
      NonBlankHasToken(left, k);
      assert Steady(Tokens(left), sub) by { assert Tokens(left)[0] == Tokens(left)[0]; }
    }
    SolidFront(left, right, name, sub);
  }

  lemma SolidFront(left: string, right: string, name: string, sub: string)
    requires Steady(Tokens(left), sub)
    ensures KeepLeft(left, sub) > 0
    ensures Solid(NewFront(left, sub) + NewRest(left, right, sub), name, sub, |NewFront(left, sub)|)
  {
    hide Tokens, NewRest, KeepLeft, Steady;
    KeepsSomething(left, sub);
    var front, rest := NewFront(left, sub), NewRest(left, right, sub);
    assert (front + rest)[..|front|] == front;
  }

  // ----- Texts of blanks and commas

  lemma {:induction false} CommasJoin(a: string, b: string)
    ensures Commas(a + b) == Commas(a) + Commas(b)
  {
    if b == "" {
      assert a + b == a;
    } else {
      CommasJoin(a, b[..|b| - 1]);
      assert (a + b)[..|a + b| - 1] == a + b[..|b| - 1];
    }
  }

  lemma {:induction false} NoCommas(s: string)
    requires forall i | 0 <= i < |s| :: Blank(s[i])
    ensures Commas(s) == 0
  {
    if s != "" { NoCommas(s[..|s| - 1]); }
  }

  /** Where a text of blanks and commas ends, and what a substitution behind it keeps. */
  lemma LooseKeeps(p: string)
    requires Loose(p)
    ensures Commas(p) == 0 ==> TrimLen(p) == 0
    ensures Commas(p) > 0 ==> TrimLen(p) > 0 && p[TrimLen(p) - 1] == ',' && Commas(p[..TrimLen(p) - 1]) == Commas(p) - 1
    ensures Commas(p) > 0 ==> (TrimLen(p) == 1 <==> Commas(p) == 1 && p[0] == ',')
  {
    hide TrimLen, Commas;
    var n := TrimLen(p);
    CommasJoin(p[..n], p[n..]);
    assert p == p[..n] + p[n..];
    NoCommas(p[n..]);
    if n == 0 {
      assert p[..0] == "";
      EmptyHasNoCommas();
    } else {
      assert p[n - 1] == ',';
      LastComma(p[..n]);
      assert p[..n][..n - 1] == p[..n - 1];
      EmptyHasNoCommas();
      if n > 1 && p[0] == ',' { FirstComma(p[..n - 1]); }
      if n == 1 { assert p[..0] == ""; }
    }
  }

  lemma EmptyHasNoCommas()
    ensures Commas("") == 0
  {
  }

  lemma LastComma(s: string)
    requires s != "" && s[|s| - 1] == ','
    ensures Commas(s) == Commas(s[..|s| - 1]) + 1
  {
  }

  lemma {:induction false} FirstComma(s: string)
    requires s != "" && s[0] == ','
    ensures Commas(s) > 0
  {
    if |s| > 1 { FirstComma(s[..|s| - 1]); }
  }

  /** Blanks behind the front make no difference to what a substitution there keeps. */
  lemma FrontKeeps(p: string, blanks: string, right: string, f: Front)
    requires FrontText(p, f) && forall i | 0 <= i < |blanks| :: Blank(blanks[i])
    ensures var left := p + blanks;
            && (KeepLeft(left, "") == 0 <==> KeepsNothing(f))
            && NewRest(left, right, "") == Behind(right, f.commas == 0)
            && (f.commas == 0 ==> TrimLen(left) == 0)
            && (!KeepsNothing(f) ==> FrontText(NewFront(left, ""), Front(f.commas - 1, f.commas > 1 && f.edge)))
  {
    hide TrimLen, Commas;
    var left := p + blanks;
    NoCommas(blanks);
    CommasJoin(p, blanks);
    LooseKeeps(left);
    if f.commas > 0 {
      var l := KeepLeft(left, "");
      assert l == TrimLen(left) - 1 && left[0] == p[0];
      if l > 0 {
        assert NewFront(left, "") == left[..l] + "  ";
        NoCommas("  ");
        CommasJoin(left[..l], "  ");
        assert (left[..l] + "  ")[0] == p[0];
      }
    }
  }

  // ----- Passing a comma at the beginning

  predicate AllBlank(s: string) {
    forall i | 0 <= i < |s| :: Blank(s[i])
  }

  /** The rest begins with a comma, behind blanks. */
  predicate CommaAhead(s: string) {
    var t := s[SkipLen(s)..]; t != "" && t[0] == ','
  }

  lemma CommaSplits(cnd: string, k: nat)
    requires k <= |cnd| && CommaAhead(cnd[k..])
    ensures var k' := k + SkipLen(cnd[k..]) + 1;
            && k' <= |cnd| && cnd[k' - 1] == ',' && cnd[..k'] == cnd[..k] + cnd[k..k' - 1] + ","
            && cnd[k..] == cnd[k..k' - 1] + "," + cnd[k'..] && cnd[k..][SkipLen(cnd[k..])..][1..] == cnd[k'..]
            && AllBlank(cnd[k..k' - 1])
  {
    hide SkipLen;
    var b := SkipLen(cnd[k..]);
    var k' := k + b + 1;
    assert cnd[k..][b..] == cnd[k + b..];
    assert cnd[k' - 1] == ',';
    assert cnd[k..k' - 1] == cnd[k..][..b];
  }

  lemma CommaExpands(cnd: string, name: string, sub: string, k: nat, target: seq<Token>)
    requires Expands(cnd, name, sub, k, target) && CommaAhead(cnd[k..])
    ensures Expands(cnd, name, sub, k + SkipLen(cnd[k..]) + 1, target)
  {
    TokensOfShort();
    hide Tokens, SkipLen, Expand;
    var k' := k + SkipLen(cnd[k..]) + 1;
    var blanks := cnd[k..k' - 1];
    CommaSplits(cnd, k);
    TokensOfBlanks(blanks);
    TokensConcat(cnd[..k] + blanks, ",");
    TokensConcat(cnd[..k], blanks);
    TokensConcat(blanks + ",", cnd[k'..]);
    TokensConcat(blanks, ",");
    ExpandSkips(Tokens(cnd[..k]), [Comma], Tokens(cnd[k'..]), name, Tokens(sub), sub == "");
    assert [] + [Comma] == [Comma] && Tokens(cnd[..k]) + [] == Tokens(cnd[..k]);
  }

  lemma CommaScanned(cnd: string, name: string, k: nat, start: int)
    requires name != "" && Bare(name) && k <= |cnd| && Scanned(cnd, name, k, start) && CommaAhead(cnd[k..])
    ensures Scanned(cnd, name, k + SkipLen(cnd[k..]) + 1, start)
  {
    hide SkipLen;
    var k' := k + SkipLen(cnd[k..]) + 1;
    CommaSplits(cnd, k);
    if start != -1 {
      BareStartsOffDelim(cnd, name, start);
      assert cnd[k..][start - k] == cnd[start];
    }
  }

  lemma CommaMissed(cnd: string, name: string, k: nat, f: Front)
    requires name != "" && k <= |cnd| && CommaAhead(cnd[k..])
    ensures var b := SkipLen(cnd[k..]);
            MissedFrom(cnd[k..], name, true, f) <==>
            MissedFrom(cnd[k + b + 1..], name, true, Front(f.commas + 1, f.edge && (f.commas > 0 || b == 0)))
  {
    MissedStep(cnd[k..], name, true, f);
    hide SkipLen, MissedFrom;
    CommaSplits(cnd, k);
  }

  lemma CommaAtFront(cnd: string, sub: string, k: nat, f: Front)
    requires AtFront(cnd, sub, k, f) && sub == "" && CommaAhead(cnd[k..])
    ensures var b := SkipLen(cnd[k..]);
            AtFront(cnd, sub, k + b + 1, Front(f.commas + 1, f.edge && (f.commas > 0 || b == 0)))
  {
    hide SkipLen, Commas;
    var k' := k + SkipLen(cnd[k..]) + 1;
    var p, blanks := cnd[..k], cnd[k..k' - 1];
    CommaSplits(cnd, k);
    NoCommas(blanks);
    CommasJoin(p, blanks);
    LastComma(p + blanks + ",");
    assert (p + blanks + ",")[..|p + blanks|] == p + blanks;
    if f.commas == 0 {
      if p != "" {
        if p[0] == ',' { FirstComma(p); }
      }
    }
    if p == "" && blanks != "" { assert (p + blanks + ",")[0] == blanks[0]; }
  }

  // ----- A substitution near the beginning

  lemma WholeInText(cnd: string, name: string, k: nat)
    requires name != "" && Bare(name) && k <= |cnd| && Whole(cnd[k..], name, 0) && (k == 0 || Delim(cnd[k - 1]))
    ensures Whole(cnd, name, k)
  {
    WholeInSuffix(cnd, k, name, 0);
  }

  /** What comes first behind the front is no name, so none is missed. */
  lemma NoNameAhead(cnd: string, name: string, sub: string, k: nat, f: Front)
    requires name != "" && Bare(name) && AtFront(cnd, sub, k, f) && (sub == "" ==> !CommaAhead(cnd[k..]))
    requires !Whole(cnd, name, k + SkipLen(cnd[k..]))
    ensures !MissedFrom(cnd[k..], name, sub == "", f)
  {
    hide SkipLen, Commas, MissedFrom, Behind, Whole;
    MissedStep(cnd[k..], name, sub == "", f);
    var b := SkipLen(cnd[k..]);
    assert cnd[k..][b..] == cnd[k + b..];
    if Whole(cnd[k + b..], name, 0) {
      if b > 0 { assert cnd[k..][b - 1] == cnd[k + b - 1]; } else if k > 0 { assert cnd[..k][k - 1] == cnd[k - 1]; }
      WholeInText(cnd, name, k + b);
    }
  }

  lemma FrontHasText(cnd: string, name: string, sub: string, k: nat, target: seq<Token>, start: nat)
    requires name != "" && Bare(name) && Expands(cnd, name, sub, k, target) && (sub == "" ==> !CommaAhead(cnd[k..]))
    requires Scanned(cnd, name, k, start) && Whole(cnd, name, start) && k + SkipLen(cnd[k..]) < start
    ensures Steady(Tokens(cnd[..start]), sub)
  {
    hide Tokens, Expand, SkipLen;
    var b := SkipLen(cnd[k..]);
    var blanks, text := cnd[k..k + b], cnd[k + b..start];
    AroundName(cnd, name, sub, k, target, start);
    assert forall i | 0 <= i < b :: blanks[i] == cnd[k..][i];
    TokensOfBlanks(blanks);
    TokensConcat(blanks, text);
    assert cnd[k..start] == blanks + text;
    assert text[0] == cnd[k..][b] && cnd[k..][b..][0] == text[0];
    TokensOfCommaText(text);
    assert Tokens(cnd[..start])[|Tokens(cnd[..k])|] == Tokens(text)[0];
  }

  /** A substitution behind some text ends the front part for good, and nothing is missed. */
  lemma FrontEnds(cnd: string, name: string, sub: string, k: nat, f: Front, target: seq<Token>, start: nat)
    requires name != "" && Bare(name) && Expands(cnd, name, sub, k, target) && AtFront(cnd, sub, k, f)
    requires sub == "" ==> !CommaAhead(cnd[k..])
    requires Scanned(cnd, name, k, start) && Whole(cnd, name, start) && k + SkipLen(cnd[k..]) < start
    ensures !MissedFrom(cnd[k..], name, sub == "", f)
    ensures var left, right := cnd[..start], cnd[start + |name|..];
            && KeepLeft(left, sub) > 0
            && Solid(NewFront(left, sub) + NewRest(left, right, sub), name, sub, |NewFront(left, sub)|)
  {
    hide Tokens, Expand, NewFront, NewRest, KeepLeft, MissedFrom, CommaAhead, AtFront, Steady;
    NoNameAhead(cnd, name, sub, k, f);
    FrontHasText(cnd, name, sub, k, target, start);
    SolidFront(cnd[..start], cnd[start + |name|..], name, sub);
  }

  /** What comes behind the first name decides whether something is missed. */
  lemma MissedUnfolds(cnd: string, name: string, drop: bool, k: nat, f: Front, start: nat)
    requires name != "" && Bare(name) && k <= start && Whole(cnd, name, start) && k + SkipLen(cnd[k..]) == start
    ensures var v := Behind(cnd[start + |name|..], drop && f.commas == 0);
            MissedFrom(cnd[k..], name, drop, f) <==>
            if KeepsNothing(f) then Whole(v, name, 0) || MissedFrom(v, name, drop, Front(0, false))
            else MissedFrom(v, name, drop, Front(f.commas - 1, f.commas > 1 && f.edge))
  {
    hide SkipLen, MissedFrom, Behind;
    MissedStep(cnd[k..], name, drop, f);
    BareStartsOffDelim(cnd, name, start);
    var t := cnd[k..][start - k..];
    assert t == cnd[start..];
    assert t[..|name|] == cnd[start..start + |name|] && t[|name|..] == cnd[start + |name|..];
  }

  /** A substitution with only blanks between the front and the name. */
  lemma FrontSubstitutes(cnd: string, name: string, sub: string, k: nat, f: Front, start: nat)
    requires AtFront(cnd, sub, k, f) && At(cnd, name, start) && k + SkipLen(cnd[k..]) == start
    ensures var left, right := cnd[..start], cnd[start + |name|..];
            && (KeepLeft(left, sub) == 0 <==> KeepsNothing(f))
            && NewRest(left, right, sub) == Behind(right, sub == "" && f.commas == 0)
            && (!KeepsNothing(f) ==> sub == "" && FrontText(NewFront(left, sub), Front(f.commas - 1, f.commas > 1 && f.edge)))
  {
    hide SkipLen, Commas, KeepLeft, NewRest, FrontText, NewFront, Behind;
    var blanks := cnd[k..start];
    assert forall i | 0 <= i < |blanks| :: blanks[i] == cnd[k..][i];
    assert cnd[..start] == cnd[..k] + blanks;
    if sub == "" {
      FrontKeeps(cnd[..k], blanks, cnd[start + |name|..], f);
    } else {
      EmptyFront(f);
      assert cnd[..start] == blanks;
      BlanksKeepNothing(blanks, cnd[start + |name|..], sub);
    }
  }

  lemma EmptyFront(f: Front)
    ensures FrontText("", f) ==> f == Front(0, true)
  {
  }

  lemma BlanksKeepNothing(left: string, right: string, sub: string)
    requires sub != "" && forall i | 0 <= i < |left| :: Blank(left[i])
    ensures KeepLeft(left, sub) == 0 && NewRest(left, right, sub) == Behind(right, false)
  {
  }

  lemma FrontIsDropped(left: string, sub: string)
    requires KeepLeft(left, sub) == 0
    ensures NewFront(left, sub) == sub + " "
  {
    assert "" + sub + " " == sub + " ";
  }

  /** Nothing missed: the search goes on right behind the inserted text. */
  lemma FrontGoesOn(cnd': string, name: string, sub: string, v: string)
    requires name != "" && Bare(name) && cnd' == sub + " " + v && !Whole(v, name, 0)
    requires sub != "" ==> v == "" || !Blank(v[0])
    ensures !Whole(cnd', name, |sub| + 1) && cnd'[|sub| + 1..] == v
    ensures if sub == "" then AtFront(cnd', sub, 1, Front(0, false))
            else !MissedFrom(v, name, false, Front(0, false)) && Solid(cnd', name, sub, |sub| + 1)
  {
    var k := |sub| + 1;
    assert cnd'[k..] == v;
    assert k + |name| <= |cnd'| ==> cnd'[k..k + |name|] == v[..|name|];
    if sub == "" {
      assert cnd'[..1] == " ";
      NoCommas(" ");
    } else {
      assert SkipLen(v) == 0 && v[0..] == v;
    }
  }

  /** The name right behind the inserted text is missed: it stays, which spoils the result unless the list consists
      of its own name. */
  lemma MissedStays(cnd': string, name: string, sub: string, v: string, target: seq<Token>, original: seq<Token>)
    returns (target': seq<Token>)
    requires name != "" && Bare(name) && cnd' == sub + " " + v && Whole(v, name, 0)
    requires Expands(cnd', name, sub, |sub| + 1, target)
    requires target == Expand([], original, name, Tokens(sub), sub == "")
    ensures var k := |sub| + 1 + |name|;
            && Expands(cnd', name, sub, k, target') && Solid(cnd', name, sub, k)
            && (target' == target <==> Tokens(sub) == [Word(name)])
            && forall i | |sub| + 1 < i < k :: !At(cnd', name, i)
  {
    TokensOfShort();
    hide Tokens, Expand;
    var j := |sub| + 1;
    var k := j + |name|;
    var rest := v[|name|..];
    FrontSlices(sub + " ", name, v);
    TokensConcat(sub, " ");
    assert Tokens(sub + " ") == Tokens(sub);
    TokensOfBare(name);
    TokensConcat(sub + " ", name);
    WholeSplits(v, name, 0);
    assert v[..0] == "";
    assert Tokens(v) == [Word(name)] + Tokens(rest);
    target' := Expand(Tokens(cnd'[..k]), Tokens(rest), name, Tokens(sub), sub == "");
    assert Tokens(cnd'[..k]) == Tokens(sub) + [Word(name)];
    assert Tokens(cnd'[..k])[|Tokens(sub)|] == Word(name);
    MissedDiffers(name, sub, Tokens(rest), original);
    assert ([Word(name)] + Tokens(rest))[1..] == Tokens(rest);
    WholeInSuffix(cnd', j, name, 0);
    forall i | j < i < k
      ensures !At(cnd', name, i)
    {
      NoOverlap(cnd', name, j, i);
    }
  }

  lemma FrontSlices(a: string, name: string, v: string)
    requires At(v, name, 0)
    ensures (a + v)[..|a|] == a && (a + v)[|a|..] == v
    ensures (a + v)[..|a| + |name|] == a + name && (a + v)[|a| + |name|..] == v[|name|..]
  {
    assert v[..|name|] == name && v == name + v[|name|..];
    assert a + v == a + name + v[|name|..];
  }

  lemma NoOverlap(s: string, name: string, j: nat, i: nat)
    requires Bare(name) && Whole(s, name, j) && j < i < j + |name|
    ensures !At(s, name, i)
  {
    if i + |name| <= |s| {
      assert s[i..i + |name|][j + |name| - i] == s[j + |name|];
    }
  }

  lemma MissedDiffers(name: string, sub: string, rest: seq<Token>, original: seq<Token>)
    requires Expand(Tokens(sub), [Word(name)] + rest, name, Tokens(sub), sub == "")
          == Expand([], original, name, Tokens(sub), sub == "")
    ensures Expand(Tokens(sub) + [Word(name)], rest, name, Tokens(sub), sub == "")
         == Expand(Tokens(sub), [Word(name)] + rest, name, Tokens(sub), sub == "")
       <==> Tokens(sub) == [Word(name)]
  {
    TokensOfShort();
    hide Tokens;
    var w, t := Word(name), Tokens(sub);
    var toks := [w] + rest;
    assert toks[1..] == rest;
    if sub == "" {
      assert t + [w] == [w];
      ExpandKeepsFirst([w], rest, name, t, true);
      EmptyListLeavesNoName([], original, name, t);
    } else {
      ExpandIsLocal(t + [w], rest, name, t);
      ExpandIsLocal(t + t, rest, name, t);
      var x := Expand([], rest, name, t, false);
      if t + [w] + x == t + t + x {
        assert |t| == 1;
        assert (t + [w] + x)[1] == w && (t + t + x)[1] == t[0];
      }
    }
  }

  // ----- The whole loop

  /** How the loop stands: the finished length, the tokens it is heading for, whether it is still at the beginning
      of the text (and what it has produced there) and whether it has missed a name. */
  datatype Track = Track(k: nat, target: seq<Token>, front: bool, f: Front, missed: bool)

  ghost predicate Tracks(original: string, cnd: string, name: string, sub: string, t: Track)
    requires name != ""
  {
    && Expands(cnd, name, sub, t.k, t.target)
    && (if t.front then
          && !t.missed && AtFront(cnd, sub, t.k, t.f)
          && (Missed(original, name, sub == "") <==> MissedFrom(cnd[t.k..], name, sub == "", t.f))
        else
          Solid(cnd, name, sub, t.k) && (t.missed <==> Missed(original, name, sub == "")))
    && (if t.missed then t.target == Goal(original, name, sub) <==> Tokens(sub) == [Word(name)]
        else t.target == Goal(original, name, sub))
  }

  lemma ScanResumes(cnd: string, name: string, k: nat, from: nat)
    requires forall i | k <= i < from :: !Whole(cnd, name, i)
    requires forall i | from <= i < k :: !At(cnd, name, i)
    ensures Scanned(cnd, name, k, Find(cnd, name, from))
  {
  }

  /** The text after a substitution, and where the search resumes. */
  function Replaced(cnd: string, name: string, start: nat, sub: string): string
    requires At(cnd, name, start)
  {
    NewFront(cnd[..start], sub) + NewRest(cnd[..start], cnd[start + |name|..], sub)
  }

  function Resume(cnd: string, start: nat, sub: string): nat
    requires start <= |cnd|
  {
    KeepLeft(cnd[..start], sub) + |sub| + 2
  }

  lemma TakeComma(original: string, cnd: string, name: string, sub: string, t: Track, start: int) returns (u: Track)
    requires name != "" && Bare(name) && Tracks(original, cnd, name, sub, t) && Scanned(cnd, name, t.k, start)
    requires t.front && sub == "" && CommaAhead(cnd[t.k..])
    ensures Tracks(original, cnd, name, sub, u) && Scanned(cnd, name, u.k, start) && t.k < u.k <= |cnd|
    ensures u.front && u.target == t.target && u.missed == t.missed
  {
    hide Expand, AtFront, Missed, MissedFrom, Goal, Scanned, Tokens, SkipLen, CommaAhead, Commas, Solid;
    var b := SkipLen(cnd[t.k..]);
    u := t.(k := t.k + b + 1, f := Front(t.f.commas + 1, t.f.edge && (t.f.commas > 0 || b == 0)));
    CommaSplits(cnd, t.k);
    CommaExpands(cnd, name, sub, t.k, t.target);
    CommaScanned(cnd, name, t.k, start);
    CommaAtFront(cnd, sub, t.k, t.f);
    CommaMissed(cnd, name, t.k, t.f);
  }

  /** All commas at the beginning may be counted as produced. */
  lemma {:induction false} TakeCommas(original: string, cnd: string, name: string, sub: string, t: Track, start: int)
    returns (u: Track)
    requires name != "" && Bare(name) && Tracks(original, cnd, name, sub, t) && Scanned(cnd, name, t.k, start)
    ensures Tracks(original, cnd, name, sub, u) && Scanned(cnd, name, u.k, start) && u.k <= |cnd|
    ensures u.front == t.front && u.target == t.target && u.missed == t.missed
    ensures u.front && sub == "" ==> !CommaAhead(cnd[u.k..])
    decreases |cnd| - t.k
  {
    if t.front && sub == "" && CommaAhead(cnd[t.k..]) {
      u := TakeComma(original, cnd, name, sub, t, start);
      u := TakeCommas(original, cnd, name, sub, u, start);
    } else {
      u := t;
    }
  }

  lemma TrackBehindText(original: string, cnd: string, name: string, sub: string, t: Track, start: nat) returns (t': Track)
    requires name != "" && Bare(name) && Tracks(original, cnd, name, sub, t)
    requires Scanned(cnd, name, t.k, start) && Whole(cnd, name, start)
    requires t.front && sub == "" ==> !CommaAhead(cnd[t.k..])
    requires !t.front || t.k + SkipLen(cnd[t.k..]) < start
    ensures var next := Replaced(cnd, name, start, sub);
            Tracks(original, next, name, sub, t') && Scanned(next, name, t'.k, Find(next, name, Resume(cnd, start, sub)))
  {
    hide Tokens, Expand, NewRest, Missed, MissedFrom, Expands, Solid, AtFront, Goal, CommaAhead;
    SubstitutionExpands(cnd, name, sub, t.k, t.target, start);
    if t.front {
      FrontEnds(cnd, name, sub, t.k, t.f, t.target, start);
    } else {
      SolidStays(cnd, name, sub, t.k, t.target, start);
    }
    t' := t.(k := |NewFront(cnd[..start], sub)|, front := false);
    ScanResumes(Replaced(cnd, name, start, sub), name, t'.k, Resume(cnd, start, sub));
  }

  /** What a missed name leaves behind. */
  lemma FrontMisses(original: string, cnd: string, name: string, sub: string, k: nat, target: seq<Token>, start: nat)
    returns (target': seq<Token>)
    requires name != "" && Bare(name) && Expands(cnd, name, sub, k, target) && target == Goal(original, name, sub)
    requires Scanned(cnd, name, k, start) && Whole(cnd, name, start)
    requires KeepLeft(cnd[..start], sub) == 0 && Whole(NewRest(cnd[..start], cnd[start + |name|..], sub), name, 0)
    ensures var next, k' := Replaced(cnd, name, start, sub), |sub| + 1 + |name|;
            && Expands(next, name, sub, k', target') && Solid(next, name, sub, k')
            && (target' == target <==> Tokens(sub) == [Word(name)])
            && forall i | |sub| + 1 < i < k' :: !At(next, name, i)
  {
    hide Tokens, Expand, Expands, Solid, TrimLen, NewRest, KeepLeft;
    var left, right := cnd[..start], cnd[start + |name|..];
    SubstitutionExpands(cnd, name, sub, k, target, start);
    FrontIsDropped(left, sub);
    target' := MissedStays(Replaced(cnd, name, start, sub), name, sub, NewRest(left, right, sub), target, Tokens(original));
  }

  lemma TrackMissed(original: string, cnd: string, name: string, sub: string, t: Track, start: nat) returns (t': Track)
    requires name != "" && Bare(name) && Tracks(original, cnd, name, sub, t)
    requires Scanned(cnd, name, t.k, start) && Whole(cnd, name, start)
    requires t.front && t.k + SkipLen(cnd[t.k..]) == start && KeepsNothing(t.f)
    requires Whole(NewRest(cnd[..start], cnd[start + |name|..], sub), name, 0)
    ensures var next := Replaced(cnd, name, start, sub);
            Tracks(original, next, name, sub, t') && Scanned(next, name, t'.k, Find(next, name, Resume(cnd, start, sub)))
  {
    hide Tokens, Expand, Missed, MissedFrom, Solid, AtFront, TrimLen, Expands, Goal, Replaced, NewRest, KeepLeft, Whole, SkipLen;
    FrontSubstitutes(cnd, name, sub, t.k, t.f, start);
    MissedUnfolds(cnd, name, sub == "", t.k, t.f, start);
    var target' := FrontMisses(original, cnd, name, sub, t.k, t.target, start);
    t' := Track(|sub| + 1 + |name|, target', false, t.f, true);
    ScanResumes(Replaced(cnd, name, start, sub), name, t'.k, Resume(cnd, start, sub));
  }

  /** A substitution at the beginning of the text that keeps nothing on its left and misses nothing. */
  lemma FrontMoves(cnd: string, name: string, sub: string, k: nat, f: Front, target: seq<Token>, start: nat)
    requires name != "" && Bare(name) && Expands(cnd, name, sub, k, target) && AtFront(cnd, sub, k, f)
    requires Scanned(cnd, name, k, start) && Whole(cnd, name, start) && k + SkipLen(cnd[k..]) == start && KeepsNothing(f)
    requires !Whole(NewRest(cnd[..start], cnd[start + |name|..], sub), name, 0)
    ensures var next, k' := Replaced(cnd, name, start, sub), |sub| + 1;
            && Expands(next, name, sub, k', target) && !Whole(next, name, k') && Resume(cnd, start, sub) == k' + 1
            && k' <= |next| && (MissedFrom(cnd[k..], name, sub == "", f) <==> MissedFrom(next[k'..], name, sub == "", Front(0, false)))
            && (if sub == "" then AtFront(next, sub, k', Front(0, false))
                else !MissedFrom(next[k'..], name, false, Front(0, false)) && Solid(next, name, sub, k'))
  {
    hide Tokens, Expand, Missed, MissedFrom, Expands, Solid, AtFront, TrimLen, NewRest, KeepLeft, SkipLen;
    var left, right := cnd[..start], cnd[start + |name|..];
    SubstitutionExpands(cnd, name, sub, k, target, start);
    FrontSubstitutes(cnd, name, sub, k, f, start);
    FrontIsDropped(left, sub);
    MissedUnfolds(cnd, name, sub == "", k, f, start);
    FrontGoesOn(Replaced(cnd, name, start, sub), name, sub, NewRest(left, right, sub));
  }

  lemma TrackAtFront(original: string, cnd: string, name: string, sub: string, t: Track, start: nat) returns (t': Track)
    requires name != "" && Bare(name) && Tracks(original, cnd, name, sub, t)
    requires Scanned(cnd, name, t.k, start) && Whole(cnd, name, start)
    requires t.front && t.k + SkipLen(cnd[t.k..]) == start && KeepsNothing(t.f)
    requires !Whole(NewRest(cnd[..start], cnd[start + |name|..], sub), name, 0)
    ensures var next := Replaced(cnd, name, start, sub);
            Tracks(original, next, name, sub, t') && Scanned(next, name, t'.k, Find(next, name, Resume(cnd, start, sub)))
  {
    hide Tokens, Expand, Missed, MissedFrom, Expands, Solid, AtFront, TrimLen, Goal, NewRest, Replaced, Resume, Whole, SkipLen;
    FrontMoves(cnd, name, sub, t.k, t.f, t.target, start);
    t' := Track(|sub| + 1, t.target, sub == "", Front(0, false), false);
    ScanResumes(Replaced(cnd, name, start, sub), name, t'.k, Resume(cnd, start, sub));
  }

  /** A substitution that takes a comma of the front and leaves others. */
  lemma TrackCommaTaken(original: string, cnd: string, name: string, sub: string, t: Track, start: nat) returns (t': Track)
    requires name != "" && Bare(name) && Tracks(original, cnd, name, sub, t)
    requires Scanned(cnd, name, t.k, start) && Whole(cnd, name, start)
    requires t.front && t.k + SkipLen(cnd[t.k..]) == start && !KeepsNothing(t.f)
    ensures var next := Replaced(cnd, name, start, sub);
            Tracks(original, next, name, sub, t') && Scanned(next, name, t'.k, Find(next, name, Resume(cnd, start, sub)))
  {
    hide Tokens, Expand, Missed, MissedFrom, Expands, Solid, TrimLen, Goal, NewRest, Whole, SkipLen, FrontText, KeepLeft;
    var left, right := cnd[..start], cnd[start + |name|..];
    SubstitutionExpands(cnd, name, sub, t.k, t.target, start);
    FrontSubstitutes(cnd, name, sub, t.k, t.f, start);
    MissedUnfolds(cnd, name, sub == "", t.k, t.f, start);
    var next, front := Replaced(cnd, name, start, sub), NewFront(left, sub);
    t' := Track(|front|, t.target, true, Front(t.f.commas - 1, t.f.commas > 1 && t.f.edge), false);
    assert next[..|front|] == front && next[|front|..] == NewRest(left, right, sub);
    ScanResumes(next, name, t'.k, Resume(cnd, start, sub));
  }

  lemma TrackStep(original: string, cnd: string, name: string, sub: string, t: Track, start: nat) returns (t': Track)
    requires name != "" && Bare(name) && Tracks(original, cnd, name, sub, t)
    requires Scanned(cnd, name, t.k, start) && Whole(cnd, name, start)
    ensures var next := Replaced(cnd, name, start, sub);
            Tracks(original, next, name, sub, t') && Scanned(next, name, t'.k, Find(next, name, Resume(cnd, start, sub)))
  {
    hide Tokens, Expand, Missed, Expands, Solid, AtFront, Tracks, NewFront, CommaAhead;
    var u := TakeCommas(original, cnd, name, sub, t, start);
    BlanksEnd(cnd, name, u.k, start);
    if !u.front || u.k + SkipLen(cnd[u.k..]) < start {
      t' := TrackBehindText(original, cnd, name, sub, u, start);
    } else if !KeepsNothing(u.f) {
      t' := TrackCommaTaken(original, cnd, name, sub, u, start);
    } else if Whole(NewRest(cnd[..start], cnd[start + |name|..], sub), name, 0) {
      t' := TrackMissed(original, cnd, name, sub, u, start);
    } else {
      t' := TrackAtFront(original, cnd, name, sub, u, start);
    }
  }

  lemma BlanksEnd(cnd: string, name: string, k: nat, start: nat)
    requires name != "" && Bare(name) && k <= start && At(cnd, name, start)
    ensures k + SkipLen(cnd[k..]) <= start
  {
    hide SkipLen;
    BareStartsOffDelim(cnd, name, start);
    assert cnd[k..][start - k] == cnd[start];
  }

  lemma ReplacedShrinks(cnd: string, name: string, start: nat, sub: string)
    requires name != "" && At(cnd, name, start)
    ensures |Replaced(cnd, name, start, sub)| - Resume(cnd, start, sub) < |cnd| - start && start <= |cnd|
  {
  }

  method JoinItems(items: seq<string>) returns (sub: string)
    ensures sub == Join(items)
  {
    sub := "";
    var i := 0;
    assert items[..0] == [];
    while i < |items|
      invariant 0 <= i <= |items| && sub == Join(items[..i])
    {
      assert items[..i + 1][..i] == items[..i];
      if sub != "" {
        sub := sub + ", ";
      }
      sub := sub + L.Quoted(items[i]);
      i := i + 1;
    }
    assert items[..i] == items;
  }

  method TrimLeft(cnd: string, start: nat) returns (s: nat)
    requires start <= |cnd|
    ensures s == TrimLen(cnd[..start])
  {
    s := start;
    while s > 0 && Blank(cnd[s - 1])
      invariant s <= start && TrimLen(cnd[..start]) == TrimLen(cnd[..s])
    {
      assert cnd[..s][..s - 1] == cnd[..s - 1];
      s := s - 1;
    }
  }

  method SkipRight(cnd: string, end: nat) returns (e: nat)
    requires end <= |cnd|
    ensures e == end + SkipLen(cnd[end..])
  {
    e := end;
    while e < |cnd| && Blank(cnd[e])
      invariant end <= e <= |cnd| && SkipLen(cnd[end..]) == e - end + SkipLen(cnd[e..])
    {
      assert cnd[e..][1..] == cnd[e + 1..];
      e := e + 1;
    }
  }

  method Edges(cnd: string, start: nat, end: nat, sub: string) returns (s: nat, e: nat)
    requires start <= end <= |cnd|
    ensures s == KeepLeft(cnd[..start], sub) && e == end + TakeRight(cnd[..start], cnd[end..], sub)
  {
    s := TrimLeft(cnd, start);
    e := SkipRight(cnd, end);
    if sub == "" {
      if s > 0 && cnd[s - 1] == ',' {
        s := s - 1;
      } else if e < |cnd| && cnd[e] == ',' {
        e := e + 1;
      }
    }
  }

  method Substitute(cnd: string, name: string, start: nat, sub: string) returns (next: string, resume: nat)
    requires At(cnd, name, start)
    ensures next == Replaced(cnd, name, start, sub) && resume == Resume(cnd, start, sub)
  {
    hide KeepLeft, TakeRight;
    var s, e := Edges(cnd, start, start + |name|, sub);
    next := "";
    if s > 0 {
      assert cnd[..start][..s] == cnd[..s];
      next := cnd[..s] + " ";
    }
    next := next + sub + " ";
    assert cnd[start + |name|..][e - start - |name|..] == cnd[e..];
    next := next + cnd[e..];
    resume := s + |sub| + 1 + 1;
  }

  /** The text the loop ends with when it stands at `start`. */
  function Scan(cnd: string, name: string, sub: string, start: int): string
    requires name != "" && (start == -1 || (0 <= start && At(cnd, name, start)))
    decreases if start == -1 then 0 else 1 + |cnd| - start
  {
    if start == -1 then cnd
    else if Whole(cnd, name, start) then
      ReplacedShrinks(cnd, name, start, sub);
      var next := Replaced(cnd, name, start, sub);
      Scan(next, name, sub, Find(next, name, Resume(cnd, start, sub)))
    else
      Scan(cnd, name, sub, Find(cnd, name, start + 1))
  }

  /** resolve_list on text. */
  function Resolved(original: string, name: string, sub: string): string
    requires name != ""
  {
    Scan(original, name, sub, Find(original, name, 0))
  }

  lemma {:induction false} ScanReadsTarget(original: string, cnd: string, name: string, sub: string, t: Track, start: int)
    returns (t': Track)
    requires name != "" && Bare(name) && Tracks(original, cnd, name, sub, t)
    requires (start == -1 || 0 <= start) && Scanned(cnd, name, t.k, start)
    ensures Tokens(Scan(cnd, name, sub, start)) == t'.target
    ensures t'.missed <==> Missed(original, name, sub == "")
    ensures if t'.missed then t'.target == Goal(original, name, sub) <==> Tokens(sub) == [Word(name)]
            else t'.target == Goal(original, name, sub)
    decreases if start == -1 then 0 else 1 + |cnd| - start
  {
    hide Tracks, Tokens, Missed, Goal, Replaced, Resume, Scan;
    if start == -1 {
      t' := t;
      ScanEnds(original, cnd, name, sub, t);
    } else if Whole(cnd, name, start) {
      ReplacedShrinks(cnd, name, start, sub);
      ScanSubstitutes(cnd, name, sub, start);
      var u := TrackStep(original, cnd, name, sub, t, start);
      var next := Replaced(cnd, name, start, sub);
      t' := ScanReadsTarget(original, next, name, sub, u, Find(next, name, Resume(cnd, start, sub)));
    } else {
      ScanSkips(cnd, name, sub, t.k, start);
      t' := ScanReadsTarget(original, cnd, name, sub, t, Find(cnd, name, start + 1));
    }
  }

  lemma ScanSubstitutes(cnd: string, name: string, sub: string, start: nat)
    requires name != "" && Whole(cnd, name, start)
    ensures var next := Replaced(cnd, name, start, sub);
            Scan(cnd, name, sub, start) == Scan(next, name, sub, Find(next, name, Resume(cnd, start, sub)))
  {
    hide Replaced, Resume;
  }

  lemma ScanSkips(cnd: string, name: string, sub: string, k: nat, start: nat)
    requires name != "" && Scanned(cnd, name, k, start) && !Whole(cnd, name, start)
    ensures Scan(cnd, name, sub, start) == Scan(cnd, name, sub, Find(cnd, name, start + 1))
    ensures Scanned(cnd, name, k, Find(cnd, name, start + 1))
  {
    hide Replaced, Resume, Whole;
    ScannedNext(cnd, name, k, start);
  }

  lemma ScanEnds(original: string, cnd: string, name: string, sub: string, t: Track)
    requires name != "" && Bare(name) && Tracks(original, cnd, name, sub, t) && Scanned(cnd, name, t.k, -1)
    ensures Tokens(Scan(cnd, name, sub, -1)) == t.target
    ensures t.missed <==> Missed(original, name, sub == "")
    ensures if t.missed then t.target == Goal(original, name, sub) <==> Tokens(sub) == [Word(name)]
            else t.target == Goal(original, name, sub)
  {
    hide Tokens, Missed, MissedFrom, Goal, Whole, Expands, AtFront, Solid, CommaAhead;
    var u := TakeCommas(original, cnd, name, sub, t, -1);
    DoneReadsTarget(cnd, name, sub, u.k, u.target);
    if u.front { NoNameAhead(cnd, name, sub, u.k, u.f); }
  }

  /** The new text reads as the old one with every word `name` expanded - inserted text is never expanded again -
      exactly when no name is missed at the beginning of the text, or the list is just its own name. */
  lemma ResolvedReadsExpanded(original: string, name: string, sub: string)
    requires name != "" && Bare(name)
    ensures Tokens(Resolved(original, name, sub)) == Goal(original, name, sub) <==>
            !Missed(original, name, sub == "") || Tokens(sub) == [Word(name)]
  {
    TrackStarts(original, name, sub);
    var t := ScanReadsTarget(original, original, name, sub, Track(0, Goal(original, name, sub), true, Front(0, true), false),
                             Find(original, name, 0));
  }

  lemma TrackStarts(original: string, name: string, sub: string)
    requires name != ""
    ensures Tracks(original, original, name, sub, Track(0, Goal(original, name, sub), true, Front(0, true), false))
  {
    assert original[..0] == "" && original[0..] == original;
  }

  function LeadingCommas(toks: seq<Token>): (n: nat)
    ensures n <= |toks|
  {
    if toks != [] && toks[0] == Comma then 1 + LeadingCommas(toks[1..]) else 0
  }

  lemma {:induction false} NotMissedFromOther(s: string, name: string, drop: bool, f: Front)
    requires name != "" && Bare(name)
    requires var toks := Tokens(s);
             var n := if drop then LeadingCommas(toks) else 0;
             n == |toks| || toks[n] != Word(name)
    ensures !MissedFrom(s, name, drop, f)
    decreases |s|
  {
    hide Tokens, SkipLen, MissedFrom, Behind;
    MissedStep(s, name, drop, f);
    var b := SkipLen(s);
    var t := s[b..];
    TokensSkipped(s);
    TokensOfShort();
    assert t[..0] == "";
    if drop && t != "" && t[0] == ',' {
      TokensOfCommaText(t);
      NotMissedFromOther(t[1..], name, drop, Front(f.commas + 1, f.edge && (f.commas > 0 || b == 0)));
    } else if Whole(t, name, 0) {
      WholeSplits(t, name, 0);
    }
  }

  /** In particular nothing goes wrong when the text (for an empty list: the text behind its leading commas) does not
      start with the name. */
  lemma NotMissedBehindOther(original: string, name: string, sub: string)
    requires name != "" && Bare(name)
    requires var toks := Tokens(original);
             var n := if sub == "" then LeadingCommas(toks) else 0;
             n == |toks| || toks[n] != Word(name)
    ensures !Missed(original, name, sub == "")
    ensures Tokens(Resolved(original, name, sub)) == Goal(original, name, sub)
  {
    hide Resolved, Goal, Tokens, MissedFrom;
    NotMissedFromOther(original, name, sub == "", Front(0, true));
    ResolvedReadsExpanded(original, name, sub);
  }

  lemma MissesSecond(f: Front, drop: bool)
    requires KeepsNothing(f)
    ensures MissedFrom("l l", "l", drop, f)
  {
    var s := "l l";
    assert s[0..] == s && s[1..] == " l" && " l"[1..] == "l";
    assert SkipLen(s) == 0 && SkipLen("l") == 0 && SkipLen(" l") == 1;
    assert Behind(" l", false) == "l";
    assert Whole("l", "l", 0);
  }

  /** The failure is real: in "l l" the second name stays when the list `l` holds the item `a`. */
  lemma MissedExample()
    ensures Tokens(Resolved("l l", "l", "a")) != Goal("l l", "l", "a")
  {
    TokensOfBare("a");
    MissesSecond(Front(0, true), false);
    assert Bare("l") && Missed("l l", "l", false);
    hide *;
    assert Tokens("a")[0] == Word("a");
    ResolvedReadsExpanded("l l", "l", "a");
  }

  /** It also occurs behind a comma that an empty list takes with it: in ",l l" the second name stays. */
  lemma MissedBehindComma()
    ensures Tokens(Resolved(",l l", "l", "")) != Goal(",l l", "l", "")
  {
    TokensOfShort();
    MissesSecond(Front(1, true), true);
    var s := ",l l";
    assert s[0..] == s && s[1..] == "l l" && SkipLen(s) == 0;
    assert Bare("l") && Missed(s, "l", true);
    hide *;
    ResolvedReadsExpanded(s, "l", "");
  }

  lemma WholeIffWord(s: string, name: string)
    requires name != "" && Bare(name)
    ensures Word(name) in Tokens(s) <==> Occurs(s, name)
  {
    if Word(name) in Tokens(s) {
      var i := WordOccurs(s, name);
    }
    if i :| Whole(s, name, i) {
      WholeSplits(s, name, i);
    }
  }

  lemma ScanStep(cnd: string, name: string, sub: string, start: nat)
    requires name != "" && At(cnd, name, start)
    ensures Whole(cnd, name, start) ==>
      var next := Replaced(cnd, name, start, sub);
      Scan(cnd, name, sub, start) == Scan(next, name, sub, Find(next, name, Resume(cnd, start, sub)))
    ensures !Whole(cnd, name, start) ==> Scan(cnd, name, sub, start) == Scan(cnd, name, sub, Find(cnd, name, start + 1))
  {
    ReplacedShrinks(cnd, name, start, sub);
  }

  ghost predicate Occurs(s: string, name: string) {
    exists i :: Whole(s, name, i)
  }

  /** The loop of resolve_list; it also tells whether the name occurs as a word. */
  method ResolveList(original: string, name: string, items: seq<string>) returns (cnd: string, used: bool)
    requires name != ""
    ensures cnd == Resolved(original, name, Join(items))
    ensures used <==> Occurs(original, name)
    ensures Bare(name) ==> (used <==> Word(name) in Tokens(original))
  {
    hide *;
    if Bare(name) { WholeIffWord(original, name); }
    ScannedFrom(original, name, 0);
    var sub := JoinItems(items);
    cnd, used := original, false;
    var start := Find(cnd, name, 0);
    ResolvedIsScan(original, name, sub);
    ghost var end := Scan(cnd, name, sub, start);
    while start != -1
      invariant start == -1 || (0 <= start && At(cnd, name, start))
      invariant Scan(cnd, name, sub, start) == end
      invariant !used ==> cnd == original && Scanned(cnd, name, 0, start)
      invariant used ==> Occurs(original, name)
      decreases if start == -1 then 0 else 1 + |cnd| - start
    {
      var resume := start + 1;
      ScanStep(cnd, name, sub, start);
      ReplacedShrinks(cnd, name, start, sub);
      if IsWhole(cnd, name, start) {
        if !used { OccursAt(original, name, start); }
        cnd, resume := Substitute(cnd, name, start, sub);
        used := true;
      } else if !used {
        ScannedNext(cnd, name, 0, start);
      }
      start := Find(cnd, name, resume);
    }
    ScanEnd(cnd, name, sub);
    if !used { OccursNowhere(original, name); }
  }

  lemma ResolvedIsScan(original: string, name: string, sub: string)
    requires name != ""
    ensures Resolved(original, name, sub) == Scan(original, name, sub, Find(original, name, 0))
  {
  }

  lemma ScannedFrom(cnd: string, name: string, k: nat)
    ensures Scanned(cnd, name, k, Find(cnd, name, k))
  {
  }

  lemma ScannedNext(cnd: string, name: string, k: nat, start: nat)
    requires Scanned(cnd, name, k, start) && !Whole(cnd, name, start)
    ensures Scanned(cnd, name, k, Find(cnd, name, start + 1))
  {
  }

  lemma OccursAt(s: string, name: string, i: int)
    requires Whole(s, name, i)
    ensures Occurs(s, name)
  {
  }

  lemma OccursNowhere(s: string, name: string)
    requires Scanned(s, name, 0, -1)
    ensures !Occurs(s, name)
  {
  }

  lemma ScanEnd(cnd: string, name: string, sub: string)
    requires name != ""
    ensures Scan(cnd, name, sub, -1) == cnd
  {
  }

  /** The test on the characters around an occurrence. */
  predicate IsWhole(cnd: string, name: string, start: nat): (w: bool)
    requires At(cnd, name, start)
    ensures w <==> Whole(cnd, name, start)
  {
    var end := start + |name|;
    (start == 0 || Delim(cnd[start - 1])) && (end >= |cnd| || Delim(cnd[end]))
  }
}
