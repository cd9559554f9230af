/** Condition text seen as a sequence of tokens, and the string primitives list resolution works with. */
module ListText {
  import opened Text

  predicate Mark(c: char) {
    c == '(' || c == ')' || c == ',' || c == '='
  }

  predicate Delim(c: char) {
    Blank(c) || Mark(c)
  }

  predicate Bare(s: string) {
    forall i | 0 <= i < |s| :: !Delim(s[i])
  }

  /** A word is a maximal run of characters that are no delimiters; a mark stands for itself. */
  datatype Token = Word(text: string) | Punct(mark: char)

  const Comma := Punct(',')

  /** The length of the word at the start of `s`. */
  function WordLen(s: string): (n: nat)
    ensures n <= |s| && Bare(s[..n]) && (n < |s| ==> Delim(s[n]))
  {
    if s == "" || Delim(s[0]) then 0
    else
      var n := WordLen(s[1..]);
      assert s[..n + 1] == [s[0]] + s[1..][..n];
      1 + n
  }

  function Tokens(s: string): seq<Token>
    decreases |s|
  {
    if s == "" then []
    else if Blank(s[0]) then Tokens(s[1..])
    else if Mark(s[0]) then [Punct(s[0])] + Tokens(s[1..])
    else [Word(s[..WordLen(s)])] + Tokens(s[WordLen(s)..])
  }

  /** Cutting between `a` and `b` does not cut a word in two. */
  predicate Seam(a: string, b: string) {
    a == "" || b == "" || Delim(a[|a| - 1]) || Delim(b[0])
  }

  lemma {:induction false} WordLenConcat(a: string, b: string)
    requires Seam(a, b)
    ensures WordLen(a + b) == if a == "" then WordLen(b) else WordLen(a)
  {
    if a == "" {
      assert a + b == b;
    } else if !Delim(a[0]) {
      assert (a + b)[1..] == a[1..] + b;
      WordLenConcat(a[1..], b);
    }
  }

  lemma {:induction false} TokensConcat(a: string, b: string)
    requires Seam(a, b)
    ensures Tokens(a + b) == Tokens(a) + Tokens(b)
    decreases |a|
  {
    if a == "" {
      assert a + b == b;
    } else if Delim(a[0]) {
      assert (a + b)[1..] == a[1..] + b;
      TokensConcat(a[1..], b);
    } else {
      var n := WordLen(a);
      WordLenConcat(a, b);
      assert (a + b)[n..] == a[n..] + b && (a + b)[..n] == a[..n];
      TokensConcat(a[n..], b);
    }
  }

  lemma {:induction false} WordLenOfBare(w: string)
    requires Bare(w)
    ensures WordLen(w) == |w|
  {
    if w != "" {
      WordLenOfBare(w[1..]);
    }
  }

  lemma TokensOfBare(w: string)
    requires w != "" && Bare(w)
    ensures Tokens(w) == [Word(w)]
  {
    WordLenOfBare(w);
    assert w[..|w|] == w && w[|w|..] == "";
  }

  // ----- Blanks at the ends

  /** The length of `s` without its trailing blanks. */
  function TrimLen(s: string): (n: nat)
    ensures n <= |s|
    ensures n > 0 ==> !Blank(s[n - 1])
    ensures forall i | n <= i < |s| :: Blank(s[i])
  {
    if s == "" || !Blank(s[|s| - 1]) then |s| else TrimLen(s[..|s| - 1])
  }

  /** The number of leading blanks of `s`. */
  function SkipLen(s: string): (n: nat)
    ensures n <= |s|
    ensures n < |s| ==> !Blank(s[n])
    ensures forall i | 0 <= i < n :: Blank(s[i])
  {
    if s == "" || !Blank(s[0]) then 0 else 1 + SkipLen(s[1..])
  }

  lemma {:induction false} TokensOfBlanks(s: string)
    requires forall i | 0 <= i < |s| :: Blank(s[i])
    ensures Tokens(s) == []
  {
    if s != "" {
      TokensOfBlanks(s[1..]);
    }
  }

  lemma TokensTrimmed(s: string)
    ensures Tokens(s) == Tokens(s[..TrimLen(s)])
  {
    hide Tokens, TrimLen;
    var n := TrimLen(s);
    assert s == s[..n] + s[n..];
    TokensOfBlanks(s[n..]);
    TokensConcat(s[..n], s[n..]);
  }

  lemma TokensSkipped(s: string)
    ensures Tokens(s) == Tokens(s[SkipLen(s)..])
  {
    hide Tokens, SkipLen;
    var n := SkipLen(s);
    assert s == s[..n] + s[n..];
    TokensOfBlanks(s[..n]);
    TokensConcat(s[..n], s[n..]);
  }

  /** A text that ends in a non-blank character has a last token, and it is a comma iff that character is. */
  lemma {:induction false} LastToken(s: string)
    requires s != "" && !Blank(s[|s| - 1])
    ensures Tokens(s) != [] && (Tokens(s)[|Tokens(s)| - 1] == Comma <==> s[|s| - 1] == ',')
    decreases |s|
  {
    if Delim(s[0]) {
      if |s| > 1 { LastToken(s[1..]); }
    } else {
      var n := WordLen(s);
      if n < |s| { LastToken(s[n..]); }
    }
  }

  lemma TokensOfShort()
    ensures Tokens("") == Tokens(" ") == [] && Tokens(",") == [Comma] && Tokens(", ") == [Comma]
  {
    assert ","[1..] == "" && " "[1..] == "" && ", "[1..] == " ";
  }

  lemma TokensDropLastComma(s: string)
    requires s != "" && s[|s| - 1] == ','
    ensures Tokens(s) == Tokens(s[..|s| - 1]) + [Comma]
  {
    TokensOfShort();
    hide Tokens;
    TokensConcat(s[..|s| - 1], ",");
    assert s == s[..|s| - 1] + ",";
  }

  // ----- Occurrences of a name

  /** The name stands at `i` as a whole token: the characters around it are delimiters or the ends of the text. */
  predicate Whole(s: string, name: string, i: int) {
    && At(s, name, i)
    && (i == 0 || Delim(s[i - 1]))
    && (i + |name| == |s| || Delim(s[i + |name|]))
  }

  /** A whole occurrence in a suffix is one in the text, unless it would start in the middle of a word. */
  lemma WholeInSuffix(s: string, n: nat, name: string, k: nat)
    requires n <= |s| && Whole(s[n..], name, k) && (k > 0 || n == 0 || Delim(s[n - 1]))
    ensures Whole(s, name, n + k)
  {
    assert s[n..][k..k + |name|] == s[n + k..n + k + |name|];
  }

  lemma BareStartsOffDelim(s: string, name: string, k: nat)
    requires name != "" && Bare(name) && At(s, name, k)
    ensures !Delim(s[k])
  {
    assert s[k] == s[k..k + |name|][0];
  }

  /** A word token of a text is a whole occurrence in it. */
  lemma {:induction false} WordOccurs(s: string, name: string) returns (i: nat)
    requires name != "" && Bare(name) && Word(name) in Tokens(s)
    ensures Whole(s, name, i)
    decreases |s|
  {
    var n := if Delim(s[0]) then 1 else WordLen(s);
    if !Delim(s[0]) && s[..n] == name {
      i := 0;
    } else {
      var k := WordOccurs(s[n..], name);
      BareStartsOffDelim(s[n..], name, k);
      WholeInSuffix(s, n, name, k);
      i := n + k;
    }
  }

  /** A whole occurrence splits the tokens of the text. */
  lemma WholeSplits(s: string, name: string, i: nat)
    requires name != "" && Bare(name) && Whole(s, name, i)
    ensures Tokens(s) == Tokens(s[..i]) + [Word(name)] + Tokens(s[i + |name|..])
  {
    hide Tokens;
    var a, b := s[..i], s[i + |name|..];
    TokensOfBare(name);
    TokensConcat(name, b);
    TokensConcat(a, name + b);
    assert s == a + (name + b);
  }
}
