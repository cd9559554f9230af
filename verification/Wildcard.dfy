/** The wildcard matcher used to select rules by name (matches_wildcard). */
module Wildcard {
  import opened Text

  /** The position of the first star, or the length if there is none. */
  function StarPos(p: string): (n: nat)
    ensures n <= |p| && (n < |p| ==> p[n] == '*')
    ensures '*' !in p[..n]
    ensures n == |p| <==> '*' !in p
  {
    if p == "" || p[0] == '*' then 0
    else
      var n := StarPos(p[1..]);
      assert p[..n + 1] == [p[0]] + p[1..][..n];
      1 + n
  }

  /** The position of the first character that is no star, or the length if there is none. */
  function TextPos(p: string): (n: nat)
    ensures n <= |p| && (n < |p| ==> p[n] != '*')
    ensures forall i | 0 <= i < n :: p[i] == '*'
  {
    if p == "" || p[0] != '*' then 0 else 1 + TextPos(p[1..])
  }

  /** The literal behind the leading stars, up to the next star. */
  function Literal(p: string): (lit: string)
    ensures '*' !in lit && (TextPos(p) < |p| ==> lit != "")
  {
    var next := p[TextPos(p)..];
    next[..StarPos(next)]
  }

  /** What follows that literal: nothing, or a pattern that starts with a star. */
  function Rest(p: string): (rest: string)
    ensures |rest| <= |p| && p[TextPos(p)..] == Literal(p) + rest
    ensures rest != "" ==> rest[0] == '*' && rest[|rest| - 1] == p[|p| - 1]
  {
    var next := p[TextPos(p)..];
    next[StarPos(next)..]
  }

  function MatchesWildcard(pattern: string, s: string): bool
    decreases |pattern|
  {
    var star := StarPos(pattern);
    if star == |pattern| then
      pattern == s
    else if star == 0 then
      if TextPos(pattern) == |pattern| then
        true
      else
        var toFind := Literal(pattern);
        var pos := Find(s, toFind, 0);
        pos != -1 && MatchesWildcard(Rest(pattern), s[pos + |toFind|..])
    else
      pattern[..star] <= s && MatchesWildcard(pattern[star..], s[star..])
  }

  // ----- The reference: glob matching

  ghost predicate Glob(p: string, s: string)
    decreases |p|
  {
    if p == "" then s == ""
    else if p[0] == '*' then exists i :: 0 <= i <= |s| && Glob(p[1..], s[i..])
    else s != "" && s[0] == p[0] && Glob(p[1..], s[1..])
  }

  /** A literal front matches itself only. */
  lemma {:induction false} GlobLiteral(lit: string, p: string, s: string)
    requires '*' !in lit
    ensures Glob(lit + p, s) <==> lit <= s && Glob(p, s[|lit|..])
    decreases |lit|
  {
    if lit == "" {
      assert lit + p == p && s[0..] == s;
    } else {
      assert (lit + p)[1..] == lit[1..] + p;
      if s != "" && s[0] == lit[0] {
        GlobLiteral(lit[1..], p, s[1..]);
        assert lit[1..] <= s[1..] <==> lit <= s by { assert s == [s[0]] + s[1..] && lit == [lit[0]] + lit[1..]; }
        if lit <= s { assert s[1..][|lit| - 1..] == s[|lit|..]; }
      }
    }
  }

  /** A front of stars matches anything. */
  lemma {:induction false} GlobStars(n: nat, p: string, s: string)
    requires 0 < n <= |p| && forall i | 0 <= i < n :: p[i] == '*'
    ensures Glob(p, s) <==> exists i :: 0 <= i <= |s| && Glob(p[n..], s[i..])
    decreases n
  {
    if n > 1 {
      var q := p[1..];
      assert q[n - 1..] == p[n..];
      if Glob(p, s) {
        var i :| 0 <= i <= |s| && Glob(q, s[i..]);
        GlobStars(n - 1, q, s[i..]);
        var k :| 0 <= k <= |s[i..]| && Glob(p[n..], s[i..][k..]);
        assert s[i..][k..] == s[i + k..];
      }
      if i :| 0 <= i <= |s| && Glob(p[n..], s[i..]) {
        GlobStars(n - 1, q, s);
        assert s[0..] == s;
        assert Glob(q, s[0..]);
      }
    }
  }

  /** A pattern that starts with a star still matches when the name is extended on the left. */
  lemma GlobAbsorbs(p: string, s: string, k: nat)
    requires p != "" && p[0] == '*' && k <= |s| && Glob(p, s[k..])
    ensures Glob(p, s)
  {
    var i :| 0 <= i <= |s[k..]| && Glob(p[1..], s[k..][i..]);
    assert s[k..][i..] == s[k + i..];
  }

  /** The name splits at `i`: the literal stands there and the rest of the pattern matches what follows. */
  ghost predicate Splits(lit: string, rest: string, s: string, i: int) {
    At(s, lit, i) && Glob(rest, s[i + |lit|..])
  }

  lemma SplitIsGlob(lit: string, rest: string, s: string, i: nat)
    requires i <= |s| && '*' !in lit
    ensures Glob(lit + rest, s[i..]) <==> Splits(lit, rest, s, i)
  {
    hide Glob;
    GlobLiteral(lit, rest, s[i..]);
    LiteralAt(s, lit, i);
  }

  lemma GlobSplits(p: string, s: string)
    requires p != "" && p[0] == '*'
    ensures Glob(p, s) <==> exists i :: Splits(Literal(p), Rest(p), s, i)
  {
    hide Glob, Splits, StarPos, Literal, Rest;
    var lit, rest := Literal(p), Rest(p);
    GlobStars(TextPos(p), p, s);
    if Glob(p, s) {
      var i :| 0 <= i <= |s| && Glob(p[TextPos(p)..], s[i..]);
      SplitIsGlob(lit, rest, s, i);
    }
    if i :| Splits(lit, rest, s, i) {
      SplitInRange(lit, rest, s, i);
      SplitIsGlob(lit, rest, s, i);
      assert Glob(p[TextPos(p)..], s[i..]);
    }
  }

  lemma SplitInRange(lit: string, rest: string, s: string, i: int)
    requires Splits(lit, rest, s, i)
    ensures 0 <= i <= |s|
  {
    hide Glob;
  }

  /** The leftmost occurrence of the literal is as good as any other, as long as a star follows. */
  lemma LeftmostSplits(lit: string, rest: string, s: string, i: int)
    requires Splits(lit, rest, s, i) && rest != "" && rest[0] == '*'
    ensures Splits(lit, rest, s, Find(s, lit, 0))
  {
    hide Glob, Find;
    var pos := Find(s, lit, 0);
    var from, to := pos + |lit|, i + |lit|;
    assert s[from..][to - from..] == s[to..];
    GlobAbsorbs(rest, s[from..], to - from);
  }

  lemma LiteralAt(s: string, lit: string, i: nat)
    requires i <= |s|
    ensures lit <= s[i..] <==> At(s, lit, i)
    ensures At(s, lit, i) ==> s[i..][|lit|..] == s[i + |lit|..]
  {
    if i + |lit| <= |s| {
      assert s[i..][..|lit|] == s[i..i + |lit|];
    }
  }

  // ----- Soundness, and completeness for the patterns that allow it

  lemma Anchor(p: string, s: string)
    requires '*' !in p
    ensures Glob(p, s) <==> p == s
  {
    GlobLiteral(p, "", s);
    assert p + "" == p;
  }

  /** A match is always a glob match. */
  lemma {:induction false} MatchIsGlob(p: string, s: string)
    requires MatchesWildcard(p, s)
    ensures Glob(p, s)
    decreases |p|
  {
    hide Glob, StarPos, TextPos, Literal, Rest, Find;
    var star := StarPos(p);
    if star == |p| {
      Anchor(p, s);
    } else if star == 0 {
      if TextPos(p) == |p| {
        AllStars(p, s);
      } else {
        var pos := Find(s, Literal(p), 0);
        MatchIsGlob(Rest(p), s[pos + |Literal(p)|..]);
        assert Splits(Literal(p), Rest(p), s, pos);
        GlobSplits(p, s);
      }
    } else {
      MatchIsGlob(p[star..], s[star..]);
      GlobLiteral(p[..star], p[star..], s);
      assert p == p[..star] + p[star..];
    }
  }

  lemma AllStars(p: string, s: string)
    requires p != "" && TextPos(p) == |p|
    ensures Glob(p, s)
  {
    GlobStars(|p|, p, s);
    assert p[|p|..] == "" && Glob(p[|p|..], s[|s|..]);
  }

  /** The patterns for which nothing is lost: no star at all, or a star at the end. */
  predicate Open(p: string) {
    '*' !in p || p[|p| - 1] == '*'
  }

  lemma {:induction false} GlobIsMatch(p: string, s: string)
    requires Open(p) && Glob(p, s)
    ensures MatchesWildcard(p, s)
    decreases |p|
  {
    hide Glob, StarPos, TextPos, Literal, Rest, Find, Splits;
    var star := StarPos(p);
    if star == |p| {
      Anchor(p, s);
    } else if star == 0 {
      if TextPos(p) < |p| {
        GlobSplits(p, s);
        var i :| Splits(Literal(p), Rest(p), s, i);
        OpenRest(p);
        LeftmostSplits(Literal(p), Rest(p), s, i);
        SplitParts(Literal(p), Rest(p), s, Find(s, Literal(p), 0));
        GlobIsMatch(Rest(p), s[Find(s, Literal(p), 0) + |Literal(p)|..]);
      }
    } else {
      assert p == p[..star] + p[star..];
      GlobLiteral(p[..star], p[star..], s);
      assert p[star..][|p| - star - 1] == p[|p| - 1];
      GlobIsMatch(p[star..], s[star..]);
    }
  }

  lemma SplitParts(lit: string, rest: string, s: string, i: int)
    requires Splits(lit, rest, s, i)
    ensures At(s, lit, i) && Glob(rest, s[i + |lit|..])
  {
    hide Glob;
  }

  lemma OpenRest(p: string)
    requires p != "" && p[0] == '*' && p[|p| - 1] == '*' && TextPos(p) < |p|
    ensures Rest(p) != "" && Open(Rest(p))
  {
    hide StarPos, TextPos, Literal, Rest;
    var next := p[TextPos(p)..];
    assert next[|next| - 1] == '*' && next == Literal(p) + Rest(p);
  }

  /** Every other pattern misses some name: one where the tail comes twice. */
  lemma {:induction false} ClosedMisses(p: string) returns (s: string)
    requires !Open(p)
    ensures Glob(p, s) && !MatchesWildcard(p, s)
    decreases |p|
  {
    hide Glob, StarPos, TextPos, Literal, Rest, Find;
    var star := StarPos(p);
    if star == 0 {
      var lit, rest := Literal(p), Rest(p);
      ClosedHasText(p);
      var t := lit;
      if rest != "" { t := ClosedMisses(rest); }
      s := lit + t;
      assert At(s, lit, 0) && s[|lit|..] == t;
      if rest == "" {
        EmptySplit(lit);
      } else {
        assert Splits(lit, rest, s, 0);
      }
      GlobSplits(p, s);
    } else {
      assert p[star..][|p| - star - 1] == p[|p| - 1];
      var t := ClosedMisses(p[star..]);
      s := p[..star] + t;
      assert s[star..] == t && p == p[..star] + p[star..];
      GlobLiteral(p[..star], p[star..], s);
    }
  }

  lemma EmptySplit(lit: string)
    ensures Splits(lit, "", lit + lit, |lit|)
  {
    assert (lit + lit)[|lit|..|lit| + |lit|] == lit;
  }

  lemma ClosedHasText(p: string)
    requires !Open(p)
    ensures TextPos(p) < |p|
  {
  }

  /** The matcher decides glob matching for a pattern exactly when the pattern has no star or ends in one. */
  lemma ExactIffOpen(p: string)
    ensures (forall s :: MatchesWildcard(p, s) <==> Glob(p, s)) <==> Open(p)
  {
    hide MatchesWildcard, Glob, Open;
    if Open(p) {
      forall s
        ensures MatchesWildcard(p, s) <==> Glob(p, s)
      {
        if MatchesWildcard(p, s) { MatchIsGlob(p, s); }
        if Glob(p, s) { GlobIsMatch(p, s); }
      }
    } else {
      var s := ClosedMisses(p);
    }
  }

  // ----- What happens to a literal tail

  /** The first `k` characters are the shortest front of the name that the pattern matches. */
  ghost predicate Shortest(p: string, s: string, k: nat) {
    k <= |s| && Glob(p, s[..k]) && forall j | 0 <= j < k :: !Glob(p, s[..j])
  }

  /** The first occurrence of `t` in the name is at its very end. */
  predicate EndsAtFirst(s: string, t: string) {
    var pos := Find(s, t, 0); pos != -1 && pos + |t| == |s|
  }

  ghost predicate TailFits(p: string, t: string, s: string) {
    exists k: nat :: Shortest(p, s, k) && EndsAtFirst(s[k..], t)
  }

  /** Consuming `c` characters of the name takes the pattern `p` to the pattern `q`. */
  ghost predicate Shifts(p: string, q: string, s: string, c: nat) {
    c <= |s| && forall k | 0 <= k <= |s| :: Glob(p, s[..k]) <==> c <= k && Glob(q, s[c..][..k - c])
  }

  lemma ShiftedTail(p: string, q: string, t: string, s: string, c: nat)
    requires Shifts(p, q, s, c)
    ensures TailFits(p, t, s) <==> TailFits(q, t, s[c..])
  {
    hide Glob, EndsAtFirst;
    if k: nat :| Shortest(p, s, k) && EndsAtFirst(s[k..], t) {
      assert Shortest(q, s[c..], k - c) by {
        forall j | 0 <= j < k - c ensures !Glob(q, s[c..][..j]) { assert !Glob(p, s[..c + j]); }
      }
      assert s[c..][k - c..] == s[k..];
    }
    if k: nat :| Shortest(q, s[c..], k) && EndsAtFirst(s[c..][k..], t) {
      assert Shortest(p, s, c + k) by {
        forall j | 0 <= j < c + k ensures !Glob(p, s[..j]) {
          if c <= j { assert !Glob(q, s[c..][..j - c]); }
        }
      }
      assert s[c..][k..] == s[c + k..];
    }
  }

  lemma LiteralShifts(lit: string, q: string, s: string)
    requires '*' !in lit
    ensures if lit <= s then Shifts(lit + q, q, s, |lit|) else forall k | 0 <= k <= |s| :: !Glob(lit + q, s[..k])
  {
    hide Glob;
    forall k | 0 <= k <= |s|
      ensures Glob(lit + q, s[..k]) <==> lit <= s && |lit| <= k && Glob(q, s[|lit|..][..k - |lit|])
    {
      GlobLiteral(lit, q, s[..k]);
      if lit <= s && |lit| <= k { assert s[..k][|lit|..] == s[|lit|..][..k - |lit|] && lit <= s[..k]; }
    }
  }

  lemma StarShifts(p: string, s: string)
    requires p != "" && p[0] == '*' && Rest(p) != ""
    ensures var pos := Find(s, Literal(p), 0);
            if pos == -1 then forall k | 0 <= k <= |s| :: !Glob(p, s[..k])
            else Shifts(p, Rest(p), s, pos + |Literal(p)|)
  {
    hide Glob, Literal, Rest, Find, Splits, At;
    FindFits(s, Literal(p));
    forall k | 0 <= k <= |s|
      ensures var c := Find(s, Literal(p), 0) + |Literal(p)|;
              Glob(p, s[..k]) <==> Find(s, Literal(p), 0) != -1 && c <= k && Glob(Rest(p), s[c..][..k - c])
    {
      StarShiftsAt(p, s, k);
    }
  }

  lemma FindFits(s: string, lit: string)
    ensures Find(s, lit, 0) == -1 || 0 <= Find(s, lit, 0) <= Find(s, lit, 0) + |lit| <= |s|
  {
    hide Find;
  }

  lemma StarShiftsAt(p: string, s: string, k: nat)
    requires p != "" && p[0] == '*' && Rest(p) != "" && k <= |s|
    ensures var pos := Find(s, Literal(p), 0); var c := pos + |Literal(p)|;
            Glob(p, s[..k]) <==> pos != -1 && c <= k && Glob(Rest(p), s[c..][..k - c])
  {
    hide Glob, Literal, Rest, Find, Splits, At;
    var lit, rest, pos := Literal(p), Rest(p), Find(s, Literal(p), 0);
    FindFits(s, lit);
    var c := pos + |lit|;
    GlobSplits(p, s[..k]);
    if i :| Splits(lit, rest, s[..k], i) {
      FrontSplitsLeft(lit, rest, s, i, k);
    }
    if pos != -1 && c <= k && Glob(rest, s[c..][..k - c]) {
      SplitInFront(lit, rest, s, pos, k);
    }
  }

  lemma FrontSplitsLeft(lit: string, rest: string, s: string, i: int, k: nat)
    requires k <= |s| && Splits(lit, rest, s[..k], i) && rest != "" && rest[0] == '*'
    ensures var pos := Find(s, lit, 0);
            pos != -1 && pos + |lit| <= k && Glob(rest, s[pos + |lit|..][..k - pos - |lit|])
  {
    hide Glob, Find, At, Splits;
    SplitParts(lit, rest, s[..k], i);
    AtInFront(s, lit, i, k);
    var pos := Find(s, lit, 0);
    SliceTail(s, pos + |lit|, i + |lit|, k);
    GlobAbsorbs(rest, s[pos + |lit|..][..k - pos - |lit|], i - pos);
  }

  lemma AtInFront(s: string, lit: string, i: int, k: nat)
    requires k <= |s| && At(s[..k], lit, i)
    ensures 0 <= i && At(s, lit, i) && i + |lit| <= k
  {
    assert s[..k][i..i + |lit|] == s[i..i + |lit|];
  }

  lemma SliceTail(s: string, a: nat, b: nat, k: nat)
    requires a <= b <= k <= |s|
    ensures s[..k][b..] == s[a..][..k - a][b - a..]
  {
    assert s[..k][b..] == s[b..k];
    assert s[a..][..k - a] == s[a..k];
    assert s[a..k][b - a..] == s[b..k];
  }

  lemma SplitInFront(lit: string, rest: string, s: string, pos: nat, k: nat)
    requires At(s, lit, pos) && pos + |lit| <= k <= |s| && Glob(rest, s[pos + |lit|..][..k - pos - |lit|])
    ensures Splits(lit, rest, s[..k], pos)
  {
    hide Glob;
    assert s[..k][pos..pos + |lit|] == s[pos..pos + |lit|];
    assert s[..k][pos + |lit|..] == s[pos + |lit|..][..k - pos - |lit|];
  }

  lemma NoFrontNoFit(p: string, t: string, s: string)
    requires forall k | 0 <= k <= |s| :: !Glob(p, s[..k])
    ensures !TailFits(p, t, s)
  {
  }

  /** Appending a literal tail to a pattern that ends in a star. */
  lemma {:induction false} StarPosAppend(p: string, t: string)
    requires '*' in p
    ensures StarPos(p + t) == StarPos(p)
  {
    if p[0] != '*' {
      assert (p + t)[1..] == p[1..] + t;
      StarPosAppend(p[1..], t);
    }
  }

  lemma {:induction false} TextPosAppend(p: string, t: string)
    requires t != "" && t[0] != '*'
    ensures TextPos(p + t) == TextPos(p)
  {
    if p == "" {
      assert p + t == t;
    } else if p[0] == '*' {
      assert (p + t)[1..] == p[1..] + t;
      TextPosAppend(p[1..], t);
    }
  }

  lemma AppendToStars(p: string, t: string)
    requires TextPos(p) == |p| && t != "" && '*' !in t
    ensures Literal(p + t) == t && Rest(p + t) == ""
  {
    hide TextPos, StarPos;
    TextPosAppend(p, t);
    assert (p + t)[|p|..] == t;
    assert t[..|t|] == t && t[|t|..] == "";
  }

  lemma AppendBehindText(p: string, t: string)
    requires p != "" && p[|p| - 1] == '*' && TextPos(p) < |p| && t != "" && '*' !in t
    ensures Literal(p + t) == Literal(p) && Rest(p) != "" && Rest(p + t) == Rest(p) + t
  {
    hide TextPos, StarPos, Literal, Rest;
    var next := p[TextPos(p)..];
    LiteralAndRest(p, next);
    TextPosAppend(p, t);
    CutAppended(p, t, TextPos(p));
    LiteralAndRest(p + t, next + t);
    StarBehind(p, TextPos(p));
    StarPosAppend(next, t);
    CutAppended(next, t, StarPos(next));
  }

  lemma StarBehind(p: string, k: nat)
    requires k < |p| && p[|p| - 1] == '*'
    ensures '*' in p[k..] && StarPos(p[k..]) < |p[k..]|
  {
    hide StarPos;
    var next := p[k..];
    assert next[|next| - 1] == '*';
  }

  lemma LiteralAndRest(p: string, next: string)
    requires next == p[TextPos(p)..]
    ensures Literal(p) == next[..StarPos(next)] && Rest(p) == next[StarPos(next)..]
  {
    hide TextPos, StarPos;
  }

  lemma CutAppended(p: string, t: string, n: nat)
    requires n <= |p|
    ensures (p + t)[..n] == p[..n] && (p + t)[n..] == p[n..] + t
  {
  }

  /** A literal tail behind a star is accepted iff, after the shortest front that the rest of the pattern matches, its
      first occurrence ends the name. */
  lemma {:induction false} TailAccepted(p: string, t: string, s: string)
    requires p != "" && p[|p| - 1] == '*' && t != "" && '*' !in t
    ensures MatchesWildcard(p + t, s) <==> TailFits(p, t, s)
    decreases |p|
  {
    hide Glob, StarPos, TextPos, Literal, Rest, Find, Shifts, TailFits;
    StarPosAppend(p, t);
    TextPosAppend(p, t);
    var star := StarPos(p);
    if star > 0 {
      var lit, q := p[..star], p[star..];
      assert (p + t)[..star] == lit && (p + t)[star..] == q + t && p == lit + q && q[|q| - 1] == '*';
      LiteralShifts(lit, q, s);
      if lit <= s {
        ShiftedTail(p, q, t, s, star);
        TailAccepted(q, t, s[star..]);
      } else {
        NoFrontNoFit(p, t, s);
      }
    } else if TextPos(p) == |p| {
      StarsTail(p, t, s);
    } else {
      AppendBehindText(p, t);
      StarShifts(p, s);
      var lit := Literal(p);
      var pos := Find(s, lit, 0);
      if pos == -1 {
        NoFrontNoFit(p, t, s);
      } else {
        ShiftedTail(p, Rest(p), t, s, pos + |lit|);
        TailAccepted(Rest(p), t, s[pos + |lit|..]);
      }
    }
  }

  lemma StarsTail(p: string, t: string, s: string)
    requires p != "" && TextPos(p) == |p| && t != "" && '*' !in t
    ensures MatchesWildcard(p + t, s) <==> TailFits(p, t, s)
  {
    hide Glob, StarPos, TextPos, Literal, Rest, Find;
    assert p[0] == '*';
    StarPosAppend(p, t);
    TextPosAppend(p, t);
    AppendToStars(p, t);
    EmptyMatches(s);
    AllStars(p, s[..0]);
    assert Shortest(p, s, 0) && s[0..] == s;
    assert MatchesWildcard(p + t, s) <==> EndsAtFirst(s, t);
    assert forall k: nat | Shortest(p, s, k) :: k == 0;
  }

  lemma EmptyMatches(s: string)
    ensures forall i | 0 <= i <= |s| :: MatchesWildcard("", s[i..]) <==> i == |s|
  {
  }
}
