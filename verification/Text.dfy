/** Blanks, and substring search as std::string does it. */
module Text {

  predicate Blank(c: char) {
    c == ' ' || c == '\t' || c == '\n' || c == '\r'
  }

  /** `p` stands in `s` at position `i`. */
  predicate At(s: string, p: string, i: int) {
    0 <= i <= i + |p| <= |s| && s[i..i + |p|] == p
  }

  /** std::string::find, with -1 for npos. */
  function Find(s: string, p: string, from: nat): (r: int)
    ensures r == -1 || (from <= r && At(s, p, r))
    ensures forall i | from <= i && (r == -1 || i < r) :: !At(s, p, i)
    decreases |s| - from
  {
    if from > |s| then -1
    else if At(s, p, from) then from
    else Find(s, p, from + 1)
  }
}
