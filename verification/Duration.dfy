/** Prometheus time durations (parse_prometheus_interval): the ordered grammar of the "Time durations" section of the
    Prometheus "Querying basics" documentation, and its reading in milliseconds. */
module Duration {
  import opened Options

  const UNITS := 7
  const WORD := 0x1_0000_0000_0000_0000

  function Unit(i: nat): string {
    if i == 0 then "y" else if i == 1 then "w" else if i == 2 then "d" else if i == 3 then "h"
    else if i == 4 then "m" else if i == 5 then "s" else "ms"
  }

  /** Milliseconds in a unit. */
  function Factor(i: nat): nat {
    if i == 0 then 31_536_000_000 else if i == 1 then 604_800_000 else if i == 2 then 86_400_000
    else if i == 3 then 3_600_000 else if i == 4 then 60_000 else if i == 5 then 1_000 else 1
  }

  predicate Digit(c: char) {
    '0' <= c <= '9'
  }

  predicate Digits(s: string) {
    forall i | 0 <= i < |s| :: Digit(s[i])
  }

  // ----- The grammar

  /** Counts for the units from `i` on, each a run of digits or left out. */
  ghost predicate Counts(cs: seq<string>, i: nat) {
    i <= UNITS && |cs| == UNITS - i && forall k | 0 <= k < |cs| :: Digits(cs[k])
  }

  /** The counts with their units. */
  function Written(cs: seq<string>, i: nat): string {
    if cs == [] then "" else (if cs[0] == "" then "" else cs[0] + Unit(i)) + Written(cs[1..], i + 1)
  }

  /** The number of digits in front. */
  function Run(s: string): (n: nat)
    ensures n <= |s| && Digits(s[..n]) && (n < |s| ==> !Digit(s[n]))
  {
    if s == "" || !Digit(s[0]) then 0 else assert s[1..][..Run(s[1..])] == s[..1 + Run(s[1..])][1..]; 1 + Run(s[1..])
  }

  predicate Follows(s: string, k: nat, word: string) {
    k + |word| <= |s| && s[k..k + |word|] == word
  }

  /** The match of the regular expression from group `i` on, each group tried present first and then left out. */
  function Match(s: string, i: nat): Option<seq<string>>
    requires i <= UNITS
    decreases UNITS - i
  {
    if i == UNITS then (if s == "" then Some([]) else None)
    else
      var k := Run(s);
      var with := if k > 0 && Follows(s, k, Unit(i)) then Match(s[k + |Unit(i)|..], i + 1) else None;
      if with.Some? then Some([s[..k]] + with.value)
      else
        var without := Match(s, i + 1);
        if without.Some? then Some([""] + without.value) else None
  }

  /** The group is there and the rest matches behind it. */
  function With(s: string, i: nat): Option<seq<string>>
    requires i < UNITS
  {
    var k := Run(s);
    if k > 0 && Follows(s, k, Unit(i)) then Match(s[k + |Unit(i)|..], i + 1) else None
  }

  lemma MatchSteps(s: string, i: nat)
    requires i < UNITS
    ensures Match(s, i) == if With(s, i).Some? then Some([s[..Run(s)]] + With(s, i).value)
                           else if Match(s, i + 1).Some? then Some([""] + Match(s, i + 1).value) else None
  {
    hide Unit, Run, Follows;
  }

  lemma WrittenFirst(c: string, cs: seq<string>, i: nat)
    ensures Written([c] + cs, i) == (if c == "" then "" else c + Unit(i)) + Written(cs, i + 1)
    ensures Counts(cs, i + 1) && Digits(c) && i < UNITS ==> Counts([c] + cs, i)
  {
    hide Unit;
    assert ([c] + cs)[1..] == cs;
  }

  lemma SplitText(s: string, k: nat, word: string)
    requires Follows(s, k, word)
    ensures k + |word| <= |s| && s == s[..k] + word + s[k + |word|..]
  {
  }

  /** What is matched is written that way. */
  lemma {:induction false} MatchIsWritten(s: string, i: nat)
    requires i <= UNITS && Match(s, i).Some?
    ensures Counts(Match(s, i).value, i) && Written(Match(s, i).value, i) == s
    decreases UNITS - i
  {
    hide Unit, Run, Follows, Written, Counts, Match, Digits;
    if i == UNITS {
      MatchEnd(s);
    } else {
      MatchSteps(s, i);
      WrittenFirst("", if Match(s, i + 1).Some? then Match(s, i + 1).value else [], i);
      if With(s, i).Some? {
        var k := Run(s);
        SplitText(s, k, Unit(i));
        MatchIsWritten(s[k + |Unit(i)|..], i + 1);
        WrittenFirst(s[..k], With(s, i).value, i);
      } else {
        MatchIsWritten(s, i + 1);
        EmptyIsDigits();
      }
    }
  }

  lemma MatchEnd(s: string)
    ensures Match(s, UNITS) == (if s == "" then Some([]) else None) && Written([], UNITS) == "" && Counts([], UNITS)
  {
  }

  lemma EmptyIsDigits()
    ensures Digits("")
  {
  }

  lemma {:induction false} RunOf(digits: string, rest: string)
    requires Digits(digits) && (rest == "" || !Digit(rest[0]))
    ensures Run(digits + rest) == |digits|
  {
    hide Digit;
    if digits == "" {
      assert digits + rest == rest;
    } else {
      RunOf(digits[1..], rest);
      assert (digits + rest)[1..] == digits[1..] + rest;
    }
  }

  /** A written text is empty, or begins with some count and its unit. */
  lemma {:induction false} Head(cs: seq<string>, i: nat) returns (j: nat)
    requires Counts(cs, i)
    ensures i <= j <= UNITS
    ensures j == UNITS ==> Written(cs, i) == ""
    ensures j < UNITS ==> cs[j - i] != "" && Written(cs, i) == cs[j - i] + Unit(j) + Written(cs[j - i + 1..], j + 1)
    ensures forall k | 0 <= k < j - i :: cs[k] == ""
    decreases UNITS - i
  {
    hide Unit, Written, Digits;
    if cs == [] {
      MatchEnd("");
      j := UNITS;
    } else {
      assert cs == [cs[0]] + cs[1..];
      WrittenFirst(cs[0], cs[1..], i);
      if cs[0] != "" {
        j := i;
      } else {
        j := Head(cs[1..], i + 1);
        assert "" + Written(cs[1..], i + 1) == Written(cs[1..], i + 1);
        TailOfTail(cs, j, i);
      }
    }
  }

  lemma TailOfTail(cs: seq<string>, j: nat, i: nat)
    requires i < j <= i + |cs|
    ensures j < i + |cs| ==> cs[1..][j - i - 1] == cs[j - i] && cs[1..][j - (i + 1) + 1..] == cs[j - i + 1..]
  {
  }

  /** What is left of `ms` after `m` matches nothing. */
  lemma NothingFrom(s: string, i: nat)
    requires i <= UNITS && Run(s) == 0 && s != ""
    ensures Match(s, i).None?
    decreases UNITS - i
  {
    if i < UNITS { NothingFrom(s, i + 1); }
  }

  /** A count that is left out is not found, even where its unit begins another. */
  lemma NotWith(cs: seq<string>, i: nat)
    requires Counts(cs, i) && i < UNITS && cs[0] == ""
    ensures With(Written(cs, i), i).None?
  {
    var s := Written(cs, i);
    var j := Head(cs, i);
    if j < UNITS {
      var c, rest := cs[j - i], Written(cs[j - i + 1..], j + 1);
      UnitFollows(c, j, i, rest);
    }
  }

  lemma UnitFollows(c: string, j: nat, i: nat, rest: string)
    requires Digits(c) && c != "" && i < j < UNITS && (j == UNITS - 1 ==> rest == "")
    ensures With(c + Unit(j) + rest, i).None?
  {
    hide Run, Match, Digits, Unit, Digit;
    UnitClash(i, j);
    var s := c + Unit(j) + rest;
    assert s == c + (Unit(j) + rest);
    RunOf(c, Unit(j) + rest);
    if Follows(s, |c|, Unit(i)) {
      assert s[|c|..|c| + |Unit(i)|][0] == s[|c|] == Unit(j)[0];
      LeftOver(c);
      SRuns();
      NothingFrom("s", 5);
    }
  }

  /** Only `m` and `ms` begin alike. */
  lemma UnitClash(i: nat, j: nat)
    requires i < j < UNITS
    ensures Unit(i) != "" && Unit(j) != "" && !Digit(Unit(j)[0])
    ensures Unit(i)[0] == Unit(j)[0] ==> i == 4 && j == 6 && Unit(i) == "m" && Unit(j) == "ms"
  {
  }

  lemma LeftOver(c: string)
    ensures (c + "ms" + "")[|c| + 1..] == "s"
  {
  }

  lemma SRuns()
    ensures Run("s") == 0
  {
  }

  /** What is written is matched, in just that way: the overlap of `m` and `ms` makes no reading ambiguous. */
  lemma {:induction false} WrittenIsMatch(cs: seq<string>, i: nat)
    requires Counts(cs, i)
    ensures Match(Written(cs, i), i) == Some(cs)
    decreases UNITS - i
  {
    hide Unit, Run, With, Match, Digits, Written;
    if i == UNITS {
      MatchEnd("");
      assert cs == [];
    } else {
      var c, rest := cs[0], Written(cs[1..], i + 1);
      assert cs == [c] + cs[1..];
      WrittenIsMatch(cs[1..], i + 1);
      WrittenFirst(c, cs[1..], i);
      MatchSteps(Written(cs, i), i);
      if c == "" {
        assert "" + rest == rest;
        NotWith(cs, i);
      } else {
        FoundWith(c, i, rest);
      }
    }
  }

  /** No text can be read in two ways. */
  lemma Unambiguous(a: seq<string>, b: seq<string>)
    requires Counts(a, 0) && Counts(b, 0) && Written(a, 0) == Written(b, 0)
    ensures a == b
  {
    hide Match, Written;
    WrittenIsMatch(a, 0);
    WrittenIsMatch(b, 0);
  }

  lemma FoundWith(c: string, i: nat, rest: string)
    requires Digits(c) && c != "" && i < UNITS
    ensures var s := c + Unit(i) + rest; Run(s) == |c| && s[..|c|] == c && With(s, i) == Match(rest, i + 1)
  {
    hide Run, Match, Digits, Unit, Digit;
    NoDigitUnit(i);
    var s := c + Unit(i) + rest;
    assert s == c + (Unit(i) + rest);
    RunOf(c, Unit(i) + rest);
    assert s[|c|..|c| + |Unit(i)|] == Unit(i) && s[|c| + |Unit(i)|..] == rest;
  }

  lemma NoDigitUnit(i: nat)
    ensures Unit(i) != "" && !Digit(Unit(i)[0])
  {
  }

  // ----- Numbers

  function DigitValue(c: char): nat
    requires Digit(c)
  {
    c as nat - '0' as nat
  }

  /** The number a run of digits stands for in a base. */
  function Value(s: string, base: nat): nat
    requires Digits(s)
  {
    if s == "" then 0 else Value(s[..|s| - 1], base) * base + DigitValue(s[|s| - 1])
  }

  /** The number of digits in front that are octal. */
  function OctalRun(s: string): (n: nat)
    ensures n <= |s| && (forall i | 0 <= i < n :: s[i] <= '7') && (n < |s| ==> s[n] > '7')
  {
    if s == "" || s[0] > '7' then 0 else 1 + OctalRun(s[1..])
  }

  /** std::stoull with base 0 on digits: a leading zero means octal, reading stops at a digit that is not, and a number of
      more than 64 bits is an exception. */
  function Stoull(s: string): Option<nat>
    requires Digits(s) && s != ""
  {
    var n := if s[0] == '0' then Value(s[..OctalRun(s)], 8) else Value(s, 10);
    if n < WORD then Some(n) else None
  }

  /** Decimal, without leading zeros. */
  function Decimal(n: nat): (s: string)
    ensures Digits(s) && s != "" && Value(s, 10) == n && (s[0] == '0' <==> n == 0)
  {
    if n < 10 then [('0' as nat + n) as char]
    else
      var front, last := Decimal(n / 10), ('0' as nat + n % 10) as char;
      assert (front + [last])[..|front|] == front;
      front + [last]
  }

  lemma DecimalIsRead(n: nat)
    ensures Stoull(Decimal(n)) == if n < WORD then Some(n) else None
  {
    if n == 0 {
      assert Decimal(0) == "0" && "0"[..OctalRun("0")] == "0";
    }
  }

  /** The leading zeros. */
  function Zeros(s: string): (n: nat)
    ensures n <= |s| && (forall i | 0 <= i < n :: s[i] == '0') && (n < |s| ==> s[n] != '0')
  {
    if s == "" || s[0] != '0' then 0 else 1 + Zeros(s[1..])
  }

  // ----- When a leading zero does no harm

  lemma {:induction false} ZerosAreNothing(s: string, base: nat)
    requires Digits(s) && forall i | 0 <= i < |s| :: s[i] == '0'
    ensures Value(s, base) == 0
  {
    if s != "" { ZerosAreNothing(s[..|s| - 1], base); }
  }

  /** Octal is never more than decimal, and less as soon as a digit follows one that counts. */
  lemma {:induction false} OctalIsLess(s: string)
    requires Digits(s)
    ensures Value(s, 8) <= Value(s, 10)
    ensures Zeros(s) < |s| - 1 ==> Value(s, 8) < Value(s, 10)
    ensures Zeros(s) < |s| ==> 0 < Value(s, 8)
  {
    if s != "" {
      var front := s[..|s| - 1];
      OctalIsLess(front);
      ZerosOfFront(s);
      if Zeros(s) >= |s| - 1 { ZerosAreNothing(front, 8); ZerosAreNothing(front, 10); }
    }
  }

  lemma ZerosOfFront(s: string)
    requires s != ""
    ensures Zeros(s) < |s| ==> Zeros(s[..|s| - 1]) == Zeros(s)
    ensures Zeros(s) == |s| ==> Zeros(s[..|s| - 1]) == |s| - 1
  {
    var front := s[..|s| - 1];
    var n, m := Zeros(s), Zeros(front);
    assert m < |front| ==> front[m] == s[m];
    assert n < |front| ==> front[n] == s[n];
  }

  lemma {:induction false} PrefixIsLess(s: string, k: nat)
    requires Digits(s) && k <= |s|
    ensures Value(s[..k], 10) <= Value(s, 10)
    ensures k < |s| && s[k] > '0' ==> Value(s[..k], 10) < Value(s, 10)
  {
    if k < |s| {
      PrefixIsLess(s[..|s| - 1], k);
      assert s[..|s| - 1][..k] == s[..k];
    } else {
      assert s[..k] == s;
    }
  }

  /** A count is read as the decimal number it looks like iff it has no leading zero, or nothing follows its zeros but at
      most one octal digit. */
  lemma DecimalIff(s: string)
    requires Digits(s) && s != "" && Value(s, 10) < WORD
    ensures Stoull(s) == Some(Value(s, 10)) <==> s[0] != '0' || (|s| - Zeros(s) <= 1 && OctalRun(s) == |s|)
  {
    if s[0] == '0' {
      var k := OctalRun(s);
      OctalIsLess(s[..k]);
      PrefixIsLess(s, k);
      if k == |s| {
        assert s[..k] == s;
        if |s| - Zeros(s) <= 1 { OneDigit(s); }
      }
    }
  }

  /** A leading zero does harm: the count "010" is read as eight. */
  lemma ReadsOctal()
    ensures Digits("010") && Value("010", 10) == 10 && Stoull("010") == Some(8)
  {
    assert "010"[..2] == "01" && "01"[..1] == "0" && "0"[..0] == "";
    assert Value("0", 10) == 0 && Value("0", 8) == 0 && Value("01", 10) == 1 && Value("01", 8) == 1;
    assert "010"[..OctalRun("010")] == "010";
  }

  lemma OneDigit(s: string)
    requires Digits(s) && s != "" && |s| - Zeros(s) <= 1
    ensures Value(s, 8) == Value(s, 10)
  {
    var front := s[..|s| - 1];
    ZerosAreNothing(front, 8);
    ZerosAreNothing(front, 10);
  }

  // ----- Reading

  /** The sum over the first `k` units in 64-bit arithmetic; None where a count does not fit in 64 bits. */
  function Total(cs: seq<string>, k: nat): Option<nat>
    requires Counts(cs, 0) && k <= UNITS
  {
    if k == 0 then Some(0)
    else
      var before := Total(cs, k - 1);
      if before.None? || cs[k - 1] == "" then before
      else
        var count := Stoull(cs[k - 1]);
        if count.None? then None else Some((before.value + count.value * Factor(k - 1)) % WORD)
  }

  /** isspace */
  predicate Blank(c: char) {
    c == ' ' || '\t' <= c <= '\r'
  }

  function Stripped(s: string): string {
    if s == "" then "" else Stripped(s[..|s| - 1]) + (if Blank(s[|s| - 1]) then "" else [s[|s| - 1]])
  }

  method Strip(s: string) returns (t: string)
    ensures t == Stripped(s)
  {
    t := "";
    var i := 0;
    while i < |s|
      invariant 0 <= i <= |s| && t == Stripped(s[..i])
    {
      assert s[..i + 1][..i] == s[..i];
      if !Blank(s[i]) {
        t := t + [s[i]];
      }
      i := i + 1;
    }
    assert s[..i] == s;
  }

  /** parse_prometheus_interval: a text of the ordered grammar gives the sum of its counts, any other text 0; blanks do not
      matter. None stands for the exception of a count of more than 64 bits. */
  method ParseInterval(text: string) returns (r: Option<nat>)
    ensures forall cs | Counts(cs, 0) && Written(cs, 0) == Stripped(text) :: r == Total(cs, UNITS)
    ensures (forall cs | Counts(cs, 0) :: Written(cs, 0) != Stripped(text)) ==> r == Some(0)
  {
    hide Written, Match, Stripped, Stoull, Factor;
    var s := Strip(text);
    var interval := 0;
    forall cs | Counts(cs, 0) && Written(cs, 0) == s
      ensures Match(s, 0) == Some(cs)
    {
      WrittenIsMatch(cs, 0);
    }
    var args := Match(s, 0);
    if args.None? {
      return Some(0);
    }
    MatchIsWritten(s, 0);
    var i := 0;
    while i < UNITS
      invariant 0 <= i <= UNITS && Total(args.value, i) == Some(interval) && interval < WORD
    {
      if args.value[i] != "" {
        var count := Stoull(args.value[i]);
        if count.None? {
          Overflowed(args.value, i + 1, UNITS);
          return None;
        }
        Wrapped(interval, Factor(i));
        if count.value > 0 {
          interval := (interval + count.value * Factor(i)) % WORD;
        }
      }
      i := i + 1;
    }
    r := Some(interval);
  }

  lemma Wrapped(n: nat, factor: nat)
    requires n < WORD
    ensures n % WORD == n && (n + 0 * factor) % WORD == n
  {
  }

  lemma {:induction false} Overflowed(cs: seq<string>, i: nat, k: nat)
    requires Counts(cs, 0) && i <= k <= UNITS && Total(cs, i).None?
    ensures Total(cs, k).None?
  {
    if i < k { Overflowed(cs, i, k - 1); }
  }

  // ----- Printing and reading back

  /** Counts in decimal, without leading zeros; those left out are not written. */
  function Printed(counts: seq<Option<nat>>): seq<string> {
    seq(|counts|, i requires 0 <= i < |counts| => if counts[i].Some? then Decimal(counts[i].value) else "")
  }

  /** Count times milliseconds, over the first `k` units. */
  function Sum(counts: seq<Option<nat>>, k: nat): nat
    requires k <= |counts|
  {
    if k == 0 then 0 else Sum(counts, k - 1) + (if counts[k - 1].Some? then counts[k - 1].value * Factor(k - 1) else 0)
  }

  /** The first `k` counts have 64 bits each. */
  predicate AllFit(counts: seq<Option<nat>>, k: nat)
    requires k <= |counts|
  {
    forall i | 0 <= i < k :: counts[i].Some? ==> counts[i].value < WORD
  }

  /** Counts that fit give their sum in 64-bit arithmetic. */
  lemma {:induction false} PrintedTotal(counts: seq<Option<nat>>, k: nat)
    requires |counts| == UNITS && k <= UNITS
    ensures Counts(Printed(counts), 0)
    ensures Total(Printed(counts), k) == if AllFit(counts, k) then Some(Sum(counts, k) % WORD) else None
  {
    hide Stoull, Factor, Value, Decimal, Digits, AllFit;
    PrintedCounts(counts);
    if k == 0 {
      NothingToFit(counts);
    } else {
      PrintedTotal(counts, k - 1);
      AllFitNext(counts, k);
      if counts[k - 1].Some? {
        var n := counts[k - 1].value;
        DecimalIsRead(n);
        assert Printed(counts)[k - 1] == Decimal(n);
        SomethingPrinted(n);
        WrapsOnce(Sum(counts, k - 1), n * Factor(k - 1));
      }
    }
  }

  lemma NothingToFit(counts: seq<Option<nat>>)
    ensures AllFit(counts, 0)
  {
  }

  lemma AllFitNext(counts: seq<Option<nat>>, k: nat)
    requires 0 < k <= |counts|
    ensures AllFit(counts, k) <==> AllFit(counts, k - 1) && (counts[k - 1].Some? ==> counts[k - 1].value < WORD)
  {
  }

  lemma SomethingPrinted(n: nat)
    ensures Decimal(n) != ""
  {
  }

  lemma WrapsOnce(a: nat, b: nat)
    ensures (a % WORD + b) % WORD == (a + b) % WORD
  {
  }

  lemma PrintedCounts(counts: seq<Option<nat>>)
    requires |counts| == UNITS
    ensures Counts(Printed(counts), 0)
  {
    hide Value;
  }

  /** A count with its unit, nothing if it is left out. */
  function Piece(count: Option<nat>, unit: string): string {
    if count.None? then "" else Decimal(count.value) + unit
  }

  /** The counts as they are written down. */
  function Shown(counts: seq<Option<nat>>): string
    requires |counts| == UNITS
  {
    Piece(counts[0], "y") + (Piece(counts[1], "w") + (Piece(counts[2], "d") + (Piece(counts[3], "h")
    + (Piece(counts[4], "m") + (Piece(counts[5], "s") + Piece(counts[6], "ms"))))))
  }

  function CountOf(count: Option<nat>): nat {
    if count.None? then 0 else count.value
  }

  /** The time they stand for, in milliseconds: a year has 365 days and a week 7. */
  function Milliseconds(counts: seq<Option<nat>>): nat
    requires |counts| == UNITS
  {
    var days := CountOf(counts[0]) * 365 + CountOf(counts[1]) * 7 + CountOf(counts[2]);
    (((days * 24 + CountOf(counts[3])) * 60 + CountOf(counts[4])) * 60 + CountOf(counts[5])) * 1000 + CountOf(counts[6])
  }

  lemma SumIsMilliseconds(counts: seq<Option<nat>>)
    requires |counts| == UNITS
    ensures Sum(counts, UNITS) == Milliseconds(counts)
  {
    SumNext(counts, 6);
    SumNext(counts, 5);
    SumNext(counts, 4);
    SumNext(counts, 3);
    SumNext(counts, 2);
    SumNext(counts, 1);
    SumNext(counts, 0);
  }

  lemma SumNext(counts: seq<Option<nat>>, k: nat)
    requires k < |counts|
    ensures Sum(counts, k + 1) == Sum(counts, k) + CountOf(counts[k]) * Factor(k) && Sum(counts, 0) == 0
  {
  }

  lemma WrittenNext(counts: seq<Option<nat>>, k: nat)
    requires k < |counts|
    ensures Written(Printed(counts)[k..], k) == Piece(counts[k], Unit(k)) + Written(Printed(counts)[k + 1..], k + 1)
  {
    hide Decimal;
    var ps := Printed(counts)[k..];
    assert ps[0] == Printed(counts)[k] && ps[1..] == Printed(counts)[k + 1..];
  }

  lemma ShownIsWritten(counts: seq<Option<nat>>)
    requires |counts| == UNITS
    ensures Written(Printed(counts), 0) == Shown(counts)
  {
    UnitNames();
    hide Decimal, Written, Printed, Unit, Piece;
    WrittenNext(counts, 0);
    WrittenNext(counts, 1);
    WrittenNext(counts, 2);
    WrittenNext(counts, 3);
    WrittenNext(counts, 4);
    WrittenNext(counts, 5);
    WrittenNext(counts, 6);
    NothingWritten(counts);
    assert Piece(counts[6], "ms") + "" == Piece(counts[6], "ms");
  }

  lemma UnitNames()
    ensures Unit(0) == "y" && Unit(1) == "w" && Unit(2) == "d" && Unit(3) == "h" && Unit(4) == "m" && Unit(5) == "s"
    ensures Unit(6) == "ms"
  {
  }

  lemma NothingWritten(counts: seq<Option<nat>>)
    requires |counts| == UNITS
    ensures Printed(counts)[0..] == Printed(counts) && Written(Printed(counts)[7..], 7) == ""
  {
    hide Decimal;
    assert Printed(counts)[7..] == [];
  }

  /** Blanks are what isspace says, and stripping a text is stripping its parts. */
  lemma {:induction false} StrippedJoins(a: string, b: string)
    ensures Stripped(a + b) == Stripped(a) + Stripped(b)
  {
    if b == "" {
      assert a + b == a;
    } else {
      StrippedJoins(a, b[..|b| - 1]);
      assert (a + b)[..|a + b| - 1] == a + b[..|b| - 1];
    }
  }

  lemma StrippedOne(c: char)
    ensures Stripped([c]) == if c in {' ', '\t', '\n', '\U{B}', '\U{C}', '\r'} then "" else [c]
  {
    assert [c][..0] == [];
  }

  lemma ShownIsRead(counts: seq<Option<nat>>)
    requires |counts| == UNITS
    ensures var ps := Printed(counts);
            && Counts(ps, 0) && Written(ps, 0) == Shown(counts)
            && Total(ps, UNITS) == if AllFit(counts, UNITS) then Some(Milliseconds(counts) % WORD) else None
  {
    hide Milliseconds, Shown, Sum, AllFit, Total, Written, Printed, Counts;
    SumIsMilliseconds(counts);
    ShownIsWritten(counts);
    PrintedTotal(counts, UNITS);
  }

  /** Any counts, written down in order with blanks anywhere, are read back as the time they stand for, in 64-bit arithmetic;
      a count of more than 64 bits is an exception. */
  method RoundTrip(counts: seq<Option<nat>>, text: string) returns (r: Option<nat>)
    requires |counts| == UNITS && Stripped(text) == Shown(counts)
    ensures r == if AllFit(counts, UNITS) then Some(Milliseconds(counts) % WORD) else None
    ensures AllFit(counts, UNITS) && Milliseconds(counts) < WORD ==> r == Some(Milliseconds(counts))
  {
    hide *;
    ShownIsRead(counts);
    r := ParseInterval(text);
    if Milliseconds(counts) < WORD { Wrapped(Milliseconds(counts), 0); }
  }
}
