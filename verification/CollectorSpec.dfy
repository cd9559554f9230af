/** What a history of rule-loader definitions comes to, independently of how it is stored (the contract of collector). */
module CollectorSpec {
  import opened Options

  datatype Kind = ListKind | MacroKind | RuleKind

  /** An operation that was accepted. The body is the items of a list, or the pieces of a condition: a definition or an
      append brings one piece, an append without a condition none, and a replacement may leave it as it is. */
  datatype Op =
    | Define(kind: Kind, name: string, body: seq<string>)
    | Append(kind: Kind, name: string, body: seq<string>)
    | Replace(kind: Kind, name: string, replacement: Option<seq<string>>)
    | Enable(name: string, on: bool)
    | Clear

  /** What is known of a name: the clock at its first definition and at its last change, and its body. */
  datatype Entry = Entry(index: nat, visibility: nat, body: seq<string>)

  predicate Ticking(op: Op) {
    op.Define? || op.Append? || op.Replace?
  }

  /** The operation is about the name. */
  predicate About(op: Op, kind: Kind, name: string) {
    Ticking(op) && op.kind == kind && op.name == name
  }

  /** m_cur_index */
  function Clock(log: seq<Op>): nat {
    if log == [] then 0
    else
      var last := log[|log| - 1];
      if last.Clear? then 0 else Clock(log[..|log| - 1]) + (if Ticking(last) then 1 else 0)
  }

  /** What one operation does to the entry of a name. */
  function Changed(entry: Option<Entry>, op: Op, kind: Kind, name: string, clock: nat): Option<Entry> {
    if op.Clear? then None
    else if !About(op, kind, name) then entry
    else if op.Define? then Some(Entry(if entry.Some? then entry.value.index else clock, clock, op.body))
    else if entry.None? then None
    else if op.Append? then Some(Entry(entry.value.index, clock, entry.value.body + op.body))
    else Some(Entry(entry.value.index, clock, if op.replacement.Some? then op.replacement.value else entry.value.body))
  }

  function EntryAfter(log: seq<Op>, kind: Kind, name: string): Option<Entry> {
    if log == [] then None
    else
      var front := log[..|log| - 1];
      Changed(EntryAfter(front, kind, name), log[|log| - 1], kind, name, Clock(front))
  }

  lemma LogStep(log: seq<Op>, op: Op, kind: Kind, name: string)
    ensures EntryAfter(log + [op], kind, name) == Changed(EntryAfter(log, kind, name), op, kind, name, Clock(log))
    ensures Clock(log + [op]) == if op.Clear? then 0 else Clock(log) + if Ticking(op) then 1 else 0
  {
    hide Changed;
    assert (log + [op])[..|log|] == log;
  }

  /** The definitions, appends and replacements in a history. */
  function Ticks(log: seq<Op>): nat {
    if log == [] then 0 else Ticks(log[..|log| - 1]) + (if Ticking(log[|log| - 1]) then 1 else 0)
  }

  /** The clock counts the definitions, appends and replacements since everything was last cleared. */
  lemma {:induction false} ClockCounts(log: seq<Op>, i: nat)
    requires i <= |log| && KeptSince(log, i) && (i == 0 || log[i - 1].Clear?)
    ensures Clock(log) == Ticks(log[i..])
  {
    if i < |log| {
      var n := |log| - 1;
      ClockCounts(log[..n], i);
      assert log[i..][..n - i] == log[..n][i..];
    } else if i > 0 {
      assert log[i..] == [];
    }
  }

  // ----- The same, read off the history

  /** No operation from position `i` on clears everything. */
  ghost predicate KeptSince(log: seq<Op>, i: nat) {
    forall k | i <= k < |log| :: !log[k].Clear?
  }

  /** The pieces appended to the name, in order. */
  function Pieces(log: seq<Op>, kind: Kind, name: string): seq<string> {
    if log == [] then []
    else
      var last := log[|log| - 1];
      Pieces(log[..|log| - 1], kind, name) + (if last.Append? && About(last, kind, name) then last.body else [])
  }

  /** A name is known iff it has been defined since everything was last cleared. */
  lemma {:induction false} KnownIffDefined(log: seq<Op>, kind: Kind, name: string)
    ensures EntryAfter(log, kind, name).Some? <==>
            exists i :: 0 <= i < |log| && log[i].Define? && About(log[i], kind, name) && KeptSince(log, i)
  {
    if log != [] {
      var n := |log| - 1;
      var front, last := log[..n], log[n];
      KnownIffDefined(front, kind, name);
      hide EntryAfter;
      LogStep(front, last, kind, name);
      assert front + [last] == log;
      if last.Define? && About(last, kind, name) {
        assert KeptSince(log, n);
      }
      if i :| 0 <= i < n && front[i].Define? && About(front[i], kind, name) && KeptSince(front, i) {
        if !last.Clear? { assert log[i] == front[i] && KeptSince(log, i); }
      }
      if i :| 0 <= i < |log| && log[i].Define? && About(log[i], kind, name) && KeptSince(log, i) {
        if i < n { assert front[i] == log[i] && KeptSince(front, i); }
      }
    }
  }

  /** The operation gives the name a new body: a definition, or a replacement that brings one. */
  predicate SetsBody(op: Op, kind: Kind, name: string) {
    About(op, kind, name) && (op.Define? || (op.Replace? && op.replacement.Some?))
  }

  /** The body it brings. */
  function BodyIn(op: Op): seq<string>
    requires op.Define? || (op.Replace? && op.replacement.Some?)
  {
    if op.Define? then op.body else op.replacement.value
  }

  /** Nothing but appends and replacements without a body happened to the name behind position `i`. */
  ghost predicate LastSet(log: seq<Op>, kind: Kind, name: string, i: nat) {
    && i < |log| && SetsBody(log[i], kind, name) && KeptSince(log, i)
    && forall k | i < k < |log| :: !SetsBody(log[k], kind, name)
  }

  lemma PiecesNext(log: seq<Op>, op: Op, kind: Kind, name: string)
    ensures Pieces(log + [op], kind, name) ==
            Pieces(log, kind, name) + (if op.Append? && About(op, kind, name) then op.body else [])
    ensures Pieces([], kind, name) == []
  {
    assert (log + [op])[..|log|] == log;
  }

  /** A step that does not set the body adds the pieces it appends. */
  lemma ChangedBody(entry: Option<Entry>, op: Op, kind: Kind, name: string, clock: nat)
    requires entry.Some? && !op.Clear? && !SetsBody(op, kind, name)
    ensures var e := Changed(entry, op, kind, name, clock);
            e.Some? && e.value.body == entry.value.body + (if op.Append? && About(op, kind, name) then op.body else [])
  {
    assert entry.value.body + [] == entry.value.body;
  }

  lemma ChangedSets(entry: Option<Entry>, op: Op, kind: Kind, name: string, clock: nat)
    requires SetsBody(op, kind, name)
    ensures var e := Changed(entry, op, kind, name, clock); e.Some? ==> e.value.body == BodyIn(op)
  {
  }

  lemma {:induction false} BodySince(log: seq<Op>, kind: Kind, name: string, i: nat)
    requires LastSet(log, kind, name, i) && EntryAfter(log[..i + 1], kind, name).Some?
    ensures EntryAfter(log, kind, name).Some?
    ensures EntryAfter(log, kind, name).value.body == BodyIn(log[i]) + Pieces(log[i + 1..], kind, name)
  {
    hide EntryAfter, Changed, Pieces, Clock;
    var n := |log| - 1;
    var front, last := log[..n], log[n];
    assert front + [last] == log;
    LogStep(front, last, kind, name);
    if i == n {
      PiecesNext([], last, kind, name);
      assert log[i + 1..] == [] && log[..i + 1] == log;
      ChangedSets(EntryAfter(front, kind, name), last, kind, name, Clock(front));
      assert BodyIn(log[i]) + [] == BodyIn(log[i]);
    } else {
      assert front[i] == log[i] && front[..i + 1] == log[..i + 1];
      BodySince(front, kind, name, i);
      ChangedBody(EntryAfter(front, kind, name), last, kind, name, Clock(front));
      PiecesNext(front[i + 1..], last, kind, name);
      assert log[i + 1..] == front[i + 1..] + [last];
    }
  }

  /** For every history: the body of a known name is that of its last definition, or of its last replacement that brought
      one, whichever is later, followed by all later appends, in order; a replacement that brings none changes no body. */
  lemma {:induction false} BodyIsLastSetAndAppends(log: seq<Op>, kind: Kind, name: string) returns (i: nat)
    requires EntryAfter(log, kind, name).Some?
    ensures LastSet(log, kind, name, i) && EntryAfter(log[..i + 1], kind, name).Some?
    ensures EntryAfter(log, kind, name).value.body == BodyIn(log[i]) + Pieces(log[i + 1..], kind, name)
  {
    i := LastSetOf(log, kind, name);
    BodySince(log, kind, name, i);
  }

  lemma {:induction false} LastSetOf(log: seq<Op>, kind: Kind, name: string) returns (i: nat)
    requires EntryAfter(log, kind, name).Some?
    ensures LastSet(log, kind, name, i) && EntryAfter(log[..i + 1], kind, name).Some?
  {
    var n := |log| - 1;
    var front, last := log[..n], log[n];
    assert front + [last] == log;
    LogStep(front, last, kind, name);
    if SetsBody(last, kind, name) {
      i := n;
      assert log[..n + 1] == log;
    } else {
      i := LastSetOf(front, kind, name);
      hide EntryAfter;
      assert front[i] == log[i] && front[..i + 1] == log[..i + 1];
    }
  }

  /** In particular, where only appends follow the last definition, the body is that of the definition and the appends. */
  lemma BodyIsDefinitionAndAppends(log: seq<Op>, kind: Kind, name: string, i: nat)
    requires i < |log| && log[i].Define? && About(log[i], kind, name) && KeptSince(log, i)
    requires forall k | i < k < |log| && About(log[k], kind, name) :: log[k].Append?
    ensures EntryAfter(log, kind, name).Some?
    ensures EntryAfter(log, kind, name).value.body == log[i].body + Pieces(log[i + 1..], kind, name)
  {
    assert log[..i + 1] == log[..i] + [log[i]];
    LogStep(log[..i], log[i], kind, name);
    hide EntryAfter;
    BodySince(log, kind, name, i);
  }

  /** The index is the clock at the first definition. */
  lemma {:induction false} IndexIsFirstDefinition(log: seq<Op>, kind: Kind, name: string, i: nat)
    requires i < |log| && log[i].Define? && About(log[i], kind, name) && KeptSince(log, i)
    requires EntryAfter(log[..i], kind, name).None?
    ensures EntryAfter(log, kind, name).Some? && EntryAfter(log, kind, name).value.index == Clock(log[..i])
  {
    var n := |log| - 1;
    assert log[..n] + [log[n]] == log;
    LogStep(log[..n], log[n], kind, name);
    if i < n {
      assert log[..n][..i] == log[..i];
      IndexIsFirstDefinition(log[..n], kind, name, i);
      hide EntryAfter, Clock;
    }
  }

  /** The visibility is the clock at the last operation about the name. */
  lemma {:induction false} VisibilityIsLastChange(log: seq<Op>, kind: Kind, name: string, i: nat)
    requires i < |log| && About(log[i], kind, name) && KeptSince(log, i) && EntryAfter(log[..i + 1], kind, name).Some?
    requires forall k | i < k < |log| :: !About(log[k], kind, name)
    ensures EntryAfter(log, kind, name).Some? && EntryAfter(log, kind, name).value.visibility == Clock(log[..i])
  {
    var n := |log| - 1;
    assert log[..n] + [log[n]] == log;
    LogStep(log[..n], log[n], kind, name);
    if i < n {
      assert log[..n][..i] == log[..i] && log[..n][..i + 1] == log[..i + 1];
      VisibilityIsLastChange(log[..n], kind, name, i);
      hide EntryAfter, Clock;
    } else {
      assert log[..i + 1] == log;
    }
  }

  /** Indexes lie behind the clock. */
  lemma {:induction false} IndexBehindClock(log: seq<Op>, kind: Kind, name: string)
    ensures EntryAfter(log, kind, name).Some? ==>
              var e := EntryAfter(log, kind, name).value; e.index <= e.visibility < Clock(log)
  {
    if log != [] {
      IndexBehindClock(log[..|log| - 1], kind, name);
    }
  }

  /** No two names share an index, not even names of different kinds. */
  lemma {:induction false} IndexesDiffer(log: seq<Op>, kind: Kind, name: string, kind': Kind, name': string)
    requires kind != kind' || name != name'
    requires EntryAfter(log, kind, name).Some? && EntryAfter(log, kind', name').Some?
    ensures EntryAfter(log, kind, name).value.index != EntryAfter(log, kind', name').value.index
  {
    var n := |log| - 1;
    var front, last := log[..n], log[n];
    IndexBehindClock(front, kind, name);
    IndexBehindClock(front, kind', name');
    if EntryAfter(front, kind, name).Some? && EntryAfter(front, kind', name').Some? {
      IndexesDiffer(front, kind, name, kind', name');
    }
  }
}
