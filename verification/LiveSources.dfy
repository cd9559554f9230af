/** Starting and stopping the live event sources: the main thread opens the sources one by one, each runs on its own
    thread, and the main thread collects the results (process_events). Every atomic access is a step of its own. */
module LiveSources {

  datatype RunResult = RunResult(success: bool, errstr: string, proceed: bool)

  const Ok := RunResult(true, "", true)

  function Fatal(err: string): RunResult {
    RunResult(false, err, false)
  }

  function Merge(a: RunResult, b: RunResult): RunResult {
    RunResult(a.success && b.success,
              if b.errstr == "" then a.errstr
              else a.errstr + (if a.errstr == "" then "" else "\n") + b.errstr,
              a.proceed && b.proceed)
  }

  /** What became of opening a source: the inspector was opened, opening returned a failure, or something threw. */
  datatype Fate = Pending | Opened | Refused | Threw(msg: string)

  /** Where process_inspector_events stands for a source. */
  datatype WorkerPc = Absent | Inspecting | Finishing | Releasing | Writing | Exited

  /** live_context with its source_sync_context. `result` is the local variable of the worker, `res` the shared slot
      it writes at the very end. `released`, `finishes` and `joins` record what happened. */
  datatype Context = Context(
    fate: Fate, pc: WorkerPc, result: RunResult, res: RunResult,
    threaded: bool, joinable: bool, finished: bool, joined: bool,
    released: bool, finishes: nat, joins: nat)

  const Fresh := Context(Pending, Absent, Ok, Ok, false, false, false, false, false, 0, 0)

  datatype MainPc =
    | Opening | Acquiring | Calling | FailFinish | FailRelease | Serving
    | Checking | Waiting | Scanning(k: nat) | Joining(k: nat) | Merging(k: nat) | Marking(k: nat)
    | Done | Crashed

  /** `n` sources are enabled; `count` is the semaphore. `base` is the result the opening phase left, `order` the
      contexts joined so far and `waits` the number of acquisitions in the termination loop. */
  datatype State = State(
    n: nat, ctxs: seq<Context>, count: int, res: RunResult, pc: MainPc, stopped: nat, forced: bool,
    base: RunResult, order: seq<nat>, waits: nat)

  function Init(n: nat): State {
    State(n, [], n, Ok, Opening, 0, false, Ok, [], 0)
  }

  datatype Action =
    | Main
    | OpenReturns(r: RunResult)
    | OpenThrows(msg: string)
    | SpawnThrows(r: RunResult, msg: string)
    | Inspected(i: nat, r: RunResult)
    | Worker(i: nat)

  predicate MainEnabled(s: State) {
    match s.pc
    case Calling => false
    case Done => false
    case Crashed => false
    case Acquiring => s.count > 0
    case Waiting => s.count > 0
    case Serving => s.ctxs != [] && s.ctxs[|s.ctxs| - 1].pc.Exited?
    case Joining(k) => k < |s.ctxs| && (s.ctxs[k].threaded && s.ctxs[k].joinable ==> s.ctxs[k].pc.Exited?)
    case Scanning(k) => k <= |s.ctxs|
    case Merging(k) => k < |s.ctxs|
    case Marking(k) => k < |s.ctxs|
    case FailFinish => s.ctxs != []
    case FailRelease => s.ctxs != []
    case Opening => true
    case Checking => true
  }

  predicate Enabled(s: State, a: Action) {
    match a
    case Main => MainEnabled(s)
    case OpenReturns(_) => s.pc.Calling? && s.ctxs != []
    case OpenThrows(_) => s.pc.Calling? && s.ctxs != []
    case SpawnThrows(r, _) => s.pc.Calling? && s.ctxs != [] && r.success && s.n > 1
    case Inspected(i, _) => i < |s.ctxs| && s.ctxs[i].pc.Inspecting?
    case Worker(i) => i < |s.ctxs| && (s.ctxs[i].pc.Finishing? || s.ctxs[i].pc.Releasing? || s.ctxs[i].pc.Writing?)
  }

  function Last(s: State): Context
    requires s.ctxs != []
  {
    s.ctxs[|s.ctxs| - 1]
  }

  function SetLast(s: State, c: Context): State
    requires s.ctxs != []
  {
    s.(ctxs := s.ctxs[|s.ctxs| - 1 := c])
  }

  function MainStep(s: State): State
    requires MainEnabled(s)
  {
    match s.pc
    case Opening =>
      if |s.ctxs| < s.n then s.(ctxs := s.ctxs + [Fresh], pc := Acquiring) else s.(pc := Checking)
    case Acquiring => s.(count := s.count - 1, pc := Calling)
    case FailFinish =>
      if Last(s).finished then s.(pc := Crashed)
      else SetLast(s, Last(s).(finished := true, finishes := Last(s).finishes + 1)).(pc := FailRelease)
    case FailRelease => SetLast(s, Last(s).(released := true)).(count := s.count + 1, pc := Checking)
    case Serving => s.(pc := Opening)
    case Checking =>
      if s.stopped < |s.ctxs| then s.(forced := s.forced || !s.res.success, pc := Waiting) else s.(pc := Done)
    case Waiting => s.(count := s.count - 1, waits := s.waits + 1, pc := Scanning(0))
    case Scanning(k) =>
      if k == |s.ctxs| then s.(pc := Checking)
      else if s.ctxs[k].finished && !s.ctxs[k].joined then s.(pc := Joining(k))
      else s.(pc := Scanning(k + 1))
    case Joining(k) =>
      var c := s.ctxs[k];
      if c.threaded && !c.joinable then s.(pc := Scanning(k + 1))
      else s.(ctxs := s.ctxs[k := c.(joinable := false)], pc := Merging(k))
    case Merging(k) => s.(res := Merge(s.res, s.ctxs[k].res), order := s.order + [k], pc := Marking(k))
    case Marking(k) =>
      var c := s.ctxs[k];
      if c.joined then s.(pc := Crashed)
      else s.(ctxs := s.ctxs[k := c.(joined := true, joins := c.joins + 1)], stopped := s.stopped + 1, pc := Scanning(k + 1))
  }

  function Failed(s: State, msg: string): State
    requires s.ctxs != []
  {
    SetLast(s, Last(s).(fate := Threw(msg), res := Fatal(msg))).(pc := FailFinish)
  }

  /** The end of process_inspector_events: finish() sets the flag, then releases the semaphore; the result is
      written to the shared slot last. */
  function Advance(c: Context): Context
    requires c.pc.Finishing? || c.pc.Releasing? || c.pc.Writing?
  {
    match c.pc
    case Finishing =>
      if c.finished then
        c.(result := Merge(c.result, Fatal("source_sync_context has been finished twice")), pc := Writing)
      else
        c.(finished := true, finishes := c.finishes + 1, pc := Releasing)
    case Releasing => c.(released := true, pc := Writing)
    case Writing => c.(res := c.result, pc := Exited)
  }

  function WorkerStep(s: State, i: nat): State
    requires Enabled(s, Worker(i))
  {
    var c := s.ctxs[i];
    s.(ctxs := s.ctxs[i := Advance(c)], count := if c.pc.Releasing? then s.count + 1 else s.count)
  }

  function Step(s: State, a: Action): State
    requires Enabled(s, a)
  {
    match a
    case Main => MainStep(s)
    case OpenReturns(r) =>
      var t := s.(res := r, base := r);
      if !r.success then SetLast(t, Last(s).(fate := Refused)).(pc := FailFinish)
      else
        SetLast(t, Last(s).(fate := Opened, pc := Inspecting, threaded := s.n > 1, joinable := s.n > 1))
          .(pc := if s.n == 1 then Serving else Opening)
    case OpenThrows(msg) => Failed(s, msg)
    case SpawnThrows(r, msg) => Failed(s.(res := r, base := r), msg)
    case Inspected(i, r) => s.(ctxs := s.ctxs[i := s.ctxs[i].(result := r, pc := Finishing)])
    case Worker(i) => WorkerStep(s, i)
  }

  /** `t` is reached from `s` by the actions in order, each enabled when it is taken. */
  ghost predicate Runs(s: State, acts: seq<Action>, t: State)
    decreases acts
  {
    if acts == [] then s == t
    else Enabled(s, acts[0]) && Runs(Step(s, acts[0]), acts[1..], t)
  }

  // ----- Sums over the contexts

  function Sum(ctxs: seq<Context>, f: Context -> nat): nat {
    if ctxs == [] then 0 else Sum(ctxs[..|ctxs| - 1], f) + f(ctxs[|ctxs| - 1])
  }

  lemma {:induction false} SumUpdate(ctxs: seq<Context>, f: Context -> nat, i: nat, c: Context)
    requires i < |ctxs|
    ensures Sum(ctxs[i := c], f) == Sum(ctxs, f) - f(ctxs[i]) + f(c)
  {
    var n := |ctxs| - 1;
    if i < n {
      SumUpdate(ctxs[..n], f, i, c);
      assert ctxs[i := c][..n] == ctxs[..n][i := c];
    } else {
      assert ctxs[i := c][..n] == ctxs[..n];
    }
  }

  lemma SumAppend(ctxs: seq<Context>, f: Context -> nat, c: Context)
    ensures Sum(ctxs + [c], f) == Sum(ctxs, f) + f(c)
  {
    assert (ctxs + [c])[..|ctxs|] == ctxs;
  }

  lemma {:induction false} SumAtMost(ctxs: seq<Context>, f: Context -> nat)
    requires forall c :: f(c) <= 1
    ensures Sum(ctxs, f) <= |ctxs|
    ensures Sum(ctxs, f) == |ctxs| <==> forall i | 0 <= i < |ctxs| :: f(ctxs[i]) == 1
  {
    if ctxs != [] {
      SumAtMost(ctxs[..|ctxs| - 1], f);
    }
  }

  function ReleasedOf(c: Context): nat { if c.released then 1 else 0 }

  function JoinedOf(c: Context): nat { if c.joined then 1 else 0 }

  // ----- The invariant

  /** The result a context contributes: the worker's final one, the exception, or nothing if `base` has it. */
  function Outcome(c: Context): RunResult {
    match c.fate
    case Opened => c.result
    case Threw(msg) => Fatal(msg)
    case Refused => Ok
    case Pending => Ok
  }

  /** The results of the contexts in `order`, merged onto `base`. */
  function MergeAll(base: RunResult, ctxs: seq<Context>, order: seq<nat>): RunResult
    requires forall i | 0 <= i < |order| :: order[i] < |ctxs|
  {
    if order == [] then base
    else
      var n := |order| - 1;
      Merge(MergeAll(base, ctxs, order[..n]), Outcome(ctxs[order[n]]))
  }

  lemma {:induction false} MergeAllFrame(base: RunResult, ctxs: seq<Context>, ctxs': seq<Context>, order: seq<nat>)
    requires forall i | 0 <= i < |order| ::
      order[i] < |ctxs| && order[i] < |ctxs'| && Outcome(ctxs[order[i]]) == Outcome(ctxs'[order[i]])
    ensures MergeAll(base, ctxs, order) == MergeAll(base, ctxs', order)
  {
    hide Outcome, Merge;
    if order != [] {
      var n := |order| - 1;
      assert Outcome(ctxs[order[n]]) == Outcome(ctxs'[order[n]]);
      MergeAllFrame(base, ctxs, ctxs', order[..n]);
    }
  }

  predicate OpenPhase(pc: MainPc) {
    pc.Opening? || pc.Acquiring? || pc.Calling? || pc.Serving? || pc.FailFinish? || pc.FailRelease?
  }

  predicate FailureFate(f: Fate) { f.Refused? || f.Threw? }

  /** The main thread is between taking the thread of context `i` and marking it as joined. */
  predicate Collecting(pc: MainPc, i: nat) { pc == Merging(i) || pc == Marking(i) }

  /** What holds of the context at position `i`. */
  predicate ContextOk(c: Context, i: nat, last: bool, n: nat, pc: MainPc) {
    && c.finishes == (if c.finished then 1 else 0) && c.joins == (if c.joined then 1 else 0)
    && (c.released ==> c.finished) && (c.joined ==> c.released && !OpenPhase(pc))
    && match c.fate
       case Pending => c == Fresh && last && (pc.Acquiring? || pc.Calling?)
       case Opened => OpenedOk(c, i, n, pc)
       case Refused => c.res == Ok && FailedOk(c, last, pc)
       case Threw(msg) => c.res == Fatal(msg) && FailedOk(c, last, pc)
  }

  predicate OpenedOk(c: Context, i: nat, n: nat, pc: MainPc) {
    && !c.pc.Absent? && c.threaded == (n > 1)
    && (c.finished <==> c.pc.Releasing? || c.pc.Writing? || c.pc.Exited?)
    && (c.released <==> c.pc.Writing? || c.pc.Exited?)
    && (c.pc.Exited? ==> c.res == c.result)
    && (c.joined || Collecting(pc, i) ==> c.pc.Exited?)
    && (c.threaded ==> (c.joinable <==> !c.joined && !Collecting(pc, i)))
    && (!c.threaded && !c.pc.Exited? ==> pc.Serving?)
  }

  predicate FailedOk(c: Context, last: bool, pc: MainPc) {
    && c.pc.Absent? && !c.threaded && last
    && !(pc.Opening? || pc.Acquiring? || pc.Calling? || pc.Serving?)
    && (c.finished <==> !pc.FailFinish?) && (c.released <==> !pc.FailFinish? && !pc.FailRelease?)
  }

  predicate ContextsOk(s: State) {
    forall i | 0 <= i < |s.ctxs| :: ContextOk(s.ctxs[i], i, i == |s.ctxs| - 1, s.n, s.pc)
  }

  predicate MainOk(s: State) {
    && |s.ctxs| <= s.n && !s.pc.Crashed?
    && (s.pc.Acquiring? || s.pc.Calling? ==> s.ctxs != [] && Last(s).fate.Pending?)
    && (s.pc.FailFinish? || s.pc.FailRelease? ==> s.ctxs != [] && FailureFate(Last(s).fate))
    && (s.pc.Serving? ==> s.n == 1 && s.ctxs != [] && Last(s).fate.Opened?)
    && (OpenPhase(s.pc) ==> s.stopped == s.waits == 0 && s.order == [])
    && (!OpenPhase(s.pc) ==> |s.ctxs| == s.n || (s.ctxs != [] && FailureFate(Last(s).fate)))
    && (s.pc.Joining? ==> s.pc.k < |s.ctxs| && s.ctxs[s.pc.k].finished && !s.ctxs[s.pc.k].joined)
    && (s.pc.Merging? || s.pc.Marking? ==> s.pc.k < |s.ctxs| && s.ctxs[s.pc.k].finished && !s.ctxs[s.pc.k].joined)
    && (s.pc.Scanning? ==> s.pc.k <= |s.ctxs|)
    && (s.pc.Waiting? ==> s.stopped < |s.ctxs| && (!s.res.success ==> s.forced))
    && (s.pc.Done? ==> s.stopped >= |s.ctxs|)
    && (s.base.success <==> forall i | 0 <= i < |s.ctxs| :: !s.ctxs[i].fate.Refused?)
  }

  /** The semaphore holds the permits of the sources never opened, plus one per release, minus one per wait. */
  ghost predicate PermitsOk(s: State) {
    && s.count == s.n - (|s.ctxs| - (if s.pc.Acquiring? then 1 else 0)) + Sum(s.ctxs, ReleasedOf) - s.waits
    && s.count >= 0
  }

  ghost predicate ResultOk(s: State) {
    && s.stopped == Sum(s.ctxs, JoinedOf)
    && (forall i | 0 <= i < |s.order| ::
         s.order[i] < |s.ctxs| && (s.ctxs[s.order[i]].joined || s.pc == Marking(s.order[i])))
    && (forall k | 0 <= k < |s.ctxs| && (s.ctxs[k].joined || s.pc == Marking(k)) :: k in s.order)
    && (forall i, k | 0 <= i < k < |s.order| :: s.order[i] != s.order[k])
    && s.res == MergeAll(s.base, s.ctxs, s.order)
  }

  /** How far the current scan has come. */
  function Passed(s: State): nat {
    match s.pc
    case Scanning(k) => k
    case Joining(k) => k
    case Merging(k) => k
    case Marking(k) => k
    case Checking => |s.ctxs|
    case _ => 0
  }

  /** After as many waits as there are sources every context has been released, so the scan joins all of them. */
  predicate LastScanOk(s: State) {
    !OpenPhase(s.pc) && !s.pc.Done? && s.waits >= s.n ==>
      && (forall i | 0 <= i < |s.ctxs| :: s.ctxs[i].released)
      && (forall i | 0 <= i < |s.ctxs| && i < Passed(s) :: s.ctxs[i].joined)
      && (s.pc.Waiting? ==> false)
  }

  ghost predicate Inv(s: State) {
    ContextsOk(s) && MainOk(s) && PermitsOk(s) && ResultOk(s) && LastScanOk(s)
  }

  lemma InitInv(n: nat)
    ensures Inv(Init(n))
  {
  }

  // ----- Every step keeps the invariant

  /** `c'` is a later version of `c`, with the same fate and the same contribution to the result. */
  predicate Later(c: Context, c': Context, marking: bool) {
    && c'.fate == c.fate && c'.joined == c.joined
    && (c.joined || marking ==> Outcome(c') == Outcome(c))
    && (c.finished ==> c'.finished) && (c.released ==> c'.released)
  }

  lemma SumsAfterChange(s: State, i: nat, c': Context)
    requires i < |s.ctxs|
    ensures var ctxs' := s.ctxs[i := c'];
            && Sum(ctxs', ReleasedOf) == Sum(s.ctxs, ReleasedOf) - ReleasedOf(s.ctxs[i]) + ReleasedOf(c')
            && Sum(ctxs', JoinedOf) == Sum(s.ctxs, JoinedOf) - JoinedOf(s.ctxs[i]) + JoinedOf(c')
  {
    SumUpdate(s.ctxs, ReleasedOf, i, c');
    SumUpdate(s.ctxs, JoinedOf, i, c');
  }

  /** A step of one worker keeps the result part. */
  lemma ChangeKeepsResult(s: State, i: nat, c': Context, d: int)
    requires ResultOk(s) && i < |s.ctxs| && Later(s.ctxs[i], c', s.pc == Marking(i))
    ensures ResultOk(s.(ctxs := s.ctxs[i := c'], count := s.count + d))
  {
    hide Sum, Outcome, MergeAll;
    SumsAfterChange(s, i, c');
    MergeAllFrame(s.base, s.ctxs, s.ctxs[i := c'], s.order);
  }

  lemma ChangeKeepsMain(s: State, i: nat, c': Context, d: int)
    requires MainOk(s) && LastScanOk(s) && i < |s.ctxs| && Later(s.ctxs[i], c', s.pc == Marking(i))
    ensures var t := s.(ctxs := s.ctxs[i := c'], count := s.count + d); MainOk(t) && LastScanOk(t)
  {
    hide Outcome;
    var t := s.(ctxs := s.ctxs[i := c'], count := s.count + d);
    assert forall j | 0 <= j < |s.ctxs| :: t.ctxs[j].fate == s.ctxs[j].fate;
  }

  lemma ChangeKeepsPermits(s: State, i: nat, c': Context)
    requires PermitsOk(s) && i < |s.ctxs| && (s.ctxs[i].released ==> c'.released)
    ensures PermitsOk(s.(ctxs := s.ctxs[i := c'], count := s.count + ReleasedOf(c') - ReleasedOf(s.ctxs[i])))
  {
    hide Sum;
    SumsAfterChange(s, i, c');
  }

  lemma ChangeKeepsContexts(s: State, i: nat, c': Context, d: int)
    requires ContextsOk(s) && i < |s.ctxs| && ContextOk(c', i, i == |s.ctxs| - 1, s.n, s.pc)
    ensures ContextsOk(s.(ctxs := s.ctxs[i := c'], count := s.count + d))
  {
    hide ContextOk;
  }

  lemma ChangeKeepsInv(s: State, i: nat, c': Context)
    requires Inv(s) && i < |s.ctxs| && ContextOk(c', i, i == |s.ctxs| - 1, s.n, s.pc)
    requires Later(s.ctxs[i], c', s.pc == Marking(i))
    ensures Inv(s.(ctxs := s.ctxs[i := c'], count := s.count + ReleasedOf(c') - ReleasedOf(s.ctxs[i])))
  {
    hide ContextsOk, ResultOk, MainOk, LastScanOk, PermitsOk, ContextOk, ReleasedOf, Outcome;
    var d := ReleasedOf(c') - ReleasedOf(s.ctxs[i]);
    ChangeKeepsContexts(s, i, c', d);
    ChangeKeepsResult(s, i, c', d);
    ChangeKeepsMain(s, i, c', d);
    ChangeKeepsPermits(s, i, c');
    assert s.count + d == s.count + ReleasedOf(c') - ReleasedOf(s.ctxs[i]);
  }

  lemma ContextIsOk(s: State, i: nat)
    requires Inv(s) && i < |s.ctxs|
    ensures ContextOk(s.ctxs[i], i, i == |s.ctxs| - 1, s.n, s.pc)
  {
    hide ContextOk, ResultOk, MainOk, LastScanOk, PermitsOk;
  }

  lemma AdvanceOk(c: Context, i: nat, last: bool, n: nat, pc: MainPc)
    requires ContextOk(c, i, last, n, pc) && (c.pc.Finishing? || c.pc.Releasing? || c.pc.Writing?)
    ensures ContextOk(Advance(c), i, last, n, pc) && Later(c, Advance(c), pc == Marking(i))
    ensures ReleasedOf(Advance(c)) - ReleasedOf(c) == if c.pc.Releasing? then 1 else 0
  {
  }

  lemma InspectedOk(c: Context, i: nat, last: bool, n: nat, pc: MainPc, r: RunResult)
    requires ContextOk(c, i, last, n, pc) && c.pc.Inspecting?
    ensures var c' := c.(result := r, pc := Finishing);
            ContextOk(c', i, last, n, pc) && Later(c, c', pc == Marking(i)) && ReleasedOf(c') == ReleasedOf(c)
  {
  }

  lemma WorkerKeepsInv(s: State, a: Action)
    requires Inv(s) && Enabled(s, a) && (a.Inspected? || a.Worker?)
    ensures Inv(Step(s, a))
  {
    hide ContextOk, Inv, Later, Advance, MainEnabled, ReleasedOf, MainStep;
    var i := a.i;
    var c := s.ctxs[i];
    ContextIsOk(s, i);
    if a.Worker? {
      AdvanceOk(c, i, i == |s.ctxs| - 1, s.n, s.pc);
      ChangeKeepsInv(s, i, Advance(c));
    } else {
      InspectedOk(c, i, i == |s.ctxs| - 1, s.n, s.pc, a.r);
      ChangeKeepsInv(s, i, c.(result := a.r, pc := Finishing));
    }
  }

  // ----- Steps of the opening loop

  lemma OpenedMoves(c: Context, i: nat, last: bool, last': bool, n: nat, pc: MainPc, pc': MainPc)
    requires ContextOk(c, i, last, n, pc) && c.fate.Opened? && OpenPhase(pc) && !Collecting(pc', i)
    requires pc.Serving? && !pc'.Serving? ==> c.pc.Exited?
    ensures ContextOk(c, i, last', n, pc')
  {
  }

  /** While sources are being opened, all contexts but the last are opened ones. */
  lemma OthersOpened(s: State, i: nat)
    requires Inv(s) && OpenPhase(s.pc) && i < |s.ctxs|
    ensures i < |s.ctxs| - 1 || s.pc.Opening? || s.pc.Serving? ==> s.ctxs[i].fate.Opened?
  {
    ContextIsOk(s, i);
  }

  /** The opening loop moves on to `pc'` and replaces the last context. */
  lemma OpeningContexts(s: State, t: State)
    requires Inv(s) && OpenPhase(s.pc) && s.ctxs != [] && (s.pc.Serving? ==> Last(s).pc.Exited?)
    requires t.n == s.n && t.ctxs != [] && t.ctxs == s.ctxs[|s.ctxs| - 1 := Last(t)] && (OpenPhase(t.pc) || t.pc.Checking?)
    requires ContextOk(Last(t), |s.ctxs| - 1, true, s.n, t.pc)
    ensures ContextsOk(t)
  {
    hide Inv, ContextOk;
    forall i | 0 <= i < |t.ctxs| - 1
      ensures ContextOk(t.ctxs[i], i, false, t.n, t.pc)
    {
      ContextIsOk(s, i);
      OthersOpened(s, i);
      SingleWhileServing(s);
      OpenedMoves(s.ctxs[i], i, false, false, s.n, s.pc, t.pc);
    }
  }

  lemma SingleWhileServing(s: State)
    requires Inv(s)
    ensures s.pc.Serving? ==> |s.ctxs| == 1
  {
    hide ContextsOk, ResultOk, LastScanOk, PermitsOk;
  }

  /** The parts of the invariant other than the contexts, for a step that replaces the last context. */
  lemma OpeningRest(s: State, t: State)
    requires Inv(s) && OpenPhase(s.pc) && s.ctxs != [] && t.ctxs != [] && !Last(s).joined && !Last(t).joined
    requires t == s.(ctxs := t.ctxs, count := t.count, res := t.res, base := t.base, pc := t.pc)
    requires t.ctxs == s.ctxs[|s.ctxs| - 1 := Last(t)] && t.res == t.base && !t.pc.Acquiring?
    requires t.count == s.count + ReleasedOf(Last(t)) - ReleasedOf(Last(s)) - (if s.pc.Acquiring? then 1 else 0) && t.count >= 0
    requires OpenPhase(t.pc) || t.pc.Checking?
    ensures PermitsOk(t) && ResultOk(t)
  {
    hide ContextsOk, MainOk, LastScanOk, Sum;
    SumsAfterChange(s, |s.ctxs| - 1, Last(t));
    NothingJoined(s);
    assert t.order == [];
  }

  lemma NothingJoined(s: State)
    requires Inv(s) && OpenPhase(s.pc)
    ensures s.order == [] && s.waits == 0 && s.stopped == 0 && s.res == s.base
    ensures forall i | 0 <= i < |s.ctxs| :: !s.ctxs[i].joined
  {
    hide LastScanOk, PermitsOk, Sum;
    assert s.order == [];
  }

  /** What MainOk asks once the opening loop stands at `t`. */
  lemma OpeningMain(s: State, t: State)
    requires Inv(s) && OpenPhase(s.pc) && s.ctxs != [] && t.ctxs != []
    requires t == s.(ctxs := t.ctxs, count := t.count, res := t.res, base := t.base, pc := t.pc)
    requires t.ctxs == s.ctxs[|s.ctxs| - 1 := Last(t)]
    requires t.base.success <==> !Last(t).fate.Refused?
    requires t.pc.Calling? ==> Last(t).fate.Pending?
    requires t.pc.FailFinish? || t.pc.FailRelease? || t.pc.Checking? ==> FailureFate(Last(t).fate)
    requires t.pc.Serving? ==> s.n == 1 && Last(t).fate.Opened?
    requires (OpenPhase(t.pc) && !t.pc.Acquiring?) || t.pc.Checking?
    ensures MainOk(t)
  {
    hide ContextsOk, ResultOk, LastScanOk, PermitsOk, ContextOk;
    forall i | 0 <= i < |s.ctxs| - 1
      ensures !t.ctxs[i].fate.Refused?
    {
      OthersOpened(s, i);
    }
  }

  lemma LastScanInOpening(s: State, t: State)
    requires Inv(s) && t.waits == 0 && t.n == s.n && t.ctxs != [] && |t.ctxs| <= s.n
    ensures LastScanOk(t)
  {
    hide ContextsOk, ResultOk, MainOk, PermitsOk;
  }

  lemma AcquireKeepsInv(s: State)
    requires Inv(s) && MainEnabled(s) && s.pc.Acquiring?
    ensures Inv(MainStep(s))
  {
    hide ContextsOk, ResultOk, MainOk, PermitsOk, LastScanOk, Inv;
    var t := MainStep(s);
    LastContext(s);
    NothingJoined(s);
    OpeningContexts(s, t);
    OpeningRest(s, t);
    OpeningMain(s, t);
    LastScanInOpening(s, t);
    InvFromParts(t);
  }

  lemma InvFromParts(s: State)
    requires ContextsOk(s) && MainOk(s) && PermitsOk(s) && ResultOk(s) && LastScanOk(s)
    ensures Inv(s)
  {
    hide ContextsOk, ResultOk, MainOk, PermitsOk, LastScanOk;
  }

  lemma LastContext(s: State)
    requires Inv(s) && (s.pc.Acquiring? || s.pc.Calling? || s.pc.FailFinish? || s.pc.FailRelease? || s.pc.Serving?)
    ensures s.ctxs != [] && |s.ctxs| <= s.n && s.count >= 0 && ContextOk(Last(s), |s.ctxs| - 1, true, s.n, s.pc)
    ensures s.pc.Acquiring? || s.pc.Calling? ==> Last(s).fate.Pending?
    ensures s.pc.FailFinish? || s.pc.FailRelease? ==> FailureFate(Last(s).fate)
    ensures s.pc.Serving? ==> Last(s).fate.Opened?
    ensures s.base.success <==> !Last(s).fate.Refused?
  {
    ContextIsOk(s, |s.ctxs| - 1);
    forall i | 0 <= i < |s.ctxs| - 1
      ensures !s.ctxs[i].fate.Refused?
    {
      OthersOpened(s, i);
    }
    hide ContextsOk, ResultOk, LastScanOk;
  }

  lemma CallKeepsInv(s: State, a: Action)
    requires Inv(s) && Enabled(s, a) && s.pc.Calling? && !a.Inspected? && !a.Worker?
    ensures Inv(Step(s, a))
  {
    hide ContextsOk, ResultOk, MainOk, PermitsOk, LastScanOk, Inv, MainStep, WorkerStep, Merge;
    var t := Step(s, a);
    LastContext(s);
    NothingJoined(s);
    OpeningContexts(s, t);
    OpeningRest(s, t);
    OpeningMain(s, t);
    LastScanInOpening(s, t);
    InvFromParts(t);
  }

  lemma FailKeepsInv(s: State)
    requires Inv(s) && (s.pc.FailFinish? || s.pc.FailRelease?)
    ensures MainEnabled(s) && Inv(MainStep(s))
  {
    hide ContextsOk, ResultOk, MainOk, PermitsOk, LastScanOk, Inv;
    LastContext(s);
    var t := MainStep(s);
    NothingJoined(s);
    OpeningContexts(s, t);
    OpeningRest(s, t);
    OpeningMain(s, t);
    LastScanInOpening(s, t);
    InvFromParts(t);
  }

  lemma ServedKeepsInv(s: State)
    requires Inv(s) && MainEnabled(s) && s.pc.Serving?
    ensures Inv(MainStep(s))
  {
    hide ContextsOk, ResultOk, MainOk, PermitsOk, LastScanOk, Inv;
    LastContext(s);
    var t := MainStep(s);
    NothingJoined(s);
    SingleWhileServing(s);
    OpenedMoves(Last(s), |s.ctxs| - 1, true, true, s.n, s.pc, t.pc);
    OpeningContexts(s, t);
    OpeningRest(s, t);
    OpeningMain(s, t);
    LastScanInOpening(s, t);
    InvFromParts(t);
  }

  lemma OpeningContextsAll(s: State, t: State)
    requires Inv(s) && s.pc.Opening? && t.n == s.n
    requires || (t.pc.Acquiring? && t.ctxs == s.ctxs + [Fresh])
             || (t.pc.Checking? && t.ctxs == s.ctxs)
    ensures ContextsOk(t)
  {
    hide Inv, ContextOk;
    forall i | 0 <= i < |s.ctxs|
      ensures ContextOk(t.ctxs[i], i, i == |t.ctxs| - 1, t.n, t.pc)
    {
      ContextIsOk(s, i);
      OthersOpened(s, i);
      OpenedMoves(s.ctxs[i], i, i == |s.ctxs| - 1, i == |t.ctxs| - 1, s.n, s.pc, t.pc);
    }
    FreshOk(|s.ctxs|, s.n);
  }

  lemma FreshOk(i: nat, n: nat)
    ensures ContextOk(Fresh, i, true, n, Acquiring)
  {
  }

  lemma OpeningKeepsInv(s: State)
    requires Inv(s) && s.pc.Opening?
    ensures Inv(MainStep(s))
  {
    hide ContextsOk, Sum, ContextOk;
    var t := MainStep(s);
    OpeningContextsAll(s, t);
    NothingJoined(s);
    SumAppend(s.ctxs, ReleasedOf, Fresh);
    SumAppend(s.ctxs, JoinedOf, Fresh);
    SumAtMost(s.ctxs, ReleasedOf);
    assert forall i | 0 <= i < |s.ctxs| :: t.ctxs[i] == s.ctxs[i];
    assert t.order == [];
  }

  // ----- Steps of the termination loop

  lemma LoopMoves(c: Context, i: nat, last: bool, n: nat, pc: MainPc, pc': MainPc)
    requires ContextOk(c, i, last, n, pc) && !OpenPhase(pc) && !OpenPhase(pc') && Collecting(pc, i) == Collecting(pc', i)
    ensures ContextOk(c, i, last, n, pc')
  {
  }

  /** A step of the loop that touches no context. */
  lemma LoopContexts(s: State, t: State)
    requires Inv(s) && !OpenPhase(s.pc) && !OpenPhase(t.pc) && t.n == s.n && t.ctxs == s.ctxs
    requires forall i | 0 <= i < |s.ctxs| :: Collecting(s.pc, i) == Collecting(t.pc, i)
    ensures ContextsOk(t)
  {
    hide Inv, ContextOk;
    forall i | 0 <= i < |s.ctxs|
      ensures ContextOk(t.ctxs[i], i, i == |t.ctxs| - 1, t.n, t.pc)
    {
      ContextIsOk(s, i);
      LoopMoves(s.ctxs[i], i, i == |s.ctxs| - 1, s.n, s.pc, t.pc);
    }
  }

  lemma CheckKeepsInv(s: State)
    requires Inv(s) && s.pc.Checking?
    ensures Inv(MainStep(s))
  {
    hide ContextsOk, ContextOk, Sum, MergeAll;
    LoopContexts(s, MainStep(s));
    SumAtMost(s.ctxs, JoinedOf);
  }

  lemma WaitKeepsInv(s: State)
    requires Inv(s) && MainEnabled(s) && s.pc.Waiting?
    ensures Inv(MainStep(s))
  {
    hide ContextsOk, ContextOk, Sum, MergeAll;
    LoopContexts(s, MainStep(s));
    SumAtMost(s.ctxs, ReleasedOf);
  }

  lemma ScanResult(s: State)
    requires Inv(s) && s.pc.Scanning?
    ensures MainEnabled(s) && PermitsOk(MainStep(s)) && ResultOk(MainStep(s))
  {
    hide ContextsOk, ContextOk, LastScanOk, Sum, MergeAll;
  }

  lemma ScanKeepsInv(s: State)
    requires Inv(s) && s.pc.Scanning?
    ensures MainEnabled(s) && Inv(MainStep(s))
  {
    hide ContextsOk, ContextOk, PermitsOk, ResultOk;
    ScanResult(s);
    LoopContexts(s, MainStep(s));
    if s.pc.k < |s.ctxs| {
      ReleasedIsFinished(s, s.pc.k);
    }
  }

  lemma ReleasedIsFinished(s: State, i: nat)
    requires Inv(s) && i < |s.ctxs|
    ensures s.ctxs[i].released ==> s.ctxs[i].finished
  {
    ContextIsOk(s, i);
  }

  /** Taking the thread: it has exited, so it never finds it already taken. */
  lemma TakeOk(c: Context, i: nat, last: bool, n: nat)
    requires ContextOk(c, i, last, n, Joining(i)) && !c.joined && (c.threaded && c.joinable ==> c.pc.Exited?)
    ensures !(c.threaded && !c.joinable)
    ensures ContextOk(c.(joinable := false), i, last, n, Merging(i))
  {
  }

  lemma JoinContexts(s: State)
    requires Inv(s) && MainEnabled(s) && s.pc.Joining?
    ensures var t := MainStep(s); ContextsOk(t) && t.pc == Merging(s.pc.k)
  {
    hide ContextOk, MainOk, ResultOk, LastScanOk, PermitsOk, Inv;
    var t, k := MainStep(s), s.pc.k;
    ContextIsOk(s, k);
    JoinTarget(s);
    TakeOk(s.ctxs[k], k, k == |s.ctxs| - 1, s.n);
    forall i | 0 <= i < |s.ctxs|
      ensures ContextOk(t.ctxs[i], i, i == |t.ctxs| - 1, t.n, t.pc)
    {
      if i != k {
        ContextIsOk(s, i);
        LoopMoves(s.ctxs[i], i, i == |s.ctxs| - 1, s.n, s.pc, t.pc);
      }
    }
  }

  lemma JoinTarget(s: State)
    requires Inv(s) && (s.pc.Joining? || s.pc.Merging? || s.pc.Marking?)
    ensures s.pc.k < |s.ctxs| && s.ctxs[s.pc.k].finished && !s.ctxs[s.pc.k].joined
  {
    hide ContextsOk, ResultOk, LastScanOk, PermitsOk;
  }

  lemma JoinResult(s: State)
    requires Inv(s) && MainEnabled(s) && s.pc.Joining?
    ensures PermitsOk(MainStep(s)) && ResultOk(MainStep(s))
  {
    hide ContextsOk, MainOk, LastScanOk, ContextOk, Sum, Outcome;
    var t, k := MainStep(s), s.pc.k;
    JoinContexts(s);
    JoinTarget(s);
    SumsAfterChange(s, k, s.ctxs[k].(joinable := false));
    OutcomeOfTaken(s.ctxs[k]);
    MergeAllFrame(s.base, s.ctxs, t.ctxs, s.order);
  }

  lemma JoinKeepsInv(s: State)
    requires Inv(s) && MainEnabled(s) && s.pc.Joining?
    ensures Inv(MainStep(s))
  {
    hide ContextsOk, ContextOk, PermitsOk, ResultOk;
    var t := MainStep(s);
    JoinContexts(s);
    JoinResult(s);
    assert forall i | 0 <= i < |s.ctxs| :: t.ctxs[i].fate == s.ctxs[i].fate;
  }

  lemma OutcomeOfTaken(c: Context)
    ensures Outcome(c.(joinable := false)) == Outcome(c)
    ensures Outcome(c.(joined := true, joins := c.joins + 1)) == Outcome(c)
  {
  }

  /** What is merged is the final result of the context. */
  lemma MergedIsFinal(s: State)
    requires Inv(s) && s.pc.Merging?
    ensures s.pc.k < |s.ctxs| && s.ctxs[s.pc.k].res == Outcome(s.ctxs[s.pc.k])
  {
    JoinTarget(s);
    ContextIsOk(s, s.pc.k);
  }

  lemma MergeResult(s: State)
    requires Inv(s) && s.pc.Merging?
    ensures MainEnabled(s) && ResultOk(MainStep(s))
  {
    hide ContextsOk, ContextOk, MainOk, LastScanOk, PermitsOk, Sum, Outcome, Merge;
    JoinTarget(s);
    MergedIsFinal(s);
    var t, k := MainStep(s), s.pc.k;
    assert t.order[..|s.order|] == s.order && t.order[|s.order|] == k;
    forall j | 0 <= j < |s.ctxs| && (s.ctxs[j].joined || t.pc == Marking(j))
      ensures j in t.order
    {
      if j != k { assert j in s.order; }
    }
  }

  lemma MergeKeepsInv(s: State)
    requires Inv(s) && s.pc.Merging?
    ensures MainEnabled(s) && Inv(MainStep(s))
  {
    hide ContextsOk, ContextOk, ResultOk, Sum, Outcome, Merge;
    JoinTarget(s);
    MergeResult(s);
    LoopContexts(s, MainStep(s));
  }

  lemma MarkOk(c: Context, i: nat, last: bool, n: nat)
    requires ContextOk(c, i, last, n, Marking(i)) && c.finished && !c.joined
    ensures ContextOk(c.(joined := true, joins := c.joins + 1), i, last, n, Scanning(i + 1))
  {
  }

  lemma MarkContexts(s: State)
    requires Inv(s) && s.pc.Marking?
    ensures MainEnabled(s) && ContextsOk(MainStep(s)) && MainStep(s).pc == Scanning(s.pc.k + 1)
  {
    hide ContextOk, MainOk, ResultOk, LastScanOk, PermitsOk, Inv;
    JoinTarget(s);
    var t, k := MainStep(s), s.pc.k;
    ContextIsOk(s, k);
    MarkOk(s.ctxs[k], k, k == |s.ctxs| - 1, s.n);
    forall i | 0 <= i < |s.ctxs|
      ensures ContextOk(t.ctxs[i], i, i == |t.ctxs| - 1, t.n, t.pc)
    {
      if i != k {
        ContextIsOk(s, i);
        LoopMoves(s.ctxs[i], i, i == |s.ctxs| - 1, s.n, s.pc, t.pc);
      }
    }
  }

  lemma MarkResult(s: State)
    requires Inv(s) && s.pc.Marking?
    ensures MainEnabled(s) && PermitsOk(MainStep(s)) && ResultOk(MainStep(s))
  {
    hide ContextsOk, MainOk, LastScanOk, ContextOk, Sum, Outcome;
    MarkContexts(s);
    var t, k := MainStep(s), s.pc.k;
    JoinTarget(s);
    var c := s.ctxs[k];
    SumsAfterChange(s, k, c.(joined := true, joins := c.joins + 1));
    OutcomeOfTaken(c);
    MergeAllFrame(s.base, s.ctxs, t.ctxs, s.order);
  }

  lemma MarkKeepsInv(s: State)
    requires Inv(s) && s.pc.Marking?
    ensures MainEnabled(s) && Inv(MainStep(s))
  {
    hide ContextsOk, ContextOk, PermitsOk, ResultOk;
    MarkContexts(s);
    MarkResult(s);
    var t := MainStep(s);
    assert forall i | 0 <= i < |s.ctxs| :: t.ctxs[i].fate == s.ctxs[i].fate;
  }

  lemma StepKeepsInv(s: State, a: Action)
    requires Inv(s) && Enabled(s, a)
    ensures Inv(Step(s, a))
  {
    hide Inv, MainStep, WorkerStep;
    if a.Inspected? || a.Worker? {
      WorkerKeepsInv(s, a);
    } else {
      match s.pc
      case Calling => CallKeepsInv(s, a);
      case Opening => OpeningKeepsInv(s);
      case Acquiring => AcquireKeepsInv(s);
      case FailFinish => FailKeepsInv(s);
      case FailRelease => FailKeepsInv(s);
      case Serving => ServedKeepsInv(s);
      case Checking => CheckKeepsInv(s);
      case Waiting => WaitKeepsInv(s);
      case Scanning(_) => ScanKeepsInv(s);
      case Joining(_) => JoinKeepsInv(s);
      case Merging(_) => MergeKeepsInv(s);
      case Marking(_) => MarkKeepsInv(s);
    }
  }

  lemma {:induction false} RunKeepsInv(s: State, acts: seq<Action>, t: State)
    requires Inv(s) && Runs(s, acts, t)
    ensures Inv(t)
    decreases acts
  {
    hide Inv, Step, Enabled;
    if acts != [] {
      StepKeepsInv(s, acts[0]);
      RunKeepsInv(Step(s, acts[0]), acts[1..], t);
    }
  }

  // ----- What every run guarantees

  /** In every reachable state: nothing throws, no context is finished or joined twice, and a result is merged only
      when it is the final one of its context. */
  lemma RunIsSafe(n: nat, acts: seq<Action>, s: State)
    requires Runs(Init(n), acts, s)
    ensures !s.pc.Crashed?
    ensures forall i | 0 <= i < |s.ctxs| :: s.ctxs[i].finishes <= 1 && s.ctxs[i].joins <= 1
    ensures forall i | 0 <= i < |s.ctxs| && s.ctxs[i].pc.Finishing? :: !s.ctxs[i].finished
    ensures s.pc.Merging? ==> s.pc.k < |s.ctxs| && s.ctxs[s.pc.k].res == Outcome(s.ctxs[s.pc.k])
    ensures s.pc.Waiting? && !s.res.success ==> s.forced
    ensures s.forced ==> !s.res.success
  {
    hide Runs;
    RunKeepsForced(Init(n), acts, s);
    InitInv(n);
    RunKeepsInv(Init(n), acts, s);
    if s.pc.Merging? { MergedIsFinal(s); }
    forall i | 0 <= i < |s.ctxs|
      ensures s.ctxs[i].finishes <= 1 && s.ctxs[i].joins <= 1 && (s.ctxs[i].pc.Finishing? ==> !s.ctxs[i].finished)
    {
      ContextIsOk(s, i);
    }
  }

  /** Termination is forced only because of an error. */
  predicate ForcedOk(s: State) {
    s.forced ==> !s.res.success && !OpenPhase(s.pc)
  }

  lemma StepKeepsForced(s: State, a: Action)
    requires Enabled(s, a) && ForcedOk(s)
    ensures ForcedOk(Step(s, a))
  {
  }

  lemma {:induction false} RunKeepsForced(s: State, acts: seq<Action>, t: State)
    requires Runs(s, acts, t) && ForcedOk(s)
    ensures ForcedOk(t)
    decreases acts
  {
    hide Enabled, Step, ForcedOk;
    if acts != [] {
      StepKeepsForced(s, acts[0]);
      RunKeepsForced(Step(s, acts[0]), acts[1..], t);
    }
  }

  /** A worker that still has a release to make. */
  predicate OwesRelease(s: State, i: nat) {
    i < |s.ctxs| && (s.ctxs[i].pc.Inspecting? || s.ctxs[i].pc.Finishing? || s.ctxs[i].pc.Releasing?)
  }

  /** The main thread never blocks on the semaphore while opening, and in the termination loop only while some worker
      still has a release to make. */
  lemma WaitsForAWorker(n: nat, acts: seq<Action>, s: State)
    requires Runs(Init(n), acts, s) && s.count == 0
    ensures !s.pc.Acquiring?
    ensures s.pc.Waiting? ==> exists i :: OwesRelease(s, i)
  {
    hide Runs;
    InitInv(n);
    RunKeepsInv(Init(n), acts, s);
    SomeoneOwes(s);
  }

  lemma SomeoneOwes(s: State)
    requires Inv(s) && s.count == 0
    ensures !s.pc.Acquiring?
    ensures s.pc.Waiting? ==> exists i :: OwesRelease(s, i)
  {
    hide Sum, ContextOk, ContextsOk, ResultOk;
    SumAtMost(s.ctxs, ReleasedOf);
    if s.pc.Waiting? {
      var i :| 0 <= i < |s.ctxs| && ReleasedOf(s.ctxs[i]) != 1;
      ContextIsOk(s, i);
      Owes(s.ctxs[i], i, i == |s.ctxs| - 1, s.n);
      assert OwesRelease(s, i);
    }
  }

  lemma Owes(c: Context, i: nat, last: bool, n: nat)
    requires ContextOk(c, i, last, n, Waiting) && !c.released
    ensures c.pc.Inspecting? || c.pc.Finishing? || c.pc.Releasing?
  {
  }

  /** No deadlock: until the main thread is done, some step can be taken. */
  lemma NeverStuck(n: nat, acts: seq<Action>, s: State) returns (a: Action)
    requires Runs(Init(n), acts, s) && !s.pc.Done?
    ensures Enabled(s, a)
  {
    hide Runs;
    InitInv(n);
    RunKeepsInv(Init(n), acts, s);
    if Enabled(s, Main) {
      a := Main;
    } else if s.pc.Calling? {
      LastContext(s);
      a := OpenReturns(Ok);
    } else {
      var i := BlockedOn(s);
      a := if s.ctxs[i].pc.Inspecting? then Inspected(i, Ok) else Worker(i);
    }
  }

  lemma BlockedOn(s: State) returns (i: nat)
    requires Inv(s) && !s.pc.Done? && !s.pc.Calling? && !MainEnabled(s)
    ensures i < |s.ctxs| && !s.ctxs[i].pc.Absent? && !s.ctxs[i].pc.Exited?
  {
    hide ContextOk, ContextsOk, ResultOk, Sum, LastScanOk;
    i := 0;
    if s.pc.Waiting? || s.pc.Acquiring? {
      SomeoneOwes(s);
      i :| OwesRelease(s, i);
    } else if s.pc.Serving? {
      i := |s.ctxs| - 1;
      LastContext(s);
      ServingOk(Last(s), i, s.n);
    } else if s.pc.Joining? {
      i := s.pc.k;
      ContextIsOk(s, i);
      ThreadOk(s.ctxs[i], i, i == |s.ctxs| - 1, s.n, s.pc);
    } else {
      assert false;
    }
  }

  lemma ServingOk(c: Context, i: nat, n: nat)
    requires ContextOk(c, i, true, n, Serving) && c.fate.Opened?
    ensures !c.pc.Absent?
  {
  }

  lemma ThreadOk(c: Context, i: nat, last: bool, n: nat, pc: MainPc)
    requires ContextOk(c, i, last, n, pc) && pc.Joining?
    ensures c.threaded ==> !c.pc.Absent?
  {
  }

  // ----- Every run ends

  function WorkerRank(c: Context): nat {
    match c.pc
    case Inspecting => 4
    case Finishing => 3
    case Releasing => 2
    case Writing => 1
    case Absent => 0
    case Exited => 0
  }

  /** The steps left for `waits` more turns of the loop, each with `turn` steps at most. */
  function Budget(waits: nat, turn: nat): nat {
    if waits == 0 then 0 else turn + Budget(waits - 1, turn)
  }

  function MainRank(s: State): int {
    var turn := 4 * s.n + 3;
    var opening := 10 * (s.n - |s.ctxs|) + Budget(s.n, turn);
    var loop := Budget(if s.waits <= s.n then s.n - s.waits else 0, turn);
    match s.pc
    case Opening => opening + 6
    case Acquiring => opening + 15
    case Calling => opening + 14
    case Serving => opening + 7
    case FailFinish => opening + 8
    case FailRelease => opening + 7
    case Checking => loop + 2
    case Waiting => loop + 1
    case Scanning(k) => loop + 4 * (|s.ctxs| - k) + 3
    case Joining(k) => loop + 4 * (|s.ctxs| - k) + 2
    case Merging(k) => loop + 4 * (|s.ctxs| - k) + 1
    case Marking(k) => loop + 4 * (|s.ctxs| - k)
    case Done => 0
    case Crashed => 0
  }

  ghost function Rank(s: State): int { MainRank(s) + Sum(s.ctxs, WorkerRank) }

  lemma RankNonNegative(s: State)
    requires Inv(s)
    ensures Rank(s) >= 0
  {
    hide ContextsOk, ResultOk, LastScanOk, Sum, Budget, PermitsOk;
  }

  lemma AtMostEnabled(s: State)
    requires Inv(s)
    ensures |s.ctxs| <= s.n
  {
    hide ContextsOk, ResultOk, LastScanOk, PermitsOk;
  }

  lemma WaitsLeft(s: State)
    requires Inv(s) && s.pc.Waiting?
    ensures s.waits < s.n
  {
    hide ContextsOk, ResultOk, Sum, PermitsOk;
  }

  lemma StepLowersRank(s: State, a: Action)
    requires Inv(s) && Enabled(s, a)
    ensures Rank(Step(s, a)) < Rank(s)
  {
    hide Inv, Sum, Merge, Budget, MainStep, ContextOk, MainEnabled, MainRank;
    if a.Inspected? {
      SumUpdate(s.ctxs, WorkerRank, a.i, Step(s, a).ctxs[a.i]);
      MainRankFrame(s, Step(s, a));
    } else if a.Worker? {
      SumUpdate(s.ctxs, WorkerRank, a.i, Advance(s.ctxs[a.i]));
      MainRankFrame(s, Step(s, a));
    } else if OpenPhase(s.pc) {
      OpeningLowersRank(s, a);
    } else {
      LoopLowersRank(s);
    }
  }

  lemma MainRankFrame(s: State, t: State)
    requires t.n == s.n && |t.ctxs| == |s.ctxs| && t.waits == s.waits && t.pc == s.pc
    ensures MainRank(t) == MainRank(s)
  {
    hide Budget;
  }

  lemma OpeningLowersRank(s: State, a: Action)
    requires Inv(s) && Enabled(s, a) && OpenPhase(s.pc) && !a.Inspected? && !a.Worker?
    ensures Rank(Step(s, a)) < Rank(s)
  {
    hide Inv, Sum, Budget, Merge, WorkerStep;
    var t := Step(s, a);
    NothingJoined(s);
    AtMostEnabled(s);
    if s.pc.Opening? {
      SumAppend(s.ctxs, WorkerRank, Fresh);
    } else {
      LastContext(s);
      SumUpdate(s.ctxs, WorkerRank, |s.ctxs| - 1, Last(t));
    }
  }

  lemma LoopLowersRank(s: State)
    requires Inv(s) && MainEnabled(s) && !OpenPhase(s.pc)
    ensures Rank(MainStep(s)) < Rank(s)
  {
    hide ContextsOk, ResultOk, LastScanOk, Sum, PermitsOk, Merge;
    if s.pc.Joining? || s.pc.Marking? {
      JoinLowersRank(s);
    } else if s.pc.Waiting? {
      WaitsLeft(s);
    }
  }

  lemma JoinLowersRank(s: State)
    requires Inv(s) && MainEnabled(s) && (s.pc.Joining? || s.pc.Marking?)
    ensures Rank(MainStep(s)) < Rank(s)
  {
    hide ContextsOk, ResultOk, LastScanOk, Sum, PermitsOk, Merge;
    var t := MainStep(s);
    SumUpdate(s.ctxs, WorkerRank, s.pc.k, t.ctxs[s.pc.k]);
  }

  /** Every run is finite: it has at most as many steps as the initial rank says. */
  lemma {:induction false} RunIsBounded(s: State, acts: seq<Action>, t: State)
    requires Inv(s) && Runs(s, acts, t)
    ensures |acts| <= Rank(s)
    decreases acts
  {
    hide Inv, Step, Enabled, Rank;
    if acts == [] {
      RankNonNegative(s);
    } else {
      StepKeepsInv(s, acts[0]);
      StepLowersRank(s, acts[0]);
      RunIsBounded(Step(s, acts[0]), acts[1..], t);
    }
  }

  // ----- What is reported in the end

  /** The lines of a report. */
  function Lines(lines: seq<string>): string {
    if lines == [] then ""
    else if |lines| == 1 then lines[0]
    else Lines(lines[..|lines| - 1]) + "\n" + lines[|lines| - 1]
  }

  function NonEmpty(lines: seq<string>): seq<string> {
    if lines == [] then []
    else NonEmpty(lines[..|lines| - 1]) + (if lines[|lines| - 1] == "" then [] else [lines[|lines| - 1]])
  }

  /** The error a context ends with: that of its worker, or what was thrown while it was opened. */
  function ErrorOf(c: Context): string {
    match c.fate
    case Opened => c.result.errstr
    case Threw(msg) => msg
    case Refused => ""
    case Pending => ""
  }

  /** The errors of the contexts in `order`. */
  function Errors(ctxs: seq<Context>, order: seq<nat>): seq<string>
    requires forall i | 0 <= i < |order| :: order[i] < |ctxs|
  {
    seq(|order|, i requires 0 <= i < |order| => ErrorOf(ctxs[order[i]]))
  }

  lemma {:induction false} NothingToReport(lines: seq<string>)
    ensures forall i | 0 <= i < |NonEmpty(lines)| :: NonEmpty(lines)[i] != ""
    ensures Lines(NonEmpty(lines)) == "" <==> NonEmpty(lines) == []
  {
    if lines != [] { NothingToReport(lines[..|lines| - 1]); }
  }

  lemma NonEmptyNext(lines: seq<string>, line: string)
    ensures NonEmpty(lines + [line]) == NonEmpty(lines) + (if line == "" then [] else [line])
  {
    assert (lines + [line])[..|lines|] == lines;
  }

  lemma LinesNext(lines: seq<string>, line: string)
    ensures Lines(lines + [line]) == if lines == [] then line else Lines(lines) + "\n" + line
  {
    assert (lines + [line])[..|lines|] == lines;
  }

  lemma OneLineMore(lines: seq<string>, line: string)
    ensures var front := Lines(NonEmpty(lines));
            Lines(NonEmpty(lines + [line])) ==
            if line == "" then front else if front == "" then line else front + "\n" + line
  {
    hide Lines, NonEmpty;
    NothingToReport(lines);
    NonEmptyNext(lines, line);
    LinesNext(NonEmpty(lines), line);
    assert NonEmpty(lines) + [] == NonEmpty(lines);
  }

  lemma {:induction false} MergeAllReports(base: RunResult, ctxs: seq<Context>, order: seq<nat>)
    requires forall i | 0 <= i < |order| :: order[i] < |ctxs|
    ensures MergeAll(base, ctxs, order).errstr == Lines(NonEmpty([base.errstr] + Errors(ctxs, order)))
  {
    hide Lines, NonEmpty, ErrorOf, Merge, Outcome;
    if order == [] {
      OneLineMore([], base.errstr);
      NoLines();
      assert [base.errstr] + Errors(ctxs, order) == [] + [base.errstr];
    } else {
      var n := |order| - 1;
      var c := ctxs[order[n]];
      MergeAllReports(base, ctxs, order[..n]);
      OutcomeReports(c);
      MergeReports(MergeAll(base, ctxs, order[..n]), Outcome(c));
      OneLineMore([base.errstr] + Errors(ctxs, order[..n]), ErrorOf(c));
      assert [base.errstr] + Errors(ctxs, order) == [base.errstr] + Errors(ctxs, order[..n]) + [ErrorOf(c)];
    }
  }

  lemma NoLines()
    ensures Lines(NonEmpty([])) == ""
  {
  }

  lemma MergeReports(a: RunResult, b: RunResult)
    ensures Merge(a, b).errstr ==
            if b.errstr == "" then a.errstr else if a.errstr == "" then b.errstr else a.errstr + "\n" + b.errstr
  {
    assert "" + "" + b.errstr == b.errstr;
  }

  lemma {:induction false} MergeAllProceeds(base: RunResult, ctxs: seq<Context>, order: seq<nat>)
    requires forall i | 0 <= i < |order| :: order[i] < |ctxs|
    ensures MergeAll(base, ctxs, order).proceed <==>
            base.proceed && forall x | x in order && x < |ctxs| :: Outcome(ctxs[x]).proceed
  {
    hide Outcome;
    if order != [] {
      var n := |order| - 1;
      MergeAllProceeds(base, ctxs, order[..n]);
      assert order == order[..n] + [order[n]];
    }
  }

  lemma OutcomeReports(c: Context)
    ensures Outcome(c).errstr == ErrorOf(c)
    ensures Outcome(c).proceed <==> !c.fate.Threw? && (c.fate.Opened? ==> c.result.proceed)
  {
  }

  /** The result of the last opening that returned, `base` if none did. */
  function LastReturned(base: RunResult, acts: seq<Action>): RunResult
    decreases |acts|
  {
    if acts == [] then base
    else
      match acts[|acts| - 1]
      case OpenReturns(r) => r
      case SpawnThrows(r, _) => r
      case _ => LastReturned(base, acts[..|acts| - 1])
  }

  ghost predicate ThrownIn(acts: seq<Action>, msg: string) {
    OpenThrows(msg) in acts || exists r :: SpawnThrows(r, msg) in acts
  }

  /** What a context ends with was told by an action. */
  ghost predicate Told(c: Context, i: nat, acts: seq<Action>) {
    match c.fate
    case Opened => c.pc.Inspecting? || Inspected(i, c.result) in acts
    case Threw(msg) => ThrownIn(acts, msg)
    case _ => true
  }

  ghost predicate AllTold(s: State, acts: seq<Action>) {
    && s.base == LastReturned(Ok, acts)
    && forall i | 0 <= i < |s.ctxs| :: Told(s.ctxs[i], i, acts)
  }

  lemma ToldStays(c: Context, i: nat, acts: seq<Action>, a: Action)
    requires Told(c, i, acts)
    ensures Told(c, i, acts + [a])
  {
    assert forall b | b in acts :: b in acts + [a];
  }

  lemma StepTells(s: State, acts: seq<Action>, a: Action)
    requires Inv(s) && Enabled(s, a) && AllTold(s, acts)
    ensures AllTold(Step(s, a), acts + [a])
  {
    hide Inv, Told, Step, ContextOk, Enabled;
    BaseTold(s, acts, a);
    var t := Step(s, a);
    forall i | 0 <= i < |t.ctxs|
      ensures Told(t.ctxs[i], i, acts + [a])
    {
      if i < |s.ctxs| {
        ToldStays(s.ctxs[i], i, acts, a);
        ContextIsOk(s, i);
        ContextTold(s, acts, a, i);
      } else {
        NewIsFresh(s, a, i);
        FreshTold(i, acts + [a]);
      }
    }
  }

  lemma BaseTold(s: State, acts: seq<Action>, a: Action)
    requires Enabled(s, a) && s.base == LastReturned(Ok, acts)
    ensures Step(s, a).base == LastReturned(Ok, acts + [a])
  {
    hide Merge;
    assert (acts + [a])[..|acts|] == acts;
  }

  lemma NewIsFresh(s: State, a: Action, i: nat)
    requires Enabled(s, a) && |s.ctxs| <= i < |Step(s, a).ctxs|
    ensures Step(s, a).ctxs[i] == Fresh
  {
    hide Merge;
  }

  lemma FreshTold(i: nat, acts: seq<Action>)
    ensures Told(Fresh, i, acts)
  {
  }

  lemma ContextTold(s: State, acts: seq<Action>, a: Action, i: nat)
    requires Enabled(s, a) && i < |s.ctxs| && Told(s.ctxs[i], i, acts + [a])
    requires ContextOk(s.ctxs[i], i, i == |s.ctxs| - 1, s.n, s.pc)
    ensures i < |Step(s, a).ctxs| && Told(Step(s, a).ctxs[i], i, acts + [a])
  {
    assert a in acts + [a];
  }

  lemma {:induction false} RunTells(s: State, before: seq<Action>, acts: seq<Action>, t: State)
    requires Inv(s) && Runs(s, acts, t) && AllTold(s, before)
    ensures AllTold(t, before + acts)
    decreases acts
  {
    hide Inv, Step, Enabled, AllTold;
    if acts == [] {
      assert before + acts == before;
    } else {
      StepKeepsInv(s, acts[0]);
      StepTells(s, before, acts[0]);
      RunTells(Step(s, acts[0]), before + [acts[0]], acts[1..], t);
      assert before + [acts[0]] + acts[1..] == before + acts;
    }
  }

  /** What the caller gets to see of a run at rest: the error of the last opening and the errors of the contexts in the order
      in which they were joined, one a line; and whether the program goes on. */
  lemma DoneReports(s: State)
    requires Inv(s) && s.pc.Done?
    ensures forall i | 0 <= i < |s.order| :: s.order[i] < |s.ctxs|
    ensures s.res.errstr == Lines(NonEmpty([s.base.errstr] + Errors(s.ctxs, s.order)))
    ensures s.res.proceed <==>
      s.base.proceed && forall i | 0 <= i < |s.ctxs| :: !s.ctxs[i].fate.Threw? && (s.ctxs[i].fate.Opened? ==> s.ctxs[i].result.proceed)
  {
    DoneMeans(s);
    hide ContextsOk, ContextOk, Sum, PermitsOk, LastScanOk, Merge, MergeAll, Outcome, Lines, NonEmpty, Errors;
    MergeAllReports(s.base, s.ctxs, s.order);
    MergeAllProceeds(s.base, s.ctxs, s.order);
    forall i | 0 <= i < |s.ctxs|
      ensures Outcome(s.ctxs[i]).proceed <==> !s.ctxs[i].fate.Threw? && (s.ctxs[i].fate.Opened? ==> s.ctxs[i].result.proceed)
    {
      OutcomeReports(s.ctxs[i]);
    }
  }

  /** Every run that has nowhere to go, however the threads interleave and wherever opening fails, has ended properly:
      each opened context was finished and joined exactly once, each result was merged exactly once, in the order
      `order`, and the outcome is a success iff every source was opened and every worker succeeded. The error is that of
      the last opening and those of the contexts, as the actions of the run told them, one a line and in that order; the
      program goes on iff nothing was thrown and all results say so. */
  lemma RunEndsWell(n: nat, acts: seq<Action>, s: State)
    requires Runs(Init(n), acts, s) && forall a :: !Enabled(s, a)
    ensures s.pc.Done?
    ensures forall i | 0 <= i < |s.ctxs| :: s.ctxs[i].finishes == 1 && s.ctxs[i].joins == 1 && i in s.order
    ensures forall i | 0 <= i < |s.order| :: s.order[i] < |s.ctxs|
    ensures forall i, k | 0 <= i < k < |s.order| :: s.order[i] != s.order[k]
    ensures s.res == MergeAll(s.base, s.ctxs, s.order)
    ensures s.res.success <==>
      |s.ctxs| == n && forall i | 0 <= i < |s.ctxs| :: s.ctxs[i].fate.Opened? && s.ctxs[i].result.success
    ensures s.res.errstr == Lines(NonEmpty([s.base.errstr] + Errors(s.ctxs, s.order)))
    ensures s.res.proceed <==>
      s.base.proceed && forall i | 0 <= i < |s.ctxs| :: !s.ctxs[i].fate.Threw? && (s.ctxs[i].fate.Opened? ==> s.ctxs[i].result.proceed)
    ensures s.base == LastReturned(Ok, acts)
    ensures forall i | 0 <= i < |s.ctxs| :: s.ctxs[i].fate.Opened? ==> Inspected(i, s.ctxs[i].result) in acts
    ensures forall i | 0 <= i < |s.ctxs| :: s.ctxs[i].fate.Threw? ==> ThrownIn(acts, s.ctxs[i].fate.msg)
    ensures |acts| <= Rank(Init(n))
  {
    hide Runs, Enabled, Step, Inv, Rank, ContextOk;
    InitInv(n);
    RunKeepsInv(Init(n), acts, s);
    RunIsBounded(Init(n), acts, s);
    if !s.pc.Done? {
      var a := NeverStuck(n, acts, s);
      assert false;
    }
    SourcesFixed(Init(n), acts, s);
    DoneMeans(s);
    DoneReports(s);
    RunTells(Init(n), [], acts, s);
    assert [] + acts == acts;
    DoneTold(s, acts);
  }

  lemma DoneTold(s: State, acts: seq<Action>)
    requires Inv(s) && s.pc.Done? && AllTold(s, acts)
    ensures forall i | 0 <= i < |s.ctxs| :: s.ctxs[i].fate.Opened? ==> Inspected(i, s.ctxs[i].result) in acts
    ensures forall i | 0 <= i < |s.ctxs| :: s.ctxs[i].fate.Threw? ==> ThrownIn(acts, s.ctxs[i].fate.msg)
  {
    hide ContextsOk, Sum, PermitsOk, LastScanOk, MergeAll, ThrownIn;
    SumAtMost(s.ctxs, JoinedOf);
    forall i | 0 <= i < |s.ctxs|
      ensures s.ctxs[i].fate.Opened? ==> Inspected(i, s.ctxs[i].result) in acts
    {
      assert JoinedOf(s.ctxs[i]) == 1;
      ContextIsOk(s, i);
      assert Told(s.ctxs[i], i, acts);
    }
  }

  lemma {:induction false} SourcesFixed(s: State, acts: seq<Action>, t: State)
    requires Runs(s, acts, t)
    ensures t.n == s.n
    decreases acts
  {
    hide Merge;
    if acts != [] { SourcesFixed(Step(s, acts[0]), acts[1..], t); }
  }

  lemma DoneMeans(s: State)
    requires Inv(s) && s.pc.Done?
    ensures forall i | 0 <= i < |s.ctxs| :: s.ctxs[i].finishes == 1 && s.ctxs[i].joins == 1 && i in s.order
    ensures forall i | 0 <= i < |s.order| :: s.order[i] < |s.ctxs|
    ensures forall i, k | 0 <= i < k < |s.order| :: s.order[i] != s.order[k]
    ensures s.res == MergeAll(s.base, s.ctxs, s.order)
    ensures s.res.success <==>
      |s.ctxs| == s.n && forall i | 0 <= i < |s.ctxs| :: s.ctxs[i].fate.Opened? && s.ctxs[i].result.success
  {
    hide ContextsOk, ContextOk, Sum, PermitsOk, LastScanOk, Merge, MergeAll, Outcome;
    SumAtMost(s.ctxs, JoinedOf);
    forall i | 0 <= i < |s.ctxs|
      ensures s.ctxs[i].finishes == 1 && s.ctxs[i].joins == 1 && i in s.order
      ensures !s.ctxs[i].fate.Pending?
    {
      assert JoinedOf(s.ctxs[i]) == 1;
      ContextIsOk(s, i);
      JoinedMeans(s.ctxs[i], i, i == |s.ctxs| - 1, s.n);
    }
    MergeAllSucceeds(s.base, s.ctxs, s.order);
    forall i | 0 <= i < |s.ctxs|
      ensures Outcome(s.ctxs[i]).success && !s.ctxs[i].fate.Refused? <==> s.ctxs[i].fate.Opened? && s.ctxs[i].result.success
    {
      OutcomeSucceeds(s.ctxs[i]);
    }
  }

  lemma OutcomeSucceeds(c: Context)
    requires !c.fate.Pending?
    ensures Outcome(c).success && !c.fate.Refused? <==> c.fate.Opened? && c.result.success
  {
  }

  lemma JoinedMeans(c: Context, i: nat, last: bool, n: nat)
    requires ContextOk(c, i, last, n, Done) && c.joined
    ensures c.finishes == 1 && c.joins == 1 && !c.fate.Pending?
  {
  }

  lemma {:induction false} MergeAllSucceeds(base: RunResult, ctxs: seq<Context>, order: seq<nat>)
    requires forall i | 0 <= i < |order| :: order[i] < |ctxs|
    ensures MergeAll(base, ctxs, order).success <==>
            base.success && forall x | x in order && x < |ctxs| :: Outcome(ctxs[x]).success
  {
    hide Outcome;
    if order != [] {
      var n := |order| - 1;
      MergeAllSucceeds(base, ctxs, order[..n]);
      assert order == order[..n] + [order[n]];
    }
  }
}
