/** The gRPC request contexts and the threads that drive them from one completion queue (grpc_request_context and
    grpc_server). A handler is a list of single accesses to its context, and the threads take turns between any two. */
module GrpcContexts {
  import opened Options

  type Response = nat

  datatype Kind = Unary | Streaming | Bidi

  /** m_state */
  datatype Phase = Requested | Writing | Finished

  datatype Status = Active | Success | Error

  /** stream_context and bidi_context */
  datatype Stream = Stream(status: Status, isRunning: bool, hasMore: bool)

  /** A request context. `stream` is the pointer to its stream or bidi context. */
  datatype Context = Context(kind: Kind, phase: Phase, stream: Option<Stream>)

  /** An operation handed to the gRPC runtime; it comes back on the completion queue. */
  datatype Op = Request | Read | Write(response: Response) | Finish

  /** One access to the context. `LoadStop` and `TryPop` are the two halves of get() and sub(), `AskVersion` is version(). */
  datatype Access =
    | SetPhase(phase: Phase)
    | NewServerContext
    | NewWriter
    | DropStream
    | ClearRequest
    | NewStream
    | SetStatus(status: Status)
    | AskVersion
    | LoadStop
    | TryPop
    | CallEnd
    | Post(op: Op)

  // ----- The handlers

  /** start() */
  function Start(kind: Kind): seq<Access> {
    match kind
    case Streaming => [SetPhase(Requested), NewServerContext, NewWriter, DropStream, ClearRequest, Post(Request)]
    case _ => [SetPhase(Requested), NewServerContext, NewWriter, ClearRequest, Post(Request)]
  }

  /** process(), up to the call of the service function */
  function Process(ctx: Context): seq<Access> {
    match ctx.kind
    case Unary => [AskVersion]
    case Streaming => if ctx.phase.Requested? then [SetPhase(Writing), NewStream, LoadStop, TryPop] else [LoadStop, TryPop]
    case Bidi =>
      match ctx.phase
      case Requested => [NewStream, SetStatus(Active), SetPhase(Writing), Post(Read)]
      case Writing => [LoadStop, TryPop]
      case Finished => []
  }

  /** process(), after the call of the service function that left `response` */
  function Answer(ctx: Context, response: Response): seq<Access> {
    match ctx.kind
    case Unary => [SetPhase(Finished), Post(Finish)]
    case Streaming =>
      if ctx.stream.Some? && ctx.stream.value.isRunning && ctx.stream.value.hasMore then [Post(Write(response))]
      else [SetPhase(Finished), Post(Finish)]
    case Bidi =>
      if ctx.stream.None? || !ctx.stream.value.isRunning then [SetPhase(Finished), Post(Finish)]
      else if ctx.stream.value.hasMore then [SetPhase(Writing), Post(Write(response))]
      else [SetPhase(Writing), Post(Read)]
  }

  /** end() */
  function End(ctx: Context, error: bool): seq<Access> {
    (if ctx.kind.Unary? || ctx.stream.None? then [] else [SetStatus(if error then Error else Success), CallEnd])
    + Start(ctx.kind)
  }

  /** What thread_process does with a completed operation. */
  function Dispatch(ctx: Context, ok: bool): seq<Access> {
    if !ok then (if ctx.phase.Requested? then [] else End(ctx, true))
    else if ctx.phase.Finished? then End(ctx, false)
    else Process(ctx)
  }

  // ----- The server

  /** A thread waiting for the completion queue, or working on a context. */
  datatype Thread = Waiting | Working(ctx: nat, todo: seq<Access>)

  /** The server. `pending` lists per context the operations handed to the runtime, `queue` holds the responses to send.
      The last three are a record of what became of the responses; `taken` lists them in the order they were taken. */
  datatype Server = Server(
    contexts: seq<Context>,
    pending: seq<seq<Op>>,
    threads: seq<Thread>,
    queue: seq<Response>,
    stopped: bool,
    taken: seq<Response>,
    sent: multiset<Response>,
    lost: multiset<Response>)

  datatype Step =
    | Complete(thread: nat, ctx: nat, which: nat, ok: bool)
    | Touch(thread: nat)
    | Push(response: Response)
    | Stop

  /** The access goes through a pointer that is there. */
  predicate Sound(ctx: Context, access: Access) {
    (access.SetStatus? || access.CallEnd? ==> ctx.stream.Some?)
    && (access.LoadStop? || access.TryPop? ==> ctx.stream.Some?)
  }

  predicate Enabled(s: Server, step: Step) {
    match step
    case Complete(t, c, i, _) =>
      t < |s.threads| && s.threads[t].Waiting? && c < |s.pending| && c < |s.contexts| && i < |s.pending[c]|
    case Touch(t) =>
      && t < |s.threads| && s.threads[t].Working? && s.threads[t].todo != []
      && s.threads[t].ctx < |s.contexts| && s.threads[t].ctx < |s.pending|
    case Push(_) => true
    case Stop => true
  }

  function Resting(c: nat, todo: seq<Access>): Thread {
    if todo == [] then Waiting else Working(c, todo)
  }

  /** The context after an access other than a call. */
  function Accessed(ctx: Context, access: Access): Context {
    match access
    case SetPhase(phase) => ctx.(phase := phase)
    case DropStream => ctx.(stream := None)
    case NewStream => ctx.(stream := Some(Stream(Active, true, false)))
    case SetStatus(status) => if ctx.stream.Some? then ctx.(stream := Some(ctx.stream.value.(status := status))) else ctx
    case _ => ctx
  }

  /** get() and sub() do nothing but for an active stream. */
  predicate Streams(ctx: Context) {
    ctx.stream.Some? && ctx.stream.value.status.Active?
  }

  /** The first half: an active stream learns whether the server runs. */
  function Told(ctx: Context, running: bool): Context {
    if Streams(ctx) then ctx.(stream := Some(ctx.stream.value.(isRunning := running))) else ctx
  }

  /** The second half: an active stream takes a response if there is one. */
  function Given(ctx: Context, more: bool): Context {
    if Streams(ctx) then ctx.(stream := Some(ctx.stream.value.(hasMore := more))) else ctx
  }

  function Next(s: Server, step: Step): Server
    requires Enabled(s, step)
  {
    match step
    case Complete(t, c, i, ok) =>
      s.(pending := s.pending[c := s.pending[c][..i] + s.pending[c][i + 1..]],
         threads := s.threads[t := Resting(c, Dispatch(s.contexts[c], ok))])
    case Touch(t) =>
      var c, todo := s.threads[t].ctx, s.threads[t].todo;
      var ctx := s.contexts[c];
      if todo[0].Post? then
        s.(pending := s.pending[c := s.pending[c] + [todo[0].op]],
           threads := s.threads[t := Resting(c, todo[1..])],
           sent := if todo[0].op.Write? then s.sent + multiset{todo[0].op.response} else s.sent)
      else if todo[0].AskVersion? then
        s.(threads := s.threads[t := Resting(c, Answer(ctx, 0))])
      else if todo[0].LoadStop? then
        s.(contexts := s.contexts[c := Told(ctx, !s.stopped)], threads := s.threads[t := Resting(c, todo[1..])])
      else if todo[0].TryPop? then
        Popped(s, t, c)
      else
        s.(contexts := s.contexts[c := Accessed(ctx, todo[0])], threads := s.threads[t := Resting(c, todo[1..])])
    case Push(response) => s.(queue := s.queue + [response])
    case Stop => s.(stopped := true)
  }

  /** try_pop, and the rest of process() that depends on it. */
  function Popped(s: Server, t: nat, c: nat): Server
    requires t < |s.threads| && c < |s.contexts|
  {
    var takes := Streams(s.contexts[c]) && s.queue != [];
    var ctx := Given(s.contexts[c], takes);
    var response := if takes then s.queue[0] else 0;
    var one := if takes then [response] else [];
    var todo := Answer(ctx, response);
    s.(contexts := s.contexts[c := ctx],
       threads := s.threads[t := Resting(c, todo)],
       queue := if takes then s.queue[1..] else s.queue,
       taken := s.taken + one,
       lost := if Post(Write(response)) in todo then s.lost else s.lost + multiset(one))
  }

  predicate Runs(s: Server, steps: seq<Step>)
    decreases |steps|
  {
    steps == [] || (Enabled(s, steps[0]) && Runs(Next(s, steps[0]), steps[1..]))
  }

  function After(s: Server, steps: seq<Step>): Server
    requires Runs(s, steps)
    decreases |steps|
  {
    if steps == [] then s else After(Next(s, steps[0]), steps[1..])
  }

  /** run(): every context has been started and every thread waits. */
  ghost predicate Init(s: Server) {
    && |s.pending| == |s.contexts|
    && (forall c | 0 <= c < |s.contexts| ::
          s.contexts[c] == Context(s.contexts[c].kind, Requested, None) && s.pending[c] == [Request])
    && (forall t | 0 <= t < |s.threads| :: s.threads[t].Waiting?)
    && !s.stopped && s.taken == [] && s.sent == s.lost == multiset{}
  }

  // ----- What a pending operation says about its context

  /** The operation is the one the context is in the phase for, and a stream that has begun is there and active. */
  predicate Fits(ctx: Context, op: Op) {
    match op
    case Request => ctx.phase.Requested?
    case Read => ctx.kind.Bidi? && ctx.phase.Writing? && ctx.stream.Some? && ctx.stream.value.status.Active?
    case Write(_) => !ctx.kind.Unary? && ctx.phase.Writing? && ctx.stream.Some? && ctx.stream.value.status.Active?
    case Finish => ctx.phase.Finished? && (ctx.kind.Unary? || ctx.stream.Some?)
  }

  /** A stream that is being written to is there, or is about to be created. */
  predicate Begun(ctx: Context, todo: seq<Access>) {
    ctx.phase.Writing? ==> ctx.stream.Some? || todo == [NewStream, LoadStop, TryPop]
  }

  /** An access after which the handler goes on whatever the rest of the server is like. */
  predicate Simple(access: Access) {
    !access.Post? && !access.AskVersion? && !access.LoadStop? && !access.TryPop?
  }

  /** From here on a handler only uses pointers that are there, posts one operation that fits, and does so with its last
      access to the context. */
  ghost predicate Safe(ctx: Context, todo: seq<Access>)
    decreases |todo|
  {
    && todo != [] && Sound(ctx, todo[0]) && Begun(ctx, todo)
    && if todo[0].Post? then |todo| == 1 && Fits(ctx, todo[0].op)
       else if todo[0].AskVersion? then |todo| == 1 && ctx.kind.Unary?
       else if todo[0].LoadStop? then !ctx.kind.Unary? && ctx.phase.Writing? && Streams(ctx) && todo == [LoadStop, TryPop]
       else if todo[0].TryPop? then !ctx.kind.Unary? && ctx.phase.Writing? && Streams(ctx) && |todo| == 1
       else |todo| > 1 && !todo[1].TryPop? && Safe(Accessed(ctx, todo[0]), todo[1..])
  }

  /** A handler with one access more in front. */
  lemma SafeFirst(ctx: Context, access: Access, rest: seq<Access>)
    requires Simple(access) && Sound(ctx, access) && Begun(ctx, [access] + rest)
    requires rest != [] && !rest[0].TryPop? && Safe(Accessed(ctx, access), rest)
    ensures Safe(ctx, [access] + rest)
  {
    assert ([access] + rest)[1..] == rest;
  }

  /** A context outside of any handler. */
  predicate Settled(ctx: Context) {
    ctx.phase.Writing? ==> ctx.stream.Some?
  }

  lemma StartIsSafe(ctx: Context)
    requires Settled(ctx)
    ensures Safe(ctx, Start(ctx.kind))
  {
    var requested := ctx.(phase := Requested);
    var last := [ClearRequest, Post(Request)];
    LastIsSafe(requested);
    LastIsSafe(requested.(stream := None));
    hide Safe;
    if ctx.kind.Streaming? {
      SafeFirst(requested, DropStream, last);
      last := [DropStream] + last;
    }
    SafeFirst(requested, NewWriter, last);
    SafeFirst(requested, NewServerContext, [NewWriter] + last);
    SafeFirst(ctx, SetPhase(Requested), [NewServerContext] + ([NewWriter] + last));
    assert Start(ctx.kind) == [SetPhase(Requested)] + ([NewServerContext] + ([NewWriter] + last));
  }

  lemma LastIsSafe(ctx: Context)
    requires ctx.phase.Requested?
    ensures Safe(ctx, [ClearRequest, Post(Request)])
  {
    assert [ClearRequest, Post(Request)][1..] == [Post(Request)];
  }

  lemma EndIsSafe(ctx: Context, error: bool)
    requires Settled(ctx)
    ensures Safe(ctx, End(ctx, error))
  {
    hide Safe;
    var start := Start(ctx.kind);
    StartIsSafe(ctx);
    if !ctx.kind.Unary? && ctx.stream.Some? {
      var ending := SetStatus(if error then Error else Success);
      StartIsSafe(Accessed(ctx, ending));
      SafeFirst(Accessed(ctx, ending), CallEnd, start);
      SafeFirst(ctx, ending, [CallEnd] + start);
      assert End(ctx, error) == [ending] + ([CallEnd] + start);
    } else {
      assert End(ctx, error) == start;
    }
  }

  lemma ProcessIsSafe(ctx: Context, op: Op)
    requires Fits(ctx, op) && !ctx.phase.Finished?
    ensures Safe(ctx, Process(ctx))
  {
    var todo := Process(ctx);
    var begun := Some(Stream(Active, true, false));
    if ctx.kind.Streaming? && ctx.phase.Requested? {
      assert [NewStream] + [LoadStop, TryPop] == [NewStream, LoadStop, TryPop];
      SafeFirst(ctx.(phase := Writing), NewStream, [LoadStop, TryPop]);
      SafeFirst(ctx, SetPhase(Writing), [NewStream] + [LoadStop, TryPop]);
      assert todo == [SetPhase(Writing)] + ([NewStream] + [LoadStop, TryPop]);
    } else if ctx.kind.Bidi? && ctx.phase.Requested? {
      SafeFirst(ctx.(stream := begun), SetPhase(Writing), [Post(Read)]);
      SafeFirst(ctx.(stream := begun), SetStatus(Active), [SetPhase(Writing)] + [Post(Read)]);
      SafeFirst(ctx, NewStream, [SetStatus(Active)] + ([SetPhase(Writing)] + [Post(Read)]));
      assert todo == [NewStream] + ([SetStatus(Active)] + ([SetPhase(Writing)] + [Post(Read)]));
    }
  }

  /** The second half of process() is safe, whatever the service function said. */
  lemma AnswerIsSafe(ctx: Context, more: bool, response: Response)
    requires Safe(ctx, [AskVersion]) || Safe(ctx, [TryPop])
    ensures var ctx' := Given(ctx, more); Safe(ctx', Answer(ctx', response))
    ensures ctx.kind.Unary? ==> Safe(ctx, Answer(ctx, response))
  {
    var todo := Answer(Given(ctx, more), response);
    assert |todo| == 2 ==> todo[1..] == [todo[1]];
    var unary := Answer(ctx, response);
    assert |unary| == 2 ==> unary[1..] == [unary[1]];
  }

  /** Every completed operation is answered safely, or it was a request that failed and the context is left alone. */
  lemma DispatchIsSafe(ctx: Context, op: Op, ok: bool)
    requires Fits(ctx, op)
    ensures if op.Request? && !ok then Dispatch(ctx, ok) == [] else Safe(ctx, Dispatch(ctx, ok))
  {
    hide Safe;
    EndIsSafe(ctx, true);
    EndIsSafe(ctx, false);
    if !ctx.phase.Finished? { ProcessIsSafe(ctx, op); }
  }

  // ----- The invariant

  ghost predicate WorkedOn(s: Server, c: nat) {
    exists t :: 0 <= t < |s.threads| && s.threads[t].Working? && s.threads[t].ctx == c
  }

  /** A context has one pending operation that fits it, or one thread works on it safely, or its request has failed. */
  ghost predicate ContextOk(s: Server, c: nat)
    requires c < |s.contexts| == |s.pending|
  {
    && |s.pending[c]| <= 1
    && (s.pending[c] != [] ==> Fits(s.contexts[c], s.pending[c][0]) && !WorkedOn(s, c))
    && (s.pending[c] == [] ==> WorkedOn(s, c) || s.contexts[c].phase.Requested?)
  }

  /** A thread works safely, and one that is about to take a response for a server it believes stopped is right. */
  ghost predicate ThreadOk(s: Server, t: nat)
    requires t < |s.threads|
  {
    s.threads[t].Working? ==>
      && s.threads[t].ctx < |s.contexts| && Safe(s.contexts[s.threads[t].ctx], s.threads[t].todo)
      && Informed(s.contexts[s.threads[t].ctx], s.threads[t].todo, s.stopped)
  }

  predicate Informed(ctx: Context, todo: seq<Access>, stopped: bool) {
    todo != [] && todo[0].TryPop? && ctx.stream.Some? && !ctx.stream.value.isRunning ==> stopped
  }

  ghost predicate Alone(s: Server) {
    forall t, u | 0 <= t < u < |s.threads| && s.threads[t].Working? && s.threads[u].Working? ::
      s.threads[t].ctx != s.threads[u].ctx
  }

  ghost predicate Inv(s: Server) {
    && |s.pending| == |s.contexts| && Alone(s)
    && (forall c | 0 <= c < |s.contexts| :: ContextOk(s, c))
    && (forall t | 0 <= t < |s.threads| :: ThreadOk(s, t))
  }

  lemma InitInv(s: Server)
    requires Init(s)
    ensures Inv(s)
  {
  }

  /** Thread `t` goes on to `todo` in context `c`, where nobody else works. */
  lemma ThreadMoves(s: Server, s': Server, t: nat, c: nat, todo: seq<Access>)
    requires Inv(s) && t < |s.threads| && c < |s.contexts|
    requires forall u | 0 <= u < |s.threads| && u != t && s.threads[u].Working? :: s.threads[u].ctx != c
    requires s.threads[t].Working? ==> s.threads[t].ctx == c
    requires s'.threads == s.threads[t := Resting(c, todo)]
    requires |s'.contexts| == |s'.pending| == |s.contexts|
    requires forall d | 0 <= d < |s.contexts| && d != c :: s'.contexts[d] == s.contexts[d] && s'.pending[d] == s.pending[d]
    requires todo != [] ==> s'.pending[c] == [] && Safe(s'.contexts[c], todo) && Informed(s'.contexts[c], todo, s'.stopped)
    requires s.stopped ==> s'.stopped
    requires todo == [] ==> if s'.pending[c] == [] then s'.contexts[c].phase.Requested?
                            else |s'.pending[c]| == 1 && Fits(s'.contexts[c], s'.pending[c][0])
    ensures Inv(s')
  {
    hide Safe, Fits;
    forall d | 0 <= d < |s.contexts|
      ensures ContextOk(s', d)
    {
      assert ContextOk(s, d);
      if d == c {
        if todo != [] { assert s'.threads[t].Working? && s'.threads[t].ctx == c; }
      } else {
        OthersStay(s, s', t, c, d, todo);
      }
    }
    forall u | 0 <= u < |s.threads|
      ensures ThreadOk(s', u)
    {
      assert ThreadOk(s, u);
    }
  }

  lemma OthersStay(s: Server, s': Server, t: nat, c: nat, d: nat, todo: seq<Access>)
    requires t < |s.threads| && d != c && (s.threads[t].Working? ==> s.threads[t].ctx == c)
    requires s'.threads == s.threads[t := Resting(c, todo)]
    ensures WorkedOn(s', d) <==> WorkedOn(s, d)
  {
    if u :| 0 <= u < |s.threads| && s.threads[u].Working? && s.threads[u].ctx == d {
      assert s'.threads[u] == s.threads[u];
    }
    if u :| 0 <= u < |s'.threads| && s'.threads[u].Working? && s'.threads[u].ctx == d {
      assert s'.threads[u] == s.threads[u];
    }
  }

  lemma CompleteKeepsInv(s: Server, t: nat, c: nat, i: nat, ok: bool)
    requires Inv(s) && Enabled(s, Complete(t, c, i, ok))
    ensures Inv(Next(s, Complete(t, c, i, ok)))
  {
    hide Safe, Fits, Dispatch;
    assert ContextOk(s, c);
    var s' := Next(s, Complete(t, c, i, ok));
    assert s'.pending[c] == [];
    DispatchIsSafe(s.contexts[c], s.pending[c][0], ok);
    FailedRequest(s.contexts[c], s.pending[c][0]);
    SafeIsSome(s.contexts[c], Dispatch(s.contexts[c], ok));
    DispatchInforms(s.contexts[c], ok, s.stopped);
    ThreadMoves(s, s', t, c, Dispatch(s.contexts[c], ok));
  }

  lemma DispatchInforms(ctx: Context, ok: bool, stopped: bool)
    ensures Informed(ctx, Dispatch(ctx, ok), stopped)
  {
  }

  lemma FailedRequest(ctx: Context, op: Op)
    requires Fits(ctx, op)
    ensures op.Request? ==> ctx.phase.Requested?
  {
  }

  lemma SafeIsSome(ctx: Context, todo: seq<Access>)
    ensures Safe(ctx, todo) ==> todo != []
  {
  }

  lemma CallKeepsInv(s: Server, t: nat)
    requires Inv(s) && Enabled(s, Touch(t)) && !Simple(s.threads[t].todo[0]) && !s.threads[t].todo[0].Post?
    ensures Inv(Next(s, Touch(t)))
  {
    var c, todo := s.threads[t].ctx, s.threads[t].todo;
    var ctx, s' := s.contexts[c], Next(s, Touch(t));
    assert ThreadOk(s, t) && ContextOk(s, c) && WorkedOn(s, c);
    if todo[0].LoadStop? {
      assert todo[1..] == [TryPop];
      hide Fits;
      ThreadMoves(s, s', t, c, [TryPop]);
    } else {
      var takes := todo[0].TryPop? && Streams(ctx) && s.queue != [];
      var response := if takes then s.queue[0] else 0;
      assert todo == [todo[0]];
      AnswerIsSafe(ctx, takes, response);
      AnswerInforms(s'.contexts[c], response, s'.stopped);
      hide Safe, Fits;
      SafeIsSome(s'.contexts[c], Answer(s'.contexts[c], response));
      ThreadMoves(s, s', t, c, Answer(s'.contexts[c], response));
    }
  }

  lemma AnswerInforms(ctx: Context, response: Response, stopped: bool)
    ensures Informed(ctx, Answer(ctx, response), stopped)
  {
  }

  lemma TouchKeepsInv(s: Server, t: nat)
    requires Inv(s) && Enabled(s, Touch(t))
    ensures Inv(Next(s, Touch(t)))
  {
    var c, todo := s.threads[t].ctx, s.threads[t].todo;
    var ctx, s' := s.contexts[c], Next(s, Touch(t));
    assert ThreadOk(s, t) && ContextOk(s, c) && WorkedOn(s, c);
    if todo[0].Post? {
      assert todo[1..] == [];
      hide Safe, Fits;
      ThreadMoves(s, s', t, c, []);
    } else if Simple(todo[0]) {
      SafeIsSome(Accessed(ctx, todo[0]), todo[1..]);
      PopComesSecond(ctx, todo, s.stopped);
      hide Safe, Fits, Informed;
      ThreadMoves(s, s', t, c, todo[1..]);
    } else {
      hide Safe, Fits;
      CallKeepsInv(s, t);
    }
  }

  /** The pop directly follows the load of the stop flag. */
  lemma PopComesSecond(ctx: Context, todo: seq<Access>, stopped: bool)
    requires Safe(ctx, todo) && Simple(todo[0])
    ensures Informed(Accessed(ctx, todo[0]), todo[1..], stopped)
  {
  }

  lemma StepKeepsInv(s: Server, step: Step)
    requires Inv(s) && Enabled(s, step)
    ensures Inv(Next(s, step))
  {
    hide Safe, Fits;
    match step
    case Complete(t, c, i, ok) => CompleteKeepsInv(s, t, c, i, ok);
    case Touch(t) => TouchKeepsInv(s, t);
    case _ => SameParts(s, Next(s, step));
  }

  lemma SameParts(s: Server, s': Server)
    requires Inv(s) && s'.contexts == s.contexts && s'.pending == s.pending && s'.threads == s.threads
    requires s.stopped ==> s'.stopped
    ensures Inv(s')
  {
    hide Safe, Fits;
    forall c | 0 <= c < |s.contexts|
      ensures ContextOk(s', c)
    {
      assert ContextOk(s, c) && (WorkedOn(s', c) <==> WorkedOn(s, c));
    }
    forall t | 0 <= t < |s.threads|
      ensures ThreadOk(s', t)
    {
      assert ThreadOk(s, t);
    }
  }

  lemma {:induction false} RunKeepsInv(s: Server, steps: seq<Step>)
    requires Inv(s) && Runs(s, steps)
    ensures Inv(After(s, steps))
    decreases |steps|
  {
    hide Inv, Enabled, Next;
    if steps != [] {
      StepKeepsInv(s, steps[0]);
      RunKeepsInv(Next(s, steps[0]), steps[1..]);
    }
  }

  // ----- What holds in every run

  /** However many threads there are and whatever they do: a context has at most one outstanding operation, and while a
      thread works on it there is none and no other thread works on it. */
  lemma OneOperationOneThread(s: Server, steps: seq<Step>, c: nat)
    requires Init(s) && Runs(s, steps) && c < |After(s, steps).contexts|
    ensures var e := After(s, steps);
            && |e.pending| == |e.contexts| && |e.pending[c]| <= 1
            && (WorkedOn(e, c) ==> e.pending[c] == [])
            && (forall t, u | 0 <= t < |e.threads| && 0 <= u < |e.threads| && e.threads[t].Working? && e.threads[u].Working?
                              && e.threads[t].ctx == e.threads[u].ctx :: t == u)
  {
    hide Runs, After, Safe, Fits;
    InitInv(s);
    RunKeepsInv(s, steps);
    assert ContextOk(After(s, steps), c);
  }

  /** Posting an operation is the last thing a thread does with a context, and every access on the way goes through a
      pointer that is there. */
  lemma PostIsLast(s: Server, steps: seq<Step>, t: nat)
    requires Init(s) && Runs(s, steps) && t < |After(s, steps).threads| && After(s, steps).threads[t].Working?
    ensures var e := After(s, steps);
            var todo := e.threads[t].todo;
            && Enabled(e, Touch(t)) && Sound(e.contexts[e.threads[t].ctx], todo[0])
            && (todo[0].Post? ==> Next(e, Touch(t)).threads[t] == Waiting)
  {
    hide Runs, After, Fits;
    InitInv(s);
    RunKeepsInv(s, steps);
    assert ThreadOk(After(s, steps), t);
  }

  /** In every reachable state: a context in state WRITE has its stream context, except where a handler has just set the
      state and is about to create it. A context no thread is at work on has an active one, and a context with neither an
      operation nor a thread is one whose request has failed. */
  lemma StreamIsThere(s: Server, steps: seq<Step>, c: nat)
    requires Init(s) && Runs(s, steps) && c < |After(s, steps).contexts|
    ensures var e := After(s, steps);
            && (e.contexts[c].phase.Writing? ==> e.contexts[c].stream.Some? || AboutToCreate(e, c))
            && (e.contexts[c].phase.Writing? && !WorkedOn(e, c) ==> Streams(e.contexts[c]))
            && |e.pending| == |e.contexts|
            && (e.pending[c] == [] && !WorkedOn(e, c) ==> e.contexts[c].phase.Requested?)
  {
    hide Runs, After;
    InitInv(s);
    RunKeepsInv(s, steps);
    var e := After(s, steps);
    assert ContextOk(e, c);
    if WorkedOn(e, c) {
      var t :| 0 <= t < |e.threads| && e.threads[t].Working? && e.threads[t].ctx == c;
      assert ThreadOk(e, t);
    }
  }

  /** Some thread is between the two assignments at the beginning of a stream. */
  ghost predicate AboutToCreate(s: Server, c: nat) {
    exists t :: 0 <= t < |s.threads| && s.threads[t] == Working(c, [NewStream, LoadStop, TryPop])
  }

  /** The exception is real: one step after the first request of a stream was taken up. */
  lemma StreamNotYetThere(s: Server) returns (steps: seq<Step>)
    requires Init(s) && |s.threads| > 0 && |s.contexts| > 0 && s.contexts[0].kind.Streaming?
    ensures Runs(s, steps)
    ensures var e := After(s, steps);
            |e.contexts| > 0 && e.contexts[0].phase.Writing? && e.contexts[0].stream.None? && AboutToCreate(e, 0)
  {
    var taken := Next(s, Complete(0, 0, 0, true));
    assert s.pending[0] == [Request];
    assert taken.threads[0] == Working(0, [SetPhase(Writing), NewStream, LoadStop, TryPop]);
    var begun := Next(taken, Touch(0));
    assert [SetPhase(Writing), NewStream, LoadStop, TryPop][1..] == [NewStream, LoadStop, TryPop];
    assert begun.threads[0] == Working(0, [NewStream, LoadStop, TryPop]);
    steps := [Complete(0, 0, 0, true), Touch(0)];
    assert steps[1..] == [Touch(0)] && [Touch(0)][1..] == [];
    assert Runs(taken, [Touch(0)]) && After(taken, [Touch(0)]) == begun;
  }

  // ----- What becomes of the responses

  /** The response a thread is about to write. */
  function Hand(thread: Thread): multiset<Response> {
    if thread.Waiting? || thread.todo == [] then multiset{} else HandOf(thread.todo[|thread.todo| - 1])
  }

  function HandOf(access: Access): multiset<Response> {
    if access.Post? && access.op.Write? then multiset{access.op.response} else multiset{}
  }

  /** How many threads are about to write this response. */
  function Held(threads: seq<Thread>, r: Response): nat {
    if threads == [] then 0 else Held(threads[..|threads| - 1], r) + Hand(threads[|threads| - 1])[r]
  }

  lemma {:induction false} HeldUpdate(threads: seq<Thread>, t: nat, thread: Thread, r: Response)
    requires t < |threads|
    ensures Held(threads[t := thread], r) + Hand(threads[t])[r] == Held(threads, r) + Hand(thread)[r]
  {
    hide Hand;
    var n := |threads| - 1;
    var updated := threads[t := thread];
    if t == n {
      assert updated[..n] == threads[..n];
    } else {
      HeldUpdate(threads[..n], t, thread, r);
      assert updated[..n] == threads[..n][t := thread];
    }
  }

  lemma {:induction false} NothingHeld(threads: seq<Thread>, r: Response)
    requires forall t | 0 <= t < |threads| :: threads[t].Waiting?
    ensures Held(threads, r) == 0
  {
    if threads != [] { NothingHeld(threads[..|threads| - 1], r); }
  }

  /** Every response taken off the queue was sent, is about to be, or was given up because the server is stopping. */
  ghost predicate Ledger(s: Server) {
    (forall r :: multiset(s.taken)[r] == s.sent[r] + s.lost[r] + Held(s.threads, r)) && (!s.stopped ==> s.lost == multiset{})
  }

  /** The record grows with what a thread takes, sends, gives up and holds. */
  lemma LedgerMoves(s: Server, s': Server, t: nat)
    requires Ledger(s) && t < |s.threads| == |s'.threads| && s'.threads == s.threads[t := s'.threads[t]]
    requires !s'.stopped ==> s'.lost == multiset{}
    requires forall r :: multiset(s'.taken)[r] + s.sent[r] + s.lost[r] + Hand(s.threads[t])[r] ==
                         multiset(s.taken)[r] + s'.sent[r] + s'.lost[r] + Hand(s'.threads[t])[r]
    ensures Ledger(s')
  {
    hide Held, Hand;
    forall r
      ensures multiset(s'.taken)[r] == s'.sent[r] + s'.lost[r] + Held(s'.threads, r)
    {
      HeldUpdate(s.threads, t, s'.threads[t], r);
    }
  }

  /** Nothing to write before the service has been asked. */
  lemma DispatchHoldsNothing(ctx: Context, ok: bool, c: nat)
    ensures Hand(Resting(c, Dispatch(ctx, ok))) == multiset{}
  {
    var todo := Dispatch(ctx, ok);
    var start := Start(ctx.kind);
    if todo == End(ctx, true) || todo == End(ctx, false) {
      assert todo[|todo| - 1] == start[|start| - 1];
    }
  }

  /** A response taken while the server is believed to run is going to be written. */
  lemma AnswerHolds(ctx: Context, takes: bool, response: Response, c: nat)
    requires !ctx.kind.Unary? && Streams(ctx)
    ensures var todo := Answer(Given(ctx, takes), response);
            && Hand(Resting(c, todo)) == (if Post(Write(response)) in todo then multiset{response} else multiset{})
            && (takes && ctx.stream.value.isRunning ==> Post(Write(response)) in todo)
            && (!takes ==> Post(Write(response)) !in todo)
  {
    var todo := Answer(Given(ctx, takes), response);
    if takes && ctx.stream.value.isRunning { assert todo[|todo| - 1] == Post(Write(response)); }
  }

  /** A handler that has yet to ask or to take holds nothing. */
  lemma CallHolds(ctx: Context, todo: seq<Access>, c: nat)
    requires Safe(ctx, todo) && !Simple(todo[0]) && !todo[0].Post?
    ensures Hand(Working(c, todo)) == multiset{}
    ensures todo[0].TryPop? ==> !ctx.kind.Unary? && Streams(ctx)
    ensures todo[0].AskVersion? ==> ctx.kind.Unary?
    ensures todo[0].LoadStop? ==> Hand(Resting(c, todo[1..])) == multiset{}
  {
  }

  lemma UnaryHolds(ctx: Context, response: Response, c: nat)
    requires ctx.kind.Unary?
    ensures Hand(Resting(c, Answer(ctx, response))) == multiset{}
  {
  }

  lemma CallKeepsLedger(s: Server, t: nat)
    requires Inv(s) && Enabled(s, Touch(t)) && !Simple(s.threads[t].todo[0]) && !s.threads[t].todo[0].Post? && Ledger(s)
    ensures Ledger(Next(s, Touch(t)))
  {
    hide Held, Hand, Safe, Answer, Resting, Fits;
    var s', c := Next(s, Touch(t)), s.threads[t].ctx;
    var ctx, access := s.contexts[c], s.threads[t].todo[0];
    assert ThreadOk(s, t);
    CallHolds(ctx, s.threads[t].todo, c);
    if access.TryPop? {
      var takes := Streams(ctx) && s.queue != [];
      AnswerHolds(ctx, takes, if takes then s.queue[0] else 0, c);
    } else if access.AskVersion? {
      UnaryHolds(ctx, 0, c);
    }
    LedgerMoves(s, s', t);
  }

  /** Other accesses leave a thread with what it holds. */
  lemma AccessHolds(ctx: Context, todo: seq<Access>, c: nat)
    requires Safe(ctx, todo) && (Simple(todo[0]) || todo[0].Post?)
    ensures todo[0].Post? ==> todo[1..] == [] && Hand(Working(c, todo)) == HandOf(todo[0]) && Hand(Resting(c, [])) == multiset{}
    ensures !todo[0].Post? ==> Hand(Resting(c, todo[1..])) == Hand(Working(c, todo))
  {
  }

  lemma StepKeepsLedger(s: Server, step: Step)
    requires Inv(s) && Enabled(s, step) && Ledger(s)
    ensures Ledger(Next(s, step))
  {
    hide Held, Hand, Safe, Dispatch, Resting, Fits;
    var s' := Next(s, step);
    match step
    case Complete(t, c, i, ok) =>
      DispatchHoldsNothing(s.contexts[c], ok, c);
      WaitingHolds();
      LedgerMoves(s, s', t);
    case Touch(t) =>
      if !Simple(s.threads[t].todo[0]) && !s.threads[t].todo[0].Post? {
        CallKeepsLedger(s, t);
      } else {
        assert ThreadOk(s, t);
        AccessHolds(s.contexts[s.threads[t].ctx], s.threads[t].todo, s.threads[t].ctx);
        LedgerMoves(s, s', t);
      }
    case _ =>
  }

  lemma WaitingHolds()
    ensures Hand(Waiting) == multiset{}
  {
  }

  lemma {:induction false} RunKeepsLedger(s: Server, steps: seq<Step>)
    requires Inv(s) && Runs(s, steps) && Ledger(s)
    ensures Ledger(After(s, steps))
    decreases |steps|
  {
    hide Inv, Enabled, Next, Ledger;
    if steps != [] {
      StepKeepsInv(s, steps[0]);
      StepKeepsLedger(s, steps[0]);
      RunKeepsLedger(Next(s, steps[0]), steps[1..]);
    }
  }

  /** The responses pushed in a run, in order. */
  function PushedIn(steps: seq<Step>): seq<Response>
    decreases |steps|
  {
    if steps == [] then []
    else
      var n := |steps| - 1;
      PushedIn(steps[..n]) + (if steps[n].Push? then [steps[n].response] else [])
  }

  lemma {:induction false} PushedFirst(step: Step, steps: seq<Step>)
    ensures PushedIn([step] + steps) == (if step.Push? then [step.response] else []) + PushedIn(steps)
    decreases |steps|
  {
    var all := [step] + steps;
    if steps == [] {
      assert all[..0] == [];
    } else {
      var n := |steps| - 1;
      PushedFirst(step, steps[..n]);
      assert all[..n + 1] == [step] + steps[..n];
    }
  }

  /** The responses that have been in the queue so far. */
  function Queued(s: Server): seq<Response> {
    s.taken + s.queue
  }

  lemma PoppedKeepsQueue(s: Server, t: nat, c: nat)
    requires t < |s.threads| && c < |s.contexts|
    ensures Queued(Popped(s, t, c)) == Queued(s)
  {
    hide Answer, Resting, Given, Streams;
    if s.queue != [] {
      assert s.queue == [s.queue[0]] + s.queue[1..];
      assert s.taken + [s.queue[0]] + s.queue[1..] == s.taken + s.queue;
    }
    assert s.taken + [] == s.taken;
  }

  lemma StepKeepsQueue(s: Server, step: Step)
    requires Enabled(s, step)
    ensures Queued(Next(s, step)) == Queued(s) + (if step.Push? then [step.response] else [])
  {
    hide Dispatch, Answer, Resting, Accessed, Told, Popped;
    if step.Touch? { PoppedKeepsQueue(s, step.thread, s.threads[step.thread].ctx); }
    if step.Push? { assert s.taken + (s.queue + [step.response]) == s.taken + s.queue + [step.response]; }
    assert Queued(s) + [] == Queued(s);
  }

  /** What was queued and pushed is what was taken, followed by what is still queued. */
  lemma {:induction false} RunKeepsQueue(s: Server, steps: seq<Step>)
    requires Runs(s, steps)
    ensures Queued(s) + PushedIn(steps) == Queued(After(s, steps))
    decreases |steps|
  {
    hide Enabled, Next, PushedIn, Queued;
    if steps == [] {
      NothingPushed();
      assert Queued(s) + [] == Queued(s);
    } else {
      var more := if steps[0].Push? then [steps[0].response] else [];
      StepKeepsQueue(s, steps[0]);
      RunKeepsQueue(Next(s, steps[0]), steps[1..]);
      PushedFirst(steps[0], steps[1..]);
      assert steps == [steps[0]] + steps[1..];
      assert Queued(s) + (more + PushedIn(steps[1..])) == Queued(s) + more + PushedIn(steps[1..]);
    }
  }

  lemma NothingPushed()
    ensures PushedIn([]) == []
  {
  }

  /** In every run: the initial queue followed by the pushed responses is what was taken followed by what is queued, so
      responses are taken in order, each once; every one taken is accounted for, and none is given up while the server
      runs. */
  lemma ResponsesAccountedFor(s: Server, steps: seq<Step>)
    requires Init(s) && Runs(s, steps)
    ensures var e := After(s, steps);
            && s.queue + PushedIn(steps) == e.taken + e.queue
            && (forall r :: multiset(e.taken)[r] == e.sent[r] + e.lost[r] + Held(e.threads, r))
            && (!e.stopped ==> e.lost == multiset{})
  {
    hide Runs, After, Held, PushedIn;
    InitInv(s);
    forall r
      ensures Held(s.threads, r) == 0
    {
      NothingHeld(s.threads, r);
    }
    RunKeepsLedger(s, steps);
    RunKeepsQueue(s, steps);
    assert [] + s.queue == s.queue;
  }

  /** The server is stopped iff someone has stopped it. */
  lemma {:induction false} StoppedIff(s: Server, steps: seq<Step>)
    requires Runs(s, steps)
    ensures After(s, steps).stopped <==> s.stopped || Stop in steps
    decreases |steps|
  {
    hide Dispatch, Answer, Resting, Accessed, Told, Given, Streams;
    if steps != [] {
      StoppedIff(Next(s, steps[0]), steps[1..]);
      assert steps == [steps[0]] + steps[1..];
    }
  }

  /** What thread `t` does when it asks for a response: it takes the head of the queue if there is one, and goes on to write
      it if the server was running when it looked. Without a response, or when the server stops, it ends the stream; a
      bidirectional one reads on instead, while the server runs. */
  ghost predicate Answered(e: Server, t: nat)
    requires Enabled(e, Touch(t))
  {
    var c, next := e.threads[t].ctx, Next(e, Touch(t));
    && e.contexts[c].stream.Some?
    && next.taken == (if e.queue == [] then e.taken else e.taken + [e.queue[0]])
    && next.threads[t].Working? && next.threads[t].ctx == c && next.threads[t].todo != []
    && next.threads[t].todo[|next.threads[t].todo| - 1] ==
       Post(if !e.contexts[c].stream.value.isRunning then Finish
            else if e.queue != [] then Write(e.queue[0])
            else if e.contexts[c].kind.Bidi? then Read else Finish)
  }

  /** In every reachable state: a thread that is to look whether the server runs finds out, and a thread that is to ask for a
      response is answered. */
  lemma AskedIsAnswered(s: Server, steps: seq<Step>, t: nat)
    requires Init(s) && Runs(s, steps) && t < |After(s, steps).threads| && After(s, steps).threads[t].Working?
    ensures var e := After(s, steps);
            && Enabled(e, Touch(t))
            && (e.threads[t].todo[0].TryPop? ==> Answered(e, t))
            && (e.threads[t].todo[0].AskVersion? ==>
                  Next(e, Touch(t)).threads[t] == Working(e.threads[t].ctx, [SetPhase(Finished), Post(Finish)]))
            && (e.threads[t].todo[0].LoadStop? ==>
                  var ctx := Next(e, Touch(t)).contexts[e.threads[t].ctx];
                  ctx.stream.Some? && ctx.stream.value.isRunning == !e.stopped)
  {
    hide Runs, After, Answered;
    InitInv(s);
    RunKeepsInv(s, steps);
    var e := After(s, steps);
    assert ThreadOk(e, t);
    if e.threads[t].todo[0].TryPop? { AnsweredStep(e, t); }
  }

  lemma AnsweredStep(e: Server, t: nat)
    requires Enabled(e, Touch(t)) && e.threads[t].todo[0].TryPop? && Safe(e.contexts[e.threads[t].ctx], e.threads[t].todo)
    ensures Answered(e, t)
  {
    hide Answer, Safe, Resting, Streams;
    var c, todo := e.threads[t].ctx, e.threads[t].todo;
    var ctx := e.contexts[c];
    PopIsNext(ctx, todo);
    AnswerEnds(ctx, e.queue != [], if e.queue == [] then 0 else e.queue[0], c);
    assert e.taken + [] == e.taken;
  }

  lemma PopIsNext(ctx: Context, todo: seq<Access>)
    requires Safe(ctx, todo) && todo[0].TryPop?
    ensures Streams(ctx) && ctx.stream.Some? && !ctx.kind.Unary?
  {
  }

  lemma AnswerEnds(ctx: Context, more: bool, response: Response, c: nat)
    requires Streams(ctx) && !ctx.kind.Unary?
    ensures var todo := Answer(Given(ctx, more), response);
            && Resting(c, todo) == Working(c, todo) && todo != []
            && todo[|todo| - 1] ==
               Post(if !ctx.stream.value.isRunning then Finish
                    else if more then Write(response) else if ctx.kind.Bidi? then Read else Finish)
  {
  }

  /** A stream that ends learns how: an error iff its operation failed. */
  lemma EndTellsHow(ctx: Context, ok: bool)
    requires !ctx.kind.Unary? && ctx.stream.Some?
    ensures SetStatus(Error) in Dispatch(ctx, ok) <==> !ok && !ctx.phase.Requested?
    ensures SetStatus(Success) in Dispatch(ctx, ok) <==> ok && ctx.phase.Finished?
  {
    var todo := Dispatch(ctx, ok);
    var start := Start(ctx.kind);
    assert forall status :: SetStatus(status) !in start;
    if todo == End(ctx, !ok) { assert todo[0] == SetStatus(if !ok then Error else Success); }
  }

  /** What a completed operation leads to: a failed request to nothing, any other failure and a finished call to a new request
      on the context; else the call goes on. */
  lemma DispatchPosts(ctx: Context, ok: bool)
    ensures Dispatch(ctx, ok) == [] <==> (!ok && ctx.phase.Requested?)
    ensures (if ok then ctx.phase.Finished? else !ctx.phase.Requested?) ==>
              var todo := Dispatch(ctx, ok); todo != [] && todo[|todo| - 1] == Post(Request)
    ensures ok && ctx.phase.Requested? && ctx.kind.Bidi? ==> Post(Read) in Dispatch(ctx, ok)
    ensures ok && !ctx.phase.Finished? && !(ctx.kind.Bidi? && ctx.phase.Requested?) ==>
              AskVersion in Dispatch(ctx, ok) || TryPop in Dispatch(ctx, ok)
  {
    var todo := Dispatch(ctx, ok);
    var start := Start(ctx.kind);
    if todo == End(ctx, true) || todo == End(ctx, false) {
      assert todo[|todo| - 1] == start[|start| - 1];
    } else if todo != [] {
      assert todo[|todo| - 1] in todo;
    }
  }

  /** A context that is requested again has been renewed: whatever is left of the last call was replaced before. */
  lemma StartRenews(ctx: Context, ok: bool)
    requires Post(Request) in Dispatch(ctx, ok)
    ensures var before := Dispatch(ctx, ok)[..|Dispatch(ctx, ok)| - 1];
            && SetPhase(Requested) in before && NewServerContext in before && NewWriter in before && ClearRequest in before
            && (ctx.kind.Streaming? ==> DropStream in before)
  {
    var todo := Dispatch(ctx, ok);
    var start := Start(ctx.kind);
    var front := todo[..|todo| - |start|];
    assert todo == front + start;
    var before, k := todo[..|todo| - 1], |front|;
    assert before[k] == start[0] && before[k + 1] == start[1] && before[k + 2] == start[2] && before[k + 3] == start[3];
    if ctx.kind.Streaming? { assert before[k + 4] == start[4]; }
  }
}
