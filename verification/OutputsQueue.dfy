/** The outputs queue, its worker, and the shutdown with a watchdog (falco_outputs). Producers, worker, watchdog and the
    thread that shuts down take turns between any two accesses to the queue or the drop counter. */
module OutputsQueue {

  datatype Kind = Output | Cleanup | Reopen | Stop

  /** A message. The ticket numbers all attempts to push. */
  datatype Msg = Msg(ticket: nat, kind: Kind)

  /** worker(): waiting in pop, about to hand the message to the output at `next`, or about to look at its type. */
  datatype Worker = Popping | Delivering(msg: Msg, next: nat) | Checking(msg: Msg) | Exited

  /** stop_worker(): not begun, the watchdog is armed, the STOP has been pushed, the worker has been joined. */
  datatype Main = Serving | Armed | StopSent | Joined

  /** The callback of the watchdog: not called, emptying the queue, having found it empty, done. */
  datatype Watchdog = Quiet | Clearing | Emptied | Done

  datatype State = State(
    capacity: nat,
    outputs: nat,
    queue: seq<Msg>,
    worker: Worker,
    main: Main,
    watchdog: Watchdog,
    drops: nat,
    uncounted: nat,
    pushed: nat,
    dropped: set<nat>,
    cleared: set<nat>,
    taken: seq<Msg>,
    seen: seq<seq<Msg>>)

  datatype Step =
    | Produce(kind: Kind)
    | CountDrop
    | Pop
    | Deliver
    | CheckType
    | Arm
    | SendStop
    | Join
    | Fire
    | ClearOne
    | FindEmpty
    | FireStop

  predicate Enabled(s: State, step: Step) {
    match step
    case Produce(_) => s.main.Serving?
    case CountDrop => s.uncounted > 0
    case Pop => s.worker.Popping? && s.queue != []
    case Deliver => s.worker.Delivering? && s.worker.next < |s.seen|
    case CheckType => s.worker.Checking?
    case Arm => s.main.Serving?
    case SendStop => s.main.Armed?
    case Join => s.main.StopSent? && s.worker.Exited?
    case Fire => (s.main.Armed? || s.main.StopSent?) && s.watchdog.Quiet?
    case ClearOne => s.watchdog.Clearing? && s.queue != []
    case FindEmpty => s.watchdog.Clearing? && s.queue == []
    case FireStop => s.watchdog.Emptied?
  }

  /** push(): try_push takes the message unless the queue is full; a drop is counted in a later step. */
  function Push(s: State, kind: Kind): State {
    if |s.queue| < s.capacity
    then s.(pushed := s.pushed + 1, queue := s.queue + [Msg(s.pushed, kind)])
    else s.(pushed := s.pushed + 1, dropped := s.dropped + {s.pushed}, uncounted := s.uncounted + 1)
  }

  /** The loop over the outputs ends when there is none left. */
  function Handing(msg: Msg, next: nat, outputs: nat): Worker {
    if next < outputs then Delivering(msg, next) else Checking(msg)
  }

  function Next(s: State, step: Step): State
    requires Enabled(s, step)
  {
    match step
    case Produce(kind) => Push(s, kind)
    case CountDrop => s.(drops := s.drops + 1, uncounted := s.uncounted - 1)
    case Pop => s.(queue := s.queue[1..], taken := s.taken + [s.queue[0]], worker := Handing(s.queue[0], 0, s.outputs))
    case Deliver =>
      s.(seen := s.seen[s.worker.next := s.seen[s.worker.next] + [s.worker.msg]],
         worker := Handing(s.worker.msg, s.worker.next + 1, s.outputs))
    case CheckType => s.(worker := if s.worker.msg.kind.Stop? then Exited else Popping)
    case Arm => s.(main := Armed)
    case SendStop => Push(s, Stop).(main := StopSent)
    case Join => s.(main := Joined)
    case Fire => s.(watchdog := Clearing)
    case ClearOne => s.(queue := s.queue[1..], cleared := s.cleared + {s.queue[0].ticket})
    case FindEmpty => s.(watchdog := Emptied)
    case FireStop => Push(s, Stop).(watchdog := Done)
  }

  predicate Runs(s: State, steps: seq<Step>)
    decreases |steps|
  {
    steps == [] || (Enabled(s, steps[0]) && Runs(Next(s, steps[0]), steps[1..]))
  }

  function After(s: State, steps: seq<Step>): State
    requires Runs(s, steps)
    decreases |steps|
  {
    if steps == [] then s else After(Next(s, steps[0]), steps[1..])
  }

  ghost predicate Init(s: State) {
    && s.queue == [] && s.worker.Popping? && s.main.Serving? && s.watchdog.Quiet?
    && s.drops == s.uncounted == s.pushed == 0 && s.dropped == s.cleared == {} && s.taken == []
    && |s.seen| == s.outputs && forall o | 0 <= o < |s.seen| :: s.seen[o] == []
  }

  // ----- Conservation

  /** Tickets in the order of the pushes, none twice. */
  ghost predicate InOrder(msgs: seq<Msg>) {
    forall i, k | 0 <= i < k < |msgs| :: msgs[i].ticket < msgs[k].ticket
  }

  ghost predicate HasTicket(msgs: seq<Msg>, n: nat) {
    exists i :: 0 <= i < |msgs| && msgs[i].ticket == n
  }

  /** The numbers below `n` are split between the messages kept, in order, and two sets. */
  ghost predicate Split(kept: seq<Msg>, dropped: set<nat>, cleared: set<nat>, n: nat) {
    && InOrder(kept) && dropped !! cleared
    && (forall k: nat :: k < n <==> HasTicket(kept, k) || k in dropped || k in cleared)
    && (forall k: nat | HasTicket(kept, k) :: k !in dropped && k !in cleared)
  }

  /** Every pushed message met with exactly one fate: dropped, cleared, or accepted and taken by the worker or still
      queued, and the last two together are in push order. */
  ghost predicate Accounted(s: State) {
    && Split(s.taken + s.queue, s.dropped, s.cleared, s.pushed)
    && s.pushed == |s.taken| + |s.queue| + |s.dropped| + |s.cleared|
    && |s.dropped| == s.drops + s.uncounted
  }

  lemma InitAccounted(s: State)
    requires Init(s)
    ensures Accounted(s)
  {
    assert s.taken + s.queue == [];
  }

  lemma HasMore(msgs: seq<Msg>, m: Msg, n: nat)
    ensures HasTicket(msgs + [m], n) <==> HasTicket(msgs, n) || n == m.ticket
  {
    if i :| 0 <= i < |msgs| && msgs[i].ticket == n { assert (msgs + [m])[i].ticket == n; }
    assert (msgs + [m])[|msgs|] == m;
  }

  lemma SplitKeep(kept: seq<Msg>, dropped: set<nat>, cleared: set<nat>, m: Msg)
    requires Split(kept, dropped, cleared, m.ticket)
    ensures Split(kept + [m], dropped, cleared, m.ticket + 1)
  {
    forall i | 0 <= i < |kept|
      ensures kept[i].ticket < m.ticket
    {
      assert HasTicket(kept, kept[i].ticket);
    }
    assert InOrder(kept + [m]);
    hide InOrder, HasTicket;
    forall n: nat
      ensures HasTicket(kept + [m], n) <==> HasTicket(kept, n) || n == m.ticket
    {
      HasMore(kept, m, n);
    }
  }

  lemma SplitDrop(kept: seq<Msg>, dropped: set<nat>, cleared: set<nat>, n: nat)
    requires Split(kept, dropped, cleared, n)
    ensures Split(kept, dropped + {n}, cleared, n + 1) && n !in dropped
  {
    hide InOrder, HasTicket;
  }

  lemma HasLess(msgs: seq<Msg>, i: nat, n: nat)
    requires InOrder(msgs) && i < |msgs|
    ensures HasTicket(msgs[..i] + msgs[i + 1..], n) <==> HasTicket(msgs, n) && n != msgs[i].ticket
  {
    var rest := msgs[..i] + msgs[i + 1..];
    if k :| 0 <= k < |rest| && rest[k].ticket == n {
      var j := if k < i then k else k + 1;
      assert msgs[j].ticket == n;
    }
    if k :| 0 <= k < |msgs| && msgs[k].ticket == n && n != msgs[i].ticket {
      var j := if k < i then k else k - 1;
      assert rest[j].ticket == n;
    }
  }

  lemma OrderLess(msgs: seq<Msg>, i: nat)
    requires InOrder(msgs) && i < |msgs|
    ensures InOrder(msgs[..i] + msgs[i + 1..]) && HasTicket(msgs, msgs[i].ticket)
  {
  }

  lemma SplitClear(kept: seq<Msg>, dropped: set<nat>, cleared: set<nat>, n: nat, i: nat)
    requires Split(kept, dropped, cleared, n) && i < |kept|
    ensures Split(kept[..i] + kept[i + 1..], dropped, cleared + {kept[i].ticket}, n) && kept[i].ticket !in cleared
  {
    hide InOrder, HasTicket;
    var rest, t := kept[..i] + kept[i + 1..], kept[i].ticket;
    OrderLess(kept, i);
    assert t !in dropped && t !in cleared && t < n;
    forall k: nat
      ensures HasTicket(rest, k) <==> HasTicket(kept, k) && k != t
    {
      HasLess(kept, i, k);
    }
    assert forall k: nat :: k < n <==> HasTicket(rest, k) || k in dropped || k in cleared + {t};
    assert forall k: nat | HasTicket(rest, k) :: k !in dropped && k !in cleared + {t};
  }

  lemma PushAccounted(s: State, kind: Kind)
    requires Accounted(s)
    ensures Accounted(Push(s, kind))
  {
    hide Split;
    var m := Msg(s.pushed, kind);
    SplitKeep(s.taken + s.queue, s.dropped, s.cleared, m);
    SplitDrop(s.taken + s.queue, s.dropped, s.cleared, s.pushed);
    assert s.taken + (s.queue + [m]) == (s.taken + s.queue) + [m];
  }

  lemma PopAccounted(s: State, s': State)
    requires Accounted(s) && s.queue != []
    requires s' == s.(queue := s.queue[1..], taken := s.taken + [s.queue[0]], worker := s'.worker)
    ensures Accounted(s')
  {
    hide Split;
    assert s'.taken + s'.queue == s.taken + s.queue;
  }

  lemma ClearAccounted(s: State)
    requires Accounted(s) && s.queue != []
    ensures Accounted(s.(queue := s.queue[1..], cleared := s.cleared + {s.queue[0].ticket}))
  {
    hide Split;
    var all, n := s.taken + s.queue, |s.taken|;
    SplitClear(all, s.dropped, s.cleared, s.pushed, n);
    assert all[..n] + all[n + 1..] == s.taken + s.queue[1..] && all[n] == s.queue[0];
  }

  lemma StepAccounted(s: State, step: Step)
    requires Accounted(s) && Enabled(s, step)
    ensures Accounted(Next(s, step))
  {
    match step
    case Produce(kind) => PushAccounted(s, kind);
    case Pop => PopAccounted(s, Next(s, Pop));
    case SendStop => PushAccounted(s, Stop);
    case FireStop => PushAccounted(s, Stop);
    case ClearOne => ClearAccounted(s);
    case _ =>
  }

  lemma {:induction false} RunAccounted(s: State, steps: seq<Step>)
    requires Accounted(s) && Runs(s, steps)
    ensures Accounted(After(s, steps))
    decreases |steps|
  {
    hide Accounted, Enabled, Next;
    if steps != [] {
      StepAccounted(s, steps[0]);
      RunAccounted(Next(s, steps[0]), steps[1..]);
    }
  }

  // ----- What is pushed, and when it is dropped

  /** The messages a step pushes: at most one. */
  function KindsOf(step: Step): seq<Kind> {
    match step
    case Produce(kind) => [kind]
    case SendStop => [Stop]
    case FireStop => [Stop]
    case _ => []
  }

  /** The kinds of all messages pushed in a run, in order. */
  function Kinds(steps: seq<Step>): seq<Kind>
    decreases |steps|
  {
    if steps == [] then [] else KindsOf(steps[0]) + Kinds(steps[1..])
  }

  /** The state after the first `i` steps. */
  function StateAt(s: State, steps: seq<Step>, i: nat): State
    requires Runs(s, steps) && i <= |steps|
    decreases |steps|
  {
    if i == 0 then s else StateAt(Next(s, steps[0]), steps[1..], i - 1)
  }

  /** Step `i` pushes the message with ticket `n`. */
  predicate Pushes(s: State, steps: seq<Step>, i: nat, n: nat) {
    i < |steps| && KindsOf(steps[i]) != [] && n == s.pushed + |Kinds(steps[..i])|
  }

  /** The message with ticket `n` was pushed in the run when the queue was full. */
  ghost predicate MetFull(s: State, steps: seq<Step>, n: nat)
    requires Runs(s, steps)
  {
    exists i: nat :: Pushes(s, steps, i, n) && |StateAt(s, steps, i).queue| == s.capacity
  }

  lemma StepDrops(s: State, step: Step)
    requires Enabled(s, step) && |s.queue| <= s.capacity
    ensures var s' := Next(s, step);
            && s'.capacity == s.capacity && |s'.queue| <= s'.capacity && s'.pushed == s.pushed + |KindsOf(step)|
            && s'.dropped == s.dropped + (if KindsOf(step) != [] && |s.queue| == s.capacity then {s.pushed} else {})
  {
  }

  lemma PushesFirst(s: State, s1: State, steps: seq<Step>, n: nat)
    requires steps != [] && s1.pushed == s.pushed + |KindsOf(steps[0])|
    ensures Pushes(s, steps, 0, n) <==> KindsOf(steps[0]) != [] && n == s.pushed
    ensures forall i: nat :: Pushes(s, steps, i + 1, n) <==> Pushes(s1, steps[1..], i, n)
  {
    hide KindsOf;
    assert steps[..0] == [];
    forall i: nat
      ensures Pushes(s, steps, i + 1, n) <==> Pushes(s1, steps[1..], i, n)
    {
      if i + 1 < |steps| { assert steps[..i + 1][1..] == steps[1..][..i] && steps[..i + 1][0] == steps[0]; }
    }
  }

  lemma MetFullFirst(s: State, steps: seq<Step>, n: nat)
    requires steps != [] && Runs(s, steps) && |s.queue| <= s.capacity
    ensures MetFull(s, steps, n) <==>
            (KindsOf(steps[0]) != [] && n == s.pushed && |s.queue| == s.capacity) || MetFull(Next(s, steps[0]), steps[1..], n)
  {
    var s1 := Next(s, steps[0]);
    StepDrops(s, steps[0]);
    PushesFirst(s, s1, steps, n);
    hide Next, Enabled, Pushes, KindsOf;
    assert StateAt(s, steps, 0) == s;
    if MetFull(s, steps, n) {
      var i: nat :| Pushes(s, steps, i, n) && |StateAt(s, steps, i).queue| == s.capacity;
      if i > 0 { assert Pushes(s1, steps[1..], i - 1, n) && StateAt(s1, steps[1..], i - 1) == StateAt(s, steps, i); }
    }
    if MetFull(s1, steps[1..], n) {
      var i: nat :| Pushes(s1, steps[1..], i, n) && |StateAt(s1, steps[1..], i).queue| == s1.capacity;
      assert Pushes(s, steps, i + 1, n);
      assert StateAt(s, steps, i + 1) == StateAt(s1, steps[1..], i);
    }
  }

  /** In every run: the queue never holds more than its capacity, and a message is dropped iff the queue held as many when it
      was pushed; so a run in which the queue never fills drops nothing. */
  lemma {:induction false} DroppedIffFull(s: State, steps: seq<Step>)
    requires Runs(s, steps) && |s.queue| <= s.capacity
    ensures |After(s, steps).queue| <= s.capacity
    ensures forall n: nat :: n in After(s, steps).dropped <==> n in s.dropped || MetFull(s, steps, n)
    decreases |steps|
  {
    if steps != [] {
      var s1 := Next(s, steps[0]);
      StepDrops(s, steps[0]);
      DroppedIffFull(s1, steps[1..]);
      hide Next, Enabled, KindsOf, MetFull;
      forall n: nat
        ensures n in After(s, steps).dropped <==> n in s.dropped || MetFull(s, steps, n)
      {
        MetFullFirst(s, steps, n);
      }
    }
  }

  /** The message is the one that was pushed under its ticket. */
  ghost predicate Genuine(m: Msg, pushed: seq<Kind>) {
    m.ticket < |pushed| && m.kind == pushed[m.ticket]
  }

  /** `pushed` lists what has been pushed so far, and every message around is one of these. */
  ghost predicate AllGenuine(s: State, pushed: seq<Kind>) {
    s.pushed == |pushed| && forall m | m in s.taken || m in s.queue :: Genuine(m, pushed)
  }

  lemma StepGenuine(s: State, step: Step, pushed: seq<Kind>)
    requires Enabled(s, step) && AllGenuine(s, pushed)
    ensures AllGenuine(Next(s, step), pushed + KindsOf(step))
  {
    var s', more := Next(s, step), pushed + KindsOf(step);
    forall m | m in s'.taken || m in s'.queue
      ensures Genuine(m, more)
    {
      if m in s.taken || m in s.queue { assert Genuine(m, pushed); }
    }
  }

  lemma {:induction false} RunGenuine(s: State, steps: seq<Step>, pushed: seq<Kind>)
    requires Runs(s, steps) && AllGenuine(s, pushed)
    ensures AllGenuine(After(s, steps), pushed + Kinds(steps))
    decreases |steps|
  {
    hide Enabled, Next, KindsOf, AllGenuine;
    if steps == [] {
      assert pushed + Kinds(steps) == pushed;
    } else {
      StepGenuine(s, steps[0], pushed);
      RunGenuine(Next(s, steps[0]), steps[1..], pushed + KindsOf(steps[0]));
      assert pushed + KindsOf(steps[0]) + Kinds(steps[1..]) == pushed + Kinds(steps);
    }
  }

  /** In every run, the message with ticket n is the n-th that was pushed, of that kind: whether taken, queued or seen by an
      output. */
  lemma MessagesAreGenuine(s: State, steps: seq<Step>)
    requires Init(s) && Runs(s, steps)
    ensures var e, pushed := After(s, steps), Kinds(steps);
            && e.pushed == |pushed|
            && (forall m | m in e.taken || m in e.queue :: Genuine(m, pushed))
            && (forall o | 0 <= o < |e.seen| :: forall m | m in e.seen[o] :: Genuine(m, pushed))
  {
    hide Runs, After, Kinds, Genuine;
    RunGenuine(s, steps, []);
    assert [] + Kinds(steps) == Kinds(steps);
    RunDelivered(s, steps);
    var e := After(s, steps);
    forall o, m | 0 <= o < |e.seen| && m in e.seen[o]
      ensures m in e.taken
    {
      assert e.seen[o] == SeenBy(e, o);
    }
  }

  // ----- What the outputs see

  /** How much of what the worker has taken an output has seen. */
  function SeenBy(s: State, o: nat): seq<Msg> {
    if s.worker.Delivering? && s.worker.next <= o && s.taken != [] then s.taken[..|s.taken| - 1] else s.taken
  }

  /** Each output has seen what the worker has taken, except that outputs further down have yet to see the message at
      hand; only the last message taken can be a STOP, and with it the worker ends. */
  ghost predicate Delivered(s: State) {
    && |s.seen| == s.outputs
    && (forall o | 0 <= o < |s.seen| :: s.seen[o] == SeenBy(s, o))
    && (forall i | 0 <= i < |s.taken| - 1 :: !s.taken[i].kind.Stop?)
    && (s.worker.Delivering? || s.worker.Checking? ==> s.taken != [] && s.taken[|s.taken| - 1] == s.worker.msg)
    && (s.worker.Delivering? ==> s.worker.next < s.outputs)
    && (s.worker.Popping? && s.taken != [] ==> !s.taken[|s.taken| - 1].kind.Stop?)
    && (s.worker.Exited? ==> s.taken != [] && s.taken[|s.taken| - 1].kind.Stop?)
  }

  lemma PopDelivered(s: State)
    requires Delivered(s) && Enabled(s, Pop)
    ensures Delivered(Next(s, Pop))
  {
    var s' := Next(s, Pop);
    assert s'.taken[..|s'.taken| - 1] == s.taken;
  }

  lemma DeliverDelivered(s: State)
    requires Delivered(s) && Enabled(s, Deliver)
    ensures Delivered(Next(s, Deliver))
  {
    var s', o := Next(s, Deliver), s.worker.next;
    assert s.taken[..|s.taken| - 1] + [s.worker.msg] == s.taken;
    forall p | 0 <= p < |s.seen|
      ensures s'.seen[p] == SeenBy(s', p)
    {
      assert s.seen[p] == SeenBy(s, p);
    }
  }

  lemma StepDelivered(s: State, step: Step)
    requires Delivered(s) && Enabled(s, step)
    ensures Delivered(Next(s, step))
  {
    hide Delivered;
    if step.Pop? {
      PopDelivered(s);
    } else if step.Deliver? {
      DeliverDelivered(s);
    } else {
      OtherDelivered(s, step);
    }
  }

  lemma OtherDelivered(s: State, step: Step)
    requires Delivered(s) && Enabled(s, step) && !step.Pop? && !step.Deliver?
    ensures Delivered(Next(s, step))
  {
    var s' := Next(s, step);
    forall o | 0 <= o < |s.seen|
      ensures s'.seen[o] == SeenBy(s', o)
    {
      assert s.seen[o] == SeenBy(s, o);
    }
  }

  lemma {:induction false} RunDelivered(s: State, steps: seq<Step>)
    requires Delivered(s) && Runs(s, steps)
    ensures Delivered(After(s, steps))
    decreases |steps|
  {
    hide Delivered, Enabled, Next;
    if steps != [] {
      StepDelivered(s, steps[0]);
      RunDelivered(Next(s, steps[0]), steps[1..]);
    }
  }

  /** The messages an output is still to see: those in the queue, and the one at hand. */
  ghost predicate StillToSee(s: State, o: nat, n: nat) {
    HasTicket(s.queue, n) || (s.worker.Delivering? && s.worker.next <= o && s.worker.msg.ticket == n)
  }

  /** In every run each output sees the messages that were neither dropped nor cleared, in push order, once each, and
      nothing after the first STOP. Nothing pushed is unaccounted for. */
  lemma OutputsSeeAll(s: State, steps: seq<Step>, o: nat)
    requires Init(s) && Runs(s, steps) && o < s.outputs
    ensures var e := After(s, steps);
            && o < |e.seen| && InOrder(e.seen[o])
            && (forall i | 0 <= i < |e.seen[o]| - 1 :: !e.seen[o][i].kind.Stop?)
            && (forall n: nat :: HasTicket(e.seen[o], n) <==>
                  n < e.pushed && n !in e.dropped && n !in e.cleared && !StillToSee(e, o, n))
  {
    hide Runs, After;
    InitAccounted(s);
    RunAccounted(s, steps);
    RunDelivered(s, steps);
    RunOutputs(s, steps);
    SeenIsKept(After(s, steps), o);
  }

  lemma {:induction false} RunOutputs(s: State, steps: seq<Step>)
    requires Runs(s, steps)
    ensures After(s, steps).outputs == s.outputs && After(s, steps).capacity == s.capacity
    decreases |steps|
  {
    if steps != [] { RunOutputs(Next(s, steps[0]), steps[1..]); }
  }

  lemma SeenIsKept(s: State, o: nat)
    requires Accounted(s) && Delivered(s) && o < s.outputs
    ensures InOrder(s.seen[o]) && forall i | 0 <= i < |s.seen[o]| - 1 :: !s.seen[o][i].kind.Stop?
    ensures forall n: nat :: HasTicket(s.seen[o], n) <==>
                n < s.pushed && n !in s.dropped && n !in s.cleared && !StillToSee(s, o, n)
  {
    var all, seen := s.taken + s.queue, s.seen[o];
    assert seen <= all;
    var k := |seen|;
    forall n: nat
      ensures HasTicket(all, n) <==> HasTicket(seen, n) || StillToSee(s, o, n)
      ensures !(HasTicket(seen, n) && StillToSee(s, o, n))
    {
      PrefixTickets(s, o, n);
    }
    hide HasTicket, StillToSee;
  }

  lemma TicketsOfParts(a: seq<Msg>, b: seq<Msg>, n: nat)
    ensures HasTicket(a + b, n) <==> HasTicket(a, n) || HasTicket(b, n)
  {
    if i :| 0 <= i < |a| && a[i].ticket == n { assert (a + b)[i].ticket == n; }
    if i :| 0 <= i < |b| && b[i].ticket == n { assert (a + b)[|a| + i].ticket == n; }
    if i :| 0 <= i < |a + b| && (a + b)[i].ticket == n {
      if i >= |a| { assert b[i - |a|].ticket == n; }
    }
  }

  lemma PartsShareNothing(a: seq<Msg>, b: seq<Msg>, n: nat)
    requires InOrder(a + b)
    ensures !(HasTicket(a, n) && HasTicket(b, n))
  {
    forall i, k | 0 <= i < |a| && 0 <= k < |b|
      ensures a[i].ticket != b[k].ticket
    {
      assert (a + b)[i] == a[i] && (a + b)[|a| + k] == b[k];
    }
  }

  /** The message at hand, if the output has yet to see it. */
  function AtHand(s: State, o: nat): seq<Msg> {
    if s.worker.Delivering? && s.worker.next <= o then [s.worker.msg] else []
  }

  lemma SeenAndRest(s: State, o: nat)
    requires Delivered(s) && o < s.outputs
    ensures o < |s.seen| && s.taken + s.queue == s.seen[o] + (AtHand(s, o) + s.queue)
  {
    assert s.seen[o] == SeenBy(s, o);
    assert s.taken == s.seen[o] + AtHand(s, o);
  }

  lemma PrefixTickets(s: State, o: nat, n: nat)
    requires Delivered(s) && o < s.outputs && InOrder(s.taken + s.queue)
    ensures HasTicket(s.taken + s.queue, n) <==> HasTicket(s.seen[o], n) || StillToSee(s, o, n)
    ensures !(HasTicket(s.seen[o], n) && StillToSee(s, o, n))
  {
    hide Delivered, InOrder, HasTicket;
    SeenAndRest(s, o);
    TicketsOfParts(s.seen[o], AtHand(s, o) + s.queue, n);
    PartsShareNothing(s.seen[o], AtHand(s, o) + s.queue, n);
    TicketsOfParts(AtHand(s, o), s.queue, n);
    TicketAtHand(s, o, n);
  }

  lemma TicketAtHand(s: State, o: nat, n: nat)
    ensures HasTicket(AtHand(s, o), n) <==> s.worker.Delivering? && s.worker.next <= o && s.worker.msg.ticket == n
  {
    assert AtHand(s, o) != [] ==> AtHand(s, o)[0] == s.worker.msg;
  }

  // ----- Shutdown

  ghost predicate HasStop(msgs: seq<Msg>) {
    exists i :: 0 <= i < |msgs| && msgs[i].kind.Stop?
  }

  /** Once the watchdog has found the queue empty, only a STOP can be in it; once it is done, there has been one. */
  ghost predicate Stopping(s: State) {
    && (!s.watchdog.Quiet? ==> !s.main.Serving?) && (s.main.Joined? ==> s.worker.Exited?)
    && (s.watchdog.Emptied? ==> forall i | 0 <= i < |s.queue| :: s.queue[i].kind.Stop?)
    && (s.watchdog.Done? ==> HasStop(s.queue) || HasStop(s.taken))
  }

  lemma HasStopAppend(msgs: seq<Msg>, m: Msg)
    ensures HasStop(msgs + [m]) <==> HasStop(msgs) || m.kind.Stop?
  {
    if i :| 0 <= i < |msgs| && msgs[i].kind.Stop? { assert (msgs + [m])[i].kind.Stop?; }
    assert (msgs + [m])[|msgs|] == m;
  }

  lemma HasStopFirst(msgs: seq<Msg>)
    requires msgs != []
    ensures HasStop(msgs) <==> msgs[0].kind.Stop? || HasStop(msgs[1..])
  {
    if i :| 0 <= i < |msgs| && msgs[i].kind.Stop? {
      if i > 0 { assert msgs[1..][i - 1].kind.Stop?; }
    }
    if i :| 0 <= i < |msgs[1..]| && msgs[1..][i].kind.Stop? { assert msgs[i + 1].kind.Stop?; }
  }

  lemma StepStopping(s: State, step: Step)
    requires Stopping(s) && Enabled(s, step) && s.capacity >= 1
    ensures Stopping(Next(s, step))
  {
    hide HasStop;
    HasStopAppend(s.queue, Msg(s.pushed, Stop));
    if s.queue != [] {
      HasStopAppend(s.taken, s.queue[0]);
      HasStopFirst(s.queue);
      StopSomewhere(s.queue, 0);
    }
  }

  lemma StopSomewhere(msgs: seq<Msg>, i: nat)
    requires i < |msgs|
    ensures msgs[i].kind.Stop? ==> HasStop(msgs)
  {
  }

  lemma {:induction false} RunStopping(s: State, steps: seq<Step>)
    requires Stopping(s) && Runs(s, steps) && s.capacity >= 1
    ensures Stopping(After(s, steps))
    decreases |steps|
  {
    hide Stopping;
    if steps != [] {
      StepStopping(s, steps[0]);
      RunStopping(Next(s, steps[0]), steps[1..]);
    }
  }

  /** With room for at least one message, once the watchdog has fired a STOP has been taken or is in the queue, even if
      the first one was dropped or cleared; so the worker no longer waits for a message that does not come. */
  lemma WatchdogDelivers(s: State, steps: seq<Step>)
    requires Init(s) && s.capacity >= 1 && Runs(s, steps) && After(s, steps).watchdog.Done?
    ensures var e := After(s, steps); HasStop(e.queue) || HasStop(e.taken)
    ensures After(s, steps).worker.Popping? ==> After(s, steps).queue != []
  {
    hide Runs, After;
    RunStopping(s, steps);
    RunDelivered(s, steps);
  }

  /** What is left to do after the shutdown has begun. */
  function Rank(s: State): nat {
    (|s.queue| + (if s.main.Armed? then 1 else 0) + (if s.watchdog.Done? then 0 else 1)) * (s.outputs + 3)
    + (if s.worker.Delivering? && s.worker.next <= s.outputs then s.outputs - s.worker.next + 1
       else if s.worker.Checking? then 1 else 0)
    + (if s.main.Armed? then 2 else if s.main.StopSent? then 1 else 0)
    + (if s.watchdog.Quiet? then 3 else if s.watchdog.Clearing? then 2 else if s.watchdog.Emptied? then 1 else 0)
    + s.uncounted
  }

  lemma StepLowersRank(s: State, step: Step)
    requires Enabled(s, step) && !s.main.Serving? && Delivered(s)
    ensures Rank(Next(s, step)) < Rank(s) && !Next(s, step).main.Serving?
  {
    var s' := Next(s, step);
    var before := |s.queue| + (if s.main.Armed? then 1 else 0) + (if s.watchdog.Done? then 0 else 1);
    var after := |s'.queue| + (if s'.main.Armed? then 1 else 0) + (if s'.watchdog.Done? then 0 else 1);
    assert after == before || after == before - 1;
    if after == before - 1 { Smaller(before, s.outputs + 3); }
  }

  lemma Smaller(n: nat, k: nat)
    requires n > 0
    ensures (n - 1) * k == n * k - k
  {
  }

  /** Once the shutdown has begun, no run goes on for ever. */
  lemma {:induction false} ShutdownIsBounded(s: State, steps: seq<Step>)
    requires Runs(s, steps) && !s.main.Serving? && Delivered(s)
    ensures |steps| <= Rank(s) && !After(s, steps).main.Serving?
    decreases |steps|
  {
    hide Rank, Delivered, Enabled, Next;
    if steps != [] {
      StepLowersRank(s, steps[0]);
      StepDelivered(s, steps[0]);
      ShutdownIsBounded(Next(s, steps[0]), steps[1..]);
    }
  }

  /** And it can only come to rest when the worker has been joined: the shutdown completes unless an output blocks. */
  lemma RestsOnlyWhenJoined(s: State, steps: seq<Step>)
    requires Init(s) && s.capacity >= 1 && Runs(s, steps) && !After(s, steps).main.Serving?
    requires forall step :: !Enabled(After(s, steps), step)
    ensures var e := After(s, steps); e.main.Joined? && e.worker.Exited? && e.uncounted == 0
  {
    hide Runs, After;
    RunStopping(s, steps);
    RunDelivered(s, steps);
    SomeStep(After(s, steps));
  }

  lemma SomeStep(s: State)
    requires Stopping(s) && Delivered(s) && !s.main.Serving? && forall step :: !Enabled(s, step)
    ensures s.main.Joined? && s.worker.Exited? && s.uncounted == 0
  {
    assert !Enabled(s, CountDrop) && !Enabled(s, Pop) && !Enabled(s, Deliver) && !Enabled(s, CheckType);
    assert !Enabled(s, SendStop) && !Enabled(s, Join) && !Enabled(s, Fire);
    assert !Enabled(s, ClearOne) && !Enabled(s, FindEmpty) && !Enabled(s, FireStop);
  }
}
