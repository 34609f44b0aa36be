/** The request, reply and close protocol of an MCP session (common/mcp_tool_call_conn.py).
    Callers and the worker run on the session's event loop; `close` runs on that loop
    (`close_sync`) or on another one (`close_multiple_mcp_toolcall_sessions`). */
module McpSession {
  import opened PyValues

  /** A caller of `_call_mcp_server`; it is also the name of its request. */
  datatype Caller = Fresh | Checked | Refused | Submitted | Answered | GaveUp

  datatype Worker = AtTop | Getting | Serving(request: nat) | Stopped

  datatype Closing = Open | Draining | Drained

  /** `failing` says that there is no client session, so that every request is answered with an error at once.
      `current` is the caller between its check of `_close` and its put. `submitted` and `taken`
      record the order in which requests entered and left the queue. */
  datatype State = State(
    callers: seq<Caller>,
    current: Option<nat>,
    queue: seq<nat>,
    worker: Worker,
    replies: seq<nat>,
    abandoned: seq<nat>,
    closing: Closing,
    running: bool,
    failing: bool,
    submitted: seq<nat>,
    taken: seq<nat>)

  datatype Event =
    | Check(c: nat) | Put | Receive(c: nat) | Expire(c: nat)
    | Top | Timeout | Take | Serve | Cancel | Fail
    | BeginClose | DrainOne | StopLoop

  function Start(n: nat, failing: bool): State {
    State(seq(n, i => Fresh), None, [], AtTop, [], [], Open, true, failing, [], [])
  }

  /** The loop can run another callback: none is in the middle, and no `close` of its own drains. */
  predicate Free(own: bool, s: State) {
    s.running && s.current.None? && (own ==> !s.closing.Draining?)
  }

  function Removed(s: State): State
    requires s.queue != []
  {
    s.(queue := s.queue[1..], taken := s.taken + [s.queue[0]])
  }

  function StepCaller(own: bool, s: State, e: Event): State {
    match e
    case Check(c) =>
      if Free(own, s) && c < |s.callers| && s.callers[c].Fresh? then
        if !s.closing.Open? then s.(callers := s.callers[c := Refused])
        else s.(callers := s.callers[c := Checked], current := Some(c))
      else s
    case Put =>
      if s.running && s.current.Some? && s.current.value < |s.callers| then
        var c := s.current.value;
        s.(callers := s.callers[c := Submitted], current := None,
           queue := s.queue + [c], submitted := s.submitted + [c])
      else s
    case Receive(c) =>
      if Free(own, s) && c < |s.callers| && s.callers[c].Submitted? && c in s.replies then
        s.(callers := s.callers[c := Answered])
      else s
    case Expire(c) =>
      if Free(own, s) && c < |s.callers| && s.callers[c].Submitted? then s.(callers := s.callers[c := GaveUp]) else s
    case _ => s
  }

  /** `_process_mcp_tasks`; the worker looks at `_close` only at the top of its loop. When the transport fails
      the loop is entered once more without a session. */
  function StepWorker(own: bool, s: State, e: Event): State {
    if !Free(own, s) then s
    else match e
      case Top =>
        if s.worker.AtTop? then s.(worker := if s.closing.Open? then Getting else Stopped) else s
      case Timeout => if s.worker.Getting? then s.(worker := AtTop) else s
      case Take =>
        if !s.worker.Getting? || s.queue == [] then s
        else if s.failing then Removed(s).(worker := AtTop, replies := s.replies + [s.queue[0]])
        else Removed(s).(worker := Serving(s.queue[0]))
      case Serve =>
        if s.worker.Serving? then s.(worker := AtTop, replies := s.replies + [s.worker.request]) else s
      case Cancel =>
        if s.worker.Serving? then s.(worker := Stopped, abandoned := s.abandoned + [s.worker.request])
        else s.(worker := Stopped)
      case Fail => if s.worker.Stopped? then s.(worker := AtTop, failing := true) else s
      case _ => s
  }

  /** `close`: set the flag, answer everything queued, stop the loop between two callbacks. */
  function StepClose(own: bool, s: State, e: Event): State {
    match e
    case BeginClose =>
      if s.closing.Open? && (own ==> s.running && s.current.None?) then s.(closing := Draining) else s
    case DrainOne =>
      if !s.closing.Draining? then s
      else if s.queue == [] then s.(closing := Drained)
      else Removed(s).(replies := s.replies + [s.queue[0]])
    case StopLoop =>
      if s.closing.Drained? && s.running && s.current.None? then
        s.(running := false, worker := Stopped,
           abandoned := s.abandoned + if s.worker.Serving? then [s.worker.request] else [])
      else s
    case _ => s
  }

  /** One step; an event that is not possible in a state leaves it as it is. */
  function Step(own: bool, s: State, e: Event): State {
    if e.Check? || e.Put? || e.Receive? || e.Expire? then StepCaller(own, s, e)
    else if e.BeginClose? || e.DrainOne? || e.StopLoop? then StepClose(own, s, e)
    else StepWorker(own, s, e)
  }

  function Run(own: bool, s: State, events: seq<Event>): State {
    if events == [] then s
    else Step(own, Run(own, s, events[..|events| - 1]), events[|events| - 1])
  }

  // ---- The invariant ----

  predicate Sent(c: Caller) {
    c.Submitted? || c.Answered? || c.GaveUp?
  }

  function InFlight(s: State): seq<nat> {
    if s.worker.Serving? then [s.worker.request] else []
  }

  predicate Distinct(xs: seq<nat>) {
    forall i, j :: 0 <= i < j < |xs| ==> xs[i] != xs[j]
  }

  /** A caller is in the middle of a call, has sent a request, or neither. */
  ghost predicate CallersAgree(s: State) {
    && (forall c :: 0 <= c < |s.callers| ==> (s.callers[c].Checked? <==> s.current == Some(c)))
    && (s.current.Some? ==> s.current.value < |s.callers|)
    && (forall c: nat :: c in s.submitted <==> c < |s.callers| && Sent(s.callers[c]))
    && (forall c :: 0 <= c < |s.callers| ==> (s.callers[c].Answered? ==> c in s.replies))
  }

  /** Requests leave the queue in the order they came, each to exactly one place. */
  predicate RequestsAgree(s: State) {
    && Distinct(s.submitted)
    && s.submitted == s.taken + s.queue
    && multiset(s.taken) == multiset(s.replies) + multiset(InFlight(s)) + multiset(s.abandoned)
  }

  predicate WorkerAgrees(s: State) {
    && |s.abandoned| + |InFlight(s)| <= 1
    && (s.abandoned != [] ==> s.worker.Stopped? || s.failing)
    && (s.failing ==> !s.worker.Serving?)
    && (!s.running ==> s.worker.Stopped? && s.closing.Drained? && s.current.None?)
  }

  predicate CloseAgrees(own: bool, s: State) {
    && (s.closing.Drained? ==> |s.queue| + (if s.current.Some? then 1 else 0) <= 1)
    && (own && !s.closing.Open? ==> s.current.None?)
    && (own && s.closing.Drained? ==> s.queue == [])
  }

  ghost predicate Invariant(own: bool, s: State) {
    CallersAgree(s) && RequestsAgree(s) && WorkerAgrees(s) && CloseAgrees(own, s)
  }

  lemma CallerStepKeepsCallers(own: bool, s: State, e: Event)
    requires CallersAgree(s)
    ensures CallersAgree(StepCaller(own, s, e))
  {
  }

  lemma CallerStepKeepsRequests(own: bool, s: State, e: Event)
    requires CallersAgree(s) && RequestsAgree(s)
    ensures RequestsAgree(StepCaller(own, s, e))
  {
    if e.Put? && s.running && s.current.Some? {
      var c := s.current.value;
      assert c !in s.submitted;
      assert s.submitted + [c] == s.taken + (s.queue + [c]);
    }
  }

  lemma TakenMoves(s: State)
    requires RequestsAgree(s) && s.queue != []
    ensures Removed(s).taken + Removed(s).queue == s.submitted
    ensures multiset(Removed(s).taken) == multiset(s.taken) + multiset([s.queue[0]])
  {
    assert s.queue == [s.queue[0]] + s.queue[1..];
  }

  lemma TakeKeepsRequests(own: bool, s: State)
    requires RequestsAgree(s) && s.queue != [] && s.worker.Getting?
    ensures RequestsAgree(StepWorker(own, s, Take))
  {
    TakenMoves(s);
  }

  lemma WorkerStepKeepsRequests(own: bool, s: State, e: Event)
    requires RequestsAgree(s)
    ensures RequestsAgree(StepWorker(own, s, e))
  {
    if e.Take? && s.queue != [] && s.worker.Getting? {
      TakeKeepsRequests(own, s);
    }
  }

  lemma CloseStepKeepsRequests(own: bool, s: State, e: Event)
    requires RequestsAgree(s)
    ensures RequestsAgree(StepClose(own, s, e))
  {
    if s.queue != [] {
      TakenMoves(s);
    }
  }

  lemma CallerStepKeepsRest(own: bool, s: State, e: Event)
    requires WorkerAgrees(s) && CloseAgrees(own, s)
    ensures WorkerAgrees(StepCaller(own, s, e)) && CloseAgrees(own, StepCaller(own, s, e))
  {
  }

  lemma WorkerStepKeepsCallers(own: bool, s: State, e: Event)
    requires CallersAgree(s)
    ensures CallersAgree(StepWorker(own, s, e))
  {
    assert StepWorker(own, s, e).callers == s.callers;
  }

  lemma WorkerStepKeepsRest(own: bool, s: State, e: Event)
    requires WorkerAgrees(s) && CloseAgrees(own, s)
    ensures WorkerAgrees(StepWorker(own, s, e)) && CloseAgrees(own, StepWorker(own, s, e))
  {
  }

  lemma CloseStepKeepsCallers(own: bool, s: State, e: Event)
    requires CallersAgree(s)
    ensures CallersAgree(StepClose(own, s, e))
  {
    assert StepClose(own, s, e).callers == s.callers;
  }

  lemma CloseStepKeepsRest(own: bool, s: State, e: Event)
    requires WorkerAgrees(s) && CloseAgrees(own, s)
    ensures WorkerAgrees(StepClose(own, s, e)) && CloseAgrees(own, StepClose(own, s, e))
  {
  }

  lemma StepKeepsInvariant(own: bool, s: State, e: Event)
    requires Invariant(own, s)
    ensures Invariant(own, Step(own, s, e))
  {
    if e.Check? || e.Put? || e.Receive? || e.Expire? {
      CallerStepKeepsCallers(own, s, e);
      CallerStepKeepsRequests(own, s, e);
      CallerStepKeepsRest(own, s, e);
    } else if e.BeginClose? || e.DrainOne? || e.StopLoop? {
      CloseStepKeepsCallers(own, s, e);
      CloseStepKeepsRequests(own, s, e);
      CloseStepKeepsRest(own, s, e);
    } else {
      WorkerStepKeepsCallers(own, s, e);
      WorkerStepKeepsRequests(own, s, e);
      WorkerStepKeepsRest(own, s, e);
    }
  }

  lemma {:induction false} RunKeepsInvariant(own: bool, n: nat, failing: bool, events: seq<Event>)
    ensures Invariant(own, Run(own, Start(n, failing), events))
  {
    if events != [] {
      RunKeepsInvariant(own, n, failing, events[..|events| - 1]);
      StepKeepsInvariant(own, Run(own, Start(n, failing), events[..|events| - 1]), events[|events| - 1]);
    }
  }

  // ---- What holds in every run ----

  function CountIn(s: State, c: nat): nat {
    multiset(s.queue)[c] + multiset(InFlight(s))[c] + multiset(s.replies)[c] + multiset(s.abandoned)[c]
  }

  lemma DistinctCount(xs: seq<nat>, c: nat)
    requires Distinct(xs)
    ensures multiset(xs)[c] == if c in xs then 1 else 0
  {
    if xs != [] {
      var rest, last := xs[..|xs| - 1], xs[|xs| - 1];
      assert xs == rest + [last];
      DistinctCount(rest, c);
      assert last !in rest;
    }
  }

  /** A request that was sent is queued, in flight, replied to or abandoned, in one of these and once;
      an answered caller was replied to; a call that was not sent is nowhere. */
  lemma RequestsAreConserved(own: bool, n: nat, failing: bool, events: seq<Event>, c: nat)
    requires c < |Run(own, Start(n, failing), events).callers|
    ensures var s := Run(own, Start(n, failing), events);
            && CountIn(s, c) == (if Sent(s.callers[c]) then 1 else 0)
            && (s.callers[c].Answered? ==> multiset(s.replies)[c] == 1)
  {
    RunKeepsInvariant(own, n, failing, events);
    var s := Run(own, Start(n, failing), events);
    DistinctCount(s.submitted, c);
    assert multiset(s.submitted) == multiset(s.taken) + multiset(s.queue);
  }

  /** Requests leave the queue in the order in which they entered it. */
  lemma QueueIsFirstInFirstOut(own: bool, n: nat, failing: bool, events: seq<Event>)
    ensures var s := Run(own, Start(n, failing), events);
            s.submitted == s.taken + s.queue && Distinct(s.submitted)
  {
    RunKeepsInvariant(own, n, failing, events);
  }

  // ---- Close on the session's own loop ----

  /** Once the drain on the session's own loop is over, nothing is queued, then or later. */
  lemma NothingQueuedAfterClose(n: nat, failing: bool, events: seq<Event>)
    ensures var s := Run(true, Start(n, failing), events); s.closing.Drained? ==> s.queue == []
  {
    RunKeepsInvariant(true, n, failing, events);
  }

  /** When the loop has stopped, every request was replied to, except at most the one the worker was serving. */
  lemma AllButOneReplied(n: nat, failing: bool, events: seq<Event>)
    requires !Run(true, Start(n, failing), events).running
    ensures var s := Run(true, Start(n, failing), events);
            && |s.replies| + |s.abandoned| == |s.submitted| && |s.abandoned| <= 1
            && multiset(s.replies) + multiset(s.abandoned) == multiset(s.submitted)
  {
    RunKeepsInvariant(true, n, failing, events);
    var s := Run(true, Start(n, failing), events);
    assert s.taken == s.submitted;
    assert |multiset(s.taken)| == |multiset(s.replies)| + |multiset(s.abandoned)|;
  }

  function DrainEvents(n: nat): seq<Event> {
    seq(n, i => DrainOne)
  }

  lemma {:induction false} RunConcat(own: bool, s: State, a: seq<Event>, b: seq<Event>)
    ensures Run(own, s, a + b) == Run(own, Run(own, s, a), b)
  {
    if b == [] {
      assert a + b == a;
    } else {
      RunConcat(own, s, a, b[..|b| - 1]);
      assert (a + b)[..|a + b| - 1] == a + b[..|b| - 1];
    }
  }

  function DrainedState(s: State): State {
    s.(closing := Drained, queue := [], replies := s.replies + s.queue, taken := s.taken + s.queue)
  }

  lemma RunOne(own: bool, s: State, e: Event)
    ensures Run(own, s, [e]) == Step(own, s, e)
  {
    RunSnoc(own, s, [], e);
    assert [] + [e] == [e];
  }

  lemma DrainStep(own: bool, s: State)
    requires s.closing.Draining?
    ensures var r := Step(own, s, DrainOne);
            if s.queue == [] then r == s.(closing := Drained) && r == DrainedState(s)
            else r.closing.Draining? && |r.queue| == |s.queue| - 1 && DrainedState(r) == DrainedState(s)
  {
    if s.queue == [] {
      assert s.replies + s.queue == s.replies && s.taken + s.queue == s.taken;
    } else {
      var head, rest := [s.queue[0]], s.queue[1..];
      assert s.queue == head + rest;
      assert (s.replies + head) + rest == s.replies + s.queue && (s.taken + head) + rest == s.taken + s.queue;
    }
  }

  /** Draining takes one step for each queued request and one to see the empty queue, and replies to them in order. */
  lemma {:induction false} DrainRepliesToAll(own: bool, s: State)
    requires s.closing.Draining?
    ensures Run(own, s, DrainEvents(|s.queue| + 1)) == DrainedState(s)
    decreases |s.queue|
  {
    var n := |s.queue|;
    assert DrainEvents(n + 1) == [DrainOne] + DrainEvents(n);
    RunConcat(own, s, [DrainOne], DrainEvents(n));
    RunOne(own, s, DrainOne);
    DrainStep(own, s);
    if n > 0 {
      DrainRepliesToAll(own, Step(own, s, DrainOne));
    }
  }

  function Drains(events: seq<Event>): nat {
    if events == [] then 0
    else Drains(events[..|events| - 1]) + if events[|events| - 1].DrainOne? then 1 else 0
  }

  /** The state after `k` requests were drained. */
  function DrainedUpTo(s: State, k: nat): State
    requires k <= |s.queue|
  {
    s.(queue := s.queue[k..], replies := s.replies + s.queue[..k], taken := s.taken + s.queue[..k])
  }

  lemma DrainOneMore(s: State, k: nat, e: Event)
    requires s.closing.Draining? && s.current.None? && k <= |s.queue|
    requires e.DrainOne? ==> k < |s.queue|
    ensures Step(true, DrainedUpTo(s, k), e) == DrainedUpTo(s, if e.DrainOne? then k + 1 else k)
  {
    if e.DrainOne? {
      assert s.queue[k..][0] == s.queue[k] && s.queue[k..][1..] == s.queue[k + 1..];
      assert (s.replies + s.queue[..k]) + [s.queue[k]] == s.replies + s.queue[..k + 1];
      assert (s.taken + s.queue[..k]) + [s.queue[k]] == s.taken + s.queue[..k + 1];
    }
  }

  /** On the session's own loop nothing happens between the steps of a drain: whatever the other events, what has been
      replied to is what the drain has taken from the queue. */
  lemma {:induction false} DrainIsUninterrupted(s: State, events: seq<Event>)
    requires s.closing.Draining? && s.current.None? && Drains(events) <= |s.queue|
    ensures Run(true, s, events) == DrainedUpTo(s, Drains(events))
  {
    if events == [] {
      assert s.queue[0..] == s.queue && s.replies + s.queue[..0] == s.replies && s.taken + s.queue[..0] == s.taken;
    } else {
      DrainIsUninterrupted(s, events[..|events| - 1]);
      DrainOneMore(s, Drains(events[..|events| - 1]), events[|events| - 1]);
    }
  }

  // ---- Callers and the worker after a close has begun ----

  /** The close has begun, and `c` is neither in the middle of a call nor has it sent one. */
  predicate Late(s: State, c: nat) {
    && !s.closing.Open? && c < |s.callers| && (s.callers[c].Fresh? || s.callers[c].Refused?)
    && s.current != Some(c) && c !in s.submitted
  }

  /** Who had not made its check of `_close` by then is refused when it makes it; its request is never put. */
  lemma {:induction false} LateCallersAreRefused(own: bool, s: State, events: seq<Event>, c: nat)
    requires Late(s, c)
    ensures var r := Run(own, s, events);
            Late(r, c) && (Free(own, r) ==> Step(own, r, Check(c)).callers[c] == Refused)
  {
    if events != [] {
      LateCallersAreRefused(own, s, events[..|events| - 1], c);
      LateCallerStep(own, Run(own, s, events[..|events| - 1]), events[|events| - 1], c);
    }
  }

  lemma LateCallerStep(own: bool, s: State, e: Event, c: nat)
    requires Late(s, c)
    ensures Late(Step(own, s, e), c)
  {
  }

  /** A worker that is not waiting for a request takes none from then on, whatever fails or restarts it. */
  lemma {:induction false} WorkerTakesNoMore(own: bool, s: State, events: seq<Event>)
    requires !s.closing.Open? && !s.worker.Getting?
    ensures var r := Run(own, s, events); !r.closing.Open? && !r.worker.Getting?
  {
    if events != [] {
      WorkerTakesNoMore(own, s, events[..|events| - 1]);
      WorkerIdleStep(own, Run(own, s, events[..|events| - 1]), events[|events| - 1]);
    }
  }

  lemma WorkerIdleStep(own: bool, s: State, e: Event)
    requires !s.closing.Open? && !s.worker.Getting?
    ensures var r := Step(own, s, e); !r.closing.Open? && !r.worker.Getting?
  {
  }

  lemma {:induction false} AbandonedStays(own: bool, s: State, events: seq<Event>, c: nat)
    requires c in s.abandoned
    ensures c in Run(own, s, events).abandoned
  {
    if events != [] {
      AbandonedStays(own, s, events[..|events| - 1], c);
      AbandonedStep(own, Run(own, s, events[..|events| - 1]), events[|events| - 1], c);
    }
  }

  lemma AbandonedStep(own: bool, s: State, e: Event, c: nat)
    requires c in s.abandoned
    ensures c in Step(own, s, e).abandoned
  {
  }

  /** A request the worker is serving when it is cancelled is never replied to. */
  lemma CancelledIsNeverReplied(own: bool, n: nat, failing: bool, events: seq<Event>, later: seq<Event>)
    requires var s := Run(own, Start(n, failing), events); s.worker.Serving? && Free(own, s)
    ensures var s := Run(own, Start(n, failing), events);
            s.worker.request !in Run(own, Step(own, s, Cancel), later).replies
  {
    var s := Run(own, Start(n, failing), events);
    var c, r := s.worker.request, Run(own, Step(own, s, Cancel), later);
    RunSnoc(own, Start(n, failing), events, Cancel);
    RunConcat(own, Start(n, failing), events + [Cancel], later);
    AbandonedStays(own, Step(own, s, Cancel), later, c);
    RunKeepsInvariant(own, n, failing, events + [Cancel] + later);
    DistinctCount(r.submitted, c);
    assert multiset(r.submitted) == multiset(r.taken) + multiset(r.queue);
  }

  // ---- Close on another loop ----

  /** A session whose drain ended with no caller between its check and its put stays empty. */
  lemma {:induction false} QuietDrainStaysEmpty(own: bool, s: State, events: seq<Event>)
    requires s.closing.Drained? && s.queue == [] && s.current.None?
    ensures var r := Run(own, s, events);
            r.closing.Drained? && r.queue == [] && r.current.None? && r.submitted == s.submitted
  {
    if events != [] {
      QuietDrainStaysEmpty(own, s, events[..|events| - 1]);
      QuietStep(own, Run(own, s, events[..|events| - 1]), events[|events| - 1]);
    }
  }

  lemma QuietStep(own: bool, s: State, e: Event)
    requires s.closing.Drained? && s.queue == [] && s.current.None?
    ensures var r := Step(own, s, e);
            r.closing.Drained? && r.queue == [] && r.current.None? && r.submitted == s.submitted
  {
  }

  /** When a drain has just ended on a running loop, a request can still be left queued for ever exactly when
      some caller had passed its check of `_close` and not yet put its request. */
  lemma StrandingIff(s: State)
    requires Invariant(false, s) && s.closing.Drained? && s.queue == [] && s.running
    ensures (exists events :: !Run(false, s, events).running && Run(false, s, events).queue != [])
            <==> s.current.Some?
  {
    if s.current.Some? {
      LatePutIsStranded(s);
    } else {
      forall events: seq<Event>
        ensures Run(false, s, events).queue == []
      {
        QuietDrainStaysEmpty(false, s, events);
      }
    }
  }

  lemma LatePutIsStranded(s: State)
    requires s.closing.Drained? && s.queue == [] && s.running
    requires s.current.Some? && s.current.value < |s.callers|
    ensures var r := Run(false, s, [Put, StopLoop]);
            !r.running && r.queue == [s.current.value] && r.replies == s.replies
            && r.callers == s.callers[s.current.value := Submitted]
  {
    RunOne(false, s, Put);
    RunSnoc(false, s, [Put], StopLoop);
    assert [Put] + [StopLoop] == [Put, StopLoop];
  }

  /** Whatever loop `close` runs on, at most one request is left behind in the queue. */
  lemma AtMostOneStranded(own: bool, n: nat, failing: bool, events: seq<Event>)
    ensures var s := Run(own, Start(n, failing), events); s.closing.Drained? ==> |s.queue| <= 1
  {
    RunKeepsInvariant(own, n, failing, events);
  }

  /** A run in which one is: the caller checks, another loop closes, the caller puts, the loop stops. */
  lemma StrandedExample()
    ensures var s := Run(false, Start(1, false), [Check(0), BeginClose, DrainOne, Put, StopLoop]);
            !s.running && s.queue == [0] && s.callers == [Submitted] && s.replies == []
  {
    var s0 := Start(1, false);
    RunOne(false, s0, Check(0));
    RunSnoc(false, s0, [Check(0)], BeginClose);
    RunSnoc(false, s0, [Check(0), BeginClose], DrainOne);
    assert [Check(0)] + [BeginClose] == [Check(0), BeginClose];
    assert [Check(0), BeginClose] + [DrainOne] == [Check(0), BeginClose, DrainOne];
    CheckThenForeignDrain(s0);
    LatePutIsStranded(Run(false, s0, [Check(0), BeginClose, DrainOne]));
    RunConcat(false, s0, [Check(0), BeginClose, DrainOne], [Put, StopLoop]);
    assert [Check(0), BeginClose, DrainOne] + [Put, StopLoop] == [Check(0), BeginClose, DrainOne, Put, StopLoop];
  }

  lemma CheckThenForeignDrain(s: State)
    requires s == Start(1, false)
    ensures var r := Step(false, Step(false, Step(false, s, Check(0)), BeginClose), DrainOne);
            r == s.(callers := [Checked], current := Some(0), closing := Drained)
  {
  }

  lemma RunSnoc(own: bool, s: State, events: seq<Event>, e: Event)
    ensures Run(own, s, events + [e]) == Step(own, Run(own, s, events), e)
  {
    assert (events + [e])[..|events|] == events;
  }

  // ---- The session object ----

  /** Caller `c` is about to call, and nothing else is in the middle. */
  predicate Calling(s: State, c: nat) {
    Free(true, s) && c < |s.callers| && s.callers[c].Fresh?
  }

  function Sending(s: State, c: nat): State
    requires c < |s.callers|
  {
    s.(callers := s.callers[c := Submitted], queue := s.queue + [c], submitted := s.submitted + [c])
  }

  /** The check and the put of one call, one after the other. */
  lemma CallRuns(s: State, c: nat)
    requires Calling(s, c)
    ensures Run(true, s, [Check(c), Put])
            == if s.closing.Open? then Sending(s, c) else s.(callers := s.callers[c := Refused])
  {
    RunOne(true, s, Check(c));
    RunSnoc(true, s, [Check(c)], Put);
    assert [Check(c)] + [Put] == [Check(c), Put];
    assert s.callers[c := Checked][c := Submitted] == s.callers[c := Submitted];
  }

  /** All of `close` on the session's own loop. */
  lemma CloseRuns(s: State)
    requires s.closing.Open? && s.running && s.current.None?
    ensures Run(true, s, [BeginClose] + DrainEvents(|s.queue| + 1)) == DrainedState(s)
  {
    CloseBegins(s);
    RunConcat(true, s, [BeginClose], DrainEvents(|s.queue| + 1));
    DrainRepliesToAll(true, Run(true, s, [BeginClose]));
  }

  lemma CloseBegins(s: State)
    requires s.closing.Open? && s.running && s.current.None?
    ensures var r := Run(true, s, [BeginClose]);
            r.closing.Draining? && r.queue == s.queue && DrainedState(r) == DrainedState(s)
  {
    RunOne(true, s, BeginClose);
  }

  class Session {
    var queue: seq<nat>
    var closed: bool
    var replies: seq<nat>

    /** The object in the state `s` of the protocol. */
    ghost predicate Shows(s: State)
      reads this
    {
      queue == s.queue && replies == s.replies && (closed <==> !s.closing.Open?)
    }

    constructor ()
      ensures queue == [] && !closed && replies == []
      ensures forall n, failing :: Shows(Start(n, failing))
    {
      queue, closed, replies := [], false, [];
    }

    /** `_call_mcp_server` up to its wait: check and put without a pause in between. */
    method Submit(c: nat) returns (sent: bool)
      modifies this`queue
      ensures sent == !closed
      ensures queue == if sent then old(queue) + [c] else old(queue)
      ensures forall s: State :: old(Shows(s)) && Calling(s, c) ==> Shows(Run(true, s, [Check(c), Put]))
    {
      forall s: State | Calling(s, c)
        ensures Run(true, s, [Check(c), Put])
                == if s.closing.Open? then Sending(s, c) else s.(callers := s.callers[c := Refused])
      {
        CallRuns(s, c);
      }
      if closed {
        return false;
      }
      queue := queue + [c];
      return true;
    }

    /** `close` on the session's own loop, up to stopping it. */
    method Close()
      modifies this
      ensures closed
      ensures old(closed) ==> queue == old(queue) && replies == old(replies)
      ensures !old(closed) ==> queue == [] && replies == old(replies) + old(queue)
      ensures forall s: State :: old(Shows(s)) && s.closing.Open? && s.running && s.current.None? ==>
                Shows(Run(true, s, [BeginClose] + DrainEvents(|s.queue| + 1)))
    {
      forall s: State | s.closing.Open? && s.running && s.current.None?
        ensures Run(true, s, [BeginClose] + DrainEvents(|s.queue| + 1)) == DrainedState(s)
      {
        CloseRuns(s);
      }
      if closed {
        return;
      }
      closed := true;
      while queue != []
        invariant closed
        invariant replies + queue == old(replies) + old(queue)
        decreases |queue|
      {
        var request := queue[0];
        assert queue == [request] + queue[1..];
        queue := queue[1..];
        replies := replies + [request];
      }
    }
  }
}
