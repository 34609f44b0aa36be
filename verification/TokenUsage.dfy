/** Usage accounting of an agent run (common/token_utils.py): concurrent calls
    add to one sink under a lock, counter by counter. */
module TokenUsage {
  import opened PyValues

  /** An argument after `x or 0`: a count, or a value that `int` rejects. */
  datatype Arg = Count(n: int) | Malformed

  datatype Call = Call(prompt: Arg, completion: Arg, total: Arg)

  const COUNTERS := 4

  /** What a call adds to prompt_tokens, completion_tokens, total_tokens and calls, in this order. */
  function Amounts(call: Call): (r: seq<Arg>)
    ensures |r| == COUNTERS
  {
    [call.prompt, call.completion, call.total, Count(1)]
  }

  predicate WellFormed(call: Call) {
    call.prompt.Count? && call.completion.Count? && call.total.Count?
  }

  predicate Malforms(call: Call) {
    !WellFormed(call)
  }

  /** How many counters a call gets to: all, or those before its first malformed argument. */
  function Reach(call: Call): (k: nat)
    ensures k <= COUNTERS && (k == COUNTERS <==> WellFormed(call))
    ensures forall c :: 0 <= c < k ==> Amounts(call)[c].Count?
    ensures k < COUNTERS ==> Amounts(call)[k].Malformed?
  {
    if call.prompt.Malformed? then 0
    else if call.completion.Malformed? then 1
    else if call.total.Malformed? then 2
    else COUNTERS
  }

  function Amount(call: Call, c: nat): int
    requires c < COUNTERS
  {
    var a := Amounts(call)[c];
    if a.Count? then a.n else 0
  }

  type Counters = s: seq<int> | |s| == COUNTERS witness [0, 0, 0, 0]

  /** The counters after the first `k` additions of a call. */
  function Added(sink: Counters, call: Call, k: nat): Counters
    requires k <= COUNTERS
  {
    seq(COUNTERS, c requires 0 <= c < COUNTERS => sink[c] + if c < k then Amount(call, c) else 0)
  }

  predicate Indices(calls: seq<Call>, order: seq<nat>) {
    forall i :: 0 <= i < |order| ==> order[i] < |calls|
  }

  /** The calls one after the other, each as far as it gets. */
  function Replay(calls: seq<Call>, init: Counters, order: seq<nat>): Counters
    requires Indices(calls, order)
  {
    if order == [] then init
    else
      var n := |order| - 1;
      Added(Replay(calls, init, order[..n]), calls[order[n]], Reach(calls[order[n]]))
  }

  // ---- One call at a time ----

  class Sink {
    var promptTokens: int
    var completionTokens: int
    var totalTokens: int
    var calls: int

    constructor ()
      ensures Contents() == [0, 0, 0, 0]
    {
      promptTokens, completionTokens, totalTokens, calls := 0, 0, 0, 0;
    }

    function Contents(): Counters
      reads this
    {
      var counters := [promptTokens, completionTokens, totalTokens, calls];
      assert |counters| == 4;
      counters
    }

    /** The body under the lock; a malformed argument ends it where it is met. */
    method Record(call: Call)
      modifies this
      ensures Contents() == Added(old(Contents()), call, Reach(call))
    {
      if call.prompt.Malformed? {
        return;
      }
      promptTokens := promptTokens + call.prompt.n;
      if call.completion.Malformed? {
        return;
      }
      completionTokens := completionTokens + call.completion.n;
      if call.total.Malformed? {
        return;
      }
      totalTokens := totalTokens + call.total.n;
      calls := calls + 1;
    }
  }

  // ---- Interleaved calls ----

  /** Where a call stands: `k` counters are increased, `seen` is the value it read of the next. */
  datatype Phase = Waiting | Reading(k: nat) | Writing(k: nat, seen: int) | Finished(k: nat)

  /** `done` lists the finished calls in the order in which they gave the lock back. */
  datatype State = State(sink: Counters, phases: seq<Phase>, holder: Option<nat>, done: seq<nat>)

  predicate Shaped(calls: seq<Call>, s: State) {
    && |s.phases| == |calls|
    && (forall t :: 0 <= t < |calls| ==>
          match s.phases[t]
          case Waiting => true
          case Reading(k) => k < COUNTERS
          case Writing(k, _) => k < COUNTERS
          case Finished(k) => k <= COUNTERS)
  }

  function Start(calls: seq<Call>, init: Counters): (s: State)
    ensures Shaped(calls, s)
  {
    State(init, seq(|calls|, i => Waiting), None, [])
  }

  function Finish(s: State, t: nat, k: nat): State
    requires t < |s.phases|
  {
    s.(phases := s.phases[t := Finished(k)], holder := None, done := s.done + [t])
  }

  /** One step of thread `t`; a thread waiting for the lock or finished does not move. */
  function Step(calls: seq<Call>, locking: bool, s: State, t: nat): (r: State)
    requires Shaped(calls, s)
    ensures Shaped(calls, r)
  {
    if t >= |calls| then s
    else
      match s.phases[t]
      case Waiting =>
        if locking && s.holder.Some? then s
        else s.(phases := s.phases[t := Reading(0)], holder := Some(t))
      case Reading(k) => s.(phases := s.phases[t := Writing(k, s.sink[k])])
      case Writing(k, seen) =>
        if Amounts(calls[t])[k].Malformed? then Finish(s, t, k)
        else
          var written := s.(sink := s.sink[k := seen + Amount(calls[t], k)]);
          if k + 1 == COUNTERS then Finish(written, t, COUNTERS)
          else written.(phases := s.phases[t := Reading(k + 1)])
      case Finished(_) => s
  }

  /** The state after the threads moved in the order of `schedule`. */
  function Run(calls: seq<Call>, locking: bool, s: State, schedule: seq<nat>): (r: State)
    requires Shaped(calls, s)
    ensures Shaped(calls, r)
  {
    if schedule == [] then s
    else Step(calls, locking, Run(calls, locking, s, schedule[..|schedule| - 1]), schedule[|schedule| - 1])
  }

  predicate Inside(p: Phase) {
    p.Reading? || p.Writing?
  }

  predicate Distinct(order: seq<nat>) {
    forall i, j :: 0 <= i < j < |order| ==> order[i] != order[j]
  }

  predicate HolderState(calls: seq<Call>, init: Counters, s: State)
    requires Shaped(calls, s) && Indices(calls, s.done)
  {
    match s.holder
    case None => s.sink == Replay(calls, init, s.done)
    case Some(t) =>
      && t < |calls| && Inside(s.phases[t]) && s.phases[t].k <= Reach(calls[t])
      && s.sink == Added(Replay(calls, init, s.done), calls[t], s.phases[t].k)
      && (s.phases[t].Writing? ==> s.phases[t].seen == s.sink[s.phases[t].k])
  }

  predicate Invariant(calls: seq<Call>, init: Counters, s: State)
    requires Shaped(calls, s)
  {
    && Indices(calls, s.done) && Distinct(s.done)
    && (forall t :: 0 <= t < |calls| ==> (Inside(s.phases[t]) ==> s.holder == Some(t)))
    && (forall t :: 0 <= t < |calls| ==> (t in s.done <==> s.phases[t].Finished?))
    && HolderState(calls, init, s)
  }

  lemma AddedOneMore(sink: Counters, call: Call, k: nat)
    requires k < COUNTERS
    ensures Added(sink, call, k)[k := Added(sink, call, k)[k] + Amount(call, k)] == Added(sink, call, k + 1)
  {
  }

  lemma ReplaySnoc(calls: seq<Call>, init: Counters, order: seq<nat>, t: nat)
    requires Indices(calls, order) && t < |calls|
    ensures Indices(calls, order + [t])
    ensures Replay(calls, init, order + [t]) == Added(Replay(calls, init, order), calls[t], Reach(calls[t]))
  {
    assert (order + [t])[..|order|] == order;
  }

  lemma FinishKeepsInvariant(calls: seq<Call>, init: Counters, s: State, sink: Counters, t: nat, k: nat)
    requires Shaped(calls, s) && Invariant(calls, init, s) && s.holder == Some(t)
    requires k == Reach(calls[t]) && sink == Added(Replay(calls, init, s.done), calls[t], k)
    ensures var r := Finish(s.(sink := sink), t, k); Shaped(calls, r) && Invariant(calls, init, r)
  {
    ReplaySnoc(calls, init, s.done, t);
    assert t !in s.done;
  }

  lemma EnterKeepsInvariant(calls: seq<Call>, init: Counters, s: State, t: nat)
    requires Shaped(calls, s) && Invariant(calls, init, s)
    requires t < |calls| && s.phases[t].Waiting? && s.holder.None?
    ensures Invariant(calls, init, Step(calls, true, s, t))
  {
    assert Added(s.sink, calls[t], 0) == s.sink;
  }

  lemma ReadKeepsInvariant(calls: seq<Call>, init: Counters, s: State, t: nat)
    requires Shaped(calls, s) && Invariant(calls, init, s) && t < |calls| && s.phases[t].Reading?
    ensures Invariant(calls, init, Step(calls, true, s, t))
  {
  }

  lemma WriteKeepsInvariant(calls: seq<Call>, init: Counters, s: State, t: nat)
    requires Shaped(calls, s) && Invariant(calls, init, s) && t < |calls| && s.phases[t].Writing?
    ensures Invariant(calls, init, Step(calls, true, s, t))
  {
    var call, k := calls[t], s.phases[t].k;
    var replayed := Replay(calls, init, s.done);
    if Amounts(call)[k].Malformed? {
      FinishKeepsInvariant(calls, init, s, s.sink, t, k);
    } else {
      AddedOneMore(replayed, call, k);
      if k + 1 == COUNTERS {
        FinishKeepsInvariant(calls, init, s, Added(replayed, call, COUNTERS), t, COUNTERS);
      }
    }
  }

  lemma StepKeepsInvariant(calls: seq<Call>, init: Counters, s: State, t: nat)
    requires Shaped(calls, s) && Invariant(calls, init, s)
    ensures Invariant(calls, init, Step(calls, true, s, t))
  {
    if t < |calls| {
      if s.phases[t].Reading? {
        ReadKeepsInvariant(calls, init, s, t);
      } else if s.phases[t].Writing? {
        WriteKeepsInvariant(calls, init, s, t);
      } else if s.phases[t].Waiting? && s.holder.None? {
        EnterKeepsInvariant(calls, init, s, t);
      }
    }
  }

  lemma {:induction false} RunKeepsInvariant(calls: seq<Call>, init: Counters, schedule: seq<nat>)
    ensures Invariant(calls, init, Run(calls, true, Start(calls, init), schedule))
  {
    if schedule != [] {
      RunKeepsInvariant(calls, init, schedule[..|schedule| - 1]);
      var before := Run(calls, true, Start(calls, init), schedule[..|schedule| - 1]);
      StepKeepsInvariant(calls, init, before, schedule[|schedule| - 1]);
    }
  }

  /** However the threads interleave, whenever the lock is free the sink holds what the finished calls
      leave when they run one after the other, each once. */
  lemma LockedRunsAreSerial(calls: seq<Call>, init: Counters, schedule: seq<nat>)
    ensures var s := Run(calls, true, Start(calls, init), schedule);
            && Indices(calls, s.done) && Distinct(s.done)
            && (forall t :: 0 <= t < |calls| ==> (t in s.done <==> s.phases[t].Finished?))
            && (s.holder.None? ==> s.sink == Replay(calls, init, s.done))
  {
    RunKeepsInvariant(calls, init, schedule);
  }

  // ---- The totals ----

  /** The sum, over the calls in `order` that satisfy `chosen`, of what each contributes to a counter. */
  function Sum(calls: seq<Call>, order: seq<nat>, c: nat, chosen: Call -> bool): int
    requires Indices(calls, order) && c < COUNTERS
  {
    if order == [] then 0
    else
      var n := |order| - 1;
      var call := calls[order[n]];
      Sum(calls, order[..n], c, chosen) + if chosen(call) && c < Reach(call) then Amount(call, c) else 0
  }

  lemma {:induction false} ReplayIsSum(calls: seq<Call>, init: Counters, order: seq<nat>, c: nat)
    requires Indices(calls, order) && c < COUNTERS
    ensures Replay(calls, init, order)[c] == init[c] + Sum(calls, order, c, WellFormed) + Sum(calls, order, c, Malforms)
  {
    if order != [] {
      ReplayIsSum(calls, init, order[..|order| - 1], c);
    }
  }

  lemma {:induction false} SumOfNone(calls: seq<Call>, order: seq<nat>, c: nat, chosen: Call -> bool)
    requires Indices(calls, order) && c < COUNTERS
    requires forall i :: 0 <= i < |order| ==> !chosen(calls[order[i]])
    ensures Sum(calls, order, c, chosen) == 0
  {
    if order != [] {
      SumOfNone(calls, order[..|order| - 1], c, chosen);
    }
  }

  lemma {:induction false} CallsAreCounted(calls: seq<Call>, order: seq<nat>)
    requires Indices(calls, order) && (forall i :: 0 <= i < |order| ==> WellFormed(calls[order[i]]))
    ensures Sum(calls, order, 3, WellFormed) == |order|
  {
    if order != [] {
      CallsAreCounted(calls, order[..|order| - 1]);
    }
  }

  function PromptOf(call: Call): int {
    if call.prompt.Count? then call.prompt.n else 0
  }

  function CompletionOf(call: Call): int {
    if call.completion.Count? then call.completion.n else 0
  }

  function TotalOf(call: Call): int {
    if call.total.Count? then call.total.n else 0
  }

  function Total(calls: seq<Call>, order: seq<nat>, count: Call -> int): int
    requires Indices(calls, order)
  {
    if order == [] then 0
    else
      var n := |order| - 1;
      Total(calls, order[..n], count) + count(calls[order[n]])
  }

  lemma {:induction false} SumsAreTotals(calls: seq<Call>, order: seq<nat>)
    requires Indices(calls, order) && (forall i :: 0 <= i < |order| ==> WellFormed(calls[order[i]]))
    ensures Sum(calls, order, 0, WellFormed) == Total(calls, order, PromptOf)
    ensures Sum(calls, order, 1, WellFormed) == Total(calls, order, CompletionOf)
    ensures Sum(calls, order, 2, WellFormed) == Total(calls, order, TotalOf)
  {
    if order != [] {
      SumsAreTotals(calls, order[..|order| - 1]);
    }
  }

  /** With well-formed calls only, every counter is the sum of its own argument over the finished calls, and `calls`
      their number. */
  lemma UsageIsConserved(calls: seq<Call>, init: Counters, schedule: seq<nat>)
    requires forall call <- calls :: WellFormed(call)
    ensures var s := Run(calls, true, Start(calls, init), schedule);
            s.holder.None? ==>
              && Indices(calls, s.done)
              && (forall c :: 0 <= c < COUNTERS ==> s.sink[c] == init[c] + Sum(calls, s.done, c, WellFormed))
              && s.sink[0] == init[0] + Total(calls, s.done, PromptOf)
              && s.sink[1] == init[1] + Total(calls, s.done, CompletionOf)
              && s.sink[2] == init[2] + Total(calls, s.done, TotalOf)
              && s.sink[3] == init[3] + |s.done|
  {
    LockedRunsAreSerial(calls, init, schedule);
    var s := Run(calls, true, Start(calls, init), schedule);
    forall c | 0 <= c < COUNTERS && s.holder.None?
      ensures s.sink[c] == init[c] + Sum(calls, s.done, c, WellFormed)
    {
      ReplayIsSum(calls, init, s.done, c);
      SumOfNone(calls, s.done, c, Malforms);
    }
    CallsAreCounted(calls, s.done);
    SumsAreTotals(calls, s.done);
  }

  predicate NonNegative(call: Call) {
    forall c :: 0 <= c < COUNTERS ==> Amount(call, c) >= 0
  }

  /** A call that leaves a counter as it was, by not reaching it or by adding nothing. */
  predicate Silent(call: Call, c: nat)
    requires c < COUNTERS
  {
    c < Reach(call) ==> Amount(call, c) == 0
  }

  lemma {:induction false} LeakIsZeroIff(calls: seq<Call>, order: seq<nat>, c: nat)
    requires Indices(calls, order) && c < COUNTERS
    requires forall call <- calls :: NonNegative(call)
    ensures Sum(calls, order, c, Malforms) >= 0
    ensures Sum(calls, order, c, Malforms) == 0
            <==> (forall i :: 0 <= i < |order| && Malforms(calls[order[i]]) ==> Silent(calls[order[i]], c))
  {
    if order != [] {
      var n := |order| - 1;
      LeakIsZeroIff(calls, order[..n], c);
      assert calls[order[n]] in calls && Amount(calls[order[n]], c) >= 0;
      assert forall i :: 0 <= i < n ==> order[..n][i] == order[i];
    }
  }

  /** With non-negative counts, a counter equals its sum over the well-formed calls exactly when every finished
      malformed call met its malformed argument before it had added anything to that counter. */
  lemma UsageIsExactIff(calls: seq<Call>, init: Counters, schedule: seq<nat>, c: nat)
    requires c < COUNTERS && (forall call <- calls :: NonNegative(call))
    requires Run(calls, true, Start(calls, init), schedule).holder.None?
    ensures var s := Run(calls, true, Start(calls, init), schedule);
            && Indices(calls, s.done)
            && (s.sink[c] == init[c] + Sum(calls, s.done, c, WellFormed)
                <==> (forall i :: 0 <= i < |s.done| && Malforms(calls[s.done[i]]) ==> Silent(calls[s.done[i]], c)))
  {
    LockedRunsAreSerial(calls, init, schedule);
    var s := Run(calls, true, Start(calls, init), schedule);
    LeakIsZeroIff(calls, s.done, c);
    ReplayIsSum(calls, init, s.done, c);
  }

  /** A call whose second argument is malformed leaves its first count behind without being counted as a call. */
  lemma MalformedCallLeaks(calls: seq<Call>, init: Counters, order: seq<nat>, t: nat)
    requires Indices(calls, order) && t < |calls|
    requires calls[t].prompt.Count? && calls[t].completion.Malformed?
    ensures Indices(calls, order + [t])
    ensures var sink := Replay(calls, init, order);
            Replay(calls, init, order + [t]) == sink[0 := sink[0] + calls[t].prompt.n]
  {
    ReplaySnoc(calls, init, order, t);
  }

  /** One step of each of two calls. */
  function Both(calls: seq<Call>, s: State): (r: State)
    requires Shaped(calls, s)
    ensures Shaped(calls, r)
  {
    Step(calls, false, Step(calls, false, s, 0), 1)
  }

  /** Without the lock two calls can both read before either writes, and one count is lost. */
  lemma UnlockedRunsLoseCounts(a: Call, b: Call)
    requires WellFormed(a) && WellFormed(b)
    ensures var s := Run([a, b], false, Start([a, b], [0, 0, 0, 0]), [0, 1, 0, 1, 0, 1]);
            s.sink == [b.prompt.n, 0, 0, 0] && s.phases == [Reading(1), Reading(1)]
  {
    var calls := [a, b];
    var s := Start(calls, [0, 0, 0, 0]);
    RunTogether(calls, s);
    assert s.phases == [Waiting, Waiting];
    BothEnter(calls, s);
    BothRead(calls, Both(calls, s));
    BothWrite(a, b, Both(calls, Both(calls, s)));
  }

  lemma RunTogether(calls: seq<Call>, s: State)
    requires Shaped(calls, s)
    ensures Run(calls, false, s, [0, 1, 0, 1, 0, 1]) == Both(calls, Both(calls, Both(calls, s)))
  {
    RunTwice(calls, s);
    RunPair(calls, s, [0, 1, 0, 1]);
    assert [0, 1, 0, 1] + [0, 1] == [0, 1, 0, 1, 0, 1];
  }

  lemma RunTwice(calls: seq<Call>, s: State)
    requires Shaped(calls, s)
    ensures Run(calls, false, s, [0, 1, 0, 1]) == Both(calls, Both(calls, s))
  {
    RunPair(calls, s, []);
    RunPair(calls, s, [0, 1]);
    assert [] + [0, 1] == [0, 1] && [0, 1] + [0, 1] == [0, 1, 0, 1];
  }

  lemma BothEnter(calls: seq<Call>, s: State)
    requires Shaped(calls, s) && s.phases == [Waiting, Waiting]
    ensures var r := Both(calls, s);
            r.phases == [Reading(0), Reading(0)] && r.sink == s.sink
  {
  }

  lemma BothRead(calls: seq<Call>, s: State)
    requires Shaped(calls, s) && s.phases == [Reading(0), Reading(0)]
    ensures var r := Both(calls, s);
            r.phases == [Writing(0, s.sink[0]), Writing(0, s.sink[0])] && r.sink == s.sink
  {
  }

  lemma BothWrite(a: Call, b: Call, s: State)
    requires WellFormed(a) && WellFormed(b)
    requires Shaped([a, b], s) && s.phases == [Writing(0, s.sink[0]), Writing(0, s.sink[0])]
    ensures var r := Both([a, b], s);
            r.phases == [Reading(1), Reading(1)] && r.sink == s.sink[0 := s.sink[0] + b.prompt.n]
  {
  }

  lemma RunPair(calls: seq<Call>, s: State, schedule: seq<nat>)
    requires Shaped(calls, s)
    ensures Run(calls, false, s, schedule + [0, 1]) == Both(calls, Run(calls, false, s, schedule))
  {
    RunSnoc(calls, false, s, schedule, 0);
    RunSnoc(calls, false, s, schedule + [0], 1);
    assert schedule + [0] + [1] == schedule + [0, 1];
  }

  lemma RunSnoc(calls: seq<Call>, locking: bool, s: State, schedule: seq<nat>, t: nat)
    requires Shaped(calls, s)
    ensures Run(calls, locking, s, schedule + [t]) == Step(calls, locking, Run(calls, locking, s, schedule), t)
  {
    assert (schedule + [t])[..|schedule|] == schedule;
  }
}
