/** The safety theorems of a canvas run: causality, dependency closure, a stable
    processed prefix, and what pausing, failing and finishing leave on the path. */
module CanvasTheorems {
  import opened PyValues
  import opened Text
  import opened CanvasModel
  import opened CanvasSafety

  /** A run that is over stays as it is. */
  lemma {:induction false} StoppedRunIsStable(w: World, path: seq<string>, n: nat, m: nat)
    requires n <= m && !Run(w, path, n).status.Active?
    ensures Run(w, path, m) == Run(w, path, n)
    decreases m
  {
    if n < m {
      StoppedRunIsStable(w, path, n, m - 1);
    }
  }

  /** What holds of the state a turn ends in, whatever its status. */
  ghost predicate Safe(w: World, path: seq<string>, s: State) {
    s.status.Paused? ||
    (&& s.idx <= |s.path|
     && Causal(w, s.path, |Start(w, path).path|, |s.path|)
     && (s.path != [] ==> s.path[0] == Start(w, path).path[0]))
  }

  lemma InvariantIsSafe(w: World, path: seq<string>, s: State)
    requires Invariant(w, path, s)
    ensures Safe(w, path, s)
  {
    CausalWeakens(w, s.path, |Start(w, path).path|, s.idx, |s.path|);
    HeadIsStable(w, path, s);
  }

  lemma PrefixIsSafe(w: World, path: seq<string>, s: State, t: State)
    requires Invariant(w, path, s) && t.path == s.path[..s.idx] && t.idx == s.idx && t.round == s.round
    ensures Safe(w, path, t)
  {
    InvariantIsSafe(w, path, s);
    var from, n := |Start(w, path).path|, |t.path|;
    forall j | from <= j < |t.path|
      ensures Caused(w, t.path, n, j)
    {
      assert Caused(w, s.path, s.idx, j);
      var i :| 0 <= i < j && i < s.idx && Allowed(w, s.path[i], i, s.path[j]);
      assert Allowed(w, t.path[i], i, t.path[j]);
    }
  }

  lemma BatchIsSafe(w: World, path: seq<string>, s: State, t: State)
    requires BeginStays(w, path) && Invariant(w, path, s) && s.idx < |s.path|
    requires t.path == AfterBatch(w, s).path && t.idx == s.idx && t.round == s.round
    ensures Safe(w, path, t)
  {
    var p := Sweep(w, s.round, s.path, s.idx, |s.path|);
    BatchInRun(w, path, s);
    CausalWeakens(w, t.path, |Start(w, path).path|, |p|, |t.path|);
    HeadIsStable(w, path, s);
    assert t.path[0] == Start(w, path).path[0];
  }

  /** The ways one turn can end, in terms of the batch it ran. */
  lemma TurnCases(w: World, s: State)
    requires s.status.Active? && s.idx <= |s.path|
    ensures var t, q := Round(w, s), AfterBatch(w, s).path;
            match t.status
            case Active => s.idx < |s.path| && t.path == q && s.idx <= t.idx
            case Finished => s.idx == |s.path| && t.path == s.path && t.idx == s.idx && t.round == s.round
            case Cancelled => t.path == s.path && t.idx == s.idx && t.round == s.round
            case Failed(_) =>
              s.idx < |s.path| && s.idx <= |q| && t.path == q[..s.idx] && t.idx == s.idx && t.round == s.round
            case Crashed =>
              t.idx == s.idx && t.round == s.round && s.idx < |s.path| && (t.path == s.path || t.path == q)
            case Paused => s.idx < |s.path| && t.idx == |Sweep(w, s.round, s.path, s.idx, |s.path|)| <= |q|
                           && NeedsInput(w, s.round, q[t.idx..])
                           && t.path == FillUps(w, q[t.idx..]) + Others(w, q[t.idx..])
  {
  }

  lemma FailureKeepsPrefix(w: World, path: seq<string>, s: State)
    requires BeginStays(w, path) && Invariant(w, path, s) && s.idx < |s.path|
    ensures s.idx <= |AfterBatch(w, s).path| && AfterBatch(w, s).path[..s.idx] == s.path[..s.idx]
  {
    BatchInRun(w, path, s);
    var p, q := Sweep(w, s.round, s.path, s.idx, |s.path|), AfterBatch(w, s).path;
    assert q[..s.idx] == p[..s.idx] == s.path[..s.idx];
  }

  lemma SafeByParts(w: World, path: seq<string>, s: State, t: State)
    requires Safe(w, path, s) && !s.status.Paused?
    requires t.path == s.path && t.idx == s.idx && t.round == s.round
    ensures Safe(w, path, t)
  {
  }

  lemma TurnIsSafe(w: World, path: seq<string>, s: State)
    requires BeginStays(w, path) && Invariant(w, path, s) && s.status.Active?
    ensures Safe(w, path, Round(w, s))
  {
    var t := Round(w, s);
    TurnCases(w, s);
    match t.status {
      case Active =>
        RoundKeepsInvariant(w, path, s);
        InvariantIsSafe(w, path, t);
      case Failed(_) =>
        FailureKeepsPrefix(w, path, s);
        PrefixIsSafe(w, path, s, t);
      case Paused =>
      case _ =>
        if t.path == s.path {
          InvariantIsSafe(w, path, s);
          SafeByParts(w, path, s, t);
        } else {
          BatchIsSafe(w, path, s, t);
        }
    }
  }

  lemma {:induction false} EveryStateIsSafe(w: World, path: seq<string>, n: nat)
    requires BeginStays(w, path)
    ensures Safe(w, path, Run(w, path, n))
  {
    if n == 0 {
      StartInvariant(w, path);
      InvariantIsSafe(w, path, Start(w, path));
    } else {
      var before := n - 1;
      EveryStateIsSafe(w, path, before);
      NextIsSafe(w, path, before);
    }
  }

  lemma NextIsSafe(w: World, path: seq<string>, n: nat)
    requires BeginStays(w, path) && Safe(w, path, Run(w, path, n))
    ensures Safe(w, path, Run(w, path, n + 1))
  {
    RunKeepsInvariant(w, path, n);
    if Run(w, path, n).status.Active? {
      TurnIsSafe(w, path, Run(w, path, n));
    }
  }

  lemma CausedByProcessed(w: World, path: seq<string>, s: State, j: nat)
    requires Invariant(w, path, s) && |Start(w, path).path| <= j < |s.path|
    ensures exists i :: 0 <= i < j && i < s.idx && Allowed(w, s.path[i], i, s.path[j])
  {
    assert Caused(w, s.path, s.idx, j);
  }

  lemma CausedBySomeone(w: World, path: seq<string>, s: State, j: nat)
    requires Safe(w, path, s) && !s.status.Paused? && |Start(w, path).path| <= j < |s.path|
    ensures exists i :: 0 <= i < j && Allowed(w, s.path[i], i, s.path[j])
  {
    assert Caused(w, s.path, |s.path|, j);
  }

  /** What `s` has processed is still there, untouched, in `t`. */
  ghost predicate PrefixKept(s: State, t: State) {
    s.idx <= |s.path| && s.path[..s.idx] <= t.path && s.idx <= t.idx
  }

  lemma PrefixKeptTransitive(s: State, u: State, t: State)
    requires PrefixKept(s, u) && PrefixKept(u, t)
    ensures PrefixKept(s, t)
  {
    assert s.path[..s.idx] == u.path[..s.idx] == u.path[..u.idx][..s.idx];
  }

  lemma PrefixJoin(s: State, u: State, t: State)
    requires PrefixKept(s, u) && (t == u || PrefixKept(u, t))
    ensures PrefixKept(s, t)
  {
    if t != u {
      PrefixKeptTransitive(s, u, t);
    }
  }

  /** A turn leaves the state as it is or keeps its processed prefix. */
  ghost predicate StepKeeps(run: nat -> State, k: nat) {
    run(k + 1) == run(k) || PrefixKept(run(k), run(k + 1))
  }

  lemma {:induction false} PrefixAlong(run: nat -> State, n: nat, m: nat)
    requires n <= m && PrefixKept(run(n), run(n))
    requires forall k: nat :: n <= k < m ==> StepKeeps(run, k)
    ensures PrefixKept(run(n), run(m))
  {
    if n < m {
      var before := m - 1;
      PrefixAlong(run, n, before);
      assert StepKeeps(run, before);
      PrefixJoin(run(n), run(before), run(m));
    }
  }

  lemma NotPausedBefore(w: World, path: seq<string>, n: nat, m: nat)
    requires n <= m && !Run(w, path, m).status.Paused?
    ensures !Run(w, path, n).status.Paused?
  {
    if !Run(w, path, n).status.Active? {
      StoppedRunIsStable(w, path, n, m);
    }
  }

  lemma NextKeepsPrefix(w: World, path: seq<string>, n: nat)
    requires BeginStays(w, path) && !Run(w, path, n + 1).status.Paused?
    ensures Run(w, path, n + 1) == Run(w, path, n) || PrefixKept(Run(w, path, n), Run(w, path, n + 1))
  {
    RunKeepsInvariant(w, path, n);
    if Run(w, path, n).status.Active? {
      TurnKeepsPrefix(w, path, Run(w, path, n));
    }
  }

  lemma PrefixAtOnce(w: World, path: seq<string>, n: nat)
    requires BeginStays(w, path) && Run(w, path, n).status.Active?
    ensures PrefixKept(Run(w, path, n), Run(w, path, n))
  {
    RunKeepsInvariant(w, path, n);
  }

  lemma EveryStepKeeps(w: World, path: seq<string>, run: nat -> State, n: nat, m: nat)
    requires BeginStays(w, path) && !run(m).status.Paused? && forall k :: run(k) == Run(w, path, k)
    ensures forall k: nat :: n <= k < m ==> StepKeeps(run, k)
  {
    forall k: nat | n <= k < m
      ensures StepKeeps(run, k)
    {
      NotPausedBefore(w, path, k + 1, m);
      NextKeepsPrefix(w, path, k);
    }
  }

  lemma PrefixFromTo(w: World, path: seq<string>, n: nat, m: nat)
    requires BeginStays(w, path) && n <= m
    requires Run(w, path, n).status.Active? && !Run(w, path, m).status.Paused?
    ensures PrefixKept(Run(w, path, n), Run(w, path, m))
  {
    var run := (k: nat) => Run(w, path, k);
    PrefixAtOnce(w, path, n);
    EveryStepKeeps(w, path, run, n, m);
    PrefixAlong(run, n, m);
  }

  lemma TurnKeepsPrefix(w: World, path: seq<string>, u: State)
    requires BeginStays(w, path) && Invariant(w, path, u) && u.status.Active? && !Round(w, u).status.Paused?
    ensures PrefixKept(u, Round(w, u))
  {
    TurnCases(w, u);
    if u.idx < |u.path| {
      FailureKeepsPrefix(w, path, u);
    }
  }

  // ---- How runs stop ----

  function KnownOnly(w: World, cs: seq<string>): seq<string> {
    if cs == [] then []
    else (if Known(w, cs[0]) then [cs[0]] else []) + KnownOnly(w, cs[1..])
  }

  /** `a` is `b` with entries left out, in the same order. */
  predicate Subsequence(a: seq<string>, b: seq<string>) {
    if b == [] then a == []
    else Subsequence(a, b[1..]) || (a != [] && a[0] == b[0] && Subsequence(a[1..], b[1..]))
  }

  lemma {:induction false} SplitByKind(w: World, cs: seq<string>)
    ensures forall c :: c in FillUps(w, cs) ==> IsKind(w, c, UserFillUp)
    ensures forall c :: c in Others(w, cs) ==> Known(w, c) && !IsKind(w, c, UserFillUp)
  {
    if cs != [] {
      SplitByKind(w, cs[1..]);
    }
  }

  lemma {:induction false} SplitKeepsOrder(w: World, cs: seq<string>)
    ensures Subsequence(FillUps(w, cs), cs) && Subsequence(Others(w, cs), cs)
  {
    if cs != [] {
      SplitKeepsOrder(w, cs[1..]);
      var f, o, c := FillUps(w, cs[1..]), Others(w, cs[1..]), cs[0];
      assert ([c] + f)[1..] == f && ([c] + o)[1..] == o && [] + f == f && [] + o == o;
    }
  }

  lemma {:induction false} SplitKeepsAll(w: World, cs: seq<string>)
    ensures multiset(FillUps(w, cs)) + multiset(Others(w, cs)) == multiset(KnownOnly(w, cs))
  {
    if cs != [] {
      SplitKeepsAll(w, cs[1..]);
    }
  }

  /** Fill-ups first, then the rest: both in their old order, together every known entry once. */
  lemma SplitIsStablePartition(w: World, cs: seq<string>)
    ensures forall c :: c in FillUps(w, cs) ==> IsKind(w, c, UserFillUp)
    ensures forall c :: c in Others(w, cs) ==> Known(w, c) && !IsKind(w, c, UserFillUp)
    ensures Subsequence(FillUps(w, cs), cs) && Subsequence(Others(w, cs), cs)
    ensures multiset(FillUps(w, cs) + Others(w, cs)) == multiset(KnownOnly(w, cs))
  {
    SplitByKind(w, cs);
    SplitKeepsOrder(w, cs);
    SplitKeepsAll(w, cs);
  }

  /** What a pausing turn saves, given the path `q` its batch left. */
  ghost predicate SavedFrom(w: World, q: seq<string>, t: State) {
    && t.idx <= |q|
    && t.path == FillUps(w, q[t.idx..]) + Others(w, q[t.idx..])
    && multiset(t.path) == multiset(KnownOnly(w, q[t.idx..]))
    && FillUps(w, q[t.idx..]) != []
  }

  lemma PausingTurn(w: World, s: State)
    requires s.status.Active? && s.idx <= |s.path| && Round(w, s).status.Paused?
    ensures SavedFrom(w, AfterBatch(w, s).path, Round(w, s))
    ensures Round(w, s).idx == |Sweep(w, s.round, s.path, s.idx, |s.path|)|
  {
    TurnCases(w, s);
    SplitIsStablePartition(w, AfterBatch(w, s).path[Round(w, s).idx..]);
  }

  lemma {:induction false} FinishedAt(w: World, path: seq<string>, n: nat)
    requires BeginStays(w, path) && Run(w, path, n).status.Finished?
    ensures Run(w, path, n).idx == |Run(w, path, n).path|
  {
    if n > 0 {
      if Run(w, path, n - 1).status.Active? {
        RunKeepsInvariant(w, path, n - 1);
      } else {
        FinishedAt(w, path, n - 1);
      }
    }
  }

  // ---- Runs whose begin entry is deleted ----

  /** Such a run processes nothing: it starts at the begin entry and is over when that is gone. */
  predicate Beginless(path: seq<string>, s: State) {
    && s.idx == |path|
    && ((s.path == path + ["begin"] && s.round == 0 && (s.status.Active? || s.status.Cancelled? || s.status.Crashed?))
        || (s.path == path && s.round == 1 && (s.status.Active? || s.status.Finished?)))
  }

  lemma BeginIsSwept(w: World, path: seq<string>)
    requires !BeginStays(w, path)
    ensures Sweep(w, 0, path + ["begin"], |path|, |path| + 1) == path
  {
    var p := path + ["begin"];
    assert p[..|path|] + p[|path| + 1..] == path;
  }

  lemma BeginlessTurn(w: World, path: seq<string>, s: State)
    requires !BeginStays(w, path) && Beginless(path, s)
    ensures Beginless(path, Round(w, s))
  {
    if s.status.Active? && s.path == path + ["begin"] {
      BeginIsSwept(w, path);
      assert FillUps(w, path[|path|..]) == [];
    }
  }

  lemma {:induction false} BeginlessRun(w: World, path: seq<string>, n: nat)
    requires !BeginStays(w, path)
    ensures Beginless(path, Run(w, path, n))
  {
    if n > 0 {
      var before := n - 1;
      BeginlessRun(w, path, before);
      BeginlessTurn(w, path, Run(w, path, before));
    }
  }

  // ---- Every reachable state of every run ----

  /** `s` is a state of the run that starts with the saved path `path`. */
  ghost predicate Reached(w: World, path: seq<string>, s: State) {
    exists n: nat :: s == Run(w, path, n)
  }

  /** `t` is `s` or a later state of the same run. */
  ghost predicate Later(w: World, path: seq<string>, s: State, t: State) {
    exists n: nat, m: nat :: n <= m && s == Run(w, path, n) && t == Run(w, path, m)
  }

  lemma ReachedIsSafe(w: World, path: seq<string>, s: State)
    requires Reached(w, path, s)
    ensures BeginStays(w, path) ==> Safe(w, path, s) && (s.status.Active? ==> Invariant(w, path, s))
    ensures !BeginStays(w, path) ==> Beginless(path, s)
    ensures s.status.Active? ==> s.idx <= |s.path|
  {
    var n: nat :| s == Run(w, path, n);
    if BeginStays(w, path) {
      EveryStateIsSafe(w, path, n);
      RunKeepsInvariant(w, path, n);
    } else {
      BeginlessRun(w, path, n);
    }
  }

  /** Causality of every run: each entry a run has put on the path was scheduled by an
      entry before it, however many unprocessed entries batches have deleted in between. */
  lemma Causality(w: World, path: seq<string>, s: State, j: nat)
    requires Reached(w, path, s) && !s.status.Paused?
    requires |Start(w, path).path| <= j < |s.path|
    ensures exists i :: 0 <= i < j && Allowed(w, s.path[i], i, s.path[j])
  {
    ReachedIsSafe(w, path, s);
    CausedBySomeone(w, path, s, j);
  }

  /** While a run goes on, that entry is one it has processed. */
  lemma CausesAreProcessed(w: World, path: seq<string>, s: State, j: nat)
    requires Reached(w, path, s) && s.status.Active?
    requires |Start(w, path).path| <= j < |s.path|
    ensures exists i :: 0 <= i < j && i < s.idx && Allowed(w, s.path[i], i, s.path[j])
  {
    ReachedIsSafe(w, path, s);
    CausedByProcessed(w, path, s, j);
  }

  /** Begin and fill-ups never wait; every other entry has its input components, as of this round, before it. */
  predicate InputsHold(w: World, round: nat, p: seq<string>, i: nat)
    requires i < |p|
  {
    IsKind(w, p[i], Begin) || IsKind(w, p[i], UserFillUp) || InputsOnPath(w, round, p, i)
  }

  /** Dependency closure: in a run that is not a resume, every entry of the batch a turn invokes, however the turn
      ends, has all its input components of that round on the path before it, and keeps them there. */
  lemma DependencyClosure(w: World, path: seq<string>, s: State, i: nat)
    requires !Resumes(path) && Reached(w, path, s) && s.status.Active? && s.idx < |s.path|
    requires s.idx <= i < |Sweep(w, s.round, s.path, s.idx, |s.path|)|
    ensures InputsHold(w, s.round, Sweep(w, s.round, s.path, s.idx, |s.path|), i)
    ensures Round(w, s).status.Active? ==> i < |Round(w, s).path| && InputsHold(w, s.round, Round(w, s).path, i)
  {
    ReachedIsSafe(w, path, s);
    if BeginStays(w, path) {
      HeadIsStable(w, path, s);
      BatchInRun(w, path, s);
      BatchInputsHold(w, s, i);
    } else {
      BeginIsSwept(w, path);
    }
  }

  lemma BatchInputsHold(w: World, s: State, i: nat)
    requires s.idx < |s.path| && !FillUpName(s.path[0]) && s.status.Active?
    requires s.idx <= i < |Sweep(w, s.round, s.path, s.idx, |s.path|)|
    requires Sweep(w, s.round, s.path, s.idx, |s.path|)[0] == s.path[0]
    ensures InputsHold(w, s.round, Sweep(w, s.round, s.path, s.idx, |s.path|), i)
    ensures Round(w, s).status.Active? ==> i < |Round(w, s).path| && InputsHold(w, s.round, Round(w, s).path, i)
  {
    var p, q := Sweep(w, s.round, s.path, s.idx, |s.path|), AfterBatch(w, s).path;
    SweepLeavesNoneBlocked(w, s.round, s.path, s.idx);
    assert !Blocked(w, s.round, p, i);
    TurnCases(w, s);
    assert p <= q && q[i] == p[i] && q[..i] == p[..i];
  }

  /** Every processed entry was in the batch of one earlier turn of the same run, and had its inputs then. */
  lemma ProcessedHadInputs(w: World, path: seq<string>, t: State, i: nat)
    requires !Resumes(path) && Reached(w, path, t) && t.status.Active? && |path| <= i < t.idx
    ensures i < |t.path|
    ensures exists s :: Later(w, path, s, t) && BatchOf(w, s, i) && InputsHold(w, s.round, t.path, i)
  {
    ReachedIsSafe(w, path, t);
    var n: nat :| t == Run(w, path, n);
    var k := RanAt(w, path, n, i);
    var s := Run(w, path, k);
    assert Reached(w, path, s);
    DependencyClosure(w, path, s, i);
    SameInputs(w, s.round, Sweep(w, s.round, s.path, s.idx, |s.path|), t.path, i);
    assert Later(w, path, s, t);
  }

  /** The entry at `i` is in the batch of the turn that starts in `s`. */
  predicate BatchOf(w: World, s: State, i: nat) {
    s.status.Active? && s.idx < |s.path| && s.idx <= i < |Sweep(w, s.round, s.path, s.idx, |s.path|)|
  }

  lemma SameInputs(w: World, round: nat, p: seq<string>, q: seq<string>, i: nat)
    requires i < |p| && i < |q| && q[..i + 1] == p[..i + 1] && InputsHold(w, round, p, i)
    ensures InputsHold(w, round, q, i)
  {
    assert q[i] == q[..i + 1][i] && p[i] == p[..i + 1][i];
    assert q[..i] == q[..i + 1][..i] && p[..i] == p[..i + 1][..i];
  }

  lemma {:induction false} RanAt(w: World, path: seq<string>, n: nat, i: nat) returns (k: nat)
    requires !Resumes(path) && Run(w, path, n).status.Active?
    requires |path| <= i < Run(w, path, n).idx <= |Run(w, path, n).path|
    ensures k < n && BatchOf(w, Run(w, path, k), i)
    ensures var s := Run(w, path, k);
            Run(w, path, n).path[..i + 1] == Sweep(w, s.round, s.path, s.idx, |s.path|)[..i + 1]
  {
    var before := n - 1;
    var s := Run(w, path, before);
    assert Reached(w, path, s);
    ReachedIsSafe(w, path, s);
    ActiveTurn(w, s);
    if i < s.idx {
      k := RanAt(w, path, before, i);
      KeptPrefix(w, s, i);
    } else {
      k := before;
    }
  }

  lemma ActiveTurn(w: World, s: State)
    requires Round(w, s).status.Active?
    ensures s.status.Active? && s.idx < |s.path|
    ensures var p := Sweep(w, s.round, s.path, s.idx, |s.path|); Round(w, s).idx == |p| && p <= Round(w, s).path
  {
  }

  lemma KeptPrefix(w: World, s: State, i: nat)
    requires Round(w, s).status.Active? && i < s.idx <= |s.path|
    ensures i < |Round(w, s).path| && Round(w, s).path[..i + 1] == s.path[..i + 1]
  {
    ActiveTurn(w, s);
    var p, q := Sweep(w, s.round, s.path, s.idx, |s.path|), Round(w, s).path;
    assert q[..i + 1] == q[..|p|][..i + 1] && p[..i + 1] == p[..s.idx][..i + 1];
    assert s.path[..s.idx][..i + 1] == s.path[..i + 1];
  }

  /** A resumed run never deletes an entry. */
  lemma ResumeDeletesNothing(w: World, path: seq<string>, s: State)
    requires Resumes(path) && Reached(w, path, s) && s.status.Active?
    ensures s.idx <= |s.path| && Sweep(w, s.round, s.path, s.idx, |s.path|) == s.path
  {
    ReachedIsSafe(w, path, s);
    SweepInRun(w, path, s);
  }

  /** The processed prefix is never rewritten while the run goes on. */
  lemma ProcessedPrefixIsStable(w: World, path: seq<string>, s: State, t: State)
    requires Later(w, path, s, t) && s.status.Active? && !t.status.Paused?
    ensures PrefixKept(s, t)
  {
    var n: nat, m: nat :| n <= m && s == Run(w, path, n) && t == Run(w, path, m);
    if BeginStays(w, path) {
      PrefixFromTo(w, path, n, m);
    } else {
      BeginlessRun(w, path, n);
      BeginlessRun(w, path, m);
      assert s.path[..s.idx] == path;
    }
  }

  /** The head of the path never changes until the run pauses. */
  lemma HeadNeverChanges(w: World, path: seq<string>, s: State)
    requires Reached(w, path, s) && !s.status.Paused?
    ensures s.path != [] ==> s.path[0] == Start(w, path).path[0]
  {
    ReachedIsSafe(w, path, s);
  }

  /** Pausing conserves work: the path the last batch left splits at `idx` into what has been
      executed and what is pending, and exactly the known pending entries are saved, fill-ups first. */
  lemma PauseConservesWork(w: World, path: seq<string>, s: State)
    requires Reached(w, path, s) && s.status.Active?
    ensures s.idx <= |s.path|
    ensures Round(w, s).status.Paused? ==>
              && SavedFrom(w, AfterBatch(w, s).path, Round(w, s))
              && Round(w, s).idx == |Sweep(w, s.round, s.path, s.idx, |s.path|)|
  {
    ReachedIsSafe(w, path, s);
    if Round(w, s).status.Paused? {
      PausingTurn(w, s);
    }
  }

  lemma SavedHead(w: World, q: seq<string>, t: State)
    requires SavedFrom(w, q, t)
    ensures t.path != [] && IsKind(w, t.path[0], UserFillUp) && forall c :: c in t.path ==> Known(w, c)
  {
    var pending := q[t.idx..];
    SplitByKind(w, pending);
    assert t.path[0] == FillUps(w, pending)[0];
  }

  /** The run from the saved path `path` invokes its entry at position `i` in some turn. */
  ghost predicate Invoked(w: World, path: seq<string>, i: nat) {
    exists s :: Reached(w, path, s) && BatchRuns(w, s) && BatchOf(w, s, i)
  }

  /** The turn that starts in `s` gets as far as invoking its batch. */
  predicate BatchRuns(w: World, s: State) {
    s.status.Active? && !w.cancelled(s.round) && forall i :: s.idx <= i < |s.path| ==> Known(w, s.path[i])
  }

  /** Saved entries count as processed in a run that is no resume. */
  lemma SkippedUnlessResumed(w: World, path: seq<string>, i: nat)
    requires !Resumes(path) && i < |path|
    ensures !Invoked(w, path, i)
  {
    forall s | Reached(w, path, s) && s.status.Active?
      ensures !BatchOf(w, s, i)
    {
      ReachedIsSafe(w, path, s);
      assert s.idx >= |path|;
    }
  }

  lemma AllInvokedOnResume(w: World, path: seq<string>, i: nat)
    requires Resumes(path) && i < |path| && !w.cancelledAtStart && !w.cancelled(0)
    requires forall c :: c in path ==> Known(w, c)
    ensures Invoked(w, path, i)
  {
    var s := Run(w, path, 0);
    assert Reached(w, path, s);
    ResumeDeletesNothing(w, path, s);
    assert BatchRuns(w, s) && BatchOf(w, s, i);
  }

  /** What a pause saves, the next run on the same graph executes if and only if the id of the first saved entry,
      a fill-up, contains `userfillup`; otherwise no saved entry is ever invoked. */
  lemma PausedPathResumes(w: World, path: seq<string>, s: State, next: World, i: nat)
    requires Reached(w, path, s) && s.status.Active? && Round(w, s).status.Paused?
    requires next.graph == w.graph && !next.cancelledAtStart && !next.cancelled(0)
    requires i < |Round(w, s).path|
    ensures IsKind(w, Round(w, s).path[0], UserFillUp)
    ensures Invoked(next, Round(w, s).path, i) <==> FillUpName(Round(w, s).path[0])
  {
    PauseConservesWork(w, path, s);
    var saved := Round(w, s).path;
    SavedHead(w, AfterBatch(w, s).path, Round(w, s));
    if FillUpName(saved[0]) {
      forall c | c in saved
        ensures Known(next, c)
      {
        assert Known(w, c);
      }
      AllInvokedOnResume(next, saved, i);
    } else {
      SkippedUnlessResumed(next, saved, i);
    }
  }

  /** The form of the fill-up is never filled: it asks again whenever it is looked at. */
  ghost predicate AlwaysUnsatisfied(w: World, c: string) {
    forall round: nat :: w.unsatisfied(round, c)
  }

  lemma {:induction false} FillUpIsFound(w: World, cs: seq<string>, c: string)
    requires c in cs && IsKind(w, c, UserFillUp)
    ensures c in FillUps(w, cs)
  {
    if c != cs[0] {
      FillUpIsFound(w, cs[1..], c);
    }
  }

  /** A turn that goes on leaves no such fill-up pending. */
  lemma NonePending(w: World, s: State, c: string)
    requires s.status.Active? && Round(w, s).status.Active?
    requires IsKind(w, c, UserFillUp) && AlwaysUnsatisfied(w, c)
    ensures Round(w, s).idx <= |Round(w, s).path| && c !in Round(w, s).path[Round(w, s).idx..]
  {
    TurnCases(w, s);
    var q, idx := Round(w, s).path, Round(w, s).idx;
    if c in q[idx..] {
      FillUpIsFound(w, q[idx..], c);
      assert false;
    }
  }

  lemma {:induction false} SweepKeepsToBatch(w: World, round: nat, p: seq<string>, i: nat, t: nat, c: string)
    requires i <= t <= |p| && c !in p[i..]
    ensures c !in Sweep(w, round, p, i, t)[i..]
    decreases t - i
  {
    if i < t {
      if Blocked(w, round, p, i) {
        assert (p[..i] + p[i + 1..])[i..] == p[i..][1..];
        SweepKeepsToBatch(w, round, p[..i] + p[i + 1..], i, t - 1, c);
      } else {
        var r := Sweep(w, round, p, i + 1, t);
        assert p[i + 1..] == p[i..][1..] && p[i] in p[i..];
        SweepKeepsToBatch(w, round, p, i + 1, t, c);
        assert r[..i + 1][i] == p[i] && r[i..] == [r[i]] + r[i + 1..];
      }
    }
  }

  lemma StartPending(w: World, path: seq<string>)
    requires !Resumes(path)
    ensures Start(w, path).idx <= |Start(w, path).path| && Start(w, path).path[Start(w, path).idx..] == ["begin"]
  {
  }

  lemma UnsatisfiedNeverPends(w: World, path: seq<string>, n: nat, c: string)
    requires !Resumes(path) && Run(w, path, n).status.Active?
    requires c != "begin" && IsKind(w, c, UserFillUp) && AlwaysUnsatisfied(w, c)
    ensures var s := Run(w, path, n); s.idx <= |s.path| && c !in s.path[s.idx..]
  {
    if n == 0 {
      StartPending(w, path);
    } else {
      ActiveTurn(w, Run(w, path, n - 1));
      NonePending(w, Run(w, path, n - 1), c);
    }
  }

  /** Some turn of the run from the saved path `path` has `c` in its batch, at whatever position. */
  ghost predicate EverInBatch(w: World, path: seq<string>, c: string) {
    exists s, i :: Reached(w, path, s) && InBatch(w, s, i, c)
  }

  predicate InBatch(w: World, s: State, i: nat, c: string) {
    BatchOf(w, s, i) && Sweep(w, s.round, s.path, s.idx, |s.path|)[i] == c
  }

  lemma NotPendingNotInBatch(w: World, s: State, i: nat, c: string)
    requires s.idx <= |s.path| && c !in s.path[s.idx..]
    ensures !InBatch(w, s, i, c)
  {
    SweepKeepsToBatch(w, s.round, s.path, s.idx, |s.path|, c);
    if BatchOf(w, s, i) {
      var r := Sweep(w, s.round, s.path, s.idx, |s.path|);
      assert r[i] in r[s.idx..];
    }
  }

  /** In a run that is no resume, a fill-up whose form stays unfilled is in no batch: every time it is pending the run
      pauses, so only a resume can get past it. */
  lemma UnsatisfiedNeverRuns(w: World, path: seq<string>, c: string)
    requires !Resumes(path) && c != "begin" && IsKind(w, c, UserFillUp) && AlwaysUnsatisfied(w, c)
    ensures !EverInBatch(w, path, c)
  {
    forall s, i: nat | Reached(w, path, s) && s.status.Active?
      ensures !InBatch(w, s, i, c)
    {
      var n: nat :| s == Run(w, path, n);
      UnsatisfiedNeverPends(w, path, n, c);
      NotPendingNotInBatch(w, s, i, c);
    }
  }

  /** A canvas whose only fill-up has the id `ask`. */
  function Asking(): World {
    World(Graph(["begin", "ask"],
                map["begin" := Component(Begin, ["ask"], None), "ask" := Component(UserFillUp, [], None)]),
          (i: nat) => Outcome("", None, [], false),
          (round: nat, c: string) => [],
          (round: nat) => false,
          (round: nat, c: string) => true,
          false)
  }

  /** It pauses on the fill-up and saves it. The next run skips the saved entry and, as long as the input stays
      unsatisfied, has the fill-up in no batch, at any position. */
  lemma AskedForNothing(next: World)
    requires next.graph == Asking().graph && AlwaysUnsatisfied(next, "ask")
    ensures Round(Asking(), Run(Asking(), [], 0)) == State(["ask"], 1, 1, Paused)
    ensures !Invoked(next, ["ask"], 0) && !EverInBatch(next, ["ask"], "ask")
  {
    AskBegins();
    AskIsScheduled();
    AskIsPending();
    PausesAtOnce(Asking(), ["begin"], ["begin", "ask"], ["ask"]);
    AskIsNoResume();
    SkippedUnlessResumed(next, ["ask"], 0);
    AskIsFillUp(next);
    UnsatisfiedNeverRuns(next, ["ask"], "ask");
  }

  lemma AskIsFillUp(next: World)
    requires next.graph == Asking().graph
    ensures "ask" != "begin" && IsKind(next, "ask", UserFillUp)
  {
    assert |"ask"| == 3 && |"begin"| == 5;
  }

  /** A first turn that pauses, step by step. */
  lemma PausesAtOnce(w: World, p: seq<string>, q: seq<string>, saved: seq<string>)
    requires p != [] && Start(w, []) == State(p, 0, 0, Active) && !w.cancelled(0)
    requires (forall i :: 0 <= i < |p| ==> Known(w, p[i])) && Sweep(w, 0, p, 0, |p|) == p
    requires PostAll(w, p, 0, |p|, "") == Done(q, "") && |p| <= |q|
    requires Continue(w, 0, q, |p|) == State(saved, |p|, 1, Paused)
    ensures Round(w, Run(w, [], 0)) == State(saved, |p|, 1, Paused)
  {
  }

  lemma AskBegins()
    ensures Start(Asking(), []) == State(["begin"], 0, 0, Active) && !Asking().cancelled(0)
    ensures Known(Asking(), "begin") && Sweep(Asking(), 0, ["begin"], 0, 1) == ["begin"]
  {
    assert [] + ["begin"] == ["begin"];
  }

  lemma AskIsNoResume()
    ensures !Resumes(["ask"])
  {
    assert |Lower("ask")| == 3;
  }

  lemma AskIsPending()
    ensures Continue(Asking(), 0, ["begin", "ask"], 1) == State(["ask"], 1, 1, Paused)
  {
    var q := ["begin", "ask"];
    assert q[1..] == ["ask"] && q[1..][1..] == [];
    assert FillUps(Asking(), q[1..]) == ["ask"] && Others(Asking(), q[1..]) == [];
    assert "ask" in FillUps(Asking(), q[1..]);
    assert ["ask"] + [] == ["ask"];
  }

  lemma AskIsScheduled()
    ensures PostAll(Asking(), ["begin"], 0, 1, "") == Done(["begin", "ask"], "")
  {
    var ts := Targets(Asking().graph, "begin", Asking().outcome(0));
    assert ts == Some(["ask"]);
    assert ["ask"][1..] == [];
    assert Extend(["begin"], ["ask"]) == ["begin"] + ["ask"];
    assert PostOne(Asking(), ["begin"], 0, "") == Done(["begin", "ask"], "");
    assert PostAll(Asking(), ["begin", "ask"], 1, 1, "") == Done(["begin", "ask"], "");
  }

  /** On an error the saved path is exactly the prefix before the failing batch. */
  lemma FailureRestoresPrefix(w: World, path: seq<string>, s: State)
    requires Reached(w, path, s) && s.status.Active?
    ensures s.idx <= |s.path|
    ensures Round(w, s).status.Failed? ==> Round(w, s).path == s.path[..s.idx]
  {
    ReachedIsSafe(w, path, s);
    TurnCases(w, s);
    if s.idx < |s.path| {
      var p, q := Sweep(w, s.round, s.path, s.idx, |s.path|), AfterBatch(w, s).path;
      assert q[..s.idx] == p[..s.idx] == s.path[..s.idx];
    }
  }

  /** On normal completion every entry on the path has been processed. */
  lemma FinishedHasNoPending(w: World, path: seq<string>, s: State)
    requires Reached(w, path, s) && s.status.Finished?
    ensures s.idx == |s.path|
  {
    var n: nat :| s == Run(w, path, n);
    if BeginStays(w, path) {
      FinishedAt(w, path, n);
    } else {
      BeginlessRun(w, path, n);
    }
  }
}
