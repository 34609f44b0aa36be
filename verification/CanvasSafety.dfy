/** What every run of the canvas keeps, over all worlds, starting paths and lengths of run. */
module CanvasSafety {
  import opened PyValues
  import opened Text
  import opened CanvasModel

  // ---- Scheduling successors ----

  /** `_extend_path` appends only the given ids, none twice in a row, and leaves out an
      id only when it already ends the path at that moment. */
  lemma {:induction false} ExtendMeaning(p: seq<string>, ids: seq<string>)
    requires p != []
    ensures forall j :: |p| <= j < |Extend(p, ids)| ==>
              Extend(p, ids)[j] in ids && Extend(p, ids)[j] != Extend(p, ids)[j - 1]
    ensures forall d :: d in ids ==> d in Extend(p, ids)[|p| - 1..]
    decreases |ids|
  {
    if ids != [] {
      var q := if p[|p| - 1] == ids[0] then p else p + [ids[0]];
      ExtendMeaning(q, ids[1..]);
      var r := Extend(q, ids[1..]);
      assert q[|q| - 1] == ids[0] && r[|q| - 1] == q[|q| - 1];
      forall d | d in ids
        ensures d in r[|p| - 1..]
      {
        if d == ids[0] {
          assert r[|p| - 1..][|q| - |p|] == d;
        } else {
          assert d in ids[1..];
          var k :| |q| - 1 <= k < |r| && r[k] == d;
          assert r[|p| - 1..][k - (|p| - 1)] == d;
        }
      }
    }
  }

  // ---- Who may schedule whom ----

  /** `d` is an item component inside the iteration or loop `c`. */
  predicate ItemOf(g: Graph, d: string, c: string) {
    && c in g.components && d in g.components && g.components[d].parent == Some(c)
    && ((g.components[c].kind.Iteration? && g.components[d].kind.IterationItem?)
        || (g.components[c].kind.Loop? && g.components[d].kind.LoopItem?))
  }

  /** `d` is where `c` starts: its first item in the order of the component table, or nothing. */
  ghost predicate StartsAt(g: Graph, c: string, d: string) {
    || (exists k :: 0 <= k < |g.order| && g.order[k] == d && ItemOf(g, d, c)
                    && forall j :: 0 <= j < k ==> !ItemOf(g, g.order[j], c))
    || (IsContainer(g, c) && d == NO_COMPONENT && forall j :: 0 <= j < |g.order| ==> !ItemOf(g, g.order[j], c))
  }

  predicate IsContainer(g: Graph, c: string) {
    HasKind(g, Some(c), Iteration) || HasKind(g, Some(c), Loop)
  }

  predicate HasKind(g: Graph, c: Option<string>, k: Kind) {
    c.Some? && c.value in g.components && g.components[c.value].kind == k
  }

  /** The component is through with the iteration or loop it is in. */
  predicate Leaves(g: Graph, cpn: Component, o: Outcome) {
    || ((cpn.kind.IterationItem? || cpn.kind.LoopItem?) && o.ended)
    || (cpn.kind.ExitLoop? && HasKind(g, cpn.parent, Loop))
  }

  /** `d` is downstream of the container that is left, the branch that was chosen, the start of the
      container entered, the start of the container whose body ends here, or plainly downstream. */
  ghost predicate Successor(g: Graph, c: string, o: Outcome, d: string) {
    && c in g.components
    && var cpn := g.components[c];
       if Leaves(g, cpn, o) then
         cpn.parent.Some? && cpn.parent.value in g.components && d in g.components[cpn.parent.value].downstream
       else if cpn.kind.Categorize? || cpn.kind.Switch? then d in o.next
       else if cpn.kind.Iteration? || cpn.kind.Loop? then StartsAt(g, c, d)
       else if cpn.downstream == [] && cpn.parent.Some? then StartsAt(g, cpn.parent.value, d)
       else d in cpn.downstream
  }

  predicate ChildOf(g: Graph, id: string, k: Kind, parent: string) {
    HasKind(g, Some(id), k) && g.components[id].parent == Some(parent)
  }

  lemma {:induction false} FirstChildIsFirst(g: Graph, ids: seq<string>, k: Kind, parent: string)
    ensures IsFirst(g, ids, k, parent, FirstChild(g, ids, k, parent))
  {
    if ids != [] && !ChildOf(g, ids[0], k, parent) {
      var r := FirstChild(g, ids[1..], k, parent);
      FirstChildIsFirst(g, ids[1..], k, parent);
      if i: nat :| FirstAt(g, ids[1..], k, parent, r, i) {
        assert FirstAt(g, ids, k, parent, r, i + 1) by {
          assert forall j :: 1 <= j < |ids| ==> ids[j] == ids[1..][j - 1];
        }
      } else {
        assert forall j :: 1 <= j < |ids| ==> ids[j] == ids[1..][j - 1];
      }
    } else if ids != [] {
      assert FirstAt(g, ids, k, parent, ids[0], 0);
    }
  }

  predicate FirstAt(g: Graph, ids: seq<string>, k: Kind, parent: string, r: string, i: nat) {
    i < |ids| && ids[i] == r && ChildOf(g, r, k, parent) && forall j :: 0 <= j < i ==> !ChildOf(g, ids[j], k, parent)
  }

  /** `r` is the first child of this kind, or nothing if there is none. */
  ghost predicate IsFirst(g: Graph, ids: seq<string>, k: Kind, parent: string, r: string) {
    || (exists i: nat :: FirstAt(g, ids, k, parent, r, i))
    || (r == NO_COMPONENT && forall j :: 0 <= j < |ids| ==> !ChildOf(g, ids[j], k, parent))
  }

  /** `get_start` finds the start of a container, and only containers have one. */
  lemma StartIsFirstItem(g: Graph, c: string, d: string)
    ensures StartOf(g, c) == Some(d) <==> StartsAt(g, c, d)
  {
    if IsContainer(g, c) {
      var k := if g.components[c].kind.Iteration? then IterationItem else LoopItem;
      assert forall x: string :: ItemOf(g, x, c) <==> ChildOf(g, x, k, c);
      var r := FirstChild(g, g.order, k, c);
      FirstChildIsFirst(g, g.order, k, c);
      if i: nat :| FirstAt(g, g.order, k, c, r, i) {
        assert StartsAt(g, c, r);
      }
    }
  }

  /** The scheduled components are exactly the successors. */
  lemma TargetsAreSuccessors(g: Graph, c: string, o: Outcome, d: string)
    requires Targets(g, c, o).Some?
    ensures d in Targets(g, c, o).value <==> Successor(g, c, o, d)
  {
    StartIsFirstItem(g, c, d);
    if g.components[c].parent.Some? {
      StartIsFirstItem(g, g.components[c].parent.value, d);
    }
  }

  /** The entry `c` at position `i` may schedule `d`. */
  ghost predicate Allowed(w: World, c: string, i: nat, d: string) {
    var o := w.outcome(i);
    (GoesTo(o) && d in o.handler.value.goto) || Successor(w.graph, c, o, d)
  }

  /** The entry at `j` was scheduled by a processed entry before it. */
  ghost predicate Caused(w: World, p: seq<string>, processed: nat, j: nat)
    requires j < |p|
  {
    exists i :: 0 <= i < j && i < processed && Allowed(w, p[i], i, p[j])
  }

  ghost predicate Causal(w: World, p: seq<string>, from: nat, processed: nat) {
    forall j :: from <= j < |p| ==> Caused(w, p, processed, j)
  }

  lemma CausalExtends(w: World, p: seq<string>, q: seq<string>, from: nat, i: nat)
    requires p <= q && i < |p| && Causal(w, p, from, i)
    requires forall j :: |p| <= j < |q| ==> Allowed(w, p[i], i, q[j])
    ensures Causal(w, q, from, i + 1)
  {
    var n := i + 1;
    forall j | from <= j < |q|
      ensures Caused(w, q, n, j)
    {
      if j < |p| {
        assert Caused(w, p, i, j);
        var k :| 0 <= k < j && k < i && Allowed(w, p[k], k, p[j]);
        assert Allowed(w, q[k], k, q[j]);
      } else {
        assert Allowed(w, q[i], i, q[j]);
      }
    }
  }

  lemma PostOneIsCausal(w: World, p: seq<string>, i: nat, error: string, from: nat)
    requires i < |p| && Causal(w, p, from, i)
    ensures Causal(w, PostOne(w, p, i, error).path, from, i + 1)
  {
    PostOneAddsAllowed(w, p, i, error);
    CausalExtends(w, p, PostOne(w, p, i, error).path, from, i);
  }

  lemma PostOneAddsAllowed(w: World, p: seq<string>, i: nat, error: string)
    requires i < |p|
    ensures var q := PostOne(w, p, i, error).path;
            p <= q && forall j :: |p| <= j < |q| ==> Allowed(w, p[i], i, q[j])
  {
    var o, q := w.outcome(i), PostOne(w, p, i, error).path;
    var ts := Targets(w.graph, p[i], o);
    if GoesTo(o) {
      forall j | |p| <= j < |q|
        ensures q[j] in o.handler.value.goto
      {
      }
    } else if ts.Some? {
      assert q == Extend(p, ts.value);
      ExtendMeaning(p, ts.value);
      forall j | |p| <= j < |q|
        ensures Allowed(w, p[i], i, q[j])
      {
        TargetsAreSuccessors(w.graph, p[i], o, q[j]);
      }
    }
  }

  lemma {:induction false} PostAllIsCausal(w: World, p: seq<string>, i: nat, end: nat, error: string, from: nat)
    requires i <= end <= |p| && Causal(w, p, from, i)
    ensures Causal(w, PostAll(w, p, i, end, error).path, from, end)
    decreases end - i
  {
    if i < end {
      PostOneIsCausal(w, p, i, error, from);
      var q := PostOne(w, p, i, error);
      if q.Done? {
        PostAllIsCausal(w, q.path, i + 1, end, q.error, from);
      } else {
        CausalWeakens(w, q.path, from, i + 1, end);
      }
    }
  }

  lemma CausalWeakens(w: World, p: seq<string>, from: nat, a: nat, b: nat)
    requires Causal(w, p, from, a) && a <= b
    ensures Causal(w, p, from, b)
  {
    forall j | from <= j < |p|
      ensures Caused(w, p, b, j)
    {
      assert Caused(w, p, a, j);
    }
  }

  // ---- Sweeping a batch ----

  /** Deleting entries behind the processed prefix keeps every surviving entry's cause. */
  lemma {:induction false} SweepIsCausal(
    w: World, round: nat, p: seq<string>, i: nat, t: nat, from: nat, processed: nat)
    requires i <= t <= |p| && from <= i && processed <= i
    requires Causal(w, p, from, processed)
    ensures Causal(w, Sweep(w, round, p, i, t), from, processed)
    decreases t - i
  {
    if i < t {
      if Blocked(w, round, p, i) {
        var q := p[..i] + p[i + 1..];
        forall j | from <= j < |q|
          ensures Caused(w, q, processed, j)
        {
          var j' := if j < i then j else j + 1;
          assert q[j] == p[j'];
          assert Caused(w, p, processed, j');
          var k :| 0 <= k < j' && k < processed && Allowed(w, p[k], k, p[j']);
          assert q[k] == p[k];
        }
        SweepIsCausal(w, round, q, i, t - 1, from, processed);
      } else {
        SweepIsCausal(w, round, p, i + 1, t, from, processed);
      }
    }
  }

  /** After the sweep every entry of the batch has its inputs before it. */
  lemma {:induction false} SweepLeavesNoneBlocked(w: World, round: nat, p: seq<string>, i: nat)
    requires i <= |p|
    ensures forall j :: i <= j < |Sweep(w, round, p, i, |p|)| ==> !Blocked(w, round, Sweep(w, round, p, i, |p|), j)
    decreases |p| - i
  {
    if i < |p| {
      if Blocked(w, round, p, i) {
        SweepLeavesNoneBlocked(w, round, p[..i] + p[i + 1..], i);
      } else {
        SweepLeavesNoneBlocked(w, round, p, i + 1);
        var r := Sweep(w, round, p, i + 1, |p|);
        assert r[..i] == r[..i + 1][..i] == p[..i + 1][..i] == p[..i];
        assert r[0] == r[..i + 1][0] && r[i] == r[..i + 1][i];
      }
    }
  }

  /** Where nothing is blocked nothing is deleted. */
  lemma {:induction false} SweepKeepsUnblocked(w: World, round: nat, p: seq<string>, i: nat)
    requires i <= |p| && forall j :: i <= j < |p| ==> !Blocked(w, round, p, j)
    ensures Sweep(w, round, p, i, |p|) == p
    decreases |p| - i
  {
    if i < |p| {
      SweepKeepsUnblocked(w, round, p, i + 1);
    }
  }

  // ---- The invariant of a run ----

  /** The begin entry of a fresh run survives its first batch; on a resume there is none. */
  predicate BeginStays(w: World, path: seq<string>) {
    Resumes(path) || !Blocked(w, 0, path + ["begin"], |path|)
  }

  /** Holds before every turn of the main loop. */
  ghost predicate Invariant(w: World, path: seq<string>, s: State) {
    var start := Start(w, path);
    && start.path <= s.path && start.path != []
    && s.idx <= |s.path|
    && ((s.idx == start.idx && s.path == start.path && s.round == 0) || s.idx >= |start.path|)
    && Causal(w, s.path, |start.path|, s.idx)
  }

  lemma StartInvariant(w: World, path: seq<string>)
    ensures Invariant(w, path, Start(w, path))
  {
  }

  lemma HeadIsStable(w: World, path: seq<string>, s: State)
    requires Invariant(w, path, s)
    ensures s.path != [] && s.path[0] == Start(w, path).path[0]
    ensures FillUpName(s.path[0]) <==> Resumes(path)
  {
    if !Resumes(path) && path == [] {
      assert |Lower("begin")| == 5;
      assert !FillUpName("begin");
    }
  }

  /** The sweep inside a turn: it keeps what was processed, and on the very first batch
      and on resumed runs it deletes nothing. */
  lemma SweepInRun(w: World, path: seq<string>, s: State)
    requires BeginStays(w, path) && Invariant(w, path, s)
    ensures var p := Sweep(w, s.round, s.path, s.idx, |s.path|);
            && Start(w, path).path <= p
            && (s.idx < |Start(w, path).path| ==> p == s.path)
            && (Resumes(path) ==> p == s.path)
            && Causal(w, p, |Start(w, path).path|, s.idx)
  {
    var start := Start(w, path);
    var p := Sweep(w, s.round, s.path, s.idx, |s.path|);
    HeadIsStable(w, path, s);
    if Resumes(path) || s.idx < |start.path| {
      SweepKeepsUnblocked(w, s.round, s.path, s.idx);
    } else {
      SweepIsCausal(w, s.round, s.path, s.idx, |s.path|, |start.path|, s.idx);
      assert p[..s.idx] == s.path[..s.idx];
      assert start.path == s.path[..s.idx][..|start.path|];
    }
  }

  /** The path after the post-processing of the turn that starts in `s`. */
  function AfterBatch(w: World, s: State): Batch
    requires s.idx <= |s.path|
  {
    var p := Sweep(w, s.round, s.path, s.idx, |s.path|);
    PostAll(w, p, s.idx, |p|, "")
  }

  lemma BatchInRun(w: World, path: seq<string>, s: State)
    requires BeginStays(w, path) && Invariant(w, path, s) && s.idx < |s.path|
    ensures var p, q := Sweep(w, s.round, s.path, s.idx, |s.path|), AfterBatch(w, s).path;
            && s.path[..s.idx] <= p <= q && Start(w, path).path <= q
            && |p| >= |Start(w, path).path|
            && Causal(w, q, |Start(w, path).path|, |p|)
  {
    var p := Sweep(w, s.round, s.path, s.idx, |s.path|);
    SweepInRun(w, path, s);
    PostAllIsCausal(w, p, s.idx, |p|, "", |Start(w, path).path|);
  }

  lemma RoundKeepsInvariant(w: World, path: seq<string>, s: State)
    requires BeginStays(w, path) && Invariant(w, path, s) && s.status.Active?
    ensures !Round(w, s).status.Active? || Invariant(w, path, Round(w, s))
  {
    var r := Round(w, s);
    if r.status.Active? {
      var q := AfterBatch(w, s);
      BatchInRun(w, path, s);
      assert r == State(q.path, |Sweep(w, s.round, s.path, s.idx, |s.path|)|, s.round + 1, Active);
    }
  }

  ghost predicate Kept(w: World, path: seq<string>, s: State) {
    s.status.Active? ==> Invariant(w, path, s)
  }

  lemma RoundKeeps(w: World, path: seq<string>, s: State)
    requires BeginStays(w, path) && Kept(w, path, s)
    ensures Kept(w, path, Round(w, s))
  {
    if s.status.Active? {
      RoundKeepsInvariant(w, path, s);
    }
  }

  lemma {:induction false} RunKeepsInvariant(w: World, path: seq<string>, n: nat)
    requires BeginStays(w, path)
    ensures Run(w, path, n).status.Active? ==> Invariant(w, path, Run(w, path, n))
  {
    if n == 0 {
      StartInvariant(w, path);
    } else {
      RunKeepsInvariant(w, path, n - 1);
      RoundKeeps(w, path, Run(w, path, n - 1));
    }
  }
}
