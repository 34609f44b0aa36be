/** What one turn of a canvas run does to its batch, exactly: which entries are deleted, what each entry adds to the
    path, and how the turn ends. */
module CanvasBatch {
  import opened PyValues
  import opened Sequences
  import opened Text
  import opened CanvasModel
  import opened CanvasSafety

  // ---- How a run begins ----

  predicate ReadsFillUp(c: string, i: nat) {
    i + 10 <= |c| && Lower(c[i..i + 10]) == "userfillup"
  }

  /** A fill-up name contains `userfillup`, in whatever case. */
  lemma FillUpNameIff(c: string)
    ensures FillUpName(c) <==> exists i: nat :: ReadsFillUp(c, i)
  {
    if i :| 0 <= i <= |Lower(c)| - 10 && OccursAt("userfillup", Lower(c), i) {
      assert Lower(c[i..i + 10]) == Lower(c)[i..i + 10];
      assert ReadsFillUp(c, i);
    }
    if i: nat :| ReadsFillUp(c, i) {
      assert Lower(c[i..i + 10]) == Lower(c)[i..i + 10];
      assert OccursAt("userfillup", Lower(c), i);
    }
  }

  /** A run takes up a path whose head has a fill-up name from its first entry, and otherwise adds `begin` and starts
      there; a run that is cancelled before that does nothing, ever. */
  lemma {:induction false} RunBegins(w: World, path: seq<string>, n: nat)
    ensures var s := Run(w, path, 0);
            && (path != [] && FillUpName(path[0]) ==> s.path == path && s.idx == 0)
            && (path == [] || !FillUpName(path[0]) ==> s.path == path + ["begin"] && s.idx == |path|)
            && (s.status.Cancelled? <==> w.cancelledAtStart) && (s.status.Active? <==> !w.cancelledAtStart)
    ensures w.cancelledAtStart ==> Run(w, path, n) == Run(w, path, 0)
  {
    if n > 0 {
      RunBegins(w, path, n - 1);
    }
  }

  // ---- Which entries are deleted ----

  /** An entry is deleted when it is neither begin nor a fill-up, the head of the path is not called a fill-up, and one
      of its input components is not on the path before it. */
  ghost predicate MustGo(w: World, round: nat, before: seq<string>, c: string) {
    && !IsKind(w, c, Begin) && !IsKind(w, c, UserFillUp)
    && !FillUpName((before + [c])[0])
    && exists d :: d in w.deps(round, c) && d != "" && d !in before
  }

  /** Each entry of `batch` behind the path `front` stays or goes by what is on the path before it when its turn comes:
      `front` and the entries of the batch that stayed. */
  ghost predicate EachByItsTurn(w: World, round: nat, front: seq<string>, batch: seq<string>, stays: seq<bool>) {
    && |stays| == |batch|
    && forall n :: 0 <= n < |batch| ==>
         (stays[n] <==> !MustGo(w, round, front + Remaining(batch[..n], stays[..n]), batch[n]))
  }

  lemma BlockedMustGo(w: World, round: nat, p: seq<string>, i: nat)
    requires i < |p|
    ensures Blocked(w, round, p, i) <==> MustGo(w, round, p[..i], p[i])
  {
    var ds := w.deps(round, p[i]);
    assert (p[..i] + [p[i]])[0] == p[0];
    if d :| d in ds && d != "" && d !in p[..i] {
      var k :| 0 <= k < |ds| && ds[k] == d;
    }
  }

  /** The verdict on the first entry is the verdict on an entry, and it moves into the front of the others. */
  lemma FirstTurn(
    w: World, round: nat, front: seq<string>, x: string, rest: seq<string>, first: bool, stays: seq<bool>)
    requires first <==> !MustGo(w, round, front, x)
    requires EachByItsTurn(w, round, front + Head(x, first), rest, stays)
    ensures EachByItsTurn(w, round, front, [x] + rest, [first] + stays)
  {
    var batch, all := [x] + rest, [first] + stays;
    forall n | 0 <= n < |batch|
      ensures all[n] <==> !MustGo(w, round, front + Remaining(batch[..n], all[..n]), batch[n])
    {
      if n == 0 {
        assert batch[..0] == [] && front + [] == front;
      } else {
        LaterTurn(front, x, rest, first, stays, n - 1);
      }
    }
  }

  lemma LaterTurn(front: seq<string>, x: string, rest: seq<string>, first: bool, stays: seq<bool>, n: nat)
    requires |stays| == |rest| && n <= |rest|
    ensures front + Remaining(([x] + rest)[..n + 1], ([first] + stays)[..n + 1])
            == (front + Head(x, first)) + Remaining(rest[..n], stays[..n])
  {
    RemainingFirst(x, rest[..n], first, stays[..n]);
    assert ([x] + rest)[..n + 1] == [x] + rest[..n] && ([first] + stays)[..n + 1] == [first] + stays[..n];
    Associate(front, Head(x, first), Remaining(rest[..n], stays[..n]));
  }

  /** One step of the scan. */
  lemma SweepTurn(w: World, round: nat, front: seq<string>, x: string, rest: seq<string>, behind: seq<string>)
    ensures var f := front + Head(x, !MustGo(w, round, front, x));
            Sweep(w, round, front + ([x] + rest) + behind, |front|, |front| + 1 + |rest|)
            == Sweep(w, round, f + rest + behind, |f|, |f| + |rest|)
  {
    var p, i := front + ([x] + rest) + behind, |front|;
    BlockedMustGo(w, round, p, i);
    assert p[..i] == front && p[i] == x;
    if Blocked(w, round, p, i) {
      assert p[..i] + p[i + 1..] == front + [] + rest + behind;
    } else {
      assert p == front + [x] + rest + behind;
    }
  }

  lemma {:induction false} SweepParts(
    w: World, round: nat, front: seq<string>, batch: seq<string>, behind: seq<string>)
    returns (stays: seq<bool>)
    ensures EachByItsTurn(w, round, front, batch, stays)
    ensures Sweep(w, round, front + batch + behind, |front|, |front| + |batch|)
            == front + Remaining(batch, stays) + behind
    decreases |batch|
  {
    if batch == [] {
      stays := [];
    } else {
      var x, rest := batch[0], batch[1..];
      var first := !MustGo(w, round, front, x);
      assert batch == [x] + rest;
      var others := SweepParts(w, round, front + Head(x, first), rest, behind);
      FirstTurn(w, round, front, x, rest, first, others);
      SweepJoins(w, round, front, x, rest, behind, first, others);
      stays := [first] + others;
    }
  }

  lemma SweepJoins(
    w: World, round: nat, front: seq<string>, x: string, rest: seq<string>, behind: seq<string>, first: bool,
    others: seq<bool>)
    requires |others| == |rest| && (first <==> !MustGo(w, round, front, x))
    requires var f := front + Head(x, first);
             Sweep(w, round, f + rest + behind, |f|, |f| + |rest|) == f + Remaining(rest, others) + behind
    ensures Sweep(w, round, front + ([x] + rest) + behind, |front|, |front| + 1 + |rest|)
            == front + Remaining([x] + rest, [first] + others) + behind
  {
    SweepTurn(w, round, front, x, rest, behind);
    RemainingFirst(x, rest, first, others);
    Associate(front, Head(x, first), Remaining(rest, others));
  }

  /** The scan of a batch, exactly: what is left of it are the entries that stay, in their order, and an entry goes if
      and only if it must when its turn comes. Whatever stands in front of the batch or behind it is kept. */
  lemma SweepIsExact(w: World, round: nat, p: seq<string>, i: nat, t: nat) returns (stays: seq<bool>)
    requires i <= t <= |p|
    ensures EachByItsTurn(w, round, p[..i], p[i..t], stays)
    ensures Sweep(w, round, p, i, t) == p[..i] + Remaining(p[i..t], stays) + p[t..]
  {
    assert p == p[..i] + p[i..t] + p[t..];
    stays := SweepParts(w, round, p[..i], p[i..t], p[t..]);
  }

  // ---- What an entry adds to the path ----

  /** Which ids differ from the one before them; the first one is compared with `last`. */
  function Differs(last: string, ids: seq<string>): seq<bool> {
    seq(|ids|, n requires 0 <= n < |ids| => ids[n] != if n == 0 then last else ids[n - 1])
  }

  /** The ids without immediate repetitions. */
  function Appended(last: string, ids: seq<string>): seq<string> {
    Remaining(ids, Differs(last, ids))
  }

  lemma AppendedFirst(last: string, id: string, rest: seq<string>)
    ensures Appended(last, [id] + rest) == Head(id, id != last) + Appended(id, rest)
  {
    assert Differs(last, [id] + rest) == [id != last] + Differs(id, rest);
    RemainingFirst(id, rest, id != last, Differs(id, rest));
  }

  lemma {:induction false} ExtendAppends(p: seq<string>, ids: seq<string>)
    requires p != []
    ensures Extend(p, ids) == p + Appended(p[|p| - 1], ids)
    decreases |ids|
  {
    if ids != [] {
      var last, id, rest := p[|p| - 1], ids[0], ids[1..];
      var q := p + Head(id, id != last);
      assert ids == [id] + rest && q[|q| - 1] == id && (id == last ==> q == p);
      ExtendAppends(q, rest);
      AppendedFirst(last, id, rest);
      Associate(p, Head(id, id != last), Appended(id, rest));
    }
  }

  /** The error the entry leaves is not handled: no goto and no default value. */
  predicate Unhandled(o: Outcome) {
    o.error != "" && (o.handler.None? || (o.handler.value.goto == [] && !o.handler.value.hasDefault))
  }

  /** The entry takes the branch its exception handler names. */
  predicate Diverted(o: Outcome) {
    o.error != "" && o.handler.Some? && o.handler.value.goto != []
  }

  /** An entry that cannot be post-processed: it is unknown, an item or exit that has no container around it, or a leaf
      whose parent has no start. */
  predicate Stuck(g: Graph, c: string, o: Outcome) {
    || c !in g.components
    || var cpn := g.components[c];
       var inside := cpn.parent.Some? && cpn.parent.value in g.components;
       if (cpn.kind.IterationItem? || cpn.kind.LoopItem?) && o.ended then !inside
       else
         || (cpn.kind.ExitLoop? && !inside)
         || (cpn.downstream == [] && cpn.parent.Some? && !IsContainer(g, cpn.parent.value)
             && !cpn.kind.Categorize? && !cpn.kind.Switch? && !cpn.kind.Iteration? && !cpn.kind.Loop?)
  }

  lemma StuckIff(g: Graph, c: string, o: Outcome)
    ensures Targets(g, c, o).None? <==> Stuck(g, c, o)
  {
  }

  /** `ids` are the successors of the entry, in the order of the list they come from. */
  ghost predicate InOrder(g: Graph, c: string, o: Outcome, ids: seq<string>)
    requires c in g.components
  {
    var cpn := g.components[c];
    && (forall d :: d in ids <==> Successor(g, c, o, d))
    && (|ids| == 1 || ids == cpn.downstream || ids == o.next
        || (cpn.parent.Some? && cpn.parent.value in g.components && ids == g.components[cpn.parent.value].downstream))
  }

  /** What post-processing one entry does, exactly: it fails if and only if the entry is stuck. Otherwise a diverted
      entry appends the ids of its handler and no others, and every other entry appends its successors in order, of
      which an id that is the same as the one before it is left out. */
  lemma EntryAdds(w: World, p: seq<string>, i: nat, error: string) returns (ids: seq<string>)
    requires i < |p|
    ensures var o, r := w.outcome(i), PostOne(w, p, i, error);
            && (r.Raised? <==> Stuck(w.graph, p[i], o))
            && (Diverted(o) ==> r.path == p + o.handler.value.goto)
            && (!Diverted(o) && r.Raised? ==> r.path == p)
            && (!Diverted(o) && r.Done? ==>
                  InOrder(w.graph, p[i], o, ids) && r.path == p + Appended(p[|p| - 1], ids))
            && (r.Done? ==> r.error == if Unhandled(o) then o.error else error)
  {
    var o, r := w.outcome(i), PostOne(w, p, i, error);
    StuckIff(w.graph, p[i], o);
    ids := [];
    if !Diverted(o) && r.Done? {
      ids := Targets(w.graph, p[i], o).value;
      ExtendAppends(p, ids);
      forall d: string
        ensures d in ids <==> Successor(w.graph, p[i], o, d)
      {
        TargetsAreSuccessors(w.graph, p[i], o, d);
      }
    }
  }

  /** Every successor of an entry reaches the path: it is the last id already, or it is appended. */
  lemma SuccessorReachesPath(w: World, p: seq<string>, i: nat, error: string, d: string)
    requires i < |p| && PostOne(w, p, i, error).Done? && !Diverted(w.outcome(i))
    requires Successor(w.graph, p[i], w.outcome(i), d)
    ensures d in PostOne(w, p, i, error).path[|p| - 1..]
  {
    var ids := Targets(w.graph, p[i], w.outcome(i)).value;
    TargetsAreSuccessors(w.graph, p[i], w.outcome(i), d);
    ExtendMeaning(p, ids);
  }

  // ---- How a turn ends ----

  /** The errors of a batch: the last one that is not handled, if any. */
  ghost predicate LastError(w: World, i: nat, end: nat, error: string, last: string) {
    || (exists j :: i <= j < end && LastUnhandled(w, j, end) && last == w.outcome(j).error)
    || (last == error && forall j :: i <= j < end ==> !Unhandled(w.outcome(j)))
  }

  ghost predicate LastUnhandled(w: World, j: nat, end: nat) {
    Unhandled(w.outcome(j)) && forall k :: j < k < end ==> !Unhandled(w.outcome(k))
  }

  lemma {:induction false} BatchRaisesIff(w: World, p: seq<string>, i: nat, end: nat, error: string)
    requires i <= end <= |p|
    ensures PostAll(w, p, i, end, error).Raised? <==> exists j :: i <= j < end && Stuck(w.graph, p[j], w.outcome(j))
    decreases end - i
  {
    if i < end {
      var q := PostOne(w, p, i, error);
      StuckIff(w.graph, p[i], w.outcome(i));
      if q.Done? {
        BatchRaisesIff(w, q.path, i + 1, end, q.error);
        StuckLater(w, p, q.path, i, end);
      }
    }
  }

  /** Post-processing a batch fails if and only if one of its entries is stuck, and otherwise leaves the last error that
      no handler took. */
  lemma {:induction false} BatchEnds(w: World, p: seq<string>, i: nat, end: nat, error: string)
    requires i <= end <= |p|
    ensures var r := PostAll(w, p, i, end, error);
            && (r.Raised? <==> exists j :: i <= j < end && Stuck(w.graph, p[j], w.outcome(j)))
            && (r.Done? ==> LastError(w, i, end, error, r.error))
    decreases end - i
  {
    BatchRaisesIff(w, p, i, end, error);
    if i < end && PostAll(w, p, i, end, error).Done? {
      var q := PostOne(w, p, i, error);
      BatchEnds(w, q.path, i + 1, end, q.error);
      ErrorStep(w, i, end, error, q.error, PostAll(w, p, i, end, error).error);
    }
  }

  lemma StuckLater(w: World, p: seq<string>, q: seq<string>, i: nat, end: nat)
    requires i < end <= |p| && p <= q && !Stuck(w.graph, p[i], w.outcome(i))
    ensures (exists j :: i <= j < end && Stuck(w.graph, p[j], w.outcome(j)))
            <==> exists j :: i + 1 <= j < end && Stuck(w.graph, q[j], w.outcome(j))
  {
    assert forall j :: i <= j < end ==> q[j] == p[j];
  }

  lemma ErrorStep(w: World, i: nat, end: nat, error: string, next: string, last: string)
    requires i < end && next == (if Unhandled(w.outcome(i)) then w.outcome(i).error else error)
    requires LastError(w, i + 1, end, next, last)
    ensures LastError(w, i, end, error, last)
  {
    if j :| i + 1 <= j < end && LastUnhandled(w, j, end) && last == w.outcome(j).error {
    } else if Unhandled(w.outcome(i)) {
      assert LastUnhandled(w, i, end);
    }
  }

  /** Some entry of the batch of the turn is stuck. */
  ghost predicate SomeStuck(w: World, p: seq<string>, i: nat) {
    exists j :: i <= j < |p| && Stuck(w.graph, p[j], w.outcome(j))
  }

  ghost predicate SomeUnhandled(w: World, i: nat, end: nat) {
    exists j :: i <= j < end && Unhandled(w.outcome(j))
  }

  /** A fill-up is pending whose form is not filled. */
  ghost predicate Waits(w: World, round: nat, pending: seq<string>) {
    exists c :: c in pending && IsKind(w, c, UserFillUp) && w.unsatisfied(round, c)
  }

  lemma {:induction false} FillUpsAreThese(w: World, cs: seq<string>, c: string)
    ensures c in FillUps(w, cs) <==> c in cs && IsKind(w, c, UserFillUp)
  {
    if cs != [] {
      FillUpsAreThese(w, cs[1..], c);
    }
  }

  lemma WaitsIff(w: World, round: nat, pending: seq<string>)
    ensures NeedsInput(w, round, pending) <==> Waits(w, round, pending)
  {
    forall c: string
      ensures c in FillUps(w, pending) <==> c in pending && IsKind(w, c, UserFillUp)
    {
      FillUpsAreThese(w, pending, c);
    }
  }

  /** How a turn ends, exactly. An unknown entry ends the run with an exception, and so does a stuck one; a cancellation
      comes before the batch; an error that no handler took, the last of them, fails the run; a pending fill-up whose
      form is not filled pauses it; and otherwise it goes on behind the batch. */
  lemma TurnEnds(w: World, s: State)
    requires s.status.Active? && s.idx < |s.path|
    ensures var p, t := Sweep(w, s.round, s.path, s.idx, |s.path|), Round(w, s);
            if exists c :: c in s.path[s.idx..] && !Known(w, c) then t.status.Crashed? && t.path == s.path
            else if w.cancelled(s.round) then t.status.Cancelled? && t.path == s.path
            else if SomeStuck(w, p, s.idx) then t.status.Crashed? && p <= t.path
            else if SomeUnhandled(w, s.idx, |p|) then
              t.status.Failed? && LastError(w, s.idx, |p|, "", t.status.error) && t.path == s.path[..s.idx]
            else
              var q := AfterBatch(w, s).path;
              && p <= q && t.idx == |p| && t.round == s.round + 1
              && (t.status.Active? ==> t.path == q)
              && (t.status.Paused? <==> Waits(w, s.round, q[|p|..])) && (t.status.Paused? || t.status.Active?)
  {
    var p := Sweep(w, s.round, s.path, s.idx, |s.path|);
    UnknownAhead(w, s);
    BatchEnds(w, p, s.idx, |p|, "");
    var r := AfterBatch(w, s);
    if r.Done? {
      WaitsIff(w, s.round, r.path[|p|..]);
      assert r.path[..s.idx] == p[..s.idx] == s.path[..s.idx];
    }
  }

  lemma UnknownAhead(w: World, s: State)
    requires s.idx <= |s.path|
    ensures (exists c :: c in s.path[s.idx..] && !Known(w, c))
            <==> exists i :: s.idx <= i < |s.path| && !Known(w, s.path[i])
  {
    if i :| s.idx <= i < |s.path| && !Known(w, s.path[i]) {
      assert s.path[s.idx..][i - s.idx] == s.path[i];
    }
  }
}
