/** The canvas object of agent/canvas.py, which rewrites its `path` in place. */
module CanvasRun {
  import opened PyValues
  import opened CanvasModel
  import opened CanvasSafety
  import opened CanvasTheorems

  class Canvas {
    const w: World
    var path: seq<string>
    var error: string

    constructor (w: World, path: seq<string>)
      ensures this.w == w && this.path == path && error == ""
    {
      this.w := w;
      this.path := path;
      error := "";
    }

    /** The scan of `_run_batch(f, t)`: blocked entries are popped, the bound moves with them. */
    method RunBatch(round: nat, f: nat, t: nat)
      requires f <= t <= |path|
      modifies this`path
      ensures path == Sweep(w, round, old(path), f, t)
    {
      var i, bound := f, t;
      while i < bound
        invariant f <= i <= bound <= |path|
        invariant Sweep(w, round, path, i, bound) == Sweep(w, round, old(path), f, t)
        decreases bound - i
      {
        if IsKind(w, path[i], Begin) || IsKind(w, path[i], UserFillUp) {
          i := i + 1;
        } else if !FillUpName(path[0]) && !InputsOnPath(w, round, path, i) {
          path := path[..i] + path[i + 1..];
          bound := bound - 1;
        } else {
          i := i + 1;
        }
      }
    }

    /** `_append_path` and `_extend_path`, disabled once another branch was taken. */
    method ExtendPath(ids: seq<string>, otherBranch: bool)
      requires path != []
      modifies this`path
      ensures path == if otherBranch then old(path) else Extend(old(path), ids)
    {
      if otherBranch {
        return;
      }
      var rest := ids;
      while rest != []
        invariant path != []
        invariant Extend(path, rest) == Extend(old(path), ids)
        decreases |rest|
      {
        if path[|path| - 1] != rest[0] {
          path := path + [rest[0]];
        }
        rest := rest[1..];
      }
    }

    /** `get_start`: the search for the first item component of a container; only containers have the method. */
    method GetStart(c: string) returns (start: Option<string>)
      ensures start == StartOf(w.graph, c)
      ensures start.Some? ==> StartsAt(w.graph, c, start.value)
    {
      if c !in w.graph.components || !(w.graph.components[c].kind.Iteration? || w.graph.components[c].kind.Loop?) {
        return None;
      }
      StartIsFirstItem(w.graph, c, StartOf(w.graph, c).value);
      var item := if w.graph.components[c].kind.Iteration? then IterationItem else LoopItem;
      var ids := w.graph.order;
      for k := 0 to |ids|
        invariant FirstChild(w.graph, ids[k..], item, c) == StartOf(w.graph, c).value
      {
        var id := ids[k];
        if IsKind(w, id, item) {
          if w.graph.components[id].parent == Some(c) {
            return Some(id);
          }
        }
      }
      return Some(NO_COMPONENT);
    }

    /** The chain of cases that picks what comes after an entry; None stands for an exception. */
    method Schedule(c: string, o: Outcome) returns (ids: Option<seq<string>>)
      ensures ids == Targets(w.graph, c, o)
      ensures ids.Some? ==> forall d :: d in ids.value <==> Successor(w.graph, c, o, d)
    {
      ids := None;
      if c in w.graph.components {
        var cpn := w.graph.components[c];
        if (cpn.kind.IterationItem? || cpn.kind.LoopItem?) && o.ended {
          ids := ParentDownstream(cpn);
        } else if cpn.kind.Categorize? || cpn.kind.Switch? {
          ids := Some(o.next);
        } else if cpn.kind.Iteration? || cpn.kind.Loop? {
          var start := GetStart(c);
          ids := Single(start);
        } else if cpn.kind.ExitLoop? && (cpn.parent.None? || cpn.parent.value !in w.graph.components) {
          ids := None;
        } else if cpn.kind.ExitLoop? && IsKind(w, cpn.parent.value, Loop) {
          ids := ParentDownstream(cpn);
        } else if cpn.downstream == [] && cpn.parent.Some? {
          var start := GetStart(cpn.parent.value);
          ids := Single(start);
        } else {
          ids := Some(cpn.downstream);
        }
      }
      if ids.Some? {
        forall d: string
          ensures d in ids.value <==> Successor(w.graph, c, o, d)
        {
          TargetsAreSuccessors(w.graph, c, o, d);
        }
      }
    }

    method ParentDownstream(cpn: Component) returns (ids: Option<seq<string>>)
      ensures ids == DownstreamOf(w.graph, cpn.parent)
    {
      if cpn.parent.Some? && cpn.parent.value in w.graph.components {
        ids := Some(w.graph.components[cpn.parent.value].downstream);
      } else {
        ids := None;
      }
    }

    /** Post-processing of the entry at `i`; `raised` stands for an exception leaving the run. */
    method PostProcess(i: nat) returns (raised: bool)
      requires i < |path|
      modifies this`path, this`error
      ensures var r := PostOne(w, old(path), i, old(error));
              && raised == r.Raised? && path == r.path
              && (r.Done? ==> error == r.error)
    {
      var o := w.outcome(i);
      var c := path[i];
      var otherBranch := false;
      if o.error != "" {
        if o.handler.Some? && o.handler.value.goto != [] {
          path := path + o.handler.value.goto;
          otherBranch := true;
        } else if o.handler.Some? && o.handler.value.hasDefault {
        } else {
          error := o.error;
        }
      }
      var ts := Schedule(c, o);
      if ts.None? {
        return true;
      }
      ExtendPath(ts.value, otherBranch);
      raised := false;
    }

    /** The body of the main loop after the batch has run. */
    method PostProcessBatch(idx: nat, end: nat) returns (raised: bool)
      requires idx <= end <= |path|
      modifies this`path, this`error
      ensures var r := PostAll(w, old(path), idx, end, old(error));
              && raised == r.Raised? && path == r.path
              && (r.Done? ==> error == r.error)
    {
      var i := idx;
      while i < end
        invariant idx <= i <= end <= |path|
        invariant PostAll(w, path, i, end, error) == PostAll(w, old(path), idx, end, old(error))
      {
        raised := PostProcess(i);
        if raised {
          return;
        }
        i := i + 1;
      }
      raised := false;
    }

    /** `_run_impl` for at most `turns` turns of its main loop: the state it leaves is the
        state of the machine, so every theorem about runs is about this method. */
    method Run(turns: nat) returns (status: Status, idx: nat)
      modifies this
      ensures var s := CanvasModel.Run(w, old(path), turns);
              status == s.status && idx == s.idx && path == s.path
    {
      ghost var path0 := path;
      var resume := path != [] && FillUpName(path[0]);
      if !resume {
        path := path + ["begin"];
      }
      error := "";
      idx := if resume then 0 else |path| - 1;
      status := if w.cancelledAtStart then Cancelled else Active;
      var round := 0;
      while round < turns && status.Active?
        invariant round <= turns
        invariant State(path, idx, CanvasModel.Run(w, path0, round).round, status) == CanvasModel.Run(w, path0, round)
        invariant status.Active? ==> CanvasModel.Run(w, path0, round).round == round && error == ""
        decreases turns - round
      {
        status, idx := Turn(round, idx);
        round := round + 1;
      }
      StoppedRunIsStableAt(path0, round, turns);
    }

    lemma StoppedRunIsStableAt(path0: seq<string>, n: nat, m: nat)
      requires n <= m && (n < m ==> !CanvasModel.Run(w, path0, n).status.Active?)
      ensures CanvasModel.Run(w, path0, m) == CanvasModel.Run(w, path0, n)
    {
      if n < m {
        StoppedRunIsStable(w, path0, n, m);
      }
    }

    /** One turn of the main loop. */
    method Turn(round: nat, at: nat) returns (status: Status, idx: nat)
      requires error == ""
      modifies this
      ensures var s := Round(w, State(old(path), at, round, Active));
              && path == s.path && idx == s.idx && status == s.status
              && (status.Active? ==> error == "" && s.round == round + 1)
    {
      idx := at;
      if idx >= |path| {
        return Finished, idx;
      }
      if exists i :: idx <= i < |path| && !Known(w, path[i]) {
        return Crashed, idx;
      }
      if w.cancelled(round) {
        return Cancelled, idx;
      }
      RunBatch(round, idx, |path|);
      var end := |path|;
      var raised := PostProcessBatch(idx, end);
      if raised {
        return Crashed, idx;
      }
      if error != "" {
        path := path[..idx];
        return Failed(error), idx;
      }
      idx := end;
      var pending := path[idx..];
      if NeedsInput(w, round, pending) {
        path := FillUps(w, pending) + Others(w, pending);
        return Paused, idx;
      }
      status := Active;
    }
  }
}
