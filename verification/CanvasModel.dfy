/** The worklist of agent/canvas.py as a state machine: batches are swept, run and
    post-processed until the path is exhausted, fails, pauses or is cancelled. */
module CanvasModel {
  import opened PyValues
  import opened Text

  datatype Kind =
    | Begin | UserFillUp | Message | Categorize | Switch
    | Iteration | Loop | IterationItem | LoopItem | ExitLoop | Ordinary

  datatype Component = Component(kind: Kind, downstream: seq<string>, parent: Option<string>)

  /** The component table; `order` is the order in which it is searched. */
  datatype Graph = Graph(order: seq<string>, components: map<string, Component>)

  datatype Handler = Handler(goto: seq<string>, hasDefault: bool)

  /** What running one path entry left behind: `error()`, `exception_handler()`, `_next`, `end()`. */
  datatype Outcome = Outcome(error: string, handler: Option<Handler>, next: seq<string>, ended: bool)

  /** Everything a run does not decide itself. A path position runs at most once, so outcomes
      are indexed by position; input references, cancellation and unfilled inputs by round. */
  datatype World = World(
    graph: Graph,
    outcome: nat -> Outcome,
    deps: (nat, string) -> seq<string>,
    cancelled: nat -> bool,
    unsatisfied: (nat, string) -> bool,
    cancelledAtStart: bool)

  datatype Status = Active | Finished | Paused | Failed(error: string) | Cancelled | Crashed

  datatype State = State(path: seq<string>, idx: nat, round: nat, status: Status)

  predicate Known(w: World, c: string) {
    c in w.graph.components
  }

  predicate IsKind(w: World, c: string, k: Kind) {
    Known(w, c) && w.graph.components[c].kind == k
  }

  /** `id.lower().find("userfillup") >= 0` */
  predicate FillUpName(c: string) {
    Occurs("userfillup", Lower(c))
  }

  // ---- One batch: entries whose inputs are not on the path before them are deleted ----

  /** Every input component of the entry at `i` is on the path before it. */
  predicate InputsOnPath(w: World, round: nat, p: seq<string>, i: nat)
    requires i < |p|
  {
    var ds := w.deps(round, p[i]);
    forall k :: 0 <= k < |ds| ==> ds[k] == "" || ds[k] in p[..i]
  }

  /** The entry at `i` is deleted from the batch. */
  predicate Blocked(w: World, round: nat, p: seq<string>, i: nat)
    requires i < |p|
  {
    && !IsKind(w, p[i], Begin) && !IsKind(w, p[i], UserFillUp)
    && !FillUpName(p[0])
    && !InputsOnPath(w, round, p, i)
  }

  /** The path `_run_batch(i, t)` leaves. */
  function Sweep(w: World, round: nat, p: seq<string>, i: nat, t: nat): (r: seq<string>)
    requires i <= t <= |p|
    ensures i <= |r| <= |p| && r[..i] == p[..i]
    decreases t - i
  {
    if i == t then p
    else if Blocked(w, round, p, i) then Sweep(w, round, p[..i] + p[i + 1..], i, t - 1)
    else Sweep(w, round, p, i + 1, t)
  }

  // ---- Post-processing of one entry ----

  /** Python's None on a path. No component has this id, so it is unknown like any dangling id. */
  const NO_COMPONENT := ""

  /** `get_start`: the first item child of an iteration or loop, None if it has none. */
  function FirstChild(g: Graph, ids: seq<string>, k: Kind, parent: string): string {
    if ids == [] then NO_COMPONENT
    else if ids[0] in g.components && g.components[ids[0]].kind == k && g.components[ids[0]].parent == Some(parent)
    then ids[0]
    else FirstChild(g, ids[1..], k, parent)
  }

  /** None where the source raises: only iterations and loops have a start. */
  function StartOf(g: Graph, c: string): Option<string> {
    if c !in g.components then None
    else match g.components[c].kind
      case Iteration => Some(FirstChild(g, g.order, IterationItem, c))
      case Loop => Some(FirstChild(g, g.order, LoopItem, c))
      case _ => None
  }

  function Single(c: Option<string>): Option<seq<string>> {
    if c.Some? then Some([c.value]) else None
  }

  function DownstreamOf(g: Graph, c: Option<string>): Option<seq<string>> {
    if c.Some? && c.value in g.components then Some(g.components[c.value].downstream) else None
  }

  /** The components scheduled after `c`; None where the source raises. */
  function Targets(g: Graph, c: string, o: Outcome): Option<seq<string>> {
    if c !in g.components then None
    else
      var cpn := g.components[c];
      if (cpn.kind.IterationItem? || cpn.kind.LoopItem?) && o.ended then DownstreamOf(g, cpn.parent)
      else if cpn.kind.Categorize? || cpn.kind.Switch? then Some(o.next)
      else if cpn.kind.Iteration? || cpn.kind.Loop? then Single(StartOf(g, c))
      else if cpn.kind.ExitLoop? && (cpn.parent.None? || cpn.parent.value !in g.components) then None
      else if cpn.kind.ExitLoop? && g.components[cpn.parent.value].kind.Loop? then DownstreamOf(g, cpn.parent)
      else if cpn.downstream == [] && cpn.parent.Some? then Single(StartOf(g, cpn.parent.value))
      else Some(cpn.downstream)
  }

  /** `_append_path` for each id in turn: an id equal to the last entry is skipped. */
  function Extend(p: seq<string>, ids: seq<string>): (r: seq<string>)
    requires p != []
    ensures p <= r
    decreases |ids|
  {
    if ids == [] then p
    else Extend(if p[|p| - 1] == ids[0] then p else p + [ids[0]], ids[1..])
  }

  predicate GoesTo(o: Outcome) {
    o.error != "" && o.handler.Some? && o.handler.value.goto != []
  }

  predicate Raises(o: Outcome) {
    o.error != "" && (o.handler.None? || (o.handler.value.goto == [] && !o.handler.value.hasDefault))
  }

  /** Post-processing either raises midway or ends with the error recorded so far. */
  datatype Batch = Raised(path: seq<string>) | Done(path: seq<string>, error: string)

  /** Post-processing of the entry at `i`: an exception goto replaces the normal successors. */
  function PostOne(w: World, p: seq<string>, i: nat, error: string): (r: Batch)
    requires i < |p|
    ensures p <= r.path
  {
    var o := w.outcome(i);
    var q := if GoesTo(o) then p + o.handler.value.goto else p;
    var ts := Targets(w.graph, p[i], o);
    if ts.None? then Raised(q)
    else Done(if GoesTo(o) then q else Extend(q, ts.value), if Raises(o) then o.error else error)
  }

  /** Post-processing of the entries `i..end`. */
  function PostAll(w: World, p: seq<string>, i: nat, end: nat, error: string): (r: Batch)
    requires i <= end <= |p|
    ensures p <= r.path
    decreases end - i
  {
    if i == end then Done(p, error)
    else
      var q := PostOne(w, p, i, error);
      if q.Raised? then q else PostAll(w, q.path, i + 1, end, q.error)
  }

  // ---- Pausing for user input ----

  function FillUps(w: World, cs: seq<string>): seq<string> {
    if cs == [] then []
    else (if IsKind(w, cs[0], UserFillUp) then [cs[0]] else []) + FillUps(w, cs[1..])
  }

  function Others(w: World, cs: seq<string>): seq<string> {
    if cs == [] then []
    else (if Known(w, cs[0]) && !IsKind(w, cs[0], UserFillUp) then [cs[0]] else []) + Others(w, cs[1..])
  }

  predicate NeedsInput(w: World, round: nat, cs: seq<string>) {
    exists c :: c in FillUps(w, cs) && w.unsatisfied(round, c)
  }

  // ---- The run ----

  predicate Resumes(path: seq<string>) {
    path != [] && FillUpName(path[0])
  }

  function Start(w: World, path: seq<string>): State {
    var p := if Resumes(path) then path else path + ["begin"];
    State(p, if Resumes(path) then 0 else |p| - 1, 0, if w.cancelledAtStart then Cancelled else Active)
  }

  /** One turn of the main loop. */
  function Round(w: World, s: State): State {
    if !s.status.Active? then s
    else if s.idx >= |s.path| then s.(status := Finished)
    else if exists i :: s.idx <= i < |s.path| && !Known(w, s.path[i]) then s.(status := Crashed)
    else if w.cancelled(s.round) then s.(status := Cancelled)
    else
      var p := Sweep(w, s.round, s.path, s.idx, |s.path|);
      var r := PostAll(w, p, s.idx, |p|, "");
      if r.Raised? then s.(path := r.path, status := Crashed)
      else if r.error != "" then s.(path := r.path[..s.idx], status := Failed(r.error))
      else Continue(w, s.round, r.path, |p|)
  }

  function Continue(w: World, round: nat, p: seq<string>, idx: nat): State
    requires idx <= |p|
  {
    if NeedsInput(w, round, p[idx..])
    then State(FillUps(w, p[idx..]) + Others(w, p[idx..]), idx, round + 1, Paused)
    else State(p, idx, round + 1, Active)
  }

  function Run(w: World, path: seq<string>, n: nat): State {
    if n == 0 then Start(w, path) else Round(w, Run(w, path, n - 1))
  }
}
