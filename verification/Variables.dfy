/** Reading and writing canvas variables by dotted paths (agent/canvas.py). */
module Variables {
  import opened PyValues
  import opened Text

  datatype Val =
    | NoneVal
    | TextVal(s: string)
    | Dict(m: map<string, Val>)
    | Items(items: seq<Val>)
    | Atom(tag: string)  // numbers, booleans, other objects

  /** Interpreter services: `json.loads`, `int` on a key, `getattr(v, key, None)` and truth of atoms. */
  datatype Env = Env(
    loads: string -> Option<Val>,
    toInt: string -> Option<int>,
    attr: (Val, string) -> Val,
    truthy: string -> bool)

  /** Python's list indexing, negative indices included; None where it raises. */
  function Index(items: seq<Val>, i: int): Option<Val> {
    if 0 <= i < |items| then Some(items[i])
    else if -|items| <= i < 0 then Some(items[|items| + i])
    else None
  }

  /** One step of `get_variable_param_value`; None where it returns None at once. */
  function Step(env: Env, cur: Val, key: string): Option<Val> {
    if cur.NoneVal? then None
    else
      var parsed := if cur.TextVal? then env.loads(cur.s) else Some(cur);
      if parsed.None? then None
      else match parsed.value
        case Dict(m) => Some(if key in m then m[key] else NoneVal)
        case Items(items) =>
          var i := env.toInt(key);
          if i.None? then None else Index(items, i.value)
        case _ => Some(env.attr(parsed.value, key))
  }

  function GetPath(env: Env, cur: Val, keys: seq<string>): Val
    decreases |keys|
  {
    if keys == [] then cur
    else
      var next := Step(env, cur, keys[0]);
      if next.None? then NoneVal else GetPath(env, next.value, keys[1..])
  }

  /** `set_variable_param_value` on a dictionary: missing and non-dictionary intermediates become dictionaries. */
  function PutPath(m: map<string, Val>, keys: seq<string>, v: Val): map<string, Val>
    requires keys != []
    decreases |keys|
  {
    if |keys| == 1 then m[keys[0] := v]
    else
      var sub := if keys[0] in m && m[keys[0]].Dict? then m[keys[0]].m else map[];
      m[keys[0] := Dict(PutPath(sub, keys[1..], v))]
  }

  /** `get_variable_param_value` */
  method GetParamValue(env: Env, obj: Val, path: string) returns (cur: Val)
    ensures cur == if path == "" then obj else GetPath(env, obj, Split(path, '.'))
  {
    cur := obj;
    if path == "" {
      return;
    }
    var keys := Split(path, '.');
    var rest := keys;
    while rest != []
      invariant GetPath(env, cur, rest) == GetPath(env, obj, keys)
      decreases |rest|
    {
      var key := rest[0];
      if cur.NoneVal? {
        return NoneVal;
      }
      var v := cur;
      if v.TextVal? {
        if env.loads(v.s).None? {
          return NoneVal;
        }
        v := env.loads(v.s).value;
      }
      if v.Dict? {
        cur := if key in v.m then v.m[key] else NoneVal;
      } else if v.Items? {
        var i := env.toInt(key);
        if i.None? || Index(v.items, i.value).None? {
          return NoneVal;
        }
        cur := Index(v.items, i.value).value;
      } else {
        cur := env.attr(v, key);
      }
      rest := rest[1..];
    }
  }

  // ---- Laws ----

  /** What is written at a path is read back at it, and inside it. */
  lemma {:induction false} ReadInsideWritten(env: Env, m: map<string, Val>, p: seq<string>, v: Val, r: seq<string>)
    requires p != []
    ensures GetPath(env, Dict(PutPath(m, p, v)), p + r) == GetPath(env, v, r)
    decreases |p|
  {
    assert (p + r)[0] == p[0] && (p + r)[1..] == p[1..] + r;
    if |p| == 1 {
      assert p[1..] + r == r;
    } else {
      var sub := if p[0] in m && m[p[0]].Dict? then m[p[0]].m else map[];
      ReadInsideWritten(env, sub, p[1..], v, r);
    }
  }

  /** The path round trip, for every dictionary, path and value. */
  lemma ReadAfterWrite(env: Env, m: map<string, Val>, p: seq<string>, v: Val)
    requires p != []
    ensures GetPath(env, Dict(PutPath(m, p, v)), p) == v
  {
    ReadInsideWritten(env, m, p, v, []);
    assert p + [] == p;
  }

  /** The paths part at some key. */
  predicate Diverge(p: seq<string>, q: seq<string>) {
    p != [] && q != [] && (p[0] != q[0] || Diverge(p[1..], q[1..]))
  }

  /** Every existing node that both paths go through is a dictionary. */
  predicate SharedDicts(m: map<string, Val>, p: seq<string>, q: seq<string>)
    requires Diverge(p, q)
    decreases |p|
  {
    p[0] != q[0] || p[0] !in m || (m[p[0]].Dict? && SharedDicts(m[p[0]].m, p[1..], q[1..]))
  }

  lemma {:induction false} NoneReadsNone(env: Env, q: seq<string>)
    ensures GetPath(env, NoneVal, q) == NoneVal
  {
  }

  /** A write into an empty dictionary is not seen on a diverging path. */
  lemma {:induction false} FreshWriteReadsNone(env: Env, p: seq<string>, v: Val, q: seq<string>)
    requires Diverge(p, q)
    ensures GetPath(env, Dict(PutPath(map[], p, v)), q) == NoneVal
  {
    if p[0] == q[0] {
      FreshWriteReadsNone(env, p[1..], v, q[1..]);
    } else {
      NoneReadsNone(env, q[1..]);
    }
  }

  /** The write frame, exactly: a diverging path reads as before if and only if the nodes it shares with the
      written path are dictionaries, or it read nothing to begin with. */
  lemma {:induction false} DivergingPathUnchanged(env: Env, m: map<string, Val>, p: seq<string>, v: Val, q: seq<string>)
    requires Diverge(p, q)
    ensures GetPath(env, Dict(PutPath(m, p, v)), q) == GetPath(env, Dict(m), q)
            <==> SharedDicts(m, p, q) || GetPath(env, Dict(m), q) == NoneVal
    decreases |p|
  {
    if p[0] == q[0] {
      if p[0] !in m {
        FreshWriteReadsNone(env, p[1..], v, q[1..]);
        NoneReadsNone(env, q[1..]);
      } else if m[p[0]].Dict? {
        DivergingPathUnchanged(env, m[p[0]].m, p[1..], v, q[1..]);
      } else {
        FreshWriteReadsNone(env, p[1..], v, q[1..]);
      }
    }
  }

  /** A node that is JSON text can be read through, but a write beside it replaces it. */
  lemma JsonTextIsReplaced(env: Env, text: string, x: Val)
    requires env.loads(text) == Some(Dict(map["x" := x])) && x != NoneVal
    ensures var m := map["a" := TextVal(text)];
            && Diverge(["a", "y"], ["a", "x"]) && !SharedDicts(m, ["a", "y"], ["a", "x"])
            && GetPath(env, Dict(m), ["a", "x"]) == x
            && GetPath(env, Dict(PutPath(m, ["a", "y"], NoneVal)), ["a", "x"]) == NoneVal
  {
    var m := map["a" := TextVal(text)];
    var p, q := ["a", "y"], ["a", "x"];
    assert p[1..] == ["y"] && q[1..] == ["x"] && q[1..][1..] == [];
    assert GetPath(env, TextVal(text), q[1..]) == GetPath(env, x, q[1..][1..]);
    FreshWriteReadsNone(env, p[1..], NoneVal, q[1..]);
  }

  /** Places are counted from the front, or with negative numbers from the back, and no others exist. */
  lemma IndexIsExact(front: seq<Val>, x: Val, back: seq<Val>, items: seq<Val>, i: int)
    ensures Index(front + [x] + back, |front|) == Some(x)
    ensures Index(front + [x] + back, -(|back| + 1)) == Some(x)
    ensures Index(items, i).None? <==> i >= |items| || i < -|items|
  {
  }

  /** Reading one key further, by what stands there: in a dictionary the entry, in a list the item at the place the
      key spells, in a text what its JSON says, in nothing nothing, and in anything else the attribute. */
  lemma ReadsOn(env: Env, cur: Val, key: string, rest: seq<string>)
    ensures var r := GetPath(env, cur, [key] + rest);
            match cur
            case NoneVal => r == NoneVal
            case Dict(m) => r == if key in m then GetPath(env, m[key], rest) else NoneVal
            case Items(items) =>
              && (env.toInt(key).None? ==> r == NoneVal)
              && (forall i :: 0 <= i < |items| && env.toInt(key) in {Some(i), Some(i - |items|)} ==>
                    r == GetPath(env, items[i], rest))
              && (env.toInt(key).Some? && !(-|items| <= env.toInt(key).value < |items|) ==> r == NoneVal)
            case TextVal(s) =>
              && (env.loads(s).None? ==> r == NoneVal)
              && (env.loads(s).Some? && (env.loads(s).value.Dict? || env.loads(s).value.Items?) ==>
                    r == GetPath(env, env.loads(s).value, [key] + rest))
            case Atom(_) => r == GetPath(env, env.attr(cur, key), rest)
  {
    var keys := [key] + rest;
    assert keys[0] == key && keys[1..] == rest;
    NoneReadsNone(env, rest);
  }

  // ---- Variables of a canvas ----

  /** Globals, and the outputs of every component. */
  datatype Vars = Vars(globals: map<string, Val>, outputs: map<string, map<string, Val>>)

  /** A reference: a global name, or `component@root.rest`. */
  datatype Target = Global(name: string) | Output(component: string, root: string, rest: string)

  function IndexOf(s: string, c: char): (i: int)
    ensures -1 <= i < |s| && (i >= 0 ==> s[i] == c && c !in s[..i]) && (i == -1 ==> c !in s)
  {
    if s == [] then -1
    else if s[0] == c then 0
    else var i := IndexOf(s[1..], c); if i == -1 then -1 else i + 1
  }

  function StripBraces(exp: string): string {
    StripChars(StripChars(StripChars(StripChars(StripChars(exp, {'{'}), {'}'}), {' '}), {'{'}), {'}'})
  }

  /** `split("@", 1)` and `split(".", 1)`: only the first separator counts. */
  function Resolve(exp: string): Target {
    var e := StripBraces(exp);
    var at := IndexOf(e, '@');
    if at < 0 then Global(e)
    else
      var name := e[at + 1..];
      var dot := IndexOf(name, '.');
      if dot < 0 then Output(e[..at], name, "") else Output(e[..at], name[..dot], name[dot + 1..])
  }

  /** What is left after the strips begins and ends with neither a brace nor a blank. */
  predicate Bare(core: string) {
    core != [] && core[0] !in {'{', '}', ' '} && core[|core| - 1] !in {'{', '}', ' '}
  }

  /** The last three strips. */
  lemma InnerStrips(b: string, x: string, core: string, y: string, e: string)
    requires Bare(core) && Only(b, {' '}) && Only(x, {'{'}) && Only(y, {'}'}) && Only(e, {' '})
    ensures StripChars(StripChars(StripChars(b + ((x + (core + y)) + e), {' '}), {'{'}), {'}'}) == core
  {
    var m, n := x + (core + y), core + y;
    StripsOff(b + (m + e), b, m, e, {' '});
    assert m == x + (n + []);
    StripsOff(m, x, n, [], {'{'});
    assert n == [] + (core + y);
    StripsOff(n, [], core, y, {'}'});
  }

  /** The first strip takes braces up to a blank, or all of them. */
  lemma OpenStripped(a: string, b: string, c: string, m: string)
    requires Only(a + c, {'{'}) && Only(b, {' '}) && m != [] && m[0] !in {'{', ' '} && m[|m| - 1] != '{'
    ensures StripChars((a + b + c) + m, {'{'}) == b + ((if b == [] then [] else c) + m)
  {
    var front, rest := if b == [] then a + c else a, b + ((if b == [] then [] else c) + m);
    PiecesOnly(a, c, {'{'});
    assert (a + b + c) + m == front + (rest + []);
    StripsOff((a + b + c) + m, front, rest, [], {'{'});
  }

  lemma CloseStripped(m: string, d: string, e: string, f: string)
    requires Only(d + f, {'}'}) && Only(e, {' '}) && m != [] && m[0] != '}' && m[|m| - 1] !in {'}', ' '}
    ensures StripChars(m + (d + e + f), {'}'}) == (m + (if e == [] then [] else d)) + e
  {
    var back, front := if e == [] then d + f else f, (m + (if e == [] then [] else d)) + e;
    PiecesOnly(d, f, {'}'});
    assert m + (d + e + f) == [] + (front + back);
    StripsOff(m + (d + e + f), [], front, back, {'}'});
  }

  lemma PiecesOnly(a: string, b: string, cs: set<char>)
    requires Only(a + b, cs)
    ensures Only(a, cs) && Only(b, cs)
  {
    assert forall i :: 0 <= i < |a| ==> (a + b)[i] == a[i];
    assert forall i :: 0 <= i < |b| ==> (a + b)[|a| + i] == b[i];
  }

  lemma CloseOfFront(b: string, x: string, core: string, d: string, e: string, f: string)
    requires Bare(core) && Only(b, {' '}) && Only(x, {'{'}) && Only(d + f, {'}'}) && Only(e, {' '})
    ensures StripChars(b + (x + (core + (d + e + f))), {'}'})
            == b + ((x + (core + (if e == [] then [] else d))) + e)
  {
    var m, y := b + (x + core), if e == [] then [] else d;
    assert b + (x + (core + (d + e + f))) == m + (d + e + f);
    CloseStripped(m, d, e, f);
    assert (m + y) + e == b + ((x + (core + y)) + e);
  }

  /** Braces, blanks and braces again are taken off both ends of a reference. */
  lemma BracesAreStripped(core: string, a: string, b: string, c: string, d: string, e: string, f: string)
    requires Bare(core) && Only(a + c, {'{'}) && Only(b, {' '}) && Only(e, {' '}) && Only(d + f, {'}'})
    ensures StripBraces((a + b + c) + (core + (d + e + f))) == core
  {
    PiecesOnly(a, c, {'{'});
    PiecesOnly(d, f, {'}'});
    TailEnds(core, d, e, f);
    OpenStripped(a, b, c, core + (d + e + f));
    CloseOfFront(b, if b == [] then [] else c, core, d, e, f);
    InnerStrips(b, if b == [] then [] else c, core, if e == [] then [] else d, e);
  }

  lemma TailEnds(core: string, d: string, e: string, f: string)
    requires Bare(core) && Only(d + f, {'}'}) && Only(e, {' '})
    ensures var t := core + (d + e + f); t[0] == core[0] && t[|t| - 1] != '{'
  {
    PiecesOnly(d, f, {'}'});
  }

  /** A reference without `@` is a global. */
  lemma ResolvesToGlobal(exp: string)
    ensures '@' !in StripBraces(exp) <==> Resolve(exp) == Global(StripBraces(exp))
  {
  }

  /** Otherwise the component stands before the first `@`, and the name of the output reaches from there to the first
      dot behind it, if there is one; the path is the rest. */
  lemma ResolvesToOutput(exp: string, c: string, name: string, rest: string)
    requires '@' !in c && '.' !in name
    ensures StripBraces(exp) == c + ("@" + name) ==> Resolve(exp) == Output(c, name, "")
    ensures StripBraces(exp) == c + ("@" + (name + ("." + rest))) ==> Resolve(exp) == Output(c, name, rest)
  {
    var e := StripBraces(exp);
    if e == c + ("@" + name) {
      FirstIndex(c, '@', name);
    }
    if e == c + ("@" + (name + ("." + rest))) {
      FirstIndex(c, '@', name + ("." + rest));
      FirstIndex(name, '.', rest);
    }
  }

  lemma {:induction false} FirstIndex(a: string, c: char, b: string)
    requires c !in a
    ensures IndexOf(a + ([c] + b), c) == |a|
    ensures (a + ([c] + b))[..|a|] == a && (a + ([c] + b))[|a| + 1..] == b
  {
    var s := a + ([c] + b);
    if a == [] {
      assert s == [c] + b;
    } else {
      assert s[1..] == a[1..] + ([c] + b);
      FirstIndex(a[1..], c, b);
    }
  }

  /** `output(root)`: the empty name stands for all outputs, a missing one reads as "". */
  function OutputOf(outs: map<string, Val>, root: string): Val {
    if root == "" then Dict(outs) else if root in outs then outs[root] else TextVal("")
  }

  predicate Falsy(env: Env, v: Val) {
    match v
    case NoneVal => true
    case TextVal(s) => s == ""
    case Dict(m) => m == map[]
    case Items(items) => items == []
    case Atom(tag) => !env.truthy(tag)
  }

  /** `get_variable_value` once the reference is taken apart. */
  function GetTarget(env: Env, vs: Vars, t: Target): Result<Val> {
    match t
    case Global(name) => if name in vs.globals then Ok(vs.globals[name]) else Err("KeyError")
    case Output(c, root, rest) =>
      if c !in vs.outputs then Err("Can't find variable")
      else
        var v := OutputOf(vs.outputs[c], root);
        Ok(if rest == "" then v else GetPath(env, v, Split(rest, '.')))
  }

  /** The outputs of one component after a write; None where the write raises. */
  function PutOutput(
    env: Env, outs: map<string, Val>, root: string, rest: string, value: Val): Option<map<string, Val>> {
    if rest == "" then Some(outs[root := value])
    else
      var found := OutputOf(outs, root);
      var base := if Falsy(env, found) then Dict(map[]) else found;
      if !base.Dict? then None else Some(outs[root := Dict(PutPath(base.m, Split(rest, '.'), value))])
  }

  /** `set_variable_value` once the reference is taken apart. */
  function SetTarget(env: Env, vs: Vars, t: Target, value: Val): Result<Vars> {
    match t
    case Global(name) => Ok(vs.(globals := vs.globals[name := value]))
    case Output(c, root, rest) =>
      if c !in vs.outputs then Err("Can't find variable")
      else
        var outs := PutOutput(env, vs.outputs[c], root, rest, value);
        if outs.None? then Err("TypeError") else Ok(vs.(outputs := vs.outputs[c := outs.value]))
  }

  function GetVariable(env: Env, vs: Vars, exp: string): Result<Val> {
    GetTarget(env, vs, Resolve(exp))
  }

  function SetVariable(env: Env, vs: Vars, exp: string, value: Val): Result<Vars> {
    SetTarget(env, vs, Resolve(exp), value)
  }

  /** A path can be written inside a dictionary, and where nothing is. */
  predicate TakesPaths(env: Env, v: Val) {
    v.Dict? || v == NoneVal || v == TextVal([]) || v == Items([]) || (v.Atom? && !env.truthy(v.tag))
  }

  /** Which variables can be written: every global; of a known component every output as a whole, and a path inside an
      output that is missing or takes paths. */
  lemma WritableIff(env: Env, vs: Vars, exp: string, value: Val)
    ensures SetVariable(env, vs, exp, value).Ok? <==>
            match Resolve(exp)
            case Global(_) => true
            case Output(c, root, rest) =>
              c in vs.outputs
              && (rest == [] || root == [] || root !in vs.outputs[c] || TakesPaths(env, vs.outputs[c][root]))
  {
    var t := Resolve(exp);
    if t.Output? && t.component in vs.outputs && t.rest != [] {
      TakesPathsIff(env, OutputOf(vs.outputs[t.component], t.root));
    }
  }

  lemma TakesPathsIff(env: Env, v: Val)
    ensures TakesPaths(env, v) <==> Falsy(env, v) || v.Dict?
  {
  }

  /** What is read: of a known component the output of that name, all outputs when the name is empty, and the empty
      text when there is no such output; below it what stands at the path. An unknown global or component raises. */
  lemma ReadsOutput(env: Env, vs: Vars, exp: string)
    ensures var r := GetVariable(env, vs, exp);
            match Resolve(exp)
            case Global(name) => r == if name in vs.globals then Ok(vs.globals[name]) else Err("KeyError")
            case Output(c, root, rest) =>
              && (r.Ok? <==> c in vs.outputs)
              && forall v: Val {:trigger GetPath(env, v, Split(rest, '.'))} ::
                   c in vs.outputs
                   && (if root == [] then v == Dict(vs.outputs[c])
                       else if root in vs.outputs[c] then v == vs.outputs[c][root] else v == TextVal(""))
                   ==> r == Ok(if rest == [] then v else GetPath(env, v, Split(rest, '.')))
  {
  }

  lemma TargetReadBack(env: Env, vs: Vars, t: Target, value: Val)
    requires SetTarget(env, vs, t, value).Ok? && (t.Output? ==> t.root != "")
    ensures GetTarget(env, SetTarget(env, vs, t, value).value, t) == Ok(value)
  {
    if t.Output? && t.rest != "" {
      var found := OutputOf(vs.outputs[t.component], t.root);
      var base := if Falsy(env, found) then Dict(map[]) else found;
      ReadAfterWrite(env, base.m, Split(t.rest, '.'), value);
    }
  }

  /** A variable that was written is read back, whatever its reference, unless the output name is empty. */
  lemma GetAfterSet(env: Env, vs: Vars, exp: string, value: Val)
    requires SetVariable(env, vs, exp, value).Ok?
    requires Resolve(exp).Output? ==> Resolve(exp).root != ""
    ensures GetVariable(env, SetVariable(env, vs, exp, value).value, exp) == Ok(value)
  {
    TargetReadBack(env, vs, Resolve(exp), value);
  }

  /** What is read where a write went below the empty name: the old value, or a dictionary around the new one. */
  function Misread(env: Env, m: map<string, Val>, sub: map<string, Val>, keys: seq<string>, v: Val): Val
    requires keys != []
  {
    GetPath(env, Dict(m["" := Dict(PutPath(sub, keys, v))]), keys)
  }

  lemma {:induction false} MisreadIsNotWritten(env: Env, m: map<string, Val>, sub: map<string, Val>, keys: seq<string>)
    requires keys != []
    ensures Misread(env, m, sub, keys, NoneVal) != NoneVal || Misread(env, m, sub, keys, TextVal("x")) != TextVal("x")
    decreases |keys|
  {
    if keys[0] != "" {
      assert Misread(env, m, sub, keys, NoneVal) == Misread(env, m, sub, keys, TextVal("x"));
    } else if |keys| > 1 {
      var inner := if "" in sub && sub[""].Dict? then sub[""].m else map[];
      forall v: Val
        ensures Misread(env, m, sub, keys, v) == Misread(env, sub, inner, keys[1..], v)
      {
        assert PutPath(sub, keys, v) == sub["" := Dict(PutPath(inner, keys[1..], v))];
      }
      MisreadIsNotWritten(env, sub, inner, keys[1..]);
    } else {
      var written := Dict(PutPath(sub, keys, NoneVal));
      assert Step(env, Dict(m["" := written]), keys[0]) == Some(written);
      assert GetPath(env, written, keys[1..]) == written;
    }
  }

  predicate RoundTrips(env: Env, vs: Vars, t: Target, value: Val) {
    SetTarget(env, vs, t, value).Ok? && GetTarget(env, SetTarget(env, vs, t, value).value, t) == Ok(value)
  }

  lemma EmptyNameMisreads(env: Env, vs: Vars, t: Target, v: Val)
    requires t.Output? && t.component in vs.outputs && t.root == "" && t.rest != ""
    ensures var outs := vs.outputs[t.component];
            RoundTrips(env, vs, t, v) ==> Misread(env, outs, outs, Split(t.rest, '.'), v) == v
  {
  }

  lemma TargetRoundTrip(env: Env, vs: Vars, t: Target)
    requires t.Output? && SetTarget(env, vs, t, NoneVal).Ok?
    ensures (forall value :: RoundTrips(env, vs, t, value)) <==> t.root != ""
  {
    if t.root != "" {
      forall value: Val
        ensures RoundTrips(env, vs, t, value)
      {
        TargetReadBack(env, vs, t, value);
      }
    } else if t.rest == "" {
      assert !RoundTrips(env, vs, t, NoneVal);
    } else {
      EmptyNameMisreads(env, vs, t, NoneVal);
      EmptyNameMisreads(env, vs, t, TextVal("x"));
      MisreadIsNotWritten(env, vs.outputs[t.component], vs.outputs[t.component], Split(t.rest, '.'));
    }
  }

  /** For every reference to an output that can be written, path or no path, the round trip holds for all values
      exactly when the output has a name: `c@` and `c@.x` write the output with the empty name and read all outputs. */
  lemma OutputRoundTrip(env: Env, vs: Vars, exp: string)
    requires Resolve(exp).Output? && SetVariable(env, vs, exp, NoneVal).Ok?
    ensures (forall value :: RoundTrips(env, vs, Resolve(exp), value)) <==> Resolve(exp).root != ""
  {
    TargetRoundTrip(env, vs, Resolve(exp));
  }

  /** The two references name different variables. */
  predicate Apart(a: Target, b: Target) {
    if a.Global? && b.Global? then a.name != b.name
    else if a.Output? && b.Output? then a.component != b.component || (a.root != b.root && b.root != "")
    else true
  }

  lemma OtherTargetsUnchanged(env: Env, vs: Vars, t: Target, value: Val, other: Target)
    requires SetTarget(env, vs, t, value).Ok? && Apart(t, other)
    ensures GetTarget(env, SetTarget(env, vs, t, value).value, other) == GetTarget(env, vs, other)
  {
    if t.Output? && other.Output? && t.component == other.component {
      var outs := PutOutput(env, vs.outputs[t.component], t.root, t.rest, value).value;
      assert OutputOf(outs, other.root) == OutputOf(vs.outputs[t.component], other.root);
    }
  }

  /** Writing one variable leaves all others as they were. */
  lemma OtherVariablesUnchanged(env: Env, vs: Vars, exp: string, value: Val, other: string)
    requires SetVariable(env, vs, exp, value).Ok? && Apart(Resolve(exp), Resolve(other))
    ensures GetVariable(env, SetVariable(env, vs, exp, value).value, other) == GetVariable(env, vs, other)
  {
    OtherTargetsUnchanged(env, vs, Resolve(exp), value, Resolve(other));
  }

  /** The two references name different places inside one named output. */
  predicate Beside(a: Target, b: Target) {
    && a.Output? && b.Output? && a.component == b.component && a.root == b.root != ""
    && a.rest != "" && b.rest != "" && Diverge(Split(a.rest, '.'), Split(b.rest, '.'))
  }

  /** What the output of `t` held is a dictionary, and so is every node it shares with `other`. */
  predicate SharedTargets(vs: Vars, t: Target, other: Target)
    requires Beside(t, other) && t.component in vs.outputs
  {
    var found := OutputOf(vs.outputs[t.component], t.root);
    found.Dict? && SharedDicts(found.m, Split(t.rest, '.'), Split(other.rest, '.'))
  }

  lemma OtherTargetPathsUnchanged(env: Env, vs: Vars, t: Target, value: Val, other: Target)
    requires Beside(t, other) && SetTarget(env, vs, t, value).Ok?
    ensures GetTarget(env, SetTarget(env, vs, t, value).value, other) == GetTarget(env, vs, other)
            <==> SharedTargets(vs, t, other) || GetTarget(env, vs, other) == Ok(NoneVal)
  {
    var found := OutputOf(vs.outputs[t.component], t.root);
    var p, q := Split(t.rest, '.'), Split(other.rest, '.');
    if found.Dict? {
      DivergingPathUnchanged(env, found.m, p, value, q);
    } else {
      FreshWriteReadsNone(env, p, value, q);
    }
  }

  /** Within one output, a path that parts from the written one reads as before if and only if the nodes the two
      share are dictionaries or it read nothing. */
  lemma OtherPathsUnchanged(env: Env, vs: Vars, exp: string, value: Val, other: string)
    requires Beside(Resolve(exp), Resolve(other)) && SetVariable(env, vs, exp, value).Ok?
    ensures GetVariable(env, SetVariable(env, vs, exp, value).value, other) == GetVariable(env, vs, other)
            <==> SharedTargets(vs, Resolve(exp), Resolve(other)) || GetVariable(env, vs, other) == Ok(NoneVal)
  {
    OtherTargetPathsUnchanged(env, vs, Resolve(exp), value, Resolve(other));
  }

  /** The canvas's own variables, which `set_variable_value` overwrites. */
  class Memory {
    var globals: map<string, Val>
    var outputs: map<string, map<string, Val>>

    constructor (globals: map<string, Val>, outputs: map<string, map<string, Val>>)
      ensures Snapshot() == Vars(globals, outputs)
    {
      this.globals, this.outputs := globals, outputs;
    }

    function Snapshot(): Vars
      reads this
    {
      Vars(globals, outputs)
    }

    /** `set_variable_value`; false where it raises, and then nothing was written. */
    method SetVariableValue(env: Env, exp: string, value: Val) returns (ok: bool)
      modifies this
      ensures ok <==> SetVariable(env, old(Snapshot()), exp, value).Ok?
      ensures Snapshot() == if ok then SetVariable(env, old(Snapshot()), exp, value).value else old(Snapshot())
    {
      ok := Write(env, Resolve(exp), value);
    }

    method Write(env: Env, t: Target, value: Val) returns (ok: bool)
      modifies this
      ensures ok <==> SetTarget(env, old(Snapshot()), t, value).Ok?
      ensures Snapshot() == if ok then SetTarget(env, old(Snapshot()), t, value).value else old(Snapshot())
    {
      if t.Global? {
        globals := globals[t.name := value];
        return true;
      }
      if t.component !in outputs {
        return false;
      }
      var outs := outputs[t.component];
      if t.rest == "" {
        outputs := outputs[t.component := outs[t.root := value]];
        return true;
      }
      var found := OutputOf(outs, t.root);
      if Falsy(env, found) {
        found := Dict(map[]);
      }
      if !found.Dict? {
        return false;
      }
      outputs := outputs[t.component := outs[t.root := Dict(PutPath(found.m, Split(t.rest, '.'), value))]];
      return true;
    }
  }
}
