/** `get_value_with_variable` of agent/canvas.py: texts whose variable references are
    replaced by rendered values. The runtime pattern is not the migration's pattern. */
module Templates {
  import opened PyValues
  import opened Text
  import opened References

  predicate Blank(c: char) {
    c == ' '
  }

  predicate RuntimeIdChar(c: char) {
    Letter(c) || Digit(c) || c == '_' || c == ':'
  }

  predicate GlobalChar(c: char) {
    Letter(c) || Digit(c) || c == '_' || c == '.'
  }

  /** A match of `variable_ref_patt` at the head of a text. `id@name` is split at the `@`
      at once, as `get_variable_value` does. */
  datatype VarMatch =
    | NoVar
    | OutputVar(id: string, name: string, rest: string)
    | GlobalVar(key: string, rest: string)

  /** ` *\}*`, which swallows blanks and further braces */
  function SkipTrail(t: string): string {
    Take(Take(t, Blank).tail, Close).tail
  }

  /** `[a-zA-Z0-9_:]+@[A-Za-z0-9_.-]+` closed by a brace */
  function OutputRef(x: string): VarMatch {
    var i := Take(x, RuntimeIdChar);
    if i.head == [] || i.tail == [] || i.tail[0] != '@' then NoVar
    else
      var v := Take(i.tail[1..], VarChar);
      if v.head == [] || v.tail == [] || v.tail[0] != '}' then NoVar
      else OutputVar(i.head, v.head, SkipTrail(v.tail[1..]))
  }

  /** `sys\.[A-Za-z0-9_.]+` or `env\.[A-Za-z0-9_.]+`, in any case, closed by a brace */
  function GlobalRef(x: string): VarMatch {
    if |x| < 4 || (Lower(x[..4]) != "sys." && Lower(x[..4]) != "env.") then NoVar
    else
      var s := Take(x[4..], GlobalChar);
      if s.head == [] || s.tail == [] || s.tail[0] != '}' then NoVar
      else GlobalVar(x[..4] + s.head, SkipTrail(s.tail[1..]))
  }

  function RefBody(x: string): VarMatch {
    if OutputRef(x).OutputVar? then OutputRef(x) else GlobalRef(x)
  }

  /** `\{* *\{` in front of the reference: either the last brace of a run, or a single
      brace behind blanks, which are swallowed together with the braces before them. */
  function MatchVar(t: string): VarMatch {
    var b := Take(t, Open);
    var p := Take(b.tail, Blank);
    if p.head == [] then if b.head == [] then NoVar else RefBody(b.tail)
    else if p.tail == [] || p.tail[0] != '{' then NoVar
    else RefBody(p.tail[1..])
  }

  /** Component outputs and global variables, as rendered text. */
  datatype Store = Store(outputs: map<string, string -> string>, globals: map<string, string>)

  /** None stands for the exception of an unknown component or global. */
  function Lookup(st: Store, v: VarMatch): Option<string>
    requires !v.NoVar?
  {
    match v
    case OutputVar(id, name, _) => if id in st.outputs then Some(st.outputs[id](name)) else None
    case GlobalVar(key, _) => if key in st.globals then Some(st.globals[key]) else None
  }

  function Prepend(a: string, b: Option<string>): Option<string> {
    if b.Some? then Some(a + b.value) else None
  }

  lemma SkipTrailShrinks(t: string)
    ensures |SkipTrail(t)| <= |t|
  {
  }

  lemma RefBodyShrinks(x: string)
    requires !RefBody(x).NoVar?
    ensures |RefBody(x).rest| < |x|
  {
    if OutputRef(x).OutputVar? {
      var i := Take(x, RuntimeIdChar);
      SkipTrailShrinks(Take(i.tail[1..], VarChar).tail[1..]);
    } else {
      SkipTrailShrinks(Take(x[4..], GlobalChar).tail[1..]);
    }
  }

  lemma MatchVarShrinks(t: string)
    requires !MatchVar(t).NoVar?
    ensures |MatchVar(t).rest| < |t|
  {
    var b := Take(t, Open);
    var p := Take(b.tail, Blank);
    if p.head == [] {
      RefBodyShrinks(b.tail);
    } else {
      RefBodyShrinks(p.tail[1..]);
    }
  }

  /** `get_value_with_variable` */
  function Evaluate(st: Store, t: string): Option<string>
    decreases |t|
  {
    if t == [] then Some([])
    else
      var v := MatchVar(t);
      if v.NoVar? then Prepend([t[0]], Evaluate(st, t[1..]))
      else
        MatchVarShrinks(t);
        var value := Lookup(st, v);
        if value.None? then None else Prepend(value.value, Evaluate(st, v.rest))
  }

  lemma PrependPrepend(out: string, a: string, b: Option<string>)
    ensures Prepend(out + a, b) == Prepend(out, Prepend(a, b))
  {
    if b.Some? {
      assert (out + a) + b.value == out + (a + b.value);
    }
  }

  /** The loop over the matches, collecting the text between them and their values. */
  method GetValueWithVariable(st: Store, value: string) returns (r: Option<string>)
    ensures r == Evaluate(st, value)
  {
    var out, t := [], value;
    assert Evaluate(st, value).Some? ==> [] + Evaluate(st, value).value == Evaluate(st, value).value;
    while t != []
      invariant Prepend(out, Evaluate(st, t)) == Evaluate(st, value)
      decreases |t|
    {
      var v := MatchVar(t);
      if v.NoVar? {
        PrependPrepend(out, [t[0]], Evaluate(st, t[1..]));
        out, t := out + [t[0]], t[1..];
      } else {
        MatchVarShrinks(t);
        var rendered := Lookup(st, v);
        if rendered.None? {
          return None;
        }
        PrependPrepend(out, rendered.value, Evaluate(st, v.rest));
        out, t := out + rendered.value, v.rest;
      }
    }
    assert out + [] == out;
    r := Some(out);
  }
}
