/** The Python values a metadata filter handles, and the interpreter services
    the filters call. The services are parameters: every theorem that takes a
    `Python` holds for all of them. */
module PyValues {
  import opened Text

  datatype Option<+T> = None | Some(value: T)

  datatype Result<+T> = Ok(value: T) | Err(reason: string)

  datatype Value =
    | Null
    | Bool(b: bool)
    | Num(n: real)
    | Str(s: string)
    | List(items: seq<Value>)
    | Tuple(items: seq<Value>)
    | Other(tag: string)  // dictionaries, sets, bytes

  datatype Op =
    | Eq | Ne | Gt | Lt | Ge | Le
    | In | NotIn | Contains | NotContains | StartWith | EndWith
    | Empty | NotEmpty
    | Unknown(name: string)

  /** One user filter; `key` is None when the source finds no string key. */
  datatype Filter = Filter(op: Op, key: Option<string>, value: Value)

  /** `literal` is `ast.literal_eval` on a string (None when it raises), `show`
      is `str` on a non-string, `compare` an ordering test (None when it raises). */
  datatype Python = Python(
    literal: string -> Option<Value>,
    show: Value -> string,
    compare: (Op, Value, Value) -> Option<bool>)

  /** `str(v)` */
  function StrOf(py: Python, v: Value): string {
    if v.Str? then v.s else py.show(v)
  }

  predicate Numeric(v: Value) {
    v.Num? || v.Bool?
  }

  function AsNumber(v: Value): real
    requires Numeric(v)
  {
    match v
    case Num(n) => n
    case Bool(b) => if b then 1.0 else 0.0
  }

  /** Python's `a == b` */
  predicate Same(a: Value, b: Value) {
    if Numeric(a) && Numeric(b) then AsNumber(a) == AsNumber(b)
    else if (a.List? && b.List?) || (a.Tuple? && b.Tuple?) then
      |a.items| == |b.items| && forall i :: 0 <= i < |a.items| ==> Same(a.items[i], b.items[i])
    else a == b
  }

  lemma SameString(s: string, v: Value)
    ensures Same(v, Str(s)) <==> v == Str(s)
    ensures Same(Str(s), v) <==> v == Str(s)
  {
  }

  predicate Comparison(op: Op) {
    op.Eq? || op.Ne? || op.Gt? || op.Lt? || op.Ge? || op.Le?
  }

  predicate Digit(c: char) {
    '0' <= c <= '9'
  }

  /** The ten-character YYYY-MM-DD shape both filter paths test for. */
  predicate DateShaped(s: string) {
    && |s| == 10 && s[4] == '-' && s[7] == '-'
    && (forall i :: 0 <= i < 10 && i != 4 && i != 7 ==> Digit(s[i]))
  }

  /** Dates contain no letters, so folding case cannot create one. */
  lemma LowerDate(s: string, d: string)
    requires DateShaped(d)
    ensures Lower(s) == Lower(d) <==> s == d
  {
    if Lower(s) == Lower(d) {
      forall i | 0 <= i < |s|
        ensures s[i] == d[i]
      {
        assert Lower(s)[i] == Lower(d)[i];
        assert d[i] == '-' || Digit(d[i]);
      }
    }
  }
}
