/** The in-memory filter of common/metadata_utils.py: each filter is tested on
    every value bucket of its key, and the matching document sets are folded. */
module MetaFilter {
  import opened Text
  import opened PyValues

  /** value -> ids of the documents carrying it */
  type Buckets = map<string, seq<string>>
  /** metadata key -> buckets */
  type Metas = map<string, Buckets>

  // ---- What one bucket test means ----

  function LowerStrings(v: Value): Value {
    match v
    case Str(s) => Str(Lower(s))
    case List(items) =>
      List(seq(|items|, i requires 0 <= i < |items| => if items[i].Str? then Str(Lower(items[i].s)) else items[i]))
    case _ => v
  }

  function LowerIfString(v: Value): Value {
    if v.Str? then Str(Lower(v.s)) else v
  }

  /** `ast.literal_eval` of both sides, or of neither. */
  function Parsed(py: Python, input: string, value: Value): (Value, Value) {
    if value.Str? && py.literal(input).Some? && py.literal(value.s).Some?
    then (py.literal(input).value, py.literal(value.s).value)
    else (Str(input), value)
  }

  /** The two operands the operator is finally applied to; None when the bucket is skipped. */
  function Operands(py: Python, op: Op, input: string, value: Value): Option<(Value, Value)> {
    if Comparison(op) then
      var i, v := Strip(input), Strip(StrOf(py, value));
      if DateShaped(v) then
        if DateShaped(i) then Some((Str(i), Str(v))) else None
      else
        var p := Parsed(py, input, value);
        Some((LowerIfString(p.0), LowerIfString(p.1)))
    else
      Some((Str(Lower(input)), LowerStrings(value)))
  }

  /** The operator itself; a raised exception counts as no match. */
  predicate Satisfies(py: Python, op: Op, i: Value, v: Value) {
    match op
    case Eq => Same(i, v)
    case Ne => !Same(i, v)
    case Gt => py.compare(op, i, v) == Some(true)
    case Lt => py.compare(op, i, v) == Some(true)
    case Ge => py.compare(op, i, v) == Some(true)
    case Le => py.compare(op, i, v) == Some(true)
    case Contains => v.Str? && Occurs(v.s, StrOf(py, i))
    case NotContains => v.Str? && !Occurs(v.s, StrOf(py, i))
    case In =>
      if v.Str? then i.Str? && Occurs(i.s, v.s)
      else (v.List? || v.Tuple?) && exists k :: 0 <= k < |v.items| && Same(v.items[k], i)
    case NotIn =>
      if v.Str? then i.Str? && !Occurs(i.s, v.s)
      else (v.List? || v.Tuple?) && forall k :: 0 <= k < |v.items| ==> !Same(v.items[k], i)
    case StartWith => StartsWith(Lower(StrOf(py, i)), Lower(StrOf(py, v)))
    case EndWith => EndsWith(Lower(StrOf(py, i)), Lower(StrOf(py, v)))
    case Empty => i == Str("")
    case NotEmpty => i != Str("")
    case Unknown(_) => false
  }

  predicate BucketMatches(py: Python, op: Op, input: string, value: Value) {
    var o := Operands(py, op, input, value);
    o.Some? && Satisfies(py, op, o.value.0, o.value.1)
  }

  /** Document `d` is listed in a matching bucket among those named by `values`. */
  ghost predicate FoundIn(py: Python, v2docs: Buckets, values: set<string>, op: Op, value: Value, d: string)
    requires values <= v2docs.Keys
  {
    exists v :: v in values && BucketMatches(py, op, v, value) && d in v2docs[v]
  }

  lemma FoundInStep(py: Python, v2docs: Buckets, values: set<string>, v: string, op: Op, value: Value,
                    d: string)
    requires values <= v2docs.Keys && v in v2docs
    ensures FoundIn(py, v2docs, values + {v}, op, value, d) <==>
              FoundIn(py, v2docs, values, op, value, d) || (BucketMatches(py, op, v, value) && d in v2docs[v])
  {
  }

  /** Document `d` is in some matching bucket of the filter's key. */
  ghost predicate Hit(py: Python, metas: Metas, f: Filter, d: string) {
    && f.key.Some? && f.key.value in metas
    && FoundIn(py, metas[f.key.value], metas[f.key.value].Keys, f.op, f.value, d)
  }

  /** The and/or fold over all filters; an empty filter list selects nothing. */
  ghost predicate Selected(py: Python, metas: Metas, filters: seq<Filter>, logic: string, d: string) {
    && filters != []
    && if logic == "and" then forall f :: f in filters ==> Hit(py, metas, f, d)
       else exists f :: f in filters && Hit(py, metas, f, d)
  }

  predicate NoDuplicates<T(==)>(s: seq<T>) {
    forall i, j :: 0 <= i < j < |s| ==> s[i] != s[j]
  }

  // ---- The code ----

  /** One turn of the loop of `filter_out`: it overwrites `value` and hands back what it left there. */
  method TestBucket(py: Python, op: Op, bucket: string, original: Value) returns (matched: bool, value: Value)
    ensures matched == BucketMatches(py, op, bucket, original)
  {
    var input := Str(bucket);
    value := original;
    if Comparison(op) {
      var inputStr, valueStr := Strip(bucket), Strip(StrOf(py, value));
      if DateShaped(valueStr) {
        if !DateShaped(inputStr) {
          return false, value;
        }
        input, value := Str(inputStr), Str(valueStr);
      } else {
        if value.Str? && py.literal(bucket).Some? && py.literal(value.s).Some? {
          input, value := py.literal(bucket).value, py.literal(value.s).value;
        }
        input, value := LowerIfString(input), LowerIfString(value);
      }
    } else {
      input, value := LowerStrings(input), LowerStrings(value);
    }
    matched := Satisfies(py, op, input, value);
  }

  /** The inner `filter_out`. Buckets are taken in an arbitrary order, and `value`
      is overwritten in every turn, yet the result depends on neither. */
  method FilterOut(py: Python, v2docs: Buckets, op: Op, original: Value) returns (ids: seq<string>)
    ensures forall d :: d in ids <==> FoundIn(py, v2docs, v2docs.Keys, op, original, d)
  {
    ids := [];
    var pending := v2docs.Keys;
    var value := original;
    ghost var done := {};
    while pending != {}
      invariant done + pending == v2docs.Keys
      invariant forall d :: d in ids <==> FoundIn(py, v2docs, done, op, original, d)
      decreases pending
    {
      var bucket :| bucket in pending;
      pending := pending - {bucket};
      value := original;
      var matched;
      matched, value := TestBucket(py, op, bucket, value);
      ghost var was := ids;
      if matched {
        ids := ids + v2docs[bucket];
      }
      forall d
        ensures d in ids <==> FoundIn(py, v2docs, done + {bucket}, op, original, d)
      {
        FoundInStep(py, v2docs, done, bucket, op, original, d);
        assert d in ids <==> d in was || (matched && d in v2docs[bucket]);
      }
      done := done + {bucket};
    }
    assert done == v2docs.Keys;
  }

  /** `list(s)`: some duplicate-free listing of a set. */
  method Listing(s: set<string>) returns (r: seq<string>)
    ensures NoDuplicates(r)
    ensures forall d :: d in r <==> d in s
  {
    r := [];
    var rest := s;
    while rest != {}
      invariant rest <= s && NoDuplicates(r)
      invariant forall d :: d in r <==> d in s - rest
      decreases rest
    {
      var d :| d in rest;
      assert d !in r;
      r, rest := r + [d], rest - {d};
    }
  }

  /** `meta_filter`, with its early return. */
  method MetaFilter(py: Python, metas: Metas, filters: seq<Filter>, logic: string) returns (r: seq<string>)
    ensures NoDuplicates(r)
    ensures forall d :: d in r <==> Selected(py, metas, filters, logic, d)
  {
    var docIds: Option<set<string>> := None;
    for n := 0 to |filters|
      invariant docIds.Some? <==> n > 0
      invariant n > 0 ==> forall d :: d in docIds.value <==> Selected(py, metas, filters[..n], logic, d)
    {
      var f := filters[n];
      var ids: seq<string> := [];
      if f.key.Some? && f.key.value in metas {
        ids := FilterOut(py, metas[f.key.value], f.op, f.value);
      }
      var found := set d | d in ids;
      assert forall d :: d in found <==> Hit(py, metas, f, d);
      assert forall g :: g in filters[..n + 1] <==> g in filters[..n] || g == f by {
        assert filters[..n + 1] == filters[..n] + [f];
      }
      if docIds.None? {
        docIds := Some(found);
      } else if logic == "and" {
        docIds := Some(docIds.value * found);
        if docIds.value == {} {
          forall d
            ensures !Selected(py, metas, filters, logic, d)
          {
            assert d !in docIds.value;
            assert forall g :: g in filters[..n + 1] ==> g in filters;
          }
          return [];
        }
      } else {
        docIds := Some(docIds.value + found);
      }
    }
    assert filters[..|filters|] == filters;
    if docIds.None? {
      r := [];
    } else {
      r := Listing(docIds.value);
    }
  }
}
