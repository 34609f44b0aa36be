/** common/metadata_es_filter.py: filters to bool clauses, and the plan that joins them. */
module EsTranslate {
  import opened Text
  import opened PyValues
  import opened EsQuery
  import Globs

  // ---- Value coercion ----

  function CoerceScalar(py: Python, v: Value): Result<Value> {
    if v.Null? then Err("scalar comparison value is None")
    else if v.List? || v.Other? then Err("scalar comparison value is non-scalar")
    else
      var s := Strip(StrOf(py, v));
      if DateShaped(s) then Ok(Str(s))
      else
        var parsed := if py.literal(s).Some? then py.literal(s).value else Str(s);
        if parsed.Str? then Ok(Str(Lower(parsed.s)))
        else if Numeric(parsed) then Ok(parsed)
        else Ok(Str(Lower(s)))
  }

  function CoerceRangeValue(py: Python, v: Value): Result<Value> {
    if v.Null? then Err("range comparison value is None")
    else
      var s := Strip(StrOf(py, v));
      if DateShaped(s) then Ok(Str(s))
      else if py.literal(s).Some? && Numeric(py.literal(s).value) then Ok(py.literal(s).value)
      else Ok(Str(s))
  }

  function CoerceString(py: Python, v: Value): Result<string> {
    if v.Null? then Err("string-operator value is None")
    else if v.List? || v.Other? then Err("string-operator value must be a scalar")
    else if StrOf(py, v) == "" then Err("string-operator value is empty")
    else Ok(StrOf(py, v))
  }

  /** `[m.strip() for m in parts if m.strip()]` */
  function NonBlank(parts: seq<string>): seq<Value> {
    if parts == [] then []
    else (if Strip(parts[0]) == "" then [] else [Str(Strip(parts[0]))]) + NonBlank(parts[1..])
  }

  function RawMembers(py: Python, v: Value): seq<Value> {
    match v
    case List(items) => items
    case Tuple(items) => items
    case Str(s) =>
      var p := py.literal(s);
      if p.Some? && (p.value.List? || p.value.Tuple?) then p.value.items else NonBlank(Split(s, ','))
    case _ => [v]
  }

  function NormalMember(m: Value): Value {
    if m.Str? then Str(Strip(Lower(m.s))) else m
  }

  function NormalMembers(ms: seq<Value>): seq<Value> {
    seq(|ms|, i requires 0 <= i < |ms| => NormalMember(ms[i]))
  }

  function Members(py: Python, v: Value): Result<seq<Value>> {
    if v.Null? then Err("membership value is None")
    else if RawMembers(py, v) == [] then Err("membership value resolved to empty list")
    else Ok(NormalMembers(RawMembers(py, v)))
  }

  /** `_csv_or_list`, which builds the normalised list by appending. */
  method CsvOrList(py: Python, v: Value) returns (r: Result<seq<Value>>)
    ensures r == Members(py, v)
  {
    if v.Null? {
      return Err("membership value is None");
    }
    var members := RawMembers(py, v);
    if members == [] {
      return Err("membership value resolved to empty list");
    }
    var normalised: seq<Value> := [];
    for i := 0 to |members|
      invariant normalised == NormalMembers(members)[..i]
    {
      if members[i].Str? {
        normalised := normalised + [Str(Strip(Lower(members[i].s)))];
      } else {
        normalised := normalised + [members[i]];
      }
    }
    assert NormalMembers(members)[..|members|] == NormalMembers(members);
    r := Ok(normalised);
  }

  // ---- One filter ----

  datatype Translated = Translated(must: seq<Clause>, mustNot: seq<Clause>)

  /** `to_clauses`: what the filter contributes to its parent bool. */
  function ToClauses(t: Translated): seq<Clause> {
    if t.must == [] && t.mustNot == [] then []
    else if t.mustNot == [] then
      if |t.must| == 1 then t.must else [AllOf(t.must, [])]
    else [AllOf(t.must, t.mustNot)]
  }

  function TermOrMatch(key: string, v: Value): Clause {
    if v.Str? then TermFolded(Keyword(key), v.s) else Term(Parent(key), v)
  }

  function TermsStringOrNumeric(key: string, ms: seq<Value>): Clause {
    if forall m :: m in ms ==> !m.Str? then Terms(Parent(key), ms)
    else AnyOf(seq(|ms|, i requires 0 <= i < |ms| => TermOrMatch(key, ms[i])))
  }

  function Wildcard(key: string, pattern: string): Clause {
    WildcardFolded(Keyword(key), pattern)
  }

  function EscapeWildcard(text: string): string {
    Globs.Escape(Globs.WILDCARD, text)
  }

  function Positive(c: Clause): Translated {
    Translated([c], [])
  }

  /** The rejection of `c`, guarded so that documents without the key stay out. */
  function Negative(key: string, c: Clause): Translated {
    Translated([Exists(Parent(key))], [c])
  }

  function Translate(py: Python, f: Filter): Result<Translated> {
    if f.key.None? || f.key.value == "" then Err("filter is missing a string key")
    else TranslateOp(py, f.op, f.key.value, f.value)
  }

  function TranslateOp(py: Python, op: Op, key: string, value: Value): Result<Translated>
  {
    match op
    case Unknown(_) => Err("unknown operator")
    case Empty =>
      Ok(Positive(AnyOf([AllOf([], [Exists(Parent(key))]), Term(Keyword(key), Str(""))])))
    case NotEmpty => Ok(Negative(key, Term(Keyword(key), Str(""))))
    case Eq =>
      var c := CoerceScalar(py, value);
      if c.Err? then Err(c.reason) else Ok(Positive(TermOrMatch(key, c.value)))
    case Ne =>
      var c := CoerceScalar(py, value);
      if c.Err? then Err(c.reason) else Ok(Negative(key, TermOrMatch(key, c.value)))
    case In =>
      var m := Members(py, value);
      if m.Err? then Err(m.reason) else Ok(Positive(TermsStringOrNumeric(key, m.value)))
    case NotIn =>
      var m := Members(py, value);
      if m.Err? then Err(m.reason) else Ok(Negative(key, TermsStringOrNumeric(key, m.value)))
    case Contains =>
      var t := CoerceString(py, value);
      if t.Err? then Err(t.reason) else Ok(Positive(Wildcard(key, "*" + EscapeWildcard(t.value) + "*")))
    case NotContains =>
      var t := CoerceString(py, value);
      if t.Err? then Err(t.reason) else Ok(Negative(key, Wildcard(key, "*" + EscapeWildcard(t.value) + "*")))
    case StartWith =>
      var t := CoerceString(py, value);
      if t.Err? then Err(t.reason) else Ok(Positive(PrefixFolded(Keyword(key), t.value)))
    case EndWith =>
      var t := CoerceString(py, value);
      if t.Err? then Err(t.reason) else Ok(Positive(Wildcard(key, "*" + EscapeWildcard(t.value))))
    case _ =>
      var b := CoerceRangeValue(py, value);
      if b.Err? then Err(b.reason) else Ok(Translated([Exists(Parent(key)), Range(Parent(key), op, b.value)], []))
  }

  // ---- The plan ----

  datatype Plan = Plan(logic: string, translated: seq<Translated>)

  function Flatten(groups: seq<Translated>): seq<Clause> {
    if groups == [] then [] else ToClauses(groups[0]) + Flatten(groups[1..])
  }

  /** `to_query` */
  function ToQuery(p: Plan, kbIds: seq<string>): Clause {
    var kb := KbTerms(kbIds);
    if p.translated == [] then BoolQuery([], [], [], [kb], 0)
    else
      var flat := Flatten(p.translated);
      var inner := if p.logic == "or" then AnyOf(flat) else AllOf(flat, []);
      FilterBy(kb, inner)
  }

  /** The plan holds one translation for each filter, in order. */
  ghost predicate PlanOf(py: Python, filters: seq<Filter>, p: Plan) {
    && |p.translated| == |filters|
    && forall i :: 0 <= i < |filters| ==> Translate(py, filters[i]) == Ok(p.translated[i])
  }

  /** `plan_pushdown`: fails on an unknown logic or on the first filter without a translation. */
  method PlanPushdown(py: Python, filters: seq<Filter>, logic: string) returns (r: Result<Plan>)
    ensures r.Ok? <==> logic in {"and", "or"} && forall f :: f in filters ==> Translate(py, f).Ok?
    ensures r.Ok? ==> r.value.logic == logic && PlanOf(py, filters, r.value)
  {
    if logic !in {"and", "or"} {
      return Err("unknown logic");
    }
    var plan := Plan(logic, []);
    for i := 0 to |filters|
      invariant plan.logic == logic && PlanOf(py, filters[..i], plan)
      invariant forall f :: f in filters[..i] ==> Translate(py, f).Ok?
    {
      var t := Translate(py, filters[i]);
      if t.Err? {
        assert filters[i] in filters;
        return Err(t.reason);
      }
      plan := plan.(translated := plan.translated + [t.value]);
    }
    assert filters[..|filters|] == filters;
    r := Ok(plan);
  }

  // ---- What a plan means ----

  /** All of `must` and none of `mustNot`. */
  ghost predicate Holds(eng: Analysed, t: Translated, d: Doc) {
    && (forall c :: c in t.must ==> Accepts(eng, c, d))
    && (forall c :: c in t.mustNot ==> !Accepts(eng, c, d))
  }

  lemma TranslationHasMust(py: Python, f: Filter)
    requires Translate(py, f).Ok?
    ensures Translate(py, f).value.must != []
  {
  }

  /** A translation contributes exactly one clause, and that clause is the whole filter. */
  lemma ToClausesIsAtomic(eng: Analysed, t: Translated, d: Doc)
    requires t.must != []
    ensures |ToClauses(t)| == 1
    ensures Accepts(eng, ToClauses(t)[0], d) <==> Holds(eng, t, d)
  {
    if t.mustNot == [] && |t.must| == 1 {
      assert forall c :: c in t.must <==> c == t.must[0];
    }
  }

  lemma FlattenStep(ts: seq<Translated>)
    requires ts != [] && ts[0].must != []
    ensures |ToClauses(ts[0])| == 1
    ensures forall c :: c in Flatten(ts) <==> c == ToClauses(ts[0])[0] || c in Flatten(ts[1..])
    ensures forall t :: t in ts <==> t == ts[0] || t in ts[1..]
  {
    assert ts == [ts[0]] + ts[1..];
    assert Flatten(ts) == ToClauses(ts[0]) + Flatten(ts[1..]);
  }

  lemma {:induction false} FlattenKeepsFilters(eng: Analysed, ts: seq<Translated>, d: Doc)
    requires forall t :: t in ts ==> t.must != []
    ensures (forall c :: c in Flatten(ts) ==> Accepts(eng, c, d)) <==> (forall t :: t in ts ==> Holds(eng, t, d))
    ensures (exists c :: c in Flatten(ts) && Accepts(eng, c, d)) <==> (exists t :: t in ts && Holds(eng, t, d))
  {
    if ts != [] {
      FlattenStep(ts);
      ToClausesIsAtomic(eng, ts[0], d);
      FlattenKeepsFilters(eng, ts[1..], d);
    }
  }

  /** OR/AND atomicity: the rendered query is KB membership and the fold over whole filters.
      An empty plan selects every document of the knowledge bases. */
  lemma QueryMeaning(eng: Analysed, p: Plan, kbIds: seq<string>, d: Doc)
    requires forall t :: t in p.translated ==> t.must != []
    ensures Accepts(eng, ToQuery(p, kbIds), d) <==>
              d.kb in kbIds
              && (if p.translated == [] then true
                  else if p.logic == "or" then exists t :: t in p.translated && Holds(eng, t, d)
                  else forall t :: t in p.translated ==> Holds(eng, t, d))
  {
    var kb := KbTerms(kbIds);
    if p.translated == [] {
      assert kb in [kb] && forall x :: x in [kb] ==> x == kb;
    } else {
      var flat := Flatten(p.translated);
      FlattenKeepsFilters(eng, p.translated, d);
      if p.logic == "or" {
        AnyOfMeaning(eng, flat, d);
        FilterByMeaning(eng, kb, AnyOf(flat), d);
      } else {
        AllOfMeaning(eng, flat, [], d);
        FilterByMeaning(eng, kb, AllOf(flat, []), d);
      }
    }
  }
}
