/** The push-down against the in-memory filter: where both select the same
    documents, where one selects fewer, and where they part. */
module Pushdown {
  import opened Text
  import opened PyValues
  import opened MetaFilter
  import opened EsQuery
  import opened EsTranslate
  import Globs

  // ---- From documents to buckets ----

  ghost predicate Listed(metas: Metas, key: string, v: string, id: string) {
    key in metas && v in metas[key] && id in metas[key][v]
  }

  ghost predicate Carries(docs: seq<Doc>, kbIds: seq<string>, key: string, v: string, id: string) {
    exists d :: d in docs && d.kb in kbIds && d.id == id && v in ValuesOf(d, key)
  }

  /** `metas` lists exactly the values carried by the documents of the knowledge bases. */
  ghost predicate Flattens(docs: seq<Doc>, kbIds: seq<string>, metas: Metas) {
    forall key, v, id :: Listed(metas, key, v, id) <==> Carries(docs, kbIds, key, v, id)
  }

  /** Document ids are unique in the metadata index. */
  ghost predicate UniqueIds(docs: seq<Doc>) {
    forall d, e :: d in docs && e in docs && d.id == e.id ==> d == e
  }

  function AddValue(metas: Metas, key: string, v: string, id: string): (r: Metas)
    ensures forall k, w, i :: Listed(r, k, w, i) <==> Listed(metas, k, w, i) || (k == key && w == v && i == id)
  {
    var buckets := if key in metas then metas[key] else map[];
    var ids := if v in buckets then buckets[v] else [];
    metas[key := buckets[v := ids + [id]]]
  }

  /** The aggregation loop of `get_flatted_meta_by_kbs`. */
  method FlattenMetadata(docs: seq<Doc>, kbIds: seq<string>) returns (metas: Metas)
    ensures Flattens(docs, kbIds, metas)
  {
    metas := map[];
    for n := 0 to |docs|
      invariant Flattens(docs[..n], kbIds, metas)
    {
      var d := docs[n];
      ghost var before := metas;
      if d.kb in kbIds {
        metas := AddDocument(metas, d);
      }
      forall key, v, id
        ensures Listed(metas, key, v, id) <==> Carries(docs[..n + 1], kbIds, key, v, id)
      {
        CarriesStep(docs[..n], d, kbIds, key, v, id);
        assert docs[..n] + [d] == docs[..n + 1];
        assert Listed(before, key, v, id) <==> Carries(docs[..n], kbIds, key, v, id);
      }
    }
    assert docs[..|docs|] == docs;
  }

  lemma CarriesStep(docs: seq<Doc>, e: Doc, kbIds: seq<string>, key: string, v: string, id: string)
    ensures Carries(docs + [e], kbIds, key, v, id) <==>
              Carries(docs, kbIds, key, v, id) || (e.kb in kbIds && e.id == id && v in ValuesOf(e, key))
  {
    assert forall d :: d in docs + [e] <==> d in docs || d == e;
  }

  method AddDocument(metas: Metas, d: Doc) returns (r: Metas)
    ensures forall k, w, i :: Listed(r, k, w, i) <==> Listed(metas, k, w, i) || (i == d.id && w in ValuesOf(d, k))
  {
    r := metas;
    var keys := d.meta.Keys;
    while keys != {}
      invariant keys <= d.meta.Keys
      invariant forall k, w, i :: Listed(r, k, w, i) <==>
                  Listed(metas, k, w, i) || (i == d.id && k !in keys && w in ValuesOf(d, k))
      decreases keys
    {
      var key :| key in keys;
      ghost var before := r;
      for n := 0 to |d.meta[key]|
        invariant forall k, w, i :: Listed(r, k, w, i) <==>
                    Listed(before, k, w, i) || (i == d.id && k == key && w in d.meta[key][..n])
      {
        assert d.meta[key][..n + 1] == d.meta[key][..n] + [d.meta[key][n]];
        r := AddValue(r, key, d.meta[key][n], d.id);
      }
      assert d.meta[key][..|d.meta[key]|] == d.meta[key];
      keys := keys - {key};
    }
  }

  // ---- Both verdicts on one document ----

  /** The in-memory verdict: some value of the key passes the bucket test. */
  ghost predicate MemAccepts(py: Python, f: Filter, d: Doc) {
    f.key.Some? && exists v :: v in ValuesOf(d, f.key.value) && BucketMatches(py, f.op, v, f.value)
  }

  /** The push-down verdict: the translated filter holds. */
  ghost predicate EsAccepts(py: Python, eng: Analysed, f: Filter, d: Doc)
    requires Translate(py, f).Ok?
  {
    Holds(eng, Translate(py, f).value, d)
  }

  lemma HitIsPerDocument(py: Python, docs: seq<Doc>, kbIds: seq<string>, metas: Metas, f: Filter, id: string)
    requires Flattens(docs, kbIds, metas)
    ensures Hit(py, metas, f, id) <==>
              exists d :: d in docs && d.kb in kbIds && d.id == id && MemAccepts(py, f, d)
  {
    if Hit(py, metas, f, id) {
      var key := f.key.value;
      var v :| v in metas[key].Keys && BucketMatches(py, f.op, v, f.value) && id in metas[key][v];
      assert Listed(metas, key, v, id);
      assert Carries(docs, kbIds, key, v, id);
      var d :| d in docs && d.kb in kbIds && d.id == id && v in ValuesOf(d, key);
      assert MemAccepts(py, f, d);
    }
    if d :| d in docs && d.kb in kbIds && d.id == id && MemAccepts(py, f, d) {
      var key := f.key.value;
      var v :| v in ValuesOf(d, key) && BucketMatches(py, f.op, v, f.value);
      assert Carries(docs, kbIds, key, v, id);
      assert Listed(metas, key, v, id);
      assert FoundIn(py, metas[key], metas[key].Keys, f.op, f.value, id);
    }
  }

  // ---- Per-value tests the operators share ----

  /** What a positive operator asks of one value, on the push-down side. */
  predicate ValueTest(py: Python, f: Filter, v: string) {
    match f.op
    case Contains => Occurs(Lower(StrOf(py, f.value)), Lower(v))
    case NotContains => Occurs(Lower(StrOf(py, f.value)), Lower(v))
    case StartWith => StartsWith(Lower(v), Lower(StrOf(py, f.value)))
    case EndWith => EndsWith(Lower(v), Lower(StrOf(py, f.value)))
    case Eq => Lower(v) == Lower(Strip(StrOf(py, f.value)))
    case Ne => Lower(v) == Lower(Strip(StrOf(py, f.value)))
    case In => InMembers(RawMembers(py, f.value), v)
    case NotIn => InMembers(RawMembers(py, f.value), v)
    case NotEmpty => v == ""
    case _ => false
  }

  predicate InMembers(ms: seq<Value>, v: string) {
    exists m :: m in ms && m.Str? && Lower(v) == Lower(Strip(m.s))
  }

  predicate Negated(op: Op) {
    op.NotContains? || op.Ne? || op.NotIn? || op.NotEmpty?
  }

  /** A text compared as such: its trimmed form is a date, or no Python literal. */
  predicate TextValue(py: Python, v: Value) {
    v.Str? && (DateShaped(Strip(v.s)) || py.literal(Strip(v.s)).None?)
  }

  /** The filter reaches the engine as clauses on the keyword sub-field, with a value that is plain text. */
  predicate KeywordOnly(py: Python, f: Filter) {
    && f.key.Some? && f.key.value != ""
    && match f.op
       case Contains => CoerceString(py, f.value).Ok?
       case NotContains => CoerceString(py, f.value).Ok?
       case StartWith => CoerceString(py, f.value).Ok?
       case EndWith => CoerceString(py, f.value).Ok?
       case Eq => TextValue(py, f.value)
       case Ne => TextValue(py, f.value)
       case In => !f.value.Null? && RawMembers(py, f.value) != [] && forall m :: m in RawMembers(py, f.value) ==> m.Str?
       case NotIn =>
         !f.value.Null? && RawMembers(py, f.value) != [] && forall m :: m in RawMembers(py, f.value) ==> m.Str?
       case NotEmpty => true
       case _ => false
  }

  ghost predicate SomeValue(py: Python, f: Filter, d: Doc)
    requires f.key.Some?
  {
    exists v :: v in ValuesOf(d, f.key.value) && ValueTest(py, f, v)
  }

  function MemberTerms(key: string, raw: seq<Value>): seq<Clause> {
    seq(|raw|, i requires 0 <= i < |raw| => TermOrMatch(key, NormalMember(raw[i])))
  }

  lemma TermsMeaning(eng: Analysed, key: string, raw: seq<Value>, d: Doc)
    requires raw != [] && forall m :: m in raw ==> m.Str?
    ensures Accepts(eng, TermsStringOrNumeric(key, NormalMembers(raw)), d) <==>
              exists v :: v in ValuesOf(d, key) && InMembers(raw, v)
  {
    var ms, cs := NormalMembers(raw), MemberTerms(key, raw);
    assert ms[0] in ms && ms[0].Str?;
    assert cs == seq(|ms|, i requires 0 <= i < |ms| => TermOrMatch(key, ms[i]));
    assert TermsStringOrNumeric(key, ms) == AnyOf(cs);
    AnyOfMeaning(eng, cs, d);
    if c :| c in cs && Accepts(eng, c, d) {
      var i :| 0 <= i < |cs| && cs[i] == c;
      MemberTermMeaning(eng, key, raw[i].s, d);
      assert raw[i] in raw;
    }
    if v :| v in ValuesOf(d, key) && InMembers(raw, v) {
      var m :| m in raw && m.Str? && Lower(v) == Lower(Strip(m.s));
      var i :| 0 <= i < |raw| && raw[i] == m;
      MemberTermMeaning(eng, key, m.s, d);
      assert cs[i] in cs;
    }
  }

  lemma MemberTermMeaning(eng: Analysed, key: string, m: string, d: Doc)
    ensures Accepts(eng, TermFolded(Keyword(key), Strip(Lower(m))), d) <==>
              exists v :: v in ValuesOf(d, key) && Lower(v) == Lower(Strip(m))
  {
    StripLower(m);
    LowerIdempotent(Strip(m));
  }

  lemma PositiveMeaning(eng: Analysed, c: Clause, d: Doc)
    ensures Holds(eng, Positive(c), d) <==> Accepts(eng, c, d)
  {
    assert c in Positive(c).must;
  }

  lemma NegativeMeaning(eng: Analysed, key: string, c: Clause, d: Doc)
    ensures Holds(eng, Negative(key, c), d) <==> ValuesOf(d, key) != [] && !Accepts(eng, c, d)
  {
    var t := Negative(key, c);
    assert c in t.mustNot && Exists(Parent(key)) in t.must;
  }

  lemma WildcardMeaning(eng: Analysed, key: string, t: string, d: Doc)
    ensures Accepts(eng, Wildcard(key, "*" + EscapeWildcard(t) + "*"), d) <==>
              exists v :: v in ValuesOf(d, key) && Occurs(Lower(t), Lower(v))
    ensures Accepts(eng, Wildcard(key, "*" + EscapeWildcard(t)), d) <==>
              exists v :: v in ValuesOf(d, key) && EndsWith(Lower(v), Lower(t))
  {
    var y := Globs.WILDCARD;
    assert "*" == [y.many];
    forall v: string
      ensures Globs.Matches(true, Globs.Read(y, "*" + EscapeWildcard(t) + "*"), v) <==> Occurs(Lower(t), Lower(v))
      ensures Globs.Matches(true, Globs.Read(y, "*" + EscapeWildcard(t)), v) <==> EndsWith(Lower(v), Lower(t))
    {
      Globs.ContainsPattern(y, true, t, v);
      Globs.EndsWithPattern(y, true, t, v);
    }
  }

  /** The push-down side in closed form: a positive filter accepts when some value
      passes, a negated one when there are values and none passes. */
  lemma EsMeaning(py: Python, eng: Analysed, f: Filter, d: Doc)
    requires KeywordOnly(py, f)
    ensures Translate(py, f).Ok?
    ensures EsAccepts(py, eng, f, d) <==>
              if Negated(f.op) then ValuesOf(d, f.key.value) != [] && !SomeValue(py, f, d) else SomeValue(py, f, d)
  {
    var key := f.key.value;
    var t := Translate(py, f).value;
    if Negated(f.op) {
      NegativeMeaning(eng, key, t.mustNot[0], d);
    } else {
      PositiveMeaning(eng, t.must[0], d);
    }
    match f.op {
      case Contains => WildcardMeaning(eng, key, StrOf(py, f.value), d);
      case NotContains => WildcardMeaning(eng, key, StrOf(py, f.value), d);
      case EndWith => WildcardMeaning(eng, key, StrOf(py, f.value), d);
      case In => TermsMeaning(eng, key, RawMembers(py, f.value), d);
      case NotIn => TermsMeaning(eng, key, RawMembers(py, f.value), d);
      case Eq => EqualTermMeaning(py, eng, f, d);
      case Ne => EqualTermMeaning(py, eng, f, d);
      case _ =>
    }
  }

  /** A range filter asks for the key and for what the engine answers on the coerced bound, with its own operator. */
  lemma RangeMeaning(py: Python, eng: Analysed, f: Filter, d: Doc)
    requires f.op.Gt? || f.op.Lt? || f.op.Ge? || f.op.Le?
    requires Translate(py, f).Ok?
    ensures CoerceRangeValue(py, f.value).Ok?
    ensures EsAccepts(py, eng, f, d) <==>
              && ValuesOf(d, f.key.value) != []
              && eng(Range(Parent(f.key.value), f.op, CoerceRangeValue(py, f.value).value), d)
  {
    var key, t := f.key.value, Translate(py, f).value;
    assert t.must[0] in t.must && t.must[1] in t.must;
    assert forall c :: c in t.must ==> c == t.must[0] || c == t.must[1];
  }

  lemma EqualTermMeaning(py: Python, eng: Analysed, f: Filter, d: Doc)
    requires KeywordOnly(py, f) && (f.op.Eq? || f.op.Ne?)
    ensures CoerceScalar(py, f.value).Ok?
    ensures Accepts(eng, TermOrMatch(f.key.value, CoerceScalar(py, f.value).value), d) <==> SomeValue(py, f, d)
  {
    LowerIdempotent(Strip(f.value.s));
  }
}
