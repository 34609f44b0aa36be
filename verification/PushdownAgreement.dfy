/** Where the pushed-down query and the in-memory filter agree, exactly. */
module PushdownAgreement {
  import opened Text
  import opened PyValues
  import opened MetaFilter
  import opened EsQuery
  import opened EsTranslate
  import opened Pushdown

  /** Both paths read the filter value the same way. */
  predicate Plain(py: Python, f: Filter) {
    && f.key.Some? && f.key.value != ""
    && match f.op
       case Contains => f.value.Str? && f.value.s != ""
       case NotContains => f.value.Str? && f.value.s != ""
       case StartWith => CoerceString(py, f.value).Ok?
       case EndWith => CoerceString(py, f.value).Ok?
       case Eq => f.value.Str? && Trimmed(f.value.s) && py.literal(f.value.s).None? && !DateShaped(f.value.s)
       case Ne => f.value.Str? && Trimmed(f.value.s) && py.literal(f.value.s).None? && !DateShaped(f.value.s)
       case In => TrimmedList(f.value)
       case NotIn => TrimmedList(f.value)
       case NotEmpty => true
       case _ => false
  }

  predicate StringList(v: Value) {
    v.List? && v.items != [] && forall m :: m in v.items ==> m.Str?
  }

  predicate TrimmedList(v: Value) {
    StringList(v) && forall m :: m in v.items ==> Trimmed(m.s)
  }

  lemma PlainIsKeywordOnly(py: Python, f: Filter)
    requires Plain(py, f)
    ensures KeywordOnly(py, f)
  {
    if f.op.Eq? || f.op.Ne? {
      TrimmedIsFixed(f.value.s);
    }
  }

  /** The in-memory membership test, case-folded but not trimmed. */
  lemma ListMembership(items: seq<Value>, v: string)
    requires forall m :: m in items ==> m.Str?
    ensures (exists k :: 0 <= k < |items| && Same(LowerStrings(List(items)).items[k], Str(Lower(v)))) <==>
              exists m :: m in items && Lower(m.s) == Lower(v)
  {
    var low := LowerStrings(List(items)).items;
    forall k | 0 <= k < |items|
      ensures items[k] in items
      ensures Same(low[k], Str(Lower(v))) <==> Lower(items[k].s) == Lower(v)
    {
      SameString(Lower(v), low[k]);
    }
    assert forall m :: m in items ==> exists k :: 0 <= k < |items| && items[k] == m;
  }

  /** On a plain filter the bucket test is the push-down's value test, or its negation. */
  lemma BucketAgrees(py: Python, f: Filter, v: string)
    requires Plain(py, f)
    ensures BucketMatches(py, f.op, v, f.value) <==> (ValueTest(py, f, v) != Negated(f.op))
  {
    LowerIdempotent(v);
    LowerIdempotent(StrOf(py, f.value));
    match f.op {
      case Eq => EqualBucket(py, f, v);
      case Ne => EqualBucket(py, f, v);
      case In => MemberBucket(py, f, v);
      case NotIn => MemberBucket(py, f, v);
      case _ =>
    }
  }

  lemma EqualBucket(py: Python, f: Filter, v: string)
    requires Plain(py, f) && (f.op.Eq? || f.op.Ne?)
    ensures BucketMatches(py, f.op, v, f.value) <==> (ValueTest(py, f, v) != Negated(f.op))
  {
    TrimmedIsFixed(f.value.s);
    SameString(Lower(f.value.s), Str(Lower(v)));
  }

  lemma TrimmedMembers(items: seq<Value>, v: string)
    requires forall m :: m in items ==> m.Str? && Trimmed(m.s)
    ensures InMembers(items, v) <==> exists m :: m in items && Lower(m.s) == Lower(v)
  {
    forall m | m in items
      ensures Strip(m.s) == m.s
    {
      TrimmedIsFixed(m.s);
    }
  }

  lemma MemberBucket(py: Python, f: Filter, v: string)
    requires Plain(py, f) && (f.op.In? || f.op.NotIn?)
    ensures BucketMatches(py, f.op, v, f.value) <==> (ValueTest(py, f, v) != Negated(f.op))
  {
    ListBucket(py, f, v);
    TrimmedMembers(f.value.items, v);
  }

  /** The bucket test of a membership filter with a list of strings. */
  lemma ListBucket(py: Python, f: Filter, v: string)
    requires StringList(f.value) && (f.op.In? || f.op.NotIn?)
    ensures BucketMatches(py, f.op, v, f.value)
            <==> ((exists m :: m in f.value.items && Lower(m.s) == Lower(v)) != f.op.NotIn?)
  {
    ListMembership(f.value.items, v);
  }

  /** Some value of the key passes the push-down's value test and another does not. */
  ghost predicate Mixed(py: Python, f: Filter, d: Doc)
    requires f.key.Some?
  {
    && SomeValue(py, f, d)
    && exists v :: v in ValuesOf(d, f.key.value) && !ValueTest(py, f, v)
  }

  /** Exact agreement on a plain filter: positive operators always agree; a negated
      operator agrees unless the document's values fall on both sides of the test. */
  lemma PlainAgreement(py: Python, eng: Analysed, f: Filter, d: Doc)
    requires Plain(py, f)
    ensures KeywordOnly(py, f) && Translate(py, f).Ok?
    ensures (EsAccepts(py, eng, f, d) <==> MemAccepts(py, f, d)) <==> !(Negated(f.op) && Mixed(py, f, d))
    ensures EsAccepts(py, eng, f, d) ==> MemAccepts(py, f, d)
  {
    PlainIsKeywordOnly(py, f);
    EsMeaning(py, eng, f, d);
    forall v: string
      ensures BucketMatches(py, f.op, v, f.value) <==> (ValueTest(py, f, v) != Negated(f.op))
    {
      BucketAgrees(py, f, v);
    }
    var vs := ValuesOf(d, f.key.value);
    if vs != [] {
      assert vs[0] in vs;
    }
  }

  /** With at most one value for the key, every plain filter agrees. */
  lemma SingleValuedAgreement(py: Python, eng: Analysed, f: Filter, d: Doc)
    requires Plain(py, f) && |ValuesOf(d, f.key.value)| <= 1
    ensures Translate(py, f).Ok?
    ensures EsAccepts(py, eng, f, d) <==> MemAccepts(py, f, d)
  {
    PlainAgreement(py, eng, f, d);
  }

  function DocWith(key: string, vs: seq<string>): Doc {
    Doc("doc", "kb", map[key := vs])
  }

  /** The two paths agree on this filter for every document. */
  ghost predicate AlwaysAgrees(py: Python, eng: Analysed, f: Filter)
    requires Translate(py, f).Ok?
  {
    forall d: Doc :: EsAccepts(py, eng, f, d) <==> MemAccepts(py, f, d)
  }

  /** `contains` agrees on every document exactly when the filter value is a string:
      in memory `str.find` raises on anything else. */
  lemma ContainsNeedsString(py: Python, eng: Analysed, f: Filter)
    requires f.op.Contains? && KeywordOnly(py, f)
    ensures Translate(py, f).Ok?
    ensures AlwaysAgrees(py, eng, f) <==> f.value.Str?
  {
    var t := StrOf(py, f.value);
    EsMeaning(py, eng, f, DocWith(f.key.value, [t]));
    if f.value.Str? {
      forall d: Doc
        ensures EsAccepts(py, eng, f, d) <==> MemAccepts(py, f, d)
      {
        PlainAgreement(py, eng, f, d);
      }
    } else {
      var d := DocWith(f.key.value, [t]);
      assert t in ValuesOf(d, f.key.value);
      assert Lower(t)[0..0 + |Lower(t)|] == Lower(t);
      assert OccursAt(Lower(t), Lower(t), 0);
      assert EsAccepts(py, eng, f, d) && !MemAccepts(py, f, d);
    }
  }

  /** `in` with a list of strings agrees on every document exactly when the members
      carry no surrounding whitespace: only the push-down trims them. */
  lemma InNeedsTrimmedMembers(py: Python, eng: Analysed, f: Filter)
    requires f.op.In? && KeywordOnly(py, f) && StringList(f.value)
    ensures Translate(py, f).Ok?
    ensures AlwaysAgrees(py, eng, f) <==> TrimmedList(f.value)
  {
    EsMeaning(py, eng, f, DocWith(f.key.value, []));
    if TrimmedList(f.value) {
      forall d: Doc
        ensures EsAccepts(py, eng, f, d) <==> MemAccepts(py, f, d)
      {
        PlainAgreement(py, eng, f, d);
      }
    } else {
      var m :| m in f.value.items && !Trimmed(m.s);
      var d := DocWith(f.key.value, [m.s]);
      EsMeaning(py, eng, f, d);
      UntrimmedMember(py, f, m);
      assert ValuesOf(d, f.key.value) == [m.s] && m.s in [m.s];
      assert MemAccepts(py, f, d) && !SomeValue(py, f, d);
    }
  }

  /** A value that reads as an untrimmed member is listed in memory only. */
  lemma UntrimmedMember(py: Python, f: Filter, m: Value)
    requires f.op.In? && StringList(f.value) && m in f.value.items && !Trimmed(m.s)
    ensures BucketMatches(py, f.op, m.s, f.value) && !ValueTest(py, f, m.s)
  {
    ListMembership(f.value.items, m.s);
    forall w | w in f.value.items
      ensures Lower(m.s) != Lower(Strip(w.s))
    {
      StripLower(w.s);
      TrimmedIsFixed(Lower(m.s));
      LowerKeepsTrimming(m.s);
    }
  }

  lemma LowerKeepsTrimming(s: string)
    ensures Trimmed(Lower(s)) <==> Trimmed(s)
  {
    if s != [] {
      LowerKeepsWhitespace(s[0]);
      LowerKeepsWhitespace(s[|s| - 1]);
    }
  }

  /** `=` on a string that is no Python literal and no date agrees on every document
      exactly when the string carries no surrounding whitespace. */
  lemma EqualNeedsTrimmedValue(py: Python, eng: Analysed, f: Filter)
    requires f.op.Eq? && KeywordOnly(py, f)
    requires py.literal(f.value.s).None? && !DateShaped(Strip(f.value.s))
    ensures Translate(py, f).Ok?
    ensures AlwaysAgrees(py, eng, f) <==> Trimmed(f.value.s)
  {
    var s := f.value.s;
    TrimmedIsFixed(s);
    var d := DocWith(f.key.value, [s]);
    EsMeaning(py, eng, f, d);
    if Trimmed(s) {
      forall e: Doc
        ensures EsAccepts(py, eng, f, e) <==> MemAccepts(py, f, e)
      {
        PlainAgreement(py, eng, f, e);
      }
    } else {
      assert ValuesOf(d, f.key.value) == [s];
      SameString(Lower(s), Str(Lower(s)));
      assert BucketMatches(py, f.op, s, f.value);
      StripLower(s);
      TrimmedIsFixed(Lower(s));
      LowerKeepsTrimming(s);
      assert !SomeValue(py, f, d);
    }
  }

  /** `=` with a date: in memory the stored value is trimmed first, in the index it is not. */
  lemma EqualDateAgreement(py: Python, eng: Analysed, f: Filter, d: Doc)
    requires f.op.Eq? && KeywordOnly(py, f) && DateShaped(Strip(f.value.s))
    ensures Translate(py, f).Ok?
    ensures EsAccepts(py, eng, f, d) ==> MemAccepts(py, f, d)
    ensures (EsAccepts(py, eng, f, d) <==> MemAccepts(py, f, d)) <==>
              (Strip(f.value.s) in ValuesOf(d, f.key.value)
               || forall v :: v in ValuesOf(d, f.key.value) ==> Strip(v) != Strip(f.value.s))
  {
    var date := Strip(f.value.s);
    EsMeaning(py, eng, f, d);
    TrimmedIsFixed(date);
    forall v: string
      ensures ValueTest(py, f, v) <==> v == date
      ensures BucketMatches(py, f.op, v, f.value) <==> Strip(v) == date
    {
      LowerDate(v, date);
      SameString(date, Str(Strip(v)));
    }
  }

  /** `≠` with a date is not even one-sided: in memory only dates can differ from a
      date. Exactly these documents are pushed down although the filter rejects them. */
  lemma NotEqualDateUnsound(py: Python, eng: Analysed, f: Filter, d: Doc)
    requires f.op.Ne? && KeywordOnly(py, f) && DateShaped(Strip(f.value.s))
    ensures Translate(py, f).Ok?
    ensures EsAccepts(py, eng, f, d) && !MemAccepts(py, f, d) <==>
              && ValuesOf(d, f.key.value) != []
              && Strip(f.value.s) !in ValuesOf(d, f.key.value)
              && forall v :: v in ValuesOf(d, f.key.value) ==> DateShaped(Strip(v)) ==> Strip(v) == Strip(f.value.s)
  {
    var date := Strip(f.value.s);
    EsMeaning(py, eng, f, d);
    TrimmedIsFixed(date);
    forall v: string
      ensures ValueTest(py, f, v) <==> v == date
      ensures BucketMatches(py, f.op, v, f.value) <==> DateShaped(Strip(v)) && Strip(v) != date
    {
      LowerDate(v, date);
      SameString(date, Str(Strip(v)));
    }
  }

  lemma DateIsFixed(d: string)
    requires DateShaped(d)
    ensures Strip(d) == d
  {
    assert Digit(d[0]) && Digit(d[9]);
    TrimmedIsFixed(d);
  }

  /** `≠ 2024-01-02` selects the document `draft` in the index and not in memory. */
  lemma NotEqualDateExample(py: Python, eng: Analysed)
    ensures var f := Filter(Ne, Some("due"), Str("2024-01-02"));
            && Translate(py, f).Ok? && EsAccepts(py, eng, f, DocWith("due", ["draft"]))
            && !MemAccepts(py, f, DocWith("due", ["draft"]))
  {
    var f, d := Filter(Ne, Some("due"), Str("2024-01-02")), DocWith("due", ["draft"]);
    DateIsFixed("2024-01-02");
    TrimmedIsFixed("draft");
    assert ValuesOf(d, "due") == ["draft"] && |"draft"| == 5;
    NotEqualDateUnsound(py, eng, f, d);
  }

  /** `not contains` on the values [a, b]: pushed down it rejects, in memory it accepts. */
  lemma NotContainsExample(py: Python, eng: Analysed)
    ensures var f := Filter(NotContains, Some("tag"), Str("a"));
            && Translate(py, f).Ok?
            && !EsAccepts(py, eng, f, DocWith("tag", ["a", "b"]))
            && MemAccepts(py, f, DocWith("tag", ["a", "b"]))
  {
    var f := Filter(NotContains, Some("tag"), Str("a"));
    var d := DocWith("tag", ["a", "b"]);
    var vs := ValuesOf(d, "tag");
    PlainAgreement(py, eng, f, d);
    assert vs[0] == "a" && vs[1] == "b" && vs[0] in vs && vs[1] in vs;
    assert OccursAt(Lower("a"), Lower("a"), 0);
    assert ValueTest(py, f, "a");
    assert !ValueTest(py, f, "b") by {
      assert Lower("b")[0..1] == ['b'] && Lower("a") == ['a'];
    }
  }

  lemma EmptyMeaning(py: Python, eng: Analysed, f: Filter, d: Doc)
    requires f.op.Empty? && f.key.Some? && f.key.value != ""
    ensures Translate(py, f).Ok?
    ensures EsAccepts(py, eng, f, d) <==> ValuesOf(d, f.key.value) == [] || "" in ValuesOf(d, f.key.value)
  {
    var key := f.key.value;
    var missing, blank := AllOf([], [Exists(Parent(key))]), Term(Keyword(key), Str(""));
    var cs := [missing, blank];
    assert missing in cs && blank in cs && forall c :: c in cs ==> c == missing || c == blank;
    AnyOfMeaning(eng, cs, d);
    PositiveMeaning(eng, AnyOf(cs), d);
    AllOfMeaning(eng, [], [Exists(Parent(key))], d);
    assert Exists(Parent(key)) in [Exists(Parent(key))];
  }

  /** `empty` agrees exactly on the documents that have the key: pushed down it also
      selects those without it, which are in no bucket. */
  lemma EmptyAgreement(py: Python, eng: Analysed, f: Filter, d: Doc)
    requires f.op.Empty? && f.key.Some? && f.key.value != ""
    ensures Translate(py, f).Ok?
    ensures MemAccepts(py, f, d) ==> EsAccepts(py, eng, f, d)
    ensures (EsAccepts(py, eng, f, d) <==> MemAccepts(py, f, d)) <==> ValuesOf(d, f.key.value) != []
  {
    EmptyMeaning(py, eng, f, d);
    forall v: string
      ensures BucketMatches(py, f.op, v, f.value) <==> v == ""
    {
      assert Lower(v) == "" <==> v == "";
    }
  }

  /** A filter value for membership that is read as comma-separated text, not as a list literal. */
  predicate CommaText(py: Python, v: Value) {
    v.Str? && (py.literal(v.s).Some? ==> !py.literal(v.s).value.List? && !py.literal(v.s).value.Tuple?)
  }

  /** `in` with a comma-separated text selects no more than the in-memory substring test, and the two agree exactly
      when a value is listed or no value occurs in the text. */
  lemma InTextAgreement(py: Python, eng: Analysed, f: Filter, d: Doc)
    requires f.op.In? && KeywordOnly(py, f) && CommaText(py, f.value)
    ensures Translate(py, f).Ok?
    ensures EsAccepts(py, eng, f, d) ==> MemAccepts(py, f, d)
    ensures (EsAccepts(py, eng, f, d) <==> MemAccepts(py, f, d)) <==>
              || (exists v :: v in ValuesOf(d, f.key.value) && InMembers(NonBlank(Split(f.value.s, ',')), v))
              || (forall v :: v in ValuesOf(d, f.key.value) ==> !Occurs(Lower(v), Lower(f.value.s)))
  {
    EsMeaning(py, eng, f, d);
    forall v: string
      ensures BucketMatches(py, f.op, v, f.value) <==> Occurs(Lower(v), Lower(f.value.s))
      ensures InMembers(NonBlank(Split(f.value.s, ',')), v) ==> Occurs(Lower(v), Lower(f.value.s))
    {
      SubstringBucket(py, f.value.s, v);
      if InMembers(NonBlank(Split(f.value.s, ',')), v) {
        ListedPartOccurs(f.value.s, v);
      }
    }
  }

  lemma {:induction false} NoBlankMember(parts: seq<string>)
    ensures forall m :: m in NonBlank(parts) ==> m.Str? && Strip(m.s) != ""
  {
    if parts != [] {
      NoBlankMember(parts[1..]);
      StripTwice(parts[0]);
    }
  }

  lemma StripTwice(s: string)
    ensures Strip(Strip(s)) == Strip(s)
  {
    TrimmedIsFixed(Strip(s));
  }

  /** No comma-separated text makes the two agree on all documents: the empty value occurs in every text and is
      listed in none. */
  lemma InTextNeverAlwaysAgrees(py: Python, eng: Analysed, f: Filter)
    requires f.op.In? && KeywordOnly(py, f) && CommaText(py, f.value)
    ensures Translate(py, f).Ok? && !AlwaysAgrees(py, eng, f)
  {
    var d := DocWith(f.key.value, [""]);
    InTextAgreement(py, eng, f, d);
    assert ValuesOf(d, f.key.value) == [""];
    NoBlankMember(Split(f.value.s, ','));
    assert !InMembers(NonBlank(Split(f.value.s, ',')), "");
    assert OccursAt(Lower(""), Lower(f.value.s), 0);
    assert "" in ValuesOf(d, f.key.value);
  }

  lemma SubstringBucket(py: Python, s: string, v: string)
    ensures BucketMatches(py, In, v, Str(s)) <==> Occurs(Lower(v), Lower(s))
  {
  }

  lemma ListedPartOccurs(s: string, v: string)
    requires InMembers(NonBlank(Split(s, ',')), v)
    ensures Occurs(Lower(v), Lower(s))
  {
    var m :| m in NonBlank(Split(s, ',')) && m.Str? && Lower(v) == Lower(Strip(m.s));
    PartOccurs(s, m);
    StripOccurs(m.s);
    OccursTransitive(Strip(m.s), m.s, s);
    LowerOccurs(Strip(m.s), s);
  }

  /** Every kept part of a comma-separated text occurs in it. */
  lemma PartOccurs(s: string, m: Value)
    requires m in NonBlank(Split(s, ','))
    ensures m.Str? && Occurs(m.s, s)
  {
    var p := NonBlankSource(Split(s, ','), m);
    SplitOccurs(s, p);
    StripOccurs(p);
    OccursTransitive(Strip(p), p, s);
  }

  lemma {:induction false} NonBlankSource(parts: seq<string>, m: Value) returns (p: string)
    requires m in NonBlank(parts)
    ensures p in parts && m == Str(Strip(p))
  {
    if m == Str(Strip(parts[0])) {
      p := parts[0];
    } else {
      p := NonBlankSource(parts[1..], m);
    }
  }

  lemma {:induction false} SplitOccurs(s: string, p: string)
    requires p in Split(s, ',')
    ensures Occurs(p, s)
    ensures p == Split(s, ',')[0] ==> p <= s
  {
    var parts := Split(s, ',');
    if s == [] {
      assert OccursAt(p, s, 0);
    } else {
      var rest := Split(s[1..], ',');
      var i :| 0 <= i < |parts| && parts[i] == p;
      SplitOccurs(s[1..], rest[0]);
      if i == 0 || p == parts[0] {
        assert p <= s;
        assert OccursAt(p, s, 0);
      } else {
        assert p in rest;
        SplitOccurs(s[1..], p);
        var k :| 0 <= k <= |s[1..]| - |p| && OccursAt(p, s[1..], k);
        assert s[k + 1..k + 1 + |p|] == s[1..][k..k + |p|];
        assert OccursAt(p, s, k + 1);
      }
    }
  }

  // ---- Whole queries ----

  /** The filters with an exact condition: plain ones, `empty`, `=` with a date and `in` with a comma-separated text. */
  predicate Covered(py: Python, f: Filter) {
    || Plain(py, f)
    || (f.op.Empty? && f.key.Some? && f.key.value != "")
    || (f.op.Eq? && KeywordOnly(py, f) && DateShaped(Strip(f.value.s)))
    || (f.op.In? && KeywordOnly(py, f) && CommaText(py, f.value))
  }

  /** The condition on one document under which both verdicts agree. */
  ghost predicate Agreeing(py: Python, f: Filter, d: Doc)
    requires Covered(py, f)
  {
    var vs := ValuesOf(d, f.key.value);
    if Plain(py, f) then !(Negated(f.op) && Mixed(py, f, d))
    else if f.op.Empty? then vs != []
    else if f.op.Eq? then Strip(f.value.s) in vs || forall v :: v in vs ==> Strip(v) != Strip(f.value.s)
    else
      || (exists v :: v in vs && InMembers(NonBlank(Split(f.value.s, ',')), v))
      || (forall v :: v in vs ==> !Occurs(Lower(v), Lower(f.value.s)))
  }

  /** The condition is exact. */
  lemma AgreeingIff(py: Python, eng: Analysed, f: Filter, d: Doc)
    requires Covered(py, f)
    ensures Translate(py, f).Ok?
    ensures Agreeing(py, f, d) <==> (EsAccepts(py, eng, f, d) <==> MemAccepts(py, f, d))
  {
    if Plain(py, f) {
      PlainAgreement(py, eng, f, d);
    } else if f.op.Empty? {
      EmptyAgreement(py, eng, f, d);
    } else if f.op.Eq? {
      EqualDateAgreement(py, eng, f, d);
    } else {
      InTextAgreement(py, eng, f, d);
    }
  }

  /** The document with this id is found by the pushed-down query. */
  ghost predicate Found(eng: Analysed, docs: seq<Doc>, query: Clause, id: string) {
    exists d :: d in docs && d.id == id && Accepts(eng, query, d)
  }

  /** Push-down preserves meaning: for every corpus, every non-empty filter list and both
      logics, the query finds exactly the documents `meta_filter` selects on the buckets. */
  lemma PushdownPreservesMeaning(py: Python, eng: Analysed, docs: seq<Doc>, kbIds: seq<string>, metas: Metas,
                                 filters: seq<Filter>, p: Plan, id: string)
    requires UniqueIds(docs) && Flattens(docs, kbIds, metas)
    requires p.logic in {"and", "or"} && PlanOf(py, filters, p)
    requires filters != []
    requires forall f :: f in filters ==> Covered(py, f)
    requires forall f, d :: f in filters && d in docs && d.kb in kbIds ==> Agreeing(py, f, d)
    ensures Found(eng, docs, ToQuery(p, kbIds), id) <==> Selected(py, metas, filters, p.logic, id)
  {
    if d :| d in docs && d.kb in kbIds && d.id == id {
      forall f | f in filters
        ensures Hit(py, metas, f, id) <==> EsAccepts(py, eng, f, d)
      {
        HitIsPerDocument(py, docs, kbIds, metas, f, id);
        AgreeingIff(py, eng, f, d);
      }
      FoldsAgree(py, eng, filters, p, d);
      QueryOfPlan(py, eng, filters, p, kbIds, d);
    } else {
      forall f | f in filters
        ensures !Hit(py, metas, f, id)
      {
        HitIsPerDocument(py, docs, kbIds, metas, f, id);
      }
      assert filters[0] in filters;
      forall d | d in docs && d.id == id
        ensures !Accepts(eng, ToQuery(p, kbIds), d)
      {
        QueryOfPlan(py, eng, filters, p, kbIds, d);
      }
    }
  }

  lemma QueryOfPlan(py: Python, eng: Analysed, filters: seq<Filter>, p: Plan, kbIds: seq<string>, d: Doc)
    requires PlanOf(py, filters, p) && filters != []
    ensures Accepts(eng, ToQuery(p, kbIds), d) <==>
              d.kb in kbIds
              && (if p.logic == "or" then exists t :: t in p.translated && Holds(eng, t, d)
                  else forall t :: t in p.translated ==> Holds(eng, t, d))
  {
    forall t | t in p.translated
      ensures t.must != []
    {
      var i :| 0 <= i < |p.translated| && p.translated[i] == t;
      TranslationHasMust(py, filters[i]);
    }
    QueryMeaning(eng, p, kbIds, d);
  }

  lemma FoldsAgree(py: Python, eng: Analysed, filters: seq<Filter>, p: Plan, d: Doc)
    requires PlanOf(py, filters, p)
    ensures forall f :: f in filters ==> Translate(py, f).Ok?
    ensures (forall f :: f in filters ==> EsAccepts(py, eng, f, d))
            <==> (forall t :: t in p.translated ==> Holds(eng, t, d))
    ensures (exists f :: f in filters && EsAccepts(py, eng, f, d))
            <==> (exists t :: t in p.translated && Holds(eng, t, d))
  {
    assert forall f :: f in filters ==>
             exists i :: 0 <= i < |filters| && filters[i] == f && p.translated[i] in p.translated;
    assert forall t :: t in p.translated ==>
             exists i :: 0 <= i < |filters| && p.translated[i] == t && filters[i] in filters;
  }

  /** With no filter at all the two sides agree exactly when the knowledge bases are empty. */
  lemma EmptyFilterListAgreement(
    py: Python, eng: Analysed, docs: seq<Doc>, kbIds: seq<string>, metas: Metas, logic: string)
    ensures (forall id :: Found(eng, docs, ToQuery(Plan(logic, []), kbIds), id) <==> Selected(py, metas, [], logic, id))
            <==> forall d :: d in docs ==> d.kb !in kbIds
  {
    forall d: Doc
      ensures Accepts(eng, ToQuery(Plan(logic, []), kbIds), d) <==> d.kb in kbIds
    {
      QueryMeaning(eng, Plan(logic, []), kbIds, d);
    }
    if d :| d in docs && d.kb in kbIds {
      assert Found(eng, docs, ToQuery(Plan(logic, []), kbIds), d.id);
    }
  }
}
