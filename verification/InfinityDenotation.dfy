/** `build_infinity_filter`: its text denotes the and/or fold of the filters' meanings,
    and its LIKE patterns accept exactly the texts the user asked for. */
module InfinityDenotation {
  import opened PyValues
  import opened Text
  import opened SqlText
  import opened SqlTree
  import opened InfinityFilter
  import opened InfinityMeaning
  import Globs
  import Es = EsTranslate

  // ---- Spelling of fragments ----

  lemma PlainTexts(py: Python, key: string, cs: seq<Value>)
    requires ValidKey(key)
    ensures ConjTexts(PlainConjs(Tests(py, key, cs))) == MemberTexts(py, "", key, cs)
  {
    forall i | 0 <= i < |cs|
      ensures ConjTexts(PlainConjs(Tests(py, key, cs)))[i] == MemberTexts(py, "", key, cs)[i]
    {
      ContainsSpelled(py, key, cs[i]);
      assert "" + ContainsText(key, OperandText(py, cs[i])) == ContainsText(key, OperandText(py, cs[i]));
    }
  }

  lemma NegatedTexts(py: Python, key: string, cs: seq<Value>)
    requires ValidKey(key)
    ensures FactorTexts(NegatedFactors(Tests(py, key, cs))) == MemberTexts(py, "NOT ", key, cs)
  {
    forall i | 0 <= i < |cs|
      ensures FactorTexts(NegatedFactors(Tests(py, key, cs)))[i] == MemberTexts(py, "NOT ", key, cs)[i]
    {
      ContainsSpelled(py, key, cs[i]);
      NegatedSpelled(ContainsTest(py, key, cs[i]));
    }
  }

  lemma AnyGroupText(py: Python, key: string, cs: seq<Value>)
    requires ValidKey(key)
    ensures ConjTexts(AnyGroup(Tests(py, key, cs))) == GroupText(MemberTexts(py, "", key, cs), " OR ")
  {
    if cs != [] {
      var conjs := PlainConjs(Tests(py, key, cs));
      PlainTexts(py, key, cs);
      DisjOfText(conjs);
      ParenText(DisjOf(conjs));
    }
  }

  lemma NoneGroupText(py: Python, key: string, cs: seq<Value>)
    requires ValidKey(key)
    ensures FactorTexts(NoneGroup(Tests(py, key, cs))) == GroupText(MemberTexts(py, "NOT ", key, cs), " AND ")
  {
    if cs != [] {
      var fs := NegatedFactors(Tests(py, key, cs));
      NegatedTexts(py, key, cs);
      ConjOfText(fs);
      ParenText(OneConj(ConjOf(fs)));
    }
  }

  lemma InSpelled(py: Python, key: string, cs: seq<Value>)
    requires ValidKey(key) && cs != [] && InGroups(py, key, cs) != []
    ensures FactorText(Paren(DisjOf(InGroups(py, key, cs)))) == InText(py, key, cs)
  {
    var a, b := AnyGroup(Tests(py, key, Strings(cs))), AnyGroup(Tests(py, key, Numbers(cs)));
    AnyGroupText(py, key, Strings(cs));
    AnyGroupText(py, key, Numbers(cs));
    assert ConjTexts(a + b) == ConjTexts(a) + ConjTexts(b);
    DisjOfText(a + b);
    ParenText(DisjOf(a + b));
  }

  lemma NotInSpelled(py: Python, key: string, cs: seq<Value>)
    requires ValidKey(key) && cs != [] && NotInGroups(py, key, cs) != []
    ensures ConjText(ConjOf(NotInGroups(py, key, cs))) == NotInText(py, key, cs)
  {
    var a, b := NoneGroup(Tests(py, key, Strings(cs))), NoneGroup(Tests(py, key, Numbers(cs)));
    NoneGroupText(py, key, Strings(cs));
    NoneGroupText(py, key, Numbers(cs));
    assert FactorTexts(a + b) == FactorTexts(a) + FactorTexts(b);
    ConjOfText(a + b);
  }

  lemma RangeSpelled(py: Python, op: Op, key: string, c: Value)
    requires ValidKey(key) && SpellsNumbers(py) && (c.Str? || Numeric(c))
    ensures FactorText(Plain(RangeTest(py, op, key, c))) == RangeText(py, op, key, c)
  {
    var extract := if c.Str? then "JSON_EXTRACT_STRING" else "JSON_EXTRACT_DOUBLE";
    var rhs := if c.Str? then Lit(c.s) else Word(py.show(c));
    CompareSpelled(extract, key, SqlOperator(op), rhs);
    if c.Str? {
      Spaced(ExtractText(extract, key), SqlOperator(op), "'" + EscapeSql(c.s) + "'");
      assert " " + ("'" + EscapeSql(c.s) + "'") == " '" + EscapeSql(c.s) + "'";
      Quoted(ExtractText(extract, key), SqlOperator(op), EscapeSql(c.s));
    } else {
      Spaced(ExtractText(extract, key), SqlOperator(op), py.show(c));
    }
  }

  lemma Spaced(a: string, op: string, b: string)
    ensures a + (" " + (op + (" " + b))) == a + " " + op + " " + b
  {
  }

  lemma Quoted(a: string, op: string, b: string)
    ensures a + " " + op + " " + ("'" + b + "'") == a + " " + op + " '" + b + "'"
  {
    assert " " + ("'" + b + "'") == " '" + (b + "'");
  }

  lemma LikeSpelled(key: string, pattern: string)
    requires ValidKey(key)
    ensures FactorText(Plain(LikeTest(key, pattern)))
            == ExtractText("JSON_EXTRACT_STRING", key) + (" LIKE '" + (EscapeSql(pattern) + "'"))
  {
    CompareSpelled("JSON_EXTRACT_STRING", key, "LIKE", Lit(pattern));
    LikeRegroup(EscapeSql(pattern));
  }

  lemma LikeRegroup(e: string)
    ensures " " + ("LIKE" + (" " + ("'" + e + "'"))) == " LIKE '" + (e + "'")
  {
    assert " " + ("LIKE" + (" " + "'")) == " LIKE '";
  }

  lemma PercentEscapes(s: string)
    ensures EscapeSql(s + "%") == EscapeSql(s) + "%"
    ensures EscapeSql("%" + s) == "%" + EscapeSql(s)
  {
    ReplaceCharConcat(s, "%", '\'', "''");
    ReplaceCharConcat("%", s, '\'', "''");
    NothingToEscape("%");
  }

  lemma StartSpelled(key: string, text: string)
    requires ValidKey(key)
    ensures FactorText(Plain(LikeTest(key, EscapeLike(text) + "%"))) ==
              ExtractText("JSON_EXTRACT_STRING", key) + " LIKE '" + EscapeSql(EscapeLike(text)) + "%'"
  {
    LikeSpelled(key, EscapeLike(text) + "%");
    PercentEscapes(EscapeLike(text));
    Trailing(ExtractText("JSON_EXTRACT_STRING", key), EscapeSql(EscapeLike(text)));
  }

  lemma Trailing(a: string, e: string)
    ensures a + (" LIKE '" + ((e + "%") + "'")) == a + " LIKE '" + e + "%'"
  {
    assert "%" + "'" == "%'";
  }

  lemma EndSpelled(key: string, text: string)
    requires ValidKey(key)
    ensures FactorText(Plain(LikeTest(key, "%" + EscapeLike(text)))) ==
              ExtractText("JSON_EXTRACT_STRING", key) + " LIKE '%" + EscapeSql(EscapeLike(text)) + "'"
  {
    LikeSpelled(key, "%" + EscapeLike(text));
    PercentEscapes(EscapeLike(text));
    Leading(ExtractText("JSON_EXTRACT_STRING", key), EscapeSql(EscapeLike(text)));
  }

  lemma Leading(a: string, e: string)
    ensures a + (" LIKE '" + (("%" + e) + "'")) == a + " LIKE '%" + e + "'"
  {
    assert " LIKE '" + "%" == " LIKE '%";
  }

  lemma EmptySpelled(key: string, op: string)
    requires ValidKey(key) && (op == "=" || op == "!=")
    ensures FactorText(Plain(Compare("JSON_EXTRACT_STRING", Path(key), op, Lit("\"\"")))) ==
              ExtractText("JSON_EXTRACT_STRING", key) + (" " + op + " '\"\"'")
  {
    CompareSpelled("JSON_EXTRACT_STRING", key, op, Lit("\"\""));
    NothingToEscape("\"\"");
    assert " " + (op + (" " + ("'" + "\"\"" + "'"))) == " " + op + " '\"\"'";
  }

  lemma EmptyTextSpelled(py: Python, f: Filter)
    requires FragmentText(py, f).Ok? && (f.op.Empty? || f.op.NotEmpty?)
    ensures ConjText(FragmentTree(py, f)) == FragmentText(py, f).value
  {
    if f.op.Empty? {
      EmptySpelled(f.key.value, "=");
      assert " " + "=" + " '\"\"'" == " = '\"\"'";
    } else {
      EmptySpelled(f.key.value, "!=");
      assert " " + "!=" + " '\"\"'" == " != '\"\"'";
    }
  }

  lemma ContainmentSpelled(py: Python, f: Filter)
    requires FragmentText(py, f).Ok? && (f.op.Eq? || f.op.Ne? || f.op.Contains? || f.op.NotContains?)
    ensures ConjText(FragmentTree(py, f)) == FragmentText(py, f).value
  {
    var key := f.key.value;
    var v := if f.op.NotContains? then Str(Es.CoerceString(py, f.value).value) else NumberOrText(py, f.value);
    ContainsSpelled(py, key, v);
    NegatedSpelled(ContainsTest(py, key, v));
  }

  lemma MembershipSpelled(py: Python, f: Filter)
    requires FragmentText(py, f).Ok? && (f.op.In? || f.op.NotIn?)
    ensures ConjText(FragmentTree(py, f)) == FragmentText(py, f).value
  {
    var key, cs := f.key.value, CoerceMembers(py, f.value).value;
    MembersNonEmpty(py, f.value);
    GroupsNonEmpty(py, key, cs);
    if f.op.In? {
      InSpelled(py, key, cs);
    } else {
      NotInSpelled(py, key, cs);
    }
  }

  lemma AffixSpelled(py: Python, f: Filter)
    requires FragmentText(py, f).Ok? && (f.op.StartWith? || f.op.EndWith?)
    ensures ConjText(FragmentTree(py, f)) == FragmentText(py, f).value
  {
    var text := Es.CoerceString(py, f.value).value;
    if f.op.StartWith? {
      StartSpelled(f.key.value, text);
    } else {
      EndSpelled(f.key.value, text);
    }
  }

  /** The text of every fragment is the print of its tree. */
  lemma FragmentSpelled(py: Python, f: Filter)
    requires FragmentText(py, f).Ok? && SpellsNumbers(py)
    ensures ConjText(FragmentTree(py, f)) == FragmentText(py, f).value
  {
    if f.op.Empty? || f.op.NotEmpty? {
      EmptyTextSpelled(py, f);
    } else if f.op.Eq? || f.op.Ne? || f.op.Contains? || f.op.NotContains? {
      ContainmentSpelled(py, f);
    } else if f.op.In? || f.op.NotIn? {
      MembershipSpelled(py, f);
    } else if f.op.StartWith? || f.op.EndWith? {
      AffixSpelled(py, f);
    } else {
      RangeSpelled(py, f.op, f.key.value, NumberOrText(py, f.value));
    }
  }

  // ---- Meaning of fragments ----

  lemma MemberTestIsGood(py: Python, key: string, v: Value)
    requires SpellsNumbers(py) && (v.Str? || Numeric(v))
    ensures GoodTest(ContainsTest(py, key, v))
  {
  }

  lemma PlainMeaning(row: Test -> bool, ts: seq<Test>)
    requires ts != [] && forall t :: t in ts ==> GoodTest(t)
    ensures GoodDisj(DisjOf(PlainConjs(ts)))
    ensures Eval(row, DisjExpr(DisjOf(PlainConjs(ts)))) <==> exists t :: t in ts && row(t)
  {
    var conjs := PlainConjs(ts);
    forall i | 0 <= i < |ts|
      ensures conjs[i] in conjs && ts[i] in ts && GoodConj(conjs[i])
      ensures ConjExpr(conjs[i]) == Is(ts[i])
    {
    }
    assert forall c :: c in conjs ==> exists i :: 0 <= i < |ts| && conjs[i] == c;
    assert forall t :: t in ts ==> exists i :: 0 <= i < |ts| && ts[i] == t;
    DisjOfMeaning(row, conjs);
  }

  lemma NegatedMeaning(row: Test -> bool, ts: seq<Test>)
    requires ts != [] && forall t :: t in ts ==> GoodTest(t)
    ensures GoodConj(ConjOf(NegatedFactors(ts)))
    ensures Eval(row, ConjExpr(ConjOf(NegatedFactors(ts)))) <==> forall t :: t in ts ==> !row(t)
  {
    var fs := NegatedFactors(ts);
    forall i | 0 <= i < |ts|
      ensures fs[i] in fs && ts[i] in ts
      ensures FactorExpr(fs[i]) == Not(Is(ts[i]))
    {
    }
    assert forall f :: f in fs ==> exists i :: 0 <= i < |ts| && fs[i] == f;
    assert forall t :: t in ts ==> exists i :: 0 <= i < |ts| && ts[i] == t;
    ConjOfMeaning(row, fs);
  }

  lemma TestsMeaning(py: Python, row: Test -> bool, key: string, cs: seq<Value>)
    requires SpellsNumbers(py) && forall c :: c in cs ==> c.Str? || Numeric(c)
    ensures forall t :: t in Tests(py, key, cs) ==> GoodTest(t)
    ensures (exists t :: t in Tests(py, key, cs) && row(t)) <==> AnyMember(py, row, key, cs)
  {
    var ts := Tests(py, key, cs);
    forall t | t in ts
      ensures GoodTest(t)
    {
      var i :| 0 <= i < |ts| && ts[i] == t;
      assert cs[i] in cs;
      MemberTestIsGood(py, key, cs[i]);
    }
    if t :| t in ts && row(t) {
      var i :| 0 <= i < |ts| && ts[i] == t;
      assert cs[i] in cs;
    }
    if AnyMember(py, row, key, cs) {
      var c :| c in cs && row(ContainsTest(py, key, c));
      var i :| 0 <= i < |cs| && cs[i] == c;
      assert ts[i] in ts;
    }
  }

  lemma AnyGroupMeaning(py: Python, row: Test -> bool, key: string, cs: seq<Value>)
    requires SpellsNumbers(py) && forall c :: c in cs ==> c.Str? || Numeric(c)
    ensures (exists g :: g in AnyGroup(Tests(py, key, cs)) && Eval(row, ConjExpr(g))) <==> AnyMember(py, row, key, cs)
    ensures forall g :: g in AnyGroup(Tests(py, key, cs)) ==> GoodConj(g)
  {
    TestsMeaning(py, row, key, cs);
    if cs != [] {
      var ts := Tests(py, key, cs);
      PlainMeaning(row, ts);
      var g := OneFactor(Paren(DisjOf(PlainConjs(ts))));
      assert AnyGroup(ts) == [g] && g in [g];
      assert ConjExpr(g) == DisjExpr(DisjOf(PlainConjs(ts)));
    }
  }

  lemma NoneGroupMeaning(py: Python, row: Test -> bool, key: string, cs: seq<Value>)
    requires SpellsNumbers(py) && forall c :: c in cs ==> c.Str? || Numeric(c)
    ensures (forall g :: g in NoneGroup(Tests(py, key, cs)) ==> Eval(row, FactorExpr(g)))
            <==> !AnyMember(py, row, key, cs)
    ensures forall g :: g in NoneGroup(Tests(py, key, cs)) ==> GoodFactor(g)
  {
    TestsMeaning(py, row, key, cs);
    if cs != [] {
      var ts := Tests(py, key, cs);
      NegatedMeaning(row, ts);
      var g := Paren(OneConj(ConjOf(NegatedFactors(ts))));
      assert NoneGroup(ts) == [g] && g in [g];
      assert FactorExpr(g) == ConjExpr(ConjOf(NegatedFactors(ts)));
    }
  }

  lemma SplitMembership(py: Python, row: Test -> bool, key: string, cs: seq<Value>)
    ensures AnyMember(py, row, key, cs)
            <==> AnyMember(py, row, key, Strings(cs)) || AnyMember(py, row, key, Numbers(cs))
  {
    SplitIsExhaustive(cs);
  }

  lemma InMeaning(py: Python, row: Test -> bool, key: string, cs: seq<Value>)
    requires SpellsNumbers(py) && cs != [] && forall c :: c in cs ==> c.Str? || Numeric(c)
    ensures InGroups(py, key, cs) != [] && GoodDisj(DisjOf(InGroups(py, key, cs)))
    ensures Eval(row, DisjExpr(DisjOf(InGroups(py, key, cs)))) <==> AnyMember(py, row, key, cs)
  {
    SplitIsExhaustive(cs);
    GroupsNonEmpty(py, key, cs);
    AnyGroupMeaning(py, row, key, Strings(cs));
    AnyGroupMeaning(py, row, key, Numbers(cs));
    SplitMembership(py, row, key, cs);
    var a, b := AnyGroup(Tests(py, key, Strings(cs))), AnyGroup(Tests(py, key, Numbers(cs)));
    assert forall g :: g in a + b <==> g in a || g in b;
    DisjOfMeaning(row, a + b);
  }

  lemma NotInMeaning(py: Python, row: Test -> bool, key: string, cs: seq<Value>)
    requires SpellsNumbers(py) && cs != [] && forall c :: c in cs ==> c.Str? || Numeric(c)
    ensures NotInGroups(py, key, cs) != [] && GoodConj(ConjOf(NotInGroups(py, key, cs)))
    ensures Eval(row, ConjExpr(ConjOf(NotInGroups(py, key, cs)))) <==> !AnyMember(py, row, key, cs)
  {
    SplitIsExhaustive(cs);
    GroupsNonEmpty(py, key, cs);
    NoneGroupMeaning(py, row, key, Strings(cs));
    NoneGroupMeaning(py, row, key, Numbers(cs));
    SplitMembership(py, row, key, cs);
    var a, b := NoneGroup(Tests(py, key, Strings(cs))), NoneGroup(Tests(py, key, Numbers(cs)));
    assert forall g :: g in a + b <==> g in a || g in b;
    ConjOfMeaning(row, a + b);
  }

  lemma MembershipMeaning(py: Python, row: Test -> bool, f: Filter)
    requires FragmentText(py, f).Ok? && SpellsNumbers(py) && (f.op.In? || f.op.NotIn?)
    ensures GoodConj(FragmentTree(py, f))
    ensures Eval(row, ConjExpr(FragmentTree(py, f))) <==> Meaning(py, row, f)
  {
    var key, cs := f.key.value, CoerceMembers(py, f.value).value;
    MembersNonEmpty(py, f.value);
    if f.op.In? {
      InMeaning(py, row, key, cs);
    } else {
      NotInMeaning(py, row, key, cs);
    }
  }

  /** Every other fragment is one test, negated or not. */
  lemma SingleTestMeaning(py: Python, row: Test -> bool, f: Filter)
    requires FragmentText(py, f).Ok? && !f.op.In? && !f.op.NotIn?
    ensures var tree := FragmentTree(py, f);
            tree.OneFactor? && !tree.f.Paren? && (Meaning(py, row, f) <==> (row(tree.f.test) == tree.f.Plain?))
  {
  }

  lemma SingleTestIsGood(py: Python, f: Filter)
    requires FragmentText(py, f).Ok? && SpellsNumbers(py) && !f.op.In? && !f.op.NotIn?
    ensures var tree := FragmentTree(py, f); tree.OneFactor? && !tree.f.Paren? && GoodTest(tree.f.test)
  {
  }

  lemma FragmentMeaning(py: Python, row: Test -> bool, f: Filter)
    requires FragmentText(py, f).Ok? && SpellsNumbers(py)
    ensures GoodConj(FragmentTree(py, f))
    ensures Eval(row, ConjExpr(FragmentTree(py, f))) <==> Meaning(py, row, f)
  {
    if f.op.In? || f.op.NotIn? {
      MembershipMeaning(py, row, f);
    } else {
      SingleTestMeaning(py, row, f);
      SingleTestIsGood(py, f);
      OneTestMeaning(row, FragmentTree(py, f));
    }
  }

  lemma OneTestMeaning(row: Test -> bool, c: Conj)
    requires c.OneFactor? && !c.f.Paren? && GoodTest(c.f.test)
    ensures GoodConj(c) && (Eval(row, ConjExpr(c)) <==> (row(c.f.test) == c.f.Plain?))
  {
  }

  // ---- The whole text ----

  function Trees(py: Python, filters: seq<Filter>): seq<Conj>
    requires forall f :: f in filters ==> FragmentText(py, f).Ok?
  {
    seq(|filters|, i requires 0 <= i < |filters| => FragmentTree(py, filters[i]))
  }

  function BuiltTree(py: Python, filters: seq<Filter>, logic: string): Disj
    requires filters != [] && forall f :: f in filters ==> FragmentText(py, f).Ok?
  {
    if logic == "and" then OneConj(AppendAll(Trees(py, filters))) else DisjOf(Trees(py, filters))
  }

  lemma BuiltText(py: Python, filters: seq<Filter>, fragments: seq<string>, logic: string)
    requires SpellsNumbers(py) && filters != [] && FragmentsOf(py, filters, fragments)
    requires forall f :: f in filters ==> FragmentText(py, f).Ok?
    ensures FactorText(Paren(BuiltTree(py, filters, logic))) == "(" + Join(fragments, Joiner(logic)) + ")"
  {
    var cs := Trees(py, filters);
    forall i | 0 <= i < |filters|
      ensures ConjTexts(cs)[i] == fragments[i]
    {
      FragmentSpelled(py, filters[i]);
    }
    assert ConjTexts(cs) == fragments;
    if logic == "and" {
      AppendAllText(cs);
    } else {
      DisjOfText(cs);
    }
    ParenText(BuiltTree(py, filters, logic));
  }

  lemma TreesPointwise(py: Python, row: Test -> bool, filters: seq<Filter>)
    requires SpellsNumbers(py) && forall f :: f in filters ==> FragmentText(py, f).Ok?
    ensures forall i :: 0 <= i < |filters| ==>
              && GoodConj(Trees(py, filters)[i])
              && (Eval(row, ConjExpr(Trees(py, filters)[i])) <==> Meaning(py, row, filters[i]))
  {
    forall i | 0 <= i < |filters|
      ensures GoodConj(Trees(py, filters)[i])
      ensures Eval(row, ConjExpr(Trees(py, filters)[i])) <==> Meaning(py, row, filters[i])
    {
      FragmentMeaning(py, row, filters[i]);
    }
  }

  /** Two lists that agree entry by entry agree on all and on some of their entries. */
  lemma SameFolds<A(!new), B(!new)>(xs: seq<A>, ys: seq<B>, p: A -> bool, q: B -> bool)
    requires |xs| == |ys| && forall i :: 0 <= i < |xs| ==> p(xs[i]) == q(ys[i])
    ensures (forall x :: x in xs ==> p(x)) <==> (forall y :: y in ys ==> q(y))
    ensures (exists x :: x in xs && p(x)) <==> (exists y :: y in ys && q(y))
  {
    FoldFollows(xs, ys, p, q);
    FoldFollows(ys, xs, q, p);
  }

  lemma FoldFollows<A(!new), B(!new)>(xs: seq<A>, ys: seq<B>, p: A -> bool, q: B -> bool)
    requires |xs| == |ys| && forall i :: 0 <= i < |xs| ==> p(xs[i]) == q(ys[i])
    ensures (forall x :: x in xs ==> p(x)) ==> (forall y :: y in ys ==> q(y))
    ensures (exists x :: x in xs && p(x)) ==> (exists y :: y in ys && q(y))
  {
    forall y | y in ys && !q(y)
      ensures exists x :: x in xs && !p(x)
    {
      var i :| 0 <= i < |ys| && ys[i] == y;
      assert xs[i] in xs && !p(xs[i]);
    }
    if x :| x in xs && p(x) {
      var i :| 0 <= i < |xs| && xs[i] == x;
      assert ys[i] in ys && q(ys[i]);
    }
  }

  ghost predicate Means(py: Python, row: Test -> bool, f: Filter) {
    FragmentText(py, f).Ok? && Meaning(py, row, f)
  }

  lemma TreesMeaning(py: Python, row: Test -> bool, filters: seq<Filter>)
    requires SpellsNumbers(py) && forall f :: f in filters ==> FragmentText(py, f).Ok?
    ensures forall c :: c in Trees(py, filters) ==> GoodConj(c)
    ensures (forall c :: c in Trees(py, filters) ==> Eval(row, ConjExpr(c)))
            <==> (forall f :: f in filters ==> Meaning(py, row, f))
    ensures (exists c :: c in Trees(py, filters) && Eval(row, ConjExpr(c)))
            <==> (exists f :: f in filters && Meaning(py, row, f))
  {
    var cs := Trees(py, filters);
    TreesPointwise(py, row, filters);
    assert forall c :: c in cs ==> exists i :: 0 <= i < |cs| && cs[i] == c;
    SameFolds(cs, filters, c => Eval(row, ConjExpr(c)), f => Means(py, row, f));
  }

  lemma BuiltMeaning(py: Python, row: Test -> bool, filters: seq<Filter>, logic: string)
    requires SpellsNumbers(py) && filters != []
    requires forall f :: f in filters ==> FragmentText(py, f).Ok?
    ensures GoodDisj(BuiltTree(py, filters, logic))
    ensures Eval(row, DisjExpr(BuiltTree(py, filters, logic))) <==>
              if logic == "and" then forall f :: f in filters ==> Meaning(py, row, f)
              else exists f :: f in filters && Meaning(py, row, f)
  {
    TreesMeaning(py, row, filters);
    if logic == "and" {
      AppendAllMeaning(row, Trees(py, filters));
    } else {
      DisjOfMeaning(row, Trees(py, filters));
    }
  }

  /** The built text parses, under NOT over AND over OR, to the fold of the filters' meanings. */
  lemma FilterDenotesFold(py: Python, filters: seq<Filter>, fragments: seq<string>, logic: string, row: Test -> bool)
    requires SpellsNumbers(py) && filters != [] && FragmentsOf(py, filters, fragments)
    ensures forall f :: f in filters ==> FragmentText(py, f).Ok?
    ensures var d := Denotation("(" + Join(fragments, Joiner(logic)) + ")");
            && d.Some?
            && (Eval(row, d.value) <==>
                  if logic == "and" then forall f :: f in filters ==> Meaning(py, row, f)
                  else exists f :: f in filters && Meaning(py, row, f))
  {
    forall f | f in filters
      ensures FragmentText(py, f).Ok?
    {
      var i :| 0 <= i < |filters| && filters[i] == f;
    }
    var tree := BuiltTree(py, filters, logic);
    BuiltText(py, filters, fragments, logic);
    BuiltMeaning(py, row, filters, logic);
    ParenDenotes(tree);
  }

  lemma ParenDenotes(d: Disj)
    requires GoodDisj(d)
    ensures Denotation(FactorText(Paren(d))) == Some(DisjExpr(d))
  {
    var f := Paren(d);
    var c := OneFactor(f);
    assert GoodFactor(f) && FactorExpr(f) == DisjExpr(d);
    assert ConjExpr(c) == FactorExpr(f);
    assert ConjPieces(c) == FactorPieces(f);
    ConjDenotes(c);
  }

  lemma ConjDenotes(c: Conj)
    requires GoodConj(c)
    ensures Denotation(ConjText(c)) == Some(ConjExpr(c))
  {
    PrintedDenotes(OneConj(c));
  }

  lemma OnesLex()
    ensures Lex("1=1") == Some([Word("1"), Sym('='), Word("1")])
  {
    var ps := [WordP("1"), SymP('='), WordP("1")];
    SpellThree(ps[0], ps[1], ps[2]);
    ThreeTokens(ps[0], ps[1], ps[2]);
    SpellingLexes(ps);
    assert Spelling(ps) == "1=1";
    assert Tokens(ps) == [Word("1"), Sym('='), Word("1")];
  }

  lemma OnesParse()
    ensures ParseOr([Word("1"), Sym('='), Word("1")]) == Parsed(True, [])
  {
    var ts := [Word("1"), Sym('='), Word("1")];
    assert ts[..3] == ts && ts[3..] == [];
    assert ParseTest(ts) == Parsed(True, []);
    assert ParseNot(ts) == Parsed(True, []);
  }

  /** No filters: the text `1=1` is true of every row. */
  lemma NoFiltersDenoteTrue(row: Test -> bool)
    ensures Denotation("1=1").Some? && Eval(row, Denotation("1=1").value)
  {
    OnesLex();
    OnesParse();
  }

  /** For every non-empty member list the `not in` fragment means the negation of the `in` fragment. */
  lemma NotInIsNegatedIn(py: Python, row: Test -> bool, key: string, value: Value)
    requires SpellsNumbers(py) && ValidKey(key) && CoerceMembers(py, value).Ok?
    ensures var yes, no := Denotation(InText(py, key, CoerceMembers(py, value).value)),
                           Denotation(NotInText(py, key, CoerceMembers(py, value).value));
            yes.Some? && no.Some? && (Eval(row, no.value) <==> !Eval(row, yes.value))
  {
    var cs := CoerceMembers(py, value).value;
    MembersNonEmpty(py, value);
    InMeaning(py, row, key, cs);
    NotInMeaning(py, row, key, cs);
    InSpelled(py, key, cs);
    NotInSpelled(py, key, cs);
    ParenDenotes(DisjOf(InGroups(py, key, cs)));
    ConjDenotes(ConjOf(NotInGroups(py, key, cs)));
  }

  // ---- LIKE ----

  /** Section 8.5 of ISO/IEC 9075-2:2003, with backslash as the escape character. */
  predicate Like(s: string, pattern: string) {
    Globs.Matches(false, Globs.Read(Globs.LIKE, pattern), s)
  }

  /** Whatever quotes, wildcards and backslashes the user text contains, the emitted literal is
      read back as a pattern that accepts exactly the texts starting, or ending, with it. */
  lemma LikeRoundTrip(text: string, rest: string, s: string)
    requires rest == [] || rest[0] != '\''
    ensures ReadLiteral((EscapeSql(EscapeLike(text)) + "%") + (['\''] + rest)) == Closed(EscapeLike(text) + "%", rest)
    ensures ReadLiteral(("%" + EscapeSql(EscapeLike(text))) + (['\''] + rest)) == Closed("%" + EscapeLike(text), rest)
    ensures Like(s, EscapeLike(text) + "%") <==> StartsWith(s, text)
    ensures Like(s, "%" + EscapeLike(text)) <==> EndsWith(s, text)
  {
    PercentEscapes(EscapeLike(text));
    LiteralReadsBack(EscapeLike(text) + "%", rest);
    LiteralReadsBack("%" + EscapeLike(text), rest);
    assert "%" == [Globs.LIKE.many];
    Globs.StartsWithPattern(Globs.LIKE, false, text, s);
    Globs.EndsWithPattern(Globs.LIKE, false, text, s);
  }
}
