/** The emitted filter text parses back to the and/or combination of the filters' meanings. */
module InfinityMeaning {
  import opened PyValues
  import opened Text
  import opened SqlText
  import opened SqlTree
  import opened InfinityFilter
  import Es = EsTranslate

  /** `str` of a number is one word of the filter text. */
  ghost predicate SpellsNumbers(py: Python) {
    forall v :: Numeric(v) ==>
      py.show(v) != [] && (forall i :: 0 <= i < |py.show(v)| ==> WordChar(py.show(v)[i]))
  }

  // ---- What a filter asks of a row ----

  function Path(key: string): string {
    "$." + key
  }

  function MemberToken(py: Python, v: Value): Token {
    if v.Str? then Lit("\"" + v.s + "\"") else Word(py.show(v))
  }

  function ContainsTest(py: Python, key: string, v: Value): Test {
    JsonContains(Path(key), MemberToken(py, v))
  }

  function RangeTest(py: Python, op: Op, key: string, c: Value): Test {
    if c.Str? then Compare("JSON_EXTRACT_STRING", Path(key), SqlOperator(op), Lit(c.s))
    else Compare("JSON_EXTRACT_DOUBLE", Path(key), SqlOperator(op), Word(py.show(c)))
  }

  function LikeTest(key: string, pattern: string): Test {
    Compare("JSON_EXTRACT_STRING", Path(key), "LIKE", Lit(pattern))
  }

  /** The meaning of one filter, in terms of the tests on a row. */
  ghost predicate Meaning(py: Python, row: Test -> bool, f: Filter)
    requires FragmentText(py, f).Ok?
  {
    var key := f.key.value;
    match f.op
    case Empty => row(Compare("JSON_EXTRACT_STRING", Path(key), "=", Lit("\"\"")))
    case NotEmpty => row(Compare("JSON_EXTRACT_STRING", Path(key), "!=", Lit("\"\"")))
    case Eq => row(ContainsTest(py, key, NumberOrText(py, f.value)))
    case Ne => !row(ContainsTest(py, key, NumberOrText(py, f.value)))
    case In => AnyMember(py, row, key, CoerceMembers(py, f.value).value)
    case NotIn => !AnyMember(py, row, key, CoerceMembers(py, f.value).value)
    case Contains => row(ContainsTest(py, key, NumberOrText(py, f.value)))
    case NotContains => !row(ContainsTest(py, key, Str(Es.CoerceString(py, f.value).value)))
    case StartWith => row(LikeTest(key, EscapeLike(Es.CoerceString(py, f.value).value) + "%"))
    case EndWith => row(LikeTest(key, "%" + EscapeLike(Es.CoerceString(py, f.value).value)))
    case _ => row(RangeTest(py, f.op, key, NumberOrText(py, f.value)))
  }

  ghost predicate AnyMember(py: Python, row: Test -> bool, key: string, cs: seq<Value>) {
    exists c :: c in cs && row(ContainsTest(py, key, c))
  }

  // ---- The tree behind each fragment ----

  function Tests(py: Python, key: string, cs: seq<Value>): seq<Test> {
    seq(|cs|, i requires 0 <= i < |cs| => ContainsTest(py, key, cs[i]))
  }

  function PlainConjs(ts: seq<Test>): seq<Conj> {
    seq(|ts|, i requires 0 <= i < |ts| => OneFactor(Plain(ts[i])))
  }

  function NegatedFactors(ts: seq<Test>): seq<Factor> {
    seq(|ts|, i requires 0 <= i < |ts| => Negated(ts[i]))
  }

  function AnyGroup(ts: seq<Test>): seq<Conj> {
    if ts == [] then [] else [OneFactor(Paren(DisjOf(PlainConjs(ts))))]
  }

  function NoneGroup(ts: seq<Test>): seq<Factor> {
    if ts == [] then [] else [Paren(OneConj(ConjOf(NegatedFactors(ts))))]
  }

  function InGroups(py: Python, key: string, cs: seq<Value>): seq<Conj> {
    AnyGroup(Tests(py, key, Strings(cs))) + AnyGroup(Tests(py, key, Numbers(cs)))
  }

  function NotInGroups(py: Python, key: string, cs: seq<Value>): seq<Factor> {
    NoneGroup(Tests(py, key, Strings(cs))) + NoneGroup(Tests(py, key, Numbers(cs)))
  }

  lemma {:induction false} SplitIsExhaustive(cs: seq<Value>)
    ensures forall c :: c in cs <==> c in Strings(cs) || c in Numbers(cs)
    ensures forall c :: c in Strings(cs) ==> c.Str?
    ensures forall c :: c in Numbers(cs) ==> !c.Str?
  {
    if cs != [] {
      SplitIsExhaustive(cs[1..]);
      assert forall c :: c in cs <==> c == cs[0] || c in cs[1..];
    }
  }

  lemma GroupsNonEmpty(py: Python, key: string, cs: seq<Value>)
    requires cs != []
    ensures InGroups(py, key, cs) != [] && NotInGroups(py, key, cs) != []
  {
    SplitIsExhaustive(cs);
    assert cs[0] in cs;
  }

  lemma MembersNonEmpty(py: Python, v: Value)
    requires CoerceMembers(py, v).Ok?
    ensures CoerceMembers(py, v).value != []
    ensures forall c :: c in CoerceMembers(py, v).value ==> c.Str? || Numeric(c)
  {
  }

  /** The tree of a fragment. */
  function FragmentTree(py: Python, f: Filter): Conj
    requires FragmentText(py, f).Ok?
  {
    var key := f.key.value;
    match f.op
    case Empty => OneFactor(Plain(Compare("JSON_EXTRACT_STRING", Path(key), "=", Lit("\"\""))))
    case NotEmpty => OneFactor(Plain(Compare("JSON_EXTRACT_STRING", Path(key), "!=", Lit("\"\""))))
    case Eq => OneFactor(Plain(ContainsTest(py, key, NumberOrText(py, f.value))))
    case Ne => OneFactor(Negated(ContainsTest(py, key, NumberOrText(py, f.value))))
    case In =>
      MembersNonEmpty(py, f.value);
      GroupsNonEmpty(py, key, CoerceMembers(py, f.value).value);
      OneFactor(Paren(DisjOf(InGroups(py, key, CoerceMembers(py, f.value).value))))
    case NotIn =>
      MembersNonEmpty(py, f.value);
      GroupsNonEmpty(py, key, CoerceMembers(py, f.value).value);
      ConjOf(NotInGroups(py, key, CoerceMembers(py, f.value).value))
    case Contains => OneFactor(Plain(ContainsTest(py, key, NumberOrText(py, f.value))))
    case NotContains => OneFactor(Negated(ContainsTest(py, key, Str(Es.CoerceString(py, f.value).value))))
    case StartWith => OneFactor(Plain(LikeTest(key, EscapeLike(Es.CoerceString(py, f.value).value) + "%")))
    case EndWith => OneFactor(Plain(LikeTest(key, "%" + EscapeLike(Es.CoerceString(py, f.value).value))))
    case _ => OneFactor(Plain(RangeTest(py, f.op, key, NumberOrText(py, f.value))))
  }

  // ---- Spelling of single tests ----

  lemma {:induction false} NothingToEscape(s: string)
    requires forall i :: 0 <= i < |s| ==> s[i] != '\''
    ensures EscapeSql(s) == s
  {
    ReplaceCharStep(s, '\'', "''");
    if s != [] {
      NothingToEscape(s[1..]);
    }
  }

  lemma PathEscapes(key: string)
    requires ValidKey(key)
    ensures EscapeSql(Path(key)) == Path(key)
  {
    var p := Path(key);
    forall i | 0 <= i < |p|
      ensures p[i] != '\''
    {
      if i >= 2 {
        assert p[i] == key[i - 2];
      }
    }
    NothingToEscape(p);
  }

  lemma QuotedEscapes(s: string)
    ensures EscapeSql("\"" + s + "\"") == "\"" + EscapeSql(s) + "\""
  {
    ReplaceCharConcat("\"" + s, "\"", '\'', "''");
    ReplaceCharConcat("\"", s, '\'', "''");
    NothingToEscape("\"");
  }

  lemma OperandSpelled(py: Python, v: Value)
    ensures Spell(OperandPiece(MemberToken(py, v))) == OperandText(py, v)
  {
    if v.Str? {
      QuotedEscapes(v.s);
      assert "'" + ("\"" + EscapeSql(v.s) + "\"") + "'" == "'\"" + EscapeSql(v.s) + "\"'";
    }
  }

  lemma SpellTwo(a: Piece, b: Piece)
    ensures Spelling([a, b]) == Spell(a) + Spell(b)
  {
    assert [a, b][1..] == [b] && [b][1..] == [];
    assert Spelling([b]) == Spell(b) + [];
  }

  lemma SpellThree(a: Piece, b: Piece, c: Piece)
    ensures Spelling([a, b, c]) == Spell(a) + (Spell(b) + Spell(c))
  {
    assert [a, b, c][1..] == [b, c];
    SpellTwo(b, c);
  }

  lemma SpellFive(a: Piece, b: Piece, c: Piece, d: Piece, e: Piece)
    ensures Spelling([a, b, c, d, e]) == Spell(a) + (Spell(b) + (Spell(c) + (Spell(d) + Spell(e))))
  {
    assert [a, b, c, d, e][1..] == [b, c, d, e] && [b, c, d, e][1..] == [c, d, e];
    SpellThree(c, d, e);
  }

  lemma CallSpelled(name: string)
    ensures Spelling([WordP(name), SymP('('), WordP("meta_fields"), SymP(','), Gap]) == name + "(meta_fields, "
  {
    SpellFive(WordP(name), SymP('('), WordP("meta_fields"), SymP(','), Gap);
    assert ['('] + ("meta_fields" + ([','] + " ")) == "(meta_fields, ";
  }

  lemma PathSpelled(key: string)
    requires ValidKey(key)
    ensures Spell(LitP(Path(key))) == "'$." + key + "'"
  {
    PathEscapes(key);
    assert "'" + ("$." + key) + "'" == "'$." + key + "'";
  }

  lemma ContainsSpelled(py: Python, key: string, v: Value)
    requires ValidKey(key)
    ensures FactorText(Plain(ContainsTest(py, key, v))) == ContainsText(key, OperandText(py, v))
  {
    var k := MemberToken(py, v);
    var a := [WordP("JSON_CONTAINS"), SymP('('), WordP("meta_fields"), SymP(','), Gap];
    var b := [LitP(Path(key)), SymP(','), Gap];
    var c := [OperandPiece(k), SymP(')')];
    assert TestPieces(JsonContains(Path(key), k)) == a + (b + c);
    SpellingConcat(a, b + c);
    SpellingConcat(b, c);
    CallSpelled("JSON_CONTAINS");
    SpellThree(b[0], b[1], b[2]);
    PathSpelled(key);
    SpellTwo(c[0], c[1]);
    OperandSpelled(py, v);
    ContainsRegroup(key, OperandText(py, v));
  }

  lemma ContainsRegroup(key: string, operand: string)
    ensures "JSON_CONTAINS" + "(meta_fields, " + ((("'$." + key + "'") + ([','] + " ")) + (operand + [')'])) ==
              ContainsText(key, operand)
  {
    assert "JSON_CONTAINS" + "(meta_fields, " == "JSON_CONTAINS(meta_fields, ";
    assert "JSON_CONTAINS(meta_fields, " + "'$." == "JSON_CONTAINS(meta_fields, '$.";
    assert "'" + ([','] + " ") == "', ";
  }

  lemma NegatedSpelled(t: Test)
    ensures FactorText(Negated(t)) == "NOT " + FactorText(Plain(t))
  {
    SpellingConcat([WordP("NOT"), Gap], TestPieces(t));
    SpellTwo(WordP("NOT"), Gap);
    assert "NOT" + " " == "NOT ";
  }

  lemma OperatorSpelled(op: string)
    requires op == "=" || op == "!=" || op == "<" || op == ">" || op == "<=" || op == ">=" || op == "LIKE"
    ensures Spelling(OperatorPieces(op)) == op
  {
    var ps := OperatorPieces(op);
    if op == "LIKE" || |op| == 1 {
      assert ps[1..] == [];
      assert Spelling(ps) == Spell(ps[0]) + [];
    } else {
      SpellTwo(SymP(op[0]), SymP(op[1]));
    }
  }

  lemma CompareSpelled(extract: string, key: string, op: string, rhs: Token)
    requires ValidKey(key) && GoodTest(Compare(extract, Path(key), op, rhs))
    ensures FactorText(Plain(Compare(extract, Path(key), op, rhs))) ==
              ExtractText(extract, key) + (" " + (op + (" " + Spell(OperandPiece(rhs)))))
  {
    var a := [WordP(extract), SymP('('), WordP("meta_fields"), SymP(','), Gap];
    var b := [LitP(Path(key)), SymP(')'), Gap];
    var e := [Gap, OperandPiece(rhs)];
    assert TestPieces(Compare(extract, Path(key), op, rhs)) == a + (b + (OperatorPieces(op) + e));
    SpellingConcat(a, b + (OperatorPieces(op) + e));
    SpellingConcat(b, OperatorPieces(op) + e);
    SpellingConcat(OperatorPieces(op), e);
    CallSpelled(extract);
    SpellThree(b[0], b[1], b[2]);
    PathSpelled(key);
    OperatorSpelled(op);
    SpellTwo(e[0], e[1]);
    CompareRegroup(extract, key, op + (" " + Spell(OperandPiece(rhs))));
  }

  lemma CompareRegroup(extract: string, key: string, tail: string)
    ensures extract + "(meta_fields, " + ((("'$." + key + "'") + ([')'] + " ")) + tail) ==
              ExtractText(extract, key) + (" " + tail)
  {
    assert "(meta_fields, " + "'$." == "(meta_fields, '$.";
    assert "'" + [')'] == "')";
  }
}
