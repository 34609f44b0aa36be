/** Boolean filter texts as trees: how a tree is printed, and that the printed text parses back to it. */
module SqlTree {
  import opened PyValues
  import opened Text
  import opened SqlText

  /** What may stand between ANDs. */
  datatype Factor = Plain(test: Test) | Negated(test: Test) | Paren(d: Disj)
  /** Factors joined by AND */
  datatype Conj = OneFactor(f: Factor) | AndThen(f: Factor, more: Conj)
  /** Conjunctions joined by OR */
  datatype Disj = OneConj(c: Conj) | OrElse(c: Conj, others: Disj)

  // ---- Printing ----

  const AND: seq<Piece> := [Gap, WordP("AND"), Gap]
  const OR: seq<Piece> := [Gap, WordP("OR"), Gap]

  function OperandPiece(k: Token): Piece {
    match k
    case Word(w) => WordP(w)
    case Lit(s) => LitP(s)
    case Sym(c) => SymP(c)
  }

  function OperatorPieces(op: string): seq<Piece> {
    if op == "LIKE" then [WordP(op)]
    else if |op| == 2 then [SymP(op[0]), SymP(op[1])]
    else if |op| == 1 then [SymP(op[0])]
    else []
  }

  function TestPieces(t: Test): seq<Piece> {
    match t
    case JsonContains(path, member) =>
      [WordP("JSON_CONTAINS"), SymP('('), WordP("meta_fields"), SymP(','), Gap, LitP(path), SymP(','), Gap,
       OperandPiece(member), SymP(')')]
    case Compare(extract, path, op, rhs) =>
      [WordP(extract), SymP('('), WordP("meta_fields"), SymP(','), Gap, LitP(path), SymP(')'), Gap]
      + (OperatorPieces(op) + [Gap, OperandPiece(rhs)])
  }

  function FactorPieces(f: Factor): seq<Piece> {
    match f
    case Plain(test) => TestPieces(test)
    case Negated(test) => [WordP("NOT"), Gap] + TestPieces(test)
    case Paren(d) => [SymP('(')] + (DisjPieces(d) + [SymP(')')])
  }

  function ConjPieces(c: Conj): seq<Piece> {
    match c
    case OneFactor(f) => FactorPieces(f)
    case AndThen(f, more) => FactorPieces(f) + (AND + ConjPieces(more))
  }

  function DisjPieces(d: Disj): seq<Piece> {
    match d
    case OneConj(c) => ConjPieces(c)
    case OrElse(c, others) => ConjPieces(c) + (OR + DisjPieces(others))
  }

  // ---- Denoting ----

  function FactorExpr(f: Factor): Expr {
    match f
    case Plain(test) => Is(test)
    case Negated(test) => Not(Is(test))
    case Paren(d) => DisjExpr(d)
  }

  function ConjExpr(c: Conj): Expr {
    match c
    case OneFactor(f) => FactorExpr(f)
    case AndThen(f, more) => And(FactorExpr(f), ConjExpr(more))
  }

  function DisjExpr(d: Disj): Expr {
    match d
    case OneConj(c) => ConjExpr(c)
    case OrElse(c, others) => Or(ConjExpr(c), DisjExpr(others))
  }

  // ---- Well-formed trees ----

  predicate GoodOperand(k: Token) {
    k.Lit? || (k.Word? && k.w != [] && forall i :: 0 <= i < |k.w| ==> WordChar(k.w[i]))
  }

  predicate GoodTest(t: Test) {
    match t
    case JsonContains(_, member) => GoodOperand(member)
    case Compare(extract, _, op, rhs) =>
      && (extract == "JSON_EXTRACT_STRING" || extract == "JSON_EXTRACT_DOUBLE")
      && (op == "=" || op == "!=" || op == "<" || op == ">" || op == "<=" || op == ">=" || op == "LIKE")
      && GoodOperand(rhs)
  }

  predicate GoodFactor(f: Factor) {
    match f
    case Plain(test) => GoodTest(test)
    case Negated(test) => GoodTest(test)
    case Paren(d) => GoodDisj(d)
  }

  predicate GoodConj(c: Conj) {
    match c
    case OneFactor(f) => GoodFactor(f)
    case AndThen(f, more) => GoodFactor(f) && GoodConj(more)
  }

  predicate GoodDisj(d: Disj) {
    match d
    case OneConj(c) => GoodConj(c)
    case OrElse(c, others) => GoodConj(c) && GoodDisj(others)
  }

  // ---- The printed pieces stay apart ----

  lemma OperatorSeparated(op: string)
    requires op == "=" || op == "!=" || op == "<" || op == ">" || op == "<=" || op == ">=" || op == "LIKE"
    ensures OperatorPieces(op) != [] && Separated(OperatorPieces(op))
  {
  }

  lemma TestSeparated(t: Test)
    requires GoodTest(t)
    ensures Separated(TestPieces(t)) && TestPieces(t) != []
  {
    if t.Compare? {
      OperatorSeparated(t.op);
      var tail := [Gap, OperandPiece(t.rhs)];
      SeparatedConcat(OperatorPieces(t.op), tail);
      var head := [WordP(t.extract), SymP('('), WordP("meta_fields"), SymP(','), Gap, LitP(t.path), SymP(')'), Gap];
      ExtractIsWord(t.extract);
      SeparatedConcat(head, OperatorPieces(t.op) + tail);
    } else {
      ContainsIsWord();
    }
  }

  lemma ExtractIsWord(e: string)
    requires e == "JSON_EXTRACT_STRING" || e == "JSON_EXTRACT_DOUBLE"
    ensures GoodPiece(WordP(e)) && GoodPiece(WordP("meta_fields"))
  {
  }

  lemma ContainsIsWord()
    ensures GoodPiece(WordP("JSON_CONTAINS")) && GoodPiece(WordP("meta_fields"))
  {
  }

  lemma {:induction false} FactorSeparated(f: Factor)
    requires GoodFactor(f)
    ensures Separated(FactorPieces(f)) && FactorPieces(f) != []
  {
    match f {
      case Plain(test) => TestSeparated(test);
      case Negated(test) =>
        TestSeparated(test);
        SeparatedConcat([WordP("NOT"), Gap], TestPieces(test));
      case Paren(d) =>
        DisjSeparated(d);
        SeparatedConcat(DisjPieces(d), [SymP(')')]);
        SeparatedConcat([SymP('(')], DisjPieces(d) + [SymP(')')]);
    }
  }

  lemma {:induction false} ConjSeparated(c: Conj)
    requires GoodConj(c)
    ensures Separated(ConjPieces(c)) && ConjPieces(c) != []
  {
    FactorSeparated(c.f);
    if c.AndThen? {
      ConjSeparated(c.more);
      SeparatedConcat(AND, ConjPieces(c.more));
      SeparatedConcat(FactorPieces(c.f), AND + ConjPieces(c.more));
    }
  }

  lemma {:induction false} DisjSeparated(d: Disj)
    requires GoodDisj(d)
    ensures Separated(DisjPieces(d)) && DisjPieces(d) != []
  {
    ConjSeparated(d.c);
    if d.OrElse? {
      DisjSeparated(d.others);
      SeparatedConcat(OR, DisjPieces(d.others));
      SeparatedConcat(ConjPieces(d.c), OR + DisjPieces(d.others));
    }
  }

  // ---- The printed tokens parse back ----

  predicate Follows(rest: seq<Token>, w: string) {
    rest != [] && rest[0] == Word(w)
  }

  lemma OperandToken(k: Token)
    requires GoodOperand(k)
    ensures Tokens([OperandPiece(k)]) == [k] && Operand(k)
  {
    assert [OperandPiece(k)][1..] == [];
  }

  lemma OperatorTokens(op: string)
    requires op == "=" || op == "!=" || op == "<" || op == ">" || op == "<=" || op == ">=" || op == "LIKE"
    ensures Tokens(OperatorPieces(op)) ==
              if op == "LIKE" then [Word(op)] else if |op| == 2 then [Sym(op[0]), Sym(op[1])] else [Sym(op[0])]
  {
    var ps := OperatorPieces(op);
    assert Tokens(ps) == TokensOf(ps[0]) + Tokens(ps[1..]);
    if |ps| == 2 {
      assert Tokens(ps[1..]) == TokensOf(ps[1]) + Tokens(ps[1..][1..]);
      assert Tokens(ps[1..][1..]) == [];
    } else {
      assert Tokens(ps[1..]) == [];
    }
  }

  function ContainsTokens(path: string, member: Token): seq<Token> {
    [Word("JSON_CONTAINS"), Sym('('), Word("meta_fields"), Sym(','), Lit(path), Sym(','), member, Sym(')')]
  }

  function ExtractTokens(extract: string, path: string): seq<Token> {
    [Word(extract), Sym('('), Word("meta_fields"), Sym(','), Lit(path), Sym(')')]
  }

  lemma ContainsPrints(path: string, member: Token)
    requires GoodOperand(member)
    ensures Tokens(TestPieces(JsonContains(path, member))) == ContainsTokens(path, member)
  {
    var a := [WordP("JSON_CONTAINS"), SymP('('), WordP("meta_fields"), SymP(','), Gap];
    var b := [LitP(path), SymP(','), Gap];
    var c := [OperandPiece(member), SymP(')')];
    assert TestPieces(JsonContains(path, member)) == a + (b + c);
    TokensOfThree(a, b, c);
    FiveTokens(a[0], a[1], a[2], a[3], a[4]);
    ThreeTokens(b[0], b[1], b[2]);
    TwoTokens(c[0], c[1]);
    assert TokensOf(c[0]) == [member];
    ContainsJoins(path, member, Tokens(a), Tokens(b), Tokens(c));
  }

  lemma TokensOfThree(a: seq<Piece>, b: seq<Piece>, c: seq<Piece>)
    ensures Tokens(a + (b + c)) == Tokens(a) + (Tokens(b) + Tokens(c))
  {
    TokensConcat(a, b + c);
    TokensConcat(b, c);
  }

  lemma ContainsJoins(path: string, member: Token, a: seq<Token>, b: seq<Token>, c: seq<Token>)
    requires a == [Word("JSON_CONTAINS"), Sym('('), Word("meta_fields"), Sym(',')]
    requires b == [Lit(path), Sym(',')] && c == [member, Sym(')')]
    ensures a + (b + c) == ContainsTokens(path, member)
  {
  }

  lemma TwoTokens(a: Piece, b: Piece)
    ensures Tokens([a, b]) == TokensOf(a) + TokensOf(b)
  {
    assert [a, b][1..] == [b] && [b][1..] == [];
    assert Tokens([b]) == TokensOf(b) + [];
  }

  lemma ThreeTokens(a: Piece, b: Piece, c: Piece)
    ensures Tokens([a, b, c]) == TokensOf(a) + (TokensOf(b) + TokensOf(c))
  {
    assert [a, b, c][1..] == [b, c];
    TwoTokens(b, c);
  }

  lemma FiveTokens(a: Piece, b: Piece, c: Piece, d: Piece, e: Piece)
    ensures Tokens([a, b, c, d, e]) == TokensOf(a) + (TokensOf(b) + (TokensOf(c) + (TokensOf(d) + TokensOf(e))))
  {
    assert [a, b, c, d, e][1..] == [b, c, d, e] && [b, c, d, e][1..] == [c, d, e];
    ThreeTokens(c, d, e);
  }

  lemma ComparePrints(extract: string, path: string, op: string, rhs: Token)
    requires GoodTest(Compare(extract, path, op, rhs))
    ensures Tokens(TestPieces(Compare(extract, path, op, rhs))) ==
              ExtractTokens(extract, path) + (Tokens(OperatorPieces(op)) + [rhs])
  {
    var a := [WordP(extract), SymP('('), WordP("meta_fields"), SymP(','), Gap];
    var b := [LitP(path), SymP(')'), Gap];
    var c := OperatorPieces(op);
    var e := [Gap, OperandPiece(rhs)];
    assert TestPieces(Compare(extract, path, op, rhs)) == a + (b + (c + e));
    TokensConcat(a, b + (c + e));
    TokensConcat(b, c + e);
    TokensConcat(c, e);
    FiveTokens(a[0], a[1], a[2], a[3], a[4]);
    ThreeTokens(b[0], b[1], b[2]);
    TwoTokens(e[0], e[1]);
    OperandToken(rhs);
    assert Tokens(a) + Tokens(b) == ExtractTokens(extract, path);
  }

  lemma ContainsParses(path: string, member: Token, rest: seq<Token>)
    requires GoodOperand(member)
    ensures ParseTest(ContainsTokens(path, member) + rest) == Parsed(Is(JsonContains(path, member)), rest)
  {
    var ts := ContainsTokens(path, member) + rest;
    assert ts[..4] == [Word("JSON_CONTAINS"), Sym('('), Word("meta_fields"), Sym(',')];
    assert ts[8..] == rest;
  }

  lemma OperatorParses(op: string, rest: seq<Token>)
    requires op == "=" || op == "!=" || op == "<" || op == ">" || op == "<=" || op == ">=" || op == "LIKE"
    requires rest != [] && Operand(rest[0])
    ensures ParseOperator(Tokens(OperatorPieces(op)) + rest) == Some((op, rest))
  {
    OperatorTokens(op);
    var ts := Tokens(OperatorPieces(op)) + rest;
    if op == "LIKE" {
      assert ts[0] == Word("LIKE") && ts[1..] == rest;
    } else if |op| == 2 {
      assert ts[0] == Sym(op[0]) && ts[1] == Sym('=') && ts[2..] == rest;
      assert [op[0], '='] == op;
    } else {
      assert ts[0] == Sym(op[0]) && ts[1] == rest[0] && ts[1..] == rest;
      assert [op[0]] == op;
    }
  }

  lemma CompareParses(extract: string, path: string, op: string, rhs: Token, rest: seq<Token>)
    requires GoodTest(Compare(extract, path, op, rhs))
    ensures ParseTest((ExtractTokens(extract, path) + (Tokens(OperatorPieces(op)) + [rhs])) + rest) ==
              Parsed(Is(Compare(extract, path, op, rhs)), rest)
  {
    var tail := Tokens(OperatorPieces(op)) + ([rhs] + rest);
    var ts := (ExtractTokens(extract, path) + (Tokens(OperatorPieces(op)) + [rhs])) + rest;
    assert ts == ExtractTokens(extract, path) + tail;
    OperatorParses(op, [rhs] + rest);
    assert ts[6..] == tail;
    assert ts[1..4] == [Sym('('), Word("meta_fields"), Sym(',')];
    assert ts[0] == Word(extract) && ts[0] != Word("JSON_CONTAINS");
    assert ts[..4][0] == ts[0];
  }

  lemma TestParses(t: Test, rest: seq<Token>)
    requires GoodTest(t)
    ensures ParseNot(Tokens(TestPieces(t)) + rest) == Parsed(Is(t), rest)
  {
    if t.JsonContains? {
      ContainsPrints(t.path, t.member);
      ContainsParses(t.path, t.member, rest);
    } else {
      ComparePrints(t.extract, t.path, t.op, t.rhs);
      CompareParses(t.extract, t.path, t.op, t.rhs, rest);
    }
  }

  lemma NegatedParses(t: Test, rest: seq<Token>)
    requires GoodTest(t)
    ensures ParseNot(Tokens(FactorPieces(Negated(t))) + rest) == Parsed(Not(Is(t)), rest)
  {
    NegatedTokens(t);
    TestParses(t, rest);
    NotParses(Tokens(TestPieces(t)), rest);
  }

  lemma NegatedTokens(t: Test)
    ensures Tokens(FactorPieces(Negated(t))) == [Word("NOT")] + Tokens(TestPieces(t))
  {
    var ps := TestPieces(t);
    TokensConcat([WordP("NOT"), Gap], ps);
    TwoTokens(WordP("NOT"), Gap);
    assert [Word("NOT")] + [] == [Word("NOT")];
  }

  lemma NotParses(ts: seq<Token>, rest: seq<Token>)
    requires ParseNot(ts + rest).Parsed?
    ensures var r := ParseNot(ts + rest); ParseNot(([Word("NOT")] + ts) + rest) == Parsed(Not(r.e), r.rest)
  {
    var all := ([Word("NOT")] + ts) + rest;
    assert all[0] == Word("NOT") && all[1..] == ts + rest;
  }

  lemma ParenTokens(d: Disj, rest: seq<Token>)
    ensures Tokens(FactorPieces(Paren(d))) + rest == [Sym('(')] + (Tokens(DisjPieces(d)) + ([Sym(')')] + rest))
  {
    var ps := DisjPieces(d);
    TokensConcat([SymP('(')], ps + [SymP(')')]);
    TokensConcat(ps, [SymP(')')]);
    OneToken(SymP('('));
    OneToken(SymP(')'));
  }

  lemma ParenParses(ts: seq<Token>, e: Expr, rest: seq<Token>)
    requires ParseOr(ts) == Parsed(e, [Sym(')')] + rest)
    ensures ParseNot([Sym('(')] + ts) == Parsed(e, rest)
  {
    assert ([Sym('(')] + ts)[1..] == ts;
    assert ([Sym(')')] + rest)[1..] == rest;
  }

  lemma {:induction false} FactorParses(f: Factor, rest: seq<Token>)
    requires GoodFactor(f)
    ensures ParseNot(Tokens(FactorPieces(f)) + rest) == Parsed(FactorExpr(f), rest)
  {
    match f {
      case Plain(test) => TestParses(test, rest);
      case Negated(test) => NegatedParses(test, rest);
      case Paren(d) =>
        ParenTokens(d, rest);
        DisjParses(d, [Sym(')')] + rest);
        ParenParses(Tokens(DisjPieces(d)) + ([Sym(')')] + rest), DisjExpr(d), rest);
    }
  }

  lemma OneToken(p: Piece)
    ensures Tokens([p]) == TokensOf(p)
  {
    assert [p][1..] == [];
    assert TokensOf(p) + [] == TokensOf(p);
  }

  lemma JoinTokens(a: seq<Piece>, w: string, b: seq<Piece>, rest: seq<Token>)
    ensures Tokens(a + ([Gap, WordP(w), Gap] + b)) + rest == Tokens(a) + ([Word(w)] + (Tokens(b) + rest))
  {
    TokensConcat(a, [Gap, WordP(w), Gap] + b);
    TokensConcat([Gap, WordP(w), Gap], b);
    ThreeTokens(Gap, WordP(w), Gap);
  }

  lemma {:induction false} ConjParses(c: Conj, rest: seq<Token>)
    requires GoodConj(c) && !Follows(rest, "AND")
    ensures ParseAnd(Tokens(ConjPieces(c)) + rest) == Parsed(ConjExpr(c), rest)
  {
    match c {
      case OneFactor(f) => FactorParses(f, rest);
      case AndThen(f, more) =>
        var tail := [Word("AND")] + (Tokens(ConjPieces(more)) + rest);
        JoinTokens(FactorPieces(f), "AND", ConjPieces(more), rest);
        FactorParses(f, tail);
        assert tail[1..] == Tokens(ConjPieces(more)) + rest;
        ConjParses(more, rest);
    }
  }

  lemma {:induction false} DisjParses(d: Disj, rest: seq<Token>)
    requires GoodDisj(d) && !Follows(rest, "AND") && !Follows(rest, "OR")
    ensures ParseOr(Tokens(DisjPieces(d)) + rest) == Parsed(DisjExpr(d), rest)
  {
    match d {
      case OneConj(c) => ConjParses(c, rest);
      case OrElse(c, others) =>
        var tail := [Word("OR")] + (Tokens(DisjPieces(others)) + rest);
        JoinTokens(ConjPieces(c), "OR", DisjPieces(others), rest);
        ConjParses(c, tail);
        assert tail[1..] == Tokens(DisjPieces(others)) + rest;
        DisjParses(others, rest);
    }
  }

  /** Every printed tree is read back, whatever texts its literals carry. */
  lemma PrintedDenotes(d: Disj)
    requires GoodDisj(d)
    ensures Denotation(Spelling(DisjPieces(d))) == Some(DisjExpr(d))
  {
    DisjSeparated(d);
    SpellingLexes(DisjPieces(d));
    DisjParses(d, []);
    assert Tokens(DisjPieces(d)) + [] == Tokens(DisjPieces(d));
  }

  // ---- Trees from lists ----

  function ConjOf(fs: seq<Factor>): Conj
    requires fs != []
  {
    if |fs| == 1 then OneFactor(fs[0]) else AndThen(fs[0], ConjOf(fs[1..]))
  }

  function DisjOf(cs: seq<Conj>): Disj
    requires cs != []
  {
    if |cs| == 1 then OneConj(cs[0]) else OrElse(cs[0], DisjOf(cs[1..]))
  }

  /** Two conjunctions written one after the other with AND in between. */
  function Append(a: Conj, b: Conj): Conj {
    match a
    case OneFactor(f) => AndThen(f, b)
    case AndThen(f, more) => AndThen(f, Append(more, b))
  }

  function AppendAll(cs: seq<Conj>): Conj
    requires cs != []
  {
    if |cs| == 1 then cs[0] else Append(cs[0], AppendAll(cs[1..]))
  }

  function ConjText(c: Conj): string {
    Spelling(ConjPieces(c))
  }

  function FactorText(f: Factor): string {
    Spelling(FactorPieces(f))
  }

  function ConjTexts(cs: seq<Conj>): seq<string> {
    seq(|cs|, i requires 0 <= i < |cs| => ConjText(cs[i]))
  }

  function FactorTexts(fs: seq<Factor>): seq<string> {
    seq(|fs|, i requires 0 <= i < |fs| => FactorText(fs[i]))
  }

  lemma JoinerText(w: string)
    ensures Spelling([Gap, WordP(w), Gap]) == " " + w + " "
  {
    var ps := [Gap, WordP(w), Gap];
    assert ps[1..] == [WordP(w), Gap] && ps[1..][1..] == [Gap] && ps[1..][1..][1..] == [];
    assert Spelling([Gap]) == " " + Spelling([Gap][1..]);
    assert Spelling(ps[1..]) == w + Spelling([Gap]);
  }

  lemma JoinStep(parts: seq<string>, sep: string)
    requires |parts| > 1
    ensures Join(parts, sep) == parts[0] + (sep + Join(parts[1..], sep))
  {
    assert parts[0] + sep + Join(parts[1..], sep) == parts[0] + (sep + Join(parts[1..], sep));
  }

  lemma SpellJoin(a: seq<Piece>, w: string, b: seq<Piece>)
    ensures Spelling(a + ([Gap, WordP(w), Gap] + b)) == Spelling(a) + ((" " + w + " ") + Spelling(b))
  {
    SpellingConcat(a, [Gap, WordP(w), Gap] + b);
    SpellingConcat([Gap, WordP(w), Gap], b);
    JoinerText(w);
  }

  lemma {:induction false} ConjOfText(fs: seq<Factor>)
    requires fs != []
    ensures ConjText(ConjOf(fs)) == Join(FactorTexts(fs), " AND ")
  {
    if |fs| > 1 {
      assert FactorTexts(fs)[1..] == FactorTexts(fs[1..]);
      JoinStep(FactorTexts(fs), " AND ");
      ConjOfText(fs[1..]);
      SpellJoin(FactorPieces(fs[0]), "AND", ConjPieces(ConjOf(fs[1..])));
      assert " " + "AND" + " " == " AND ";
    }
  }

  lemma {:induction false} DisjOfText(cs: seq<Conj>)
    requires cs != []
    ensures Spelling(DisjPieces(DisjOf(cs))) == Join(ConjTexts(cs), " OR ")
  {
    if |cs| > 1 {
      assert ConjTexts(cs)[1..] == ConjTexts(cs[1..]);
      JoinStep(ConjTexts(cs), " OR ");
      DisjOfText(cs[1..]);
      SpellJoin(ConjPieces(cs[0]), "OR", DisjPieces(DisjOf(cs[1..])));
      assert " " + "OR" + " " == " OR ";
    }
  }

  lemma AndThenText(f: Factor, more: Conj)
    ensures ConjText(AndThen(f, more)) == FactorText(f) + (" AND " + ConjText(more))
  {
    SpellJoin(FactorPieces(f), "AND", ConjPieces(more));
    assert " " + "AND" + " " == " AND ";
  }

  lemma Regroup(a: string, sep: string, b: string, c: string)
    ensures a + (sep + (b + (sep + c))) == (a + (sep + b)) + (sep + c)
  {
  }

  lemma {:induction false} AppendText(a: Conj, b: Conj)
    ensures ConjText(Append(a, b)) == ConjText(a) + (" AND " + ConjText(b))
  {
    if a.OneFactor? {
      AndThenText(a.f, b);
    } else {
      AppendText(a.more, b);
      AndThenText(a.f, Append(a.more, b));
      AndThenText(a.f, a.more);
      Regroup(FactorText(a.f), " AND ", ConjText(a.more), ConjText(b));
    }
  }

  lemma {:induction false} AppendAllText(cs: seq<Conj>)
    requires cs != []
    ensures ConjText(AppendAll(cs)) == Join(ConjTexts(cs), " AND ")
  {
    if |cs| > 1 {
      assert ConjTexts(cs)[1..] == ConjTexts(cs[1..]);
      JoinStep(ConjTexts(cs), " AND ");
      AppendAllText(cs[1..]);
      AppendText(cs[0], AppendAll(cs[1..]));
    }
  }

  lemma ParenText(d: Disj)
    ensures FactorText(Paren(d)) == "(" + Spelling(DisjPieces(d)) + ")"
  {
    var ps := DisjPieces(d);
    SpellingConcat([SymP('(')], ps + [SymP(')')]);
    SpellingConcat(ps, [SymP(')')]);
    assert [SymP('(')][1..] == [] && [SymP(')')][1..] == [];
    assert Spelling([SymP('(')]) == "(" && Spelling([SymP(')')]) == ")";
  }

  // ---- Meaning of joined lists ----

  lemma {:induction false} ConjOfMeaning(row: Test -> bool, fs: seq<Factor>)
    requires fs != []
    ensures Eval(row, ConjExpr(ConjOf(fs))) <==> forall f :: f in fs ==> Eval(row, FactorExpr(f))
    ensures (forall f :: f in fs ==> GoodFactor(f)) ==> GoodConj(ConjOf(fs))
  {
    assert forall f :: f in fs <==> f == fs[0] || f in fs[1..];
    assert fs[0] in fs;
    if |fs| == 1 {
      assert ConjExpr(ConjOf(fs)) == FactorExpr(fs[0]);
    } else {
      ConjOfMeaning(row, fs[1..]);
      assert ConjExpr(ConjOf(fs)) == And(FactorExpr(fs[0]), ConjExpr(ConjOf(fs[1..])));
    }
  }

  lemma {:induction false} DisjOfMeaning(row: Test -> bool, cs: seq<Conj>)
    requires cs != []
    ensures Eval(row, DisjExpr(DisjOf(cs))) <==> exists c :: c in cs && Eval(row, ConjExpr(c))
    ensures (forall c :: c in cs ==> GoodConj(c)) ==> GoodDisj(DisjOf(cs))
  {
    assert forall c :: c in cs <==> c == cs[0] || c in cs[1..];
    assert cs[0] in cs;
    if |cs| == 1 {
      assert DisjExpr(DisjOf(cs)) == ConjExpr(cs[0]);
    } else {
      DisjOfMeaning(row, cs[1..]);
      assert DisjExpr(DisjOf(cs)) == Or(ConjExpr(cs[0]), DisjExpr(DisjOf(cs[1..])));
    }
  }

  lemma {:induction false} AppendMeaning(row: Test -> bool, a: Conj, b: Conj)
    ensures Eval(row, ConjExpr(Append(a, b))) <==> Eval(row, ConjExpr(a)) && Eval(row, ConjExpr(b))
    ensures GoodConj(a) && GoodConj(b) ==> GoodConj(Append(a, b))
  {
    if a.AndThen? {
      AppendMeaning(row, a.more, b);
    }
  }

  lemma {:induction false} AppendAllMeaning(row: Test -> bool, cs: seq<Conj>)
    requires cs != []
    ensures Eval(row, ConjExpr(AppendAll(cs))) <==> forall c :: c in cs ==> Eval(row, ConjExpr(c))
    ensures (forall c :: c in cs ==> GoodConj(c)) ==> GoodConj(AppendAll(cs))
  {
    assert forall c :: c in cs <==> c == cs[0] || c in cs[1..];
    if |cs| > 1 {
      AppendAllMeaning(row, cs[1..]);
      AppendMeaning(row, cs[0], AppendAll(cs[1..]));
    }
  }
}
