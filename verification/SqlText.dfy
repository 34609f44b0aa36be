/** Filter text for a SQL engine: its tokens (string literals as in section 5.3 of
    ISO/IEC 9075-2:2003) and its boolean structure, NOT over AND over OR. */
module SqlText {
  import opened PyValues
  import opened Text

  datatype Token = Word(w: string) | Lit(s: string) | Sym(c: char)

  predicate WordChar(c: char) {
    'a' <= c <= 'z' || 'A' <= c <= 'Z' || Digit(c) || c == '_' || c == '.' || c == '+' || c == '-'
  }

  // ---- Lexing ----

  datatype LitResult = Open | Closed(s: string, rest: string)

  /** Behind an opening quote: a doubled quote is a quote, a single one ends the literal. */
  function ReadLiteral(t: string): (r: LitResult)
    ensures r.Closed? ==> |r.rest| < |t|
  {
    if t == [] then Open
    else if t[0] == '\'' then
      if |t| >= 2 && t[1] == '\'' then AddChar('\'', ReadLiteral(t[2..])) else Closed([], t[1..])
    else AddChar(t[0], ReadLiteral(t[1..]))
  }

  function AddChar(c: char, r: LitResult): LitResult {
    if r.Open? then r else Closed([c] + r.s, r.rest)
  }

  function WordEnd(t: string): (n: nat)
    ensures n <= |t| && (forall i :: 0 <= i < n ==> WordChar(t[i])) && (n < |t| ==> !WordChar(t[n]))
  {
    if t != [] && WordChar(t[0]) then 1 + WordEnd(t[1..]) else 0
  }

  function AddTokens(ks: seq<Token>, r: Option<seq<Token>>): Option<seq<Token>> {
    if r.None? then None else Some(ks + r.value)
  }

  /** None when a literal is left open. */
  function Lex(t: string): Option<seq<Token>>
    decreases |t|
  {
    if t == [] then Some([])
    else if t[0] == ' ' then Lex(t[1..])
    else if t[0] == '\'' then
      var r := ReadLiteral(t[1..]);
      if r.Open? then None else AddTokens([Lit(r.s)], Lex(r.rest))
    else if WordChar(t[0]) then AddTokens([Word(t[..WordEnd(t)])], Lex(t[WordEnd(t)..]))
    else AddTokens([Sym(t[0])], Lex(t[1..]))
  }

  // ---- Spelling ----

  /** A piece of emitted text; literals carry their value, not their spelling. */
  datatype Piece = Gap | WordP(w: string) | LitP(s: string) | SymP(c: char)

  /** `_escape_sql_string` */
  function EscapeSql(s: string): string {
    Replace(s, "'", "''")
  }

  function Spell(p: Piece): string {
    match p
    case Gap => " "
    case WordP(w) => w
    case LitP(s) => "'" + EscapeSql(s) + "'"
    case SymP(c) => [c]
  }

  function Spelling(ps: seq<Piece>): string {
    if ps == [] then [] else Spell(ps[0]) + Spelling(ps[1..])
  }

  function TokensOf(p: Piece): seq<Token> {
    match p
    case Gap => []
    case WordP(w) => [Word(w)]
    case LitP(s) => [Lit(s)]
    case SymP(c) => [Sym(c)]
  }

  function Tokens(ps: seq<Piece>): seq<Token> {
    if ps == [] then [] else TokensOf(ps[0]) + Tokens(ps[1..])
  }

  predicate GoodPiece(p: Piece) {
    match p
    case Gap => true
    case WordP(w) => w != [] && forall i :: 0 <= i < |w| ==> WordChar(w[i])
    case LitP(_) => true
    case SymP(c) => !WordChar(c) && c != ' ' && c != '\''
  }

  /** Two pieces whose texts would run together when written side by side. */
  predicate Clash(a: Piece, b: Piece) {
    (a.WordP? && b.WordP?) || (a.LitP? && b.LitP?)
  }

  predicate Separated(ps: seq<Piece>) {
    && (forall i :: 0 <= i < |ps| ==> GoodPiece(ps[i]))
    && (forall i :: 0 <= i < |ps| - 1 ==> !Clash(ps[i], ps[i + 1]))
  }

  lemma {:induction false} SpellingConcat(a: seq<Piece>, b: seq<Piece>)
    ensures Spelling(a + b) == Spelling(a) + Spelling(b)
  {
    if a == [] {
      assert a + b == b;
    } else {
      assert (a + b)[1..] == a[1..] + b;
      SpellingConcat(a[1..], b);
    }
  }

  lemma {:induction false} TokensConcat(a: seq<Piece>, b: seq<Piece>)
    ensures Tokens(a + b) == Tokens(a) + Tokens(b)
  {
    if a == [] {
      assert a + b == b;
    } else {
      assert (a + b)[1..] == a[1..] + b;
      TokensConcat(a[1..], b);
    }
  }

  lemma SeparatedConcat(a: seq<Piece>, b: seq<Piece>)
    requires Separated(a) && Separated(b)
    requires a == [] || b == [] || !Clash(a[|a| - 1], b[0])
    ensures Separated(a + b)
  {
    var s := a + b;
    forall i | 0 <= i < |s|
      ensures GoodPiece(s[i])
      ensures i < |s| - 1 ==> !Clash(s[i], s[i + 1])
    {
      if i < |a| {
        assert s[i] == a[i];
      } else {
        assert s[i] == b[i - |a|];
      }
    }
  }

  lemma EscapeHead(s: string, end: string)
    requires s != []
    ensures EscapeSql(s) + end == (if s[0] == '\'' then "''" else [s[0]]) + (EscapeSql(s[1..]) + end)
  {
    ReplaceCharStep(s, '\'', "''");
  }

  lemma ReadEscaped(c: char, tail: string)
    ensures ReadLiteral((if c == '\'' then "''" else [c]) + tail) == AddChar(c, ReadLiteral(tail))
  {
    var t := (if c == '\'' then "''" else [c]) + tail;
    assert t[0] == c && (c != '\'' ==> t[1..] == tail) && (c == '\'' ==> t[1] == '\'' && t[2..] == tail);
  }

  lemma ReadQuote(rest: string)
    requires rest == [] || rest[0] != '\''
    ensures ReadLiteral(['\''] + rest) == Closed([], rest)
  {
    assert (['\''] + rest)[1..] == rest;
  }

  /** A quoted, escaped text is read back as itself, provided no quote follows. */
  lemma {:induction false} LiteralReadsBack(s: string, rest: string)
    requires rest == [] || rest[0] != '\''
    ensures ReadLiteral(EscapeSql(s) + (['\''] + rest)) == Closed(s, rest)
  {
    var end := ['\''] + rest;
    if s == [] {
      ReplaceCharStep(s, '\'', "''");
      ReadQuote(rest);
      assert EscapeSql(s) + end == end;
    } else {
      EscapeHead(s, end);
      ReadEscaped(s[0], EscapeSql(s[1..]) + end);
      LiteralReadsBack(s[1..], rest);
      assert [s[0]] + s[1..] == s;
    }
  }

  lemma WordEnds(w: string, rest: string)
    requires forall i :: 0 <= i < |w| ==> WordChar(w[i])
    requires rest == [] || !WordChar(rest[0])
    ensures WordEnd(w + rest) == |w|
  {
    var t := w + rest;
    assert forall i :: 0 <= i < |w| ==> t[i] == w[i];
    assert rest != [] ==> t[|w|] == rest[0];
  }

  lemma SpellHead(p: Piece)
    requires GoodPiece(p)
    ensures Spell(p) != []
    ensures WordChar(Spell(p)[0]) <==> p.WordP?
    ensures Spell(p)[0] == '\'' <==> p.LitP?
    ensures Spell(p)[0] == ' ' <==> p.Gap?
  {
  }

  /** Emitted pieces are read back token by token: no user text can end a literal or leave one open. */
  lemma {:induction false} SpellingLexes(ps: seq<Piece>)
    requires Separated(ps)
    ensures Lex(Spelling(ps)) == Some(Tokens(ps))
  {
    if ps != [] {
      var p, rest := ps[0], Spelling(ps[1..]);
      var t := Spell(p) + rest;
      assert Separated(ps[1..]) by {
        assert forall i :: 0 <= i < |ps[1..]| ==> ps[1..][i] == ps[i + 1];
      }
      SpellingLexes(ps[1..]);
      SpellHead(p);
      if ps[1..] != [] {
        assert !Clash(ps[0], ps[1]);
        SpellHead(ps[1]);
        assert rest[0] == Spell(ps[1])[0];
      }
      PieceLexes(p, rest);
    }
  }

  lemma WordLexes(w: string, rest: string)
    requires GoodPiece(WordP(w)) && (rest == [] || !WordChar(rest[0]))
    ensures Lex(w + rest) == AddTokens([Word(w)], Lex(rest))
  {
    var t := w + rest;
    assert t[0] == w[0];
    WordEnds(w, rest);
    assert t[..|w|] == w && t[|w|..] == rest;
  }

  lemma LiteralLexes(s: string, rest: string)
    requires rest == [] || rest[0] != '\''
    ensures Lex("'" + EscapeSql(s) + "'" + rest) == AddTokens([Lit(s)], Lex(rest))
  {
    var t := "'" + EscapeSql(s) + "'" + rest;
    assert t[0] == '\'' && t[1..] == EscapeSql(s) + (['\''] + rest);
    LiteralReadsBack(s, rest);
  }

  lemma PieceLexes(p: Piece, rest: string)
    requires GoodPiece(p)
    requires rest == [] || (p.WordP? ==> !WordChar(rest[0]))
    requires rest == [] || (p.LitP? ==> rest[0] != '\'')
    ensures Lex(Spell(p) + rest) == AddTokens(TokensOf(p), Lex(rest))
  {
    match p {
      case WordP(w) => WordLexes(w, rest);
      case LitP(s) => LiteralLexes(s, rest);
      case Gap =>
        assert (" " + rest)[1..] == rest;
        assert Lex(rest).Some? ==> [] + Lex(rest).value == Lex(rest).value;
      case SymP(c) =>
        assert ([c] + rest)[1..] == rest;
    }
  }

  // ---- Parsing ----

  /** An atomic test: a containment test on a path, or a comparison with an extracted value. */
  datatype Test =
    | JsonContains(path: string, member: Token)
    | Compare(extract: string, path: string, op: string, rhs: Token)

  datatype Expr = True | Is(test: Test) | Not(e: Expr) | And(l: Expr, r: Expr) | Or(l: Expr, r: Expr)

  /** The meaning of an expression, given the meaning of the tests on one row. */
  predicate Eval(row: Test -> bool, e: Expr) {
    match e
    case True => true
    case Is(test) => row(test)
    case Not(a) => !Eval(row, a)
    case And(a, b) => Eval(row, a) && Eval(row, b)
    case Or(a, b) => Eval(row, a) || Eval(row, b)
  }

  datatype Parse = Fail | Parsed(e: Expr, rest: seq<Token>)

  predicate Operand(k: Token) {
    k.Lit? || k.Word?
  }

  function ParseOperator(ts: seq<Token>): Option<(string, seq<Token>)> {
    if |ts| >= 2 && ts[1] == Sym('=') && ts[0] in {Sym('<'), Sym('>'), Sym('!')} then Some(([ts[0].c, '='], ts[2..]))
    else if |ts| >= 1 && ts[0] in {Sym('='), Sym('<'), Sym('>')} then Some(([ts[0].c], ts[1..]))
    else if |ts| >= 1 && ts[0] == Word("LIKE") then Some(("LIKE", ts[1..]))
    else None
  }

  function ParseTest(ts: seq<Token>): (r: Parse)
    ensures r.Parsed? ==> |r.rest| < |ts|
  {
    if |ts| >= 8 && ts[..4] == [Word("JSON_CONTAINS"), Sym('('), Word("meta_fields"), Sym(',')]
       && ts[4].Lit? && ts[5] == Sym(',') && Operand(ts[6]) && ts[7] == Sym(')')
    then Parsed(Is(JsonContains(ts[4].s, ts[6])), ts[8..])
    else if |ts| >= 6 && ts[0] in {Word("JSON_EXTRACT_STRING"), Word("JSON_EXTRACT_DOUBLE")}
       && ts[1..4] == [Sym('('), Word("meta_fields"), Sym(',')] && ts[4].Lit? && ts[5] == Sym(')')
    then
      var o := ParseOperator(ts[6..]);
      if o.None? || o.value.1 == [] || !Operand(o.value.1[0]) then Fail
      else Parsed(Is(Compare(ts[0].w, ts[4].s, o.value.0, o.value.1[0])), o.value.1[1..])
    else if |ts| >= 3 && ts[..3] == [Word("1"), Sym('='), Word("1")] then Parsed(True, ts[3..])
    else Fail
  }

  function ParsePrimary(ts: seq<Token>): (r: Parse)
    ensures r.Parsed? ==> |r.rest| < |ts|
    decreases |ts|, 0
  {
    if ts != [] && ts[0] == Sym('(') then
      var r := ParseOr(ts[1..]);
      if r.Fail? || r.rest == [] || r.rest[0] != Sym(')') then Fail else Parsed(r.e, r.rest[1..])
    else ParseTest(ts)
  }

  function ParseNot(ts: seq<Token>): (r: Parse)
    ensures r.Parsed? ==> |r.rest| < |ts|
    decreases |ts|, 1
  {
    if ts != [] && ts[0] == Word("NOT") then
      var r := ParseNot(ts[1..]);
      if r.Fail? then Fail else Parsed(Not(r.e), r.rest)
    else ParsePrimary(ts)
  }

  function ParseAnd(ts: seq<Token>): (r: Parse)
    ensures r.Parsed? ==> |r.rest| < |ts|
    decreases |ts|, 2
  {
    var a := ParseNot(ts);
    if a.Fail? || a.rest == [] || a.rest[0] != Word("AND") then a
    else
      var b := ParseAnd(a.rest[1..]);
      if b.Fail? then Fail else Parsed(And(a.e, b.e), b.rest)
  }

  function ParseOr(ts: seq<Token>): (r: Parse)
    ensures r.Parsed? ==> |r.rest| < |ts|
    decreases |ts|, 3
  {
    var a := ParseAnd(ts);
    if a.Fail? || a.rest == [] || a.rest[0] != Word("OR") then a
    else
      var b := ParseOr(a.rest[1..]);
      if b.Fail? then Fail else Parsed(Or(a.e, b.e), b.rest)
  }

  /** The boolean expression a filter text denotes; None for a malformed text. */
  function Denotation(text: string): Option<Expr> {
    var ts := Lex(text);
    if ts.None? then None
    else
      var r := ParseOr(ts.value);
      if r.Parsed? && r.rest == [] then Some(r.e) else None
  }
}
