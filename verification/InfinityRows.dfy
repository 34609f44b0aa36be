/** The built filter text against rows: which rows it selects, in terms of the filter values and of what stands in the
    row. */
module InfinityRows {
  import opened PyValues
  import opened Text
  import opened SqlText
  import opened SqlTree
  import opened InfinityFilter
  import opened InfinityMeaning
  import opened InfinityDenotation
  import Es = EsTranslate
  import opened PushdownOperands
  import opened MemoryVerdicts

  // ---- Rows ----

  /** What the engine finds in a row under a path: a text, a number, and whether the JSON value there contains, or is,
      the JSON text given. */
  datatype Row = Row(text: string -> Option<string>, number: string -> Option<real>, has: (string, string) -> bool)

  /** The comparison operators on texts, LIKE among them. */
  predicate TextRelation(op: string, s: string, t: string) {
    match op
    case "=" => s == t
    case "!=" => s != t
    case ">" => Less(t, s)
    case "<" => Less(s, t)
    case ">=" => !Less(s, t)
    case "<=" => !Less(t, s)
    case "LIKE" => Like(s, t)
    case _ => false
  }

  /** The comparison operators on numbers. */
  predicate NumberRelation(op: string, x: real, y: real) {
    match op
    case "=" => x == y
    case "!=" => x != y
    case ">" => x > y
    case "<" => x < y
    case ">=" => x >= y
    case "<=" => x <= y
    case _ => false
  }

  /** What one test of the text says of a row; `read` is how the engine reads a number. */
  predicate Holds(read: string -> Option<real>, row: Row, t: Test) {
    match t
    case JsonContains(path, Lit(json)) => row.has(path, json)
    case JsonContains(path, Word(json)) => row.has(path, json)
    case Compare("JSON_EXTRACT_STRING", path, op, Lit(s)) =>
      row.text(path).Some? && TextRelation(op, row.text(path).value, s)
    case Compare("JSON_EXTRACT_DOUBLE", path, op, Word(w)) =>
      row.number(path).Some? && read(w).Some? && NumberRelation(op, row.number(path).value, read(w).value)
    case _ => false
  }

  /** The engine reads a number as it was printed. */
  ghost predicate ReadsNumbers(py: Python, read: string -> Option<real>) {
    forall v :: Numeric(v) ==> read(py.show(v)) == Some(AsNumber(v))
  }

  // ---- What a filter asks of a row ----

  /** The JSON text of a filter value: the number its trimmed text spells, or its text as a JSON string. */
  function JsonOf(py: Python, value: Value): string {
    match py.literal(Strip(StrOf(py, value)))
    case Some(Num(n)) => py.show(Num(n))
    case Some(Bool(b)) => py.show(Bool(b))
    case _ => "\"" + StrOf(py, value) + "\""
  }

  function Trimmed(m: Value): Value {
    if m.Str? then Str(Strip(Lower(m.s))) else m
  }

  ghost predicate Asks(py: Python, row: Row, f: Filter)
    requires f.key.Some?
  {
    var path := "$." + f.key.value;
    match f.op
    case Empty => row.text(path) == Some("\"\"")
    case NotEmpty => row.text(path).Some? && row.text(path) != Some("\"\"")
    case Eq => row.has(path, JsonOf(py, f.value))
    case Ne => !row.has(path, JsonOf(py, f.value))
    case Contains => row.has(path, JsonOf(py, f.value))
    case NotContains => !row.has(path, "\"" + StrOf(py, f.value) + "\"")
    case StartWith => row.text(path).Some? && StartsWith(row.text(path).value, StrOf(py, f.value))
    case EndWith => row.text(path).Some? && EndsWith(row.text(path).value, StrOf(py, f.value))
    case In => exists m :: Wanted(py, f.value, m) && row.has(path, JsonOf(py, Trimmed(m)))
    case NotIn => !exists m :: Wanted(py, f.value, m) && row.has(path, JsonOf(py, Trimmed(m)))
    case _ => AsksRange(py, row, path, f.op, f.value)
  }

  /** The extracted number stands in the relation to the number the trimmed text spells, or the extracted text to the
      text. */
  ghost predicate AsksRange(py: Python, row: Row, path: string, op: Op, value: Value) {
    match py.literal(Strip(StrOf(py, value)))
    case Some(Num(n)) => row.number(path).Some? && NumberHolds(op, row.number(path).value, n)
    case Some(Bool(b)) => row.number(path).Some? && NumberHolds(op, row.number(path).value, AsNumber(Bool(b)))
    case _ => row.text(path).Some? && TextHolds(op, row.text(path).value, StrOf(py, value))
  }

  // ---- The text asks just that ----

  lemma MemberHolds(py: Python, read: string -> Option<real>, row: Row, key: string, v: Value)
    ensures Holds(read, row, ContainsTest(py, key, NumberOrText(py, v))) <==> row.has("$." + key, JsonOf(py, v))
  {
  }

  lemma RangeHolds(py: Python, read: string -> Option<real>, row: Row, op: Op, key: string, v: Value)
    requires ReadsNumbers(py, read) && Ordering(op)
    ensures Holds(read, row, RangeTest(py, op, key, NumberOrText(py, v))) <==> AsksRange(py, row, "$." + key, op, v)
  {
  }

  lemma AffixHolds(read: string -> Option<real>, row: Row, key: string, t: string)
    ensures Holds(read, row, LikeTest(key, EscapeLike(t) + "%"))
            <==> row.text("$." + key).Some? && StartsWith(row.text("$." + key).value, t)
    ensures Holds(read, row, LikeTest(key, "%" + EscapeLike(t)))
            <==> row.text("$." + key).Some? && EndsWith(row.text("$." + key).value, t)
  {
    if row.text("$." + key).Some? {
      LikeRoundTrip(t, [], row.text("$." + key).value);
    }
  }

  lemma MembersHold(py: Python, read: string -> Option<real>, row: Row, key: string, value: Value)
    requires CoerceMembers(py, value).Ok?
    ensures AnyMember(py, t => Holds(read, row, t), key, CoerceMembers(py, value).value)
            <==> exists m :: Wanted(py, value, m) && row.has("$." + key, JsonOf(py, Trimmed(m)))
  {
    var raw := Es.RawMembers(py, value);
    var ms, cs := Es.NormalMembers(raw), CoerceMembers(py, value).value;
    forall m: Value
      ensures m in raw <==> Wanted(py, value, m)
    {
      WantedMembers(py, value, m);
    }
    forall i | 0 <= i < |raw|
      ensures raw[i] in raw && cs[i] in cs
      ensures Holds(read, row, ContainsTest(py, key, cs[i])) <==> row.has("$." + key, JsonOf(py, Trimmed(raw[i])))
    {
      assert ms[i] == Trimmed(raw[i]) && cs[i] == NumberOrText(py, ms[i]);
      MemberHolds(py, read, row, key, ms[i]);
    }
    assert forall m :: m in raw ==> exists i :: 0 <= i < |raw| && raw[i] == m;
    assert forall c :: c in cs ==> exists i :: 0 <= i < |cs| && cs[i] == c;
  }

  /** A filter's meaning in terms of tests is what it asks of the row. */
  lemma MeaningOnRows(py: Python, read: string -> Option<real>, row: Row, f: Filter)
    requires ReadsNumbers(py, read) && FragmentText(py, f).Ok?
    ensures Meaning(py, t => Holds(read, row, t), f) <==> Asks(py, row, f)
  {
    var key := f.key.value;
    match f.op {
      case In => MembersHold(py, read, row, key, f.value);
      case NotIn => MembersHold(py, read, row, key, f.value);
      case Eq => MemberHolds(py, read, row, key, f.value);
      case Ne => MemberHolds(py, read, row, key, f.value);
      case Contains => MemberHolds(py, read, row, key, f.value);
      case NotContains =>
      case StartWith => AffixHolds(read, row, key, StrOf(py, f.value));
      case EndWith => AffixHolds(read, row, key, StrOf(py, f.value));
      case Empty =>
      case NotEmpty =>
      case _ => RangeHolds(py, read, row, f.op, key, f.value);
    }
  }

  /** The built text, read back by the engine, selects exactly the rows of which all, or some, filters are true: a range
      filter compares the extracted number or text with its bound, equality and membership look for the value's JSON
      text, and the affix operators for the text at either end. */
  lemma BuiltTextSelectsRows(py: Python, read: string -> Option<real>, filters: seq<Filter>, fragments: seq<string>,
                             logic: string, row: Row)
    requires SpellsNumbers(py) && ReadsNumbers(py, read) && filters != [] && FragmentsOf(py, filters, fragments)
    ensures forall f :: f in filters ==> f.key.Some?
    ensures var d := Denotation("(" + Join(fragments, Joiner(logic)) + ")");
            && d.Some?
            && (Eval(t => Holds(read, row, t), d.value) <==>
                  if logic == "and" then forall f :: f in filters ==> Asks(py, row, f)
                  else exists f :: f in filters && Asks(py, row, f))
  {
    FilterDenotesFold(py, filters, fragments, logic, t => Holds(read, row, t));
    forall f | f in filters
      ensures f.key.Some? && (Meaning(py, t => Holds(read, row, t), f) <==> Asks(py, row, f))
    {
      MeaningOnRows(py, read, row, f);
    }
  }

  // ---- When a filter has a fragment ----

  /** A key of letters, digits and underscores that does not start with a digit. */
  predicate PlainKey(key: string) {
    key != [] && !Digit(key[0]) && forall i :: 0 <= i < |key| ==> KeyChar(key[i])
  }

  /** The key pattern accepts these, and these with one newline behind them. */
  lemma KeyIff(key: string)
    ensures ValidKey(key) <==>
              PlainKey(key) || (key != [] && key[|key| - 1] == '\n' && PlainKey(key[..|key| - 1]))
  {
    if key != [] && key[|key| - 1] == '\n' && PlainKey(key[..|key| - 1]) {
      var k := key[..|key| - 1];
      assert forall i :: 0 <= i < |k| ==> k[i] == key[i];
      assert KeyChar(k[0]);
    }
    if PlainKey(key) {
      assert KeyChar(key[0]);
    }
  }

  /** A filter has a fragment if and only if its key fits the pattern, its operator is known, and its value is one the
      operator can use. */
  lemma FragmentIff(py: Python, f: Filter)
    ensures FragmentText(py, f).Ok? <==>
              && f.key.Some? && ValidKey(f.key.value)
              && match f.op
                 case Unknown(_) => false
                 case Empty => true
                 case NotEmpty => true
                 case Eq => Scalar(f.value)
                 case Ne => Scalar(f.value)
                 case In => Listable(py, f.value)
                 case NotIn => Listable(py, f.value)
                 case Contains =>
                   !f.value.Null? && f.value != Str("") && f.value != List([]) && f.value != Tuple([])
                 case NotContains => Scalar(f.value) && StrOf(py, f.value) != ""
                 case StartWith => Scalar(f.value) && StrOf(py, f.value) != ""
                 case EndWith => Scalar(f.value) && StrOf(py, f.value) != ""
                 case _ => !f.value.Null?
  {
    if f.op.In? || f.op.NotIn? {
      ListableIff(py, f.value);
    }
  }

  /** There are members, and none is None. */
  ghost predicate Listable(py: Python, value: Value) {
    && !value.Null?
    && (exists m :: Wanted(py, value, m))
    && forall m :: Wanted(py, value, m) ==> !m.Null?
  }

  lemma ListableIff(py: Python, value: Value)
    ensures CoerceMembers(py, value).Ok? <==> Listable(py, value)
  {
    var raw := Es.RawMembers(py, value);
    var ms := Es.NormalMembers(raw);
    forall m: Value
      ensures m in raw <==> Wanted(py, value, m)
    {
      WantedMembers(py, value, m);
    }
    if raw != [] {
      assert raw[0] in raw;
    }
    if m :| m in raw && m.Null? {
      var i :| 0 <= i < |raw| && raw[i] == m;
      assert ms[i] in ms;
    }
    if m :| m in ms && m.Null? {
      var i :| 0 <= i < |ms| && ms[i] == m;
      assert raw[i] in raw;
    }
  }
}
