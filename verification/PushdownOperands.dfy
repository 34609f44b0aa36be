/** What the translated filter asks of a document, in terms of the filter value itself: which literal, text or date it
    is compared with, and on which field. */
module PushdownOperands {
  import opened Text
  import opened PyValues
  import opened MetaFilter
  import opened EsQuery
  import opened EsTranslate
  import opened Pushdown

  // ---- When a filter is translated ----

  /** Members a membership filter asks for: those of a list or tuple, or of one written as text, or the parts of a
      comma-separated text that are not blank; any other value is its own only member. */
  ghost predicate Wanted(py: Python, v: Value, m: Value) {
    match v
    case List(items) => m in items
    case Tuple(items) => m in items
    case Str(s) =>
      (match py.literal(s)
       case Some(List(items)) => m in items
       case Some(Tuple(items)) => m in items
       case _ => exists part :: part in Split(s, ',') && Strip(part) != "" && m == Str(Strip(part)))
    case _ => m == v
  }

  lemma {:induction false} NonBlankParts(parts: seq<string>, m: Value)
    ensures m in NonBlank(parts) <==> exists part :: part in parts && Strip(part) != "" && m == Str(Strip(part))
  {
    if parts != [] {
      NonBlankParts(parts[1..], m);
      assert forall p :: p in parts <==> p == parts[0] || p in parts[1..];
    }
  }

  lemma WantedMembers(py: Python, v: Value, m: Value)
    ensures m in RawMembers(py, v) <==> Wanted(py, v, m)
  {
    if v.Str? {
      WantedOfText(py, v.s, m);
    }
  }

  lemma WantedOfText(py: Python, s: string, m: Value)
    ensures m in RawMembers(py, Str(s)) <==> Wanted(py, Str(s), m)
  {
    NonBlankParts(Split(s, ','), m);
  }

  /** A scalar, as far as the translator looks: no None, list or dictionary. */
  predicate Scalar(v: Value) {
    !v.Null? && !v.List? && !v.Other?
  }

  /** A filter is translated if and only if it has a key, a known operator and a value the operator can use. */
  lemma TranslatedIff(py: Python, f: Filter)
    ensures Translate(py, f).Ok? <==>
              && f.key.Some? && f.key.value != ""
              && match f.op
                 case Unknown(_) => false
                 case Empty => true
                 case NotEmpty => true
                 case Eq => Scalar(f.value)
                 case Ne => Scalar(f.value)
                 case In => !f.value.Null? && exists m :: Wanted(py, f.value, m)
                 case NotIn => !f.value.Null? && exists m :: Wanted(py, f.value, m)
                 case Contains => Scalar(f.value) && StrOf(py, f.value) != ""
                 case NotContains => Scalar(f.value) && StrOf(py, f.value) != ""
                 case StartWith => Scalar(f.value) && StrOf(py, f.value) != ""
                 case EndWith => Scalar(f.value) && StrOf(py, f.value) != ""
                 case _ => !f.value.Null?
  {
    var ms := RawMembers(py, f.value);
    forall m: Value
      ensures m in ms <==> Wanted(py, f.value, m)
    {
      WantedMembers(py, f.value, m);
    }
    if ms != [] {
      assert ms[0] in ms;
    }
  }

  // ---- Equality ----

  /** Some value of the key reads like the text, case folded. */
  ghost predicate Reads(d: Doc, key: string, text: string) {
    exists v :: v in ValuesOf(d, key) && Lower(v) == Lower(text)
  }

  /** What `=` asks: of a date, that it is stored; of a numeric literal, the engine's answer for that number on the
      field itself; of a quoted text, what it quotes; and of everything else, the trimmed text. */
  ghost predicate AsksEqual(py: Python, eng: Analysed, key: string, value: Value, d: Doc) {
    var s := Strip(StrOf(py, value));
    if DateShaped(s) then Reads(d, key, s)
    else match py.literal(s)
      case Some(Num(n)) => eng(Term(Parent(key), Num(n)), d)
      case Some(Bool(b)) => eng(Term(Parent(key), Bool(b)), d)
      case Some(Str(t)) => Reads(d, key, t)
      case _ => Reads(d, key, s)
  }

  lemma FoldedTwice(d: Doc, key: string, text: string)
    ensures Reads(d, key, Lower(text)) <==> Reads(d, key, text)
  {
    LowerIdempotent(text);
  }

  /** `=` and `≠` on one document, for every filter value. */
  lemma EqualAsks(py: Python, eng: Analysed, f: Filter, d: Doc)
    requires Translate(py, f).Ok? && (f.op.Eq? || f.op.Ne?)
    ensures f.op.Eq? ==> (EsAccepts(py, eng, f, d) <==> AsksEqual(py, eng, f.key.value, f.value, d))
    ensures f.op.Ne? ==>
              (EsAccepts(py, eng, f, d)
               <==> ValuesOf(d, f.key.value) != [] && !AsksEqual(py, eng, f.key.value, f.value, d))
  {
    var key, c := f.key.value, CoerceScalar(py, f.value).value;
    TermAsks(py, eng, key, f.value, d);
    if f.op.Eq? {
      PositiveMeaning(eng, TermOrMatch(key, c), d);
    } else {
      NegativeMeaning(eng, key, TermOrMatch(key, c), d);
    }
  }

  lemma TermAsks(py: Python, eng: Analysed, key: string, value: Value, d: Doc)
    requires CoerceScalar(py, value).Ok?
    ensures Accepts(eng, TermOrMatch(key, CoerceScalar(py, value).value), d) <==> AsksEqual(py, eng, key, value, d)
  {
    var s := Strip(StrOf(py, value));
    FoldedTwice(d, key, s);
    if py.literal(s).Some? && py.literal(s).value.Str? {
      FoldedTwice(d, key, py.literal(s).value.s);
    }
  }

  // ---- Ranges ----

  /** The bound: a date or text as it stands, trimmed, or the number the trimmed text spells. */
  function Bound(py: Python, value: Value): Value {
    var s := Strip(StrOf(py, value));
    if DateShaped(s) then Str(s)
    else match py.literal(s)
      case Some(Num(n)) => Num(n)
      case Some(Bool(b)) => Bool(b)
      case _ => Str(s)
  }

  /** A range filter asks for the key and for the engine's answer to the operator and the bound. */
  lemma RangeAsks(py: Python, eng: Analysed, f: Filter, d: Doc)
    requires Translate(py, f).Ok? && (f.op.Gt? || f.op.Lt? || f.op.Ge? || f.op.Le?)
    ensures EsAccepts(py, eng, f, d) <==>
              && ValuesOf(d, f.key.value) != []
              && eng(Range(Parent(f.key.value), f.op, Bound(py, f.value)), d)
  {
    RangeMeaning(py, eng, f, d);
  }

  // ---- Membership ----

  /** One member: a text is looked for among the values, trimmed and folded; anything else is the engine's to answer. */
  ghost predicate AsksMember(eng: Analysed, key: string, m: Value, d: Doc) {
    if m.Str? then Reads(d, key, Strip(m.s)) else eng(Term(Parent(key), m), d)
  }

  lemma MemberAsks(eng: Analysed, key: string, m: Value, d: Doc)
    ensures Accepts(eng, TermOrMatch(key, NormalMember(m)), d) <==> AsksMember(eng, key, m, d)
  {
    if m.Str? {
      MemberTermMeaning(eng, key, m.s, d);
    }
  }

  /** These are the members, no more and no fewer. */
  ghost predicate ListsMembers(py: Python, v: Value, ms: seq<Value>) {
    forall m :: m in ms <==> Wanted(py, v, m)
  }

  lemma RawMembersAsk(eng: Analysed, key: string, raw: seq<Value>, d: Doc)
    requires exists m :: m in raw && m.Str?
    ensures Accepts(eng, TermsStringOrNumeric(key, NormalMembers(raw)), d)
            <==> exists m :: m in raw && AsksMember(eng, key, m, d)
  {
    var ms := NormalMembers(raw);
    var cs := seq(|ms|, i requires 0 <= i < |ms| => TermOrMatch(key, ms[i]));
    SomeStringMember(raw);
    AnyOfMeaning(eng, cs, d);
    if m :| m in raw && AsksMember(eng, key, m, d) {
      var i :| 0 <= i < |raw| && raw[i] == m;
      MemberAsks(eng, key, raw[i], d);
      assert cs[i] in cs;
    }
    if c :| c in cs && Accepts(eng, c, d) {
      var i :| 0 <= i < |cs| && cs[i] == c;
      MemberAsks(eng, key, raw[i], d);
      assert raw[i] in raw;
    }
  }

  /** What membership asks when some member is a string: that one of the members is met. */
  lemma MixedMembersAsk(py: Python, eng: Analysed, key: string, value: Value, d: Doc)
    requires Members(py, value).Ok? && exists m :: Wanted(py, value, m) && m.Str?
    ensures Accepts(eng, TermsStringOrNumeric(key, Members(py, value).value), d)
            <==> exists m :: Wanted(py, value, m) && AsksMember(eng, key, m, d)
  {
    forall m: Value
      ensures m in RawMembers(py, value) <==> Wanted(py, value, m)
    {
      WantedMembers(py, value, m);
    }
    RawMembersAsk(eng, key, RawMembers(py, value), d);
  }

  lemma SomeStringMember(raw: seq<Value>)
    ensures (exists m :: m in raw && m.Str?) <==> exists m :: m in NormalMembers(raw) && m.Str?
  {
    var ms := NormalMembers(raw);
    if m :| m in raw && m.Str? {
      var i :| 0 <= i < |raw| && raw[i] == m;
      assert ms[i] in ms;
    }
    if m :| m in ms && m.Str? {
      var i :| 0 <= i < |ms| && ms[i] == m;
      assert raw[i] in raw;
    }
  }

  /** What it asks when none is: the engine's answer to all members at once, on the field itself. */
  lemma PlainMembersAsk(py: Python, eng: Analysed, key: string, value: Value, d: Doc)
    requires Members(py, value).Ok? && forall m :: Wanted(py, value, m) ==> !m.Str?
    ensures ListsMembers(py, value, Members(py, value).value)
    ensures Accepts(eng, TermsStringOrNumeric(key, Members(py, value).value), d)
            <==> eng(Terms(Parent(key), Members(py, value).value), d)
  {
    var raw := RawMembers(py, value);
    forall m: Value
      ensures m in raw <==> Wanted(py, value, m)
    {
      WantedMembers(py, value, m);
    }
    SomeStringMember(raw);
    assert NormalMembers(raw) == raw;
  }

  /** `in` and `not in` on one document, for every filter value. */
  lemma MembershipAsks(py: Python, eng: Analysed, f: Filter, d: Doc)
    requires Translate(py, f).Ok? && (f.op.In? || f.op.NotIn?)
    ensures var asked := if exists m :: Wanted(py, f.value, m) && m.Str?
                         then exists m :: Wanted(py, f.value, m) && AsksMember(eng, f.key.value, m, d)
                         else eng(Terms(Parent(f.key.value), Members(py, f.value).value), d);
            && (f.op.In? ==> (EsAccepts(py, eng, f, d) <==> asked))
            && (f.op.NotIn? ==> (EsAccepts(py, eng, f, d) <==> ValuesOf(d, f.key.value) != [] && !asked))
    ensures !(exists m :: Wanted(py, f.value, m) && m.Str?) ==> ListsMembers(py, f.value, Members(py, f.value).value)
  {
    var key := f.key.value;
    var c := TermsStringOrNumeric(key, Members(py, f.value).value);
    if m :| Wanted(py, f.value, m) && m.Str? {
      MixedMembersAsk(py, eng, key, f.value, d);
    } else {
      PlainMembersAsk(py, eng, key, f.value, d);
    }
    if f.op.In? {
      PositiveMeaning(eng, c, d);
    } else {
      NegativeMeaning(eng, key, c, d);
    }
  }
}
