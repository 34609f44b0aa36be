/** What the in-memory filter decides, in terms of numbers, dates and texts themselves. */
module MemoryVerdicts {
  import opened Text
  import opened PyValues
  import opened MetaFilter
  import opened EsQuery
  import opened Pushdown

  // ---- Orders ----

  /** `x op y` between numbers. */
  predicate NumberHolds(op: Op, x: real, y: real) {
    match op
    case Gt => x > y
    case Lt => x < y
    case Ge => x >= y
    case Le => x <= y
    case Eq => x == y
    case Ne => x != y
    case _ => false
  }

  /** `s op t` between strings. */
  predicate TextHolds(op: Op, s: string, t: string) {
    match op
    case Gt => Less(t, s)
    case Lt => Less(s, t)
    case Ge => !Less(s, t)
    case Le => !Less(t, s)
    case Eq => s == t
    case Ne => s != t
    case _ => false
  }

  predicate Ordering(op: Op) {
    op.Gt? || op.Lt? || op.Ge? || op.Le?
  }

  /** The interpreter compares numbers by size and strings character by character, and raises on a number and anything
      that is none, and on a string and anything that is none. */
  ghost predicate Ordered(py: Python) {
    && (forall op: Op, a, b :: Ordering(op) && Numeric(a) && Numeric(b) ==>
          py.compare(op, a, b) == Some(NumberHolds(op, AsNumber(a), AsNumber(b))))
    && (forall op: Op, s, t :: Ordering(op) ==> py.compare(op, Str(s), Str(t)) == Some(TextHolds(op, s, t)))
    && (forall op: Op, a, b :: Ordering(op) && (Numeric(a) != Numeric(b) || a.Str? != b.Str?) ==>
          py.compare(op, a, b) == None)
  }

  // ---- Dates ----

  function DigitOf(c: char): int {
    c as int - '0' as int
  }

  /** The day a date names, as year, month and day written side by side. */
  function DateNumber(s: string): int
    requires DateShaped(s)
  {
    10000000 * DigitOf(s[0]) + 1000000 * DigitOf(s[1]) + 100000 * DigitOf(s[2]) + 10000 * DigitOf(s[3])
    + 1000 * DigitOf(s[5]) + 100 * DigitOf(s[6]) + 10 * DigitOf(s[8]) + DigitOf(s[9])
  }

  /** `s op t` between dates. */
  predicate DateHolds(op: Op, s: string, t: string)
    requires DateShaped(s) && DateShaped(t)
  {
    NumberHolds(op, DateNumber(s) as real, DateNumber(t) as real)
  }

  /** The first character in which two strings differ decides. */
  lemma {:induction false} FirstDifference(a: string, b: string, k: nat)
    requires k < |a| && k < |b| && a[..k] == b[..k] && a[k] != b[k]
    ensures Less(a, b) <==> a[k] < b[k]
  {
    if k > 0 {
      assert a[0] == a[..k][0] && b[0] == b[..k][0];
      assert a[1..][..k - 1] == a[..k][1..] && b[1..][..k - 1] == b[..k][1..];
      FirstDifference(a[1..], b[1..], k - 1);
    }
  }

  lemma DateParts(s: string)
    requires DateShaped(s)
    ensures 0 <= DigitOf(s[0]) <= 9 && 0 <= DigitOf(s[1]) <= 9 && 0 <= DigitOf(s[2]) <= 9 && 0 <= DigitOf(s[3]) <= 9
    ensures 0 <= DigitOf(s[5]) <= 9 && 0 <= DigitOf(s[6]) <= 9 && 0 <= DigitOf(s[8]) <= 9 && 0 <= DigitOf(s[9]) <= 9
  {
  }

  lemma DifferAt(s: string, t: string, k: nat)
    requires DateShaped(s) && DateShaped(t) && k < 10 && s[..k] == t[..k] && s[k] != t[k]
    ensures DateNumber(s) < DateNumber(t) <==> s[k] < t[k]
    ensures DateNumber(s) != DateNumber(t)
  {
    DateParts(s);
    DateParts(t);
    assert k != 4 && k != 7;
    assert forall i :: 0 <= i < k ==> s[..k][i] == s[i] && t[..k][i] == t[i];
  }

  lemma {:induction false} DiffersFrom(s: string, t: string, from: nat) returns (k: nat)
    requires |s| == |t| == 10 && from <= 10 && s[..from] == t[..from] && s != t
    ensures k < 10 && s[..k] == t[..k] && s[k] != t[k]
    decreases 10 - from
  {
    if from == 10 {
      assert false;
    } else if s[from] != t[from] {
      k := from;
    } else {
      assert s[..from + 1] == s[..from] + [s[from]] && t[..from + 1] == t[..from] + [t[from]];
      k := DiffersFrom(s, t, from + 1);
    }
  }

  /** Comparing dates as strings is comparing days. */
  lemma DatesCompareAsDays(op: Op, s: string, t: string)
    requires DateShaped(s) && DateShaped(t)
    ensures TextHolds(op, s, t) <==> DateHolds(op, s, t)
  {
    LessIsTotal(s, t);
    if s != t {
      var k := DiffersFrom(s, t, 0);
      FirstDifference(s, t, k);
      FirstDifference(t, s, k);
      DifferAt(s, t, k);
      DifferAt(t, s, k);
    }
  }

  // ---- One stored value ----

  /** A comparison with a numeric literal: stored numeric literals are compared as numbers, other literals differ and
      cannot be ordered, and a stored text that is no literal is compared as text, as the user wrote the number. */
  predicate AgainstNumber(py: Python, op: Op, v: string, s: string, n: Value)
    requires Numeric(n)
  {
    match py.literal(v)
    case Some(m) => if Numeric(m) then NumberHolds(op, AsNumber(m), AsNumber(n)) else op.Ne?
    case None => TextHolds(op, Lower(v), Lower(s))
  }

  lemma NumberVerdict(py: Python, op: Op, v: string, s: string)
    requires Ordered(py) && Comparison(op) && !DateShaped(Strip(s))
    requires py.literal(s).Some? && Numeric(py.literal(s).value)
    ensures BucketMatches(py, op, v, Str(s)) <==> AgainstNumber(py, op, v, s, py.literal(s).value)
  {
    SameStringBoth(Lower(v), Lower(s));
  }

  lemma SameStringBoth(a: string, b: string)
    ensures Same(Str(a), Str(b)) <==> a == b
  {
  }

  /** A comparison with a date: stored dates, trimmed, are compared by day, and nothing else matches. */
  predicate AgainstDate(op: Op, v: string, date: string)
    requires DateShaped(date)
  {
    DateShaped(Strip(v)) && DateHolds(op, Strip(v), date)
  }

  lemma DateVerdict(py: Python, op: Op, v: string, value: Value)
    requires Ordered(py) && Comparison(op) && DateShaped(Strip(StrOf(py, value)))
    ensures BucketMatches(py, op, v, value) <==> AgainstDate(op, v, Strip(StrOf(py, value)))
  {
    var date := Strip(StrOf(py, value));
    SameStringBoth(Strip(v), date);
    if DateShaped(Strip(v)) {
      DatesCompareAsDays(op, Strip(v), date);
    }
  }

  /** A comparison with a text that is no literal and no date: stored values are compared as texts, case folded. */
  lemma TextVerdict(py: Python, op: Op, v: string, s: string)
    requires Ordered(py) && Comparison(op) && !DateShaped(Strip(s)) && py.literal(s).None?
    ensures BucketMatches(py, op, v, Str(s)) <==> TextHolds(op, Lower(v), Lower(s))
  {
    SameStringBoth(Lower(v), Lower(s));
  }

  /** A comparison with a quoted text: quoted stored texts are compared by what they quote, other literals differ and
      cannot be ordered, and a stored text that is no literal is compared with the quoted text as it was written. */
  predicate AgainstQuoted(py: Python, op: Op, v: string, s: string, t: string) {
    match py.literal(v)
    case Some(m) => if m.Str? then TextHolds(op, Lower(m.s), Lower(t)) else op.Ne?
    case None => TextHolds(op, Lower(v), Lower(s))
  }

  lemma QuotedVerdict(py: Python, op: Op, v: string, s: string)
    requires Ordered(py) && Comparison(op) && !DateShaped(Strip(s))
    requires py.literal(s).Some? && py.literal(s).value.Str?
    ensures BucketMatches(py, op, v, Str(s)) <==> AgainstQuoted(py, op, v, s, py.literal(s).value.s)
  {
    SameStringBoth(Lower(v), Lower(s));
  }

  /** A comparison with a filter value that is a number itself, not a text: no stored text is equal to it or ordered
      beside it. */
  lemma BareNumberVerdict(py: Python, op: Op, v: string, n: Value)
    requires Ordered(py) && Comparison(op) && Numeric(n) && !DateShaped(Strip(StrOf(py, n)))
    ensures BucketMatches(py, op, v, n) <==> op.Ne?
  {
  }

  /** The operators on texts, case folded. */
  lemma TextOperators(py: Python, v: string, s: string)
    ensures BucketMatches(py, Contains, v, Str(s)) <==> Occurs(Lower(s), Lower(v))
    ensures BucketMatches(py, NotContains, v, Str(s)) <==> !Occurs(Lower(s), Lower(v))
    ensures BucketMatches(py, StartWith, v, Str(s)) <==> StartsWith(Lower(v), Lower(s))
    ensures BucketMatches(py, EndWith, v, Str(s)) <==> EndsWith(Lower(v), Lower(s))
    ensures BucketMatches(py, In, v, Str(s)) <==> Occurs(Lower(v), Lower(s))
    ensures BucketMatches(py, NotIn, v, Str(s)) <==> !Occurs(Lower(v), Lower(s))
  {
    LowerIdempotent(v);
    LowerIdempotent(s);
  }

  /** Emptiness looks at the stored text only. */
  lemma EmptinessVerdict(py: Python, v: string, value: Value)
    ensures BucketMatches(py, Empty, v, value) <==> v == ""
    ensures BucketMatches(py, NotEmpty, v, value) <==> v != ""
  {
    assert Lower(v) == "" <==> v == "";
  }

  /** Some member of the list reads like the value, case folded. */
  predicate InList(items: seq<Value>, v: string) {
    exists m :: m in items && m.Str? && Lower(m.s) == Lower(v)
  }

  /** Membership in a list folds case on both sides, in a tuple on one; members that are no strings match nothing. */
  lemma MembershipVerdict(py: Python, v: string, items: seq<Value>)
    ensures BucketMatches(py, In, v, List(items)) <==> InList(items, v)
    ensures BucketMatches(py, NotIn, v, List(items)) <==> !InList(items, v)
    ensures BucketMatches(py, In, v, Tuple(items)) <==> Str(Lower(v)) in items
    ensures BucketMatches(py, NotIn, v, Tuple(items)) <==> Str(Lower(v)) !in items
  {
    var low := LowerStrings(List(items)).items;
    forall k | 0 <= k < |items|
      ensures items[k] in items
      ensures Same(low[k], Str(Lower(v))) <==> items[k].Str? && Lower(items[k].s) == Lower(v)
      ensures Same(items[k], Str(Lower(v))) <==> items[k] == Str(Lower(v))
    {
      SameString(Lower(v), low[k]);
      SameString(Lower(v), items[k]);
    }
    assert forall m :: m in items ==> exists k :: 0 <= k < |items| && items[k] == m;
  }

  /** Everything else raises: a member that is no string in a text, a value that is no collection. */
  lemma NoMatchOtherwise(py: Python, v: string, value: Value)
    requires !value.Str?
    ensures !BucketMatches(py, Contains, v, value) && !BucketMatches(py, NotContains, v, value)
    ensures !value.List? && !value.Tuple? ==> !BucketMatches(py, In, v, value) && !BucketMatches(py, NotIn, v, value)
    ensures forall name :: !BucketMatches(py, Unknown(name), v, value)
  {
  }

  // ---- Documents ----

  /** Some document of the knowledge bases with this id carries a value of the key that passes. */
  ghost predicate CarriesSome(docs: seq<Doc>, kbIds: seq<string>, key: string, id: string, test: string -> bool) {
    exists d, v :: d in docs && d.kb in kbIds && d.id == id && v in ValuesOf(d, key) && test(v)
  }

  lemma SelectedByValue(py: Python, docs: seq<Doc>, kbIds: seq<string>, metas: Metas, f: Filter, logic: string,
                        id: string, test: string -> bool)
    requires Flattens(docs, kbIds, metas) && f.key.Some?
    requires forall v: string :: BucketMatches(py, f.op, v, f.value) <==> test(v)
    ensures Selected(py, metas, [f], logic, id) <==> CarriesSome(docs, kbIds, f.key.value, id, test)
  {
    HitIsPerDocument(py, docs, kbIds, metas, f, id);
    assert f in [f];
  }

  /** `=`, `≠`, `>`, `<`, `≥` and `≤` with a number: the filter selects the documents of which some value stands in the
      operator's relation to the number. */
  lemma NumberFilterSelects(py: Python, docs: seq<Doc>, kbIds: seq<string>, metas: Metas, f: Filter, logic: string,
                            id: string)
    requires Ordered(py) && Flattens(docs, kbIds, metas) && f.key.Some? && Comparison(f.op)
    requires f.value.Str? && py.literal(f.value.s).Some? && Numeric(py.literal(f.value.s).value)
    requires !DateShaped(Strip(f.value.s))
    ensures Selected(py, metas, [f], logic, id)
            <==> CarriesSome(docs, kbIds, f.key.value, id,
                             v => AgainstNumber(py, f.op, v, f.value.s, py.literal(f.value.s).value))
  {
    forall v: string
      ensures BucketMatches(py, f.op, v, f.value)
              <==> AgainstNumber(py, f.op, v, f.value.s, py.literal(f.value.s).value)
    {
      NumberVerdict(py, f.op, v, f.value.s);
    }
    SelectedByValue(py, docs, kbIds, metas, f, logic, id,
                    v => AgainstNumber(py, f.op, v, f.value.s, py.literal(f.value.s).value));
  }

  /** The same with a date: the documents of which some trimmed value is a date that stands in the relation to it. */
  lemma DateFilterSelects(py: Python, docs: seq<Doc>, kbIds: seq<string>, metas: Metas, f: Filter, logic: string,
                          id: string)
    requires Ordered(py) && Flattens(docs, kbIds, metas) && f.key.Some? && Comparison(f.op)
    requires DateShaped(Strip(StrOf(py, f.value)))
    ensures Selected(py, metas, [f], logic, id)
            <==> CarriesSome(docs, kbIds, f.key.value, id, v => AgainstDate(f.op, v, Strip(StrOf(py, f.value))))
  {
    forall v: string
      ensures BucketMatches(py, f.op, v, f.value) <==> AgainstDate(f.op, v, Strip(StrOf(py, f.value)))
    {
      DateVerdict(py, f.op, v, f.value);
    }
    SelectedByValue(py, docs, kbIds, metas, f, logic, id, v => AgainstDate(f.op, v, Strip(StrOf(py, f.value))));
  }

  /** A text that is no literal is not left out by `> 3`: it is compared with the text of the number. */
  lemma TextPassesNumberExample(py: Python)
    requires Ordered(py) && py.literal("3") == Some(Num(3.0)) && py.literal("draft").None?
    ensures BucketMatches(py, Gt, "draft", Str("3"))
  {
    StripShort("3");
    NumberVerdict(py, Gt, "draft", "3");
    assert Lower("3")[0] == '3' && Lower("draft")[0] == 'd';
  }

  lemma StripShort(s: string)
    requires |s| < 10
    ensures !DateShaped(Strip(s))
  {
    var a, b := StripIsExact(s, WHITESPACE);
    assert |s| == |a| + |Strip(s)| + |b|;
  }
}
