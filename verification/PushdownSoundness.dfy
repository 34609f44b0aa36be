/** When every document a pushed-down query finds is one the in-memory filter selects, filter by filter and exactly. */
module PushdownSoundness {
  import opened Text
  import opened PyValues
  import opened MetaFilter
  import opened EsQuery
  import opened EsTranslate
  import opened Pushdown
  import opened PushdownAgreement

  /** The push-down accepts no document that the in-memory test rejects. */
  ghost predicate NeverWrong(py: Python, eng: Analysed, f: Filter)
    requires Translate(py, f).Ok?
  {
    forall d: Doc :: EsAccepts(py, eng, f, d) ==> MemAccepts(py, f, d)
  }

  /** Some member reads `t` once it is trimmed and folded. */
  predicate Listed(ms: seq<Value>, t: string) {
    exists m :: m in ms && m.Str? && Lower(Strip(m.s)) == t
  }

  /** Some member reads `t` once it is folded; only the push-down trims. */
  predicate ListedUntrimmed(ms: seq<Value>, t: string) {
    exists m :: m in ms && m.Str? && Lower(m.s) == t
  }

  /** What the filter's value must satisfy, operator by operator. A tuple is not folded in memory. */
  ghost predicate OneSided(py: Python, f: Filter) {
    match f.op
    case Contains => f.value.Str?
    case NotContains => f.value.Str?
    case StartWith => true
    case EndWith => true
    case NotEmpty => true
    case Eq => f.value.Str? && (DateShaped(Strip(f.value.s)) || Trimmed(f.value.s))
    case Ne => f.value.Str? && !DateShaped(Strip(f.value.s)) && Trimmed(f.value.s)
    case In => OneSidedIn(py, f.value)
    case NotIn => OneSidedNotIn(py, f.value)
    case _ => false
  }

  /** `in`: memory accepts every trimmed member. */
  ghost predicate OneSidedIn(py: Python, v: Value) {
    match v
    case List(items) => MembersAccepted(items, InList(items))
    case Tuple(items) => MembersAccepted(items, InTuple(items))
    case Str(s) => MembersAccepted(RawMembers(py, v), InText(s))
    case _ => false
  }

  ghost predicate MembersAccepted(raw: seq<Value>, inMemory: string -> bool) {
    forall m :: m in raw && m.Str? ==> inMemory(Lower(Strip(m.s)))
  }

  /** What memory accepts of the folded values: from a list, from a tuple, which is not folded, and from a text. */
  ghost function InList(items: seq<Value>): string -> bool {
    t => ListedUntrimmed(items, t)
  }

  ghost function InTuple(items: seq<Value>): string -> bool {
    t => Str(t) in items
  }

  ghost function InText(s: string): string -> bool {
    t => Occurs(t, Lower(s))
  }

  /** `not in`: everything memory accepts under `in` is a trimmed member. */
  ghost predicate OneSidedNotIn(py: Python, v: Value) {
    match v
    case List(items) => forall m :: m in items && m.Str? ==> Listed(items, Lower(m.s))
    case Tuple(items) => forall m :: m in items && m.Str? && Lower(m.s) == m.s ==> Listed(items, m.s)
    case Str(s) => PartsListed(RawMembers(py, v), s)
    case _ => false
  }

  /** Every part of the folded text is a trimmed member. */
  ghost predicate PartsListed(raw: seq<Value>, s: string) {
    forall i, j :: 0 <= i <= j <= |s| ==> Listed(raw, Lower(s)[i..j])
  }

  // ---- From documents to values ----

  ghost predicate ValuewiseSound(py: Python, f: Filter) {
    forall v: string :: ValueTest(py, f, v) != Negated(f.op) ==> BucketMatches(py, f.op, v, f.value)
  }

  /** Documents with one value decide. */
  lemma SoundByValues(py: Python, eng: Analysed, f: Filter)
    requires KeywordOnly(py, f)
    ensures Translate(py, f).Ok?
    ensures NeverWrong(py, eng, f) <==> ValuewiseSound(py, f)
  {
    EsMeaning(py, eng, f, DocWith(f.key.value, []));
    if NeverWrong(py, eng, f) {
      forall v: string | ValueTest(py, f, v) != Negated(f.op)
        ensures BucketMatches(py, f.op, v, f.value)
      {
        var d := DocWith(f.key.value, [v]);
        EsMeaning(py, eng, f, d);
        assert ValuesOf(d, f.key.value) == [v] && v in ValuesOf(d, f.key.value);
        assert EsAccepts(py, eng, f, d);
      }
    }
    if ValuewiseSound(py, f) {
      forall d: Doc
        ensures EsAccepts(py, eng, f, d) ==> MemAccepts(py, f, d)
      {
        SoundOnDocument(py, eng, f, d);
      }
    }
  }

  lemma SoundOnDocument(py: Python, eng: Analysed, f: Filter, d: Doc)
    requires KeywordOnly(py, f) && ValuewiseSound(py, f)
    ensures Translate(py, f).Ok?
    ensures EsAccepts(py, eng, f, d) ==> MemAccepts(py, f, d)
  {
    EsMeaning(py, eng, f, d);
    var vs := ValuesOf(d, f.key.value);
    if EsAccepts(py, eng, f, d) {
      if Negated(f.op) {
        assert vs[0] in vs && !ValueTest(py, f, vs[0]);
      }
    }
  }

  // ---- Operator by operator ----

  lemma ContainsSoundIff(py: Python, f: Filter)
    requires KeywordOnly(py, f) && (f.op.Contains? || f.op.NotContains?)
    ensures ValuewiseSound(py, f) <==> f.value.Str?
  {
    var t := StrOf(py, f.value);
    if f.value.Str? {
      forall v: string
        ensures ValueTest(py, f, v) != Negated(f.op) ==> BucketMatches(py, f.op, v, f.value)
      {
        BucketAgrees(py, f, v);
      }
    } else {
      var v := if f.op.Contains? then t else "";
      assert OccursAt(Lower(t), Lower(t), 0);
      assert ValueTest(py, f, v) != Negated(f.op) && !BucketMatches(py, f.op, v, f.value);
    }
  }

  lemma AffixIsSound(py: Python, f: Filter)
    requires KeywordOnly(py, f) && (f.op.StartWith? || f.op.EndWith? || f.op.NotEmpty?)
    ensures ValuewiseSound(py, f)
  {
    forall v: string
      ensures ValueTest(py, f, v) != Negated(f.op) ==> BucketMatches(py, f.op, v, f.value)
    {
      BucketAgrees(py, f, v);
    }
  }

  lemma EqualSoundIff(py: Python, f: Filter)
    requires KeywordOnly(py, f) && f.op.Eq?
    ensures ValuewiseSound(py, f) <==> DateShaped(Strip(f.value.s)) || Trimmed(f.value.s)
  {
    var s := f.value.s;
    var t := Strip(s);
    TrimmedIsFixed(s);
    if DateShaped(t) {
      forall v: string | ValueTest(py, f, v)
        ensures BucketMatches(py, f.op, v, f.value)
      {
        LowerDate(v, t);
        TrimmedIsFixed(t);
        SameString(t, Str(t));
      }
    } else if Trimmed(s) {
      forall v: string | ValueTest(py, f, v)
        ensures BucketMatches(py, f.op, v, f.value)
      {
        SameString(Lower(s), Str(Lower(v)));
      }
    } else {
      FoldedApart(s);
      SameString(Lower(t), Str(Lower(s)));
      assert ValueTest(py, f, t) && !BucketMatches(py, f.op, t, f.value);
    }
  }

  /** Trimming what is not trimmed shows even when case is folded. */
  lemma FoldedApart(s: string)
    requires !Trimmed(s)
    ensures Lower(Strip(s)) != Lower(s)
  {
    StripLower(s);
    LowerKeepsTrimming(s);
    TrimmedIsFixed(Lower(s));
  }

  lemma {:induction false} SameAsItself(v: Value)
    ensures Same(v, v)
  {
    if v.List? || v.Tuple? {
      forall i | 0 <= i < |v.items|
        ensures Same(v.items[i], v.items[i])
      {
        SameAsItself(v.items[i]);
      }
    }
  }

  lemma NotEqualSoundIff(py: Python, f: Filter)
    requires KeywordOnly(py, f) && f.op.Ne?
    ensures ValuewiseSound(py, f) <==> !DateShaped(Strip(f.value.s)) && Trimmed(f.value.s)
  {
    var s := f.value.s;
    var t := Strip(s);
    TrimmedIsFixed(s);
    if DateShaped(t) {
      assert |Strip("")| == 0;
      assert !ValueTest(py, f, "") && !BucketMatches(py, f.op, "", f.value);
    } else if Trimmed(s) {
      forall v: string | !ValueTest(py, f, v)
        ensures BucketMatches(py, f.op, v, f.value)
      {
        SameString(Lower(s), Str(Lower(v)));
      }
    } else {
      FoldedApart(s);
      var p := Parsed(py, s, f.value);
      SameAsItself(LowerIfString(p.0));
      assert !ValueTest(py, f, s) && !BucketMatches(py, f.op, s, f.value);
    }
  }

  /** Membership in terms of what the folded value reads. */
  ghost predicate MembersRead(py: Python, f: Filter, inMemory: string -> bool) {
    && (forall v: string :: ValueTest(py, f, v) <==> Listed(RawMembers(py, f.value), Lower(v)))
    && (forall v: string :: BucketMatches(py, f.op, v, f.value) <==> (inMemory(Lower(v)) != f.op.NotIn?))
  }

  ghost predicate ReadsAccepted(raw: seq<Value>, inMemory: string -> bool) {
    forall v: string :: Listed(raw, Lower(v)) ==> inMemory(Lower(v))
  }

  ghost predicate AcceptedListed(raw: seq<Value>, inMemory: string -> bool) {
    forall v: string :: inMemory(Lower(v)) ==> Listed(raw, Lower(v))
  }

  lemma EveryMemberDecides(raw: seq<Value>, inMemory: string -> bool)
    ensures ReadsAccepted(raw, inMemory) <==> MembersAccepted(raw, inMemory)
  {
    forall m | m in raw && m.Str?
      ensures Listed(raw, Lower(Strip(m.s)))
    {
    }
    if v: string :| Listed(raw, Lower(v)) && !inMemory(Lower(v)) {
      var m :| m in raw && m.Str? && Lower(Strip(m.s)) == Lower(v);
      assert !inMemory(Lower(Strip(m.s)));
    }
  }

  /** Under `in` every trimmed member must be accepted in memory. */
  lemma InSoundIff(py: Python, f: Filter, inMemory: string -> bool)
    requires f.op.In? && MembersRead(py, f, inMemory)
    ensures ValuewiseSound(py, f) <==> ReadsAccepted(RawMembers(py, f.value), inMemory)
  {
    forall v: string
      ensures (ValueTest(py, f, v) ==> BucketMatches(py, f.op, v, f.value))
              <==> (Listed(RawMembers(py, f.value), Lower(v)) ==> inMemory(Lower(v)))
    {
    }
  }

  /** Under `not in` everything accepted in memory must be a trimmed member. */
  lemma NotInSoundIff(py: Python, f: Filter, inMemory: string -> bool)
    requires f.op.NotIn? && MembersRead(py, f, inMemory)
    ensures ValuewiseSound(py, f) <==> AcceptedListed(RawMembers(py, f.value), inMemory)
  {
    forall v: string
      ensures (!ValueTest(py, f, v) ==> BucketMatches(py, f.op, v, f.value))
              <==> (inMemory(Lower(v)) ==> Listed(RawMembers(py, f.value), Lower(v)))
    {
    }
  }

  lemma ListReads(py: Python, f: Filter)
    requires KeywordOnly(py, f) && (f.op.In? || f.op.NotIn?) && f.value.List?
    ensures MembersRead(py, f, InList(f.value.items))
  {
    forall v: string
      ensures ValueTest(py, f, v) <==> Listed(f.value.items, Lower(v))
      ensures BucketMatches(py, f.op, v, f.value) <==> (ListedUntrimmed(f.value.items, Lower(v)) != f.op.NotIn?)
    {
      ListMembership(f.value.items, v);
    }
  }

  lemma InListSoundIff(py: Python, f: Filter)
    requires KeywordOnly(py, f) && (f.op.In? || f.op.NotIn?) && f.value.List?
    ensures f.op.In? ==> (ValuewiseSound(py, f) <==> OneSidedIn(py, f.value))
    ensures f.op.NotIn? ==> (ValuewiseSound(py, f) <==> OneSidedNotIn(py, f.value))
  {
    var items := f.value.items;
    ListReads(py, f);
    if f.op.In? {
      InSoundIff(py, f, InList(items));
      EveryMemberDecides(items, InList(items));
    } else {
      NotInSoundIff(py, f, InList(items));
      ListedBothWays(items);
    }
  }

  lemma ListedBothWays(items: seq<Value>)
    ensures AcceptedListed(items, InList(items))
            <==> (forall m :: m in items && m.Str? ==> Listed(items, Lower(m.s)))
  {
    if AcceptedListed(items, InList(items)) {
      forall m | m in items && m.Str?
        ensures Listed(items, Lower(m.s))
      {
        assert InList(items)(Lower(m.s));
      }
    }
  }

  lemma TupleReads(py: Python, f: Filter)
    requires KeywordOnly(py, f) && (f.op.In? || f.op.NotIn?) && f.value.Tuple?
    ensures MembersRead(py, f, InTuple(f.value.items))
  {
    forall v: string
      ensures ValueTest(py, f, v) <==> Listed(f.value.items, Lower(v))
      ensures BucketMatches(py, f.op, v, f.value) <==> ((Str(Lower(v)) in f.value.items) != f.op.NotIn?)
    {
      TupleMembership(f.value.items, Lower(v));
    }
  }

  lemma TupleMembership(items: seq<Value>, t: string)
    ensures (exists k :: 0 <= k < |items| && Same(items[k], Str(t))) <==> Str(t) in items
  {
    forall k | 0 <= k < |items|
      ensures Same(items[k], Str(t)) <==> items[k] == Str(t)
    {
      SameString(t, items[k]);
    }
  }

  lemma InTupleSoundIff(py: Python, f: Filter)
    requires KeywordOnly(py, f) && (f.op.In? || f.op.NotIn?) && f.value.Tuple?
    ensures f.op.In? ==> (ValuewiseSound(py, f) <==> OneSidedIn(py, f.value))
    ensures f.op.NotIn? ==> (ValuewiseSound(py, f) <==> OneSidedNotIn(py, f.value))
  {
    var items := f.value.items;
    TupleReads(py, f);
    if f.op.In? {
      InSoundIff(py, f, InTuple(items));
      EveryMemberDecides(items, InTuple(items));
    } else {
      NotInSoundIff(py, f, InTuple(items));
      TupleBothWays(items);
    }
  }

  lemma TupleBothWays(items: seq<Value>)
    ensures AcceptedListed(items, InTuple(items))
            <==> (forall m :: m in items && m.Str? && Lower(m.s) == m.s ==> Listed(items, m.s))
  {
    if forall m :: m in items && m.Str? && Lower(m.s) == m.s ==> Listed(items, m.s) {
      forall v: string | Str(Lower(v)) in items
        ensures Listed(items, Lower(v))
      {
        LowerIdempotent(v);
        assert Str(Lower(v)).s == Lower(v);
      }
    }
  }

  lemma TextReads(py: Python, f: Filter)
    requires KeywordOnly(py, f) && (f.op.In? || f.op.NotIn?) && f.value.Str?
    ensures MembersRead(py, f, InText(f.value.s))
  {
    forall v: string
      ensures ValueTest(py, f, v) <==> Listed(RawMembers(py, f.value), Lower(v))
      ensures BucketMatches(py, f.op, v, f.value) <==> (Occurs(Lower(v), Lower(f.value.s)) != f.op.NotIn?)
    {
    }
  }

  lemma InTextSoundIff(py: Python, f: Filter)
    requires KeywordOnly(py, f) && (f.op.In? || f.op.NotIn?) && f.value.Str?
    ensures ValuewiseSound(py, f) <==> OneSided(py, f)
  {
    var s := f.value.s;
    TextReads(py, f);
    if f.op.In? {
      InSoundIff(py, f, InText(s));
      EveryMemberDecides(RawMembers(py, f.value), InText(s));
    } else {
      NotInSoundIff(py, f, InText(s));
      TextBothWays(RawMembers(py, f.value), s);
    }
  }

  lemma TextBothWays(raw: seq<Value>, s: string)
    ensures AcceptedListed(raw, InText(s)) <==> PartsListed(raw, s)
  {
    if AcceptedListed(raw, InText(s)) {
      forall i, j | 0 <= i <= j <= |s|
        ensures Listed(raw, Lower(s)[i..j])
      {
        PartIsAccepted(s, i, j);
      }
    }
    if PartsListed(raw, s) {
      forall v: string | InText(s)(Lower(v))
        ensures Listed(raw, Lower(v))
      {
        var i, j := PartOf(Lower(v), Lower(s));
      }
    }
  }

  lemma PartIsAccepted(s: string, i: nat, j: nat)
    requires i <= j <= |s|
    ensures var v := Lower(s)[i..j]; Lower(v) == v && InText(s)(v)
  {
    PartIsFolded(s, i, j);
    assert OccursAt(Lower(s)[i..j], Lower(s), i);
  }

  lemma PartOf(t: string, s: string) returns (i: nat, j: nat)
    requires Occurs(t, s)
    ensures i <= j <= |s| && s[i..j] == t
  {
    i :| i <= |s| - |t| && OccursAt(t, s, i);
    j := i + |t|;
  }

  lemma PartIsFolded(s: string, i: nat, j: nat)
    requires i <= j <= |s|
    ensures Lower(Lower(s)[i..j]) == Lower(s)[i..j]
  {
    LowerIdempotent(s);
    var t := Lower(s);
    forall k | 0 <= k < j - i
      ensures LowerChar(t[i..j][k]) == t[i..j][k]
    {
      assert Lower(t)[i + k] == LowerChar(t[i + k]);
    }
  }

  /** One-sidedness, exactly: for every filter that reaches the keyword sub-field as plain text, the push-down accepts
      no document that the in-memory test rejects if and only if the filter's value satisfies the condition of the
      operator. */
  lemma OneSidedIff(py: Python, eng: Analysed, f: Filter)
    requires KeywordOnly(py, f)
    ensures Translate(py, f).Ok?
    ensures NeverWrong(py, eng, f) <==> OneSided(py, f)
  {
    SoundByValues(py, eng, f);
    match f.op {
      case Contains => ContainsSoundIff(py, f);
      case NotContains => ContainsSoundIff(py, f);
      case StartWith => AffixIsSound(py, f);
      case EndWith => AffixIsSound(py, f);
      case NotEmpty => AffixIsSound(py, f);
      case Eq => EqualSoundIff(py, f);
      case Ne => NotEqualSoundIff(py, f);
      case _ =>
        if f.value.List? {
          InListSoundIff(py, f);
        } else if f.value.Tuple? {
          InTupleSoundIff(py, f);
        } else {
          InTextSoundIff(py, f);
        }
    }
  }

  /** A comma-separated text is one-sided under `in` and never under `not in`. */
  lemma CommaTextIsOneSided(py: Python, v: Value)
    requires CommaText(py, v)
    ensures OneSidedIn(py, v) && !OneSidedNotIn(py, v)
  {
    forall m | m in RawMembers(py, v) && m.Str?
      ensures Occurs(Lower(Strip(m.s)), Lower(v.s))
    {
      ListedPartOccurs(v.s, Strip(m.s));
    }
    NoBlankMember(Split(v.s, ','));
    assert Lower(v.s)[0..0] == "";
    assert !Listed(RawMembers(py, v), Lower(v.s)[0..0]);
  }

  /** `not contains 5` with the number 5: the query finds the value `a`, in memory nothing matches. */
  lemma NotContainsNumberExample(py: Python, eng: Analysed)
    requires py.show(Num(5.0)) == "5"
    ensures var f := Filter(NotContains, Some("tag"), Num(5.0));
            && Translate(py, f).Ok? && EsAccepts(py, eng, f, DocWith("tag", ["a"]))
            && forall d: Doc :: !MemAccepts(py, f, d)
  {
    var f, d := Filter(NotContains, Some("tag"), Num(5.0)), DocWith("tag", ["a"]);
    EsMeaning(py, eng, f, d);
    assert ValuesOf(d, "tag") == ["a"];
    assert Lower("a") == ['a'] && Lower("5") == ['5'];
    assert !Occurs(Lower("5"), Lower("a"));
  }

  /** Both verdicts of `not in` with a comma-separated text on a document with one value. */
  lemma NotInTextVerdicts(py: Python, eng: Analysed, f: Filter, v: string)
    requires f.op.NotIn? && KeywordOnly(py, f) && CommaText(py, f.value)
    ensures Translate(py, f).Ok?
    ensures EsAccepts(py, eng, f, DocWith(f.key.value, [v])) <==> !InMembers(NonBlank(Split(f.value.s, ',')), v)
    ensures MemAccepts(py, f, DocWith(f.key.value, [v])) <==> !Occurs(Lower(v), Lower(f.value.s))
  {
    var d := DocWith(f.key.value, [v]);
    EsMeaning(py, eng, f, d);
    assert ValuesOf(d, f.key.value) == [v] && v in [v] && forall x :: x in [v] ==> x == v;
  }

  const NOT_IN_ABC_D := Filter(NotIn, Some("tag"), Str("abc,d"))

  /** `not in` with the text `abc,d`: the query finds the value `a`, in memory it occurs in the text. */
  lemma NotInTextExample(py: Python, eng: Analysed)
    requires py.literal("abc,d").None?
    ensures Translate(py, NOT_IN_ABC_D).Ok? && EsAccepts(py, eng, NOT_IN_ABC_D, DocWith("tag", ["a"]))
    ensures !MemAccepts(py, NOT_IN_ABC_D, DocWith("tag", ["a"]))
  {
    AbcdMembers();
    AbcdIsText(py);
    SingleLetterIsNotListed();
    SubstringOfText();
    NotInTextVerdicts(py, eng, NOT_IN_ABC_D, "a");
  }

  lemma AbcdIsText(py: Python)
    requires py.literal("abc,d").None? && NonBlank(Split("abc,d", ',')) == [Str("abc"), Str("d")]
    ensures KeywordOnly(py, NOT_IN_ABC_D) && CommaText(py, NOT_IN_ABC_D.value)
  {
    assert RawMembers(py, NOT_IN_ABC_D.value) == [Str("abc"), Str("d")];
  }

  lemma SingleLetterIsNotListed()
    requires Strip("abc") == "abc" && Strip("d") == "d"
    ensures !InMembers([Str("abc"), Str("d")], "a")
  {
    assert Lower("a") == ['a'] && |Lower("abc")| == 3 && Lower("d") == ['d'];
  }

  lemma SubstringOfText()
    ensures Occurs(Lower("a"), Lower("abc,d"))
  {
    assert OccursAt(Lower("a"), Lower("abc,d"), 0);
  }

  lemma AbcdMembers()
    ensures NonBlank(Split("abc,d", ',')) == [Str("abc"), Str("d")] && Strip("abc") == "abc" && Strip("d") == "d"
  {
    TrimmedIsFixed("abc");
    TrimmedIsFixed("d");
    AbcdParts();
    var parts := ["abc", "d"];
    assert parts[1..] == ["d"] && parts[1..][1..] == [];
    assert NonBlank(parts[1..]) == [Str("d")];
  }

  lemma AbcdParts()
    ensures Split("abc,d", ',') == ["abc", "d"]
  {
    SplitStep('d', "", [""]);
    assert ['d'] + "" == "d" && Split("d", ',') == ["d"];
    SplitStep(',', "d", ["d"]);
    assert [','] + "d" == ",d" && Split(",d", ',') == ["", "d"];
    SplitStep('c', ",d", ["", "d"]);
    assert ['c'] + ",d" == "c,d" && ['c'] + "" == "c" && Split("c,d", ',') == ["c", "d"];
    SplitStep('b', "c,d", ["c", "d"]);
    assert ['b'] + "c,d" == "bc,d" && ['b'] + "c" == "bc" && Split("bc,d", ',') == ["bc", "d"];
    SplitStep('a', "bc,d", ["bc", "d"]);
    assert ['a'] + "bc,d" == "abc,d" && ['a'] + "bc" == "abc";
  }

  lemma SplitStep(c: char, rest: string, parts: seq<string>)
    requires Split(rest, ',') == parts
    ensures Split([c] + rest, ',') == if c == ',' then [""] + parts else [[c] + parts[0]] + parts[1..]
  {
    assert ([c] + rest)[1..] == rest;
  }

  // ---- Whole queries ----

  /** A query over one-sided filters is one-sided for both logics, on documents with any number of values. */
  lemma PushdownIsSound(py: Python, eng: Analysed, docs: seq<Doc>, kbIds: seq<string>, metas: Metas,
                        filters: seq<Filter>, p: Plan, id: string)
    requires Flattens(docs, kbIds, metas)
    requires p.logic in {"and", "or"} && PlanOf(py, filters, p)
    requires filters != [] && forall f :: f in filters ==> KeywordOnly(py, f) && OneSided(py, f)
    ensures Found(eng, docs, ToQuery(p, kbIds), id) ==> Selected(py, metas, filters, p.logic, id)
  {
    if d :| d in docs && d.id == id && Accepts(eng, ToQuery(p, kbIds), d) {
      QueryOfPlan(py, eng, filters, p, kbIds, d);
      FoldsAgree(py, eng, filters, p, d);
      forall f | f in filters
        ensures EsAccepts(py, eng, f, d) ==> Hit(py, metas, f, id)
      {
        OneSidedIff(py, eng, f);
        HitIsPerDocument(py, docs, kbIds, metas, f, id);
      }
    }
  }
}
