/** common/metadata_infinity_filter.py: filters to SQL text. */
module InfinityFilter {
  import opened PyValues
  import opened Text
  import opened SqlText
  import Globs
  import Es = EsTranslate

  // ---- Coercion ----

  function CoerceScalar(py: Python, v: Value): Result<Value> {
    if v.Null? then Err("scalar comparison value is None")
    else if v.List? || v.Other? then Err("scalar comparison value is non-scalar")
    else Ok(NumberOrText(py, v))
  }

  function CoerceRangeValue(py: Python, v: Value): Result<Value> {
    if v.Null? then Err("range comparison value is None") else Ok(NumberOrText(py, v))
  }

  /** The number the trimmed text spells, or the text itself. */
  function NumberOrText(py: Python, v: Value): (r: Value)
    ensures r.Str? || Numeric(r)
  {
    var p := py.literal(Strip(StrOf(py, v)));
    if p.Some? && Numeric(p.value) then p.value else Str(StrOf(py, v))
  }

  /** `^[a-zA-Z_][a-zA-Z0-9_]*$`; the dollar also accepts a final newline. */
  predicate ValidKey(key: string) {
    && key != [] && KeyStart(key[0])
    && (forall i :: 1 <= i < |key| - 1 ==> KeyChar(key[i]))
    && (|key| > 1 ==> KeyChar(key[|key| - 1]) || key[|key| - 1] == '\n')
  }

  predicate KeyStart(c: char) {
    'a' <= c <= 'z' || 'A' <= c <= 'Z' || c == '_'
  }

  predicate KeyChar(c: char) {
    KeyStart(c) || Digit(c)
  }

  // ---- Fragments ----

  function EscapeLike(s: string): string {
    Globs.Escape(Globs.LIKE, s)
  }

  /** A member of a JSON array: a quoted string or a bare number. */
  function OperandText(py: Python, v: Value): string {
    if v.Str? then "'\"" + EscapeSql(v.s) + "\"'" else py.show(v)
  }

  function ContainsText(key: string, operand: string): string {
    "JSON_CONTAINS(meta_fields, '$." + key + "', " + operand + ")"
  }

  function ExtractText(extract: string, key: string): string {
    extract + "(meta_fields, '$." + key + "')"
  }

  function SqlOperator(op: Op): string {
    match op
    case Gt => ">"
    case Lt => "<"
    case Ge => ">="
    case _ => "<="
  }

  function RangeText(py: Python, op: Op, key: string, c: Value): string {
    if c.Str? then ExtractText("JSON_EXTRACT_STRING", key) + " " + SqlOperator(op) + " '" + EscapeSql(c.s) + "'"
    else ExtractText("JSON_EXTRACT_DOUBLE", key) + " " + SqlOperator(op) + " " + py.show(c)
  }

  /** Every member coerced as a range value; fails on a None. */
  function CoerceMembers(py: Python, v: Value): Result<seq<Value>> {
    var ms := Es.Members(py, v);
    if ms.Err? then Err(ms.reason)
    else if exists m :: m in ms.value && m.Null? then Err("range comparison value is None")
    else Ok(CoerceAll(py, ms.value))
  }

  function CoerceAll(py: Python, ms: seq<Value>): seq<Value> {
    seq(|ms|, i requires 0 <= i < |ms| => NumberOrText(py, ms[i]))
  }

  function Strings(cs: seq<Value>): seq<Value> {
    if cs == [] then [] else (if cs[0].Str? then [cs[0]] else []) + Strings(cs[1..])
  }

  function Numbers(cs: seq<Value>): seq<Value> {
    if cs == [] then [] else (if cs[0].Str? then [] else [cs[0]]) + Numbers(cs[1..])
  }

  function MemberTexts(py: Python, not: string, key: string, cs: seq<Value>): seq<string> {
    seq(|cs|, i requires 0 <= i < |cs| => not + ContainsText(key, OperandText(py, cs[i])))
  }

  function GroupText(parts: seq<string>, joiner: string): seq<string> {
    if parts == [] then [] else ["(" + Join(parts, joiner) + ")"]
  }

  function InText(py: Python, key: string, cs: seq<Value>): string {
    var strings := GroupText(MemberTexts(py, "", key, Strings(cs)), " OR ");
    var numbers := GroupText(MemberTexts(py, "", key, Numbers(cs)), " OR ");
    "(" + Join(strings + numbers, " OR ") + ")"
  }

  function NotInText(py: Python, key: string, cs: seq<Value>): string {
    var strings := GroupText(MemberTexts(py, "NOT ", key, Strings(cs)), " AND ");
    var numbers := GroupText(MemberTexts(py, "NOT ", key, Numbers(cs)), " AND ");
    Join(strings + numbers, " AND ")
  }

  /** `not value and value != 0` */
  predicate EmptyContainsValue(v: Value) {
    v.Null? || v == Str("") || ((v.List? || v.Tuple?) && v.items == [])
  }

  /** `translate` */
  function FragmentText(py: Python, f: Filter): Result<string> {
    if f.key.None? || f.key.value == "" then Err("filter is missing a string key")
    else if !ValidKey(f.key.value) then Err("invalid key format")
    else FragmentOp(py, f.op, f.key.value, f.value)
  }

  function FragmentOp(py: Python, op: Op, key: string, value: Value): Result<string> {
    match op
    case Unknown(_) => Err("unknown operator")
    case Empty => Ok(ExtractText("JSON_EXTRACT_STRING", key) + " = '\"\"'")
    case NotEmpty => Ok(ExtractText("JSON_EXTRACT_STRING", key) + " != '\"\"'")
    case Eq =>
      var c := CoerceScalar(py, value);
      if c.Err? then Err(c.reason) else Ok(ContainsText(key, OperandText(py, c.value)))
    case Ne =>
      var c := CoerceScalar(py, value);
      if c.Err? then Err(c.reason) else Ok("NOT " + ContainsText(key, OperandText(py, c.value)))
    case In =>
      var cs := CoerceMembers(py, value);
      if cs.Err? then Err(cs.reason) else Ok(InText(py, key, cs.value))
    case NotIn =>
      var cs := CoerceMembers(py, value);
      if cs.Err? then Err(cs.reason) else Ok(NotInText(py, key, cs.value))
    case Contains =>
      if EmptyContainsValue(value) then Err("contains value is empty")
      else Ok(ContainsText(key, OperandText(py, NumberOrText(py, value))))
    case NotContains =>
      var t := Es.CoerceString(py, value);
      if t.Err? then Err(t.reason) else Ok("NOT " + ContainsText(key, OperandText(py, Str(t.value))))
    case StartWith =>
      var t := Es.CoerceString(py, value);
      if t.Err? then Err(t.reason)
      else Ok(ExtractText("JSON_EXTRACT_STRING", key) + " LIKE '" + EscapeSql(EscapeLike(t.value)) + "%'")
    case EndWith =>
      var t := Es.CoerceString(py, value);
      if t.Err? then Err(t.reason)
      else Ok(ExtractText("JSON_EXTRACT_STRING", key) + " LIKE '%" + EscapeSql(EscapeLike(t.value)) + "'")
    case _ =>
      var c := CoerceRangeValue(py, value);
      if c.Err? then Err(c.reason) else Ok(RangeText(py, op, key, c.value))
  }

  lemma {:induction false} StringsStep(cs: seq<Value>, c: Value)
    ensures Strings(cs + [c]) == Strings(cs) + (if c.Str? then [c] else [])
  {
    if cs == [] {
      assert cs + [c] == [c] && [c][1..] == [];
    } else {
      var front, right := if cs[0].Str? then [cs[0]] else [], if c.Str? then [c] else [];
      assert (cs + [c])[1..] == cs[1..] + [c];
      StringsStep(cs[1..], c);
      Chain(Strings(cs + [c]), front, Strings(cs[1..] + [c]), Strings(cs), Strings(cs[1..]), right);
    }
  }

  lemma {:induction false} NumbersStep(cs: seq<Value>, c: Value)
    ensures Numbers(cs + [c]) == Numbers(cs) + (if c.Str? then [] else [c])
  {
    if cs == [] {
      assert cs + [c] == [c] && [c][1..] == [];
    } else {
      var front, right := if cs[0].Str? then [] else [cs[0]], if c.Str? then [] else [c];
      assert (cs + [c])[1..] == cs[1..] + [c];
      NumbersStep(cs[1..], c);
      Chain(Numbers(cs + [c]), front, Numbers(cs[1..] + [c]), Numbers(cs), Numbers(cs[1..]), right);
    }
  }

  function MemberText(py: Python, not: string, key: string, c: Value): string {
    not + ContainsText(key, OperandText(py, c))
  }

  /** The two lists after the members `ms`. */
  ghost predicate PartsOf(
    py: Python, not: string, key: string, ms: seq<Value>, strings: seq<string>, numbers: seq<string>) {
    && strings == MemberTexts(py, not, key, Strings(CoerceAll(py, ms)))
    && numbers == MemberTexts(py, not, key, Numbers(CoerceAll(py, ms)))
  }

  lemma PartsStep(
    py: Python, not: string, key: string, ms: seq<Value>, m: Value, strings: seq<string>, numbers: seq<string>)
    requires PartsOf(py, not, key, ms, strings, numbers)
    ensures var c := NumberOrText(py, m);
            if c.Str? then PartsOf(py, not, key, ms + [m], strings + [MemberText(py, not, key, c)], numbers)
            else PartsOf(py, not, key, ms + [m], strings, numbers + [MemberText(py, not, key, c)])
  {
    var cs, c := CoerceAll(py, ms), NumberOrText(py, m);
    assert CoerceAll(py, ms + [m]) == cs + [c];
    StringsStep(cs, c);
    NumbersStep(cs, c);
  }

  lemma NextPart(
    py: Python, not: string, key: string, ms: seq<Value>, n: nat, strings: seq<string>, numbers: seq<string>)
    requires n < |ms| && PartsOf(py, not, key, ms[..n], strings, numbers)
    ensures var part := [MemberText(py, not, key, NumberOrText(py, ms[n]))];
            if NumberOrText(py, ms[n]).Str? then PartsOf(py, not, key, ms[..n + 1], strings + part, numbers)
            else PartsOf(py, not, key, ms[..n + 1], strings, numbers + part)
  {
    PartsStep(py, not, key, ms[..n], ms[n], strings, numbers);
    assert ms[..n + 1] == ms[..n] + [ms[n]];
  }

  /** The loop `_translate_in` and `_translate_not_in` share: two lists grown member by member. */
  method SplitMembers(py: Python, not: string, key: string, members: seq<Value>)
    returns (ok: bool, stringParts: seq<string>, numParts: seq<string>)
    ensures ok <==> forall m :: m in members ==> !m.Null?
    ensures ok ==> PartsOf(py, not, key, members, stringParts, numParts)
  {
    stringParts, numParts := [], [];
    for n := 0 to |members|
      invariant forall i :: 0 <= i < n ==> !members[i].Null?
      invariant PartsOf(py, not, key, members[..n], stringParts, numParts)
    {
      if members[n].Null? {
        assert members[n] in members;
        return false, stringParts, numParts;
      }
      var c := NumberOrText(py, members[n]);
      NextPart(py, not, key, members, n, stringParts, numParts);
      var part := MemberText(py, not, key, c);
      if Numeric(c) {
        numParts := numParts + [part];
      } else {
        stringParts := stringParts + [part];
      }
    }
    assert members[..|members|] == members;
    ok := true;
  }

  method TranslateIn(py: Python, key: string, value: Value) returns (r: Result<string>)
    ensures r.Ok? <==> CoerceMembers(py, value).Ok?
    ensures r.Ok? ==> r.value == InText(py, key, CoerceMembers(py, value).value)
  {
    var members := Es.CsvOrList(py, value);
    if members.Err? {
      return Err(members.reason);
    }
    var ok, stringParts, numParts := SplitMembers(py, "", key, members.value);
    if !ok {
      return Err("range comparison value is None");
    }
    var conditions: seq<string> := [];
    if stringParts != [] {
      conditions := conditions + ["(" + Join(stringParts, " OR ") + ")"];
    }
    if numParts != [] {
      conditions := conditions + ["(" + Join(numParts, " OR ") + ")"];
    }
    assert conditions == GroupText(stringParts, " OR ") + GroupText(numParts, " OR ");
    r := Ok("(" + Join(conditions, " OR ") + ")");
  }

  method TranslateNotIn(py: Python, key: string, value: Value) returns (r: Result<string>)
    ensures r.Ok? <==> CoerceMembers(py, value).Ok?
    ensures r.Ok? ==> r.value == NotInText(py, key, CoerceMembers(py, value).value)
  {
    var members := Es.CsvOrList(py, value);
    if members.Err? {
      return Err(members.reason);
    }
    var ok, stringParts, numParts := SplitMembers(py, "NOT ", key, members.value);
    if !ok {
      return Err("range comparison value is None");
    }
    var conditions: seq<string> := [];
    if stringParts != [] {
      conditions := conditions + ["(" + Join(stringParts, " AND ") + ")"];
    }
    if numParts != [] {
      conditions := conditions + ["(" + Join(numParts, " AND ") + ")"];
    }
    assert conditions == GroupText(stringParts, " AND ") + GroupText(numParts, " AND ");
    r := Ok(Join(conditions, " AND "));
  }

  /** The filters' fragments, in order. */
  ghost predicate FragmentsOf(py: Python, filters: seq<Filter>, fragments: seq<string>) {
    && |fragments| == |filters|
    && forall i :: 0 <= i < |filters| ==> FragmentText(py, filters[i]) == Ok(fragments[i])
  }

  function Joiner(logic: string): string {
    if logic == "and" then " AND " else " OR "
  }

  /** `build_infinity_filter` */
  method BuildInfinityFilter(py: Python, filters: seq<Filter>, logic: string) returns (r: Result<string>)
    ensures filters == [] ==> r == Ok("1=1")
    ensures filters != [] ==>
              (r.Ok? <==> logic in {"and", "or"} && forall f :: f in filters ==> FragmentText(py, f).Ok?)
    ensures filters != [] && r.Ok? ==>
              exists fragments ::
                FragmentsOf(py, filters, fragments) && r.value == "(" + Join(fragments, Joiner(logic)) + ")"
  {
    if filters == [] {
      return Ok("1=1");
    }
    if logic !in {"and", "or"} {
      return Err("unknown logic");
    }
    var fragments: seq<string> := [];
    for n := 0 to |filters|
      invariant FragmentsOf(py, filters[..n], fragments)
      invariant forall f :: f in filters[..n] ==> FragmentText(py, f).Ok?
    {
      var t := FragmentText(py, filters[n]);
      if t.Err? {
        assert filters[n] in filters;
        return Err(t.reason);
      }
      fragments := fragments + [t.value];
    }
    assert filters[..|filters|] == filters;
    r := Ok("(" + Join(fragments, Joiner(logic)) + ")");
  }
}
