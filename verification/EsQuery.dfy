/** The Elasticsearch bool queries the translator emits, and what they select. */
module EsQuery {
  import opened Text
  import opened PyValues
  import Globs

  /** `meta_fields.<key>` and its exact-match sub-field `meta_fields.<key>.keyword` */
  datatype Field = Parent(key: string) | Keyword(key: string)

  datatype Clause =
    | BoolQuery(must: seq<Clause>, mustNot: seq<Clause>, should: seq<Clause>, filter: seq<Clause>,
                minimumShouldMatch: nat)
    | KbTerms(kbIds: seq<string>)
    | Exists(field: Field)
    | Term(field: Field, value: Value)
    | TermFolded(field: Field, text: string)          // case_insensitive
    | Terms(field: Field, values: seq<Value>)
    | PrefixFolded(field: Field, text: string)        // case_insensitive
    | WildcardFolded(field: Field, pattern: string)   // case_insensitive
    | Range(field: Field, op: Op, bound: Value)

  /** One document of the metadata index, string-valued: a key maps to all its values. */
  datatype Doc = Doc(id: string, kb: string, meta: map<string, seq<string>>)

  /** What the engine answers on clauses over analysed parent fields. */
  type Analysed = (Clause, Doc) -> bool

  function ValuesOf(d: Doc, key: string): seq<string> {
    if key in d.meta then d.meta[key] else []
  }

  function CountAccepted(eng: Analysed, cs: seq<Clause>, d: Doc): nat {
    if cs == [] then 0
    else (if Accepts(eng, cs[0], d) then 1 else 0) + CountAccepted(eng, cs[1..], d)
  }

  /** The engine's verdict on one document. */
  predicate Accepts(eng: Analysed, c: Clause, d: Doc) {
    match c
    case BoolQuery(must, mustNot, should, filter, minimum) =>
      && (forall x :: x in must ==> Accepts(eng, x, d))
      && (forall x :: x in filter ==> Accepts(eng, x, d))
      && (forall x :: x in mustNot ==> !Accepts(eng, x, d))
      && CountAccepted(eng, should, d) >= minimum
    case KbTerms(kbIds) => d.kb in kbIds
    case Exists(field) => ValuesOf(d, field.key) != []
    case Term(Keyword(key), Str(s)) => s in ValuesOf(d, key)
    case Term(_, _) => eng(c, d)
    case TermFolded(field, text) => exists v :: v in ValuesOf(d, field.key) && Lower(v) == Lower(text)
    case Terms(_, _) => eng(c, d)
    case PrefixFolded(field, text) => exists v :: v in ValuesOf(d, field.key) && StartsWith(Lower(v), Lower(text))
    case WildcardFolded(field, pattern) =>
      exists v :: v in ValuesOf(d, field.key) && Globs.Matches(true, Globs.Read(Globs.WILDCARD, pattern), v)
    case Range(_, _, _) => eng(c, d)
  }

  lemma {:induction false} SomeAccepted(eng: Analysed, cs: seq<Clause>, d: Doc)
    ensures CountAccepted(eng, cs, d) >= 1 <==> exists x :: x in cs && Accepts(eng, x, d)
  {
    if cs != [] {
      SomeAccepted(eng, cs[1..], d);
      assert cs[0] in cs && forall x :: x in cs[1..] ==> x in cs;
      assert forall x :: x in cs ==> x == cs[0] || x in cs[1..];
    }
  }

  function AllOf(must: seq<Clause>, mustNot: seq<Clause>): Clause {
    BoolQuery(must, mustNot, [], [], 0)
  }

  function AnyOf(should: seq<Clause>): Clause {
    BoolQuery([], [], should, [], 1)
  }

  lemma AllOfMeaning(eng: Analysed, must: seq<Clause>, mustNot: seq<Clause>, d: Doc)
    ensures Accepts(eng, AllOf(must, mustNot), d) <==>
              (forall c :: c in must ==> Accepts(eng, c, d)) && (forall c :: c in mustNot ==> !Accepts(eng, c, d))
  {
  }

  lemma AnyOfMeaning(eng: Analysed, cs: seq<Clause>, d: Doc)
    ensures Accepts(eng, AnyOf(cs), d) <==> exists x :: x in cs && Accepts(eng, x, d)
  {
    SomeAccepted(eng, cs, d);
  }

  function FilterBy(kb: Clause, inner: Clause): Clause {
    BoolQuery([], [], [], [kb, inner], 0)
  }

  lemma FilterByMeaning(eng: Analysed, kb: Clause, inner: Clause, d: Doc)
    ensures Accepts(eng, FilterBy(kb, inner), d) <==> Accepts(eng, kb, d) && Accepts(eng, inner, d)
  {
    var fs := [kb, inner];
    assert kb in fs && inner in fs;
    assert forall x :: x in fs ==> x == kb || x == inner;
  }
}
