/** What the migration makes of an edge's own id, a text that holds the ids of the edge's ends. */
module MigrationEdgeIds {
  import opened Text
  import opened DslMigration
  import opened MigrationIdempotence
  import opened MigrationIsomorphism
  import opened PrefixReplacement

  predicate Legacy(x: string) {
    RenameId(x) != x
  }

  function TableRow(i: nat): Row
    requires i < 3
  {
    Row(LegacyPrefix(i), CurrentPrefix(i))
  }

  /** The rename table as prefixes of ids. */
  function Table(): Renaming {
    Renaming({TableRow(0), TableRow(1), TableRow(2)}, RenameId)
  }

  lemma SplitterRow()
    ensures GoodRow(TableRow(0))
  {
    assert LegacyPrefix(0) == "Splitter:" && LegacyPrefix(0)[1..] == "plitter:";
  }

  lemma MergerRow()
    ensures GoodRow(TableRow(1))
  {
    var front, back := "ierarchi", "calMerger:";
    assert NoOldLetter(front);
    assert NoOldLetter(back);
    assert LegacyPrefix(1) == "HierarchicalMerger:" && LegacyPrefix(1)[1..] == front + back;
    NoOldLetterConcat(front, back);
  }

  lemma GeneratorRow()
    ensures GoodRow(TableRow(2))
  {
    var front, back := "DFGene", "rator:";
    assert NoOldLetter(front);
    assert NoOldLetter(back);
    assert LegacyPrefix(2) == "PDFGenerator:" && LegacyPrefix(2)[1..] == front + back;
    NoOldLetterConcat(front, back);
  }

  lemma NoOldLetterConcat(a: string, b: string)
    requires NoOldLetter(a) && NoOldLetter(b)
    ensures NoOldLetter(a + b)
  {
  }

  lemma TableIsGood()
    ensures GoodTable(Table().rows)
  {
    SplitterRow();
    MergerRow();
    GeneratorRow();
    assert TableRow(0).old_[..1] == "S" && TableRow(1).old_[..1] == "H" && TableRow(2).old_[..1] == "P";
    assert "S"[0] != "H"[0] && "H"[0] != "P"[0] && "S"[0] != "P"[0];
  }

  lemma TableRenames(x: string)
    ensures RenamesAt(Table(), x)
  {
    TableIsGood();
    assert TableRow(0) in Table().rows && TableRow(1) in Table().rows && TableRow(2) in Table().rows;
    if Legacy(x) {
      var i, rest := RenamedForm(x);
      var row := TableRow(i);
      assert row in Table().rows && x[|row.old_|..] == rest;
      assert Exchanges(row, x, RenameId(x));
    } else {
      NotLegacyHasNoPrefix(x);
    }
  }

  lemma NotLegacyHasNoPrefix(x: string)
    requires !Legacy(x)
    ensures !(LegacyPrefix(0) <= x) && !(LegacyPrefix(1) <= x) && !(LegacyPrefix(2) <= x)
  {
    PrefixIsLegacy(0, x);
    PrefixIsLegacy(1, x);
    PrefixIsLegacy(2, x);
  }

  lemma PrefixIsLegacy(i: nat, x: string)
    requires i < 3
    ensures LegacyPrefix(i) <= x ==> Legacy(x)
  {
    if LegacyPrefix(i) <= x {
      var rest := x[|LegacyPrefix(i)|..];
      TableIsGood();
      assert TableRow(i) in Table().rows && GoodRow(TableRow(i));
      RenameLegacy(i, rest);
      assert x == LegacyPrefix(i) + rest;
      assert x[0] == LegacyPrefix(i)[0] && RenameId(x)[0] == CurrentPrefix(i)[0];
    }
  }

  lemma TableIsValid()
    ensures Valid(Table())
  {
    TableIsGood();
    forall x: string
      ensures RenamesAt(Table(), x)
    {
      TableRenames(x);
    }
  }

  lemma {:induction false} ReplaceIdsInOrder(order: seq<string>, t: string)
    ensures ReplaceIds(order, t) == ReplaceAll(Table(), order, t)
  {
    if order != [] {
      ReplaceIdsInOrder(order[1..], Replace(t, order[0], RenameId(order[0])));
    }
  }

  // ---- The order of the replacements ----

  /** The ids of one length, in their order. */
  function OfLength(s: seq<string>, n: nat): seq<string> {
    if s == [] then [] else (if |s[0]| == n then [s[0]] else []) + OfLength(s[1..], n)
  }

  predicate LongestFirst(s: seq<string>) {
    forall i, j :: 0 <= i < j < |s| ==> |s[i]| >= |s[j]|
  }

  lemma {:induction false} InsertKeepsOrder(x: string, s: seq<string>, n: nat)
    requires LongestFirst(s)
    ensures LongestFirst(InsertByLength(x, s))
    ensures OfLength(InsertByLength(x, s), n) == OfLength([x] + s, n)
  {
    assert ([x] + s)[1..] == s;
    if s != [] && |x| < |s[0]| {
      var r := InsertByLength(x, s[1..]);
      InsertKeepsOrder(x, s[1..], n);
      InsertMembers(x, s[1..]);
      assert s == [s[0]] + s[1..] && ([s[0]] + r)[1..] == r && ([x] + s[1..])[1..] == s[1..];
      forall j | 0 <= j < |r|
        ensures |r[j]| <= |s[0]|
      {
        assert r[j] in r;
      }
    }
  }

  /** Longer ids come first, and ids of the same length keep their order. */
  lemma {:induction false} SortIsStable(s: seq<string>, n: nat)
    ensures LongestFirst(SortByLength(s))
    ensures OfLength(SortByLength(s), n) == OfLength(s, n)
  {
    if s != [] {
      SortIsStable(s[1..], n);
      InsertKeepsOrder(s[0], SortByLength(s[1..]), n);
      assert ([s[0]] + SortByLength(s[1..]))[1..] == SortByLength(s[1..]);
    }
  }

  // ---- Edge ids ----

  /** An edge id that is built from the ids of its ends becomes the id built from their images if and only if the
      replacements, longest id first, act at legacy ends only, and in the end at each of them. */
  lemma EdgeIdIsImage(ids: seq<string>, pre: string, a: string, mid: string, b: string, post: string)
    ensures ReplaceIds(SortByLength(ids), pre + (a + mid) + (b + post))
            == pre + (RenameId(a) + mid) + (RenameId(b) + post)
            <==> Lands(Table(), SortByLength(ids), pre, a + mid, b + post, Legacy(a), Legacy(b))
  {
    TableIsValid();
    ReplaceIdsInOrder(SortByLength(ids), pre + (a + mid) + (b + post));
    ImageOfEnd(Table(), a, mid);
    ImageOfEnd(Table(), b, post);
    ReachesGoalIff(Table(), SortByLength(ids), pre, a + mid, b + post, Legacy(a), Legacy(b));
  }

  /** An edge id stays as it is if and only if no legacy component id occurs in it. */
  lemma EdgeIdStays(ids: seq<string>, t: string)
    ensures ReplaceIds(SortByLength(ids), t) == t <==> forall x :: x in ids && Legacy(x) ==> !Occurs(x, t)
  {
    TableIsValid();
    SortKeepsMembers(ids);
    ReplaceIdsInOrder(SortByLength(ids), t);
    assert t + [] + [] == t;
    ReachesGoalIff(Table(), SortByLength(ids), t, [], [], false, false);
    LandsNowhere(Table(), SortByLength(ids), t);
  }

  /** Where the condition fails: the second component keeps its id, and an edge id made of it does not. */
  lemma EdgeIdExample()
    ensures RenameId("MySplitter:A") == "MySplitter:A"
    ensures ReplaceIds(SortByLength(["Splitter:A", "MySplitter:A"]), "MySplitter:A") == "MyTokenChunker:A"
  {
    assert "MySplitter:A"[0] == 'M';
    assert LegacyPrefix(0)[0] == 'S' && LegacyPrefix(1)[0] == 'H' && LegacyPrefix(2)[0] == 'P';
    assert RenameId("MySplitter:A") == "MySplitter:A";
    OrderOfTwo();
    SplitterBecomes();
    var t := "MySplitter:A";
    ReplaceBySelf(t, t);
    TwoReplacements(["MySplitter:A", "Splitter:A"], t);
    InsideReplaced();
  }

  lemma OrderOfTwo()
    ensures SortByLength(["Splitter:A", "MySplitter:A"]) == ["MySplitter:A", "Splitter:A"]
  {
    var two := ["Splitter:A", "MySplitter:A"];
    assert two[1..] == ["MySplitter:A"] && two[1..][1..] == [];
    assert SortByLength(two[1..]) == ["MySplitter:A"];
    assert InsertByLength("Splitter:A", []) == ["Splitter:A"] && ["MySplitter:A"][1..] == [];
    assert |"Splitter:A"| == 10 && |"MySplitter:A"| == 12;
  }

  lemma SplitterBecomes()
    ensures RenameId("Splitter:A") == "TokenChunker:A"
  {
    RenameLegacy(0, "A");
    assert LegacyPrefix(0) + "A" == "Splitter:A" && CurrentPrefix(0) + "A" == "TokenChunker:A";
  }

  lemma TwoReplacements(order: seq<string>, t: string)
    requires |order| == 2
    ensures ReplaceIds(order, t)
            == Replace(Replace(t, order[0], RenameId(order[0])), order[1], RenameId(order[1]))
  {
    assert order[1..] == [order[1]] && order[1..][1..] == [];
    var u := Replace(t, order[0], RenameId(order[0]));
    assert ReplaceIds(order[1..], u) == ReplaceIds([], Replace(u, order[1], RenameId(order[1])));
  }

  lemma InsideReplaced()
    ensures Replace("MySplitter:A", "Splitter:A", "TokenChunker:A") == "MyTokenChunker:A"
  {
    var x, y := "Splitter:A", "TokenChunker:A";
    assert x[0] == 'S' && NoOldLetter("My") && "My" + x == "MySplitter:A" && "My" + y == "MyTokenChunker:A";
    SkipsPiece(x, y, "My", x, 0);
    ReplaceItself(x, y);
  }

  lemma ReplaceItself(x: string, y: string)
    requires x != []
    ensures Replace(x, x, y) == y
  {
    assert x[|x|..] == [] && y + [] == y;
  }
}
