/** The migration's own renaming, applied to templates and the canvas they refer to. */
module MigrationReferences {
  import opened PyValues
  import opened References
  import opened ReferenceScan
  import opened Templates
  import opened ReferencePreservation
  import opened DslMigration
  import opened MigrationIsomorphism

  lemma PrefixIsIdText(i: nat)
    requires i < 3
    ensures All(LegacyPrefix(i), RuntimeIdChar) && All(CurrentPrefix(i), RuntimeIdChar)
  {
  }

  lemma SplitAll(a: string, b: string, p: char -> bool)
    ensures All(a + b, p) <==> All(a, p) && All(b, p)
  {
    var s := a + b;
    assert forall i :: 0 <= i < |a| ==> s[i] == a[i];
    assert forall i :: 0 <= i < |b| ==> s[i + |a|] == b[i];
    if All(s, p) {
      forall i | 0 <= i < |b|
        ensures p(b[i])
      {
        assert p(s[i + |a|]);
      }
    }
  }

  lemma RuntimeIsId(s: string)
    requires All(s, RuntimeIdChar)
    ensures All(s, IdChar)
  {
  }

  lemma SwapPrefix(i: nat, rest: string)
    requires i < 3
    ensures var x, y := LegacyPrefix(i) + rest, CurrentPrefix(i) + rest;
            (All(x, IdChar) ==> All(y, IdChar)) && (All(y, RuntimeIdChar) <==> All(x, RuntimeIdChar)) && y[0] != x[0]
  {
    PrefixIsIdText(i);
    RuntimeIsId(LegacyPrefix(i));
    RuntimeIsId(CurrentPrefix(i));
    SplitAll(LegacyPrefix(i), rest, IdChar);
    SplitAll(CurrentPrefix(i), rest, IdChar);
    SplitAll(LegacyPrefix(i), rest, RuntimeIdChar);
    SplitAll(CurrentPrefix(i), rest, RuntimeIdChar);
    assert (LegacyPrefix(i) + rest)[0] == LegacyPrefix(i)[0];
    assert (CurrentPrefix(i) + rest)[0] == CurrentPrefix(i)[0];
  }

  /** The migration's renaming keeps ids well-formed and visibly changes their first character. */
  lemma MigrationIsIdRenaming(ids: seq<string>)
    ensures IdRenaming(Renaming(ids))
  {
    var f := Renaming(ids);
    forall x | x != [] && All(x, IdChar)
      ensures f(x) != [] && All(f(x), IdChar)
      ensures All(f(x), RuntimeIdChar) <==> All(x, RuntimeIdChar)
      ensures f(x) != x ==> f(x)[0] != x[0]
    {
      if f(x) != x {
        var i, rest := RenamedForm(x);
        SwapPrefix(i, rest);
      }
    }
  }

  /** The outputs of the migrated canvas: those of the original, under the new ids. */
  ghost function MigratedStore(ids: seq<string>, st: Store): Store {
    var images := set x | x in st.outputs :: MapId(ids, x);
    Store(map y | y in images :: (var x :| x in st.outputs && MapId(ids, x) == y; st.outputs[x]), st.globals)
  }

  lemma MigratedStoreIsImage(ids: seq<string>, st: Store)
    requires Injective(ids) && forall x :: x in st.outputs ==> x in ids
    ensures ImageStore(Renaming(ids), st, MigratedStore(ids, st))
  {
    var st2 := MigratedStore(ids, st);
    forall x | x in st.outputs
      ensures MapId(ids, x) in st2.outputs && st2.outputs[MapId(ids, x)] == st.outputs[x]
    {
      var y := MapId(ids, x);
      assert y in st2.outputs;
      var z :| z in st.outputs && MapId(ids, z) == y && st2.outputs[y] == st.outputs[z];
      assert z == x;
    }
  }

  /** Migration preserves reference resolution: a template that is not itself a component id,
      rewritten and evaluated in the migrated canvas, gives the text it gave before, exactly
      when every reference the migration renames is one the runtime resolves. */
  lemma TemplateKeepsItsText(ids: seq<string>, st: Store, t: string)
    requires Injective(ids) && (forall x :: x in st.outputs ==> x in ids)
    requires t !in ids && Evaluate(st, t).Some?
    ensures Evaluate(MigratedStore(ids, st), RewriteText(ids, t)) == Evaluate(st, t)
            <==> Canonical(Renaming(ids), Scan(t))
  {
    MigrationIsIdRenaming(ids);
    MigratedStoreIsImage(ids, st);
    EvaluationIsPreserved(Renaming(ids), st, MigratedStore(ids, st), t);
  }

  /** The rewritten text scans to the same references with ids mapped, all other characters unchanged. */
  lemma TemplateKeepsItsReferences(ids: seq<string>, t: string)
    requires t !in ids
    ensures Scan(RewriteText(ids, t)) == MapPieces(Renaming(ids), Scan(t))
  {
    MigrationIsIdRenaming(ids);
    ScanOfSubstituted(Renaming(ids), t);
  }

  const GAPPED := Ref("{", " ", "Splitter:A", "x", " ", "}")

  lemma GappedIsWellFormed()
    ensures WellFormed(GAPPED) && !RuntimeShaped(GAPPED)
    ensures Write(GAPPED, []) == "{ Splitter:A@x }" && RefText(GAPPED) == "{ Splitter:A@x }"
  {
    WriteIsBody(GAPPED, []);
    assert RefText(GAPPED) + [] == RefText(GAPPED);
    assert Body(GAPPED) == " Splitter:A@x }";
  }

  lemma SplitterIsRenamed()
    ensures RenameId("Splitter:A") == "TokenChunker:A"
  {
    RenameLegacy(0, "A");
    SplitterSpelling();
  }

  lemma SplitterSpelling()
    ensures LegacyPrefix(0) + "A" == "Splitter:A" && CurrentPrefix(0) + "A" == "TokenChunker:A"
  {
  }

  lemma GappedIsRenamed()
    ensures Write(GAPPED.(id := "TokenChunker:A"), []) == "{ TokenChunker:A@x }"
  {
    var r := GAPPED.(id := "TokenChunker:A");
    WriteIsBody(r, []);
    assert Body(r) == " TokenChunker:A@x }";
    assert "{" + Body(r) == "{ TokenChunker:A@x }";
    assert Body(r) + [] == Body(r);
  }

  /** `{ Splitter:A@x }` is plain text to the runtime, and still the migration rewrites it. */
  lemma GapExample(st: Store)
    ensures Evaluate(st, "{ Splitter:A@x }") == Some("{ Splitter:A@x }")
    ensures RewriteText(["Splitter:A"], "{ Splitter:A@x }") == "{ TokenChunker:A@x }"
  {
    GappedIsWellFormed();
    GappedIsRenamed();
    SplitterIsRenamed();
    WrittenIsMatched(GAPPED, []);
    EvaluateCopiesReference(st, GAPPED, []);
    assert RefText(GAPPED) + [] == RefText(GAPPED);
  }
}
