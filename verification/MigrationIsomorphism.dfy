/** When no legacy id meets its new form, the migration renames the canvas graph and changes nothing else in it. */
module MigrationIsomorphism {
  import opened PyValues
  import opened JsonDoc
  import opened DslMigration
  import opened MigrationIdempotence

  /** The id map is injective. */
  ghost predicate Injective(ids: seq<string>) {
    forall x, y :: x in ids && y in ids && RenameId(x) == RenameId(y) ==> x == y
  }

  /** A legacy id and the id it would become, both in use. */
  ghost predicate Clash(ids: seq<string>, i: nat, rest: string)
    requires i < 3
  {
    LegacyPrefix(i) + rest in ids && CurrentPrefix(i) + rest in ids
  }

  lemma RenameLegacy(i: nat, rest: string)
    requires i < 3
    ensures RenameId(LegacyPrefix(i) + rest) == CurrentPrefix(i) + rest
    ensures RenameId(CurrentPrefix(i) + rest) == CurrentPrefix(i) + rest
  {
    var x := LegacyPrefix(i) + rest;
    assert LegacyPrefix(i) <= x && x[|LegacyPrefix(i)|..] == rest;
    assert x[0] == LegacyPrefix(i)[0] && CurrentPrefix(i)[0] == (CurrentPrefix(i) + rest)[0];
    RenameIdIsSettled(x);
  }

  /** The form of a renamed id: the rest behind the prefix of one table row. */
  lemma RenamedForm(x: string) returns (i: nat, rest: string)
    requires RenameId(x) != x
    ensures i < 3 && x == LegacyPrefix(i) + rest && RenameId(x) == CurrentPrefix(i) + rest
  {
    i := if LegacyPrefix(0) <= x then 0 else if LegacyPrefix(1) <= x then 1 else 2;
    rest := x[|LegacyPrefix(i)|..];
  }

  lemma CurrentPrefixesDiffer(i: nat, a: string, j: nat, b: string)
    requires i < 3 && j < 3 && CurrentPrefix(i) + a == CurrentPrefix(j) + b
    ensures i == j && a == b
  {
    var x, y := CurrentPrefix(i) + a, CurrentPrefix(j) + b;
    assert x[0] == CurrentPrefix(i)[0] && y[0] == CurrentPrefix(j)[0];
    assert x[1] == CurrentPrefix(i)[1] && y[1] == CurrentPrefix(j)[1];
    assert x[|CurrentPrefix(i)|..] == a && y[|CurrentPrefix(j)|..] == b;
  }

  /** The map is injective exactly when no legacy id stands beside its own new form. */
  lemma InjectiveIffNoClash(ids: seq<string>)
    ensures Injective(ids) <==> forall i: nat, rest: string :: i < 3 ==> !Clash(ids, i, rest)
  {
    if i: nat, rest: string :| i < 3 && Clash(ids, i, rest) {
      RenameLegacy(i, rest);
      assert (LegacyPrefix(i) + rest)[0] == LegacyPrefix(i)[0];
      assert (CurrentPrefix(i) + rest)[1] == CurrentPrefix(i)[1] && (LegacyPrefix(i) + rest)[1] == LegacyPrefix(i)[1];
      assert LegacyPrefix(i) + rest != CurrentPrefix(i) + rest;
    }
    if x, y :| x in ids && y in ids && RenameId(x) == RenameId(y) && x != y {
      if RenameId(x) != x {
        ClashFrom(ids, x, y);
      } else {
        ClashFrom(ids, y, x);
      }
    }
  }

  lemma ClashFrom(ids: seq<string>, x: string, y: string)
    requires x in ids && y in ids && RenameId(x) == RenameId(y) && x != y && RenameId(x) != x
    ensures exists i: nat, rest: string :: i < 3 && Clash(ids, i, rest)
  {
    var i, rest := RenamedForm(x);
    if RenameId(y) != y {
      var j, other := RenamedForm(y);
      CurrentPrefixesDiffer(i, rest, j, other);
    }
    assert Clash(ids, i, rest);
  }

  function RenameAll(ids: seq<string>): seq<string> {
    seq(|ids|, i requires 0 <= i < |ids| => RenameId(ids[i]))
  }

  lemma InjectivePrefix(cs: seq<Field>)
    requires cs != [] && UniqueKeys(cs) && Injective(Keys(cs))
    ensures var init := cs[..|cs| - 1];
            UniqueKeys(init) && Injective(Keys(init)) && RenameId(cs[|init|].key) !in RenameAll(Keys(init))
  {
    var init := cs[..|cs| - 1];
    var ks := Keys(cs);
    assert Keys(init) == ks[..|init|];
    assert ks[|init|] == cs[|init|].key;
    forall i | 0 <= i < |init|
      ensures RenameId(ks[i]) != RenameId(ks[|init|])
    {
      assert ks[i] in ks && ks[|init|] in ks;
    }
  }

  /** One component more: its new id is appended, unless it is taken already. */
  lemma TableStep(ids: seq<string>, cs: seq<Field>)
    requires cs != []
    ensures var before, key := Keys(RewriteComponents(ids, cs[..|cs| - 1])), RenameId(cs[|cs| - 1].key);
            Keys(RewriteComponents(ids, cs)) == if key in before then before else before + [key]
  {
    var last := cs[|cs| - 1];
    SetKeys(RewriteComponents(ids, cs[..|cs| - 1]), RenameId(last.key), RewriteComponent(ids, last.value));
  }

  lemma RenameAllStep(cs: seq<Field>)
    requires cs != []
    ensures RenameAll(Keys(cs)) == RenameAll(Keys(cs[..|cs| - 1])) + [RenameId(cs[|cs| - 1].key)]
  {
    var init := cs[..|cs| - 1];
    assert Keys(cs) == Keys(init) + [cs[|init|].key];
  }

  /** With an injective map the new table lists the renamed ids in the old order. */
  lemma {:induction false} TableKeys(ids: seq<string>, cs: seq<Field>)
    requires UniqueKeys(cs) && Injective(Keys(cs))
    ensures Keys(RewriteComponents(ids, cs)) == RenameAll(Keys(cs))
  {
    if cs != [] {
      InjectivePrefix(cs);
      TableKeys(ids, cs[..|cs| - 1]);
      TableStep(ids, cs);
      RenameAllStep(cs);
    }
  }

  lemma TableSize(ids: seq<string>, cs: seq<Field>)
    ensures |RewriteComponents(ids, cs)| == |Keys(RewriteComponents(ids, cs))|
  {
  }

  lemma {:induction false} TableNeverGrows(ids: seq<string>, cs: seq<Field>)
    ensures |RewriteComponents(ids, cs)| <= |cs|
  {
    if cs != [] {
      TableNeverGrows(ids, cs[..|cs| - 1]);
      TableStep(ids, cs);
      TableSize(ids, cs);
    }
  }

  /** Where the first ids are told apart and the last one collides, its new id is taken. */
  lemma LastCollides(cs: seq<Field>)
    requires cs != [] && UniqueKeys(cs) && !Injective(Keys(cs)) && Injective(Keys(cs[..|cs| - 1]))
    ensures RenameId(cs[|cs| - 1].key) in RenameAll(Keys(cs[..|cs| - 1]))
  {
    var init, last := cs[..|cs| - 1], cs[|cs| - 1].key;
    var few := Keys(init);
    assert Keys(cs) == few + [last];
    assert !InjectiveOn(RenameId, few + [last]);
    assert InjectiveOn(RenameId, few);
    var i := LastImage(RenameId, few, last);
    assert RenameAll(few)[i] == RenameId(last);
  }

  ghost predicate InjectiveOn(f: string -> string, ids: seq<string>) {
    forall x, y :: x in ids && y in ids && f(x) == f(y) ==> x == y
  }

  lemma LastImage(f: string -> string, few: seq<string>, last: string) returns (i: nat)
    requires InjectiveOn(f, few) && !InjectiveOn(f, few + [last])
    ensures i < |few| && f(few[i]) == f(last)
  {
    var x, y :| x in few + [last] && y in few + [last] && f(x) == f(y) && x != y;
    var other := if x == last then y else x;
    assert other in few;
    i :| 0 <= i < |few| && few[i] == other;
  }

  lemma UniquePrefix(cs: seq<Field>)
    requires cs != [] && UniqueKeys(cs)
    ensures UniqueKeys(cs[..|cs| - 1])
  {
    assert Keys(cs[..|cs| - 1]) == Keys(cs)[..|cs| - 1];
  }

  /** A collision loses a component. */
  lemma {:induction false} CollisionLosesComponent(ids: seq<string>, cs: seq<Field>)
    requires UniqueKeys(cs) && !Injective(Keys(cs))
    ensures |RewriteComponents(ids, cs)| < |cs|
  {
    var init := cs[..|cs| - 1];
    UniquePrefix(cs);
    TableNeverGrows(ids, init);
    TableStep(ids, cs);
    TableSize(ids, cs);
    TableSize(ids, init);
    if Injective(Keys(init)) {
      TableKeys(ids, init);
      LastCollides(cs);
    } else {
      CollisionLosesComponent(ids, init);
    }
  }

  /** The number of components is kept exactly when the id map is injective. */
  lemma ComponentCountKept(ids: seq<string>, cs: seq<Field>)
    requires UniqueKeys(cs)
    ensures |RewriteComponents(ids, cs)| == |cs| <==> Injective(Keys(cs))
  {
    if Injective(Keys(cs)) {
      TableKeys(ids, cs);
      assert |Keys(RewriteComponents(ids, cs))| == |RewriteComponents(ids, cs)|;
    } else {
      CollisionLosesComponent(ids, cs);
    }
  }

  lemma {:induction false} GetPrefix(cs: seq<Field>, key: string)
    requires cs != [] && cs[|cs| - 1].key !in Keys(cs[..|cs| - 1])
    ensures Get(cs, key) == if key == cs[|cs| - 1].key then Some(cs[|cs| - 1].value) else Get(cs[..|cs| - 1], key)
  {
    if |cs| > 1 {
      var init := cs[..|cs| - 1];
      assert init[0] == cs[0] && init[1..] == cs[1..][..|cs[1..]| - 1];
      assert Keys(init) == [init[0].key] + Keys(init[1..]);
      assert Keys(init)[0] == cs[0].key;
      GetPrefix(cs[1..], key);
    }
  }

  /** Each component is found under its new id, rewritten. */
  lemma {:induction false} ComponentIsFound(ids: seq<string>, cs: seq<Field>, id: string)
    requires UniqueKeys(cs) && Injective(Keys(cs)) && id in Keys(cs)
    ensures Get(cs, id).Some?
    ensures Get(RewriteComponents(ids, cs), RenameId(id)) == Some(RewriteComponent(ids, Get(cs, id).value))
  {
    GetIsField(cs, id);
    var init, last := cs[..|cs| - 1], cs[|cs| - 1];
    var ks := Keys(cs);
    InjectivePrefix(cs);
    assert Keys(init) == ks[..|init|] && ks[|init|] == last.key && last.key in ks;
    assert last.key !in Keys(init);
    GetPrefix(cs, id);
    GetAfterSet(RewriteComponents(ids, init), RenameId(last.key), RewriteComponent(ids, last.value), RenameId(id));
    if id != last.key {
      assert id in Keys(init);
      ComponentIsFound(ids, init, id);
    }
  }

  // ---- Links ----

  /** Entry `b` stands in the list field `key` of component `a`. */
  ghost predicate Links(cs: seq<Field>, key: string, a: string, b: string) {
    && Get(cs, a).Some? && Get(cs, a).value.JObj?
    && var l := Get(Get(cs, a).value.fields, key);
       l.Some? && l.value.JArr? && JStr(b) in l.value.items
  }

  /** What becomes of an entry or parent: it is rewritten as a text and then looked up. */
  function LinkImage(ids: seq<string>, y: string): string {
    MapId(ids, RewriteText(ids, y))
  }

  /** An entry of `a` that names no component becomes the new id of `b`. */
  ghost predicate Strays(cs: seq<Field>, key: string, a: string, b: string) {
    exists y :: y !in Keys(cs) && Links(cs, key, a, y) && LinkImage(Keys(cs), y) == RenameId(b)
  }

  lemma {:induction false} GetRewrittenField(ids: seq<string>, fields: seq<Field>, key: string)
    ensures Get(RewriteValue(ids, JObj(fields)).fields, key) ==
              if Get(fields, key).Some? then Some(RewriteValue(ids, Get(fields, key).value)) else None
  {
    if fields != [] {
      var r := RewriteValue(ids, JObj(fields)).fields;
      assert r[1..] == RewriteValue(ids, JObj(fields[1..])).fields;
      GetRewrittenField(ids, fields[1..], key);
    }
  }

  lemma {:induction false} GetComponentField(ids: seq<string>, fields: seq<Field>, key: string)
    ensures Get(ComponentFields(ids, fields), key) ==
              if Get(fields, key).Some? then Some(ComponentField(ids, key, Get(fields, key).value)) else None
  {
    if fields != [] {
      assert ComponentFields(ids, fields)[1..] == ComponentFields(ids, fields[1..]);
      GetComponentField(ids, fields[1..], key);
    }
  }

  /** A component's own field after both renaming steps. */
  lemma FieldOfRewritten(ids: seq<string>, c: Json, key: string)
    requires c.JObj?
    ensures RewriteComponent(ids, c).JObj?
    ensures Get(RewriteComponent(ids, c).fields, key) ==
              if Get(c.fields, key).Some? then
                Some(ComponentField(ids, key, RewriteValue(ids, Get(c.fields, key).value)))
              else None
  {
    GetRewrittenField(ids, c.fields, key);
    GetComponentField(ids, RewriteValue(ids, c).fields, key);
  }

  /** Entries are renamed twice, by `rewrite_value` and by the map, and still end at their image. */
  lemma TwiceRenamedOnce(ids: seq<string>, s: string)
    requires s in ids
    ensures LinkImage(ids, s) == RenameId(s)
  {
    RenameIdIsSettled(s);
  }

  predicate LinkKey(key: string) {
    key == "downstream" || key == "upstream"
  }

  /** With an injective map, the migrated canvas links the images of exactly the components the original links, and
      of those an entry that named none strays to. */
  lemma LinksAreImages(cs: seq<Field>, key: string, a: string, b: string)
    requires UniqueKeys(cs) && Injective(Keys(cs)) && LinkKey(key)
    requires a in Keys(cs) && b in Keys(cs)
    ensures Links(RewriteComponents(Keys(cs), cs), key, RenameId(a), RenameId(b))
            <==> Links(cs, key, a, b) || Strays(cs, key, a, b)
  {
    var ids := Keys(cs);
    ComponentIsFound(ids, cs, a);
    var c := Get(cs, a).value;
    if c.JObj? {
      FieldOfRewritten(ids, c, key);
      var l := Get(c.fields, key);
      if l.Some? && l.value.JArr? {
        ListLinks(ids, l.value.items, b);
        assert forall y :: Links(cs, key, a, y) <==> JStr(y) in l.value.items;
      }
    }
  }

  lemma ListLinks(ids: seq<string>, items: seq<Json>, b: string)
    requires Injective(ids) && b in ids
    ensures MapList(ids, RewriteValue(ids, JArr(items))).JArr?
    ensures JStr(RenameId(b)) in MapList(ids, RewriteValue(ids, JArr(items))).items
            <==> JStr(b) in items || exists y :: y !in ids && JStr(y) in items && LinkImage(ids, y) == RenameId(b)
  {
    var r := MapList(ids, RewriteValue(ids, JArr(items))).items;
    if JStr(RenameId(b)) in r {
      var i :| 0 <= i < |r| && r[i] == JStr(RenameId(b));
      EntryIsImage(ids, items, i);
      assert items[i] in items && items[i] == JStr(items[i].s);
      if items[i].s in ids {
        TwiceRenamedOnce(ids, items[i].s);
      }
    }
    if y :| JStr(y) in items && LinkImage(ids, y) == RenameId(b) {
      var i :| 0 <= i < |items| && items[i] == JStr(y);
      EntryIsImage(ids, items, i);
      assert r[i] in r;
    }
    if JStr(b) in items {
      TwiceRenamedOnce(ids, b);
    }
  }

  lemma EntryIsImage(ids: seq<string>, items: seq<Json>, i: nat)
    requires i < |items|
    ensures var r := MapList(ids, RewriteValue(ids, JArr(items)));
            && r.JArr? && |r.items| == |items| && (items[i].JStr? <==> r.items[i].JStr?)
            && (items[i].JStr? ==> r.items[i] == JStr(LinkImage(ids, items[i].s)))
  {
    var r := MapList(ids, RewriteValue(ids, JArr(items))).items;
    assert r[i] == MapIfString(ids, RewriteValue(ids, items[i]));
  }

  /** The parent of a component becomes its image. */
  lemma ParentIsImage(ids: seq<string>, c: Json, p: string)
    requires c.JObj? && Get(c.fields, "parent_id") == Some(JStr(p))
    ensures RewriteComponent(ids, c).JObj?
    ensures Get(RewriteComponent(ids, c).fields, "parent_id") == Some(JStr(LinkImage(ids, p)))
  {
    FieldOfRewritten(ids, c, "parent_id");
  }

  lemma {:induction false} GetEdgeField(ids: seq<string>, fields: seq<Field>, key: string)
    ensures Get(RewriteEdge(ids, JObj(fields)).fields, key) ==
              if Get(fields, key).Some? then Some(EdgeField(ids, key, Get(fields, key).value)) else None
  {
    if fields != [] {
      assert RewriteEdge(ids, JObj(fields)).fields[1..] == RewriteEdge(ids, JObj(fields[1..])).fields;
      GetEdgeField(ids, fields[1..], key);
    }
  }
}
