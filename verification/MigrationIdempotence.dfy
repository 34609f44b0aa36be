/** Normalising twice equals normalising once, on every JSON document. */
module MigrationIdempotence {
  import opened PyValues
  import opened Text
  import opened JsonDoc
  import opened References
  import opened DslMigration

  /** No id in the list carries a legacy prefix: the second pass renames nothing. */
  predicate Settled(ids: seq<string>) {
    forall x :: x in ids ==> RenameId(x) == x
  }

  lemma PrefixHead(p: string, s: string)
    requires p != [] && p <= s
    ensures s[0] == p[0]
  {
  }

  /** No renamed id starts with a legacy prefix. */
  lemma RenameIdIsSettled(id: string)
    ensures RenameId(RenameId(id)) == RenameId(id)
  {
    var r := RenameId(id);
    if r != id {
      // the current prefixes are told apart from the legacy ones by their second character
      assert r[1] == 'o' || r[1] == 'i';
      assert LegacyPrefix(0)[1] == 'p' && LegacyPrefix(1)[1] == 'i' && LegacyPrefix(2)[1] == 'D';
      assert LegacyPrefix(1)[0] == 'H' && (r[0] == 'T' || r[0] == 'D');
      assert !(LegacyPrefix(0) <= r) && !(LegacyPrefix(1) <= r) && !(LegacyPrefix(2) <= r);
    }
  }

  lemma SettledText(ids: seq<string>, t: string)
    requires Settled(ids)
    ensures RewriteText(ids, t) == t
  {
    SubstituteIdentity(Renaming(ids), t);
  }

  lemma {:induction false} SettledValue(ids: seq<string>, v: Json)
    requires Settled(ids)
    ensures RewriteValue(ids, v) == v
  {
    match v {
      case JStr(s) => SettledText(ids, s);
      case JArr(items) =>
        forall i | 0 <= i < |items|
          ensures RewriteValue(ids, items[i]) == items[i]
        {
          SettledValue(ids, items[i]);
        }
      case JObj(fields) =>
        forall i | 0 <= i < |fields|
          ensures RewriteValue(ids, fields[i].value) == fields[i].value
        {
          SettledValue(ids, fields[i].value);
        }
      case _ =>
    }
  }

  lemma SettledList(ids: seq<string>, v: Json)
    requires Settled(ids)
    ensures MapList(ids, v) == v
  {
    if v.JArr? {
      assert MapEntries(ids, v.items) == v.items;
    }
  }

  lemma RenameNameValueIdempotent(v: Json)
    ensures RenameNameValue(RenameNameValue(v)) == RenameNameValue(v)
  {
  }

  lemma RenameObjectIdempotent(fields: seq<Field>)
    ensures RenameObject(RenameObject(fields)) == RenameObject(fields)
  {
    var r := RenameObject(fields);
    if "component_name" !in Keys(fields) {
      assert Keys(r)[|fields|] == "component_name";
      forall i | 0 <= i < |r|
        ensures RenameObject(r)[i] == r[i]
      {
        if i < |fields| {
          assert Keys(fields)[i] == fields[i].key;
        }
      }
    } else {
      assert Keys(r) == Keys(fields);
      forall i | 0 <= i < |r|
        ensures RenameObject(r)[i] == r[i]
      {
        RenameNameValueIdempotent(fields[i].value);
      }
    }
  }

  /** The second pass leaves every rewritten component field alone. */
  lemma ComponentFieldSettled(ids: seq<string>, next: seq<string>, key: string, v: Json)
    requires Settled(next)
    ensures ComponentField(next, key, ComponentField(ids, key, v)) == ComponentField(ids, key, v)
  {
    var w := ComponentField(ids, key, v);
    if key == "obj" {
      if v.JObj? {
        RenameObjectIdempotent(v.fields);
      }
    } else if key == "downstream" || key == "upstream" {
      SettledList(next, w);
    }
  }

  lemma ComponentSettled(ids: seq<string>, next: seq<string>, c: Json)
    requires Settled(next)
    ensures RewriteComponent(next, RewriteComponent(ids, c)) == RewriteComponent(ids, c)
  {
    var r := RewriteComponent(ids, c);
    SettledValue(next, r);
    var n := RewriteValue(ids, c);
    if n.JObj? {
      forall i | 0 <= i < |n.fields|
        ensures ComponentFields(next, r.fields)[i] == r.fields[i]
      {
        ComponentFieldSettled(ids, next, n.fields[i].key, n.fields[i].value);
      }
      assert ComponentFields(next, r.fields) == r.fields;
    }
  }

  /** What the first pass leaves in the component table of `orig`. */
  ghost predicate Rewritten(ids: seq<string>, orig: seq<Field>, cs: seq<Field>) {
    && UniqueKeys(cs)
    && Settled(Keys(cs))
    && forall f :: f in cs ==> FromComponent(ids, orig, f)
  }

  ghost predicate FromComponent(ids: seq<string>, orig: seq<Field>, f: Field) {
    exists o :: o in orig && f.value == RewriteComponent(ids, o.value)
  }

  lemma {:induction false} TableIsRewritten(ids: seq<string>, orig: seq<Field>, cs: seq<Field>)
    requires forall o :: o in cs ==> o in orig
    ensures Rewritten(ids, orig, RewriteComponents(ids, cs))
  {
    if cs != [] {
      var last := cs[|cs| - 1];
      TableIsRewritten(ids, orig, cs[..|cs| - 1]);
      RenameIdIsSettled(last.key);
      SetKeepsRewritten(ids, orig, RewriteComponents(ids, cs[..|cs| - 1]), RenameId(last.key), last);
    }
  }

  lemma SetKeepsRewritten(ids: seq<string>, orig: seq<Field>, cs: seq<Field>, key: string, o: Field)
    requires Rewritten(ids, orig, cs) && RenameId(key) == key && o in orig
    ensures Rewritten(ids, orig, SetField(cs, key, RewriteComponent(ids, o.value)))
  {
    SetKeys(cs, key, RewriteComponent(ids, o.value));
    SetFields(cs, key, RewriteComponent(ids, o.value));
  }

  lemma RewrittenPrefix(ids: seq<string>, orig: seq<Field>, cs: seq<Field>)
    requires Rewritten(ids, orig, cs) && cs != []
    ensures Rewritten(ids, orig, cs[..|cs| - 1])
    ensures cs[|cs| - 1].key !in Keys(cs[..|cs| - 1])
    ensures RenameId(cs[|cs| - 1].key) == cs[|cs| - 1].key
  {
    var init := cs[..|cs| - 1];
    assert Keys(init) == Keys(cs)[..|init|];
    assert Keys(cs)[|init|] == cs[|init|].key;
    assert cs[|init|].key in Keys(cs);
  }

  lemma {:induction false} SetFields(cs: seq<Field>, key: string, v: Json)
    ensures forall f :: f in SetField(cs, key, v) ==> f in cs || f.value == v
  {
    if cs != [] && cs[0].key != key {
      SetFields(cs[1..], key, v);
      assert cs == [cs[0]] + cs[1..];
    }
  }

  /** Rewriting a rewritten table, entry by entry, builds the same table again. */
  lemma {:induction false} TableSettled(ids: seq<string>, next: seq<string>, orig: seq<Field>, cs: seq<Field>)
    requires Settled(next) && Rewritten(ids, orig, cs)
    ensures RewriteComponents(next, cs) == cs
  {
    if cs != [] {
      var init, last := cs[..|cs| - 1], cs[|cs| - 1];
      RewrittenPrefix(ids, orig, cs);
      TableSettled(ids, next, orig, init);
      EntrySettled(ids, next, orig, last);
      AddEntry(next, cs);
      SetFresh(init, last.key, last.value);
      assert cs == init + [last];
    }
  }

  lemma AddEntry(ids: seq<string>, cs: seq<Field>)
    requires cs != []
    ensures var last := cs[|cs| - 1];
            RewriteComponents(ids, cs)
            == SetField(RewriteComponents(ids, cs[..|cs| - 1]), RenameId(last.key), RewriteComponent(ids, last.value))
  {
  }

  lemma EntrySettled(ids: seq<string>, next: seq<string>, orig: seq<Field>, f: Field)
    requires Settled(next) && FromComponent(ids, orig, f)
    ensures RewriteComponent(next, f.value) == f.value
  {
    var o :| o in orig && f.value == RewriteComponent(ids, o.value);
    ComponentSettled(ids, next, o.value);
  }

  // ---- Graph ----

  lemma {:induction false} SettledReplace(ids: seq<string>, t: string)
    requires Settled(ids)
    ensures ReplaceIds(ids, t) == t
  {
    if ids != [] {
      assert ids[0] in ids;
      ReplaceBySelf(t, ids[0]);
      SettledReplace(ids[1..], t);
    }
  }

  lemma {:induction false} SortKeepsMembers(s: seq<string>)
    ensures forall x :: x in SortByLength(s) <==> x in s
  {
    if s != [] {
      SortKeepsMembers(s[1..]);
      InsertMembers(s[0], SortByLength(s[1..]));
      assert s == [s[0]] + s[1..];
    }
  }

  lemma {:induction false} InsertMembers(y: string, s: seq<string>)
    ensures forall x :: x in InsertByLength(y, s) <==> x == y || x in s
  {
    if s != [] && |y| < |s[0]| {
      InsertMembers(y, s[1..]);
      assert s == [s[0]] + s[1..];
    }
  }

  lemma EdgeSettled(ids: seq<string>, next: seq<string>, edge: Json)
    requires Settled(next)
    ensures RewriteEdge(next, RewriteEdge(ids, edge)) == RewriteEdge(ids, edge)
  {
    if edge.JObj? {
      var r := RewriteEdge(ids, edge);
      SortKeepsMembers(next);
      forall i | 0 <= i < |edge.fields|
        ensures EdgeField(next, r.fields[i].key, r.fields[i].value) == r.fields[i].value
      {
        if r.fields[i].value.JStr? {
          SettledReplace(SortByLength(next), r.fields[i].value.s);
        }
      }
      assert RewriteEdge(next, r).fields == r.fields;
    }
  }

  lemma DataFieldSettled(ids: seq<string>, next: seq<string>, key: string, v: Json)
    requires Settled(next)
    ensures DataField(next, key, DataField(ids, key, v)) == DataField(ids, key, v)
  {
    RenameNameValueIdempotent(v);
    SettledValue(next, DataField(ids, key, v));
  }

  lemma DataSettled(ids: seq<string>, next: seq<string>, fields: seq<Field>)
    requires Settled(next)
    ensures DataFields(next, DataFields(ids, fields)) == DataFields(ids, fields)
  {
    forall i | 0 <= i < |fields|
      ensures DataFields(next, DataFields(ids, fields))[i] == DataFields(ids, fields)[i]
    {
      DataFieldSettled(ids, next, fields[i].key, fields[i].value);
    }
  }

  lemma NodeFieldSettled(ids: seq<string>, next: seq<string>, key: string, v: Json)
    requires Settled(next)
    ensures NodeField(next, key, NodeField(ids, key, v)) == NodeField(ids, key, v)
  {
    if key == "data" && v.JObj? {
      DataSettled(ids, next, v.fields);
    }
  }

  lemma NodeSettled(ids: seq<string>, next: seq<string>, node: Json)
    requires Settled(next)
    ensures RewriteNode(next, RewriteNode(ids, node)) == RewriteNode(ids, node)
  {
    if node.JObj? {
      var r := RewriteNode(ids, node);
      forall i | 0 <= i < |node.fields|
        ensures RewriteNode(next, r).fields[i] == r.fields[i]
      {
        NodeFieldSettled(ids, next, node.fields[i].key, node.fields[i].value);
      }
      assert RewriteNode(next, r).fields == r.fields;
    }
  }

  lemma GraphFieldSettled(ids: seq<string>, next: seq<string>, key: string, v: Json)
    requires Settled(next)
    ensures GraphField(next, key, GraphField(ids, key, v)) == GraphField(ids, key, v)
  {
    if key == "nodes" && v.JArr? {
      var r := RewriteNodes(ids, v.items);
      forall i | 0 <= i < |r|
        ensures RewriteNodes(next, r)[i] == r[i]
      {
        NodeSettled(ids, next, v.items[i]);
      }
      assert RewriteNodes(next, r) == r;
    } else if key == "edges" && v.JArr? {
      var r := RewriteEdges(ids, v.items);
      forall i | 0 <= i < |r|
        ensures RewriteEdges(next, r)[i] == r[i]
      {
        EdgeSettled(ids, next, v.items[i]);
      }
      assert RewriteEdges(next, r) == r;
    }
  }

  lemma GraphSettled(ids: seq<string>, next: seq<string>, fields: seq<Field>)
    requires Settled(next)
    ensures GraphFields(next, GraphFields(ids, fields)) == GraphFields(ids, fields)
  {
    forall i | 0 <= i < |fields|
      ensures GraphFields(next, GraphFields(ids, fields))[i] == GraphFields(ids, fields)[i]
    {
      GraphFieldSettled(ids, next, fields[i].key, fields[i].value);
    }
  }

  // ---- The document ----

  lemma TopFieldSettled(ids: seq<string>, next: seq<string>, key: string, v: Json)
    requires Settled(next)
    ensures TopField(next, key, TopField(ids, key, v)) == TopField(ids, key, v)
  {
    var w := TopField(ids, key, v);
    if key == "components" {
      if v.JObj? {
        TableIsRewritten(ids, v.fields, v.fields);
        TableSettled(ids, next, v.fields, w.fields);
      }
    } else if key == "path" {
      SettledList(next, w);
    } else if key == "graph" {
      if v.JObj? {
        GraphSettled(ids, next, v.fields);
      }
    } else {
      SettledValue(next, w);
    }
  }

  lemma TopSettled(ids: seq<string>, next: seq<string>, fields: seq<Field>)
    requires Settled(next)
    ensures TopFields(next, TopFields(ids, fields)) == TopFields(ids, fields)
  {
    forall i | 0 <= i < |fields|
      ensures TopFields(next, TopFields(ids, fields))[i] == TopFields(ids, fields)[i]
    {
      TopFieldSettled(ids, next, fields[i].key, fields[i].value);
    }
  }

  lemma {:induction false} GetTop(ids: seq<string>, fields: seq<Field>, key: string)
    ensures Get(TopFields(ids, fields), key) ==
              if Get(fields, key).Some? then Some(TopField(ids, key, Get(fields, key).value)) else None
  {
    if fields != [] {
      assert TopFields(ids, fields)[1..] == TopFields(ids, fields[1..]);
      GetTop(ids, fields[1..], key);
    }
  }

  // ---- The second pass does not raise either ----

  lemma RewriteKeepsKind(ids: seq<string>, v: Json)
    ensures Unhashable(RewriteValue(ids, v)) <==> Unhashable(v)
  {
  }

  lemma ListStillHashable(v: Json, w: Json)
    requires v.JArr? && w.JArr? && |v.items| == |w.items|
    requires forall i :: 0 <= i < |v.items| ==> (Unhashable(w.items[i]) <==> Unhashable(v.items[i]))
    ensures ListRaises(w) <==> ListRaises(v)
  {
    if x :| x in v.items && Unhashable(x) {
      var i :| 0 <= i < |v.items| && v.items[i] == x;
      assert w.items[i] in w.items;
    }
    if x :| x in w.items && Unhashable(x) {
      var i :| 0 <= i < |w.items| && w.items[i] == x;
      assert v.items[i] in v.items;
    }
  }

  lemma MappedListRaises(ids: seq<string>, v: Json)
    ensures ListRaises(MapList(ids, v)) <==> ListRaises(v)
  {
    if v.JArr? {
      ListStillHashable(v, MapList(ids, v));
    }
  }

  lemma RewrittenListRaises(ids: seq<string>, v: Json)
    ensures ListRaises(MapList(ids, RewriteValue(ids, v))) <==> ListRaises(v)
  {
    MappedListRaises(ids, RewriteValue(ids, v));
    if v.JArr? {
      forall i | 0 <= i < |v.items|
        ensures Unhashable(RewriteValue(ids, v).items[i]) <==> Unhashable(v.items[i])
      {
        RewriteKeepsKind(ids, v.items[i]);
      }
      ListStillHashable(v, RewriteValue(ids, v));
    }
  }

  lemma RewrittenNameRaises(ids: seq<string>, v: Json)
    requires NameRaises(ComponentField(ids, "obj", RewriteValue(ids, v)))
    ensures NameRaises(v)
  {
    var n := RewriteValue(ids, v).fields;
    var r := RenameObject(n);
    var g :| g in r && g.key == "component_name" && Unhashable(g.value);
    var i :| 0 <= i < |r| && r[i] == g;
    assert i < |n| && Unhashable(n[i].value);
    RewriteKeepsKind(ids, v.fields[i].value);
    assert v.fields[i] in v.fields;
  }

  lemma RewrittenComponentRaises(ids: seq<string>, c: Json)
    requires ComponentRaises(RewriteComponent(ids, c))
    ensures ComponentRaises(c)
  {
    var r := RewriteComponent(ids, c);
    var f :| f in r.fields && FieldRaises(f);
    var i :| 0 <= i < |r.fields| && r.fields[i] == f;
    var v := c.fields[i].value;
    assert c.fields[i] in c.fields && c.fields[i].key == f.key;
    assert f.value == ComponentField(ids, f.key, RewriteValue(ids, v));
    if f.key == "obj" {
      RewrittenNameRaises(ids, v);
    } else {
      RewrittenListRaises(ids, v);
    }
    assert FieldRaises(c.fields[i]);
  }

  /** What the first pass produces can be normalised again without an exception. */
  lemma SecondPassDoesNotRaise(d: Json)
    requires HasComponents(d) && !Raises(d)
    ensures HasComponents(JObj(TopFields(ComponentIds(d), d.fields)))
    ensures ComponentsOf(JObj(TopFields(ComponentIds(d), d.fields)))
            == RewriteComponents(ComponentIds(d), ComponentsOf(d))
    ensures !Raises(JObj(TopFields(ComponentIds(d), d.fields)))
  {
    var ids, cs := ComponentIds(d), ComponentsOf(d);
    var e := JObj(TopFields(ids, d.fields));
    GetTop(ids, d.fields, "components");
    TableIsRewritten(ids, cs, cs);
    forall f | f in ComponentsOf(e)
      ensures !ComponentRaises(f.value)
    {
      var o :| o in cs && f.value == RewriteComponent(ids, o.value);
      if ComponentRaises(f.value) {
        RewrittenComponentRaises(ids, o.value);
      }
    }
    forall f | f in e.fields && f.key == "path"
      ensures !ListRaises(f.value)
    {
      var i :| 0 <= i < |e.fields| && e.fields[i] == f;
      assert d.fields[i] in d.fields;
      MappedListRaises(ids, d.fields[i].value);
    }
  }

  /** The first pass leaves a document whose ids are settled, and the second one leaves it alone. */
  lemma NormalizeIsIdempotent(d: Json)
    requires Normalize(d).Ok?
    ensures Normalize(Normalize(d).value) == Normalize(d)
  {
    if HasComponents(d) {
      var ids := ComponentIds(d);
      SecondPassDoesNotRaise(d);
      TableIsRewritten(ids, ComponentsOf(d), ComponentsOf(d));
      TopSettled(ids, Keys(RewriteComponents(ids, ComponentsOf(d))), d.fields);
    }
  }
}
