/** `normalize_chunker_dsl` as it is written: the id map, the new table and the
    edge ids are built up in loops, and fields of a working copy are overwritten. */
module MigrationCode {
  import opened PyValues
  import opened Text
  import opened JsonDoc
  import opened DslMigration
  import opened MigrationIdempotence
  import opened MigrationIsomorphism
  import opened MigrationGraph

  /** `m` sends every component id, and nothing else, to its new spelling. */
  ghost predicate MapsIds(ids: seq<string>, m: map<string, string>) {
    forall x: string :: (x in m <==> x in ids) && (x in m ==> m[x] == RenameId(x))
  }

  /** `component_id_map`: the first legacy prefix that fits decides. */
  method BuildIdMap(ids: seq<string>) returns (m: map<string, string>)
    ensures MapsIds(ids, m)
  {
    m := map[];
    for n := 0 to |ids|
      invariant MapsIds(ids[..n], m)
    {
      var id := ids[n];
      var newId := NewId(id);
      m := m[id := newId];
      assert ids[..n + 1] == ids[..n] + [id];
    }
    assert ids[..|ids|] == ids;
  }

  method NewId(id: string) returns (newId: string)
    ensures newId == RenameId(id)
  {
    newId := id;
    var i := 0;
    while i < 3
      invariant i <= 3 && newId == id
      invariant forall j: nat :: j < i ==> !(LegacyPrefix(j) <= id)
    {
      if LegacyPrefix(i) <= id {
        newId := CurrentPrefix(i) + id[|LegacyPrefix(i)|..];
        return;
      }
      i := i + 1;
    }
    assert !(LegacyPrefix(0) <= id) && !(LegacyPrefix(1) <= id) && !(LegacyPrefix(2) <= id);
  }

  function MapGet(m: map<string, string>, s: string): string {
    if s in m then m[s] else s
  }

  /** `[component_id_map.get(x, x) for x in items]`; looking up a list or dictionary raises. */
  method MapNames(ids: seq<string>, m: map<string, string>, items: seq<Json>) returns (r: Result<seq<Json>>)
    requires MapsIds(ids, m)
    ensures r == if exists x :: x in items && Unhashable(x) then Err("unhashable type") else Ok(MapEntries(ids, items))
  {
    var out: seq<Json> := [];
    for n := 0 to |items|
      invariant out == MapEntries(ids, items[..n])
      invariant forall x :: x in items[..n] ==> !Unhashable(x)
    {
      if Unhashable(items[n]) {
        assert items[n] in items;
        return Err("unhashable type");
      }
      assert items[..n + 1] == items[..n] + [items[n]];
      MapEntriesSnoc(ids, items[..n], items[n]);
      out := out + [if items[n].JStr? then JStr(MapGet(m, items[n].s)) else items[n]];
    }
    assert items[..|items|] == items;
    r := Ok(out);
  }

  lemma MapEntriesSnoc(ids: seq<string>, items: seq<Json>, x: Json)
    ensures MapEntries(ids, items + [x]) == MapEntries(ids, items) + [MapIfString(ids, x)]
  {
  }

  /** Overwrites a field that holds a list of ids. */
  method OverwriteList(ids: seq<string>, m: map<string, string>, fields: seq<Field>, key: string)
    returns (r: Result<seq<Field>>)
    requires MapsIds(ids, m) && UniqueKeys(fields)
    ensures r == if Get(fields, key).Some? && ListRaises(Get(fields, key).value) then Err("unhashable type")
                 else Ok(MapKey(fields, key, v => MapList(ids, v)))
  {
    var v := Get(fields, key);
    if v.Some? && v.value.JArr? {
      var names := MapNames(ids, m, v.value.items);
      if names.Err? {
        return Err(names.reason);
      }
      SetIsMapKey(fields, key, v => MapList(ids, v));
      r := Ok(SetField(fields, key, JArr(names.value)));
    } else {
      KeptIsMapKey(fields, key, v => MapList(ids, v));
      r := Ok(fields);
    }
  }

  /** Overwrites a field that holds an id. */
  method OverwriteId(ids: seq<string>, m: map<string, string>, fields: seq<Field>, key: string) returns (r: seq<Field>)
    requires MapsIds(ids, m) && UniqueKeys(fields)
    ensures r == MapKey(fields, key, v => MapIfString(ids, v))
  {
    var v := Get(fields, key);
    if v.Some? && v.value.JStr? {
      SetIsMapKey(fields, key, v => MapIfString(ids, v));
      r := SetField(fields, key, JStr(MapGet(m, v.value.s)));
    } else {
      KeptIsMapKey(fields, key, v => MapIfString(ids, v));
      r := fields;
    }
  }

  /** `obj["component_name"] = COMPONENT_RENAMES.get(name, name)`, which adds a missing name as null. */
  method OverwriteName(obj: seq<Field>) returns (r: Result<seq<Field>>)
    requires UniqueKeys(obj)
    ensures r == if NameRaises(JObj(obj)) then Err("unhashable type") else Ok(RenameObject(obj))
  {
    var name := Get(obj, "component_name");
    NameIsGot(obj);
    GetIsField(obj, "component_name");
    if name.None? {
      SetFresh(obj, "component_name", JNull);
      return Ok(SetField(obj, "component_name", JNull));
    }
    if Unhashable(name.value) {
      return Err("unhashable type");
    }
    SetIsMapKey(obj, "component_name", RenameNameValue);
    assert MapKey(obj, "component_name", RenameNameValue) == RenameObject(obj);
    r := Ok(SetField(obj, "component_name", if name.value.JStr? then JStr(RenameName(name.value.s)) else name.value));
  }

  lemma NameIsGot(obj: seq<Field>)
    requires UniqueKeys(obj)
    ensures NameRaises(JObj(obj)) <==> Get(obj, "component_name").Some? && Unhashable(Get(obj, "component_name").value)
  {
    GetIsField(obj, "component_name");
    if NameRaises(JObj(obj)) {
      var g :| g in obj && g.key == "component_name" && Unhashable(g.value);
      var i :| 0 <= i < |obj| && obj[i] == g;
      GetUnique(obj, i);
    }
  }

  /** What the component pass makes of `obj`. */
  ghost function RenamedObject(v: Json): Json {
    if v.JObj? then JObj(RenameObject(v.fields)) else v
  }

  method OverwriteObject(fields: seq<Field>) returns (r: Result<seq<Field>>)
    requires UniqueKeys(fields)
    requires Get(fields, "obj").Some? && Get(fields, "obj").value.JObj? ==> UniqueKeys(Get(fields, "obj").value.fields)
    ensures r == if Get(fields, "obj").Some? && NameRaises(Get(fields, "obj").value) then Err("unhashable type")
                 else Ok(MapKey(fields, "obj", RenamedObject))
  {
    var obj := Get(fields, "obj");
    if obj.Some? && obj.value.JObj? {
      var named := OverwriteName(obj.value.fields);
      if named.Err? {
        return Err(named.reason);
      }
      SetIsMapKey(fields, "obj", RenamedObject);
      r := Ok(SetField(fields, "obj", JObj(named.value)));
    } else {
      KeptIsMapKey(fields, "obj", RenamedObject);
      r := Ok(fields);
    }
  }

  /** One component: every string in it is rewritten, then its name, links and parent are overwritten one by one. */
  method RewriteComponentFields(ids: seq<string>, m: map<string, string>, component: Json) returns (r: Result<Json>)
    requires MapsIds(ids, m) && Dictionaries(component)
    ensures r == if ComponentRaises(component) then Err("unhashable type") else Ok(RewriteComponent(ids, component))
  {
    var rewritten := RewriteValue(ids, component);
    if !rewritten.JObj? {
      return Ok(rewritten);
    }
    var c0 := rewritten.fields;
    RewrittenIsDictionary(ids, component);
    ComponentRaisesWhere(ids, component);
    GetIsField(c0, "obj");
    var c1 := OverwriteObject(c0);
    if c1.Err? {
      return Err(c1.reason);
    }
    GetMapped(c0, "obj", RenamedObject, "downstream");
    var c2 := OverwriteList(ids, m, c1.value, "downstream");
    if c2.Err? {
      return Err(c2.reason);
    }
    GetMapped(c0, "obj", RenamedObject, "upstream");
    GetMapped(c1.value, "downstream", v => MapList(ids, v), "upstream");
    var c3 := OverwriteList(ids, m, c2.value, "upstream");
    if c3.Err? {
      return Err(c3.reason);
    }
    var c4 := OverwriteId(ids, m, c3.value, "parent_id");
    FourOverwrites(ids, c0, c1.value, c2.value, c3.value, c4);
    r := Ok(JObj(c4));
  }

  lemma {:induction false} RewrittenIsDictionary(ids: seq<string>, v: Json)
    requires Dictionaries(v)
    ensures Dictionaries(RewriteValue(ids, v))
  {
    match v {
      case JArr(items) =>
        forall i | 0 <= i < |items|
          ensures Dictionaries(RewriteValue(ids, v).items[i])
        {
          RewrittenIsDictionary(ids, items[i]);
        }
      case JObj(fields) =>
        assert Keys(RewriteValue(ids, v).fields) == Keys(fields);
        forall i | 0 <= i < |fields|
          ensures Dictionaries(RewriteValue(ids, v).fields[i].value)
        {
          RewrittenIsDictionary(ids, fields[i].value);
        }
      case _ =>
    }
  }

  /** The three places at which a component can raise, seen after the rewriting. */
  lemma ComponentRaisesWhere(ids: seq<string>, c: Json)
    requires c.JObj? && Dictionaries(c)
    ensures var r := RewriteValue(ids, c).fields;
            ComponentRaises(c) <==>
              || (Get(r, "obj").Some? && NameRaises(Get(r, "obj").value))
              || (Get(r, "downstream").Some? && ListRaises(Get(r, "downstream").value))
              || (Get(r, "upstream").Some? && ListRaises(Get(r, "upstream").value))
  {
    GetRewrittenField(ids, c.fields, "obj");
    GetRewrittenField(ids, c.fields, "downstream");
    GetRewrittenField(ids, c.fields, "upstream");
    FieldRaisesWhere(ids, c.fields, "obj");
    FieldRaisesWhere(ids, c.fields, "downstream");
    FieldRaisesWhere(ids, c.fields, "upstream");
    if ComponentRaises(c) {
      var f :| f in c.fields && FieldRaises(f);
      var i :| 0 <= i < |c.fields| && c.fields[i] == f;
      GetUnique(c.fields, i);
    }
  }

  lemma FieldRaisesWhere(ids: seq<string>, fields: seq<Field>, key: string)
    ensures Get(fields, key).Some? ==>
            var v := Get(fields, key).value;
            && Field(key, v) in fields
            && (NameRaises(RewriteValue(ids, v)) <==> NameRaises(v))
            && (ListRaises(RewriteValue(ids, v)) <==> ListRaises(v))
  {
    GetIsField(fields, key);
    if Get(fields, key).Some? {
      var v := Get(fields, key).value;
      MappedListRaises(ids, RewriteValue(ids, v));
      RewrittenListRaises(ids, v);
      NameStillRaises(ids, v);
    }
  }

  lemma NameStillRaises(ids: seq<string>, v: Json)
    ensures NameRaises(RewriteValue(ids, v)) <==> NameRaises(v)
  {
    if v.JObj? {
      var w := RewriteValue(ids, v).fields;
      forall i | 0 <= i < |w|
        ensures w[i].key == v.fields[i].key && (Unhashable(w[i].value) <==> Unhashable(v.fields[i].value))
        ensures w[i] in w && v.fields[i] in v.fields
      {
        RewriteKeepsKind(ids, v.fields[i].value);
      }
      assert forall g :: g in w ==> exists i :: 0 <= i < |w| && w[i] == g;
      assert forall g :: g in v.fields ==> exists i :: 0 <= i < |w| && v.fields[i] == g;
    }
  }

  /** The four overwrites come to the field-by-field description. */
  lemma FourOverwrites(ids: seq<string>, c0: seq<Field>, c1: seq<Field>, c2: seq<Field>, c3: seq<Field>, c4: seq<Field>)
    requires c1 == MapKey(c0, "obj", RenamedObject)
    requires c2 == MapKey(c1, "downstream", v => MapList(ids, v))
    requires c3 == MapKey(c2, "upstream", v => MapList(ids, v))
    requires c4 == MapKey(c3, "parent_id", v => MapIfString(ids, v))
    ensures c4 == ComponentFields(ids, c0)
  {
    forall i | 0 <= i < |c0|
      ensures c4[i] == ComponentFields(ids, c0)[i]
    {
      var key, v := c0[i].key, c0[i].value;
      assert c1[i] == Field(key, if key == "obj" then RenamedObject(v) else v);
      assert c2[i] == Field(key, if key == "downstream" then MapList(ids, v) else c1[i].value);
      assert c3[i] == Field(key, if key == "upstream" then MapList(ids, v) else c2[i].value);
    }
  }

  /** The loop over `components.items()`. */
  method BuildComponents(ids: seq<string>, m: map<string, string>, cs: seq<Field>) returns (r: Result<seq<Field>>)
    requires MapsIds(ids, m) && ids == Keys(cs)
    requires forall i :: 0 <= i < |cs| ==> Dictionaries(cs[i].value)
    ensures r == if exists f :: f in cs && ComponentRaises(f.value) then Err("unhashable type")
                 else Ok(RewriteComponents(ids, cs))
  {
    var table: seq<Field> := [];
    for n := 0 to |cs|
      invariant table == RewriteComponents(ids, cs[..n])
      invariant forall f :: f in cs[..n] ==> !ComponentRaises(f.value)
    {
      OneMoreComponent(ids, cs, n);
      assert ids[n] == cs[n].key && cs[n] in cs;
      var component := RewriteComponentFields(ids, m, cs[n].value);
      if component.Err? {
        return Err(component.reason);
      }
      table := SetField(table, m[cs[n].key], component.value);
    }
    assert cs[..|cs|] == cs;
    r := Ok(table);
  }

  lemma OneMoreComponent(ids: seq<string>, cs: seq<Field>, n: nat)
    requires n < |cs|
    ensures cs[..n + 1] == cs[..n] + [cs[n]]
    ensures RewriteComponents(ids, cs[..n + 1])
            == SetField(RewriteComponents(ids, cs[..n]), RenameId(cs[n].key), RewriteComponent(ids, cs[n].value))
  {
    assert cs[..n + 1][..n] == cs[..n];
  }

  /** The innermost loop of the edge pass: longest ids first. */
  method ReplaceInEdgeId(m: map<string, string>, replacements: seq<string>, t: string) returns (r: string)
    requires forall x :: x in replacements ==> x in m && m[x] == RenameId(x)
    ensures r == ReplaceIds(replacements, t)
  {
    r := t;
    var rest := replacements;
    while rest != []
      invariant forall x :: x in rest ==> x in replacements
      invariant ReplaceIds(rest, r) == ReplaceIds(replacements, t)
      decreases |rest|
    {
      r := Replace(r, rest[0], m[rest[0]]);
      rest := rest[1..];
    }
  }

  /** What the edge pass makes of an edge's own id. */
  ghost function ReplacedId(ids: seq<string>, v: Json): Json {
    if v.JStr? then JStr(ReplaceIds(SortByLength(ids), v.s)) else v
  }

  /** One edge: its ends are overwritten, then its id. */
  method RewriteEdgeFields(ids: seq<string>, m: map<string, string>, replacements: seq<string>, edge: seq<Field>)
    returns (r: seq<Field>)
    requires MapsIds(ids, m) && UniqueKeys(edge)
    requires replacements == SortByLength(ids) && forall x :: x in replacements ==> x in ids
    ensures JObj(r) == RewriteEdge(ids, JObj(edge))
    ensures forall key, x :: key in {"source", "target"} && x in ids && Names(JObj(edge), key, x) ==>
              Names(JObj(r), key, RenameId(x))
  {
    var e1 := OverwriteId(ids, m, edge, "source");
    var e2 := OverwriteId(ids, m, e1, "target");
    var id := Get(e2, "id");
    if id.Some? && id.value.JStr? {
      var text := ReplaceInEdgeId(m, replacements, id.value.s);
      SetIsMapKey(e2, "id", v => ReplacedId(ids, v));
      r := SetField(e2, "id", JStr(text));
    } else {
      KeptIsMapKey(e2, "id", v => ReplacedId(ids, v));
      r := e2;
    }
    EdgeOverwrites(ids, edge, e1, e2, r);
    forall key, x | key in {"source", "target"} && x in ids && Names(JObj(edge), key, x)
      ensures Names(JObj(r), key, RenameId(x))
    {
      EdgeNamesImage(ids, JObj(edge), key, x);
    }
  }

  lemma EdgeOverwrites(ids: seq<string>, e0: seq<Field>, e1: seq<Field>, e2: seq<Field>, e3: seq<Field>)
    requires e1 == MapKey(e0, "source", v => MapIfString(ids, v))
    requires e2 == MapKey(e1, "target", v => MapIfString(ids, v))
    requires e3 == MapKey(e2, "id", v => ReplacedId(ids, v))
    ensures JObj(e3) == RewriteEdge(ids, JObj(e0))
  {
    var spec := RewriteEdge(ids, JObj(e0)).fields;
    forall i | 0 <= i < |e0|
      ensures e3[i] == spec[i]
    {
    }
  }

  /** The loop over the graph's edges, which rewrites them in place. */
  method BuildEdges(ids: seq<string>, m: map<string, string>, edges: seq<Json>) returns (r: seq<Json>)
    requires MapsIds(ids, m) && forall i :: 0 <= i < |edges| ==> Dictionaries(edges[i])
    ensures r == RewriteEdges(ids, edges)
  {
    var replacements := SortByLength(ids);
    forall x | x in replacements
      ensures x in ids
    {
      SortMembers(ids, x);
    }
    r := edges;
    for n := 0 to |edges|
      invariant |r| == |edges| && r[n..] == edges[n..]
      invariant r[..n] == RewriteEdges(ids, edges)[..n]
    {
      assert r[n] == r[n..][0];
      var edge := r[n];
      if edge.JObj? {
        var fields := RewriteEdgeFields(ids, m, replacements, edge.fields);
        r := r[n := JObj(fields)];
      }
      assert r[n] == RewriteEdge(ids, edges[n]);
    }
  }

  lemma {:induction false} SortMembers(s: seq<string>, x: string)
    requires x in SortByLength(s)
    ensures x in s
  {
    if s != [] {
      InsertMember(s[0], SortByLength(s[1..]), x);
      if x != s[0] {
        SortMembers(s[1..], x);
      }
    }
  }

  lemma {:induction false} InsertMember(y: string, s: seq<string>, x: string)
    requires x in InsertByLength(y, s)
    ensures x == y || x in s
  {
    if s != [] && |y| < |s[0]| && x != s[0] {
      InsertMember(y, s[1..], x);
    }
  }

  /** The `data` of a node: label, name and form are overwritten. */
  method RewriteData(ids: seq<string>, data: seq<Field>) returns (r: seq<Field>)
    requires UniqueKeys(data)
    ensures r == DataFields(ids, data)
    ensures CurrentText(Get(r, "label")) && CurrentText(Get(r, "name"))
  {
    var d1 := data;
    var caption := Get(data, "label");
    if caption.Some? && caption.value.JStr? {
      d1 := SetField(data, "label", JStr(RenameName(caption.value.s)));
      SetIsMapKey(data, "label", RenameNameValue);
    } else {
      KeptIsMapKey(data, "label", RenameNameValue);
    }
    var d2 := d1;
    var name := Get(d1, "name");
    if name.Some? && name.value.JStr? && RenameName(name.value.s) != name.value.s {
      d2 := SetField(d1, "name", JStr(RenameName(name.value.s)));
      SetIsMapKey(d1, "name", RenameNameValue);
    } else {
      KeptIsMapKey(d1, "name", RenameNameValue);
    }
    r := d2;
    var form := Get(d2, "form");
    if form.Some? {
      r := SetField(d2, "form", RewriteValue(ids, form.value));
      SetIsMapKey(d2, "form", v => RewriteValue(ids, v));
    } else {
      KeptIsMapKey(d2, "form", v => RewriteValue(ids, v));
    }
    DataOverwrites(ids, data, d1, d2, r);
    DataIsCurrent(ids, data);
  }

  lemma DataOverwrites(ids: seq<string>, d0: seq<Field>, d1: seq<Field>, d2: seq<Field>, d3: seq<Field>)
    requires d1 == MapKey(d0, "label", RenameNameValue) && d2 == MapKey(d1, "name", RenameNameValue)
    requires d3 == MapKey(d2, "form", v => RewriteValue(ids, v))
    ensures d3 == DataFields(ids, d0)
  {
    forall i | 0 <= i < |d0|
      ensures d3[i] == DataFields(ids, d0)[i]
    {
    }
  }

  ghost function RenamedType(v: Json): Json {
    if v.JStr? then JStr(RenameNodeType(v.s)) else v
  }

  ghost function RenamedData(ids: seq<string>, v: Json): Json {
    if v.JObj? then JObj(DataFields(ids, v.fields)) else v
  }

  /** One node: id, parent, type and data are overwritten. */
  method RewriteNodeFields(ids: seq<string>, m: map<string, string>, node: seq<Field>) returns (r: seq<Field>)
    requires MapsIds(ids, m) && Dictionaries(JObj(node))
    ensures JObj(r) == RewriteNode(ids, JObj(node)) && CurrentNode(JObj(r))
    ensures forall key, x :: key in {"id", "parentId"} && x in ids && Names(JObj(node), key, x) ==>
              Names(JObj(r), key, RenameId(x))
  {
    var n1 := OverwriteId(ids, m, node, "id");
    var n2 := OverwriteId(ids, m, n1, "parentId");
    var n3 := n2;
    var kind := Get(n2, "type");
    if kind.Some? && kind.value.JStr? {
      n3 := SetField(n2, "type", JStr(RenameNodeType(kind.value.s)));
      SetIsMapKey(n2, "type", RenamedType);
    } else {
      KeptIsMapKey(n2, "type", RenamedType);
    }
    r := n3;
    var data := Get(n3, "data");
    DataIsDictionary(ids, node, n1, n2, n3);
    if data.Some? && data.value.JObj? {
      var fields := RewriteData(ids, data.value.fields);
      r := SetField(n3, "data", JObj(fields));
      SetIsMapKey(n3, "data", v => RenamedData(ids, v));
    } else {
      KeptIsMapKey(n3, "data", v => RenamedData(ids, v));
    }
    NodeOverwrites(ids, node, n1, n2, n3, r);
    RewrittenNodeIsCurrent(ids, JObj(node));
    forall key, x | key in {"id", "parentId"} && x in ids && Names(JObj(node), key, x)
      ensures Names(JObj(r), key, RenameId(x))
    {
      NodeNamesImage(ids, JObj(node), key, x);
    }
  }

  lemma DataIsDictionary(ids: seq<string>, n0: seq<Field>, n1: seq<Field>, n2: seq<Field>, n3: seq<Field>)
    requires Dictionaries(JObj(n0))
    requires n1 == MapKey(n0, "id", v => MapIfString(ids, v)) && n2 == MapKey(n1, "parentId", v => MapIfString(ids, v))
    requires n3 == MapKey(n2, "type", RenamedType)
    ensures Get(n3, "data").Some? ==> Dictionaries(Get(n3, "data").value)
  {
    GetMapped(n0, "id", v => MapIfString(ids, v), "data");
    GetMapped(n1, "parentId", v => MapIfString(ids, v), "data");
    GetMapped(n2, "type", RenamedType, "data");
    GetIsField(n0, "data");
  }

  lemma NodeOverwrites(ids: seq<string>, n0: seq<Field>, n1: seq<Field>, n2: seq<Field>, n3: seq<Field>, n4: seq<Field>)
    requires n1 == MapKey(n0, "id", v => MapIfString(ids, v)) && n2 == MapKey(n1, "parentId", v => MapIfString(ids, v))
    requires n3 == MapKey(n2, "type", RenamedType) && n4 == MapKey(n3, "data", v => RenamedData(ids, v))
    ensures JObj(n4) == RewriteNode(ids, JObj(n0))
  {
    var spec := RewriteNode(ids, JObj(n0)).fields;
    forall i | 0 <= i < |n0|
      ensures n4[i] == spec[i]
    {
      var key, v := n0[i].key, n0[i].value;
      assert n1[i] == Field(key, if key == "id" then MapIfString(ids, v) else v);
      assert n2[i] == Field(key, if key == "parentId" then MapIfString(ids, v) else n1[i].value);
      assert n3[i] == Field(key, if key == "type" then RenamedType(v) else n2[i].value);
    }
  }

  /** The loop over the graph's nodes, which rewrites them in place. */
  method BuildNodes(ids: seq<string>, m: map<string, string>, nodes: seq<Json>) returns (r: seq<Json>)
    requires MapsIds(ids, m) && forall i :: 0 <= i < |nodes| ==> Dictionaries(nodes[i])
    ensures r == RewriteNodes(ids, nodes)
  {
    r := nodes;
    for n := 0 to |nodes|
      invariant |r| == |nodes| && r[n..] == nodes[n..]
      invariant r[..n] == RewriteNodes(ids, nodes)[..n]
    {
      assert r[n] == r[n..][0];
      var node := r[n];
      if node.JObj? {
        var fields := RewriteNodeFields(ids, m, node.fields);
        r := r[n := JObj(fields)];
      }
      assert r[n] == RewriteNode(ids, nodes[n]);
    }
  }

  ghost function RenamedNodes(ids: seq<string>, v: Json): Json {
    if v.JArr? then JArr(RewriteNodes(ids, v.items)) else v
  }

  ghost function RenamedEdges(ids: seq<string>, v: Json): Json {
    if v.JArr? then JArr(RewriteEdges(ids, v.items)) else v
  }

  /** The graph: nodes, then edges. */
  method BuildGraph(ids: seq<string>, m: map<string, string>, graph: seq<Field>) returns (r: seq<Field>)
    requires MapsIds(ids, m) && Dictionaries(JObj(graph))
    ensures r == GraphFields(ids, graph)
    ensures |ItemsAt(r, "nodes")| == |ItemsAt(graph, "nodes")| && |ItemsAt(r, "edges")| == |ItemsAt(graph, "edges")|
    ensures forall node :: node in ItemsAt(r, "nodes") ==> CurrentNode(node)
  {
    var g1 := graph;
    var nodes := Get(graph, "nodes");
    GetIsField(graph, "nodes");
    GetIsField(graph, "edges");
    if nodes.Some? && nodes.value.JArr? {
      var ns := BuildNodes(ids, m, nodes.value.items);
      g1 := SetField(graph, "nodes", JArr(ns));
      SetIsMapKey(graph, "nodes", v => RenamedNodes(ids, v));
    } else {
      KeptIsMapKey(graph, "nodes", v => RenamedNodes(ids, v));
    }
    r := g1;
    GetMapped(graph, "nodes", v => RenamedNodes(ids, v), "edges");
    var edges := Get(g1, "edges");
    if edges.Some? && edges.value.JArr? {
      var es := BuildEdges(ids, m, edges.value.items);
      r := SetField(g1, "edges", JArr(es));
      SetIsMapKey(g1, "edges", v => RenamedEdges(ids, v));
    } else {
      KeptIsMapKey(g1, "edges", v => RenamedEdges(ids, v));
    }
    GraphOverwrites(ids, graph, g1, r);
    RewrittenGraphIsCurrent(ids, graph);
  }

  lemma GraphOverwrites(ids: seq<string>, g0: seq<Field>, g1: seq<Field>, g2: seq<Field>)
    requires g1 == MapKey(g0, "nodes", v => RenamedNodes(ids, v))
    requires g2 == MapKey(g1, "edges", v => RenamedEdges(ids, v))
    ensures g2 == GraphFields(ids, g0)
  {
    forall i | 0 <= i < |g0|
      ensures g2[i] == GraphFields(ids, g0)[i]
    {
    }
  }

  // ---- The document ----

  ghost function RenamedGraph(ids: seq<string>, v: Json): Json {
    if v.JObj? then JObj(GraphFields(ids, v.fields)) else v
  }

  ghost function RenamedTable(ids: seq<string>, v: Json): Json {
    if v.JObj? then JObj(RewriteComponents(ids, v.fields)) else v
  }

  /** The rewriting of a field's whole value, where the field is present. */
  method OverwriteValue(ids: seq<string>, fields: seq<Field>, key: string) returns (r: seq<Field>)
    requires UniqueKeys(fields)
    ensures r == MapKey(fields, key, v => RewriteValue(ids, v))
  {
    var v := Get(fields, key);
    if v.Some? {
      SetIsMapKey(fields, key, v => RewriteValue(ids, v));
      r := SetField(fields, key, RewriteValue(ids, v.value));
    } else {
      KeptIsMapKey(fields, key, v => RewriteValue(ids, v));
      r := fields;
    }
  }

  method OverwriteGraph(ids: seq<string>, m: map<string, string>, fields: seq<Field>) returns (r: seq<Field>)
    requires MapsIds(ids, m) && UniqueKeys(fields)
    requires Get(fields, "graph").Some? ==> Dictionaries(Get(fields, "graph").value)
    ensures r == MapKey(fields, "graph", v => RenamedGraph(ids, v))
  {
    var graph := Get(fields, "graph");
    if graph.Some? && graph.value.JObj? {
      var g := BuildGraph(ids, m, graph.value.fields);
      SetIsMapKey(fields, "graph", v => RenamedGraph(ids, v));
      r := SetField(fields, "graph", JObj(g));
    } else {
      KeptIsMapKey(fields, "graph", v => RenamedGraph(ids, v));
      r := fields;
    }
  }

  /** The overwrites of the document's own fields, once the new table is built. */
  method RewriteTop(ids: seq<string>, m: map<string, string>, table: seq<Field>, fields: seq<Field>)
    returns (r: Result<seq<Field>>)
    requires MapsIds(ids, m) && Dictionaries(JObj(fields))
    requires Get(fields, "components").Some? && Get(fields, "components").value.JObj?
    requires table == RewriteComponents(ids, Get(fields, "components").value.fields)
    ensures r == if Get(fields, "path").Some? && ListRaises(Get(fields, "path").value) then Err("unhashable type")
                 else Ok(TopFields(ids, fields))
  {
    SetIsMapKey(fields, "components", v => RenamedTable(ids, v));
    var f1 := SetField(fields, "components", JObj(table));
    GetMapped(fields, "components", v => RenamedTable(ids, v), "path");
    GetMapped(fields, "components", v => RenamedTable(ids, v), "graph");
    var f2 := OverwriteList(ids, m, f1, "path");
    if f2.Err? {
      return Err(f2.reason);
    }
    GetMapped(f1, "path", v => MapList(ids, v), "graph");
    GetIsField(fields, "graph");
    var f3 := OverwriteGraph(ids, m, f2.value);
    var f4 := OverwriteValue(ids, f3, "history");
    var f5 := OverwriteValue(ids, f4, "messages");
    var f6 := OverwriteValue(ids, f5, "reference");
    TopOverwrites(ids, fields, f1, f2.value, f3, f4, f5, f6);
    r := Ok(f6);
  }

  lemma TopOverwrites(ids: seq<string>, f0: seq<Field>, f1: seq<Field>, f2: seq<Field>, f3: seq<Field>, f4: seq<Field>,
                      f5: seq<Field>, f6: seq<Field>)
    requires f1 == MapKey(f0, "components", v => RenamedTable(ids, v)) && f2 == MapKey(f1, "path", v => MapList(ids, v))
    requires f3 == MapKey(f2, "graph", v => RenamedGraph(ids, v))
    requires f4 == MapKey(f3, "history", v => RewriteValue(ids, v))
    requires f5 == MapKey(f4, "messages", v => RewriteValue(ids, v))
    requires f6 == MapKey(f5, "reference", v => RewriteValue(ids, v))
    ensures f6 == TopFields(ids, f0)
  {
    forall i | 0 <= i < |f0|
      ensures f6[i] == TopFields(ids, f0)[i]
    {
    }
  }

  lemma PathRaisesWhere(fields: seq<Field>)
    requires UniqueKeys(fields)
    ensures (exists f :: f in fields && f.key == "path" && ListRaises(f.value))
            <==> Get(fields, "path").Some? && ListRaises(Get(fields, "path").value)
  {
    GetIsField(fields, "path");
    if f :| f in fields && f.key == "path" && ListRaises(f.value) {
      var i :| 0 <= i < |fields| && fields[i] == f;
      GetUnique(fields, i);
    }
  }

  /** `normalize_chunker_dsl` */
  method NormalizeChunkerDsl(d: Json) returns (r: Result<Json>)
    requires Dictionaries(d)
    ensures r == Normalize(d)
  {
    if !HasComponents(d) {
      return Ok(d);
    }
    var ids := ComponentIds(d);
    var m := BuildIdMap(ids);
    GetIsField(d.fields, "components");
    PathRaisesWhere(d.fields);
    var table := BuildComponents(ids, m, ComponentsOf(d));
    if table.Err? {
      return Err(table.reason);
    }
    var out := RewriteTop(ids, m, table.value, d.fields);
    r := if out.Err? then Err(out.reason) else Ok(JObj(out.value));
  }
}
