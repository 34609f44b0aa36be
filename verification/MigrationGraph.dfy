/** The migration as a whole: when no legacy id meets its new form, the migrated document is the same canvas under
    new names. */
module MigrationGraph {
  import opened PyValues
  import opened JsonDoc
  import opened DslMigration
  import opened MigrationIdempotence
  import opened MigrationIsomorphism
  import opened MigrationCompleteness

  // ---- What a document draws ----

  function ItemsAt(fields: seq<Field>, key: string): seq<Json> {
    var v := Get(fields, key);
    if v.Some? && v.value.JArr? then v.value.items else []
  }

  function GraphOf(d: Json): seq<Field> {
    if d.JObj? && Get(d.fields, "graph").Some? && Get(d.fields, "graph").value.JObj? then
      Get(d.fields, "graph").value.fields
    else []
  }

  function NodesOf(d: Json): seq<Json> {
    ItemsAt(GraphOf(d), "nodes")
  }

  function EdgesOf(d: Json): seq<Json> {
    ItemsAt(GraphOf(d), "edges")
  }

  function PathOf(d: Json): seq<Json> {
    if d.JObj? then ItemsAt(d.fields, "path") else []
  }

  /** The object names the component `x` in this field. */
  predicate Names(v: Json, key: string, x: string) {
    v.JObj? && Get(v.fields, key) == Some(JStr(x))
  }

  predicate ParentOf(cs: seq<Field>, a: string, b: string) {
    Get(cs, a).Some? && Names(Get(cs, a).value, "parent_id", b)
  }

  /** A name of no component, such as that of a note, must not be one a component is about to get. */
  predicate Harmless(ids: seq<string>, x: string) {
    x in ids || x !in RenameAll(ids)
  }

  ghost predicate HarmlessIn(ids: seq<string>, objects: seq<Json>, key: string) {
    forall i, x :: 0 <= i < |objects| && Names(objects[i], key, x) ==> Harmless(ids, x)
  }

  /** What names no component does not come to name one: links, unless that link is there anyway, and parents. */
  ghost predicate ClosedLinks(cs: seq<Field>) {
    forall a, b :: a in Keys(cs) && b in Keys(cs) ==>
      && (Strays(cs, "downstream", a, b) ==> Links(cs, "downstream", a, b))
      && (Strays(cs, "upstream", a, b) ==> Links(cs, "upstream", a, b))
      && !ParentStrays(cs, a, b)
  }

  ghost predicate ParentStrays(cs: seq<Field>, a: string, b: string) {
    exists y :: y !in Keys(cs) && ParentOf(cs, a, y) && LinkImage(Keys(cs), y) == RenameId(b)
  }

  /** The same of the drawing and the path, whose names are only looked up. */
  ghost predicate ClosedDrawing(d: Json)
    requires HasComponents(d)
  {
    var ids := ComponentIds(d);
    && HarmlessIn(ids, NodesOf(d), "id") && HarmlessIn(ids, NodesOf(d), "parentId")
    && HarmlessIn(ids, EdgesOf(d), "source") && HarmlessIn(ids, EdgesOf(d), "target")
    && (forall i :: 0 <= i < |PathOf(d)| && PathOf(d)[i].JStr? ==> Harmless(ids, PathOf(d)[i].s))
  }

  // ---- Names and their images ----

  lemma ImageOfName(ids: seq<string>, y: string, x: string)
    requires Injective(ids) && x in ids
    ensures MapId(ids, y) == RenameId(x) <==> y == x || (y !in ids && y == RenameId(x))
  {
  }

  lemma HarmfulName(ids: seq<string>, y: string) returns (x: string)
    requires !Harmless(ids, y)
    ensures y !in ids && x in ids && y == RenameId(x)
  {
    var i :| 0 <= i < |ids| && RenameAll(ids)[i] == y;
    x := ids[i];
  }

  lemma InRenameAll(ids: seq<string>, x: string)
    requires x in ids
    ensures RenameId(x) in RenameAll(ids)
  {
    var i :| 0 <= i < |ids| && ids[i] == x;
    assert RenameAll(ids)[i] == RenameId(x);
  }

  /** One name field before and after: it names the same component unless it is harmful. */
  lemma NamesAfter(ids: seq<string>, before: Json, after: Json, key: string, x: string)
    requires Injective(ids) && x in ids && Looked(ids, before, after, key)
    ensures Names(after, key, RenameId(x))
            <==> Names(before, key, x) || (RenameId(x) !in ids && Names(before, key, RenameId(x)))
  {
    if before.JObj? && Get(before.fields, key).Some? && Get(before.fields, key).value.JStr? {
      ImageOfName(ids, Get(before.fields, key).value.s, x);
    }
  }

  /** The field `key` was looked up in the id map. */
  predicate Looked(ids: seq<string>, before: Json, after: Json, key: string) {
    && before.JObj? == after.JObj?
    && (before.JObj? ==>
          Get(after.fields, key)
          == if Get(before.fields, key).Some? then Some(MapIfString(ids, Get(before.fields, key).value)) else None)
  }

  lemma NodeIsLooked(ids: seq<string>, node: Json, key: string)
    requires key == "id" || key == "parentId"
    ensures Looked(ids, node, RewriteNode(ids, node), key)
  {
    if node.JObj? {
      GetNodeField(ids, node.fields, key);
    }
  }

  lemma EdgeIsLooked(ids: seq<string>, edge: Json, key: string)
    requires key == "source" || key == "target"
    ensures Looked(ids, edge, RewriteEdge(ids, edge), key)
  {
    if edge.JObj? {
      GetEdgeField(ids, edge.fields, key);
    }
  }

  lemma ParentNames(cs: seq<Field>, a: string, b: string)
    requires UniqueKeys(cs) && Injective(Keys(cs)) && a in Keys(cs) && b in Keys(cs)
    ensures ParentOf(RewriteComponents(Keys(cs), cs), RenameId(a), RenameId(b))
            <==> ParentOf(cs, a, b) || ParentStrays(cs, a, b)
  {
    var ids := Keys(cs);
    ComponentIsFound(ids, cs, a);
    var c := Get(cs, a).value;
    if c.JObj? {
      FieldOfRewritten(ids, c, "parent_id");
      var p := Get(c.fields, "parent_id");
      if p.Some? && p.value.JStr? {
        assert ParentOf(cs, a, p.value.s);
        ParentIsImage(ids, c, p.value.s);
        if p.value.s in ids {
          TwiceRenamedOnce(ids, p.value.s);
        }
      }
    }
  }

  // ---- Where the parts of the migrated document come from ----

  lemma {:induction false} GetGraphField(ids: seq<string>, fields: seq<Field>, key: string)
    ensures Get(GraphFields(ids, fields), key) ==
              if Get(fields, key).Some? then Some(GraphField(ids, key, Get(fields, key).value)) else None
  {
    if fields != [] {
      assert GraphFields(ids, fields)[1..] == GraphFields(ids, fields[1..]);
      GetGraphField(ids, fields[1..], key);
    }
  }

  lemma PartsOfMigrated(d: Json, e: Json)
    requires HasComponents(d) && Normalize(d) == Ok(e)
    ensures HasComponents(e)
    ensures ComponentsOf(e) == RewriteComponents(ComponentIds(d), ComponentsOf(d))
    ensures NodesOf(e) == RewriteNodes(ComponentIds(d), NodesOf(d))
    ensures EdgesOf(e) == RewriteEdges(ComponentIds(d), EdgesOf(d))
    ensures PathOf(e) == MapEntries(ComponentIds(d), PathOf(d))
  {
    var ids := ComponentIds(d);
    GetTop(ids, d.fields, "components");
    GetTop(ids, d.fields, "graph");
    GetTop(ids, d.fields, "path");
    GetGraphField(ids, GraphOf(d), "nodes");
    GetGraphField(ids, GraphOf(d), "edges");
    assert RewriteNodes(ids, []) == [] && RewriteEdges(ids, []) == [] && MapEntries(ids, []) == [];
    assert GraphFields(ids, []) == [];
  }

  // ---- The theorem ----

  /** The migrated document `e` draws the canvas of `d` with every component `x` called `RenameId(x)`. */
  ghost predicate SameCanvas(d: Json, e: Json)
    requires HasComponents(d) && HasComponents(e)
  {
    && ComponentIds(e) == RenameAll(ComponentIds(d))
    && |NodesOf(e)| == |NodesOf(d)| && |EdgesOf(e)| == |EdgesOf(d)| && |PathOf(e)| == |PathOf(d)|
    && SameLinks(d, e) && SameDrawing(d, e)
  }

  ghost predicate SameLinks(d: Json, e: Json)
    requires HasComponents(d) && HasComponents(e)
  {
    forall a, b :: a in ComponentIds(d) && b in ComponentIds(d) ==>
      && (Links(ComponentsOf(e), "downstream", RenameId(a), RenameId(b))
          <==> Links(ComponentsOf(d), "downstream", a, b))
      && (Links(ComponentsOf(e), "upstream", RenameId(a), RenameId(b)) <==> Links(ComponentsOf(d), "upstream", a, b))
      && (ParentOf(ComponentsOf(e), RenameId(a), RenameId(b)) <==> ParentOf(ComponentsOf(d), a, b))
  }

  ghost predicate SameNames(ids: seq<string>, before: seq<Json>, after: seq<Json>, key: string)
    requires |after| == |before|
  {
    forall i, x :: 0 <= i < |before| && x in ids ==> (Names(after[i], key, RenameId(x)) <==> Names(before[i], key, x))
  }

  ghost predicate SameDrawing(d: Json, e: Json)
    requires HasComponents(d)
    requires |NodesOf(e)| == |NodesOf(d)| && |EdgesOf(e)| == |EdgesOf(d)| && |PathOf(e)| == |PathOf(d)|
  {
    var ids := ComponentIds(d);
    && SameNames(ids, NodesOf(d), NodesOf(e), "id") && SameNames(ids, NodesOf(d), NodesOf(e), "parentId")
    && SameNames(ids, EdgesOf(d), EdgesOf(e), "source") && SameNames(ids, EdgesOf(d), EdgesOf(e), "target")
    && SamePath(ids, PathOf(d), PathOf(e))
  }

  lemma LinksAreSame(d: Json, e: Json)
    requires HasComponents(d) && HasComponents(e)
    requires UniqueKeys(ComponentsOf(d)) && Injective(ComponentIds(d))
    requires ComponentsOf(e) == RewriteComponents(ComponentIds(d), ComponentsOf(d))
    ensures SameLinks(d, e) <==> ClosedLinks(ComponentsOf(d))
  {
    var cs, after := ComponentsOf(d), ComponentsOf(e);
    forall a, b | a in ComponentIds(d) && b in ComponentIds(d)
      ensures (Links(after, "downstream", RenameId(a), RenameId(b)) <==> Links(cs, "downstream", a, b))
              <==> (Strays(cs, "downstream", a, b) ==> Links(cs, "downstream", a, b))
      ensures (Links(after, "upstream", RenameId(a), RenameId(b)) <==> Links(cs, "upstream", a, b))
              <==> (Strays(cs, "upstream", a, b) ==> Links(cs, "upstream", a, b))
      ensures (ParentOf(after, RenameId(a), RenameId(b)) <==> ParentOf(cs, a, b)) <==> !ParentStrays(cs, a, b)
    {
      LinksAreImages(cs, "downstream", a, b);
      LinksAreImages(cs, "upstream", a, b);
      ParentNames(cs, a, b);
      ParentOrStray(cs, a, b);
    }
  }

  /** A component has one parent: it does not both name `b` and stray to it. */
  lemma ParentOrStray(cs: seq<Field>, a: string, b: string)
    requires b in Keys(cs)
    ensures !(ParentOf(cs, a, b) && ParentStrays(cs, a, b))
  {
  }

  lemma NamesAreSame(ids: seq<string>, before: seq<Json>, after: seq<Json>, key: string)
    requires Injective(ids) && |after| == |before|
    requires forall i :: 0 <= i < |before| ==> Looked(ids, before[i], after[i], key)
    ensures SameNames(ids, before, after, key) <==> HarmlessIn(ids, before, key)
  {
    if HarmlessIn(ids, before, key) {
      forall i, x | 0 <= i < |before| && x in ids
        ensures Names(after[i], key, RenameId(x)) <==> Names(before[i], key, x)
      {
        NamesAfter(ids, before[i], after[i], key, x);
        InRenameAll(ids, x);
        assert Names(before[i], key, RenameId(x)) ==> Harmless(ids, RenameId(x));
      }
    } else {
      var i, y :| 0 <= i < |before| && Names(before[i], key, y) && !Harmless(ids, y);
      var x := HarmfulName(ids, y);
      NamesAfter(ids, before[i], after[i], key, x);
    }
  }

  lemma NodesAreSame(ids: seq<string>, nodes: seq<Json>, key: string)
    requires Injective(ids) && (key == "id" || key == "parentId")
    ensures SameNames(ids, nodes, RewriteNodes(ids, nodes), key) <==> HarmlessIn(ids, nodes, key)
  {
    forall i | 0 <= i < |nodes|
      ensures Looked(ids, nodes[i], RewriteNodes(ids, nodes)[i], key)
    {
      NodeIsLooked(ids, nodes[i], key);
    }
    NamesAreSame(ids, nodes, RewriteNodes(ids, nodes), key);
  }

  lemma EdgesAreSame(ids: seq<string>, edges: seq<Json>, key: string)
    requires Injective(ids) && (key == "source" || key == "target")
    ensures SameNames(ids, edges, RewriteEdges(ids, edges), key) <==> HarmlessIn(ids, edges, key)
  {
    forall i | 0 <= i < |edges|
      ensures Looked(ids, edges[i], RewriteEdges(ids, edges)[i], key)
    {
      EdgeIsLooked(ids, edges[i], key);
    }
    NamesAreSame(ids, edges, RewriteEdges(ids, edges), key);
  }

  ghost predicate SamePath(ids: seq<string>, before: seq<Json>, after: seq<Json>)
    requires |after| == |before|
  {
    forall i, x :: 0 <= i < |before| && x in ids ==> (after[i] == JStr(RenameId(x)) <==> before[i] == JStr(x))
  }

  lemma PathIsSame(ids: seq<string>, path: seq<Json>)
    requires Injective(ids)
    ensures SamePath(ids, path, MapEntries(ids, path))
            <==> forall i :: 0 <= i < |path| && path[i].JStr? ==> Harmless(ids, path[i].s)
  {
    if i :| 0 <= i < |path| && path[i].JStr? && !Harmless(ids, path[i].s) {
      var x := HarmfulName(ids, path[i].s);
      ImageOfName(ids, path[i].s, x);
      assert MapEntries(ids, path)[i] == JStr(RenameId(x)) && path[i] != JStr(x);
    } else {
      forall i, x | 0 <= i < |path| && x in ids
        ensures MapEntries(ids, path)[i] == JStr(RenameId(x)) <==> path[i] == JStr(x)
      {
        InRenameAll(ids, x);
        if path[i].JStr? {
          ImageOfName(ids, path[i].s, x);
        }
      }
    }
  }

  /** Graph isomorphism, of the document and exactly: migrating draws the same canvas under new names (as many
      components, nodes, edges and path entries, and links, parents, nodes, edge ends and path entries of the images
      exactly as before of the originals) if and only if no two components collide and nothing that named no component
      comes to name one. */
  lemma MigrationIsIsomorphism(d: Json, e: Json)
    requires HasComponents(d) && Normalize(d) == Ok(e) && UniqueKeys(ComponentsOf(d))
    ensures HasComponents(e)
    ensures SameCanvas(d, e)
            <==> Injective(ComponentIds(d)) && ClosedLinks(ComponentsOf(d)) && ClosedDrawing(d)
  {
    PartsOfMigrated(d, e);
    ComponentCountKept(ComponentIds(d), ComponentsOf(d));
    if Injective(ComponentIds(d)) {
      TableKeys(ComponentIds(d), ComponentsOf(d));
      LinksAreSame(d, e);
      DrawingIsSame(d, e);
    }
  }

  lemma DrawingIsSame(d: Json, e: Json)
    requires HasComponents(d) && Normalize(d) == Ok(e) && Injective(ComponentIds(d))
    ensures |NodesOf(e)| == |NodesOf(d)| && |EdgesOf(e)| == |EdgesOf(d)| && |PathOf(e)| == |PathOf(d)|
    ensures SameDrawing(d, e) <==> ClosedDrawing(d)
  {
    var ids := ComponentIds(d);
    PartsOfMigrated(d, e);
    NodesAreSame(ids, NodesOf(d), "id");
    NodesAreSame(ids, NodesOf(d), "parentId");
    EdgesAreSame(ids, EdgesOf(d), "source");
    EdgesAreSame(ids, EdgesOf(d), "target");
    PathIsSame(ids, PathOf(d));
  }

  lemma NodeNamesImage(ids: seq<string>, node: Json, key: string, x: string)
    requires x in ids && key in {"id", "parentId"} && Names(node, key, x)
    ensures Names(RewriteNode(ids, node), key, RenameId(x))
  {
    GetNodeField(ids, node.fields, key);
  }

  lemma EdgeNamesImage(ids: seq<string>, edge: Json, key: string, x: string)
    requires x in ids && key in {"source", "target"} && Names(edge, key, x)
    ensures Names(RewriteEdge(ids, edge), key, RenameId(x))
  {
    GetEdgeField(ids, edge.fields, key);
  }

  /** Whatever collides or dangles, every node, edge end and path entry that names a component names its image. */
  lemma DrawingIsRenamed(d: Json, e: Json, x: string)
    requires HasComponents(d) && Normalize(d) == Ok(e) && x in ComponentIds(d)
    ensures |NodesOf(e)| == |NodesOf(d)| && |EdgesOf(e)| == |EdgesOf(d)| && |PathOf(e)| == |PathOf(d)|
    ensures forall i, key :: 0 <= i < |NodesOf(d)| && key in {"id", "parentId"} && Names(NodesOf(d)[i], key, x) ==>
              Names(NodesOf(e)[i], key, RenameId(x))
    ensures forall i, key :: 0 <= i < |EdgesOf(d)| && key in {"source", "target"} && Names(EdgesOf(d)[i], key, x) ==>
              Names(EdgesOf(e)[i], key, RenameId(x))
    ensures forall i :: 0 <= i < |PathOf(d)| && PathOf(d)[i] == JStr(x) ==> PathOf(e)[i] == JStr(RenameId(x))
  {
    PartsOfMigrated(d, e);
    var ids := ComponentIds(d);
    forall i, key | 0 <= i < |NodesOf(d)| && key in {"id", "parentId"} && Names(NodesOf(d)[i], key, x)
      ensures Names(NodesOf(e)[i], key, RenameId(x))
    {
      NodeNamesImage(ids, NodesOf(d)[i], key, x);
    }
    forall i, key | 0 <= i < |EdgesOf(d)| && key in {"source", "target"} && Names(EdgesOf(d)[i], key, x)
      ensures Names(EdgesOf(e)[i], key, RenameId(x))
    {
      EdgeNamesImage(ids, EdgesOf(d)[i], key, x);
    }
  }

  // ---- Nothing legacy is left ----

  /** No legacy type, label or name on a node. */
  predicate CurrentNode(node: Json) {
    node.JObj? ==>
      && (Get(node.fields, "type").Some? ==> Get(node.fields, "type").value != JStr("splitterNode"))
      && (Get(node.fields, "data").Some? && Get(node.fields, "data").value.JObj? ==>
            var data := Get(node.fields, "data").value.fields;
            CurrentText(Get(data, "label")) && CurrentText(Get(data, "name")))
  }

  predicate CurrentText(v: Option<Json>) {
    v.Some? && v.value.JStr? ==> CurrentName(v.value.s)
  }

  /** No legacy name on the object of a component. */
  predicate CurrentComponent(c: Json) {
    c.JObj? && Get(c.fields, "obj").Some? && Get(c.fields, "obj").value.JObj? ==>
      CurrentText(Get(Get(c.fields, "obj").value.fields, "component_name"))
  }

  lemma RewrittenNodeIsCurrent(ids: seq<string>, node: Json)
    ensures CurrentNode(RewriteNode(ids, node))
  {
    if node.JObj? {
      if Get(node.fields, "type").Some? {
        NodeIsImage(ids, node.fields, "type", "");
      }
      GetNodeField(ids, node.fields, "type");
      GetNodeField(ids, node.fields, "data");
      var data := Get(node.fields, "data");
      if data.Some? && data.value.JObj? {
        DataIsCurrent(ids, data.value.fields);
      }
    }
  }

  lemma DataIsCurrent(ids: seq<string>, data: seq<Field>)
    ensures CurrentText(Get(DataFields(ids, data), "label")) && CurrentText(Get(DataFields(ids, data), "name"))
  {
    GetDataField(ids, data, "label");
    GetDataField(ids, data, "name");
    if Get(data, "label").Some? {
      NodeDataIsCurrent(ids, data, "label");
    }
    if Get(data, "name").Some? {
      NodeDataIsCurrent(ids, data, "name");
    }
  }

  /** A rewritten graph draws as many nodes and edges as before, and no legacy node. */
  lemma RewrittenGraphIsCurrent(ids: seq<string>, graph: seq<Field>)
    ensures |ItemsAt(GraphFields(ids, graph), "nodes")| == |ItemsAt(graph, "nodes")|
    ensures |ItemsAt(GraphFields(ids, graph), "edges")| == |ItemsAt(graph, "edges")|
    ensures forall node :: node in ItemsAt(GraphFields(ids, graph), "nodes") ==> CurrentNode(node)
  {
    GetGraphField(ids, graph, "nodes");
    GetGraphField(ids, graph, "edges");
    var nodes := ItemsAt(graph, "nodes");
    forall i | 0 <= i < |nodes|
      ensures CurrentNode(RewriteNodes(ids, nodes)[i])
    {
      RewrittenNodeIsCurrent(ids, nodes[i]);
    }
  }

  lemma RewrittenComponentIsCurrent(ids: seq<string>, c: Json)
    ensures CurrentComponent(RewriteComponent(ids, c))
  {
    if c.JObj? && Get(RewriteComponent(ids, c).fields, "obj").Some? {
      ComponentNameIsCurrent(ids, c);
    }
  }

  /** No component id, component name, node type, label or name of a migrated document is a legacy one. */
  lemma NothingLegacyRemains(d: Json, e: Json)
    requires HasComponents(d) && Normalize(d) == Ok(e)
    ensures HasComponents(e)
    ensures forall i :: 0 <= i < |ComponentsOf(e)| ==>
              CurrentId(ComponentIds(e)[i]) && CurrentComponent(ComponentsOf(e)[i].value)
    ensures forall i :: 0 <= i < |NodesOf(e)| ==> CurrentNode(NodesOf(e)[i])
  {
    var ids, cs := ComponentIds(d), ComponentsOf(d);
    PartsOfMigrated(d, e);
    TableIsRewritten(ids, cs, cs);
    forall i | 0 <= i < |ComponentsOf(e)|
      ensures CurrentId(ComponentIds(e)[i]) && CurrentComponent(ComponentsOf(e)[i].value)
    {
      NoLegacyIdRemains(d, ComponentIds(e)[i]);
      var f := ComponentsOf(e)[i];
      assert f in ComponentsOf(e);
      var o :| o in cs && f.value == RewriteComponent(ids, o.value);
      RewrittenComponentIsCurrent(ids, o.value);
    }
    forall i | 0 <= i < |NodesOf(e)|
      ensures CurrentNode(NodesOf(e)[i])
    {
      RewrittenNodeIsCurrent(ids, NodesOf(d)[i]);
    }
  }
}
