/** What the migration makes of every text of a document, wherever it stands: in a component, in the form of a node, in
    history, messages and reference. */
module MigrationTexts {
  import opened PyValues
  import opened JsonDoc
  import opened References
  import opened ReferenceScan
  import opened ReferencePreservation
  import opened DslMigration
  import opened MigrationIdempotence
  import opened MigrationIsomorphism
  import opened MigrationCompleteness
  import opened MigrationReferences
  import opened MigrationGraph

  // ---- One text ----

  /** One character or reference of a text before and after: a reference to a component gets that component's new
      spelling, everything else stays. */
  predicate PieceMapped(ids: seq<string>, p: Piece, q: Piece) {
    match p
    case Char(_) => q == p
    case Reference(r) => q == Reference(if r.id in ids then r.(id := RenameId(r.id)) else r)
  }

  ghost predicate PiecesMapped(ids: seq<string>, ps: seq<Piece>, qs: seq<Piece>) {
    |qs| == |ps| && forall i :: 0 <= i < |ps| ==> PieceMapped(ids, ps[i], qs[i])
  }

  /** A component id becomes its new spelling; in any other text the references get their ids mapped, and the rest of
      the text stays. */
  ghost predicate TextMapped(ids: seq<string>, s: string, t: string) {
    if s in ids then t == RenameId(s) else PiecesMapped(ids, Scan(s), Scan(t))
  }

  lemma {:induction false} MappedPieces(ids: seq<string>, ps: seq<Piece>)
    ensures PiecesMapped(ids, ps, MapPieces(Renaming(ids), ps))
  {
    if ps != [] {
      var qs := MapPieces(Renaming(ids), ps);
      MappedPieces(ids, ps[1..]);
      assert qs[1..] == MapPieces(Renaming(ids), ps[1..]);
      forall i | 0 <= i < |ps|
        ensures PieceMapped(ids, ps[i], qs[i])
      {
        assert i > 0 ==> ps[i] == ps[1..][i - 1] && qs[i] == qs[1..][i - 1];
      }
    }
  }

  lemma TextIsMapped(ids: seq<string>, s: string)
    ensures TextMapped(ids, s, RewriteText(ids, s))
  {
    if s !in ids {
      TemplateKeepsItsReferences(ids, s);
      MappedPieces(ids, Scan(s));
    }
  }

  /** The pieces of a text written out again. */
  function Written(ps: seq<Piece>): string {
    if ps == [] then []
    else if ps[0].Char? then [ps[0].c] + Written(ps[1..])
    else Write(ps[0].ref, Written(ps[1..]))
  }

  /** The pieces determine the text. */
  lemma {:induction false} ScanIsFaithful(t: string)
    ensures Written(Scan(t)) == t
    decreases |t|
  {
    if t != [] {
      var m := MatchRef(t);
      if m.Match? {
        MatchShrinks(t);
        MatchIsWritten(t);
        ScanIsFaithful(m.rest);
        WrittenHead(Reference(m.ref), Scan(m.rest));
      } else {
        ScanIsFaithful(t[1..]);
        WrittenHead(Char(t[0]), Scan(t[1..]));
      }
    }
  }

  lemma WrittenHead(p: Piece, ps: seq<Piece>)
    ensures Written([p] + ps) == if p.Char? then [p.c] + Written(ps) else Write(p.ref, Written(ps))
  {
    assert ([p] + ps)[1..] == ps;
  }

  /** So there is one text a text is mapped to. */
  lemma MappedTextIsOne(ids: seq<string>, s: string, t: string, u: string)
    requires TextMapped(ids, s, t) && TextMapped(ids, s, u)
    ensures t == u
  {
    if s !in ids {
      assert forall i :: 0 <= i < |Scan(s)| ==> Scan(t)[i] == Scan(u)[i];
      assert Scan(t) == Scan(u);
    }
    ScanIsFaithful(t);
    ScanIsFaithful(u);
  }

  // ---- The table ----

  /** The renamed ids, names and node types, in full. */
  lemma TableInFull(rest: string, x: string)
    ensures RenameId("Splitter:" + rest) == "TokenChunker:" + rest
    ensures RenameId("HierarchicalMerger:" + rest) == "TitleChunker:" + rest
    ensures RenameId("PDFGenerator:" + rest) == "DocGenerator:" + rest
    ensures RenameId(x) == x || "Splitter:" <= x || "HierarchicalMerger:" <= x || "PDFGenerator:" <= x
    ensures RenameName("Splitter") == "TokenChunker" && RenameName("HierarchicalMerger") == "TitleChunker"
    ensures RenameName("PDFGenerator") == "DocGenerator"
    ensures RenameName(x) == x || x == "Splitter" || x == "HierarchicalMerger" || x == "PDFGenerator"
    ensures RenameNodeType("splitterNode") == "chunkerNode"
    ensures RenameNodeType(x) == x || x == "splitterNode"
  {
    PrefixSpelled();
    RenameLegacy(0, rest);
    RenameLegacy(1, rest);
    RenameLegacy(2, rest);
    NamesApart();
  }

  lemma PrefixSpelled()
    ensures LegacyPrefix(0) == "Splitter:" && CurrentPrefix(0) == "TokenChunker:"
    ensures LegacyPrefix(1) == "HierarchicalMerger:" && CurrentPrefix(1) == "TitleChunker:"
    ensures LegacyPrefix(2) == "PDFGenerator:" && CurrentPrefix(2) == "DocGenerator:"
  {
  }

  lemma NamesApart()
    ensures RenameName("HierarchicalMerger") == "TitleChunker" && RenameName("PDFGenerator") == "DocGenerator"
  {
    assert |"Splitter"| == 8 && |"HierarchicalMerger"| == 18 && |"PDFGenerator"| == 12;
  }

  // ---- Positions in a document ----

  /** What stands at a position: each step picks an entry of a list or a field of an object by its place. */
  function At(v: Json, pos: seq<nat>): Option<Json> {
    if pos == [] then Some(v)
    else match v
      case JArr(items) => if pos[0] < |items| then At(items[pos[0]], pos[1..]) else None
      case JObj(fields) => if pos[0] < |fields| then At(fields[pos[0]].value, pos[1..]) else None
      case _ => None
  }

  /** One position before and after: texts are mapped, the shape and everything else stays. */
  ghost predicate PlaceMapped(ids: seq<string>, before: Option<Json>, after: Option<Json>) {
    match before
    case None => after.None?
    case Some(JStr(s)) => after.Some? && after.value.JStr? && TextMapped(ids, s, after.value.s)
    case Some(JArr(items)) => after.Some? && after.value.JArr? && |after.value.items| == |items|
    case Some(JObj(fields)) => after.Some? && after.value.JObj? && Keys(after.value.fields) == Keys(fields)
    case Some(_) => after == before
  }

  ghost predicate TextsMapped(ids: seq<string>, before: Json, after: Json) {
    forall pos :: PlaceMapped(ids, At(before, pos), At(after, pos))
  }

  lemma {:induction false} PlaceIsMapped(ids: seq<string>, v: Json, pos: seq<nat>)
    ensures PlaceMapped(ids, At(v, pos), At(RewriteValue(ids, v), pos))
    decreases |pos|
  {
    var w := RewriteValue(ids, v);
    if pos == [] {
      match v {
        case JStr(s) => TextIsMapped(ids, s);
        case JObj(fields) => assert Keys(w.fields) == Keys(fields);
        case _ =>
      }
    } else {
      match v {
        case JArr(items) =>
          if pos[0] < |items| {
            assert w.items[pos[0]] == RewriteValue(ids, items[pos[0]]);
            PlaceIsMapped(ids, items[pos[0]], pos[1..]);
          }
        case JObj(fields) =>
          if pos[0] < |fields| {
            assert w.fields[pos[0]].value == RewriteValue(ids, fields[pos[0]].value);
            PlaceIsMapped(ids, fields[pos[0]].value, pos[1..]);
          }
        case _ =>
      }
    }
  }

  lemma ValueIsMapped(ids: seq<string>, v: Json)
    ensures TextsMapped(ids, v, RewriteValue(ids, v))
  {
    forall pos: seq<nat>
      ensures PlaceMapped(ids, At(v, pos), At(RewriteValue(ids, v), pos))
    {
      PlaceIsMapped(ids, v, pos);
    }
  }

  // ---- A component ----

  /** The component field that a position lies in. */
  function FieldOf(c: Json, pos: seq<nat>): string {
    if c.JObj? && pos != [] && pos[0] < |c.fields| then c.fields[pos[0]].key else ""
  }

  /** The position is the component's name. */
  predicate AtName(c: Json, pos: seq<nat>) {
    && FieldOf(c, pos) == "obj" && |pos| == 2
    && var obj := c.fields[pos[0]].value;
       obj.JObj? && pos[1] < |obj.fields| && obj.fields[pos[1]].key == "component_name"
  }

  /** The position is a link of the component: an entry of one of its lists, or its parent. */
  predicate AtLink(c: Json, pos: seq<nat>) {
    || ((FieldOf(c, pos) == "downstream" || FieldOf(c, pos) == "upstream") && |pos| == 2
        && c.fields[pos[0]].value.JArr?)
    || (FieldOf(c, pos) == "parent_id" && |pos| == 1)
  }

  /** A name is looked up in the table after it was mapped as a text, a link in the id map. */
  ghost predicate NameMapped(ids: seq<string>, s: string, t: string) {
    exists u :: TextMapped(ids, s, u) && t == RenameName(u)
  }

  ghost predicate LinkMapped(ids: seq<string>, s: string, t: string) {
    exists u :: TextMapped(ids, s, u) && t == MapId(ids, u)
  }

  /** One position inside the object of a component, which can only get a missing name as a new field. */
  ghost predicate ObjectPlace(ids: seq<string>, x: Option<Json>, y: Option<Json>, whole: bool) {
    if x.None? then y.None? || y == Some(JNull)
    else if whole && x.value.JObj? then
      && y.Some? && y.value.JObj?
      && var ks := Keys(x.value.fields);
         Keys(y.value.fields) == if "component_name" in ks then ks else ks + ["component_name"]
    else PlaceMapped(ids, x, y)
  }

  /** One position of a component before and after. */
  ghost predicate ComponentPlace(ids: seq<string>, c: Json, after: Json, pos: seq<nat>) {
    var x, y := At(c, pos), At(after, pos);
    if x.Some? && x.value.JStr? && AtName(c, pos) then y.Some? && y.value.JStr? && NameMapped(ids, x.value.s, y.value.s)
    else if x.Some? && x.value.JStr? && AtLink(c, pos) then
      y.Some? && y.value.JStr? && LinkMapped(ids, x.value.s, y.value.s)
    else if FieldOf(c, pos) == "obj" then ObjectPlace(ids, x, y, |pos| == 1)
    else PlaceMapped(ids, x, y)
  }

  ghost predicate ComponentMapped(ids: seq<string>, c: Json, after: Json) {
    forall pos :: ComponentPlace(ids, c, after, pos)
  }

  lemma ListPlace(ids: seq<string>, v: Json, pos: seq<nat>)
    ensures var x, y := At(v, pos), At(MapList(ids, RewriteValue(ids, v)), pos);
            if x.Some? && x.value.JStr? && |pos| == 1 && v.JArr? then
              y.Some? && y.value.JStr? && LinkMapped(ids, x.value.s, y.value.s)
            else PlaceMapped(ids, x, y)
  {
    PlaceIsMapped(ids, v, pos);
    var w := RewriteValue(ids, v);
    if v.JArr? && pos != [] && pos[0] < |v.items| {
      assert MapList(ids, w).items[pos[0]] == MapIfString(ids, w.items[pos[0]]);
      assert |pos| == 1 ==> pos[1..] == [];
      if v.items[pos[0]].JStr? && |pos| == 1 {
        TextIsMapped(ids, v.items[pos[0]].s);
      }
    }
  }

  lemma ParentPlace(ids: seq<string>, v: Json, pos: seq<nat>)
    ensures var x, y := At(v, pos), At(MapIfString(ids, RewriteValue(ids, v)), pos);
            if x.Some? && x.value.JStr? && pos == [] then
              y.Some? && y.value.JStr? && LinkMapped(ids, x.value.s, y.value.s)
            else PlaceMapped(ids, x, y)
  {
    PlaceIsMapped(ids, v, pos);
    if v.JStr? {
      TextIsMapped(ids, v.s);
    }
  }

  lemma NamePlace(ids: seq<string>, v: Json, pos: seq<nat>)
    ensures var x, y := At(v, pos), At(RenameNameValue(RewriteValue(ids, v)), pos);
            if x.Some? && x.value.JStr? && pos == [] then
              y.Some? && y.value.JStr? && NameMapped(ids, x.value.s, y.value.s)
            else PlaceMapped(ids, x, y)
  {
    PlaceIsMapped(ids, v, pos);
    if v.JStr? {
      TextIsMapped(ids, v.s);
    }
  }

  /** The object of a component. */
  lemma ObjectIsMapped(ids: seq<string>, v: Json, pos: seq<nat>)
    requires v.JObj?
    ensures var x, y := At(v, pos), At(JObj(RenameObject(RewriteValue(ids, v).fields)), pos);
            if x.Some? && x.value.JStr? && |pos| == 1 && v.fields[pos[0]].key == "component_name" then
              y.Some? && y.value.JStr? && NameMapped(ids, x.value.s, y.value.s)
            else ObjectPlace(ids, x, y, pos == [])
  {
    var w := RewriteValue(ids, v).fields;
    var r := RenameObject(w);
    assert Keys(w) == Keys(v.fields);
    if pos == [] {
      assert Keys(r) == if "component_name" in Keys(w) then Keys(w) else Keys(w) + ["component_name"];
    } else if pos[0] < |v.fields| {
      var f := v.fields[pos[0]];
      assert Keys(w)[pos[0]] == f.key && w[pos[0]].value == RewriteValue(ids, f.value);
      PlaceIsMapped(ids, f.value, pos[1..]);
      NamePlace(ids, f.value, pos[1..]);
      assert r[pos[0]].value == if f.key == "component_name" then RenameNameValue(w[pos[0]].value) else w[pos[0]].value;
    }
  }

  /** One field of a component. */
  ghost predicate FieldPlaced(ids: seq<string>, key: string, v: Json, w: Json, pos: seq<nat>) {
    var x, y := At(v, pos), At(w, pos);
    if x.Some? && x.value.JStr? && key == "obj" && |pos| == 1 && v.JObj? && v.fields[pos[0]].key == "component_name"
    then y.Some? && y.value.JStr? && NameMapped(ids, x.value.s, y.value.s)
    else if x.Some? && x.value.JStr?
            && (((key == "downstream" || key == "upstream") && |pos| == 1 && v.JArr?)
                || (key == "parent_id" && pos == []))
    then y.Some? && y.value.JStr? && LinkMapped(ids, x.value.s, y.value.s)
    else if key == "obj" then ObjectPlace(ids, x, y, pos == [])
    else PlaceMapped(ids, x, y)
  }

  lemma FieldPlace(ids: seq<string>, key: string, v: Json, pos: seq<nat>)
    ensures FieldPlaced(ids, key, v, ComponentField(ids, key, RewriteValue(ids, v)), pos)
  {
    if key == "obj" && v.JObj? {
      ObjectIsMapped(ids, v, pos);
    } else if key == "downstream" || key == "upstream" {
      ListPlace(ids, v, pos);
    } else if key == "parent_id" {
      ParentPlace(ids, v, pos);
    } else {
      PlaceIsMapped(ids, v, pos);
    }
  }

  /** The rewritten component, position by position. */
  lemma ComponentPlaceIsMapped(ids: seq<string>, c: Json, pos: seq<nat>)
    ensures ComponentPlace(ids, c, RewriteComponent(ids, c), pos)
  {
    PlaceIsMapped(ids, c, pos);
    var w, r := RewriteValue(ids, c), RewriteComponent(ids, c);
    if c.JObj? {
      assert Keys(r.fields) == Keys(w.fields) == Keys(c.fields);
      if pos != [] && pos[0] < |c.fields| {
        var f, rest := c.fields[pos[0]], pos[1..];
        assert r.fields[pos[0]].value == ComponentField(ids, f.key, RewriteValue(ids, f.value));
        FieldPlace(ids, f.key, f.value, rest);
      }
    }
  }

  lemma ComponentIsMapped(ids: seq<string>, c: Json)
    ensures ComponentMapped(ids, c, RewriteComponent(ids, c))
  {
    forall pos: seq<nat>
      ensures ComponentPlace(ids, c, RewriteComponent(ids, c), pos)
    {
      ComponentPlaceIsMapped(ids, c, pos);
    }
  }

  // ---- The document ----

  /** The object's field `key` before and after. */
  ghost predicate FieldMapped(ids: seq<string>, before: seq<Field>, after: seq<Field>, key: string) {
    if Get(before, key).None? then Get(after, key).None?
    else Get(after, key).Some? && TextsMapped(ids, Get(before, key).value, Get(after, key).value)
  }

  /** A node keeps its fields; its form is mapped text by text, its label, name and type are looked up in the table. */
  ghost predicate NodeMapped(ids: seq<string>, node: Json, after: Json) {
    if !node.JObj? then after == node
    else
      && after.JObj? && Keys(after.fields) == Keys(node.fields)
      && Get(after.fields, "type") == LookedUp(Get(node.fields, "type"), RenameNodeType)
      && (Get(node.fields, "data").Some? && Get(node.fields, "data").value.JObj? ==>
            && Get(after.fields, "data").Some? && Get(after.fields, "data").value.JObj?
            && DataMapped(ids, Get(node.fields, "data").value.fields, Get(after.fields, "data").value.fields))
      && forall key :: key !in {"id", "parentId", "type", "data"} ==> Get(after.fields, key) == Get(node.fields, key)
  }

  /** An edge keeps its fields; in its own id the component ids are replaced. */
  ghost predicate EdgeMapped(ids: seq<string>, edge: Json, after: Json) {
    if !edge.JObj? then after == edge
    else
      && after.JObj? && Keys(after.fields) == Keys(edge.fields)
      && Get(after.fields, "id") == LookedUp(Get(edge.fields, "id"), t => ReplaceIds(SortByLength(ids), t))
      && forall key :: key !in {"source", "target", "id"} ==> Get(after.fields, key) == Get(edge.fields, key)
  }

  lemma EdgeIsMapped(ids: seq<string>, edge: Json)
    ensures EdgeMapped(ids, edge, RewriteEdge(ids, edge))
  {
    if edge.JObj? {
      assert Keys(RewriteEdge(ids, edge).fields) == Keys(edge.fields);
      forall key: string
        ensures Get(RewriteEdge(ids, edge).fields, key)
                == if Get(edge.fields, key).Some? then Some(EdgeField(ids, key, Get(edge.fields, key).value))
                   else None
      {
        GetEdgeField(ids, edge.fields, key);
      }
    }
  }

  function LookedUp(v: Option<Json>, rename: string -> string): Option<Json> {
    if v.Some? && v.value.JStr? then Some(JStr(rename(v.value.s))) else v
  }

  ghost predicate DataMapped(ids: seq<string>, data: seq<Field>, after: seq<Field>) {
    && Keys(after) == Keys(data)
    && Get(after, "label") == LookedUp(Get(data, "label"), RenameName)
    && Get(after, "name") == LookedUp(Get(data, "name"), RenameName)
    && FieldMapped(ids, data, after, "form")
    && forall key :: key !in {"label", "name", "form"} ==> Get(after, key) == Get(data, key)
  }

  lemma DataIsMapped(ids: seq<string>, data: seq<Field>)
    ensures DataMapped(ids, data, DataFields(ids, data))
  {
    assert Keys(DataFields(ids, data)) == Keys(data);
    forall key: string
      ensures Get(DataFields(ids, data), key)
              == if Get(data, key).Some? then Some(DataField(ids, key, Get(data, key).value)) else None
    {
      GetDataField(ids, data, key);
    }
    if Get(data, "form").Some? {
      ValueIsMapped(ids, Get(data, "form").value);
    }
  }

  lemma NodeIsMapped(ids: seq<string>, node: Json)
    ensures NodeMapped(ids, node, RewriteNode(ids, node))
  {
    if node.JObj? {
      assert Keys(RewriteNode(ids, node).fields) == Keys(node.fields);
      forall key: string
        ensures Get(RewriteNode(ids, node).fields, key)
                == if Get(node.fields, key).Some? then Some(NodeField(ids, key, Get(node.fields, key).value))
                   else None
      {
        GetNodeField(ids, node.fields, key);
      }
      if Get(node.fields, "data").Some? && Get(node.fields, "data").value.JObj? {
        DataIsMapped(ids, Get(node.fields, "data").value.fields);
      }
    }
  }

  lemma TopIsMapped(d: Json, e: Json, key: string)
    requires HasComponents(d) && Normalize(d) == Ok(e) && key in {"history", "messages", "reference"}
    ensures e.JObj? && FieldMapped(ComponentIds(d), d.fields, e.fields, key)
  {
    GetTop(ComponentIds(d), d.fields, key);
    if Get(d.fields, key).Some? {
      ValueIsMapped(ComponentIds(d), Get(d.fields, key).value);
    }
  }

  /** The component stands in the migrated table for one of the original table. */
  ghost predicate Stands(ids: seq<string>, cs: seq<Field>, f: Field) {
    exists o :: o in cs && StandsFor(ids, o, f)
  }

  ghost predicate StandsFor(ids: seq<string>, o: Field, f: Field) {
    f.key == RenameId(o.key) && ComponentMapped(ids, o.value, f.value)
  }

  lemma StandsLonger(ids: seq<string>, init: seq<Field>, last: Field, f: Field)
    requires Stands(ids, init, f) || StandsFor(ids, last, f)
    ensures Stands(ids, init + [last], f)
  {
    if o :| o in init && StandsFor(ids, o, f) {
      assert o in init + [last];
    } else {
      assert last in init + [last];
    }
  }

  lemma {:induction false} TableIsMapped(ids: seq<string>, cs: seq<Field>, f: Field)
    requires f in RewriteComponents(ids, cs)
    ensures Stands(ids, cs, f)
  {
    var init, last := cs[..|cs| - 1], cs[|cs| - 1];
    assert cs == init + [last];
    FromSet(RewriteComponents(ids, init), RenameId(last.key), RewriteComponent(ids, last.value), f);
    if f in RewriteComponents(ids, init) {
      TableIsMapped(ids, init, f);
    } else {
      ComponentIsMapped(ids, last.value);
    }
    StandsLonger(ids, init, last, f);
  }

  lemma {:induction false} FromSet(fields: seq<Field>, key: string, v: Json, f: Field)
    requires f in SetField(fields, key, v)
    ensures f in fields || f == Field(key, v)
  {
    if fields != [] && fields[0].key != key && f != fields[0] {
      FromSet(fields[1..], key, v, f);
    }
  }

  /** Every text of the migrated document, wherever it stands: in history, messages and reference, in the nodes of the
      graph, and in the components, each of which stands for one of the original document. */
  lemma DocumentTexts(d: Json, e: Json)
    requires HasComponents(d) && Normalize(d) == Ok(e)
    ensures HasComponents(e) && |NodesOf(e)| == |NodesOf(d)| && |EdgesOf(e)| == |EdgesOf(d)|
    ensures forall key :: key in {"history", "messages", "reference"} ==>
              FieldMapped(ComponentIds(d), d.fields, e.fields, key)
    ensures forall i :: 0 <= i < |NodesOf(d)| ==> NodeMapped(ComponentIds(d), NodesOf(d)[i], NodesOf(e)[i])
    ensures forall i :: 0 <= i < |EdgesOf(d)| ==> EdgeMapped(ComponentIds(d), EdgesOf(d)[i], EdgesOf(e)[i])
    ensures forall f :: f in ComponentsOf(e) ==> Stands(ComponentIds(d), ComponentsOf(d), f)
  {
    PartsOfMigrated(d, e);
    var ids := ComponentIds(d);
    forall key | key in {"history", "messages", "reference"}
      ensures FieldMapped(ids, d.fields, e.fields, key)
    {
      TopIsMapped(d, e, key);
    }
    forall i | 0 <= i < |NodesOf(d)|
      ensures NodeMapped(ids, NodesOf(d)[i], NodesOf(e)[i])
    {
      NodeIsMapped(ids, NodesOf(d)[i]);
    }
    forall i | 0 <= i < |EdgesOf(d)|
      ensures EdgeMapped(ids, EdgesOf(d)[i], EdgesOf(e)[i])
    {
      EdgeIsMapped(ids, EdgesOf(d)[i]);
    }
    forall f | f in ComponentsOf(e)
      ensures Stands(ids, ComponentsOf(d), f)
    {
      TableIsMapped(ids, ComponentsOf(d), f);
    }
  }

  /** Where no components collide, each component is found under its new id with every text mapped, and a component id
      at any position but the name reads as its new spelling. */
  lemma ComponentTexts(d: Json, e: Json, a: string, pos: seq<nat>, x: string)
    requires HasComponents(d) && Normalize(d) == Ok(e)
    requires UniqueKeys(ComponentsOf(d)) && Injective(ComponentIds(d)) && a in ComponentIds(d)
    ensures HasComponents(e) && Get(ComponentsOf(d), a).Some? && Get(ComponentsOf(e), RenameId(a)).Some?
    ensures var c, after := Get(ComponentsOf(d), a).value, Get(ComponentsOf(e), RenameId(a)).value;
            && ComponentMapped(ComponentIds(d), c, after)
            && (At(c, pos) == Some(JStr(x)) && x in ComponentIds(d) && !AtName(c, pos) ==>
                  At(after, pos) == Some(JStr(RenameId(x))))
  {
    var ids := ComponentIds(d);
    PartsOfMigrated(d, e);
    ComponentIsFound(ids, ComponentsOf(d), a);
    ComponentIsMapped(ids, Get(ComponentsOf(d), a).value);
    var c, after := Get(ComponentsOf(d), a).value, Get(ComponentsOf(e), RenameId(a)).value;
    if At(c, pos) == Some(JStr(x)) && x in ids && !AtName(c, pos) {
      IdAtPlace(ids, c, after, pos, x);
    }
  }

  lemma IdAtPlace(ids: seq<string>, c: Json, after: Json, pos: seq<nat>, x: string)
    requires ComponentPlace(ids, c, after, pos)
    requires At(c, pos) == Some(JStr(x)) && x in ids && !AtName(c, pos)
    ensures At(after, pos) == Some(JStr(RenameId(x)))
  {
    RenameIdIsSettled(x);
  }

  // ---- When the migration raises ----

  /** What stands at the position is looked up in the rename table or in the id map, whether it is a text or not. */
  predicate KeyPlace(c: Json, pos: seq<nat>) {
    AtName(c, pos) || (AtLink(c, pos) && |pos| == 2)
  }

  ghost predicate ListOrObjectAt(v: Json, pos: seq<nat>) {
    At(v, pos).Some? && (At(v, pos).value.JArr? || At(v, pos).value.JObj?)
  }

  lemma InTwoSteps(v: Json, i: nat, j: nat)
    ensures At(v, [i, j]) == if At(v, [i]).None? then None else At(At(v, [i]).value, [j])
  {
    assert [i, j][1..] == [j] && [i][1..] == [] && [j][1..] == [];
  }

  lemma OneStep(v: Json, i: nat)
    ensures v.JArr? && i < |v.items| ==> At(v, [i]) == Some(v.items[i])
    ensures v.JObj? && i < |v.fields| ==> At(v, [i]) == Some(v.fields[i].value)
  {
    assert [i][1..] == [];
  }

  lemma ComponentRaisesIff(c: Json)
    ensures ComponentRaises(c) <==> exists pos :: KeyPlace(c, pos) && ListOrObjectAt(c, pos)
  {
    if c.JObj? {
      if f :| f in c.fields && FieldRaises(f) {
        var i :| 0 <= i < |c.fields| && c.fields[i] == f;
        var j := RaisesAt(c, i);
        assert KeyPlace(c, [i, j]) && ListOrObjectAt(c, [i, j]);
      }
      forall pos | KeyPlace(c, pos) && ListOrObjectAt(c, pos)
        ensures c.fields[pos[0]] in c.fields && FieldRaises(c.fields[pos[0]])
      {
        assert pos == [pos[0], pos[1]];
        PlaceRaises(c, pos[0], pos[1]);
      }
    }
  }

  lemma RaisesAt(c: Json, i: nat) returns (j: nat)
    requires c.JObj? && i < |c.fields| && FieldRaises(c.fields[i])
    ensures KeyPlace(c, [i, j]) && ListOrObjectAt(c, [i, j])
  {
    var v := c.fields[i].value;
    if c.fields[i].key == "obj" {
      var g :| g in v.fields && g.key == "component_name" && Unhashable(g.value);
      j :| 0 <= j < |v.fields| && v.fields[j] == g;
    } else {
      var x :| x in v.items && Unhashable(x);
      j :| 0 <= j < |v.items| && v.items[j] == x;
    }
    InTwoSteps(c, i, j);
    OneStep(c, i);
    OneStep(v, j);
  }

  lemma PlaceRaises(c: Json, i: nat, j: nat)
    requires KeyPlace(c, [i, j]) && ListOrObjectAt(c, [i, j])
    ensures FieldRaises(c.fields[i])
  {
    var v := c.fields[i].value;
    InTwoSteps(c, i, j);
    OneStep(c, i);
    OneStep(v, j);
    if c.fields[i].key == "obj" {
      assert v.fields[j] in v.fields && Unhashable(v.fields[j].value);
    } else {
      assert v.items[j] in v.items && Unhashable(v.items[j]);
    }
  }

  /** The migration raises if and only if a list or an object stands where the name of a component, an entry of one of
      its link lists, or an entry of the path is looked up. Nothing else makes it fail. */
  lemma MigrationRaisesIff(d: Json)
    ensures Normalize(d).Err? <==>
            && HasComponents(d)
            && ((exists f, pos :: f in ComponentsOf(d) && KeyPlace(f.value, pos) && ListOrObjectAt(f.value, pos))
                || (exists f, x :: f in d.fields && f.key == "path" && f.value.JArr? && x in f.value.items
                                   && (x.JArr? || x.JObj?)))
  {
    if HasComponents(d) {
      forall f | f in ComponentsOf(d)
        ensures ComponentRaises(f.value) <==> exists pos :: KeyPlace(f.value, pos) && ListOrObjectAt(f.value, pos)
      {
        ComponentRaisesIff(f.value);
      }
    }
  }

  // ---- Components whose new ids collide ----

  /** Of components with the same new id the last one stands in the migrated table. */
  lemma {:induction false} LastComponentWins(ids: seq<string>, front: seq<Field>, c: Field, back: seq<Field>)
    requires forall o :: o in back ==> RenameId(o.key) != RenameId(c.key)
    ensures var after := Get(RewriteComponents(ids, front + [c] + back), RenameId(c.key));
            after.Some? && ComponentMapped(ids, c.value, after.value)
    decreases |back|
  {
    var cs := front + [c] + back;
    var init, last := cs[..|cs| - 1], cs[|cs| - 1];
    if back == [] {
      assert last == c;
      GetAfterSet(RewriteComponents(ids, init), RenameId(c.key), RewriteComponent(ids, c.value), RenameId(c.key));
      ComponentIsMapped(ids, c.value);
    } else {
      assert last == back[|back| - 1] && init == front + [c] + back[..|back| - 1];
      LastComponentWins(ids, front, c, back[..|back| - 1]);
      GetAfterSet(RewriteComponents(ids, init), RenameId(last.key), RewriteComponent(ids, last.value), RenameId(c.key));
    }
  }
}
