/** agent/dsl_migration.py: legacy component names and ids rewritten throughout a canvas document. */
module DslMigration {
  import opened PyValues
  import opened Text
  import opened JsonDoc
  import opened References

  // ---- Renames ----

  /** COMPONENT_RENAMES, in its order */
  const RENAMES: seq<(string, string)> := [
    ("Splitter", "TokenChunker"),
    ("HierarchicalMerger", "TitleChunker"),
    ("PDFGenerator", "DocGenerator")]

  function RenameName(name: string): string {
    if name == RENAMES[0].0 then RENAMES[0].1
    else if name == RENAMES[1].0 then RENAMES[1].1
    else if name == RENAMES[2].0 then RENAMES[2].1
    else name
  }

  function RenameNodeType(t: string): string {
    if t == "splitterNode" then "chunkerNode" else t
  }

  function LegacyPrefix(i: nat): string
    requires i < 3
  {
    RENAMES[i].0 + ":"
  }

  function CurrentPrefix(i: nat): string
    requires i < 3
  {
    RENAMES[i].1 + ":"
  }

  /** The new id of a component: a legacy prefix is replaced. */
  function RenameId(id: string): string {
    if LegacyPrefix(0) <= id then CurrentPrefix(0) + id[|LegacyPrefix(0)|..]
    else if LegacyPrefix(1) <= id then CurrentPrefix(1) + id[|LegacyPrefix(1)|..]
    else if LegacyPrefix(2) <= id then CurrentPrefix(2) + id[|LegacyPrefix(2)|..]
    else id
  }

  /** `component_id_map.get(x, x)` for the map over the component ids `ids`. */
  function MapId(ids: seq<string>, x: string): string {
    if x in ids then RenameId(x) else x
  }

  function Renaming(ids: seq<string>): string -> string {
    (x: string) => MapId(ids, x)
  }

  // ---- Values ----

  /** `rewrite_variable_refs` */
  function RewriteText(ids: seq<string>, t: string): string {
    if t in ids then RenameId(t) else Substitute(Renaming(ids), t)
  }

  /** `rewrite_value` */
  function RewriteValue(ids: seq<string>, v: Json): Json {
    match v
    case JStr(s) => JStr(RewriteText(ids, s))
    case JArr(items) => JArr(seq(|items|, i requires 0 <= i < |items| => RewriteValue(ids, items[i])))
    case JObj(fields) =>
      JObj(seq(|fields|, i requires 0 <= i < |fields| => Field(fields[i].key, RewriteValue(ids, fields[i].value))))
    case _ => v
  }

  /** A string value that names a component. */
  function MapIfString(ids: seq<string>, v: Json): Json {
    if v.JStr? then JStr(MapId(ids, v.s)) else v
  }

  function MapEntries(ids: seq<string>, items: seq<Json>): seq<Json> {
    seq(|items|, i requires 0 <= i < |items| => MapIfString(ids, items[i]))
  }

  function MapList(ids: seq<string>, v: Json): Json {
    if v.JArr? then JArr(MapEntries(ids, v.items)) else v
  }

  // ---- Components ----

  function RenameNameValue(v: Json): Json {
    if v.JStr? then JStr(RenameName(v.s)) else v
  }

  /** `obj["component_name"] = ...`, which also adds a missing name as null. */
  function RenameObject(fields: seq<Field>): seq<Field> {
    if "component_name" !in Keys(fields) then fields + [Field("component_name", JNull)]
    else seq(|fields|, i requires 0 <= i < |fields| =>
               if fields[i].key == "component_name" then Field(fields[i].key, RenameNameValue(fields[i].value))
               else fields[i])
  }

  function ComponentField(ids: seq<string>, key: string, v: Json): Json {
    if key == "obj" && v.JObj? then JObj(RenameObject(v.fields))
    else if key == "downstream" || key == "upstream" then MapList(ids, v)
    else if key == "parent_id" then MapIfString(ids, v)
    else v
  }

  function ComponentFields(ids: seq<string>, fields: seq<Field>): seq<Field> {
    seq(|fields|, i requires 0 <= i < |fields| =>
          Field(fields[i].key, ComponentField(ids, fields[i].key, fields[i].value)))
  }

  function RewriteComponent(ids: seq<string>, c: Json): Json {
    var n := RewriteValue(ids, c);
    if n.JObj? then JObj(ComponentFields(ids, n.fields)) else n
  }

  /** `rewritten_components`: on a collision the later component overwrites the earlier one. */
  function RewriteComponents(ids: seq<string>, cs: seq<Field>): seq<Field> {
    if cs == [] then []
    else
      var last := cs[|cs| - 1];
      SetField(RewriteComponents(ids, cs[..|cs| - 1]), RenameId(last.key), RewriteComponent(ids, last.value))
  }

  // ---- Graph ----

  /** `sorted(..., key=len, reverse=True)`, which is stable. */
  function InsertByLength(x: string, s: seq<string>): seq<string> {
    if s == [] || |x| >= |s[0]| then [x] + s else [s[0]] + InsertByLength(x, s[1..])
  }

  function SortByLength(s: seq<string>): seq<string> {
    if s == [] then [] else InsertByLength(s[0], SortByLength(s[1..]))
  }

  function ReplaceIds(ids: seq<string>, t: string): string {
    if ids == [] then t else ReplaceIds(ids[1..], Replace(t, ids[0], RenameId(ids[0])))
  }

  function DataField(ids: seq<string>, key: string, v: Json): Json {
    if key == "label" || key == "name" then RenameNameValue(v)
    else if key == "form" then RewriteValue(ids, v)
    else v
  }

  function DataFields(ids: seq<string>, fields: seq<Field>): seq<Field> {
    seq(|fields|, i requires 0 <= i < |fields| => Field(fields[i].key, DataField(ids, fields[i].key, fields[i].value)))
  }

  function NodeField(ids: seq<string>, key: string, v: Json): Json {
    if key == "id" || key == "parentId" then MapIfString(ids, v)
    else if key == "type" && v.JStr? then JStr(RenameNodeType(v.s))
    else if key == "data" && v.JObj? then JObj(DataFields(ids, v.fields))
    else v
  }

  function RewriteNode(ids: seq<string>, node: Json): Json {
    if !node.JObj? then node
    else JObj(seq(|node.fields|, i requires 0 <= i < |node.fields| =>
                    Field(node.fields[i].key, NodeField(ids, node.fields[i].key, node.fields[i].value))))
  }

  function EdgeField(ids: seq<string>, key: string, v: Json): Json {
    if key == "source" || key == "target" then MapIfString(ids, v)
    else if key == "id" && v.JStr? then JStr(ReplaceIds(SortByLength(ids), v.s))
    else v
  }

  function RewriteEdge(ids: seq<string>, edge: Json): Json {
    if !edge.JObj? then edge
    else JObj(seq(|edge.fields|, i requires 0 <= i < |edge.fields| =>
                    Field(edge.fields[i].key, EdgeField(ids, edge.fields[i].key, edge.fields[i].value))))
  }

  function RewriteNodes(ids: seq<string>, nodes: seq<Json>): seq<Json> {
    seq(|nodes|, i requires 0 <= i < |nodes| => RewriteNode(ids, nodes[i]))
  }

  function RewriteEdges(ids: seq<string>, edges: seq<Json>): seq<Json> {
    seq(|edges|, i requires 0 <= i < |edges| => RewriteEdge(ids, edges[i]))
  }

  function GraphField(ids: seq<string>, key: string, v: Json): Json {
    if key == "nodes" && v.JArr? then JArr(RewriteNodes(ids, v.items))
    else if key == "edges" && v.JArr? then JArr(RewriteEdges(ids, v.items))
    else v
  }

  function GraphFields(ids: seq<string>, fields: seq<Field>): seq<Field> {
    seq(|fields|, i requires 0 <= i < |fields| => Field(fields[i].key, GraphField(ids, fields[i].key, fields[i].value)))
  }

  // ---- The document ----

  function TopField(ids: seq<string>, key: string, v: Json): Json {
    if key == "components" && v.JObj? then JObj(RewriteComponents(ids, v.fields))
    else if key == "path" then MapList(ids, v)
    else if key == "graph" && v.JObj? then JObj(GraphFields(ids, v.fields))
    else if key == "history" || key == "messages" || key == "reference" then RewriteValue(ids, v)
    else v
  }

  function TopFields(ids: seq<string>, fields: seq<Field>): seq<Field> {
    seq(|fields|, i requires 0 <= i < |fields| => Field(fields[i].key, TopField(ids, fields[i].key, fields[i].value)))
  }

  predicate HasComponents(d: Json) {
    d.JObj? && Get(d.fields, "components").Some? && Get(d.fields, "components").value.JObj?
  }

  function ComponentsOf(d: Json): seq<Field>
    requires HasComponents(d)
  {
    Get(d.fields, "components").value.fields
  }

  function ComponentIds(d: Json): seq<string>
    requires HasComponents(d)
  {
    Keys(ComponentsOf(d))
  }

  predicate ListRaises(v: Json) {
    v.JArr? && exists x :: x in v.items && Unhashable(x)
  }

  predicate NameRaises(v: Json) {
    v.JObj? && exists g :: g in v.fields && g.key == "component_name" && Unhashable(g.value)
  }

  predicate FieldRaises(f: Field) {
    if f.key == "obj" then NameRaises(f.value)
    else (f.key == "downstream" || f.key == "upstream") && ListRaises(f.value)
  }

  predicate ComponentRaises(c: Json) {
    c.JObj? && exists f :: f in c.fields && FieldRaises(f)
  }

  /** A list or dictionary stands where the source looks up a component id or name. */
  predicate Raises(d: Json)
    requires HasComponents(d)
  {
    || (exists f :: f in ComponentsOf(d) && ComponentRaises(f.value))
    || (exists f :: f in d.fields && f.key == "path" && ListRaises(f.value))
  }

  /** `normalize_chunker_dsl` as a function of the document. */
  function Normalize(d: Json): Result<Json> {
    if !HasComponents(d) then Ok(d)
    else if Raises(d) then Err("unhashable type")
    else Ok(JObj(TopFields(ComponentIds(d), d.fields)))
  }
}
