/** The migration leaves no legacy name behind and touches only the fields it names. */
module MigrationCompleteness {
  import opened PyValues
  import opened JsonDoc
  import opened DslMigration
  import opened MigrationIdempotence
  import opened MigrationIsomorphism

  /** No legacy component name. */
  predicate CurrentName(name: string) {
    name != RENAMES[0].0 && name != RENAMES[1].0 && name != RENAMES[2].0
  }

  /** No legacy component id. */
  predicate CurrentId(id: string) {
    !(LegacyPrefix(0) <= id) && !(LegacyPrefix(1) <= id) && !(LegacyPrefix(2) <= id)
  }

  lemma RenamedNameIsCurrent(name: string)
    ensures CurrentName(RenameName(name))
    ensures CurrentName(name) ==> RenameName(name) == name
  {
  }

  lemma SettledIdIsCurrent(id: string)
    ensures RenameId(id) == id <==> CurrentId(id)
  {
    if RenameId(id) == id && !CurrentId(id) {
      var i := if LegacyPrefix(0) <= id then 0 else if LegacyPrefix(1) <= id then 1 else 2;
      PrefixHead(LegacyPrefix(i), id);
      PrefixHead(CurrentPrefix(i), RenameId(id));
      assert false;
    }
  }

  lemma {:induction false} GetRenamedName(fields: seq<Field>)
    requires "component_name" in Keys(fields)
    ensures Get(fields, "component_name").Some?
    ensures Get(RenameObject(fields), "component_name") == Some(RenameNameValue(Get(fields, "component_name").value))
  {
    RenamedNameFound(fields, RenameObject(fields));
    GetIsField(fields, "component_name");
  }

  lemma {:induction false} RenamedNameFound(fields: seq<Field>, r: seq<Field>)
    requires |r| == |fields|
    requires forall i :: 0 <= i < |fields| ==>
               r[i] == if fields[i].key == "component_name" then Field(fields[i].key, RenameNameValue(fields[i].value))
                       else fields[i]
    ensures Get(r, "component_name") ==
              if Get(fields, "component_name").Some? then Some(RenameNameValue(Get(fields, "component_name").value))
              else None
  {
    if fields != [] {
      RenamedNameFound(fields[1..], r[1..]);
    }
  }

  lemma {:induction false} GetAppended(fields: seq<Field>, f: Field)
    requires f.key !in Keys(fields)
    ensures Get(fields + [f], f.key) == Some(f.value)
  {
    if fields != [] {
      assert Keys(fields)[0] == fields[0].key && fields[0].key in Keys(fields);
      assert Keys(fields) == [fields[0].key] + Keys(fields[1..]);
      assert (fields + [f])[1..] == fields[1..] + [f];
      GetAppended(fields[1..], f);
    }
  }

  /** The name of every component object is current afterwards, and it has one. */
  lemma ComponentNameIsCurrent(ids: seq<string>, c: Json)
    requires c.JObj? && Get(RewriteComponent(ids, c).fields, "obj").Some?
    ensures var obj := Get(RewriteComponent(ids, c).fields, "obj").value;
            obj.JObj? ==>
              && Get(obj.fields, "component_name").Some?
              && (Get(obj.fields, "component_name").value.JStr? ==>
                    CurrentName(Get(obj.fields, "component_name").value.s))
  {
    FieldOfRewritten(ids, c, "obj");
    var before := RewriteValue(ids, Get(c.fields, "obj").value);
    if before.JObj? {
      if "component_name" in Keys(before.fields) {
        GetRenamedName(before.fields);
        GetIsField(before.fields, "component_name");
        var name := Get(before.fields, "component_name").value;
        if name.JStr? {
          RenamedNameIsCurrent(name.s);
        }
      } else {
        GetAppended(before.fields, Field("component_name", JNull));
      }
    }
  }

  /** No component of a migrated document has a legacy id. */
  lemma NoLegacyIdRemains(d: Json, id: string)
    requires HasComponents(d) && Normalize(d).Ok?
    ensures HasComponents(Normalize(d).value)
    ensures id in ComponentIds(Normalize(d).value) ==> CurrentId(id)
  {
    SecondPassDoesNotRaise(d);
    var cs := ComponentsOf(d);
    TableIsRewritten(ComponentIds(d), cs, cs);
    SettledIdIsCurrent(id);
  }

  // ---- Nodes ----

  lemma {:induction false} GetNodeField(ids: seq<string>, fields: seq<Field>, key: string)
    ensures Get(RewriteNode(ids, JObj(fields)).fields, key) ==
              if Get(fields, key).Some? then Some(NodeField(ids, key, Get(fields, key).value)) else None
  {
    if fields != [] {
      assert RewriteNode(ids, JObj(fields)).fields[1..] == RewriteNode(ids, JObj(fields[1..])).fields;
      GetNodeField(ids, fields[1..], key);
    }
  }

  lemma {:induction false} GetDataField(ids: seq<string>, fields: seq<Field>, key: string)
    ensures Get(DataFields(ids, fields), key) ==
              if Get(fields, key).Some? then Some(DataField(ids, key, Get(fields, key).value)) else None
  {
    if fields != [] {
      assert DataFields(ids, fields)[1..] == DataFields(ids, fields[1..]);
      GetDataField(ids, fields[1..], key);
    }
  }

  /** A node stands for the image of its component, inside the image of its parent; its type, label and name
      are current; its form is rewritten like a component; nothing else of it changes. */
  lemma NodeIsImage(ids: seq<string>, node: seq<Field>, key: string, x: string)
    requires Get(node, key).Some?
    ensures Get(RewriteNode(ids, JObj(node)).fields, key).Some?
    ensures var before, after := Get(node, key).value, Get(RewriteNode(ids, JObj(node)).fields, key).value;
            && ((key == "id" || key == "parentId") && before == JStr(x) && x in ids ==> after == JStr(RenameId(x)))
            && ((key == "id" || key == "parentId") && before == JStr(x) && x !in ids ==> after == before)
            && (key == "type" && before.JStr? ==> after.JStr? && after.s != "splitterNode")
            && (key == "data" && before.JObj? ==> after.JObj? && |after.fields| == |before.fields|)
            && (key !in {"id", "parentId", "type", "data"} ==> after == before)
  {
    GetNodeField(ids, node, key);
  }

  lemma NodeDataIsCurrent(ids: seq<string>, data: seq<Field>, key: string)
    requires Get(data, key).Some?
    ensures Get(DataFields(ids, data), key).Some?
    ensures var before, after := Get(data, key).value, Get(DataFields(ids, data), key).value;
            && ((key == "label" || key == "name") && before.JStr? ==>
                  after.JStr? && CurrentName(after.s) && (CurrentName(before.s) ==> after == before))
            && (key == "form" ==> after == RewriteValue(ids, before))
            && (key !in {"label", "name", "form"} ==> after == before)
  {
    GetDataField(ids, data, key);
    var before := Get(data, key).value;
    if before.JStr? {
      RenamedNameIsCurrent(before.s);
    }
  }

  // ---- The whole document ----

  const REWRITTEN: set<string> := {"components", "path", "graph", "history", "messages", "reference"}

  /** Only six top-level fields can change; all fields stay, in their order. */
  lemma OtherFieldsUntouched(d: Json)
    requires d.JObj? && Normalize(d).Ok?
    ensures var r := Normalize(d).value;
            && r.JObj? && Keys(r.fields) == Keys(d.fields)
            && forall i :: 0 <= i < |d.fields| && d.fields[i].key !in REWRITTEN ==> r.fields[i] == d.fields[i]
  {
  }
}
