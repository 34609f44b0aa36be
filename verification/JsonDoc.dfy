/** JSON documents. Objects keep their field order, as Python's dictionaries do. */
module JsonDoc {
  import opened PyValues

  datatype Json =
    | JNull
    | JBool(flag: bool)
    | JNum(n: real)
    | JStr(s: string)
    | JArr(items: seq<Json>)
    | JObj(fields: seq<Field>)

  datatype Field = Field(key: string, value: Json)

  /** `obj.get(key)` */
  function Get(fields: seq<Field>, key: string): Option<Json> {
    if fields == [] then None
    else if fields[0].key == key then Some(fields[0].value)
    else Get(fields[1..], key)
  }

  /** `obj[key] = v`: overwrites in place, or appends. */
  function SetField(fields: seq<Field>, key: string, v: Json): seq<Field> {
    if fields == [] then [Field(key, v)]
    else if fields[0].key == key then [Field(key, v)] + fields[1..]
    else [fields[0]] + SetField(fields[1..], key, v)
  }

  function Keys(fields: seq<Field>): seq<string> {
    seq(|fields|, i requires 0 <= i < |fields| => fields[i].key)
  }

  predicate UniqueKeys(fields: seq<Field>) {
    forall i, j :: 0 <= i < j < |fields| ==> Keys(fields)[i] != Keys(fields)[j]
  }

  /** Lists and dictionaries cannot be looked up in a dictionary. */
  predicate Unhashable(v: Json) {
    v.JArr? || v.JObj?
  }

  lemma {:induction false} GetIsField(fields: seq<Field>, key: string)
    ensures Get(fields, key).None? <==> key !in Keys(fields)
    ensures Get(fields, key).Some? ==> Field(key, Get(fields, key).value) in fields
  {
    if fields != [] {
      GetIsField(fields[1..], key);
      assert Keys(fields) == [fields[0].key] + Keys(fields[1..]);
    }
  }

  lemma {:induction false} GetAfterSet(fields: seq<Field>, key: string, v: Json, other: string)
    ensures Get(SetField(fields, key, v), other) == if other == key then Some(v) else Get(fields, other)
  {
    if fields != [] && fields[0].key != key {
      GetAfterSet(fields[1..], key, v, other);
    }
  }

  lemma {:induction false} SetFresh(fields: seq<Field>, key: string, v: Json)
    requires key !in Keys(fields)
    ensures SetField(fields, key, v) == fields + [Field(key, v)]
  {
    if fields != [] {
      assert Keys(fields) == [fields[0].key] + Keys(fields[1..]);
      assert fields[0].key == Keys(fields)[0];
      SetFresh(fields[1..], key, v);
      assert fields == [fields[0]] + fields[1..];
    }
  }

  lemma {:induction false} SetKeys(fields: seq<Field>, key: string, v: Json)
    ensures Keys(SetField(fields, key, v)) == if key in Keys(fields) then Keys(fields) else Keys(fields) + [key]
  {
    if fields != [] {
      assert Keys(fields) == [fields[0].key] + Keys(fields[1..]);
      var r := SetField(fields, key, v);
      assert Keys(r) == [r[0].key] + Keys(r[1..]);
      if fields[0].key != key {
        SetKeys(fields[1..], key, v);
      }
    }
  }

  // ---- Overwriting a field ----

  /** Python's dictionaries have each key once, at every depth. */
  predicate Dictionaries(v: Json) {
    match v
    case JArr(items) => forall i :: 0 <= i < |items| ==> Dictionaries(items[i])
    case JObj(fields) => UniqueKeys(fields) && forall i :: 0 <= i < |fields| ==> Dictionaries(fields[i].value)
    case _ => true
  }

  /** Every value under `key` replaced by its image. */
  ghost function MapKey(fields: seq<Field>, key: string, g: Json -> Json): (r: seq<Field>)
    ensures |r| == |fields| && Keys(r) == Keys(fields)
  {
    seq(|fields|, i requires 0 <= i < |fields| =>
          if fields[i].key == key then Field(key, g(fields[i].value)) else fields[i])
  }

  lemma UniqueTail(fields: seq<Field>)
    requires fields != [] && UniqueKeys(fields)
    ensures UniqueKeys(fields[1..]) && fields[0].key !in Keys(fields[1..])
  {
    var tail := fields[1..];
    assert Keys(fields) == [fields[0].key] + Keys(tail);
    forall i | 0 <= i < |tail|
      ensures Keys(tail)[i] == Keys(fields)[i + 1] && Keys(tail)[i] != fields[0].key
    {
      assert Keys(fields)[0] != Keys(fields)[i + 1];
    }
  }

  lemma MapAbsentKey(fields: seq<Field>, key: string, g: Json -> Json)
    requires key !in Keys(fields)
    ensures MapKey(fields, key, g) == fields
  {
    forall i | 0 <= i < |fields|
      ensures fields[i].key != key
    {
      assert Keys(fields)[i] == fields[i].key;
    }
  }

  /** Overwriting the field by the image of its value maps the key. */
  lemma {:induction false} SetIsMapKey(fields: seq<Field>, key: string, g: Json -> Json)
    requires UniqueKeys(fields) && Get(fields, key).Some?
    ensures SetField(fields, key, g(Get(fields, key).value)) == MapKey(fields, key, g)
  {
    UniqueTail(fields);
    var tail := fields[1..];
    assert fields == [fields[0]] + tail;
    if fields[0].key == key {
      MapAbsentKey(tail, key, g);
      assert MapKey(fields, key, g) == [Field(key, g(fields[0].value))] + MapKey(tail, key, g);
    } else {
      SetIsMapKey(tail, key, g);
      assert MapKey(fields, key, g) == [fields[0]] + MapKey(tail, key, g);
    }
  }

  /** Leaving a field that its image equals, or that is not there, maps the key, too. */
  lemma {:induction false} KeptIsMapKey(fields: seq<Field>, key: string, g: Json -> Json)
    requires UniqueKeys(fields)
    requires Get(fields, key).Some? ==> g(Get(fields, key).value) == Get(fields, key).value
    ensures MapKey(fields, key, g) == fields
  {
    GetIsField(fields, key);
    if Get(fields, key).None? {
      MapAbsentKey(fields, key, g);
    } else {
      SetIsMapKey(fields, key, g);
      SetSame(fields, key);
    }
  }

  lemma {:induction false} SetSame(fields: seq<Field>, key: string)
    requires Get(fields, key).Some?
    ensures SetField(fields, key, Get(fields, key).value) == fields
  {
    assert fields == [fields[0]] + fields[1..];
    if fields[0].key != key {
      SetSame(fields[1..], key);
    }
  }

  /** Mapping one key leaves the others readable as before. */
  lemma {:induction false} GetMapped(fields: seq<Field>, key: string, g: Json -> Json, other: string)
    ensures Get(MapKey(fields, key, g), other) ==
              if other == key && Get(fields, key).Some? then Some(g(Get(fields, key).value)) else Get(fields, other)
  {
    if fields != [] {
      assert MapKey(fields, key, g)[1..] == MapKey(fields[1..], key, g);
      GetMapped(fields[1..], key, g, other);
    }
  }

  /** With unique keys a field is what `get` finds. */
  lemma {:induction false} GetUnique(fields: seq<Field>, i: nat)
    requires UniqueKeys(fields) && i < |fields|
    ensures Get(fields, fields[i].key) == Some(fields[i].value)
  {
    UniqueTail(fields);
    if i > 0 {
      assert Keys(fields[1..])[i - 1] == fields[i].key;
      GetUnique(fields[1..], i - 1);
    }
  }
}
