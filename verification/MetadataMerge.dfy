/** Merging document metadata (common/metadata_utils.py). */
module MetadataMerge {
  import opened PyValues
  import opened Sequences

  // ---- dedupe_list ----

  /** The `str` keys that occur in a list. */
  function Keys(py: Python, values: seq<Value>): set<string> {
    set i | 0 <= i < |values| :: StrOf(py, values[i])
  }

  /** The items whose key did not occur before them, in their order. */
  function FirstOccurrences(py: Python, values: seq<Value>): seq<Value> {
    if values == [] then []
    else
      var before, last := values[..|values| - 1], values[|values| - 1];
      FirstOccurrences(py, before) + (if StrOf(py, last) in Keys(py, before) then [] else [last])
  }

  predicate DuplicateFree(py: Python, values: seq<Value>) {
    forall i, j :: 0 <= i < j < |values| ==> StrOf(py, values[i]) != StrOf(py, values[j])
  }

  method DedupeList(py: Python, values: seq<Value>) returns (deduped: seq<Value>)
    ensures deduped == FirstOccurrences(py, values)
  {
    var seen: set<string> := {};
    deduped := [];
    for i := 0 to |values|
      invariant seen == Keys(py, values[..i])
      invariant deduped == FirstOccurrences(py, values[..i])
    {
      var item := values[i];
      KeysSnoc(py, values[..i], item);
      assert values[..i + 1] == values[..i] + [item];
      FirstOccurrencesSnoc(py, values[..i], item);
      var key := StrOf(py, item);
      if key in seen {
        continue;
      }
      seen := seen + {key};
      deduped := deduped + [item];
    }
    assert values[..|values|] == values;
  }

  lemma KeysSnoc(py: Python, values: seq<Value>, v: Value)
    ensures Keys(py, values + [v]) == Keys(py, values) + {StrOf(py, v)}
  {
    var all := values + [v];
    assert all[|values|] == v;
    forall k | k in Keys(py, values) + {StrOf(py, v)}
      ensures k in Keys(py, all)
    {
      if k in Keys(py, values) {
        var i :| 0 <= i < |values| && k == StrOf(py, values[i]);
        assert all[i] == values[i];
      }
    }
  }

  lemma FirstOccurrencesSnoc(py: Python, values: seq<Value>, v: Value)
    ensures FirstOccurrences(py, values + [v])
            == FirstOccurrences(py, values) + (if StrOf(py, v) in Keys(py, values) then [] else [v])
  {
    assert (values + [v])[..|values|] == values;
  }

  lemma KeysConcat(py: Python, a: seq<Value>, b: seq<Value>)
    ensures Keys(py, a + b) == Keys(py, a) + Keys(py, b)
  {
    if b == [] {
      assert a + b == a;
    } else {
      var before, last := b[..|b| - 1], b[|b| - 1];
      KeysConcat(py, a, before);
      KeysSnoc(py, a + before, last);
      KeysSnoc(py, before, last);
      assert a + b == (a + before) + [last] && b == before + [last];
    }
  }

  /** No key is lost and none appears twice. */
  lemma {:induction false} DedupeKeepsKeys(py: Python, values: seq<Value>)
    ensures Keys(py, FirstOccurrences(py, values)) == Keys(py, values)
    ensures DuplicateFree(py, FirstOccurrences(py, values))
  {
    if values != [] {
      var before, last := values[..|values| - 1], values[|values| - 1];
      DedupeKeepsKeys(py, before);
      assert values == before + [last];
      KeysSnoc(py, before, last);
      var kept := FirstOccurrences(py, before);
      FirstOccurrencesSnoc(py, before, last);
      if StrOf(py, last) !in Keys(py, before) {
        KeysSnoc(py, kept, last);
        forall i | 0 <= i < |kept|
          ensures StrOf(py, kept[i]) != StrOf(py, last)
        {
          assert StrOf(py, kept[i]) in Keys(py, kept);
        }
      } else {
        assert kept + [] == kept;
      }
    }
  }

  /** Items whose keys all occurred before add nothing. */
  lemma {:induction false} KnownItemsAddNothing(py: Python, a: seq<Value>, b: seq<Value>)
    requires Keys(py, b) <= Keys(py, a)
    ensures FirstOccurrences(py, a + b) == FirstOccurrences(py, a)
  {
    if b == [] {
      assert a + b == a;
    } else {
      var before, last := b[..|b| - 1], b[|b| - 1];
      assert b == before + [last] && a + b == (a + before) + [last];
      KeysSnoc(py, before, last);
      KnownItemsAddNothing(py, a, before);
      KeysConcat(py, a, before);
      FirstOccurrencesSnoc(py, a + before, last);
    }
  }

  lemma {:induction false} DuplicateFreeIsKept(py: Python, values: seq<Value>)
    requires DuplicateFree(py, values)
    ensures FirstOccurrences(py, values) == values
  {
    if values != [] {
      var before, last := values[..|values| - 1], values[|values| - 1];
      DuplicateFreeIsKept(py, before);
      assert values == before + [last];
      FirstOccurrencesSnoc(py, before, last);
    }
  }

  /** Deduplicating early or late comes to the same. */
  lemma {:induction false} DedupeAbsorbs(py: Python, a: seq<Value>, b: seq<Value>)
    ensures FirstOccurrences(py, FirstOccurrences(py, a) + b) == FirstOccurrences(py, a + b)
  {
    DedupeKeepsKeys(py, a);
    if b == [] {
      DuplicateFreeIsKept(py, FirstOccurrences(py, a));
      assert a + b == a && FirstOccurrences(py, a) + b == FirstOccurrences(py, a);
    } else {
      var before, last := b[..|b| - 1], b[|b| - 1];
      var kept := FirstOccurrences(py, a);
      assert a + b == (a + before) + [last] && kept + b == (kept + before) + [last];
      DedupeAbsorbs(py, a, before);
      KeysConcat(py, a, before);
      KeysConcat(py, kept, before);
      FirstOccurrencesSnoc(py, a + before, last);
      FirstOccurrencesSnoc(py, kept + before, last);
    }
  }

  /** What was there stays in front. */
  lemma {:induction false} DedupeKeepsPrefix(py: Python, a: seq<Value>, b: seq<Value>)
    ensures FirstOccurrences(py, a) <= FirstOccurrences(py, a + b)
  {
    if b == [] {
      assert a + b == a;
    } else {
      var before, last := b[..|b| - 1], b[|b| - 1];
      assert a + b == (a + before) + [last];
      DedupeKeepsPrefix(py, a, before);
      FirstOccurrencesSnoc(py, a + before, last);
    }
  }

  /** An item stays if and only if no item before it has the same text. */
  ghost predicate FirstOnes(py: Python, values: seq<Value>, stays: seq<bool>) {
    && |stays| == |values|
    && forall n :: 0 <= n < |values| ==>
         (stays[n] <==> forall i :: 0 <= i < n ==> StrOf(py, values[i]) != StrOf(py, values[n]))
  }

  /** `r` is what is left of `values` when of equal texts only the first is kept. */
  ghost predicate DistinctOf(py: Python, values: seq<Value>, r: seq<Value>) {
    exists stays :: FirstOnes(py, values, stays) && r == Remaining(values, stays)
  }

  lemma FirstOnesSnoc(py: Python, before: seq<Value>, stays: seq<bool>, last: Value, stay: bool)
    requires FirstOnes(py, before, stays) && (stay <==> StrOf(py, last) !in Keys(py, before))
    ensures FirstOnes(py, before + [last], stays + [stay])
  {
    var values := before + [last];
    assert forall i :: 0 <= i < |before| ==> values[i] == before[i];
    if stay {
      assert forall i :: 0 <= i < |before| ==> StrOf(py, before[i]) in Keys(py, before);
    } else {
      var i :| 0 <= i < |before| && StrOf(py, before[i]) == StrOf(py, last);
      assert StrOf(py, values[i]) == StrOf(py, values[|before|]);
    }
  }

  /** Deduplication, exactly. */
  lemma {:induction false} DedupeIsExact(py: Python, values: seq<Value>)
    ensures DistinctOf(py, values, FirstOccurrences(py, values))
  {
    if values == [] {
      assert FirstOnes(py, values, []) && Remaining(values, []) == [];
    } else {
      var before, last := values[..|values| - 1], values[|values| - 1];
      DedupeIsExact(py, before);
      var stays :| FirstOnes(py, before, stays) && FirstOccurrences(py, before) == Remaining(before, stays);
      var stay := StrOf(py, last) !in Keys(py, before);
      assert values == before + [last];
      RemainingLast(before, stays, last, stay);
      FirstOnesSnoc(py, before, stays, last, stay);
    }
  }

  // ---- update_metadata_to ----

  function Strings(items: seq<Value>): (r: seq<Value>)
    ensures forall i :: 0 <= i < |r| ==> r[i].Str?
  {
    if items == [] then [] else (if items[0].Str? then [items[0]] else []) + Strings(items[1..])
  }

  /** `texts` are the texts among the items, in their order. */
  ghost predicate TextsOf(items: seq<Value>, texts: seq<Value>) {
    texts == Remaining(items, seq(|items|, i requires 0 <= i < |items| => items[i].Str?))
  }

  lemma {:induction false} StringsAreTexts(items: seq<Value>)
    ensures TextsOf(items, Strings(items))
  {
    if items != [] {
      StringsAreTexts(items[1..]);
      var stays := seq(|items|, i requires 0 <= i < |items| => items[i].Str?);
      var others := seq(|items| - 1, i requires 0 <= i < |items| - 1 => items[1..][i].Str?);
      assert stays[1..] == others;
    }
  }

  /** Deduplicating what is appended before or after appending comes to the same. */
  lemma {:induction false} DedupeAppended(py: Python, a: seq<Value>, b: seq<Value>)
    ensures FirstOccurrences(py, a + FirstOccurrences(py, b)) == FirstOccurrences(py, a + b)
  {
    if b != [] {
      var before, last := b[..|b| - 1], b[|b| - 1];
      var kept := FirstOccurrences(py, before);
      DedupeAppended(py, a, before);
      DedupeKeepsKeys(py, before);
      assert b == before + [last] && a + b == (a + before) + [last];
      FirstOccurrencesSnoc(py, before, last);
      FirstOccurrencesSnoc(py, a + before, last);
      KeysConcat(py, a, before);
      if StrOf(py, last) in Keys(py, before) {
        assert kept + [] == kept && FirstOccurrences(py, a + before) + [] == FirstOccurrences(py, a + before);
      } else {
        assert a + (kept + [last]) == (a + kept) + [last];
        FirstOccurrencesSnoc(py, a + kept, last);
        KeysConcat(py, a, kept);
      }
    }
  }

  /** What an incoming value is worth: its text, its distinct texts, or nothing. */
  function Incoming(py: Python, v: Value): Option<Value> {
    if v.Str? then Some(v)
    else if v.List? && Strings(v.items) != [] then Some(List(FirstOccurrences(py, Strings(v.items))))
    else None
  }

  /** The value of a key after one incoming value. */
  function Combine(py: Python, old_: Option<Value>, v: Value): Option<Value> {
    var new_ := Incoming(py, v);
    if new_.None? then old_
    else if old_.None? || !old_.value.List? then new_
    else
      var added := if new_.value.List? then new_.value.items else [new_.value];
      Some(List(FirstOccurrences(py, old_.value.items + added)))
  }

  /** A Python dictionary in iteration order: each key once. */
  datatype Entry = Entry(key: string, value: Value)

  predicate Dictionary(entries: seq<Entry>) {
    forall i, j :: 0 <= i < j < |entries| ==> entries[i].key != entries[j].key
  }

  function Lookup(m: map<string, Value>, k: string): Option<Value> {
    if k in m then Some(m[k]) else None
  }

  /** The value `entries` gives a key, if any. */
  function Find(entries: seq<Entry>, k: string): Option<Value> {
    if entries == [] then None
    else if entries[|entries| - 1].key == k then Some(entries[|entries| - 1].value)
    else Find(entries[..|entries| - 1], k)
  }

  function MergedAt(py: Python, m: map<string, Value>, entries: seq<Entry>, k: string): Option<Value> {
    var v := Find(entries, k);
    if v.None? then Lookup(m, k) else Combine(py, Lookup(m, k), v.value)
  }

  /** The merged metadata. */
  function Merge(py: Python, m: map<string, Value>, entries: seq<Entry>): map<string, Value> {
    map k | k in m.Keys + EntryKeys(entries) && MergedAt(py, m, entries, k).Some? :: MergedAt(py, m, entries, k).value
  }

  function EntryKeys(entries: seq<Entry>): set<string> {
    set e | e in entries :: e.key
  }

  lemma MergeLookup(py: Python, m: map<string, Value>, entries: seq<Entry>, k: string)
    ensures Lookup(Merge(py, m, entries), k) == MergedAt(py, m, entries, k)
  {
    FindIsFound(entries, k);
  }

  lemma MergeUnique(py: Python, m: map<string, Value>, entries: seq<Entry>, r: map<string, Value>)
    requires forall k :: Lookup(r, k) == MergedAt(py, m, entries, k)
    ensures r == Merge(py, m, entries)
  {
    var merged := Merge(py, m, entries);
    forall k: string
      ensures Lookup(r, k) == Lookup(merged, k)
    {
      MergeLookup(py, m, entries, k);
    }
    assert forall k :: k in r ==> Lookup(merged, k) == Some(r[k]);
    assert forall k :: k in merged ==> Lookup(r, k) == Some(merged[k]);
  }

  /** The `meta` argument and what `json_repair.loads` may return. */
  datatype Argument = Nothing | Text(s: string) | Entries(entries: seq<Entry>) | Object(tag: string)

  function Repaired(loads: string -> Option<Argument>, meta: Argument): seq<Entry> {
    match meta
    case Entries(es) => es
    case Text(s) =>
      if s == "" || loads(s).None? then []
      else (match loads(s).value case Entries(es) => es case _ => [])
    case _ => []
  }

  /** What is merged: the entries of a dictionary, given as such or as a text that `json_repair` reads as one. */
  lemma RepairedIff(loads: string -> Option<Argument>, meta: Argument, e: Entry)
    ensures e in Repaired(loads, meta) <==>
            exists es :: e in es && (meta == Entries(es)
                                     || (meta.Text? && meta.s != [] && loads(meta.s) == Some(Entries(es))))
  {
    if meta.Entries? && e in meta.entries {
      assert meta == Entries(meta.entries);
    }
    if meta.Text? && meta.s != "" && loads(meta.s).Some? && loads(meta.s).value.Entries? {
      assert loads(meta.s) == Some(Entries(loads(meta.s).value.entries));
    }
  }

  class Metadata {
    var fields: map<string, Value>

    constructor (fields: map<string, Value>)
      ensures this.fields == fields
    {
      this.fields := fields;
    }

    /** One turn of the loop over `meta.items()`. */
    method Put(py: Python, k: string, incoming: Value)
      modifies this
      ensures Lookup(fields, k) == Combine(py, old(Lookup(fields, k)), incoming)
      ensures forall o :: o != k ==> Lookup(fields, o) == old(Lookup(fields, o))
    {
      var v := incoming;
      if v.List? {
        var texts := Strings(v.items);
        if texts == [] {
          return;
        }
        var distinct := DedupeList(py, texts);
        v := List(distinct);
      }
      if !v.List? && !v.Str? {
        return;
      }
      if k !in fields {
        fields := fields[k := v];
        return;
      }
      if fields[k].List? {
        if v.List? {
          fields := fields[k := List(fields[k].items + v.items)];
        } else {
          fields := fields[k := List(fields[k].items + [v])];
        }
        var merged := DedupeList(py, fields[k].items);
        fields := fields[k := List(merged)];
      } else {
        fields := fields[k := v];
      }
    }

    method Update(py: Python, loads: string -> Option<Argument>, meta: Argument)
      requires Dictionary(Repaired(loads, meta))
      modifies this
      ensures fields == Merge(py, old(fields), Repaired(loads, meta))
    {
      MergeUnique(py, fields, [], fields);
      if meta.Nothing? {
        return;
      }
      var m := meta;
      if m.Text? {
        if m.s == "" || loads(m.s).None? {
          return;
        }
        m := loads(m.s).value;
      }
      if !m.Entries? {
        return;
      }
      var entries := m.entries;
      for i := 0 to |entries|
        invariant forall k :: Lookup(fields, k) == MergedAt(py, old(fields), entries[..i], k)
      {
        assert entries[..i + 1][..i] == entries[..i];
        NotFound(entries, i);
        Put(py, entries[i].key, entries[i].value);
      }
      assert entries[..|entries|] == entries;
      MergeUnique(py, old(fields), entries, fields);
    }
  }

  lemma NotFound(entries: seq<Entry>, n: nat)
    requires Dictionary(entries) && n < |entries|
    ensures Find(entries[..n], entries[n].key).None?
  {
    FindIsFound(entries[..n], entries[n].key);
  }

  lemma {:induction false} FindIsFound(entries: seq<Entry>, k: string)
    ensures Find(entries, k).Some? ==> Entry(k, Find(entries, k).value) in entries
  {
    if entries != [] && entries[|entries| - 1].key != k {
      FindIsFound(entries[..|entries| - 1], k);
    }
  }

  /** Combining with the same value again changes nothing. */
  lemma CombineTwice(py: Python, o: Option<Value>, v: Value)
    ensures Combine(py, Combine(py, o, v), v) == Combine(py, o, v)
  {
    var incoming := Incoming(py, v);
    if incoming.Some? {
      var added := if incoming.value.List? then incoming.value.items else [incoming.value];
      if o.Some? && o.value.List? {
        var all := o.value.items + added;
        DedupeAbsorbs(py, all, added);
        KeysConcat(py, o.value.items, added);
        KnownItemsAddNothing(py, all, added);
      } else if incoming.value.List? {
        DedupeKeepsKeys(py, Strings(v.items));
        KnownItemsAddNothing(py, added, added);
        DuplicateFreeIsKept(py, added);
      }
    }
  }

  /** Merging the same dictionary twice is merging it once. */
  lemma MergeIsIdempotent(py: Python, m: map<string, Value>, entries: seq<Entry>)
    ensures Merge(py, Merge(py, m, entries), entries) == Merge(py, m, entries)
  {
    var once := Merge(py, m, entries);
    forall k: string
      ensures Lookup(once, k) == MergedAt(py, once, entries, k)
    {
      MergeLookup(py, m, entries, k);
      var v := Find(entries, k);
      if v.Some? {
        CombineTwice(py, Lookup(m, k), v.value);
      }
    }
    MergeUnique(py, once, entries, once);
  }

  /** Keys the dictionary does not mention keep their value, and no key disappears. */
  lemma MergeFrame(py: Python, m: map<string, Value>, entries: seq<Entry>)
    ensures m.Keys <= Merge(py, m, entries).Keys <= m.Keys + EntryKeys(entries)
    ensures forall k :: k !in EntryKeys(entries) ==> Lookup(Merge(py, m, entries), k) == Lookup(m, k)
  {
    forall k: string
      ensures k in m ==> k in Merge(py, m, entries)
      ensures k !in EntryKeys(entries) ==> Lookup(Merge(py, m, entries), k) == Lookup(m, k)
    {
      MergeLookup(py, m, entries, k);
      FindIsFound(entries, k);
    }
  }

  /** A list that something was merged into has no duplicates, keeps its items in front, and gained all the new ones. */
  lemma MergedList(py: Python, m: map<string, Value>, entries: seq<Entry>, e: Entry)
    requires Dictionary(entries) && e in entries && Incoming(py, e.value).Some?
    ensures e.key in Merge(py, m, entries)
    ensures var r := Merge(py, m, entries)[e.key];
            r.List? ==>
              && DuplicateFree(py, r.items)
              && (e.value.List? ==> Keys(py, Strings(e.value.items)) <= Keys(py, r.items))
              && (e.value.Str? ==> e.value.s in Keys(py, r.items))
    ensures e.key in m && m[e.key].List? ==>
              && Merge(py, m, entries)[e.key].List?
              && FirstOccurrences(py, m[e.key].items) <= Merge(py, m, entries)[e.key].items
  {
    MergeLookup(py, m, entries, e.key);
    FindOfDictionary(entries, e);
    var v := Incoming(py, e.value).value;
    var added := if v.List? then v.items else [v];
    if e.value.List? {
      DedupeKeepsKeys(py, Strings(e.value.items));
    } else {
      assert StrOf(py, added[0]) in Keys(py, added);
    }
    if e.key in m && m[e.key].List? {
      DedupeKeepsPrefix(py, m[e.key].items, added);
      DedupeKeepsKeys(py, m[e.key].items + added);
      KeysConcat(py, m[e.key].items, added);
    }
  }

  /** The value of a key before and after `v` was merged into it. A text is written over anything but a list, and
      appended to a list; of a list the texts are taken, without repetitions, and a list without texts is worth
      nothing, like every other value. */
  ghost predicate Merged(py: Python, old_: Option<Value>, v: Value, new_: Option<Value>) {
    if v.Str? then
      if old_.Some? && old_.value.List? then
        new_.Some? && new_.value.List? && DistinctOf(py, old_.value.items + [v], new_.value.items)
      else new_ == Some(v)
    else if v.List? && exists i :: 0 <= i < |v.items| && v.items[i].Str? then
      && new_.Some? && new_.value.List?
      && exists texts :: TextsOf(v.items, texts)
           && DistinctOf(py, (if old_.Some? && old_.value.List? then old_.value.items else []) + texts,
                         new_.value.items)
    else new_ == old_
  }

  lemma {:induction false} SomeText(items: seq<Value>)
    ensures Strings(items) != [] <==> exists i :: 0 <= i < |items| && items[i].Str?
  {
    if items != [] {
      SomeText(items[1..]);
      if i :| 0 <= i < |items[1..]| && items[1..][i].Str? {
        assert items[i + 1].Str?;
      }
      if Strings(items) != [] && !items[0].Str? {
        var i :| 0 <= i < |items[1..]| && items[1..][i].Str?;
        assert items[i + 1].Str?;
      }
      if i :| 0 <= i < |items| && items[i].Str? && !items[0].Str? {
        assert items[1..][i - 1].Str?;
      }
    }
  }

  lemma TextsMerged(py: Python, old_: Option<Value>, v: Value)
    requires v.List? && Strings(v.items) != []
    ensures var items := if old_.Some? && old_.value.List? then old_.value.items else [];
            Combine(py, old_, v) == Some(List(FirstOccurrences(py, items + Strings(v.items))))
  {
    if old_.Some? && old_.value.List? {
      DedupeAppended(py, old_.value.items, Strings(v.items));
    } else {
      assert [] + Strings(v.items) == Strings(v.items);
    }
  }

  lemma CombineIsExact(py: Python, old_: Option<Value>, v: Value)
    ensures Merged(py, old_, v, Combine(py, old_, v))
  {
    if v.Str? {
      if old_.Some? && old_.value.List? {
        DedupeIsExact(py, old_.value.items + [v]);
      }
    } else if v.List? {
      SomeText(v.items);
      if Strings(v.items) != [] {
        TextsMerged(py, old_, v);
        StringsAreTexts(v.items);
        DedupeIsExact(py, (if old_.Some? && old_.value.List? then old_.value.items else []) + Strings(v.items));
      }
    }
  }

  /** Merging, exactly, for every key of the dictionary. */
  lemma MergedValue(py: Python, m: map<string, Value>, entries: seq<Entry>, e: Entry)
    requires Dictionary(entries) && e in entries
    ensures Merged(py, Lookup(m, e.key), e.value, Lookup(Merge(py, m, entries), e.key))
  {
    MergeLookup(py, m, entries, e.key);
    FindOfDictionary(entries, e);
    CombineIsExact(py, Lookup(m, e.key), e.value);
  }

  lemma {:induction false} FindOfDictionary(entries: seq<Entry>, e: Entry)
    requires Dictionary(entries) && e in entries
    ensures Find(entries, e.key) == Some(e.value)
  {
    var before, last := entries[..|entries| - 1], entries[|entries| - 1];
    if e != last {
      assert entries == before + [last];
      FindOfDictionary(before, e);
    }
  }

  /** The iteration order of the dictionary does not matter. */
  lemma EntryOrderIsIrrelevant(py: Python, m: map<string, Value>, a: seq<Entry>, b: seq<Entry>)
    requires Dictionary(a) && Dictionary(b) && (forall e :: e in a <==> e in b)
    ensures Merge(py, m, a) == Merge(py, m, b)
  {
    forall k: string
      ensures Find(a, k) == Find(b, k)
    {
      FindIsFound(a, k);
      FindIsFound(b, k);
      if Find(a, k).Some? {
        FindOfDictionary(b, Entry(k, Find(a, k).value));
      }
      if Find(b, k).Some? {
        FindOfDictionary(a, Entry(k, Find(b, k).value));
      }
    }
    var merged := Merge(py, m, a);
    forall k: string
      ensures Lookup(merged, k) == MergedAt(py, m, b, k)
    {
      MergeLookup(py, m, a, k);
    }
    MergeUnique(py, m, b, merged);
  }
}
