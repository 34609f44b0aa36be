/** Nested dictionaries as objects: `set_variable_param_value` of agent/canvas.py updates them in place. */
module VariableTree {
  import opened Variables

  /** What a dictionary holds under a key: another dictionary object, or a value that is none. */
  datatype Slot = Sub(node: Node) | Plain(v: Val)

  class Node {
    var slots: map<string, Slot>
    ghost var Repr: set<object>

    ghost predicate Valid()
      reads this, Repr
      ensures Valid() ==> this in Repr
      decreases Repr
    {
      && this in Repr
      && (forall k :: k in slots && slots[k].Sub? ==>
            && slots[k].node in Repr && slots[k].node.Repr <= Repr && this !in slots[k].node.Repr
            && slots[k].node.Valid())
      && (forall j, k :: j in slots && k in slots && j != k && slots[j].Sub? && slots[k].Sub? ==>
            slots[j].node.Repr !! slots[k].node.Repr)
      && (forall k :: k in slots && slots[k].Plain? ==> !slots[k].v.Dict?)
    }

    /** The dictionary as a value. */
    ghost function Contents(): map<string, Val>
      requires Valid()
      reads this, Repr
      decreases Repr, 1
    {
      map k | k in slots :: ValueAt(k)
    }

    ghost function ValueAt(k: string): Val
      requires Valid() && k in slots
      reads this, Repr
      decreases Repr, 0
    {
      if slots[k].Plain? then slots[k].v else Dict(slots[k].node.Contents())
    }

    constructor ()
      ensures Valid() && fresh(Repr) && Contents() == map[]
    {
      slots := map[];
      Repr := {this};
    }

    method SetPlain(key: string, value: Val)
      requires Valid() && !value.Dict?
      modifies this
      ensures Valid() && Repr == old(Repr)
      ensures Contents() == old(Contents())[key := value]
    {
      slots := slots[key := Plain(value)];
      assert forall k :: k in slots && slots[k].Sub? ==> slots[k].node.Contents() == old(slots[k].node.Contents());
    }

    method SetNode(key: string, child: Node)
      requires Valid() && child.Valid() && child.Repr !! Repr
      modifies this
      ensures Valid() && Repr == old(Repr) + child.Repr
      ensures slots == old(slots)[key := Sub(child)] && child.Contents() == old(child.Contents())
      ensures Contents() == old(Contents())[key := Dict(child.Contents())]
    {
      slots := slots[key := Sub(child)];
      Repr := Repr + child.Repr;
      forall k | k in slots && k != key && slots[k].Sub?
        ensures slots[k].node.Repr == old(slots[k].node.Repr) && slots[k].node.Valid()
        ensures slots[k].node.Contents() == old(slots[k].node.Contents())
      {
        assert this !in old(slots[k].node.Repr);
      }
    }

    method Create(key: string) returns (child: Node)
      requires Valid()
      modifies this
      ensures Valid() && fresh(Repr - old(Repr))
      ensures key in slots && slots[key] == Sub(child) && child.Contents() == map[]
      ensures Contents() == old(Contents())[key := Dict(map[])]
    {
      child := new Node();
      SetNode(key, child);
      assert Contents()[key] == ValueAt(key);
    }

    /** The dictionary under a key; what is missing or no dictionary becomes an empty one. */
    method Descend(key: string) returns (child: Node)
      requires Valid()
      modifies this
      ensures Valid() && fresh(Repr - old(Repr))
      ensures key in slots && slots[key] == Sub(child)
      ensures child.Contents() == SubDictionary(old(Contents()), key)
      ensures Contents() == old(Contents())[key := Dict(child.Contents())]
    {
      if key !in slots || !slots[key].Sub? {
        child := Create(key);
      } else {
        child := slots[key].node;
        assert Contents()[key] == Dict(child.Contents());
      }
    }

    /** `set_variable_param_value` from this dictionary on; the written value is a plain one or a dictionary object,
        made of `parts`, that shares nothing with this one. */
    method Put(keys: seq<string>, value: Slot, ghost parts: set<object>, ghost v: Val)
      requires Valid() && keys != [] && Denotes(value, parts, v) && parts !! Repr
      modifies Repr
      ensures Valid() && fresh(Repr - old(Repr) - parts)
      ensures Contents() == PutPath(old(Contents()), keys, v)
      decreases |keys|, 2
    {
      if |keys| == 1 {
        SetLast(keys[0], value, parts, v);
      } else {
        PutDeep(keys, value, parts, v);
      }
    }

    method SetLast(key: string, value: Slot, ghost parts: set<object>, ghost v: Val)
      requires Valid() && Denotes(value, parts, v) && parts !! Repr
      modifies this
      ensures Valid() && Repr <= old(Repr) + parts
      ensures Contents() == old(Contents())[key := v]
    {
      match value {
        case Plain(x) => SetPlain(key, x);
        case Sub(node) => SetNode(key, node);
      }
    }

    method PutDeep(keys: seq<string>, value: Slot, ghost parts: set<object>, ghost v: Val)
      requires Valid() && |keys| > 1 && Denotes(value, parts, v) && parts !! Repr
      modifies Repr
      ensures Valid() && fresh(Repr - old(Repr) - parts)
      ensures Contents() == PutPath(old(Contents()), keys, v)
      decreases |keys|, 1
    {
      ghost var before := Contents();
      var child := Descend(keys[0]);
      PutDeepStep(before, keys, v, Contents());
      PutBelow(keys[0], keys[1..], value, parts, v);
    }

    method PutBelow(key: string, keys: seq<string>, value: Slot, ghost parts: set<object>, ghost v: Val)
      requires Valid() && key in slots && slots[key].Sub? && keys != []
      requires Denotes(value, parts, v) && parts !! Repr
      modifies Repr
      ensures Valid() && fresh(Repr - old(Repr) - parts)
      ensures Contents() == old(Contents())[key := Dict(PutPath(old(slots[key].node.Contents()), keys, v))]
      decreases |keys|, 3
    {
      var child := slots[key].node;
      child.Put(keys, value, parts, v);
      Repr := Repr + child.Repr;
      forall k | k in slots && k != key && slots[k].Sub?
        ensures slots[k].node.Repr == old(slots[k].node.Repr) && slots[k].node.Valid()
        ensures slots[k].node.Contents() == old(slots[k].node.Contents())
      {
        assert old(slots[k].node.Repr !! child.Repr);
      }
    }
  }

  lemma PutDeepStep(m: map<string, Val>, keys: seq<string>, v: Val, descended: map<string, Val>)
    requires |keys| > 1 && descended == m[keys[0] := Dict(SubDictionary(m, keys[0]))]
    ensures descended[keys[0] := Dict(PutPath(SubDictionary(m, keys[0]), keys[1..], v))] == PutPath(m, keys, v)
  {
  }

  /** The slot stands for `v`, and is made of exactly `parts`. */
  ghost predicate Denotes(value: Slot, parts: set<object>, v: Val)
    reads parts, if value.Sub? then {value.node} else {}
  {
    match value
    case Plain(x) => x == v && !x.Dict? && parts == {}
    case Sub(node) => node.Repr == parts && node.Valid() && v == Dict(node.Contents())
  }

  /** The dictionary a value holds under a key, empty if there is none. */
  function SubDictionary(m: map<string, Val>, key: string): map<string, Val> {
    if key in m && m[key].Dict? then m[key].m else map[]
  }
}
