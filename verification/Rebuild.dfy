/** Rebuilding a configuration tree from split keys: the three mutually recursive insertions of `key_value_to_json.rs`. */
module Rebuild {
  import opened Values
  import opened Decimal
  import opened Keys

  type Object = map<string, Value>

  /** `Vec::resize(len, filler)` when it only grows. */
  function Grown(elems: seq<Value>, len: nat, filler: Value): (r: seq<Value>)
    ensures |r| == if len <= |elems| then |elems| else len
    ensures forall i :: 0 <= i < |r| ==> r[i] == if i < |elems| then elems[i] else filler
  {
    if len <= |elems| then elems else elems + seq(len - |elems|, _ => filler)
  }

  function Insert(m: Object, parent: Option<string>, parts: Path, value: string): Outcome<Object>
    requires parts != []
    decreases |parts|, 1
  {
    match ParseUsize(parts[0])
    case None => InsertString(m, parts, value)
    case Some(index) =>
      if parent.None? then Panic
      else
        var entry := if parent.value in m then m[parent.value] else Arr([]);
        if !entry.Arr? then Panic
        else
          var elems :- InsertNumeric(entry.elems, parts, value, index);
          Done(m[parent.value := Arr(elems)])
  }

  function InsertString(m: Object, parts: Path, value: string): Outcome<Object>
    requires parts != []
    decreases |parts|, 0
  {
    var part := parts[0];
    var entry := if part in m then m[part] else Obj(map[]);
    if |parts| == 1 then Done(m[part := Str(value)])
    else if !entry.Obj? then Done(m)
    else
      var members :- Insert(entry.members, Some(part), parts[1..], value);
      Done(m[part := Obj(members)])
  }

  function InsertNumeric(elems: seq<Value>, parts: Path, value: string, index: nat): Outcome<seq<Value>>
    requires parts != []
    decreases |parts|, 0
  {
    if |parts| == 1 then
      Done(Grown(elems, index + 1, Null)[index := Str(value)])
    else
      var grown := Grown(elems, index + 1, Obj(map[]));
      if !grown[index].Obj? then Panic
      else
        var members :- Insert(grown[index].members, Some(parts[0]), parts[1..], value);
        Done(grown[index := Obj(members)])
  }

  /** The tree built by inserting the entries in the given order. */
  function RebuildInOrder(parser: Parser, order: seq<string>, properties: map<string, string>): Outcome<Object>
    requires forall i :: 0 <= i < |order| ==> order[i] in properties
  {
    if order == [] then Done(map[])
    else
      var last := order[|order| - 1];
      var m :- RebuildInOrder(parser, order[..|order| - 1], properties);
      Insert(m, None, Parts(parser, last), properties[last])
  }

  lemma {:induction false} PanicStays(parser: Parser, order: seq<string>, more: seq<string>, properties: map<string, string>)
    requires forall i :: 0 <= i < |order + more| ==> (order + more)[i] in properties
    requires forall i :: 0 <= i < |order| ==> order[i] in properties
    requires RebuildInOrder(parser, order, properties).Panic?
    ensures RebuildInOrder(parser, order + more, properties).Panic?
    decreases |more|
  {
    if more == [] {
      assert order + more == order;
    } else {
      var fewer := more[..|more| - 1];
      assert (order + more)[..|order + more| - 1] == order + fewer;
      assert forall i :: 0 <= i < |order + fewer| ==> (order + fewer)[i] == (order + more)[i];
      PanicStays(parser, order, fewer, properties);
    }
  }

  /** Some enumeration of a set of keys. */
  ghost function SomeOrder(keys: set<string>): (order: seq<string>)
    ensures Enumerates(order, keys)
  {
    if keys == {} then []
    else
      var k :| k in keys;
      [k] + SomeOrder(keys - {k})
  }

  lemma EnumeratesAppend(a: seq<string>, s: set<string>, b: seq<string>, t: set<string>)
    requires Enumerates(a, s) && Enumerates(b, t) && s !! t
    ensures Enumerates(a + b, s + t)
  {
    forall i, j | 0 <= i < j < |a + b| ensures (a + b)[i] != (a + b)[j] {
      if i < |a| <= j {
        assert a[i] in s && b[j - |a|] in t;
      }
    }
  }

  /** After a panic, the keys that were not reached can be put in any order. */
  lemma CompletePanic(parser: Parser, order: seq<string>, todo: set<string>, properties: map<string, string>)
    returns (whole: seq<string>)
    requires todo <= properties.Keys && Enumerates(order, properties.Keys - todo)
    requires forall i :: 0 <= i < |order| ==> order[i] in properties
    requires RebuildInOrder(parser, order, properties).Panic?
    ensures Enumerates(whole, properties.Keys)
    ensures forall i :: 0 <= i < |whole| ==> whole[i] in properties
    ensures RebuildInOrder(parser, whole, properties).Panic?
  {
    hide RebuildInOrder;
    var rest := SomeOrder(todo);
    EnumeratesAppend(order, properties.Keys - todo, rest, todo);
    assert properties.Keys - todo + todo == properties.Keys;
    PanicStays(parser, order, rest, properties);
    whole := order + rest;
  }

  /** A mutable JSON array. */
  class ArrayRef {
    var elems: seq<Value>

    constructor (elems: seq<Value>)
      ensures this.elems == elems
    {
      this.elems := elems;
    }

    /** Grows the array up to `index` and binds that element, or goes deeper into the object stored there. */
    method HandleNumericPart(parts: Path, value: string, index: nat) returns (outcome: Outcome<()>)
      requires parts != []
      modifies this
      ensures outcome.Panic? <==> InsertNumeric(old(elems), parts, value, index).Panic?
      ensures outcome.Done? ==> Done(elems) == InsertNumeric(old(elems), parts, value, index)
      decreases |parts|, 0
    {
      if |parts| == 1 {
        if index >= |elems| {
          elems := Grown(elems, index + 1, Null);
        }
        elems := elems[index := Str(value)];
        return Done(());
      }
      if index >= |elems| {
        elems := Grown(elems, index + 1, Obj(map[]));
      }
      if !elems[index].Obj? {
        return Panic;
      }
      var obj := new MapRef(elems[index].members);
      outcome := obj.InsertIntoMap(Some(parts[0]), parts[1..], value);
      elems := elems[index := Obj(obj.entries)];
    }
  }

  /** A mutable JSON object: the map that the insertions update in place. */
  class MapRef {
    var entries: Object

    constructor (entries: Object)
      ensures this.entries == entries
    {
      this.entries := entries;
    }

    method InsertIntoMap(parent: Option<string>, parts: Path, value: string) returns (outcome: Outcome<()>)
      requires parts != []
      modifies this
      ensures outcome.Panic? <==> Insert(old(entries), parent, parts, value).Panic?
      ensures outcome.Done? ==> Done(entries) == Insert(old(entries), parent, parts, value)
      decreases |parts|, 2
    {
      var part := parts[0];
      var index := ParseUsize(part);
      if index.Some? {
        if parent.None? {
          return Panic;
        }
        if parent.value !in entries {
          entries := entries[parent.value := Arr([])];
        }
        if !entries[parent.value].Arr? {
          return Panic;
        }
        var slot := new ArrayRef(entries[parent.value].elems);
        outcome := slot.HandleNumericPart(parts, value, index.value);
        entries := entries[parent.value := Arr(slot.elems)];
        assert entries == old(entries)[parent.value := Arr(slot.elems)];
      } else {
        outcome := HandleStringPart(parts, value, part);
      }
    }

    /** Binds the last part to the value, or goes deeper into an object; below a plain value nothing happens. */
    method HandleStringPart(parts: Path, value: string, part: string) returns (outcome: Outcome<()>)
      requires parts != [] && part == parts[0]
      modifies this
      ensures outcome.Panic? <==> InsertString(old(entries), parts, value).Panic?
      ensures outcome.Done? ==> Done(entries) == InsertString(old(entries), parts, value)
      decreases |parts|, 1
    {
      if part !in entries {
        entries := entries[part := Obj(map[])];
      }
      if |parts| == 1 {
        entries := entries[part := Str(value)];
        assert entries == old(entries)[part := Str(value)];
        return Done(());
      }
      if entries[part].Obj? {
        var obj := new MapRef(entries[part].members);
        outcome := obj.InsertIntoMap(Some(part), parts[1..], value);
        entries := entries[part := Obj(obj.entries)];
        assert entries == old(entries)[part := Obj(obj.entries)];
      } else {
        return Done(());
      }
    }
  }

  /** The whole rebuild. A hash map yields its keys in an order of its own choosing. */
  method KeyValuePairsToJson(parser: Parser, properties: map<string, string>) returns (result: Outcome<Object>)
    ensures exists order :: Enumerates(order, properties.Keys) && result == RebuildInOrder(parser, order, properties)
  {
    hide Insert, Parts;
    var root := new MapRef(map[]);
    var todo := properties.Keys;
    ghost var order := [];
    while todo != {}
      invariant todo <= properties.Keys
      invariant Enumerates(order, properties.Keys - todo)
      invariant forall i :: 0 <= i < |order| ==> order[i] in properties
      invariant RebuildInOrder(parser, order, properties) == Done(root.entries)
    {
      var key :| key in todo;
      var outcome := root.InsertIntoMap(None, Parts(parser, key), properties[key]);
      EnumeratesAppend(order, properties.Keys - todo, [key], {key});
      assert (order + [key])[..|order|] == order;
      order := order + [key];
      assert properties.Keys - todo + {key} == properties.Keys - (todo - {key});
      todo := todo - {key};
      if outcome.Panic? {
        order := CompletePanic(parser, order, todo, properties);
        return Panic;
      }
    }
    assert properties.Keys - todo == properties.Keys;
    result := Done(root.entries);
  }
}
