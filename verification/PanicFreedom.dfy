/** Which key-value maps make the rebuild panic in some order of their keys. */
module PanicFreedom {
  import opened Values
  import opened Decimal
  import opened Keys
  import opened Rebuild

  /** One entry as an object on its way sees it: the part before, the parts that are left, and the text. */
  datatype Item = Item(parent: Option<string>, path: Path, text: string)

  function Rest(e: Item): Item
    requires |e.path| > 1
  {
    Item(Some(e.path[0]), e.path[1..], e.text)
  }

  predicate Named(e: Item, k: string) {
    e.path != [] && e.path[0] == k && !IsIndex(k)
  }

  /** `e` goes to an element of the array under `k`. */
  predicate Indexed(e: Item, k: string) {
    e.path != [] && e.parent == Some(k) && IsIndex(e.path[0])
  }

  function Position(e: Item): nat
    requires e.path != [] && IsIndex(e.path[0])
  {
    ParseUsize(e.path[0]).value
  }

  /** What pads an array on the way of an entry: null before a last part, and otherwise empty objects. */
  function Filler(e: Item): Value {
    if |e.path| == 1 then Null else Obj(map[])
  }

  ghost function Below(items: set<Item>, k: string): set<Item> {
    set e | e in items && Named(e, k) && |e.path| > 1 :: Rest(e)
  }

  ghost function BelowElement(items: set<Item>, k: string, i: nat): set<Item> {
    set e | e in items && Indexed(e, k) && Position(e) == i && |e.path| > 1 :: Rest(e)
  }

  /** Inserted into nothing one after the other, `f` panics after `e`. */
  predicate Clashes(e: Item, f: Item)
    requires e.path != [] && f.path != []
    decreases |e.path|
  {
    if !IsIndex(f.path[0]) then
      e.path[0] == f.path[0] && |e.path| > 1 && |f.path| > 1 && Clashes(Rest(e), Rest(f))
    else if !IsIndex(e.path[0]) then
      f.parent == Some(e.path[0])
    else
      && e.parent == f.parent && |f.path| > 1
      && if |e.path| == 1 then Position(f) <= Position(e)
         else Position(e) == Position(f) && Clashes(Rest(e), Rest(f))
  }

  predicate Placed(e: Item) {
    e.path != [] && (IsIndex(e.path[0]) ==> e.parent.Some?)
  }

  /** No entry starts with an index where there is no name before it, and no two entries clash. */
  ghost predicate Tidy(items: set<Item>) {
    && (forall e :: e in items ==> Placed(e))
    && (forall e, f :: e in items && f in items ==> !Clashes(e, f))
  }

  lemma TidyBelow(items: set<Item>, k: string)
    requires Tidy(items)
    ensures Tidy(Below(items, k))
  {
    hide IsIndex;
    forall e, f | e in Below(items, k) && f in Below(items, k) ensures !Clashes(e, f) {
      var e' :| e' in items && Named(e', k) && |e'.path| > 1 && Rest(e') == e;
      var f' :| f' in items && Named(f', k) && |f'.path| > 1 && Rest(f') == f;
      assert !Clashes(e', f');
    }
  }

  lemma TidyBelowElement(items: set<Item>, k: string, i: nat)
    requires Tidy(items)
    ensures Tidy(BelowElement(items, k, i))
  {
    hide ParseUsize;
    forall e, f | e in BelowElement(items, k, i) && f in BelowElement(items, k, i) ensures !Clashes(e, f) {
      var e' :| e' in items && Indexed(e', k) && Position(e') == i && |e'.path| > 1 && Rest(e') == e;
      var f' :| f' in items && Indexed(f', k) && Position(f') == i && |f'.path| > 1 && Rest(f') == f;
      assert !Clashes(e', f');
    }
  }

  // Whatever is in the tree is there because of some entry

  ghost predicate HasName(items: set<Item>, k: string, deep: bool) {
    exists e :: e in items && Named(e, k) && (deep <==> |e.path| > 1)
  }

  ghost predicate HasElement(items: set<Item>, k: string, i: nat, deep: bool) {
    exists e :: e in items && Indexed(e, k) && Position(e) == i && (deep <==> |e.path| > 1)
  }

  /** Some entry goes to position `i` of the array under `k` or beyond it. */
  ghost predicate Reaches(items: set<Item>, k: string, i: nat, deep: bool) {
    exists e :: e in items && Indexed(e, k) && Position(e) >= i && (deep <==> |e.path| > 1)
  }

  ghost predicate Justified(v: Value, items: set<Item>)
    requires v.Obj?
    decreases v, 0
  {
    forall k :: k in v.members ==> MemberJustified(v.members[k], k, items)
  }

  ghost predicate MemberJustified(v: Value, k: string, items: set<Item>)
    decreases v, 1
  {
    match v
    case Str(_) => HasName(items, k, false)
    case Obj(_) => HasName(items, k, true) && Justified(v, Below(items, k))
    case Arr(elems) =>
      && elems != []
      && (HasElement(items, k, |elems| - 1, false) || HasElement(items, k, |elems| - 1, true))
      && (forall i :: 0 <= i < |elems| ==> ElementJustified(elems[i], k, i, items))
    case _ => false
  }

  ghost predicate ElementJustified(v: Value, k: string, i: nat, items: set<Item>)
    decreases v, 1
  {
    match v
    case Str(_) => HasElement(items, k, i, false)
    case Null => Reaches(items, k, i, false)
    case Obj(_) => Reaches(items, k, i, true) && Justified(v, BelowElement(items, k, i))
    case _ => false
  }

  /** No entry of a tidy set panics on a justified map, and the map stays justified. */
  lemma {:induction false} InsertJustified(v: Value, e: Item, items: set<Item>)
    requires Tidy(items) && e in items
    requires v.Obj? && Justified(v, items)
    ensures Insert(v.members, e.parent, e.path, e.text).Done?
    ensures Justified(Obj(Insert(v.members, e.parent, e.path, e.text).value), items)
    decreases |e.path|, 2
  {
    hide InsertString, InsertNumeric, MemberJustified, ParseUsize, Clashes;
    if IsIndex(e.path[0]) {
      var k := e.parent.value;
      var slot := if k in v.members then v.members[k] else Arr([]);
      assert slot.Arr? && (slot.elems != [] ==> MemberJustified(slot, k, items)) by {
        if k in v.members {
          SlotIsArray(v.members[k], e, items);
        }
      }
      ElementsJustified(slot, e, items);
    } else {
      NameJustified(v, e, items);
    }
  }

  lemma SlotIsArray(v: Value, e: Item, items: set<Item>)
    requires Tidy(items) && e in items && IsIndex(e.path[0])
    requires e.parent.Some? && MemberJustified(v, e.parent.value, items)
    ensures v.Arr?
  {
    hide ParseUsize, Justified, ElementJustified;
    NamesClash(e, items);
  }

  lemma NamesClash(e: Item, items: set<Item>)
    requires e.path != [] && IsIndex(e.path[0]) && e.parent.Some?
    ensures forall f :: f in items && Named(f, e.parent.value) ==> Clashes(f, e)
  {
  }

  lemma PlainElementsClash(e: Item, items: set<Item>)
    requires |e.path| > 1 && IsIndex(e.path[0]) && e.parent.Some?
    ensures forall f :: f in items && Indexed(f, e.parent.value) && Position(f) >= Position(e) && |f.path| == 1 ==> Clashes(f, e)
  {
  }

  lemma {:induction false} NameJustified(v: Value, e: Item, items: set<Item>)
    requires Tidy(items) && e in items && e.path != [] && !IsIndex(e.path[0])
    requires v.Obj? && Justified(v, items)
    ensures InsertString(v.members, e.path, e.text).Done?
    ensures Justified(Obj(InsertString(v.members, e.path, e.text).value), items)
    decreases |e.path|, 0
  {
    hide Insert, Tidy, ParseUsize, ElementJustified;
    var k := e.path[0];
    assert Named(e, k);
    if |e.path| > 1 {
      var entry := if k in v.members then v.members[k] else Obj(map[]);
      if entry.Obj? {
        assert Rest(e) in Below(items, k);
        TidyBelow(items, k);
        assert k in v.members ==> MemberJustified(entry, k, items);
        InsertJustified(entry, Rest(e), Below(items, k));
      }
    }
  }

  lemma {:induction false} ElementsJustified(slot: Value, e: Item, items: set<Item>)
    requires Tidy(items) && e in items && e.path != [] && IsIndex(e.path[0]) && e.parent.Some?
    requires slot.Arr? && (slot.elems != [] ==> MemberJustified(slot, e.parent.value, items))
    ensures InsertNumeric(slot.elems, e.path, e.text, Position(e)).Done?
    ensures MemberJustified(Arr(InsertNumeric(slot.elems, e.path, e.text, Position(e)).value), e.parent.value, items)
    decreases |e.path|, 0
  {
    hide Insert, Tidy, ParseUsize, Justified, BelowElement;
    var k, i := e.parent.value, Position(e);
    assert Indexed(e, k);
    if |e.path| > 1 {
      var grown := Grown(slot.elems, i + 1, Obj(map[]));
      forall j | |slot.elems| <= j <= i ensures ElementJustified(Obj(map[]), k, j, items) {
        EmptyJustified(BelowElement(items, k, j));
      }
      assert ElementJustified(grown[i], k, i, items);
      ElementIsObject(grown[i], e, items);
      assert Rest(e) in BelowElement(items, k, i) by { InBelowElement(items, e); }
      TidyBelowElement(items, k, i);
      InsertJustified(grown[i], Rest(e), BelowElement(items, k, i));
    }
  }

  lemma InBelowElement(items: set<Item>, e: Item)
    requires e in items && |e.path| > 1 && e.parent.Some? && Indexed(e, e.parent.value)
    ensures Rest(e) in BelowElement(items, e.parent.value, Position(e))
  {
  }

  lemma EmptyJustified(items: set<Item>)
    ensures Justified(Obj(map[]), items)
  {
  }

  lemma ElementIsObject(v: Value, e: Item, items: set<Item>)
    requires Tidy(items) && e in items && IsIndex(e.path[0]) && e.parent.Some? && |e.path| > 1
    requires ElementJustified(v, e.parent.value, Position(e), items)
    ensures v.Obj?
  {
    hide ParseUsize, Justified;
    PlainElementsClash(e, items);
  }

  // From key-value maps

  function ItemOf(parser: Parser, properties: map<string, string>, key: string): Item
    requires key in properties
  {
    Item(None, Parts(parser, key), properties[key])
  }

  ghost function ItemsOf(parser: Parser, properties: map<string, string>): set<Item> {
    set k | k in properties :: ItemOf(parser, properties, k)
  }

  lemma {:induction false} RebuildJustified(parser: Parser, properties: map<string, string>, order: seq<string>)
    requires Tidy(ItemsOf(parser, properties))
    requires forall i :: 0 <= i < |order| ==> order[i] in properties
    ensures RebuildInOrder(parser, order, properties).Done?
    ensures Justified(Obj(RebuildInOrder(parser, order, properties).value), ItemsOf(parser, properties))
  {
    hide Tidy, Justified, Insert, Parts;
    var items := ItemsOf(parser, properties);
    if order == [] {
      EmptyJustified(items);
    } else {
      var last, before := order[|order| - 1], order[..|order| - 1];
      RebuildJustified(parser, properties, before);
      assert ItemOf(parser, properties, last) in items;
      InsertJustified(Obj(RebuildInOrder(parser, before, properties).value), ItemOf(parser, properties, last), items);
    }
  }

  lemma {:induction false} InsertIntoNothing(e: Item)
    requires Placed(e)
    ensures Insert(map[], e.parent, e.path, e.text).Done?
    decreases |e.path|
  {
    hide ParseUsize;
    if |e.path| > 1 {
      InsertIntoNothing(Rest(e));
    }
  }

  lemma {:induction false} ClashPanics(e: Item, f: Item)
    requires Placed(e) && f.path != [] && Clashes(e, f)
    ensures Insert(map[], e.parent, e.path, e.text).Done?
    ensures Insert(Insert(map[], e.parent, e.path, e.text).value, f.parent, f.path, f.text).Panic?
    decreases |e.path|
  {
    hide ParseUsize;
    InsertIntoNothing(e);
    if |e.path| > 1 && |f.path| > 1 && (IsIndex(e.path[0]) <==> IsIndex(f.path[0])) {
      ClashPanics(Rest(e), Rest(f));
      var first := Obj(Insert(map[], Some(e.path[0]), e.path[1..], e.text).value);
      if IsIndex(e.path[0]) {
        var elems := Grown([], Position(e) + 1, Obj(map[]))[Position(e) := first];
        assert Insert(map[], e.parent, e.path, e.text) == Done(map[e.parent.value := Arr(elems)]);
        assert InsertNumeric(elems, f.path, f.text, Position(f)).Panic?;
      } else {
        assert Insert(map[], e.parent, e.path, e.text) == Done(map[e.path[0] := first]);
      }
    }
  }

  /**
   * For every key-value map: some order of its keys panics exactly when a key starts with an array index
   * or two keys clash.
   */
  lemma PanicsExactly(parser: Parser, properties: map<string, string>)
    ensures (exists order :: Enumerates(order, properties.Keys) && RebuildInOrder(parser, order, properties).Panic?)
      <==> !Tidy(ItemsOf(parser, properties))
  {
    hide Tidy, RebuildInOrder, Parts;
    if Tidy(ItemsOf(parser, properties)) {
      forall order | Enumerates(order, properties.Keys) ensures RebuildInOrder(parser, order, properties).Done? {
        RebuildJustified(parser, properties, order);
      }
    } else {
      var order := PanickingOrder(parser, properties);
    }
  }

  lemma PanickingOrder(parser: Parser, properties: map<string, string>) returns (order: seq<string>)
    requires !Tidy(ItemsOf(parser, properties))
    ensures Enumerates(order, properties.Keys) && RebuildInOrder(parser, order, properties).Panic?
  {
    hide Insert, Parts, RebuildInOrder;
    var items := ItemsOf(parser, properties);
    if misplaced :| misplaced in items && !Placed(misplaced) {
      var k :| k in properties && ItemOf(parser, properties, k) == misplaced;
      OneKey(parser, properties, k);
      IndexFirstPanics(misplaced);
      EnumeratesOne(k);
      order := CompletePanic(parser, [k], properties.Keys - {k}, properties) by {
        assert properties.Keys - (properties.Keys - {k}) == {k};
      }
    } else {
      var e, f :| e in items && f in items && Clashes(e, f);
      var k :| k in properties && ItemOf(parser, properties, k) == e;
      var k' :| k' in properties && ItemOf(parser, properties, k') == f;
      NeverWithItself(e);
      ClashPanics(e, f);
      OneKey(parser, properties, k);
      TwoKeys(parser, properties, k, k');
      order := CompletePanic(parser, [k, k'], properties.Keys - {k, k'}, properties) by {
        assert properties.Keys - (properties.Keys - {k, k'}) == {k, k'};
      }
    }
  }

  lemma {:induction false} NeverWithItself(e: Item)
    requires e.path != []
    ensures !Clashes(e, e)
    decreases |e.path|
  {
    hide ParseUsize;
    if |e.path| > 1 {
      NeverWithItself(Rest(e));
    }
  }

  lemma IndexFirstPanics(e: Item)
    requires e.path != [] && IsIndex(e.path[0]) && e.parent.None?
    ensures Insert(map[], e.parent, e.path, e.text).Panic?
  {
  }

  lemma EnumeratesOne(k: string)
    ensures Enumerates([k], {k})
  {
  }

  lemma OneKey(parser: Parser, properties: map<string, string>, k: string)
    requires k in properties
    ensures RebuildInOrder(parser, [k], properties) == Insert(map[], None, Parts(parser, k), properties[k])
  {
    hide Insert, Parts;
    assert [k][..0] == [];
  }

  lemma TwoKeys(parser: Parser, properties: map<string, string>, k: string, k': string)
    requires k in properties && k' in properties && Insert(map[], None, Parts(parser, k), properties[k]).Done?
    ensures RebuildInOrder(parser, [k, k'], properties) ==
            Insert(Insert(map[], None, Parts(parser, k), properties[k]).value, None, Parts(parser, k'), properties[k'])
  {
    hide Insert, Parts;
    OneKey(parser, properties, k);
    assert [k, k'][..1] == [k];
  }
}
