/** Which key-value maps rebuild to the same tree in every order of their keys. */
module Agreement {
  import opened Values
  import opened Decimal
  import opened Keys
  import opened Rebuild
  import opened PanicFreedom

  // Where entries lead

  /** One step down the tree: to the object under a name, or to the object at a position of the array under a key. */
  datatype Hop = Into(k: string) | At(k: string, i: nat)

  ghost function Sub(items: set<Item>, hop: Hop): set<Item> {
    match hop
    case Into(k) => Below(items, k)
    case At(k, i) => BelowElement(items, k, i)
  }

  /** The entry goes deeper by this hop. */
  predicate Takes(e: Item, hop: Hop) {
    |e.path| > 1 &&
    match hop
    case Into(k) => Named(e, k)
    case At(k, i) => Indexed(e, k) && Position(e) == i
  }

  /** The entries that follow the route, as the object at its end sees them. */
  ghost function Arriving(items: set<Item>, route: seq<Hop>): set<Item>
    decreases |route|
  {
    if route == [] then items else Arriving(Sub(items, route[0]), route[1..])
  }

  /** No name on the route has an entry that ends there: such an entry would replace whatever is below. */
  ghost predicate Open(items: set<Item>, route: seq<Hop>)
    decreases |route|
  {
    route != [] ==>
      && (route[0].Into? ==> !HasName(items, route[0].k, false))
      && Open(Sub(items, route[0]), route[1..])
  }

  /** Two entries end at one name, or at one position of one array. */
  predicate SameSpot(e: Item, f: Item) {
    && |e.path| == 1 && |f.path| == 1
    && if IsIndex(e.path[0]) && IsIndex(f.path[0]) then e.parent == f.parent && Position(e) == Position(f)
       else e.path == f.path
  }

  ghost predicate TextsAgree(items: set<Item>) {
    forall e, f :: e in items && f in items && SameSpot(e, f) ==> e.text == f.text
  }

  /** An array that holds objects has no gap below a plain element. */
  ghost predicate GapFree(items: set<Item>) {
    forall k, i: nat, j: nat :: j < i && HasElement(items, k, i, false) && Reaches(items, k, 0, true) ==> HasElement(items, k, j, false)
  }

  /** At the end of every route that nothing blocks, texts agree and arrays with objects have no gap below a plain element. */
  ghost predicate Settled(items: set<Item>) {
    forall route :: Open(items, route) ==> TextsAgree(Arriving(items, route)) && GapFree(Arriving(items, route))
  }

  lemma SettledHere(items: set<Item>)
    requires Settled(items)
    ensures TextsAgree(items) && GapFree(items)
  {
    hide TextsAgree, GapFree;
    assert Open(items, []) && Arriving(items, []) == items;
  }

  lemma SettledSub(items: set<Item>, hop: Hop)
    requires Settled(items) && (hop.Into? ==> !HasName(items, hop.k, false))
    ensures Settled(Sub(items, hop))
  {
    hide TextsAgree, GapFree, HasName, Sub;
    forall route | Open(Sub(items, hop), route)
      ensures TextsAgree(Arriving(Sub(items, hop), route)) && GapFree(Arriving(Sub(items, hop), route))
    {
      var longer := [hop] + route;
      assert longer[0] == hop && longer[1..] == route;
      assert Open(items, longer) && Arriving(items, longer) == Arriving(Sub(items, hop), route);
    }
  }

  // An inserted entry stays visible

  /** The tree shows the entry's text where the entry ends, or a name on the way has an entry of its own. */
  ghost predicate Present(v: Value, e: Item, items: set<Item>)
    requires v.Obj? && e.path != []
    decreases |e.path|
  {
    if !IsIndex(e.path[0]) then
      var k := e.path[0];
      && k in v.members
      && if |e.path| == 1 then v.members[k] == Str(e.text)
         else HasName(items, k, false) || (v.members[k].Obj? && Present(v.members[k], Rest(e), Below(items, k)))
    else
      && e.parent.Some? && e.parent.value in v.members
      && v.members[e.parent.value].Arr?
      && ElementPresent(v.members[e.parent.value].elems, e, items)
  }

  ghost predicate ElementPresent(elems: seq<Value>, e: Item, items: set<Item>)
    requires e.path != [] && IsIndex(e.path[0]) && e.parent.Some?
    decreases |e.path|, 0
  {
    var i := Position(e);
    && i < |elems|
    && if |e.path| == 1 then elems[i] == Str(e.text)
       else elems[i].Obj? && Present(elems[i], Rest(e), BelowElement(items, e.parent.value, i))
  }

  function Inserted(v: Value, e: Item): Value
    requires v.Obj? && e.path != [] && Insert(v.members, e.parent, e.path, e.text).Done?
  {
    Obj(Insert(v.members, e.parent, e.path, e.text).value)
  }

  ghost predicate Sound(v: Value, items: set<Item>) {
    v.Obj? && Tidy(items) && Justified(v, items)
  }

  lemma SoundInsert(v: Value, e: Item, items: set<Item>)
    requires Sound(v, items) && e in items
    ensures e.path != [] && Insert(v.members, e.parent, e.path, e.text).Done? && Sound(Inserted(v, e), items)
  {
    hide Insert, Justified, Clashes;
    InsertJustified(v, e, items);
  }

  /** An object under an unblocked name, or the empty one that insertion starts from. */
  lemma SoundBelow(v: Value, e: Item, items: set<Item>)
    requires Sound(v, items) && e in items && |e.path| > 1 && Named(e, e.path[0])
    ensures
      var k := e.path[0];
      && Rest(e) in Below(items, k)
      && (k in v.members && v.members[k].Obj? ==> Sound(v.members[k], Below(items, k)))
      && (k !in v.members ==> Sound(Obj(map[]), Below(items, k)))
      && (k in v.members && !v.members[k].Obj? ==> HasName(items, k, false))
  {
    hide Clashes, ElementJustified, Tidy, IsIndex;
    var k := e.path[0];
    TidyBelow(items, k);
    EmptyJustified(Below(items, k));
    if k in v.members {
      assert MemberJustified(v.members[k], k, items);
      if v.members[k].Arr? {
        NoArrayAtName(v.members[k], e, items);
      }
    }
  }

  lemma NoArrayAtName(v: Value, e: Item, items: set<Item>)
    requires Tidy(items) && e in items && Named(e, e.path[0]) && MemberJustified(v, e.path[0], items)
    ensures !v.Arr?
  {
    hide Justified, ElementJustified, ParseUsize;
    if f :| f in items && Indexed(f, e.path[0]) {
      NamesClash(f, items);
    }
  }

  /** The array that an index entry goes to, or the empty one that insertion starts from. */
  function Slot(v: Value, k: string): Value
    requires v.Obj?
  {
    if k in v.members then v.members[k] else Arr([])
  }

  lemma SoundSlot(v: Value, e: Item, items: set<Item>)
    requires Sound(v, items) && e in items && IsIndex(e.path[0])
    ensures e.parent.Some? && Slot(v, e.parent.value).Arr?
    ensures e.parent.value in v.members ==> MemberJustified(v.members[e.parent.value], e.parent.value, items)
    ensures forall f :: f in items ==> !Named(f, e.parent.value)
  {
    hide MemberJustified, ParseUsize;
    var k := e.parent.value;
    if k in v.members {
      SlotIsArray(v.members[k], e, items);
    }
    NamesClash(e, items);
  }

  /** The object at a deep entry's position once the array has grown, and what is known of it. */
  lemma SoundElement(elems: seq<Value>, e: Item, items: set<Item>)
    requires Tidy(items) && e in items && |e.path| > 1 && IsIndex(e.path[0]) && e.parent.Some?
    requires elems != [] ==> MemberJustified(Arr(elems), e.parent.value, items)
    ensures
      var i := Position(e);
      var grown := Grown(elems, i + 1, Obj(map[]));
      && Rest(e) in BelowElement(items, e.parent.value, i)
      && Sound(grown[i], BelowElement(items, e.parent.value, i))
  {
    hide Clashes, ParseUsize, BelowElement;
    var k, i := e.parent.value, Position(e);
    assert Indexed(e, k);
    InBelowElement(items, e);
    TidyBelowElement(items, k, i);
    EmptyJustified(BelowElement(items, k, i));
    if i < |elems| {
      ElementIsObject(elems[i], e, items);
    }
  }

  lemma {:induction false} InsertPresents(v: Value, e: Item, items: set<Item>)
    requires Sound(v, items) && e in items
    ensures e.path != [] && Insert(v.members, e.parent, e.path, e.text).Done? && Present(Inserted(v, e), e, items)
    decreases |e.path|, 1
  {
    hide Tidy, Justified, MemberJustified, ParseUsize, Clashes;
    SoundInsert(v, e, items);
    if IsIndex(e.path[0]) {
      SoundSlot(v, e, items);
      InsertElementPresents(Slot(v, e.parent.value).elems, e, items);
    } else if |e.path| > 1 && !HasName(items, e.path[0], false) {
      SoundBelow(v, e, items);
      var k := e.path[0];
      InsertPresents(if k in v.members then v.members[k] else Obj(map[]), Rest(e), Below(items, k));
    }
  }

  lemma {:induction false} InsertElementPresents(elems: seq<Value>, e: Item, items: set<Item>)
    requires Tidy(items) && e in items && e.path != [] && IsIndex(e.path[0]) && e.parent.Some?
    requires elems != [] ==> MemberJustified(Arr(elems), e.parent.value, items)
    ensures InsertNumeric(elems, e.path, e.text, Position(e)).Done?
    ensures ElementPresent(InsertNumeric(elems, e.path, e.text, Position(e)).value, e, items)
    decreases |e.path|, 0
  {
    hide Insert, Tidy, Justified, Present, MemberJustified, ParseUsize;
    if |e.path| > 1 {
      SoundElement(elems, e, items);
      var i := Position(e);
      InsertPresents(Grown(elems, i + 1, Obj(map[]))[i], Rest(e), BelowElement(items, e.parent.value, i));
    }
  }

  /** What an entry shows, no later entry hides. */
  lemma {:induction false} StaysPresent(v: Value, e: Item, f: Item, items: set<Item>)
    requires Sound(v, items) && Settled(items) && e in items && f in items
    requires e.path != [] && Present(v, e, items)
    ensures f.path != [] && Insert(v.members, f.parent, f.path, f.text).Done? && Present(Inserted(v, f), e, items)
    decreases |e.path|, 1
  {
    hide Tidy, Justified, MemberJustified, ParseUsize, Clashes, Settled, InsertNumeric, ElementPresent;
    SoundInsert(v, f, items);
    SettledHere(items);
    if IsIndex(f.path[0]) {
      SoundSlot(v, f, items);
      if IsIndex(e.path[0]) {
        if e.parent == f.parent {
          ElementStaysPresent(Slot(v, f.parent.value).elems, e, f, items);
        }
      } else {
        assert Named(e, e.path[0]);
      }
    } else if IsIndex(e.path[0]) {
      SoundSlot(v, e, items);
      assert Named(f, f.path[0]);
    } else if e.path[0] == f.path[0] {
      NameStaysPresent(v, e, f, items);
    }
  }

  lemma {:induction false} NameStaysPresent(v: Value, e: Item, f: Item, items: set<Item>)
    requires Sound(v, items) && Settled(items) && e in items && f in items
    requires e.path != [] && f.path != [] && e.path[0] == f.path[0] && !IsIndex(e.path[0])
    requires Present(v, e, items) && InsertString(v.members, f.path, f.text).Done?
    ensures Present(Obj(InsertString(v.members, f.path, f.text).value), e, items)
    decreases |e.path|, 0
  {
    hide Tidy, Justified, MemberJustified, ParseUsize, Clashes, Settled, Insert;
    var k := e.path[0];
    SettledHere(items);
    assert Named(e, k) && Named(f, k);
    if |e.path| > 1 && |f.path| > 1 && !HasName(items, k, false) {
      SoundBelow(v, e, items);
      SoundBelow(v, f, items);
      SettledSub(items, Into(k));
      StaysPresent(v.members[k], Rest(e), Rest(f), Below(items, k));
    } else if |e.path| == 1 && |f.path| == 1 {
      assert SameSpot(e, f);
    }
  }

  lemma {:induction false} ElementStaysPresent(elems: seq<Value>, e: Item, f: Item, items: set<Item>)
    requires Tidy(items) && Settled(items) && e in items && f in items && e.path != [] && f.path != []
    requires IsIndex(e.path[0]) && IsIndex(f.path[0]) && e.parent.Some? && e.parent == f.parent
    requires MemberJustified(Arr(elems), e.parent.value, items) && ElementPresent(elems, e, items)
    requires InsertNumeric(elems, f.path, f.text, Position(f)).Done?
    ensures ElementPresent(InsertNumeric(elems, f.path, f.text, Position(f)).value, e, items)
    decreases |e.path|, 0
  {
    hide Tidy, Justified, MemberJustified, ParseUsize, Settled, Insert, Present;
    SettledHere(items);
    var k, i := e.parent.value, Position(e);
    if Position(f) == i {
      assert !Clashes(e, f) && !Clashes(f, e) by { ApartInTidy(e, f, items); }
      if |e.path| > 1 {
        SoundElement(elems, e, items);
        SoundElement(elems, f, items);
        SettledSub(items, At(k, i));
        StaysPresent(elems[i], Rest(e), Rest(f), BelowElement(items, k, i));
      } else {
        assert SameSpot(e, f);
      }
    }
  }

  lemma ApartInTidy(e: Item, f: Item, items: set<Item>)
    requires Tidy(items) && e in items && f in items
    ensures e.path != [] && f.path != [] && !Clashes(e, f) && !Clashes(f, e)
  {
  }

  // Everything present and nothing unjustified leaves one tree

  ghost predicate AllPresent(v: Value, items: set<Item>)
    requires v.Obj?
  {
    forall e :: e in items ==> e.path != [] && Present(v, e, items)
  }

  ghost predicate Whole(v: Value, items: set<Item>) {
    Sound(v, items) && AllPresent(v, items)
  }

  lemma WholeBelow(v: Value, k: string, items: set<Item>)
    requires Whole(v, items) && HasName(items, k, true) && !HasName(items, k, false)
    ensures k in v.members && Whole(v.members[k], Below(items, k))
  {
    hide Justified, Tidy, ElementPresent, IsIndex;
    var d :| d in items && Named(d, k) && |d.path| > 1;
    SoundBelow(v, d, items);
    assert Present(v, d, items);
    forall e | e in Below(items, k) ensures e.path != [] && Present(v.members[k], e, Below(items, k)) {
      var e' :| e' in items && Named(e', k) && |e'.path| > 1 && Rest(e') == e;
      assert Present(v, e', items);
    }
  }

  lemma WholeArray(v: Value, k: string, items: set<Item>)
    requires Whole(v, items) && (exists e :: e in items && Indexed(e, k))
    ensures k in v.members && v.members[k].Arr? && MemberJustified(v.members[k], k, items)
    ensures forall e :: e in items && Indexed(e, k) ==> ElementPresent(v.members[k].elems, e, items)
  {
    hide MemberJustified, ElementPresent, Tidy, ParseUsize;
    forall e | e in items && Indexed(e, k)
      ensures k in v.members && v.members[k].Arr? && ElementPresent(v.members[k].elems, e, items)
    {
      assert Present(v, e, items);
    }
  }

  lemma WholeElement(v: Value, k: string, i: nat, items: set<Item>)
    requires Whole(v, items) && HasElement(items, k, i, true)
    ensures k in v.members && v.members[k].Arr? && i < |v.members[k].elems|
    ensures Whole(v.members[k].elems[i], BelowElement(items, k, i))
  {
    hide MemberJustified, Justified, Tidy, ParseUsize, Present;
    var d :| d in items && Indexed(d, k) && Position(d) == i && |d.path| > 1;
    WholeArray(v, k, items);
    var elems := v.members[k].elems;
    assert ElementPresent(elems, d, items);
    assert Sound(elems[i], BelowElement(items, k, i)) by {
      SoundElement(elems, d, items);
    }
    forall e | e in BelowElement(items, k, i) ensures e.path != [] && Present(elems[i], e, BelowElement(items, k, i)) {
      var e' :| e' in items && Indexed(e', k) && Position(e') == i && |e'.path| > 1 && Rest(e') == e;
      assert ElementPresent(elems, e', items);
    }
  }

  /** The names and arrays of a whole tree, read off the entries. */
  lemma WholeKeys(v: Value, k: string, items: set<Item>)
    requires Whole(v, items)
    ensures k in v.members <==> HasName(items, k, false) || HasName(items, k, true) || exists e :: e in items && Indexed(e, k)
    ensures HasName(items, k, false) || HasName(items, k, true) ==> forall e :: e in items ==> !Indexed(e, k)
    ensures k in v.members ==> MemberJustified(v.members[k], k, items)
  {
    hide Justified, ElementJustified, ElementPresent, ParseUsize, Tidy;
    if k in v.members {
      assert MemberJustified(v.members[k], k, items) by { MembersJustified(v, k, items); }
    }
    if e :| e in items && Named(e, k) {
      assert Present(v, e, items);
      forall f | f in items ensures !Indexed(f, k) {
        if Indexed(f, k) {
          ApartInTidy(e, f, items);
          NamesClash(f, items);
        }
      }
    }
    if e :| e in items && Indexed(e, k) {
      assert Present(v, e, items);
    }
  }

  lemma MembersJustified(v: Value, k: string, items: set<Item>)
    requires v.Obj? && Justified(v, items) && k in v.members
    ensures MemberJustified(v.members[k], k, items)
  {
  }

  lemma {:induction false} SameTree(v: Value, w: Value, items: set<Item>)
    requires Settled(items) && Whole(v, items) && Whole(w, items)
    ensures v == w
    decreases v, 2
  {
    assert v.Obj? && w.Obj?;
    hide Settled, Whole, HasName, MemberJustified;
    forall k ensures k in v.members <==> k in w.members {
      WholeKeys(v, k, items);
      WholeKeys(w, k, items);
    }
    forall k | k in v.members ensures v.members[k] == w.members[k] {
      SameMember(v, w, k, items);
    }
    assert v.members == w.members;
  }

  lemma {:induction false} SameMember(v: Value, w: Value, k: string, items: set<Item>)
    requires Settled(items) && Whole(v, items) && Whole(w, items) && v.Obj? && w.Obj? && k in v.members && k in w.members
    ensures v.members[k] == w.members[k]
    decreases v, 1
  {
    hide Settled, Whole, MemberJustified, Indexed;
    WholeKeys(v, k, items);
    if HasName(items, k, false) {
      SameText(v, w, k, items);
    } else if HasName(items, k, true) {
      WholeBelow(v, k, items);
      WholeBelow(w, k, items);
      SettledSub(items, Into(k));
      SameTree(v.members[k], w.members[k], Below(items, k));
    } else {
      SameArray(v, w, k, items);
    }
  }

  lemma SameText(v: Value, w: Value, k: string, items: set<Item>)
    requires Whole(v, items) && Whole(w, items) && HasName(items, k, false) && k in v.members && k in w.members
    ensures v.members[k] == w.members[k]
  {
    hide Tidy, Justified, ElementPresent, IsIndex;
    var e :| e in items && Named(e, k) && |e.path| == 1;
    assert Present(v, e, items) && Present(w, e, items);
  }

  lemma {:induction false} SameArray(v: Value, w: Value, k: string, items: set<Item>)
    requires Settled(items) && Whole(v, items) && Whole(w, items)
    requires v.Obj? && w.Obj? && k in v.members && k in w.members
    requires exists e :: e in items && Indexed(e, k)
    ensures v.members[k] == w.members[k]
    decreases v, 0
  {
    hide Settled, Whole, Indexed, ElementPresent, ElementJustified;
    WholeArray(v, k, items);
    WholeArray(w, k, items);
    var a, b := v.members[k].elems, w.members[k].elems;
    ArrayReaches(a, b, k, items);
    ArrayReaches(b, a, k, items);
    forall i | 0 <= i < |a| ensures a[i] == b[i] {
      SameElement(v, w, k, i, items);
    }
    assert a == b;
  }

  lemma ArrayReaches(a: seq<Value>, b: seq<Value>, k: string, items: set<Item>)
    requires MemberJustified(Arr(a), k, items)
    requires forall e :: e in items && Indexed(e, k) ==> ElementPresent(b, e, items)
    ensures |a| <= |b|
  {
    hide ElementJustified, ParseUsize;
  }

  lemma {:induction false} SameElement(v: Value, w: Value, k: string, i: nat, items: set<Item>)
    requires Settled(items) && Whole(v, items) && Whole(w, items)
    requires v.Obj? && w.Obj? && k in v.members && k in w.members
    requires exists e :: e in items && Indexed(e, k)
    requires v.members[k].Arr? && w.members[k].Arr? && i < |v.members[k].elems| && i < |w.members[k].elems|
    ensures v.members[k].elems[i] == w.members[k].elems[i]
    decreases v.members[k].elems[i], 3
  {
    hide Settled, Whole, ElementPresent, ElementJustified, BelowElement, ParseUsize;
    WholeArray(v, k, items);
    WholeArray(w, k, items);
    var x, y := v.members[k].elems[i], w.members[k].elems[i];
    if HasElement(items, k, i, false) {
      var e :| e in items && Indexed(e, k) && Position(e) == i && |e.path| == 1;
      PlainText(v.members[k].elems, e, items);
      PlainText(w.members[k].elems, e, items);
    } else if HasElement(items, k, i, true) {
      WholeElement(v, k, i, items);
      WholeElement(w, k, i, items);
      SettledSub(items, At(k, i));
      SameTree(x, y, BelowElement(items, k, i));
    } else {
      SettledHere(items);
      assert ElementJustified(x, k, i, items) && ElementJustified(y, k, i, items);
      NothingAt(items, k, i);
      PaddingJustified(x, k, i, items);
      PaddingJustified(y, k, i, items);
    }
  }

  lemma PlainText(elems: seq<Value>, e: Item, items: set<Item>)
    requires |e.path| == 1 && IsIndex(e.path[0]) && e.parent.Some? && ElementPresent(elems, e, items)
    ensures elems[Position(e)] == Str(e.text)
  {
  }

  lemma NothingAt(items: set<Item>, k: string, i: nat)
    requires !HasElement(items, k, i, true)
    ensures BelowElement(items, k, i) == {}
  {
    hide ParseUsize;
  }

  /** Padding is null below a plain element, and an empty object below one that holds an object. */
  lemma PaddingJustified(x: Value, k: string, i: nat, items: set<Item>)
    requires !HasElement(items, k, i, false) && GapFree(items)
    requires ElementJustified(x, k, i, items) && BelowElement(items, k, i) == {}
    ensures x == if Reaches(items, k, 0, true) then Obj(map[]) else Null
  {
    hide BelowElement, ParseUsize;
    if x.Obj? {
      assert x.members == map[] by {
        forall m ensures m !in x.members {
          assert m in x.members ==> MemberJustified(x.members[m], m, {});
        }
      }
    } else {
      var e :| e in items && Indexed(e, k) && Position(e) >= i && |e.path| == 1;
      assert HasElement(items, k, Position(e), false);
    }
  }

  // Whole rebuilds

  lemma {:induction false} RebuildWhole(parser: Parser, properties: map<string, string>, order: seq<string>)
    requires Tidy(ItemsOf(parser, properties)) && Settled(ItemsOf(parser, properties))
    requires forall i :: 0 <= i < |order| ==> order[i] in properties
    ensures RebuildInOrder(parser, order, properties).Done?
    ensures
      var v := Obj(RebuildInOrder(parser, order, properties).value);
      && Sound(v, ItemsOf(parser, properties))
      && forall i :: 0 <= i < |order| ==> Present(v, ItemOf(parser, properties, order[i]), ItemsOf(parser, properties))
  {
    hide Tidy, Justified, Settled, Insert, Parts, Present;
    var items := ItemsOf(parser, properties);
    RebuildJustified(parser, properties, order);
    if order != [] {
      var last, before := order[|order| - 1], order[..|order| - 1];
      RebuildWhole(parser, properties, before);
      var v := Obj(RebuildInOrder(parser, before, properties).value);
      var f := ItemOf(parser, properties, last);
      assert f in items;
      InsertPresents(v, f, items);
      forall i | 0 <= i < |before| ensures Present(Inserted(v, f), ItemOf(parser, properties, order[i]), items) {
        assert before[i] == order[i];
        StaysPresent(v, ItemOf(parser, properties, before[i]), f, items);
      }
    }
  }

  /** Every order of the keys rebuilds one and the same tree, without panic. */
  ghost predicate OrdersAgree(parser: Parser, properties: map<string, string>) {
    forall first, second :: Enumerates(first, properties.Keys) && Enumerates(second, properties.Keys) ==>
      && RebuildInOrder(parser, first, properties).Done?
      && RebuildInOrder(parser, first, properties) == RebuildInOrder(parser, second, properties)
  }

  lemma SettledAgree(parser: Parser, properties: map<string, string>)
    requires Tidy(ItemsOf(parser, properties)) && Settled(ItemsOf(parser, properties))
    ensures OrdersAgree(parser, properties)
  {
    hide Tidy, Justified, Settled, RebuildInOrder, Parts, Present;
    var items := ItemsOf(parser, properties);
    forall first, second | Enumerates(first, properties.Keys) && Enumerates(second, properties.Keys)
      ensures RebuildInOrder(parser, first, properties).Done?
      ensures RebuildInOrder(parser, first, properties) == RebuildInOrder(parser, second, properties)
    {
      RebuildWhole(parser, properties, first);
      RebuildWhole(parser, properties, second);
      SameTree(Obj(RebuildInOrder(parser, first, properties).value), Obj(RebuildInOrder(parser, second, properties).value), items);
    }
  }

  // When all orders agree, their tree shows every entry

  /** The order that puts one key last. */
  ghost function LastOrder(properties: map<string, string>, k: string): (order: seq<string>)
    requires k in properties
    ensures Enumerates(order, properties.Keys)
    ensures order != [] && order[|order| - 1] == k
  {
    EnumeratesAppend(SomeOrder(properties.Keys - {k}), properties.Keys - {k}, [k], {k});
    assert properties.Keys - {k} + {k} == properties.Keys;
    SomeOrder(properties.Keys - {k}) + [k]
  }

  lemma AgreedIsWhole(parser: Parser, properties: map<string, string>, order: seq<string>)
    requires OrdersAgree(parser, properties) && Tidy(ItemsOf(parser, properties)) && Enumerates(order, properties.Keys)
    ensures RebuildInOrder(parser, order, properties).Done?
    ensures Whole(Obj(RebuildInOrder(parser, order, properties).value), ItemsOf(parser, properties))
  {
    hide Tidy, Justified, Insert, Parts, Present;
    var items := ItemsOf(parser, properties);
    RebuildJustified(parser, properties, order);
    var v := Obj(RebuildInOrder(parser, order, properties).value);
    forall e | e in items ensures e.path != [] && Present(v, e, items) {
      var k :| k in properties && ItemOf(parser, properties, k) == e;
      PresentWhenLast(parser, properties, k);
      assert RebuildInOrder(parser, LastOrder(properties, k), properties) == RebuildInOrder(parser, order, properties);
    }
  }

  lemma PresentWhenLast(parser: Parser, properties: map<string, string>, k: string)
    requires Tidy(ItemsOf(parser, properties)) && k in properties
    ensures
      var rebuilt := RebuildInOrder(parser, LastOrder(properties, k), properties);
      var e := ItemOf(parser, properties, k);
      rebuilt.Done? && e.path != [] && Present(Obj(rebuilt.value), e, ItemsOf(parser, properties))
  {
    hide Tidy, Justified, Insert, Parts, Present, LastOrder, Enumerates;
    var items, order := ItemsOf(parser, properties), LastOrder(properties, k);
    var before := order[..|order| - 1];
    assert forall i :: 0 <= i < |order| ==> order[i] in properties by { OrderInKeys(order, properties.Keys); }
    assert forall i :: 0 <= i < |before| ==> before[i] == order[i];
    RebuildJustified(parser, properties, before);
    assert ItemOf(parser, properties, k) in items;
    InsertPresents(Obj(RebuildInOrder(parser, before, properties).value), ItemOf(parser, properties, k), items);
  }

  lemma OrderInKeys(order: seq<string>, keys: set<string>)
    requires Enumerates(order, keys)
    ensures forall i :: 0 <= i < |order| ==> order[i] in keys
  {
  }

  /** A whole tree has agreeing texts wherever it is open. */
  lemma {:induction false} TextsMustAgree(v: Value, items: set<Item>, route: seq<Hop>)
    requires Whole(v, items) && Open(items, route)
    ensures TextsAgree(Arriving(items, route))
    decreases |route|
  {
    assert v.Obj?;
    hide Whole, Sub;
    if route == [] {
      forall e, f | e in items && f in items && SameSpot(e, f) ensures e.text == f.text {
        OneText(v, items, e, f);
      }
    } else {
      match route[0]
      case Into(k) =>
        if HasName(items, k, true) {
          WholeBelow(v, k, items);
          assert Sub(items, route[0]) == Below(items, k) by { SubInto(items, k); }
          TextsMustAgree(v.members[k], Below(items, k), route[1..]);
        } else {
          NothingArrives(items, route);
        }
      case At(k, i) =>
        if HasElement(items, k, i, true) {
          WholeElement(v, k, i, items);
          assert Sub(items, route[0]) == BelowElement(items, k, i) by { SubAt(items, k, i); }
          TextsMustAgree(v.members[k].elems[i], BelowElement(items, k, i), route[1..]);
        } else {
          NothingArrives(items, route);
        }
    }
  }

  lemma SubInto(items: set<Item>, k: string)
    ensures Sub(items, Into(k)) == Below(items, k)
  {
  }

  lemma SubAt(items: set<Item>, k: string, i: nat)
    ensures Sub(items, At(k, i)) == BelowElement(items, k, i)
  {
  }

  lemma OneText(v: Value, items: set<Item>, e: Item, f: Item)
    requires Whole(v, items) && e in items && f in items && SameSpot(e, f)
    ensures e.text == f.text
  {
    hide Tidy, Justified, ParseUsize;
    assert Present(v, e, items) && Present(v, f, items);
  }

  lemma NothingArrives(items: set<Item>, route: seq<Hop>)
    requires route != []
    requires forall e :: e in items ==> !Takes(e, route[0])
    ensures Arriving(items, route) == {}
  {
    hide IsIndex, ParseUsize;
    assert Sub(items, route[0]) == {};
    NothingFromNothing(route[1..]);
  }

  lemma {:induction false} NothingFromNothing(route: seq<Hop>)
    ensures Arriving({}, route) == {}
    decreases |route|
  {
    if route != [] {
      assert Sub({}, route[0]) == {};
      NothingFromNothing(route[1..]);
    }
  }

  // A gap keeps the padding of whichever entry came first

  /** At the end of the route, element `j` of the array under `k` is `x`. */
  ghost predicate Holds(v: Value, route: seq<Hop>, k: string, j: nat, x: Value)
    decreases |route|
  {
    v.Obj? &&
    if route == [] then k in v.members && ElementIs(v.members[k], j, x)
    else
      match route[0]
      case Into(name) => name in v.members && Holds(v.members[name], route[1..], k, j, x)
      case At(name, i) =>
        && name in v.members && v.members[name].Arr? && i < |v.members[name].elems|
        && Holds(v.members[name].elems[i], route[1..], k, j, x)
  }

  predicate ElementIs(v: Value, j: nat, x: Value) {
    v.Arr? && j < |v.elems| && v.elems[j] == x
  }

  /** An entry beyond the gap, inserted into nothing, pads it. */
  lemma {:induction false} FirstPads(items: set<Item>, route: seq<Hop>, x: Item, k: string, j: nat) returns (e: Item)
    requires Tidy(items) && x in Arriving(items, route) && Indexed(x, k) && Position(x) > j
    ensures e in items && e.path != [] && Insert(map[], e.parent, e.path, e.text).Done?
    ensures Holds(Inserted(Obj(map[]), e), route, k, j, Filler(x))
    decreases |route|
  {
    hide Tidy, ParseUsize, Clashes;
    if route == [] {
      e := x;
      PlacedInTidy(e, items);
      InsertIntoNothing(e);
      PadsHere(e, k, j);
    } else {
      TidySub(items, route[0]);
      var e' := FirstPads(Sub(items, route[0]), route[1..], x, k, j);
      e := Unrest(items, route[0], e');
      PlacedInTidy(e, items);
      InsertIntoNothing(e);
      PadsBelow(e, route, k, j, Filler(x));
    }
  }

  lemma PlacedInTidy(e: Item, items: set<Item>)
    requires Tidy(items) && e in items
    ensures Placed(e)
  {
  }

  lemma TidySub(items: set<Item>, hop: Hop)
    requires Tidy(items)
    ensures Tidy(Sub(items, hop))
  {
    hide Tidy;
    match hop
    case Into(k) => TidyBelow(items, k);
    case At(k, i) => TidyBelowElement(items, k, i);
  }

  lemma Unrest(items: set<Item>, hop: Hop, e': Item) returns (e: Item)
    requires e' in Sub(items, hop)
    ensures e in items && |e.path| > 1 && Rest(e) == e'
    ensures Takes(e, hop)
  {
    hide ParseUsize;
    match hop
    case Into(k) => e :| e in items && Named(e, k) && |e.path| > 1 && Rest(e) == e';
    case At(k, i) => e :| e in items && Indexed(e, k) && Position(e) == i && |e.path| > 1 && Rest(e) == e';
  }

  lemma PadsHere(e: Item, k: string, j: nat)
    requires Indexed(e, k) && Position(e) > j && Insert(map[], e.parent, e.path, e.text).Done?
    ensures Holds(Inserted(Obj(map[]), e), [], k, j, Filler(e))
  {
    hide ParseUsize;
  }

  lemma PadsBelow(e: Item, route: seq<Hop>, k: string, j: nat, x: Value)
    requires route != [] && |e.path| > 1 && Insert(map[], e.parent, e.path, e.text).Done?
    requires Takes(e, route[0])
    requires Insert(map[], Rest(e).parent, Rest(e).path, e.text).Done? && Holds(Inserted(Obj(map[]), Rest(e)), route[1..], k, j, x)
    ensures Holds(Inserted(Obj(map[]), e), route, k, j, x)
  {
    hide ParseUsize;
    if route[0].At? {
      var i := Position(e);
      var grown := Grown([], i + 1, Obj(map[]));
      assert InsertNumeric([], e.path, e.text, i) == Done(grown[i := Inserted(Obj(map[]), Rest(e))]);
    }
  }

  /** Some entry goes to the array at the end of the open route, and none to position `j` of it. */
  ghost predicate Gap(items: set<Item>, route: seq<Hop>, k: string, j: nat) {
    && Open(items, route)
    && (exists e :: e in Arriving(items, route) && Indexed(e, k))
    && (forall e :: e in Arriving(items, route) && Indexed(e, k) ==> Position(e) != j)
  }

  lemma GapBelow(items: set<Item>, route: seq<Hop>, k: string, j: nat)
    requires route != [] && Gap(items, route, k, j)
    ensures Gap(Sub(items, route[0]), route[1..], k, j)
    ensures exists d :: d in items && Takes(d, route[0])
    ensures route[0].Into? ==> !HasName(items, route[0].k, false)
  {
    hide ParseUsize, HasName, Takes, Sub;
    if forall d :: d in items ==> !Takes(d, route[0]) {
      NothingArrives(items, route);
    }
  }

  /** No entry reaches into a gap. */
  lemma {:induction false} StaysHeld(v: Value, f: Item, items: set<Item>, route: seq<Hop>, k: string, j: nat, x: Value)
    requires Sound(v, items) && f in items && Gap(items, route, k, j) && Holds(v, route, k, j, x)
    ensures f.path != [] && Insert(v.members, f.parent, f.path, f.text).Done? && Holds(Inserted(v, f), route, k, j, x)
    decreases |route|, 1
  {
    hide Gap, Justified, Tidy, MemberJustified, Insert, Inserted, Clashes, ParseUsize;
    SoundInsert(v, f, items);
    if route == [] {
      HeldHere(v, f, items, k, j, x);
    } else {
      GapBelow(items, route, k, j);
      var d :| d in items && Takes(d, route[0]);
      if route[0].Into? {
        HeldInto(v, f, items, route, k, j, x, d);
      } else {
        HeldAt(v, f, items, route, k, j, x, d);
      }
    }
  }

  lemma HeldHere(v: Value, f: Item, items: set<Item>, k: string, j: nat, x: Value)
    requires Sound(v, items) && f in items && Gap(items, [], k, j) && Holds(v, [], k, j, x)
    requires f.path != [] && Insert(v.members, f.parent, f.path, f.text).Done?
    ensures Holds(Inserted(v, f), [], k, j, x)
  {
    hide Justified, Tidy, MemberJustified, ParseUsize;
    var e :| e in items && Indexed(e, k);
    SoundSlot(v, e, items);
    assert !Named(f, k);
  }

  lemma {:induction false} HeldInto(v: Value, f: Item, items: set<Item>, route: seq<Hop>, k: string, j: nat, x: Value, d: Item)
    requires Sound(v, items) && f in items && Holds(v, route, k, j, x)
    requires route != [] && route[0].Into? && !HasName(items, route[0].k, false) && d in items && Takes(d, route[0])
    requires Gap(Below(items, route[0].k), route[1..], k, j)
    requires f.path != [] && Insert(v.members, f.parent, f.path, f.text).Done?
    ensures Holds(Inserted(v, f), route, k, j, x)
    decreases |route|, 0
  {
    hide Gap, Justified, Tidy, MemberJustified, InsertNumeric, ParseUsize;
    var name := route[0].k;
    if IsIndex(f.path[0]) {
      SoundSlot(v, f, items);
      assert !Named(d, f.parent.value);
    } else if f.path[0] == name {
      assert Named(f, name);
      if |f.path| > 1 {
        SoundBelow(v, f, items);
        StaysHeld(v.members[name], Rest(f), Below(items, name), route[1..], k, j, x);
      }
    }
  }

  lemma {:induction false} HeldAt(v: Value, f: Item, items: set<Item>, route: seq<Hop>, k: string, j: nat, x: Value, d: Item)
    requires Sound(v, items) && f in items && Holds(v, route, k, j, x)
    requires route != [] && route[0].At? && d in items && Takes(d, route[0])
    requires Gap(BelowElement(items, route[0].k, route[0].i), route[1..], k, j)
    requires f.path != [] && Insert(v.members, f.parent, f.path, f.text).Done?
    ensures Holds(Inserted(v, f), route, k, j, x)
    decreases |route|, 0
  {
    hide Gap, Justified, Tidy, MemberJustified, ParseUsize, Clashes;
    var name, i := route[0].k, route[0].i;
    if !IsIndex(f.path[0]) {
      SoundSlot(v, d, items);
      assert !Named(f, name);
    } else if f.parent == Some(name) {
      SoundSlot(v, f, items);
      if Position(f) == i {
        assert |f.path| > 1 by { DeepOnly(f, d, items); }
        SoundElement(v.members[name].elems, f, items);
        StaysHeld(v.members[name].elems[i], Rest(f), BelowElement(items, name, i), route[1..], k, j, x);
      }
    }
  }

  lemma DeepOnly(f: Item, d: Item, items: set<Item>)
    requires Tidy(items) && f in items && d in items && f.path != [] && |d.path| > 1
    requires IsIndex(f.path[0]) && IsIndex(d.path[0]) && f.parent == d.parent && Position(f) == Position(d)
    ensures |f.path| > 1
  {
    ApartInTidy(f, d, items);
  }

  lemma {:induction false} RebuildHolds(parser: Parser, properties: map<string, string>, order: seq<string>,
                                        route: seq<Hop>, k: string, j: nat, x: Value)
    requires Tidy(ItemsOf(parser, properties)) && Gap(ItemsOf(parser, properties), route, k, j)
    requires order != [] && forall i :: 0 <= i < |order| ==> order[i] in properties
    requires
      var e := ItemOf(parser, properties, order[0]);
      e.path != [] && Insert(map[], None, e.path, e.text).Done? && Holds(Inserted(Obj(map[]), e), route, k, j, x)
    ensures RebuildInOrder(parser, order, properties).Done?
    ensures Holds(Obj(RebuildInOrder(parser, order, properties).value), route, k, j, x)
  {
    hide Tidy, Gap, Justified, Insert, Parts, Holds;
    var items := ItemsOf(parser, properties);
    RebuildJustified(parser, properties, order);
    var last, before := order[|order| - 1], order[..|order| - 1];
    if |order| == 1 {
      assert RebuildInOrder(parser, before, properties) == Done(map[]);
    } else {
      RebuildHolds(parser, properties, before, route, k, j, x);
      RebuildJustified(parser, properties, before);
      assert ItemOf(parser, properties, last) in items;
      StaysHeld(Obj(RebuildInOrder(parser, before, properties).value), ItemOf(parser, properties, last), items, route, k, j, x);
    }
  }

  /** Some order keeps, in a gap, the padding that an entry beyond the gap brings. */
  lemma PaddedOrder(parser: Parser, properties: map<string, string>, route: seq<Hop>, k: string, j: nat, e: Item)
    returns (order: seq<string>)
    requires Tidy(ItemsOf(parser, properties)) && Gap(ItemsOf(parser, properties), route, k, j)
    requires e in Arriving(ItemsOf(parser, properties), route) && Indexed(e, k) && Position(e) > j
    ensures Enumerates(order, properties.Keys) && RebuildInOrder(parser, order, properties).Done?
    ensures Holds(Obj(RebuildInOrder(parser, order, properties).value), route, k, j, Filler(e))
  {
    hide Tidy, Gap, Insert, Parts, Holds, RebuildInOrder, ParseUsize;
    var items := ItemsOf(parser, properties);
    var first := FirstPads(items, route, e, k, j);
    var key :| key in properties && ItemOf(parser, properties, key) == first;
    var rest := SomeOrder(properties.Keys - {key});
    order := [key] + rest;
    EnumeratesAppend([key], {key}, rest, properties.Keys - {key});
    assert {key} + (properties.Keys - {key}) == properties.Keys;
    RebuildHolds(parser, properties, order, route, k, j, Filler(e));
  }

  lemma {:induction false} HoldsOnce(v: Value, route: seq<Hop>, k: string, j: nat, x: Value, y: Value)
    requires Holds(v, route, k, j, x) && Holds(v, route, k, j, y)
    ensures x == y
    decreases |route|
  {
    if route != [] {
      match route[0]
      case Into(name) => HoldsOnce(v.members[name], route[1..], k, j, x, y);
      case At(name, i) => HoldsOnce(v.members[name].elems[i], route[1..], k, j, x, y);
    }
  }

  lemma GapsMustClose(parser: Parser, properties: map<string, string>, route: seq<Hop>)
    requires OrdersAgree(parser, properties) && Tidy(ItemsOf(parser, properties)) && Open(ItemsOf(parser, properties), route)
    ensures GapFree(Arriving(ItemsOf(parser, properties), route))
  {
    hide Tidy, RebuildInOrder, Parts, Holds, ParseUsize, Arriving, Open;
    var items := ItemsOf(parser, properties);
    var here := Arriving(items, route);
    assert Tidy(here) by { TidyArriving(items, route); }
    forall k, i: nat, j: nat | j < i && HasElement(here, k, i, false) && Reaches(here, k, 0, true)
      ensures HasElement(here, k, j, false)
    {
      if !HasElement(here, k, j, false) {
        var plain :| plain in here && Indexed(plain, k) && Position(plain) == i && |plain.path| == 1;
        var deep :| deep in here && Indexed(deep, k) && |deep.path| > 1;
        PlainBelowDeep(here, k, plain);
        assert Gap(items, route, k, j);
        var one := PaddedOrder(parser, properties, route, k, j, plain);
        var other := PaddedOrder(parser, properties, route, k, j, deep);
        assert RebuildInOrder(parser, one, properties) == RebuildInOrder(parser, other, properties);
        HoldsOnce(Obj(RebuildInOrder(parser, one, properties).value), route, k, j, Null, Obj(map[]));
        assert false;
      }
    }
  }

  /** In a tidy set the elements that hold objects come after all plain ones. */
  lemma PlainBelowDeep(items: set<Item>, k: string, plain: Item)
    requires Tidy(items) && plain in items && Indexed(plain, k) && |plain.path| == 1
    ensures forall deep :: deep in items && Indexed(deep, k) && |deep.path| > 1 ==> Position(deep) > Position(plain)
  {
    hide ParseUsize;
    forall deep | deep in items && Indexed(deep, k) && |deep.path| > 1 ensures Position(deep) > Position(plain) {
      ApartInTidy(plain, deep, items);
    }
  }

  lemma {:induction false} TidyArriving(items: set<Item>, route: seq<Hop>)
    requires Tidy(items)
    ensures Tidy(Arriving(items, route))
    decreases |route|
  {
    hide Tidy, Sub;
    if route != [] {
      TidySub(items, route[0]);
      TidyArriving(Sub(items, route[0]), route[1..]);
    }
  }

  /**
   * For every key-value map: all orders of its keys rebuild one and the same tree, without panic, exactly when
   * no key starts with an array index, no two keys clash, and, wherever no shorter key replaces what is below,
   * keys that end at one spot carry one text and arrays that hold objects have no gap below a plain element.
   */
  lemma AgreesExactly(parser: Parser, properties: map<string, string>)
    ensures OrdersAgree(parser, properties) <==> Tidy(ItemsOf(parser, properties)) && Settled(ItemsOf(parser, properties))
  {
    hide Tidy, RebuildInOrder, Parts, TextsAgree, GapFree, Whole;
    var items := ItemsOf(parser, properties);
    if Tidy(items) && Settled(items) {
      SettledAgree(parser, properties);
    }
    if OrdersAgree(parser, properties) {
      PanicsExactly(parser, properties);
      var order := SomeOrder(properties.Keys);
      AgreedIsWhole(parser, properties, order);
      forall route | Open(items, route) ensures TextsAgree(Arriving(items, route)) && GapFree(Arriving(items, route)) {
        TextsMustAgree(Obj(RebuildInOrder(parser, order, properties).value), items, route);
        GapsMustClose(parser, properties, route);
      }
    }
  }
}
