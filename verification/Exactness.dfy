/** Which trees come back at all: what no rebuilt tree contains, and the exact condition of the round trip. */
module Exactness {
  import opened Values
  import opened Decimal
  import opened Keys
  import opened Rebuild
  import opened Flatten
  import opened Leaves
  import opened RoundTrip

  /** Every array that is flattened by index is short enough to be indexed. */
  predicate Indexable(v: Value) {
    match v
    case Obj(m) => forall k :: k in m ==> Indexable(m[k])
    case Arr(elems) => |elems| <= USIZE_BOUND && forall i :: 0 <= i < |elems| && elems[i].Obj? ==> Indexable(elems[i])
    case _ => true
  }

  predicate EveryKey(v: Value, clean: string -> bool) {
    match v
    case Obj(m) => forall k :: k in m ==> clean(k) && EveryKey(m[k], clean)
    case Arr(elems) => forall i :: 0 <= i < |elems| && elems[i].Obj? ==> EveryKey(elems[i], clean)
    case _ => true
  }

  // Whatever is rebuilt is solid

  /**
   * Keys are clean, no member is an empty container, a key that reads as an index is bound to an
   * array, and no array ends in an empty object.
   */
  predicate Solid(v: Value, clean: string -> bool) {
    match v
    case Obj(m) => forall k :: k in m ==> clean(k) && !IsHollow(m[k]) && (IsIndex(k) ==> m[k].Arr?) && Solid(m[k], clean)
    case Arr(elems) =>
      && (elems != [] ==> elems[|elems| - 1] != Obj(map[]))
      && (forall i :: 0 <= i < |elems| ==> Solid(elems[i], clean))
    case _ => true
  }

  predicate AllClean(parts: Path, clean: string -> bool) {
    forall i :: 0 <= i < |parts| ==> clean(parts[i])
  }

  /** Insertion keeps a map solid, and never leaves it empty. */
  lemma {:induction false} InsertSolid(m: Object, parent: Option<string>, parts: Path, value: string, clean: string -> bool)
    requires parts != [] && AllClean(parts, clean) && (parent.Some? ==> clean(parent.value))
    requires Solid(Obj(m), clean) && Insert(m, parent, parts, value).Done?
    ensures Solid(Obj(Insert(m, parent, parts, value).value), clean) && Insert(m, parent, parts, value).value != map[]
    decreases |parts|, 1
  {
    hide ParseUsize, InsertNumeric, InsertString;
    var part := parts[0];
    if IsIndex(part) {
      var entry := if parent.value in m then m[parent.value] else Arr([]);
      InsertNumericSolid(entry.elems, parts, value, ParseUsize(part).value, clean);
    } else {
      InsertStringSolid(m, parts, value, clean);
    }
  }

  lemma {:induction false} InsertStringSolid(m: Object, parts: Path, value: string, clean: string -> bool)
    requires parts != [] && AllClean(parts, clean) && !IsIndex(parts[0])
    requires Solid(Obj(m), clean) && InsertString(m, parts, value).Done?
    ensures Solid(Obj(InsertString(m, parts, value).value), clean) && InsertString(m, parts, value).value != map[]
    decreases |parts|, 0
  {
    hide ParseUsize, Insert;
    if |parts| > 1 {
      var entry := if parts[0] in m then m[parts[0]] else Obj(map[]);
      if entry.Obj? {
        InsertSolid(entry.members, Some(parts[0]), parts[1..], value, clean);
      }
    }
  }

  lemma {:induction false} InsertNumericSolid(elems: seq<Value>, parts: Path, value: string, index: nat, clean: string -> bool)
    requires parts != [] && AllClean(parts, clean)
    requires Solid(Arr(elems), clean) && InsertNumeric(elems, parts, value, index).Done?
    ensures
      var r := InsertNumeric(elems, parts, value, index).value;
      Solid(Arr(r), clean) && r != []
    decreases |parts|, 0
  {
    hide ParseUsize, Insert;
    if |parts| > 1 {
      var grown := Grown(elems, index + 1, Obj(map[]));
      assert Solid(grown[index], clean);
      InsertSolid(grown[index].members, Some(parts[0]), parts[1..], value, clean);
    }
  }

  lemma {:induction false} RebuildSolid(parser: Parser, order: seq<string>, properties: map<string, string>, clean: string -> bool)
    requires forall i :: 0 <= i < |order| ==> order[i] in properties
    requires forall k :: k in properties ==> AllClean(Parts(parser, k), clean)
    requires RebuildInOrder(parser, order, properties).Done?
    ensures Solid(Obj(RebuildInOrder(parser, order, properties).value), clean)
  {
    hide Solid, Parts, Insert, AllClean;
    if order == [] {
      NothingSolid(clean);
    } else {
      var last, before := order[|order| - 1], order[..|order| - 1];
      RebuildSolid(parser, before, properties, clean);
      InsertSolid(RebuildInOrder(parser, before, properties).value, None, Parts(parser, last), properties[last], clean);
    }
  }

  lemma NothingSolid(clean: string -> bool)
    ensures Solid(Obj(map[]), clean)
  {
  }

  /** A tree whose wrapped form is solid has clean named keys and nothing hollow. */
  lemma {:induction false} SolidIsFilled(printer: Printer, v: Value, clean: string -> bool)
    requires v.Obj? && Indexable(v) && Solid(Wrapped(printer, v), clean)
    ensures NamedKeys(v) && Filled(v) && EveryKey(v, clean)
    decreases v
  {
    hide ParseUsize;
    forall k | k in v.members
      ensures clean(k) && !IsIndex(k) && !IsHollow(v.members[k])
      ensures NamedKeys(v.members[k]) && Filled(v.members[k]) && EveryKey(v.members[k], clean)
    {
      var child, wrapped := v.members[k], Wrapped(printer, v).members[k];
      assert wrapped == WrappedMember(printer, k, child);
      if child.Obj? {
        SolidIsFilled(printer, child, clean);
        assert child.members != map[];
      } else if child.Arr? {
        SolidElements(printer, k, child, clean);
      }
    }
  }

  lemma {:induction false} SolidElements(printer: Printer, k: string, v: Value, clean: string -> bool)
    requires v.Arr? && Indexable(v) && Solid(WrappedMember(printer, k, v), clean)
    ensures NamedKeys(v) && Filled(v) && EveryKey(v, clean) && v.elems != []
    decreases v
  {
    hide ParseUsize, IsIndex;
    var elems := WrappedElements(printer, v);
    assert WrappedMember(printer, k, v).members[k] == Arr(elems);
    assert v.elems != [] && v.elems[|elems| - 1] != Obj(map[]) by {
      assert elems[|elems| - 1] != Obj(map[]);
      assert Wrapped(printer, Obj(map[])) == Obj(map[]);
    }
    forall i | 0 <= i < |v.elems| && v.elems[i].Obj?
      ensures NamedKeys(v.elems[i]) && Filled(v.elems[i]) && EveryKey(v.elems[i], clean)
    {
      assert elems[i] == Wrapped(printer, v.elems[i]);
      SolidIsFilled(printer, v.elems[i], clean);
    }
  }

  // A plain element that arrives first leaves no room for an object before it

  /** Parts that read as indices are in canonical form. */
  ghost predicate CanonicalIndices(p: Path) {
    forall t :: 0 <= t < |p| && IsIndex(p[t]) ==> p[t] == Print(ParseUsize(p[t]).value)
  }

  /** The array in which `p` ends, if it is still one, has something other than an object at index `i`. */
  ghost predicate Occupied(m: Object, parent: Option<string>, p: Path, i: nat)
    requires p != []
    decreases |p|
  {
    if !IsIndex(p[0]) then
      && |p| > 1 && p[0] in m
      && (m[p[0]].Obj? ==> Occupied(m[p[0]].members, Some(p[0]), p[1..], i))
    else
      && parent.Some? && parent.value in m && !m[parent.value].Obj?
      && (m[parent.value].Arr? ==> ElementOccupied(m[parent.value].elems, p, i))
  }

  ghost predicate ElementOccupied(elems: seq<Value>, p: Path, i: nat)
    requires p != [] && IsIndex(p[0])
    decreases |p|, 0
  {
    if |p| == 1 then i < |elems| && !elems[i].Obj?
    else
      var j := ParseUsize(p[0]).value;
      j < |elems| && (elems[j].Obj? ==> Occupied(elems[j].members, Some(p[0]), p[1..], i))
  }

  /** No later insertion changes that. */
  lemma {:induction false} StaysOccupied(m: Object, parent: Option<string>, p: Path, i: nat, q: Path, y: string)
    requires p != [] && q != [] && CanonicalIndices(p) && CanonicalIndices(q)
    requires Occupied(m, parent, p, i) && Insert(m, parent, q, y).Done?
    ensures Occupied(Insert(m, parent, q, y).value, parent, p, i)
    decreases |p|, 1
  {
    hide ParseUsize, Print, InsertNumeric, ElementOccupied;
    if IsIndex(q[0]) {
      if IsIndex(p[0]) && m[parent.value].Arr? {
        ElementStaysOccupied(m[parent.value].elems, p, i, q, y);
      }
    } else if !IsIndex(p[0]) && q[0] == p[0] && |q| > 1 && m[p[0]].Obj? {
      assert CanonicalIndices(p[1..]) && CanonicalIndices(q[1..]);
      StaysOccupied(m[p[0]].members, Some(p[0]), p[1..], i, q[1..], y);
    }
  }

  lemma {:induction false} ElementStaysOccupied(elems: seq<Value>, p: Path, i: nat, q: Path, y: string)
    requires p != [] && q != [] && CanonicalIndices(p) && CanonicalIndices(q) && IsIndex(p[0]) && IsIndex(q[0])
    requires ElementOccupied(elems, p, i) && InsertNumeric(elems, q, y, ParseUsize(q[0]).value).Done?
    ensures ElementOccupied(InsertNumeric(elems, q, y, ParseUsize(q[0]).value).value, p, i)
    decreases |p|, 0
  {
    hide ParseUsize, Print, Insert, Occupied;
    var j := ParseUsize(p[0]).value;
    if |p| > 1 && |q| > 1 && ParseUsize(q[0]).value == j && elems[j].Obj? {
      assert CanonicalIndices(p[1..]) && CanonicalIndices(q[1..]);
      StaysOccupied(elems[j].members, Some(p[0]), p[1..], i, q[1..], y);
    }
  }

  /** The first of the paths in the order fixes what is occupied. */
  lemma {:induction false} RebuildStaysOccupied(parser: Parser, order: seq<string>, properties: map<string, string>, p: Path, i: nat)
    requires forall t :: 0 <= t < |order| ==> order[t] in properties
    requires forall k :: k in properties ==> CanonicalIndices(Parts(parser, k))
    requires order != [] && Parts(parser, order[0]) == p
    requires forall x :: Insert(map[], None, p, x).Done? && Occupied(Insert(map[], None, p, x).value, None, p, i)
    requires RebuildInOrder(parser, order, properties).Done?
    ensures Occupied(RebuildInOrder(parser, order, properties).value, None, p, i)
  {
    hide Occupied, Parts, Insert, CanonicalIndices;
    var last, before := order[|order| - 1], order[..|order| - 1];
    if |order| > 1 {
      RebuildStaysOccupied(parser, before, properties, p, i);
      StaysOccupied(RebuildInOrder(parser, before, properties).value, None, p, i, Parts(parser, last), properties[last]);
    } else {
      assert RebuildInOrder(parser, before, properties) == Done(map[]);
    }
  }

  /** Inserting `p` into an empty map occupies index `i`, which the wrapped tree `w` leaves to an object. */
  ghost predicate Displaces(parent: Option<string>, p: Path, i: nat, w: Object) {
    && p != []
    && (forall x :: Insert(map[], parent, p, x).Done? && Occupied(Insert(map[], parent, p, x).value, parent, p, i))
    && !Occupied(w, parent, p, i)
  }

  lemma DisplacesBelowName(parent: Option<string>, k: string, p: Path, i: nat, w: Object)
    requires !IsIndex(k) && k in w && w[k].Obj? && Displaces(Some(k), p, i, w[k].members)
    ensures Displaces(parent, [k] + p, i, w)
  {
    assert ([k] + p)[1..] == p;
    forall x ensures Insert(map[], parent, [k] + p, x).Done? && Occupied(Insert(map[], parent, [k] + p, x).value, parent, [k] + p, i) {
      assert Insert(map[], parent, [k] + p, x) == Done(map[k := Obj(Insert(map[], Some(k), p, x).value)]);
    }
  }

  lemma DisplacesBelowElement(k: string, j: nat, p: Path, i: nat, elems: seq<Value>)
    requires j < USIZE_BOUND && j < |elems| && elems[j].Obj? && Displaces(Some(Print(j)), p, i, elems[j].members)
    ensures Displaces(Some(k), [Print(j)] + p, i, map[k := Arr(elems)])
  {
    hide Print;
    ParsePrint(j);
    hide ParseUsize;
    var q, w := [Print(j)] + p, map[k := Arr(elems)];
    assert q[0] == Print(j) && q[1..] == p && IsIndex(q[0]);
    assert !Occupied(w, Some(k), q, i) by {
      assert !ElementOccupied(w[k].elems, q, i);
    }
    forall x ensures Insert(map[], Some(k), q, x).Done? && Occupied(Insert(map[], Some(k), q, x).value, Some(k), q, i) {
      var built := Grown([], j + 1, Obj(map[]))[j := Obj(Insert(map[], Some(Print(j)), p, x).value)];
      assert Insert(map[], Some(k), q, x) == Done(map[k := Arr(built)]);
    }
  }

  lemma DisplacesElement(k: string, i: nat, j: nat, elems: seq<Value>)
    requires i < j < USIZE_BOUND && j < |elems| && elems[i].Obj?
    ensures Displaces(Some(k), [Print(j)], i, map[k := Arr(elems)])
  {
    hide Print;
    ParsePrint(j);
    hide ParseUsize;
    var q, w := [Print(j)], map[k := Arr(elems)];
    assert q[0] == Print(j) && IsIndex(q[0]);
    assert !Occupied(w, Some(k), q, i) by {
      assert !ElementOccupied(w[k].elems, q, i);
    }
    forall x ensures Insert(map[], Some(k), [Print(j)], x).Done? && Occupied(Insert(map[], Some(k), [Print(j)], x).value, Some(k), [Print(j)], i) {
      assert Insert(map[], Some(k), [Print(j)], x) == Done(map[k := Arr(Grown([], j + 1, Null)[j := Str(x)])]);
    }
  }

  lemma NamedMembers(v: Value)
    requires v.Obj? && NamedKeys(v)
    ensures forall k :: k in v.members ==> !IsIndex(k) && NamedKeys(v.members[k])
  {
  }

  lemma {:induction false} DisplacingLeaf(printer: Printer, v: Value) returns (p: Path, i: nat)
    requires v.Obj? && NamedKeys(v) && !ScalarsFirst(v)
    ensures p in LeafPaths(v) && forall parent :: Displaces(parent, p, i, Wrapped(printer, v).members)
    decreases v
  {
    hide Displaces, LeafPaths, NamedKeys, ParseUsize;
    assert exists k :: k in v.members && !ScalarsFirst(v.members[k]);
    NamedMembers(v);
    var k :| k in v.members && !ScalarsFirst(v.members[k]);
    var child, q := v.members[k], [];
    var wrapped := Wrapped(printer, v).members[k];
    assert wrapped == WrappedMember(printer, k, child);
    assert child.Obj? || child.Arr?;
    if child.Obj? {
      q, i := DisplacingLeaf(printer, child);
      assert wrapped == Wrapped(printer, child);
    } else {
      q, i := DisplacingElement(printer, child, k);
    }
    assert wrapped.Obj? && Displaces(Some(k), q, i, wrapped.members);
    InMemberPaths(v, k, q);
    p := [k] + q;
    forall parent ensures Displaces(parent, p, i, Wrapped(printer, v).members) {
      DisplacesBelowName(parent, k, q, i, Wrapped(printer, v).members);
    }
  }

  lemma {:induction false} DisplacingElement(printer: Printer, v: Value, k: string) returns (p: Path, i: nat)
    requires v.Arr? && NamedKeys(v) && !ScalarsFirst(v)
    ensures p in LeafPaths(v) && Displaces(Some(k), p, i, WrappedMember(printer, k, v).members)
    decreases v
  {
    hide Displaces, LeafPaths;
    var elems := WrappedElements(printer, v);
    if a, b :| 0 <= a < b < |v.elems| && v.elems[a].Obj? && !v.elems[b].Obj? {
      InArrayPaths(v, b, []);
      assert [Print(b)] + [] == [Print(b)];
      p, i := [Print(b)], a;
      assert elems[a] == Wrapped(printer, v.elems[a]);
      DisplacesElement(k, a, b, elems);
    } else {
      var j :| 0 <= j < |v.elems| && v.elems[j].Obj? && !ScalarsFirst(v.elems[j]);
      var q;
      q, i := DisplacingLeaf(printer, v.elems[j]);
      InArrayPaths(v, j, q);
      p := [Print(j)] + q;
      assert elems[j] == Wrapped(printer, v.elems[j]);
      DisplacesBelowElement(k, j, q, i, elems);
    }
  }

  lemma {:induction false} LeavesCanonical(v: Value, p: Path)
    requires NamedKeys(v) && p in LeafPaths(v)
    ensures CanonicalIndices(p)
    decreases v
  {
    match v
    case Obj(m) =>
      ObjectPathHead(v, p);
      LeavesCanonical(m[p[0]], p[1..]);
      assert p == [p[0]] + p[1..];
    case Arr(elems) =>
      ArrayPathHead(v, p);
      var i :| 0 <= i < |elems| && p != [] && p[0] == Print(i) && p[1..] in ElementPaths(elems[i]);
      ParsePrint(i);
      if elems[i].Obj? {
        LeavesCanonical(elems[i], p[1..]);
      }
      assert p == [p[0]] + p[1..];
    case _ =>
  }

  // The exact condition

  /** Some order of the pairs does not give the wrapped tree back when an object comes before a plain element. */
  lemma ScalarsMustComeFirst(printer: Printer, parser: Parser, v: Value, pairs: map<string, string>)
    requires v.Obj? && KeepsIndices(printer) && NamedRoots(printer, v) && Faithful(printer, parser, v)
    requires NamedKeys(v) && !ScalarsFirst(v) && FlattensTo(printer, v, pairs)
    ensures !RoundTrips(printer, parser, v, pairs)
  {
    hide LeafPaths, LeafText, KeepsIndices, NamedRoots, FlattensTo, KeyText, Parts, NamedKeys, ScalarsFirst, Insert, Occupied, CanonicalIndices;
    FlattenedIsLeaves(printer, parser, v, pairs);
    var p, i := DisplacingLeaf(printer, v);
    assert Displaces(None, p, i, Wrapped(printer, v).members);
    var first := KeyText(printer, p);
    var order := [first] + SomeOrder(pairs.Keys - {first});
    EnumeratesAppend([first], {first}, SomeOrder(pairs.Keys - {first}), pairs.Keys - {first});
    assert {first} + (pairs.Keys - {first}) == pairs.Keys;
    assert Enumerates(order, pairs.Keys);
    if RoundTrips(printer, parser, v, pairs) {
      forall key | key in pairs ensures CanonicalIndices(Parts(parser, key)) {
        var q :| q in LeafPaths(v) && KeyText(printer, q) == key;
        LeavesCanonical(v, q);
      }
      RebuildStaysOccupied(parser, order, pairs, p, i);
      assert false;
    }
  }

  /** What comes back is solid, so only a tree with clean named keys and nothing hollow can. */
  lemma ReturningIsFilled(printer: Printer, parser: Parser, v: Value, pairs: map<string, string>, clean: string -> bool)
    requires v.Obj? && Indexable(v) && RoundTrips(printer, parser, v, pairs)
    requires forall k :: k in pairs ==> AllClean(Parts(parser, k), clean)
    ensures NamedKeys(v) && Filled(v) && EveryKey(v, clean)
  {
    hide Parts, AllClean, Indexable, Solid, NamedKeys, Filled, EveryKey, RebuildInOrder;
    var order := SomeOrder(pairs.Keys);
    assert Enumerates(order, pairs.Keys);
    RebuildSolid(parser, order, pairs, clean);
    SolidIsFilled(printer, v, clean);
  }

  /**
   * Under faithful printing, every iteration order gives the wrapped tree back exactly when no key reads
   * as an index, nothing is hollow, and no array holds an object before a plain element.
   */
  lemma RoundTripExactly(printer: Printer, parser: Parser, v: Value, pairs: map<string, string>)
    requires v.Obj? && KeepsIndices(printer) && NamedRoots(printer, v) && Faithful(printer, parser, v)
    requires Indexable(v) && FlattensTo(printer, v, pairs)
    ensures RoundTrips(printer, parser, v, pairs) <==> NamedKeys(v) && Filled(v) && ScalarsFirst(v)
  {
    hide KeepsIndices, NamedRoots, Faithful, FlattensTo, NamedKeys, Filled, ScalarsFirst, RebuildInOrder, Parts;
    if NamedKeys(v) && Filled(v) && ScalarsFirst(v) {
      forall order | Enumerates(order, pairs.Keys)
        ensures (forall i :: 0 <= i < |order| ==> order[i] in pairs)
        ensures RebuildInOrder(parser, order, pairs) == Done(Wrapped(printer, v).members)
      {
        RoundTripHolds(printer, parser, v, pairs, order);
      }
    }
    if RoundTrips(printer, parser, v, pairs) {
      ReturningIsFilled(printer, parser, v, pairs, _ => true);
      if !ScalarsFirst(v) {
        ScalarsMustComeFirst(printer, parser, v, pairs);
      }
    }
  }
}
