/** What one insertion does to any tree: what is read afterwards, where, and when it panics. */
module Insertion {
  import opened Values
  import opened Decimal
  import opened Rebuild
  import opened PanicFreedom

  function Elements(m: Object, k: Option<string>): seq<Value> {
    if k.Some? && k.value in m && m[k.value].Arr? then m[k.value].elems else []
  }

  /** The value that following an entry's parts finds, where an index leads into the array under the part before it. */
  function Spot(m: Object, e: Item): Option<Value>
    requires e.path != []
    decreases |e.path|
  {
    var found :=
      if !IsIndex(e.path[0]) then (if e.path[0] in m then Some(m[e.path[0]]) else None)
      else if Position(e) < |Elements(m, e.parent)| then Some(Elements(m, e.parent)[Position(e)])
      else None;
    if |e.path| == 1 then found
    else if found.Some? && found.value.Obj? then Spot(found.value.members, Rest(e))
    else None
  }

  /** A name on the way, not the last part, is bound to something other than an object. */
  predicate Blocked(m: Object, e: Item)
    requires e.path != []
    decreases |e.path|
  {
    && |e.path| > 1
    && var here := Spot(m, Item(e.parent, e.path[..1], e.text));
       && here.Some?
       && if here.value.Obj? then Blocked(here.value.members, Rest(e)) else !IsIndex(e.path[0])
  }

  /** An index finds no part before it or no array under that part, or goes deeper through an element that is no object. */
  predicate Collides(m: Object, e: Item)
    requires e.path != []
    decreases |e.path|
  {
    || (IsIndex(e.path[0]) && (e.parent.None? || (e.parent.value in m && !m[e.parent.value].Arr?)))
    || (|e.path| > 1 &&
        var here := Spot(m, Item(e.parent, e.path[..1], e.text));
        here.Some? && if here.value.Obj? then Collides(here.value.members, Rest(e)) else IsIndex(e.path[0]))
  }

  /** On any map, an insertion panics exactly when its parts collide with what is there. */
  lemma {:induction false} InsertPanicsExactly(m: Object, e: Item)
    requires e.path != []
    ensures Insert(m, e.parent, e.path, e.text).Panic? <==> Collides(m, e)
    decreases |e.path|
  {
    hide ParseUsize;
    assert e.path[..1][0] == e.path[0];
    if |e.path| > 1 {
      var here := Spot(m, Item(e.parent, e.path[..1], e.text));
      var inner := if here.Some? && here.value.Obj? then here.value.members else map[];
      InsertPanicsExactly(inner, Rest(e));
    }
  }

  /** The object that an entry goes on in: the one that is there, or a new one. */
  function Inner(m: Object, e: Item): Object
    requires e.path != []
  {
    var here := Spot(m, Item(e.parent, e.path[..1], e.text));
    if here.Some? && here.value.Obj? then here.value.members else map[]
  }

  /** What going deeper leaves behind: one name or one element is bound to the changed object. */
  lemma InsertDeeper(m: Object, e: Item)
    requires |e.path| > 1 && Insert(m, e.parent, e.path, e.text).Done?
    ensures
      var here := Spot(m, Item(e.parent, e.path[..1], e.text));
      var after := Insert(m, e.parent, e.path, e.text).value;
      if here.None? || here.value.Obj? then
        && Insert(Inner(m, e), Rest(e).parent, Rest(e).path, e.text).Done?
        && var changed := Obj(Insert(Inner(m, e), Rest(e).parent, Rest(e).path, e.text).value);
           if IsIndex(e.path[0]) then
             && e.parent.Some?
             && after == m[e.parent.value := Arr(Grown(Elements(m, e.parent), Position(e) + 1, Obj(map[]))[Position(e) := changed])]
           else after == m[e.path[0] := changed]
      else !IsIndex(e.path[0]) && after == m
  {
    hide ParseUsize;
    assert e.path[..1][0] == e.path[0];
    var rest := Insert(Inner(m, e), Rest(e).parent, Rest(e).path, e.text);
    if IsIndex(e.path[0]) {
      var grown := Grown(Elements(m, e.parent), Position(e) + 1, Obj(map[]));
      assert grown[Position(e)].Obj? ==> grown[Position(e)].members == Inner(m, e);
    }
  }

  /**
   * On any map, an insertion that does not panic leaves the map as it was when a name on the way is bound to
   * something other than an object; otherwise following its parts finds its text, whatever was there before.
   */
  lemma {:induction false} InsertReads(m: Object, e: Item)
    requires e.path != [] && Insert(m, e.parent, e.path, e.text).Done?
    ensures
      var after := Insert(m, e.parent, e.path, e.text).value;
      if Blocked(m, e) then after == m else Spot(after, e) == Some(Str(e.text))
    decreases |e.path|
  {
    hide ParseUsize;
    if |e.path| > 1 {
      assert e.path[..1][0] == e.path[0];
      InsertDeeper(m, e);
      var here := Spot(m, Item(e.parent, e.path[..1], e.text));
      hide Insert;
      if here.None? || here.value.Obj? {
        InsertReads(Inner(m, e), Rest(e));
        NothingBlocks(Rest(e));
        var elems := Elements(m, e.parent);
        if IsIndex(e.path[0]) && here.Some? {
          assert elems[Position(e) := here.value] == elems;
        }
      }
    }
  }

  lemma NothingBlocks(e: Item)
    requires e.path != []
    ensures !Blocked(map[], e)
  {
    if |e.path| > 1 {
      assert e.path[..1][0] == e.path[0];
    }
  }

  /** Following the parts of `f` leads past everything that inserting `e` writes. */
  predicate Apart(e: Item, f: Item)
    requires e.path != [] && f.path != []
    decreases |e.path|
  {
    if IsIndex(e.path[0]) && IsIndex(f.path[0]) then
      || e.parent != f.parent || Position(e) != Position(f)
      || (|e.path| > 1 && |f.path| > 1 && Apart(Rest(e), Rest(f)))
    else if IsIndex(e.path[0]) then e.parent != Some(f.path[0])
    else if IsIndex(f.path[0]) then f.parent != Some(e.path[0])
    else e.path[0] != f.path[0] || (|e.path| > 1 && |f.path| > 1 && Apart(Rest(e), Rest(f)))
  }

  /** The filler that appears at the end of `f`: it was beyond the end of an array that `e` makes longer. */
  function Padding(m: Object, e: Item, f: Item): Option<Value>
    requires e.path != [] && f.path != []
    decreases |e.path|
  {
    if IsIndex(e.path[0]) && IsIndex(f.path[0]) && e.parent == f.parent && Position(e) != Position(f) then
      if |f.path| == 1 && |Elements(m, e.parent)| <= Position(f) < Position(e)
      then Some(Filler(e))
      else None
    else if |e.path| > 1 && |f.path| > 1 && !Diverge(e, f) then
      var here := Spot(m, Item(e.parent, e.path[..1], e.text));
      if here.None? then Padding(map[], Rest(e), Rest(f))
      else if here.value.Obj? then Padding(here.value.members, Rest(e), Rest(f))
      else None
    else None
  }

  /** The two entries part at their first part. */
  predicate Diverge(e: Item, f: Item)
    requires e.path != [] && f.path != []
  {
    if IsIndex(e.path[0]) && IsIndex(f.path[0]) then e.parent != f.parent || Position(e) != Position(f)
    else e.path[0] != f.path[0]
  }

  /** On any map, an insertion changes nothing elsewhere, except that it pads an array it makes longer. */
  lemma {:induction false} ElsewhereAsBefore(m: Object, e: Item, f: Item)
    requires e.path != [] && f.path != [] && Apart(e, f)
    requires Insert(m, e.parent, e.path, e.text).Done?
    ensures
      var after := Insert(m, e.parent, e.path, e.text).value;
      Spot(after, f) == if Padding(m, e, f).Some? then Padding(m, e, f) else Spot(m, f)
    decreases |e.path|
  {
    hide ParseUsize;
    if Diverge(e, f) {
      PartHere(m, e, f);
    } else {
      assert e.path[..1][0] == e.path[0];
      InsertDeeper(m, e);
      var here := Spot(m, Item(e.parent, e.path[..1], e.text));
      hide Insert;
      if here.None? || here.value.Obj? {
        ElsewhereAsBefore(Inner(m, e), Rest(e), Rest(f));
        NothingToRead(Rest(f));
      }
    }
  }

  lemma NothingToRead(f: Item)
    requires f.path != []
    ensures Spot(map[], f) == None
  {
  }

  /** An insertion binds one name, or writes one position of one array that it makes long enough. */
  lemma InsertWrites(m: Object, e: Item) returns (x: Value)
    requires e.path != [] && Insert(m, e.parent, e.path, e.text).Done?
    ensures
      var after := Insert(m, e.parent, e.path, e.text).value;
      if IsIndex(e.path[0]) then
        && e.parent.Some?
        && after == m[e.parent.value := Arr(Grown(Elements(m, e.parent), Position(e) + 1, Filler(e))[Position(e) := x])]
      else after == m || after == m[e.path[0] := x]
  {
    hide ParseUsize;
    if |e.path| == 1 {
      x := Str(e.text);
    } else {
      InsertDeeper(m, e);
      x := Obj(map[]);
      hide Insert;
      var here := Spot(m, Item(e.parent, e.path[..1], e.text));
      if here.None? || here.value.Obj? {
        x := Obj(Insert(Inner(m, e), Rest(e).parent, Rest(e).path, e.text).value);
      }
    }
  }

  lemma PartHere(m: Object, e: Item, f: Item)
    requires e.path != [] && f.path != [] && Diverge(e, f) && Apart(e, f)
    requires Insert(m, e.parent, e.path, e.text).Done?
    ensures
      var after := Insert(m, e.parent, e.path, e.text).value;
      Spot(after, f) == if Padding(m, e, f).Some? then Padding(m, e, f) else Spot(m, f)
  {
    hide ParseUsize, Insert;
    var x := InsertWrites(m, e);
    if |f.path| > 1 {
      NothingToRead(Rest(f));
    }
  }
}
