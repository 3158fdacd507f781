/** Different keys that are cut into equal parts, as env keys that differ in case only: when their order matters. */
module EqualParts {
  import opened Values
  import opened Decimal
  import opened Keys
  import opened Confluence
  import opened PanicFreedom
  import opened Agreement
  import opened KeyValueMerge

  ghost predicate PlainPaths(items: set<Item>) {
    forall e :: e in items ==> e.path != [] && forall i :: 0 <= i < |e.path| ==> !IsIndex(e.path[i])
  }

  lemma PlainBelow(items: set<Item>, k: string)
    requires PlainPaths(items)
    ensures PlainPaths(Below(items, k))
  {
    hide IsIndex;
  }

  lemma PlainSub(items: set<Item>, hop: Hop)
    requires PlainPaths(items)
    ensures PlainPaths(Sub(items, hop))
    ensures hop.At? ==> Sub(items, hop) == {}
  {
    hide IsIndex, PlainPaths;
    match hop
    case Into(k) => PlainBelow(items, k);
    case At(k, i) =>
      NothingIndexed(items);
      assert BelowElement(items, k, i) == {};
  }

  lemma NothingIndexed(items: set<Item>)
    requires PlainPaths(items)
    ensures PlainPaths({}) && forall e, k :: e in items ==> !Indexed(e, k)
  {
    hide IsIndex;
  }

  lemma {:induction false} PlainNeverClash(e: Item, f: Item)
    requires PlainPaths({e, f})
    ensures e.path != [] && f.path != [] && !Clashes(e, f)
    decreases |e.path|
  {
    hide IsIndex;
    assert e in {e, f} && f in {e, f};
    if |e.path| > 1 && |f.path| > 1 {
      assert PlainPaths({Rest(e), Rest(f)});
      PlainNeverClash(Rest(e), Rest(f));
    }
  }

  /** The names along a route. */
  function NamesOn(route: seq<Hop>): Path {
    if route == [] then [] else [route[0].k] + NamesOn(route[1..])
  }

  /** What arrives by an open route comes from an entry along it, and no entry ends on the way. */
  lemma {:induction false} ArrivesFrom(items: set<Item>, route: seq<Hop>, e: Item) returns (origin: Item)
    requires PlainPaths(items) && Open(items, route) && e in Arriving(items, route)
    ensures origin in items && origin.path == NamesOn(route) + e.path && origin.text == e.text
    ensures forall g :: g in items ==> !(g.path <= NamesOn(route))
    decreases |route|
  {
    hide IsIndex, PlainPaths, Sub;
    if route == [] {
      origin := e;
      assert forall g :: g in items ==> g.path != [] by { PathsNotEmpty(items); }
    } else {
      PlainSub(items, route[0]);
      var k, rest := route[0].k, NamesOn(route[1..]);
      if route[0].At? {
        NothingFromNothing(route[1..]);
      }
      var next := ArrivesFrom(Sub(items, route[0]), route[1..], e);
      origin := Unrest(items, route[0], next);
      assert origin.path == [k] + next.path;
      SubInto(items, k);
      NobodyEnds(items, k, rest);
    }
  }

  lemma PathsNotEmpty(items: set<Item>)
    requires PlainPaths(items)
    ensures forall g :: g in items ==> g.path != [] && !IsIndex(g.path[0])
  {
  }

  /** An entry that ends on the way ends at the first name, or on the rest of the way below it. */
  lemma NobodyEnds(items: set<Item>, k: string, rest: Path)
    requires PlainPaths(items)
    ensures (exists g :: g in items && g.path <= [k] + rest) ==>
      HasName(items, k, false) || exists g' :: g' in Below(items, k) && g'.path <= rest
  {
    hide IsIndex;
    PathsNotEmpty(items);
    forall g | g in items && g.path <= [k] + rest
      ensures HasName(items, k, false) || exists g' :: g' in Below(items, k) && g'.path <= rest
    {
      assert ([k] + rest)[1..] == rest;
      PrefixTail(g.path, [k] + rest);
      assert Named(g, k);
      if |g.path| > 1 {
        assert Rest(g) in Below(items, k);
      }
    }
  }

  function RouteOf(p: Path): seq<Hop> {
    if |p| <= 1 then [] else [Into(p[0])] + RouteOf(p[1..])
  }

  /** The entry as the object at the end of its own route sees it. */
  function AtEnd(e: Item): Item
    requires e.path != []
    decreases |e.path|
  {
    if |e.path| == 1 then e else AtEnd(Rest(e))
  }

  lemma {:induction false} ArrivesAtEnd(items: set<Item>, e: Item)
    requires PlainPaths(items) && e in items && e.path != []
    requires forall g :: g in items ==> !ProperPrefix(g.path, e.path)
    ensures Open(items, RouteOf(e.path)) && AtEnd(e) in Arriving(items, RouteOf(e.path))
    ensures AtEnd(e).path == [e.path[|e.path| - 1]] && AtEnd(e).text == e.text
    decreases |e.path|
  {
    hide IsIndex;
    if |e.path| > 1 {
      var k, items' := e.path[0], Below(items, e.path[0]);
      PlainBelow(items, k);
      SubInto(items, k);
      assert Named(e, k) && Rest(e) in items';
      ShorterKey(items, e);
      forall g' | g' in items' ensures !ProperPrefix(g'.path, Rest(e).path) {
        var g :| g in items && Named(g, k) && |g.path| > 1 && Rest(g) == g';
        assert g.path == [k] + g'.path && e.path == [k] + Rest(e).path;
        assert ProperPrefix(g'.path, Rest(e).path) ==> ProperPrefix(g.path, e.path);
      }
      ArrivesAtEnd(items', Rest(e));
    }
  }

  lemma ShorterKey(items: set<Item>, e: Item)
    requires |e.path| > 1
    ensures HasName(items, e.path[0], false) ==> exists g :: g in items && ProperPrefix(g.path, e.path)
  {
    if g :| g in items && Named(g, e.path[0]) && |g.path| == 1 {
      assert g.path == e.path[..1];
    }
  }

  /** Keys that stop at one minimal path carry one text. */
  ghost predicate MinimalTextsAgree(parser: Parser, properties: map<string, string>) {
    var paths := PathsOf(parser, properties.Keys);
    forall k, k' :: k in properties && k' in properties && Parts(parser, k) == Parts(parser, k') && Minimal(paths, Parts(parser, k)) ==>
      properties[k] == properties[k']
  }

  /**
   * For keys without index parts, in which different keys may be cut into equal parts: all orders agree exactly
   * when keys with equal parts carry equal texts wherever no shorter key replaces them.
   */
  lemma EqualPartsAgree(parser: Parser, properties: map<string, string>)
    requires IndexFree(PathsOf(parser, properties.Keys))
    ensures OrdersAgree(parser, properties) <==> MinimalTextsAgree(parser, properties)
  {
    hide OrdersAgree, Parts, IsIndex, Settled, Tidy, MinimalTextsAgree;
    var items := ItemsOf(parser, properties);
    assert PlainPaths(items);
    IndexFreeTidy(items);
    AgreesExactly(parser, properties);
    if Settled(items) {
      SettledTexts(parser, properties);
    }
    if MinimalTextsAgree(parser, properties) {
      TextsSettle(parser, properties);
    }
  }

  lemma IndexFreeTidy(items: set<Item>)
    requires PlainPaths(items)
    ensures Tidy(items)
  {
    hide IsIndex, Clashes;
    forall e, f | e in items && f in items ensures e.path != [] && f.path != [] && !Clashes(e, f) {
      PlainNeverClash(e, f);
    }
  }

  lemma SettledTexts(parser: Parser, properties: map<string, string>)
    requires PlainPaths(ItemsOf(parser, properties)) && Settled(ItemsOf(parser, properties))
    ensures MinimalTextsAgree(parser, properties)
  {
    hide Parts, IsIndex, PlainPaths, Open, Arriving, GapFree;
    var items := ItemsOf(parser, properties);
    forall k, k' | k in properties && k' in properties && Parts(parser, k) == Parts(parser, k')
        && Minimal(PathsOf(parser, properties.Keys), Parts(parser, k))
      ensures properties[k] == properties[k']
    {
      var e, e' := ItemOf(parser, properties, k), ItemOf(parser, properties, k');
      assert e in items && e' in items;
      ArrivesAtEnd(items, e);
      ArrivesAtEnd(items, e');
      SameEnd(e, e');
      assert SameSpot(AtEnd(e), AtEnd(e'));
    }
  }

  lemma {:induction false} SameEnd(e: Item, f: Item)
    requires e.path != [] && e.path == f.path && e.parent == f.parent
    ensures AtEnd(e).path == AtEnd(f).path && AtEnd(e).parent == AtEnd(f).parent
    decreases |e.path|
  {
    if |e.path| > 1 {
      SameEnd(Rest(e), Rest(f));
    }
  }

  lemma TextsSettle(parser: Parser, properties: map<string, string>)
    requires PlainPaths(ItemsOf(parser, properties)) && MinimalTextsAgree(parser, properties)
    ensures Settled(ItemsOf(parser, properties))
  {
    hide Parts, IsIndex, PlainPaths, Open, Arriving;
    var items := ItemsOf(parser, properties);
    forall route | Open(items, route) ensures TextsAgree(Arriving(items, route)) && GapFree(Arriving(items, route)) {
      var here := Arriving(items, route);
      PlainArriving(items, route);
      PathsNotEmpty(here);
      forall e, f | e in here && f in here && SameSpot(e, f) ensures e.text == f.text {
        var e0 := ArrivesFrom(items, route, e);
        var f0 := ArrivesFrom(items, route, f);
        var k :| k in properties && ItemOf(parser, properties, k) == e0;
        var k' :| k' in properties && ItemOf(parser, properties, k') == f0;
        MinimalAtEnd(parser, properties, NamesOn(route), e0, k);
      }
      NothingIndexed(here);
    }
  }

  lemma MinimalAtEnd(parser: Parser, properties: map<string, string>, names: Path, e: Item, k: string)
    requires k in properties && e == ItemOf(parser, properties, k)
    requires |e.path| == |names| + 1 && names <= e.path
    requires forall g :: g in ItemsOf(parser, properties) ==> !(g.path <= names)
    ensures Minimal(PathsOf(parser, properties.Keys), Parts(parser, k))
  {
    hide Parts;
    ProperPrefixes(e.path, names);
    forall q | q in PathsOf(parser, properties.Keys) ensures !ProperPrefix(q, e.path) {
      var k' :| k' in properties && Parts(parser, k') == q;
      assert ItemOf(parser, properties, k') in ItemsOf(parser, properties);
    }
  }

  lemma ProperPrefixes(p: Path, names: Path)
    requires |p| == |names| + 1 && names <= p
    ensures forall q :: ProperPrefix(q, p) ==> q <= names
  {
    forall q | ProperPrefix(q, p) ensures q <= names {
      assert names == p[..|names|];
    }
  }

  lemma {:induction false} PlainArriving(items: set<Item>, route: seq<Hop>)
    requires PlainPaths(items)
    ensures PlainPaths(Arriving(items, route))
    decreases |route|
  {
    hide PlainPaths, Sub;
    if route != [] {
      PlainSub(items, route[0]);
      PlainArriving(Sub(items, route[0]), route[1..]);
    }
  }
}
