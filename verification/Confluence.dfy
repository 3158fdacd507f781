/** Rebuilding is a function of the set of entries: insertion keeps the canonical form, which determines the tree. */
module Confluence {
  import opened Values
  import opened Decimal
  import opened Keys
  import opened Rebuild
  import opened Canonical

  lemma TailsUnderAdd(done: set<Path>, p: Path, k: string)
    requires p != []
    ensures |p| > 1 && p[0] == k ==> TailsUnder(done + {p}, k) == TailsUnder(done, k) + {p[1..]}
    ensures |p| == 1 || p[0] != k ==> TailsUnder(done + {p}, k) == TailsUnder(done, k)
  {
    forall q ensures q in TailsUnder(done + {p}, k) <==> q in TailsUnder(done, k) || (|p| > 1 && p[0] == k && q == p[1..]) {
      InTailsUnder(done + {p}, k, q);
      InTailsUnder(done, k, q);
      if |p| > 1 && p[0] == k {
        assert p == [k] + p[1..];
      }
    }
  }

  lemma EmptyBuilds(parent: Option<string>, all: Entries)
    ensures Builds(Obj(map[]), parent, all, {})
  {
  }

  lemma {:induction false} InsertBuilds(v: Value, parent: Option<string>, all: Entries, done: set<Path>, p: Path)
    requires Good(all.Keys, parent) && done <= all.Keys && p in all.Keys
    requires Builds(v, parent, all, done)
    ensures p != [] && Insert(v.members, parent, p, all[p]).Done?
    ensures Builds(Obj(Insert(v.members, parent, p, all[p]).value), parent, all, done + {p})
    decreases |p|, 2
  {
    GoodUnfold(all.Keys, parent);
    if IsIndex(p[0]) {
      InsertIndexBuilds(v, parent, all, done, p);
    } else {
      InsertNameBuilds(v, parent, all, done, p);
    }
  }

  lemma HeadsAdd(done: set<Path>, p: Path)
    requires p != []
    ensures forall k :: HasHead(done + {p}, k) <==> HasHead(done, k) || k == p[0]
    ensures HasIndexHead(done + {p}) <==> HasIndexHead(done) || IsIndex(p[0])
  {
    assert p in done + {p};
    forall k ensures HasHead(done + {p}, k) <==> HasHead(done, k) || k == p[0] {
      if HasHead(done, k) {
        var q :| q in done && q != [] && q[0] == k;
        assert q in done + {p};
      }
    }
    if HasIndexHead(done) {
      var q :| q in done && q != [] && IsIndex(q[0]);
      assert q in done + {p};
    }
  }

  lemma {:induction false} NameUntouched(e: Value, k: string, all: Entries, done: set<Path>, p: Path)
    requires NameBuilt(e, k, all, done)
    requires p != [] && p[0] != k
    ensures NameBuilt(e, k, all, done + {p})
  {
    TailsUnderAdd(done, p, k);
    assert [k] != p;
  }

  lemma {:induction false} ElementUntouched(e: Value, s: string, all: Entries, done: set<Path>, p: Path)
    requires ElementBuilt(e, s, all, done)
    requires p != [] && p[0] != s
    ensures ElementBuilt(e, s, all, done + {p})
  {
    TailsUnderAdd(done, p, s);
    assert [s] != p;
  }

  lemma {:induction false} ArrayUntouched(a: Value, all: Entries, done: set<Path>, p: Path)
    requires ArrayBuilt(a, all, done)
    requires p != [] && !IsIndex(p[0])
    ensures ArrayBuilt(a, all, done + {p})
  {
    hide ElementBuilt, TailsUnder, ParseUsize, Print;
    HeadsAdd(done, p);
    forall i | 0 <= i < |a.elems| ensures ElementBuilt(a.elems[i], Print(i), all, done + {p}) {
      ParsePrint(i);
      ElementUntouched(a.elems[i], Print(i), all, done, p);
    }
  }

  /** A path added below one name touches only the entry of that name. */
  lemma {:induction false} BindName(v: Value, parent: Option<string>, all: Entries, done: set<Path>, p: Path, e: Value)
    requires Builds(v, parent, all, done)
    requires p != [] && !IsIndex(p[0])
    requires HasIndexHead(done) ==> parent != Some(p[0])
    requires NameBuilt(e, p[0], all, done + {p})
    ensures Builds(Obj(v.members[p[0] := e]), parent, all, done + {p})
  {
    hide NameBuilt, ArrayBuilt, HasHead, HasIndexHead, TailsUnder;
    var members := v.members[p[0] := e];
    HeadsAdd(done, p);
    forall k | k in members && HasHead(done + {p}, k) && !IsIndex(k)
      ensures NameBuilt(members[k], k, all, done + {p})
    {
      if k != p[0] {
        NameUntouched(v.members[k], k, all, done, p);
      }
    }
    if HasIndexHead(done + {p}) && parent.Some? && parent.value in members {
      ArrayUntouched(v.members[parent.value], all, done, p);
    }
  }

  lemma NothingUnder(done: set<Path>, k: string)
    requires !HasHead(done, k)
    ensures TailsUnder(done, k) == {}
  {
    forall q ensures q !in TailsUnder(done, k) {
      InTailsUnder(done, k, q);
      assert ([k] + q)[0] == k;
    }
  }

  /** A name is bound exactly when a finished path starts with it, and it never collides with the array of its map. */
  lemma {:induction false} NameEntry(v: Value, parent: Option<string>, all: Entries, done: set<Path>, k: string)
    requires LevelGood(all.Keys, parent) && done <= all.Keys
    requires Builds(v, parent, all, done)
    requires HasHead(all.Keys, k) && !IsIndex(k)
    ensures HasIndexHead(done) ==> parent != Some(k)
    ensures k in v.members <==> HasHead(done, k)
    ensures k in v.members ==> NameBuilt(v.members[k], k, all, done)
  {
    hide ArrayBuilt, NameBuilt;
  }

  lemma {:induction false} InsertNameBuilds(v: Value, parent: Option<string>, all: Entries, done: set<Path>, p: Path)
    requires Good(all.Keys, parent) && done <= all.Keys && p in all.Keys && p != [] && !IsIndex(p[0])
    requires Builds(v, parent, all, done)
    ensures Insert(v.members, parent, p, all[p]).Done?
    ensures Builds(Obj(Insert(v.members, parent, p, all[p]).value), parent, all, done + {p})
    decreases |p|, 0
  {
    hide Good, LevelGood, ArrayBuilt, HasHead, HasIndexHead, TailsUnder, InsertNumeric, ParseUsize;
    GoodUnfold(all.Keys, parent);
    var k := p[0];
    HeadsAdd(all.Keys, p);
    assert all.Keys + {p} == all.Keys;
    NameEntry(v, parent, all, done, k);
    TailsUnderAdd(done, p, k);
    if |p| == 1 {
      assert p == [k];
      BindName(v, parent, all, done, p, Str(all[p]));
    } else if [k] in done {
      HeadsAdd(done, [k]);
      assert done + {[k]} == done;
      assert v.members[k := v.members[k]] == v.members;
      BindName(v, parent, all, done, p, v.members[k]);
    } else {
      var entry := if k in v.members then v.members[k] else Obj(map[]);
      if k !in v.members {
        NothingUnder(done, k);
        EmptyBuilds(Some(k), Under(all, k));
      }
      InTailsUnder(all.Keys, k, p[1..]);
      assert p == [k] + p[1..];
      TailsSubset(done, all.Keys, k);
      InsertBuilds(entry, Some(k), Under(all, k), TailsUnder(done, k), p[1..]);
      BindName(v, parent, all, done, p, Obj(Insert(entry.members, Some(k), p[1..], all[p]).value));
    }
  }

  lemma TailsSubset(done: set<Path>, all: set<Path>, k: string)
    requires done <= all
    ensures TailsUnder(done, k) <= TailsUnder(all, k)
  {
  }

  /** A path that goes into the array of this map touches only the parent's entry. */
  lemma {:induction false} BindArray(v: Value, parent: string, all: Entries, done: set<Path>, p: Path, e: Value)
    requires Builds(v, Some(parent), all, done)
    requires p != [] && IsIndex(p[0])
    requires IsIndex(parent) || !HasHead(done, parent)
    requires ArrayBuilt(e, all, done + {p})
    ensures Builds(Obj(v.members[parent := e]), Some(parent), all, done + {p})
  {
    hide NameBuilt, ArrayBuilt, HasHead, HasIndexHead, TailsUnder;
    var members := v.members[parent := e];
    HeadsAdd(done, p);
    forall k | k in members && HasHead(done + {p}, k) && !IsIndex(k)
      ensures NameBuilt(members[k], k, all, done + {p})
    {
      NameUntouched(v.members[k], k, all, done, p);
    }
  }

  lemma {:induction false} InsertIndexBuilds(v: Value, parent: Option<string>, all: Entries, done: set<Path>, p: Path)
    requires Good(all.Keys, parent) && done <= all.Keys && p in all.Keys && p != [] && IsIndex(p[0])
    requires Builds(v, parent, all, done)
    ensures Insert(v.members, parent, p, all[p]).Done?
    ensures Builds(Obj(Insert(v.members, parent, p, all[p]).value), parent, all, done + {p})
    decreases |p|, 1
  {
    hide Good, NameBuilt, TailsUnder, InsertString, InsertNumeric, HasDeep, ParseUsize, Print;
    GoodUnfold(all.Keys, parent);
    var slot := if parent.value in v.members then v.members[parent.value] else Arr([]);
    assert IsIndex(parent.value) || !HasHead(done, parent.value) by {
      if HasHead(done, parent.value) {
        assert HasHead(all.Keys, parent.value);
      }
    }
    if !HasIndexHead(done) {
      assert ArrayBuilt(Arr([]), all, done);
    }
    InsertElementBuilds(slot, all, done, parent.value, p);
    BindArray(v, parent.value, all, done, p, Arr(InsertNumeric(slot.elems, p, all[p], ParseUsize(p[0]).value).value));
  }

  /** Growing an array to index `i` and binding `i` keeps its form when the filler is legal padding. */
  lemma {:induction false} BindElement(a: Value, all: Entries, done: set<Path>, p: Path, i: nat, filler: Value, e: Value)
    requires ArrayBuilt(a, all, done)
    requires p != [] && ParseUsize(p[0]) == Some(i) && p[0] == Print(i)
    requires ElementBuilt(e, p[0], all, done + {p})
    requires forall j :: |a.elems| <= j < i ==> ElementBuilt(filler, Print(j), all, done)
    ensures ArrayBuilt(Arr(Grown(a.elems, i + 1, filler)[i := e]), all, done + {p})
  {
    hide ElementBuilt, HasHead, TailsUnder, ParseUsize, Print;
    HeadsAdd(done, p);
    var elems := Grown(a.elems, i + 1, filler)[i := e];
    forall j | 0 <= j < |elems| ensures ElementBuilt(elems[j], Print(j), all, done + {p}) {
      if j != i {
        ParsePrint(j);
        ElementUntouched(elems[j], Print(j), all, done, p);
      }
    }
  }

  /** Positions beyond the end of the array have received nothing yet. */
  lemma NothingBeyond(a: Value, all: Entries, done: set<Path>, j: nat)
    requires ArrayBuilt(a, all, done)
    requires |a.elems| <= j < USIZE_BOUND
    ensures !HasHead(done, Print(j)) && [Print(j)] !in done && TailsUnder(done, Print(j)) == {}
  {
    ParsePrint(j);
    assert [Print(j)][0] == Print(j);
    NothingUnder(done, Print(j));
  }

  /** Null pads an array of plain elements, an empty object an array that holds objects. */
  lemma {:induction false} Padding(a: Value, all: Entries, done: set<Path>, parent: string, p: Path, j: nat)
    requires LevelGood(all.Keys, Some(parent)) && p in all.Keys && IsIndex(p[0])
    requires ArrayBuilt(a, all, done)
    requires |a.elems| <= j < ParseUsize(p[0]).value || (|p| > 1 && |a.elems| <= j == ParseUsize(p[0]).value)
    ensures ElementBuilt(if |p| == 1 then Null else Obj(map[]), Print(j), all, done)
  {
    hide ArrayBuilt, TailsUnder, ParseUsize, Print;
    var i := ParseUsize(p[0]).value;
    NothingBeyond(a, all, done, j);
    if |p| == 1 {
      assert p == [Print(i)];
    } else {
      assert HasDeep(all.Keys);
      EmptyBuilds(Some(Print(j)), Under(all, Print(j)));
    }
  }

  lemma {:induction false} InsertElementBuilds(a: Value, all: Entries, done: set<Path>, parent: string, p: Path)
    requires Good(all.Keys, Some(parent)) && done <= all.Keys && p in all.Keys && p != [] && IsIndex(p[0])
    requires ArrayBuilt(a, all, done)
    ensures InsertNumeric(a.elems, p, all[p], ParseUsize(p[0]).value).Done?
    ensures ArrayBuilt(Arr(InsertNumeric(a.elems, p, all[p], ParseUsize(p[0]).value).value), all, done + {p})
    decreases |p|, 0
  {
    hide Good, TailsUnder, HasHead, Insert, Builds, ParseUsize, Print;
    GoodUnfold(all.Keys, Some(parent));
    var s := p[0];
    var i := ParseUsize(s).value;
    assert s == Print(i);
    if |p| == 1 {
      assert p == [s];
      forall j | |a.elems| <= j < i ensures ElementBuilt(Null, Print(j), all, done) {
        Padding(a, all, done, parent, p, j);
      }
      BindElement(a, all, done, p, i, Null, Str(all[p]));
    } else {
      forall j | |a.elems| <= j <= i ensures ElementBuilt(Obj(map[]), Print(j), all, done) {
        Padding(a, all, done, parent, p, j);
      }
      var e := Grown(a.elems, i + 1, Obj(map[]))[i];
      DeepElement(e, all, done, parent, p);
      BindElement(a, all, done, p, i, Obj(map[]), Obj(Insert(e.members, Some(s), p[1..], all[p]).value));
    }
  }

  /** Inserting below an element that holds an object. */
  lemma {:induction false} DeepElement(e: Value, all: Entries, done: set<Path>, parent: string, p: Path)
    requires Good(all.Keys, Some(parent)) && done <= all.Keys && p in all.Keys && |p| > 1 && IsIndex(p[0])
    requires ElementBuilt(e, p[0], all, done)
    ensures e.Obj? && Insert(e.members, Some(p[0]), p[1..], all[p]).Done?
    ensures ElementBuilt(Obj(Insert(e.members, Some(p[0]), p[1..], all[p]).value), p[0], all, done + {p})
    decreases |p| - 1, 3
  {
    hide Good, TailsUnder, HasHead, Insert, ParseUsize, Print;
    GoodUnfold(all.Keys, Some(parent));
    var s := p[0];
    assert s == Print(ParseUsize(s).value);
    assert HasDeep(all.Keys) && [s] !in all;
    InTailsUnder(all.Keys, s, p[1..]);
    assert p == [s] + p[1..];
    TailsSubset(done, all.Keys, s);
    TailsUnderAdd(done, p, s);
    InsertBuilds(e, Some(s), Under(all, s), TailsUnder(done, s), p[1..]);
  }

  // Rebuilding from string keys

  /** No two keys are cut into the same parts. */
  ghost predicate DistinctParts(parser: Parser, properties: map<string, string>) {
    forall k, k' :: k in properties && k' in properties && Parts(parser, k) == Parts(parser, k') ==> k == k'
  }

  ghost function PathsOf(parser: Parser, keys: set<string>): set<Path> {
    set k | k in keys :: Parts(parser, k)
  }

  ghost function KeyOf(parser: Parser, keys: set<string>, p: Path): (k: string)
    requires p in PathsOf(parser, keys)
    ensures k in keys && Parts(parser, k) == p
  {
    var k :| k in keys && Parts(parser, k) == p;
    k
  }

  /** The entries of a key-value map, by path instead of by key. */
  ghost function EntriesOf(parser: Parser, properties: map<string, string>): (all: Entries)
    ensures all.Keys == PathsOf(parser, properties.Keys)
  {
    map p | p in PathsOf(parser, properties.Keys) :: properties[KeyOf(parser, properties.Keys, p)]
  }

  /** A key-value map for which the rebuild does not depend on the order of its keys. */
  ghost predicate Orderless(parser: Parser, properties: map<string, string>) {
    DistinctParts(parser, properties) && Good(PathsOf(parser, properties.Keys), None)
  }

  lemma {:induction false} RebuildBuilds(parser: Parser, properties: map<string, string>, order: seq<string>)
    requires Orderless(parser, properties)
    requires forall i :: 0 <= i < |order| ==> order[i] in properties
    ensures RebuildInOrder(parser, order, properties).Done?
    ensures Builds(Obj(RebuildInOrder(parser, order, properties).value), None, EntriesOf(parser, properties),
                   PathsOf(parser, set k | k in order))
  {
    hide Good, Builds, Insert, Parts;
    var all := EntriesOf(parser, properties);
    if order == [] {
      EmptyBuilds(None, all);
      assert PathsOf(parser, set k | k in order) == {};
    } else {
      var last, before := order[|order| - 1], order[..|order| - 1];
      RebuildBuilds(parser, properties, before);
      var m := RebuildInOrder(parser, before, properties).value;
      var done := PathsOf(parser, set k | k in before);
      assert all[Parts(parser, last)] == properties[last] by {
        assert KeyOf(parser, properties.Keys, Parts(parser, last)) == last;
      }
      InsertBuilds(Obj(m), None, all, done, Parts(parser, last));
      assert order == before + [last];
      assert PathsOf(parser, set k | k in order) == done + {Parts(parser, last)};
    }
  }

  /** The canonical form determines the tree. */
  lemma {:induction false} BuildsUnique(v: Value, w: Value, parent: Option<string>, all: Entries)
    requires Builds(v, parent, all, all.Keys) && Builds(w, parent, all, all.Keys)
    ensures v == w
    decreases v, 0
  {
    hide NameBuilt, ArrayBuilt, HasHead, HasIndexHead;
    assert v.members.Keys == w.members.Keys;
    forall k | k in v.members ensures v.members[k] == w.members[k] {
      if HasHead(all.Keys, k) && !IsIndex(k) {
        NameUnique(v.members[k], w.members[k], k, all);
      } else {
        ArrayUnique(v.members[k], w.members[k], all);
      }
    }
    assert v.members == w.members;
  }

  lemma {:induction false} NameUnique(v: Value, w: Value, k: string, all: Entries)
    requires NameBuilt(v, k, all, all.Keys) && NameBuilt(w, k, all, all.Keys)
    ensures v == w
    decreases v, 1
  {
    if [k] !in all {
      BuildsUnique(v, w, Some(k), Under(all, k));
    }
  }

  lemma {:induction false} ArrayUnique(a: Value, b: Value, all: Entries)
    requires ArrayBuilt(a, all, all.Keys) && ArrayBuilt(b, all, all.Keys)
    ensures a == b
    decreases a, 0
  {
    hide ElementBuilt;
    ArrayLength(a, b, all);
    ArrayLength(b, a, all);
    forall i | 0 <= i < |a.elems| ensures a.elems[i] == b.elems[i] {
      ElementUnique(a.elems[i], b.elems[i], Print(i), all);
    }
  }

  lemma {:induction false} ArrayLength(a: Value, b: Value, all: Entries)
    requires ArrayBuilt(a, all, all.Keys) && ArrayBuilt(b, all, all.Keys)
    ensures |a.elems| <= |b.elems|
  {
    hide ElementBuilt;
    if a.elems != [] {
      ParsePrint(|a.elems| - 1);
    }
  }

  lemma {:induction false} ElementUnique(v: Value, w: Value, s: string, all: Entries)
    requires ElementBuilt(v, s, all, all.Keys) && ElementBuilt(w, s, all, all.Keys)
    ensures v == w
    decreases v, 1
  {
    if [s] !in all && HasDeep(all.Keys) {
      BuildsUnique(v, w, Some(s), Under(all, s));
    }
  }

  /** Every iteration order of an orderless key-value map rebuilds, without panic, one and the same tree. */
  lemma RebuildIsConfluent(parser: Parser, properties: map<string, string>, first: seq<string>, second: seq<string>)
    requires Orderless(parser, properties)
    requires Enumerates(first, properties.Keys) && Enumerates(second, properties.Keys)
    ensures RebuildInOrder(parser, first, properties).Done?
    ensures RebuildInOrder(parser, first, properties) == RebuildInOrder(parser, second, properties)
  {
    hide Builds, Orderless, PathsOf, EntriesOf, RebuildInOrder;
    RebuildBuilds(parser, properties, first);
    RebuildBuilds(parser, properties, second);
    assert (set k | k in first) == properties.Keys == (set k | k in second);
    BuildsUnique(Obj(RebuildInOrder(parser, first, properties).value),
                 Obj(RebuildInOrder(parser, second, properties).value), None, EntriesOf(parser, properties));
  }
}
