/** Key-value maps and trees side by side: conflicting keys, and merging before or after a conversion. */
module KeyValueMerge {
  import opened Values
  import opened Decimal
  import opened Keys
  import opened Rebuild
  import opened Canonical
  import opened Confluence
  import opened Merge

  /** No part of any path reads as an array index. */
  ghost predicate IndexFree(paths: set<Path>) {
    forall p :: p in paths ==> p != [] && forall i :: 0 <= i < |p| ==> !IsIndex(p[i])
  }

  lemma IndexFreeTails(paths: set<Path>, k: string)
    requires IndexFree(paths)
    ensures IndexFree(TailsUnder(paths, k))
  {
    forall q | q in TailsUnder(paths, k) ensures q != [] && forall i :: 0 <= i < |q| ==> !IsIndex(q[i]) {
      InTailsUnder(paths, k, q);
      forall i | 0 <= i < |q| ensures !IsIndex(q[i]) {
        assert ([k] + q)[i + 1] == q[i];
      }
    }
  }

  lemma IndexFreeGood(paths: set<Path>, parent: Option<string>)
    requires IndexFree(paths)
    ensures Good(paths, parent)
  {
    forall q: Path ensures LevelGood(Beneath(paths, q), ParentAt(parent, q)) {
      forall r | r in Beneath(paths, q) ensures r != [] && !IsIndex(r[0]) {
        InBeneath(paths, q, r);
        assert (q + r)[|q|] == r[0];
      }
    }
  }

  // Conflicting keys

  /** `p` is in the set and no proper prefix of it is. */
  ghost predicate Minimal(paths: set<Path>, p: Path) {
    p in paths && forall q :: q in paths ==> !ProperPrefix(q, p)
  }

  /** Some path goes on below `p`, and none stops at `p` or before. */
  ghost predicate Inner(paths: set<Path>, p: Path) {
    && (exists q :: q in paths && p < q)
    && (forall q :: q in paths ==> !(q <= p))
  }

  lemma PrefixTail(q: Path, p: Path)
    requires q != [] && q <= p
    ensures q == [p[0]] + q[1..] && q[1..] <= p[1..] && (q < p <==> q[1..] < p[1..])
    ensures q[1..] == [] <==> q == [p[0]]
  {
    assert q[0] == p[0];
    assert q[1..] == p[1..][..|q| - 1];
  }

  /** A prefix of `p` in the set is its first part alone, or a prefix of the rest below that part. */
  lemma TailsOfPrefixes(paths: set<Path>, p: Path)
    requires [] !in paths && p != []
    ensures forall q :: q in paths && q <= p ==>
      q == [p[0]] || (q[1..] in TailsUnder(paths, p[0]) && q[1..] <= p[1..] && (q < p <==> q[1..] < p[1..]))
  {
    forall q | q in paths && q <= p && q != [p[0]]
      ensures q[1..] in TailsUnder(paths, p[0]) && q[1..] <= p[1..] && (q < p <==> q[1..] < p[1..])
    {
      PrefixTail(q, p);
      InTailsUnder(paths, p[0], q[1..]);
    }
  }

  lemma MinimalStep(paths: set<Path>, p: Path)
    requires [] !in paths && p != []
    ensures |p| == 1 ==> (Minimal(paths, p) <==> p in paths)
    ensures |p| > 1 ==> (Minimal(paths, p) <==> [p[0]] !in paths && Minimal(TailsUnder(paths, p[0]), p[1..]))
  {
    hide TailsUnder;
    var k, rest := p[0], p[1..];
    assert p == [k] + rest;
    InTailsUnder(paths, k, rest);
    if |p| > 1 {
      if Minimal(paths, p) {
        assert ProperPrefix([k], p);
        forall q | q in TailsUnder(paths, k) ensures !ProperPrefix(q, rest) {
          InTailsUnder(paths, k, q);
          assert ProperPrefix(q, rest) ==> ProperPrefix([k] + q, p);
        }
      }
      if [k] !in paths && Minimal(TailsUnder(paths, k), rest) {
        TailsOfPrefixes(paths, p);
        forall q | q in paths ensures !ProperPrefix(q, p) {
          assert q <= p ==> q == [k] || (q[1..] in TailsUnder(paths, k) && !ProperPrefix(q[1..], rest));
        }
      }
    }
  }

  lemma InnerStep(paths: set<Path>, p: Path)
    requires [] !in paths && p != []
    ensures |p| == 1 ==> (Inner(paths, p) <==> p !in paths && HasHead(paths, p[0]))
    ensures |p| > 1 ==> (Inner(paths, p) <==> [p[0]] !in paths && Inner(TailsUnder(paths, p[0]), p[1..]))
  {
    hide TailsUnder;
    var k, rest := p[0], p[1..];
    assert p == [k] + rest;
    if |p| == 1 {
      if p !in paths && HasHead(paths, k) {
        var q :| q in paths && q != [] && q[0] == k;
        assert q != p && q[..1] == p;
        forall r | r in paths ensures !(r <= p) {
          assert r <= p ==> r == [] || r == p;
        }
      }
    } else {
      if Inner(paths, p) {
        assert [k] <= p;
        var q :| q in paths && p < q;
        assert q == [k] + q[1..];
        InTailsUnder(paths, k, q[1..]);
        assert q[1..] in TailsUnder(paths, k) && rest < q[1..];
        forall r | r in TailsUnder(paths, k) ensures !(r <= rest) {
          InTailsUnder(paths, k, r);
          assert r <= rest ==> [k] + r <= p;
        }
      }
      if [k] !in paths && Inner(TailsUnder(paths, k), rest) {
        var r :| r in TailsUnder(paths, k) && rest < r;
        InTailsUnder(paths, k, r);
        assert p < [k] + r;
        TailsOfPrefixes(paths, p);
      }
    }
  }

  /**
   * The tree an index-free key-value map rebuilds to, at every path: a minimal path holds its text,
   * an inner one an object, and everything else, masked keys included, is absent.
   */
  lemma {:induction false} BuiltLookup(v: Value, parent: Option<string>, all: Entries, p: Path)
    requires IndexFree(all.Keys) && Builds(v, parent, all, all.Keys) && p != []
    ensures Minimal(all.Keys, p) ==> Lookup(v, p) == Some(Str(all[p]))
    ensures Inner(all.Keys, p) ==> IsObjectAt(v, p)
    ensures !Minimal(all.Keys, p) && !Inner(all.Keys, p) ==> Lookup(v, p) == None
    decreases |p|
  {
    hide NameBuilt, ArrayBuilt, TailsUnder, Minimal, Inner, LevelGood, HasHead;
    var k, rest := p[0], p[1..];
    assert p == [k] + rest;
    MinimalStep(all.Keys, p);
    InnerStep(all.Keys, p);
    IndexFreeGood(all.Keys, parent);
    IndexFreeTails(all.Keys, k);
    assert !HasIndexHead(all.Keys);
    KnownHead(all.Keys, p);
    assert k in v.members <==> HasHead(all.Keys, k);
    if k in v.members {
      assert NameBuilt(v.members[k], k, all, all.Keys);
      NameLookup(v.members[k], k, all);
      assert Lookup(v, p) == Lookup(v.members[k], rest);
      if |p| == 1 {
        assert p == [k] && rest == [];
      } else if [k] !in all {
        BuiltLookup(v.members[k], Some(k), Under(all, k), rest);
      } else {
        assert Lookup(v.members[k], rest) == None;
      }
    }
  }

  lemma KnownHead(paths: set<Path>, p: Path)
    requires p != []
    ensures p in paths ==> HasHead(paths, p[0])
    ensures Inner(paths, p) ==> HasHead(paths, p[0])
    ensures !HasHead(paths, p[0]) ==> !Minimal(paths, p) && !Inner(paths, p)
    ensures HasHead(paths, p[0]) && IndexFree(paths) ==> !IsIndex(p[0])
  {
  }

  lemma NameLookup(v: Value, k: string, all: Entries)
    requires NameBuilt(v, k, all, all.Keys)
    ensures [k] in all ==> v == Str(all[[k]])
    ensures [k] !in all ==> v.Obj? && Builds(v, Some(k), Under(all, k), Under(all, k).Keys)
  {
  }

  /**
   * Confluence with conflicts: keys without index parts rebuild, in every order and without panic, to the
   * one tree whose plain values are exactly those of the keys with no other key as a proper prefix.
   */
  lemma ConflictsResolve(parser: Parser, properties: map<string, string>, order: seq<string>, p: Path)
    requires DistinctParts(parser, properties) && IndexFree(PathsOf(parser, properties.Keys))
    requires Enumerates(order, properties.Keys) && p != []
    ensures RebuildInOrder(parser, order, properties).Done?
    ensures
      var tree := Obj(RebuildInOrder(parser, order, properties).value);
      var paths := PathsOf(parser, properties.Keys);
      && (Minimal(paths, p) ==> Lookup(tree, p) == Some(Str(EntriesOf(parser, properties)[p])))
      && (Inner(paths, p) ==> IsObjectAt(tree, p))
      && (!Minimal(paths, p) && !Inner(paths, p) ==> Lookup(tree, p) == None)
  {
    hide IndexFree, Builds, Minimal, Inner, Lookup, DistinctParts;
    IndexFreeGood(PathsOf(parser, properties.Keys), None);
    RebuildBuilds(parser, properties, order);
    assert (set k | k in order) == properties.Keys;
    BuiltLookup(Obj(RebuildInOrder(parser, order, properties).value), None, EntriesOf(parser, properties), p);
  }

  // Extending key-value maps against merging trees

  /** Where a path of `second` goes on below a path of `first`, `second` itself stops there or before. */
  ghost predicate KeepsAbove(first: set<Path>, second: set<Path>) {
    forall p, q :: p in first && q in second && ProperPrefix(p, q) ==> exists r :: r in second && r <= p
  }

  ghost predicate KeepsAboveAt(first: set<Path>, second: set<Path>, k: string) {
    [k] in second || !HasHead(second, k) || ([k] !in first && KeepsAbove(TailsUnder(first, k), TailsUnder(second, k)))
  }

  lemma BlockedAbove(first: set<Path>, second: set<Path>, k: string)
    requires [] !in second && [k] in first && [k] !in second && HasHead(second, k)
    ensures !KeepsAbove(first, second)
  {
    var q :| q in second && q != [] && q[0] == k;
    assert q[..1] == [k];
    assert q != [k];
    assert ProperPrefix([k], q);
    forall r | r in second ensures !(r <= [k]) {
      assert r <= [k] ==> r == [] || r == [k];
    }
  }

  lemma KeepsAboveDown(first: set<Path>, second: set<Path>, k: string)
    requires [] !in first && [] !in second && KeepsAbove(first, second)
    ensures KeepsAboveAt(first, second, k)
  {
    hide TailsUnder, HasHead;
    if [k] !in second && HasHead(second, k) {
      assert [k] !in first by {
        if [k] in first {
          BlockedAbove(first, second, k);
        }
      }
      forall p, q | p in TailsUnder(first, k) && q in TailsUnder(second, k) && ProperPrefix(p, q)
        ensures exists r :: r in TailsUnder(second, k) && r <= p
      {
        InTailsUnder(first, k, p);
        InTailsUnder(second, k, q);
        assert ProperPrefix([k] + p, [k] + q);
        var r :| r in second && r <= [k] + p;
        PrefixTail(r, [k] + p);
        assert ([k] + p)[1..] == p;
        InTailsUnder(second, k, r[1..]);
        assert r[1..] in TailsUnder(second, k) && r[1..] <= p;
      }
    }
  }

  lemma KeepsAboveUp(first: set<Path>, second: set<Path>)
    requires [] !in first && [] !in second && forall k :: KeepsAboveAt(first, second, k)
    ensures KeepsAbove(first, second)
  {
    hide TailsUnder;
    forall p, q | p in first && q in second && ProperPrefix(p, q) ensures exists r :: r in second && r <= p {
      var k := p[0];
      assert q[0] == k && KeepsAboveAt(first, second, k);
      if [k] in second {
        assert [k] <= p;
      } else {
        PrefixTail(p, q);
        assert q == [k] + q[1..];
        InTailsUnder(first, k, p[1..]);
        InTailsUnder(second, k, q[1..]);
        assert ProperPrefix(p[1..], q[1..]);
        var r :| r in TailsUnder(second, k) && r <= p[1..];
        InTailsUnder(second, k, r);
        assert [k] + r <= p;
      }
    }
  }

  lemma UnderAt(all: Entries, k: string, q: Path)
    requires q in TailsUnder(all.Keys, k)
    ensures [k] + q in all && Under(all, k)[q] == all[[k] + q]
  {
    InTailsUnder(all.Keys, k, q);
  }

  lemma UnderBoth(all1: Entries, all2: Entries, k: string)
    ensures Under(all1 + all2, k) == Under(all1, k) + Under(all2, k)
  {
    hide TailsUnder;
    assert (all1 + all2).Keys == all1.Keys + all2.Keys;
    forall q
      ensures q in TailsUnder(all1.Keys + all2.Keys, k) <==> q in TailsUnder(all1.Keys, k) || q in TailsUnder(all2.Keys, k)
      ensures q in TailsUnder(all2.Keys, k) <==> q != [] && [k] + q in all2
    {
      InTailsUnder(all1.Keys + all2.Keys, k, q);
      InTailsUnder(all1.Keys, k, q);
      InTailsUnder(all2.Keys, k, q);
    }
    forall q | q in TailsUnder(all1.Keys + all2.Keys, k)
      ensures Under(all1 + all2, k)[q] == (Under(all1, k) + Under(all2, k))[q]
    {
      InTailsUnder(all1.Keys + all2.Keys, k, q);
      InTailsUnder(all1.Keys, k, q);
      InTailsUnder(all2.Keys, k, q);
      UnderAt(all1 + all2, k, q);
      if q in TailsUnder(all1.Keys, k) {
        UnderAt(all1, k, q);
      }
      if q in TailsUnder(all2.Keys, k) {
        UnderAt(all2, k, q);
      }
    }
  }

  lemma NoHeadKeepsAbove(first: set<Path>, second: set<Path>, k: string)
    requires !HasHead(second, k) || (!HasHead(first, k) && [k] !in first)
    ensures KeepsAboveAt(first, second, k)
  {
    if HasHead(second, k) {
      NothingUnder(first, k);
    }
  }

  lemma HeadOfEither(first: set<Path>, second: set<Path>, k: string)
    ensures HasHead(first + second, k) <==> HasHead(first, k) || HasHead(second, k)
  {
    if HasHead(first, k) {
      var p :| p in first && p != [] && p[0] == k;
      assert p in first + second;
    }
    if HasHead(second, k) {
      var p :| p in second && p != [] && p[0] == k;
      assert p in first + second;
    }
  }

  /** Without indices, the canonical form is one condition per name. */
  lemma {:induction false} IndexFreeBuilds(v: Value, parent: Option<string>, all: Entries)
    requires IndexFree(all.Keys)
    ensures Builds(v, parent, all, all.Keys) <==>
      && v.Obj?
      && (forall k :: k in v.members <==> HasHead(all.Keys, k))
      && (forall k :: k in v.members ==> NameBuilt(v.members[k], k, all, all.Keys))
  {
    hide NameBuilt, ArrayBuilt;
    assert !HasIndexHead(all.Keys);
    forall k | HasHead(all.Keys, k) ensures !IsIndex(k) {
    }
  }

  lemma {:induction false} MergedBuilds(v: Value, w: Value, parent: Option<string>, all1: Entries, all2: Entries)
    requires IndexFree(all1.Keys) && IndexFree(all2.Keys)
    requires Builds(v, parent, all1, all1.Keys) && Builds(w, parent, all2, all2.Keys)
    ensures Builds(Merged(v, w), parent, all1 + all2, (all1 + all2).Keys) <==> KeepsAbove(all1.Keys, all2.Keys)
    decreases v, 1
  {
    hide Builds, NameBuilt, KeepsAbove, KeepsAboveAt, HasHead;
    var all := all1 + all2;
    var m := Merged(v, w);
    assert all.Keys == all1.Keys + all2.Keys && IndexFree(all.Keys);
    IndexFreeBuilds(v, parent, all1);
    IndexFreeBuilds(w, parent, all2);
    IndexFreeBuilds(m, parent, all);
    forall k
      ensures k in m.members <==> HasHead(all.Keys, k)
      ensures k in m.members ==> (NameBuilt(m.members[k], k, all, all.Keys) <==> KeepsAboveAt(all1.Keys, all2.Keys, k))
      ensures k !in m.members ==> KeepsAboveAt(all1.Keys, all2.Keys, k)
    {
      HeadOfEither(all1.Keys, all2.Keys, k);
      if k in m.members {
        MergedNameBuilt(v, w, parent, all1, all2, k);
      } else {
        NoHeadKeepsAbove(all1.Keys, all2.Keys, k);
      }
    }
    if KeepsAbove(all1.Keys, all2.Keys) {
      forall k ensures KeepsAboveAt(all1.Keys, all2.Keys, k) {
        KeepsAboveDown(all1.Keys, all2.Keys, k);
      }
    }
    if Builds(m, parent, all, all.Keys) {
      KeepsAboveUp(all1.Keys, all2.Keys);
    }
  }

  lemma {:induction false} MergedNameBuilt(v: Value, w: Value, parent: Option<string>, all1: Entries, all2: Entries, k: string)
    requires IndexFree(all1.Keys) && IndexFree(all2.Keys)
    requires Builds(v, parent, all1, all1.Keys) && Builds(w, parent, all2, all2.Keys)
    requires v.Obj? && w.Obj? && k in Merged(v, w).members
    ensures NameBuilt(Merged(v, w).members[k], k, all1 + all2, (all1 + all2).Keys) <==> KeepsAboveAt(all1.Keys, all2.Keys, k)
    decreases v, 0
  {
    hide Builds, NameBuilt, KeepsAbove, KeepsAboveAt, TailsUnder, HasHead, IndexFree;
    IndexFreeBuilds(v, parent, all1);
    IndexFreeBuilds(w, parent, all2);
    var all := all1 + all2;
    if k !in w.members {
      NamedHead(all2.Keys, k);
      OneSidedUnder(all2, all1, k);
      SameName(v.members[k], k, all, all1);
      NoHeadKeepsAbove(all1.Keys, all2.Keys, k);
    } else if k !in v.members {
      NamedHead(all1.Keys, k);
      OneSidedUnder(all1, all2, k);
      SameName(w.members[k], k, all, all2);
      NoHeadKeepsAbove(all1.Keys, all2.Keys, k);
    } else {
      NameLookup(w.members[k], k, all2);
      NameLookup(v.members[k], k, all1);
      if [k] in all1 || [k] in all2 {
        OverriddenName(v.members[k], w.members[k], k, all1, all2);
      } else {
        IndexFreeTails(all1.Keys, k);
        IndexFreeTails(all2.Keys, k);
        MergedBuilds(v.members[k], w.members[k], Some(k), Under(all1, k), Under(all2, k));
        InnerName(v.members[k], w.members[k], k, all1, all2);
      }
    }
  }

  lemma OneSidedUnder(none: Entries, some: Entries, k: string)
    requires !HasHead(none.Keys, k) && [k] !in none
    ensures Under(none + some, k) == Under(some, k) && Under(some + none, k) == Under(some, k)
  {
    hide TailsUnder, HasHead;
    NothingUnder(none.Keys, k);
    UnderBoth(none, some, k);
    UnderBoth(some, none, k);
  }

  lemma {:induction false} SameName(e: Value, k: string, all: Entries, same: Entries)
    requires [k] in all <==> [k] in same
    requires [k] in all ==> all[[k]] == same[[k]]
    requires Under(all, k) == Under(same, k)
    ensures NameBuilt(e, k, all, all.Keys) <==> NameBuilt(e, k, same, same.Keys)
  {
    hide Builds, TailsUnder, HasHead;
    assert TailsUnder(all.Keys, k) == Under(all, k).Keys == Under(same, k).Keys == TailsUnder(same.Keys, k);
  }

  lemma {:induction false} OverriddenName(v: Value, w: Value, k: string, all1: Entries, all2: Entries)
    requires [k] in all1 || [k] in all2
    requires [k] in all1 ==> v == Str(all1[[k]])
    requires [k] in all2 ==> w == Str(all2[[k]])
    requires [k] !in all2 ==> w.Obj? && HasHead(all2.Keys, k)
    ensures NameBuilt(w, k, all1 + all2, (all1 + all2).Keys) <==> KeepsAboveAt(all1.Keys, all2.Keys, k)
  {
    hide Builds, TailsUnder, HasHead;
  }

  lemma {:induction false} InnerName(v: Value, w: Value, k: string, all1: Entries, all2: Entries)
    requires [k] !in all1 && [k] !in all2 && HasHead(all2.Keys, k)
    requires Builds(Merged(v, w), Some(k), Under(all1, k) + Under(all2, k), (Under(all1, k) + Under(all2, k)).Keys)
             <==> KeepsAbove(Under(all1, k).Keys, Under(all2, k).Keys)
    ensures NameBuilt(Merged(v, w), k, all1 + all2, (all1 + all2).Keys) <==> KeepsAboveAt(all1.Keys, all2.Keys, k)
  {
    hide Builds, TailsUnder, HasHead, KeepsAbove;
    UnderBoth(all1, all2, k);
    assert TailsUnder((all1 + all2).Keys, k) == Under(all1 + all2, k).Keys;
  }

  lemma NamedHead(paths: set<Path>, k: string)
    ensures [k] in paths ==> HasHead(paths, k)
  {
    assert [k][0] == k;
  }

  /**
   * Extending one key-value map by another and rebuilding agrees with merging the two rebuilt trees
   * exactly when no key of the second continues below a key of the first that the second leaves alone.
   */
  lemma ExtendVersusMerge(parser: Parser, props1: map<string, string>, props2: map<string, string>,
                          order1: seq<string>, order2: seq<string>, order: seq<string>)
    requires DistinctParts(parser, props1 + props2)
    requires IndexFree(PathsOf(parser, (props1 + props2).Keys))
    requires Enumerates(order1, props1.Keys) && Enumerates(order2, props2.Keys) && Enumerates(order, (props1 + props2).Keys)
    ensures
      && RebuildInOrder(parser, order1, props1).Done?
      && RebuildInOrder(parser, order2, props2).Done?
      && RebuildInOrder(parser, order, props1 + props2).Done?
    ensures
      Obj(RebuildInOrder(parser, order, props1 + props2).value) ==
      Merged(Obj(RebuildInOrder(parser, order1, props1).value), Obj(RebuildInOrder(parser, order2, props2).value))
      <==> KeepsAbove(PathsOf(parser, props1.Keys), PathsOf(parser, props2.Keys))
  {
    hide Builds, KeepsAbove, Parts, PathsOf, DistinctParts, RebuildInOrder, Merged;
    var all := EntriesOf(parser, props1 + props2);
    var all1, all2 := EntriesOf(parser, props1), EntriesOf(parser, props2);
    EntriesOfBoth(parser, props1, props2);
    RebuildBuiltTree(parser, props1, order1);
    RebuildBuiltTree(parser, props2, order2);
    RebuildBuiltTree(parser, props1 + props2, order);
    var v := Obj(RebuildInOrder(parser, order1, props1).value);
    var w := Obj(RebuildInOrder(parser, order2, props2).value);
    var u := Obj(RebuildInOrder(parser, order, props1 + props2).value);
    MergedBuilds(v, w, None, all1, all2);
    if Builds(Merged(v, w), None, all, all.Keys) {
      BuildsUnique(u, Merged(v, w), None, all);
    }
  }

  lemma RebuildBuiltTree(parser: Parser, properties: map<string, string>, order: seq<string>)
    requires DistinctParts(parser, properties) && IndexFree(PathsOf(parser, properties.Keys))
    requires Enumerates(order, properties.Keys)
    ensures RebuildInOrder(parser, order, properties).Done?
    ensures
      var all := EntriesOf(parser, properties);
      Builds(Obj(RebuildInOrder(parser, order, properties).value), None, all, all.Keys)
  {
    hide Builds, Good, IndexFree, DistinctParts, Parts;
    IndexFreeGood(PathsOf(parser, properties.Keys), None);
    RebuildBuilds(parser, properties, order);
    assert (set k | k in order) == properties.Keys;
  }

  lemma PathsOfBoth(parser: Parser, keys1: set<string>, keys2: set<string>)
    ensures PathsOf(parser, keys1 + keys2) == PathsOf(parser, keys1) + PathsOf(parser, keys2)
  {
    hide Parts;
  }

  lemma SmallerDistinct(parser: Parser, properties: map<string, string>, part: map<string, string>)
    requires DistinctParts(parser, properties) && part.Keys <= properties.Keys
    ensures DistinctParts(parser, part)
  {
    hide Parts;
  }

  lemma EntriesOfBoth(parser: Parser, props1: map<string, string>, props2: map<string, string>)
    requires DistinctParts(parser, props1 + props2)
    ensures DistinctParts(parser, props1) && DistinctParts(parser, props2)
    ensures EntriesOf(parser, props1 + props2) == EntriesOf(parser, props1) + EntriesOf(parser, props2)
    ensures PathsOf(parser, (props1 + props2).Keys) == PathsOf(parser, props1.Keys) + PathsOf(parser, props2.Keys)
  {
    hide Parts, PathsOf;
    var both := props1 + props2;
    var all, all1, all2 := EntriesOf(parser, both), EntriesOf(parser, props1), EntriesOf(parser, props2);
    assert both.Keys == props1.Keys + props2.Keys;
    SmallerDistinct(parser, both, props1);
    SmallerDistinct(parser, both, props2);
    PathsOfBoth(parser, props1.Keys, props2.Keys);
    forall p | p in all ensures all[p] == (all1 + all2)[p] {
      var k := KeyOf(parser, both.Keys, p);
      if p in all2 {
        assert KeyOf(parser, props2.Keys, p) == k;
      } else {
        assert KeyOf(parser, props1.Keys, p) == k;
        assert k !in props2 by {
          if k in props2 {
            InPathsOf(parser, props2.Keys, k);
          }
        }
      }
    }
  }

  lemma InPathsOf(parser: Parser, keys: set<string>, k: string)
    requires k in keys
    ensures Parts(parser, k) in PathsOf(parser, keys)
  {
  }
}
