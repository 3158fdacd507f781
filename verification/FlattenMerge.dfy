/** Flattening against merging: when the pairs of a merged tree are the overlaid pairs of the two trees. */
module FlattenMerge {
  import opened Values
  import opened Keys
  import opened Flatten
  import opened Leaves
  import opened RoundTrip
  import opened Merge

  /** Whatever `b` replaces outright in `a` has all of its leaf paths bound again by the replacement. */
  ghost predicate Overlays(a: Value, b: Value)
    requires a.Obj? && b.Obj?
    decreases a
  {
    forall k :: k in a.members && k in b.members ==>
      if a.members[k].Obj? && b.members[k].Obj? then Overlays(a.members[k], b.members[k])
      else LeafPaths(a.members[k]) <= LeafPaths(b.members[k])
  }

  /** The leaves below one name, without it. */
  ghost function LeavesBelow(printer: Printer, v: Value, k: string): Entries
    requires v.Obj?
  {
    if k in v.members then LeafMap(printer, v.members[k]) else map[]
  }

  lemma MemberLeafMap(printer: Printer, v: Value, k: string, q: Path)
    requires v.Obj?
    ensures [k] + q in LeafMap(printer, v) <==> q in LeavesBelow(printer, v, k)
    ensures [k] + q in LeafMap(printer, v) ==> LeafMap(printer, v)[[k] + q] == LeavesBelow(printer, v, k)[q]
  {
    InMemberPaths(v, k, q);
    assert ([k] + q)[1..] == q;
  }

  ghost predicate SameAt(printer: Printer, m: Value, a: Value, b: Value, k: string)
    requires m.Obj? && a.Obj? && b.Obj?
  {
    LeavesBelow(printer, m, k) == LeavesBelow(printer, a, k) + LeavesBelow(printer, b, k)
  }

  lemma LeafMapByName(printer: Printer, m: Value, a: Value, b: Value)
    requires m.Obj? && a.Obj? && b.Obj?
    ensures LeafMap(printer, m) == LeafMap(printer, a) + LeafMap(printer, b) <==> forall k :: SameAt(printer, m, a, b, k)
  {
    hide LeafMap, LeavesBelow;
    var all, left, right := LeafMap(printer, m), LeafMap(printer, a), LeafMap(printer, b);
    if all == left + right {
      forall k ensures SameAt(printer, m, a, b, k) {
        forall q: Path
          ensures q in LeavesBelow(printer, m, k) <==> q in LeavesBelow(printer, a, k) || q in LeavesBelow(printer, b, k)
          ensures q in LeavesBelow(printer, m, k) ==>
            LeavesBelow(printer, m, k)[q] == (LeavesBelow(printer, a, k) + LeavesBelow(printer, b, k))[q]
        {
          MemberLeafMap(printer, m, k, q);
          MemberLeafMap(printer, a, k, q);
          MemberLeafMap(printer, b, k, q);
        }
      }
    }
    if forall k :: SameAt(printer, m, a, b, k) {
      LeafMapHeads(printer, m);
      LeafMapHeads(printer, a);
      LeafMapHeads(printer, b);
      forall p: Path
        ensures p in all <==> p in left + right
        ensures p in all ==> all[p] == (left + right)[p]
      {
        if p != [] {
          assert SameAt(printer, m, a, b, p[0]);
          MemberLeafMap(printer, m, p[0], p[1..]);
          MemberLeafMap(printer, a, p[0], p[1..]);
          MemberLeafMap(printer, b, p[0], p[1..]);
          assert p == [p[0]] + p[1..];
        }
      }
    }
  }

  lemma LeafMapHeads(printer: Printer, v: Value)
    requires v.Obj?
    ensures [] !in LeafMap(printer, v)
  {
    LeafPathsContainer(v);
  }

  /** The leaves of a merge are the overlaid leaves exactly when nothing replaced loses a leaf path. */
  lemma {:induction false} LeavesOfMerge(printer: Printer, a: Value, b: Value)
    requires a.Obj? && b.Obj?
    ensures LeafMap(printer, Merged(a, b)) == LeafMap(printer, a) + LeafMap(printer, b) <==> Overlays(a, b)
    decreases a
  {
    hide LeafMap, LeafPaths;
    var m := Merged(a, b);
    LeafMapByName(printer, m, a, b);
    forall k
      ensures SameAt(printer, m, a, b, k) <==>
        (k in a.members && k in b.members ==>
          if a.members[k].Obj? && b.members[k].Obj? then Overlays(a.members[k], b.members[k])
          else LeafPaths(a.members[k]) <= LeafPaths(b.members[k]))
    {
      if k in a.members && k in b.members {
        if a.members[k].Obj? && b.members[k].Obj? {
          LeavesOfMerge(printer, a.members[k], b.members[k]);
        } else {
          OverlayAbsorbed(LeafMap(printer, a.members[k]), LeafMap(printer, b.members[k]));
          LeafMapKeys(printer, a.members[k]);
          LeafMapKeys(printer, b.members[k]);
        }
      }
    }
  }

  lemma OverlayAbsorbed(a: Entries, b: Entries)
    ensures b == a + b <==> a.Keys <= b.Keys
  {
    if a.Keys <= b.Keys {
      assert (a + b).Keys == b.Keys;
    }
    if b == a + b {
      assert a.Keys <= (a + b).Keys;
    }
  }

  // The same fact about the printed pairs

  lemma {:induction false} MergedLeafPaths(a: Value, b: Value)
    requires a.Obj? && b.Obj?
    ensures LeafPaths(Merged(a, b)) <= LeafPaths(a) + LeafPaths(b)
    decreases a
  {
    hide LeafPaths;
    forall p | p in LeafPaths(Merged(a, b)) ensures p in LeafPaths(a) + LeafPaths(b) {
      ObjectPathHead(Merged(a, b), p);
      var k := p[0];
      assert p == [k] + p[1..];
      InMemberPaths(a, k, p[1..]);
      InMemberPaths(b, k, p[1..]);
      if k in a.members && k in b.members && a.members[k].Obj? && b.members[k].Obj? {
        MergedLeafPaths(a.members[k], b.members[k]);
      }
    }
  }

  /** `pairs` holds every leaf under its printed key, and nothing else. */
  ghost predicate PrintsAs(printer: Printer, leaves: Entries, pairs: map<string, string>) {
    && pairs.Keys == KeyTexts(printer, leaves.Keys)
    && forall p :: p in leaves ==> p != [] && KeyText(printer, p) in pairs && pairs[KeyText(printer, p)] == leaves[p]
  }

  /** Every path in the set prints to a key that is cut back into it. */
  ghost predicate FaithfulOn(printer: Printer, parser: Parser, paths: set<Path>) {
    forall p :: p in paths ==> p != [] && Parts(parser, KeyText(printer, p)) == p
  }

  lemma InKeyTexts(printer: Printer, parser: Parser, paths: set<Path>, some: set<Path>, p: Path)
    requires FaithfulOn(printer, parser, paths) && some <= paths && p in paths
    ensures KeyText(printer, p) in KeyTexts(printer, some) <==> p in some
  {
    hide KeyText, Parts;
  }

  lemma OverlayPrints(printer: Printer, parser: Parser, a: Entries, b: Entries, pairsA: map<string, string>, pairsB: map<string, string>)
    requires FaithfulOn(printer, parser, a.Keys + b.Keys)
    requires PrintsAs(printer, a, pairsA) && PrintsAs(printer, b, pairsB)
    ensures PrintsAs(printer, a + b, pairsA + pairsB)
  {
    hide KeyText, FaithfulOn;
    assert (a + b).Keys == a.Keys + b.Keys;
    assert KeyTexts(printer, a.Keys + b.Keys) == KeyTexts(printer, a.Keys) + KeyTexts(printer, b.Keys);
    hide KeyTexts;
    forall p | p in a + b ensures p != [] && (pairsA + pairsB)[KeyText(printer, p)] == (a + b)[p] {
      InKeyTexts(printer, parser, a.Keys + b.Keys, b.Keys, p);
    }
  }

  lemma PrintsEqual(printer: Printer, parser: Parser, a: Entries, b: Entries, pairsA: map<string, string>, pairsB: map<string, string>)
    requires FaithfulOn(printer, parser, a.Keys + b.Keys)
    requires PrintsAs(printer, a, pairsA) && PrintsAs(printer, b, pairsB)
    ensures pairsA == pairsB <==> a == b
  {
    hide KeyText, FaithfulOn;
    forall p | p in a.Keys + b.Keys
      ensures KeyText(printer, p) in pairsA <==> p in a
      ensures KeyText(printer, p) in pairsB <==> p in b
    {
      InKeyTexts(printer, parser, a.Keys + b.Keys, a.Keys, p);
      InKeyTexts(printer, parser, a.Keys + b.Keys, b.Keys, p);
    }
    if pairsA == pairsB {
      assert a.Keys == b.Keys;
    }
  }

  lemma FlattenedPrints(printer: Printer, parser: Parser, v: Value, pairs: map<string, string>)
    requires v.Obj? && KeepsIndices(printer) && NamedRoots(printer, v) && Faithful(printer, parser, v)
    requires FlattensTo(printer, v, pairs)
    ensures PrintsAs(printer, LeafMap(printer, v), pairs)
  {
    hide LeafPaths, LeafText, KeepsIndices, NamedRoots, FlattensTo, KeyText, Parts;
    FlattenedIsLeaves(printer, parser, v, pairs);
    LeafMapKeys(printer, v);
    assert forall p :: p in LeafPaths(v) ==> KeyText(printer, p) in KeyTexts(printer, LeafPaths(v));
  }

  /**
   * The pairs printed for a merged tree are the first tree's pairs extended by the second's exactly
   * when nothing that the merge replaces outright loses a leaf path.
   */
  lemma FlattenCommutesWithMerge(printer: Printer, parser: Parser, a: Value, b: Value, pairsA: map<string, string>,
                                 pairsB: map<string, string>, pairsM: map<string, string>)
    requires a.Obj? && b.Obj? && KeepsIndices(printer)
    requires NamedRoots(printer, a) && NamedRoots(printer, b)
    requires Faithful(printer, parser, a) && Faithful(printer, parser, b)
    requires FlattensTo(printer, a, pairsA) && FlattensTo(printer, b, pairsB) && FlattensTo(printer, Merged(a, b), pairsM)
    ensures pairsM == pairsA + pairsB <==> Overlays(a, b)
  {
    hide LeafPaths, LeafText, KeepsIndices, FlattensTo, KeyText, Parts, Overlays, PrintsAs;
    var m := Merged(a, b);
    MergedLeafPaths(a, b);
    LeafMapKeys(printer, a);
    LeafMapKeys(printer, b);
    LeafMapKeys(printer, m);
    var union := LeafMap(printer, a) + LeafMap(printer, b);
    assert FaithfulOn(printer, parser, LeafPaths(a) + LeafPaths(b));
    assert union.Keys == LeafPaths(a) + LeafPaths(b) && LeafPaths(m) + union.Keys == union.Keys;
    FlattenedPrints(printer, parser, a, pairsA);
    FlattenedPrints(printer, parser, b, pairsB);
    FlattenedPrints(printer, parser, m, pairsM);
    OverlayPrints(printer, parser, LeafMap(printer, a), LeafMap(printer, b), pairsA, pairsB);
    PrintsEqual(printer, parser, LeafMap(printer, m), union, pairsM, pairsA + pairsB);
    LeavesOfMerge(printer, a, b);
  }
}
