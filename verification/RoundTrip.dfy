/** Flattening a tree and rebuilding it: when every iteration order gives the tree back, and what comes back. */
module RoundTrip {
  import opened Values
  import opened Decimal
  import opened Keys
  import opened Rebuild
  import opened PanicFreedom
  import opened Canonical
  import opened Confluence
  import opened Flatten
  import opened Leaves

  // Conditions on a tree. Arrays directly inside arrays are printed as text, so nothing is asked below them.

  /** No key reads as an array index, and every array is short enough to be indexed. */
  predicate NamedKeys(v: Value) {
    match v
    case Obj(m) => forall k :: k in m ==> !IsIndex(k) && NamedKeys(m[k])
    case Arr(elems) => |elems| <= USIZE_BOUND && forall i :: 0 <= i < |elems| && elems[i].Obj? ==> NamedKeys(elems[i])
    case _ => true
  }

  /** No container is empty. */
  predicate Inhabited(v: Value) {
    match v
    case Obj(m) => m != map[] && forall k :: k in m ==> Inhabited(m[k])
    case Arr(elems) => elems != [] && forall i :: 0 <= i < |elems| && elems[i].Obj? ==> Inhabited(elems[i])
    case _ => true
  }

  predicate IsHollow(v: Value) {
    v == Obj(map[]) || v == Arr([])
  }

  /** No object member is an empty container, and no array ends in an empty object. */
  predicate Filled(v: Value) {
    match v
    case Obj(m) => forall k :: k in m ==> !IsHollow(m[k]) && Filled(m[k])
    case Arr(elems) =>
      && (elems != [] ==> elems[|elems| - 1] != Obj(map[]))
      && (forall i :: 0 <= i < |elems| && elems[i].Obj? ==> Filled(elems[i]))
    case _ => true
  }

  lemma {:induction false} InhabitedIsFilled(v: Value)
    requires Inhabited(v)
    ensures Filled(v) && !IsHollow(v)
    decreases v
  {
    match v
    case Obj(m) =>
      forall k | k in m ensures !IsHollow(m[k]) && Filled(m[k]) {
        InhabitedIsFilled(m[k]);
      }
    case Arr(elems) =>
      forall i | 0 <= i < |elems| && elems[i].Obj? ensures Filled(elems[i]) && !IsHollow(elems[i]) {
        InhabitedIsFilled(elems[i]);
      }
    case _ =>
  }

  /** In every array, no object comes before an element that is not an object. */
  predicate ScalarsFirst(v: Value) {
    match v
    case Obj(m) => forall k :: k in m ==> ScalarsFirst(m[k])
    case Arr(elems) =>
      && (forall i, j :: 0 <= i < j < |elems| && elems[i].Obj? ==> elems[j].Obj?)
      && (forall i :: 0 <= i < |elems| && elems[i].Obj? ==> ScalarsFirst(elems[i]))
    case _ => true
  }

  // What comes back

  /** Leaves become strings, and an array under key `k` comes back as an object whose only key is again `k`. */
  function Wrapped(printer: Printer, v: Value): Value
    requires v.Obj?
    decreases v, 1
  {
    Obj(map k | k in v.members :: WrappedMember(printer, k, v.members[k]))
  }

  function WrappedMember(printer: Printer, k: string, v: Value): Value
    decreases v, 2
  {
    match v
    case Obj(_) => Wrapped(printer, v)
    case Arr(elems) => Obj(map[k := Arr(WrappedElements(printer, v))])
    case _ => Str(ValueText(printer, v))
  }

  function WrappedElements(printer: Printer, v: Value): (elems: seq<Value>)
    requires v.Arr?
    ensures |elems| == |v.elems|
    decreases v, 1
  {
    seq(|v.elems|, i requires 0 <= i < |v.elems| =>
      if v.elems[i].Obj? then Wrapped(printer, v.elems[i]) else Str(ValueText(printer, v.elems[i])))
  }

  lemma {:induction false} SomeLeaf(v: Value) returns (p: Path)
    requires Filled(v) && !IsHollow(v)
    ensures p in LeafPaths(v)
    decreases v
  {
    match v
    case Obj(m) =>
      var k :| k in m;
      var q := SomeLeaf(m[k]);
      p := [k] + q;
      InMemberPaths(v, k, q);
    case Arr(elems) =>
      var q, last := [], |elems| - 1;
      if elems[last].Obj? {
        q := SomeLeaf(elems[last]);
      }
      p := [Print(last)] + q;
      InArrayPaths(v, last, q);
    case _ =>
      p := [];
  }

  lemma LeafPathsContainer(v: Value)
    requires v.Obj? || v.Arr?
    ensures [] !in LeafPaths(v)
  {
  }

  /** The leaves below a member, without the member's name. */
  lemma TailsOfMember(v: Value, k: string)
    requires v.Obj? && k in v.members
    ensures [k] in LeafPaths(v) <==> !v.members[k].Obj? && !v.members[k].Arr?
    ensures TailsUnder(LeafPaths(v), k) == if [k] in LeafPaths(v) then {} else LeafPaths(v.members[k])
  {
    hide TailsUnder;
    var child := v.members[k];
    InMemberPaths(v, k, []);
    assert [k] + [] == [k];
    if child.Obj? || child.Arr? {
      LeafPathsContainer(child);
    }
    forall q ensures q in TailsUnder(LeafPaths(v), k) <==> q != [] && q in LeafPaths(child) {
      InTailsUnder(LeafPaths(v), k, q);
      InMemberPaths(v, k, q);
    }
  }

  lemma TailsOfElement(v: Value, i: nat)
    requires v.Arr? && i < |v.elems|
    ensures [Print(i)] in LeafPaths(v) <==> !v.elems[i].Obj?
    ensures TailsUnder(LeafPaths(v), Print(i)) == if v.elems[i].Obj? then LeafPaths(v.elems[i]) else {}
  {
    hide TailsUnder;
    var s := Print(i);
    var child := v.elems[i];
    InArrayPaths(v, i, []);
    assert [s] + [] == [s];
    if child.Obj? {
      LeafPathsContainer(child);
    }
    forall q ensures q in TailsUnder(LeafPaths(v), s) <==> q != [] && q in ElementPaths(child) {
      InTailsUnder(LeafPaths(v), s, q);
      InArrayPaths(v, i, q);
    }
  }

  lemma LeafMapKeys(printer: Printer, v: Value)
    ensures LeafMap(printer, v).Keys == LeafPaths(v)
  {
  }

  /** Entries below `k` are the entries of `w` when paths and texts correspond. */
  lemma UnderIs(printer: Printer, v: Value, k: string, w: Value)
    requires TailsUnder(LeafPaths(v), k) == LeafPaths(w)
    requires forall q :: q in LeafPaths(w) ==> LeafText(printer, v, [k] + q) == LeafText(printer, w, q)
    ensures Under(LeafMap(printer, v), k) == LeafMap(printer, w)
  {
    hide LeafPaths, LeafText, TailsUnder;
    LeafMapKeys(printer, v);
    LeafMapKeys(printer, w);
    forall q | q in LeafPaths(w) ensures [k] + q in LeafPaths(v) {
      InTailsUnder(LeafPaths(v), k, q);
    }
  }

  lemma UnderMember(printer: Printer, v: Value, k: string)
    requires v.Obj? && k in v.members
    ensures [k] in LeafPaths(v) ==> LeafMap(printer, v)[[k]] == ValueText(printer, v.members[k])
    ensures [k] !in LeafPaths(v) ==> Under(LeafMap(printer, v), k) == LeafMap(printer, v.members[k])
  {
    hide TailsUnder, LeafPaths;
    TailsOfMember(v, k);
    if [k] in LeafPaths(v) {
      assert LeafText(printer, v, [k]) == LeafText(printer, v.members[k], [k][1..]);
    } else {
      forall q | q in LeafPaths(v.members[k]) ensures LeafText(printer, v, [k] + q) == LeafText(printer, v.members[k], q) {
        assert ([k] + q)[1..] == q;
      }
      UnderIs(printer, v, k, v.members[k]);
    }
  }

  lemma UnderElement(printer: Printer, v: Value, i: nat)
    requires v.Arr? && i < |v.elems|
    ensures [Print(i)] in LeafPaths(v) ==> LeafMap(printer, v)[[Print(i)]] == ValueText(printer, v.elems[i])
    ensures [Print(i)] !in LeafPaths(v) ==> Under(LeafMap(printer, v), Print(i)) == LeafMap(printer, v.elems[i])
  {
    hide TailsUnder, LeafPaths, LeafText;
    TailsOfElement(v, i);
    if [Print(i)] in LeafPaths(v) {
      ElementTextAt(printer, v, i, []);
      assert [Print(i)] + [] == [Print(i)];
    } else {
      forall q | q in LeafPaths(v.elems[i])
        ensures LeafText(printer, v, [Print(i)] + q) == LeafText(printer, v.elems[i], q)
      {
        ElementTextAt(printer, v, i, q);
      }
      UnderIs(printer, v, Print(i), v.elems[i]);
    }
  }

  // The leaf paths of a tree are well formed

  lemma {:induction false} LeavesGood(v: Value, parent: Option<string>)
    requires NamedKeys(v) && ScalarsFirst(v) && (v.Obj? || (v.Arr? && parent.Some? && !IsIndex(parent.value)))
    ensures Good(LeafPaths(v), parent)
    decreases v, 1
  {
    hide Good, LevelGood, NamedKeys, ScalarsFirst, LeafPaths;
    forall s | HasHead(LeafPaths(v), s) ensures Good(TailsUnder(LeafPaths(v), s), Some(s)) {
      TailsGood(v, s);
    }
    if v.Obj? {
      ObjectLevelGood(v, parent);
    } else {
      ArrayLevelGood(v, parent.value);
    }
    GoodFold(LeafPaths(v), parent);
  }

  lemma {:induction false} TailsGood(v: Value, s: string)
    requires NamedKeys(v) && ScalarsFirst(v) && (v.Obj? || v.Arr?) && HasHead(LeafPaths(v), s)
    ensures Good(TailsUnder(LeafPaths(v), s), Some(s))
    decreases v, 0
  {
    hide Good, LevelGood, LeafPaths, TailsUnder;
    var p :| p in LeafPaths(v) && p != [] && p[0] == s;
    NothingGood(Some(s));
    if v.Obj? {
      ObjectPathHead(v, p);
      TailsOfMember(v, s);
      if v.members[s].Obj? || v.members[s].Arr? {
        LeavesGood(v.members[s], Some(s));
      }
    } else {
      ArrayPathHead(v, p);
      var i :| 0 <= i < |v.elems| && p != [] && p[0] == Print(i) && p[1..] in ElementPaths(v.elems[i]);
      TailsOfElement(v, i);
      if v.elems[i].Obj? {
        LeavesGood(v.elems[i], Some(s));
      }
    }
  }

  lemma NothingGood(parent: Option<string>)
    ensures Good({}, parent)
  {
  }

  lemma ObjectLevelGood(v: Value, parent: Option<string>)
    requires v.Obj? && NamedKeys(v)
    ensures LevelGood(LeafPaths(v), parent)
  {
    LeafPathsContainer(v);
    forall p | p in LeafPaths(v) ensures p != [] && !IsIndex(p[0]) {
      ObjectPathHead(v, p);
    }
  }

  lemma ArrayLevelGood(v: Value, k: string)
    requires v.Arr? && NamedKeys(v) && ScalarsFirst(v) && !IsIndex(k)
    ensures LevelGood(LeafPaths(v), Some(k))
  {
    hide LeafPaths;
    var paths := LeafPaths(v);
    LeafPathsContainer(v);
    forall p | p in paths ensures ArrayPath(v, p) {
      ArrayPathForm(v, p);
    }
    forall i: nat, p | [Print(i)] in paths && p in paths && |p| > 1 && IsIndex(p[0])
      ensures i < ParseUsize(p[0]).value && forall j: nat :: j < i ==> [Print(j)] in paths
    {
      PlainBeforeDeep(v, i, p);
    }
  }

  lemma PlainBeforeDeep(v: Value, i: nat, p: Path)
    requires v.Arr? && NamedKeys(v) && ScalarsFirst(v)
    requires [Print(i)] in LeafPaths(v) && p in LeafPaths(v) && |p| > 1
    ensures IsIndex(p[0]) && i < ParseUsize(p[0]).value
    ensures forall j: nat :: j < i ==> [Print(j)] in LeafPaths(v)
  {
    hide LeafPaths;
    ArrayPathForm(v, p);
    ArrayPathForm(v, [Print(i)]);
    PrintInjective(i, ParseUsize(Print(i)).value);
    forall j: nat | j < i ensures [Print(j)] in LeafPaths(v) {
      TailsOfElement(v, j);
    }
  }

  lemma ArrayPathForm(v: Value, p: Path)
    requires v.Arr? && NamedKeys(v) && p in LeafPaths(v)
    ensures ArrayPath(v, p)
  {
    ArrayPathHead(v, p);
    var i :| 0 <= i < |v.elems| && p != [] && p[0] == Print(i) && p[1..] in ElementPaths(v.elems[i]);
    ParsePrint(i);
    if v.elems[i].Obj? {
      LeafPathsContainer(v.elems[i]);
    }
  }

  /** `p` goes through the element its first part names, and stops there exactly when that element is plain. */
  ghost predicate ArrayPath(v: Value, p: Path)
    requires v.Arr?
  {
    && p != [] && IsIndex(p[0])
    && var i := ParseUsize(p[0]).value;
       i < |v.elems| && p[0] == Print(i) && (|p| == 1 <==> !v.elems[i].Obj?)
  }

  // The wrapped tree is what the canonical form describes

  lemma {:induction false} WrappedBuilds(printer: Printer, v: Value, parent: Option<string>)
    requires v.Obj? && NamedKeys(v) && Filled(v) && ScalarsFirst(v)
    ensures Builds(Wrapped(printer, v), parent, LeafMap(printer, v), LeafPaths(v))
    decreases v, 0
  {
    hide NameBuilt, ArrayBuilt, LeafPaths;
    var all := LeafMap(printer, v);
    forall k ensures k in v.members <==> HasHead(LeafPaths(v), k) {
      if k in v.members {
        var q := SomeLeaf(v.members[k]);
        InMemberPaths(v, k, q);
        assert ([k] + q)[0] == k;
      }
      if HasHead(LeafPaths(v), k) {
        var p :| p in LeafPaths(v) && p != [] && p[0] == k;
        ObjectPathHead(v, p);
      }
    }
    assert !HasIndexHead(LeafPaths(v)) by {
      forall p | p in LeafPaths(v) ensures p != [] && !IsIndex(p[0]) {
        ObjectPathHead(v, p);
      }
    }
    forall k | k in v.members ensures NameBuilt(Wrapped(printer, v).members[k], k, all, LeafPaths(v)) {
      WrappedNameBuilt(printer, v, k);
    }
  }

  lemma {:induction false} WrappedNameBuilt(printer: Printer, v: Value, k: string)
    requires v.Obj? && k in v.members && NamedKeys(v) && Filled(v) && ScalarsFirst(v)
    ensures NameBuilt(Wrapped(printer, v).members[k], k, LeafMap(printer, v), LeafPaths(v))
    decreases v.members[k], 2
  {
    hide Builds, ArrayBuilt, LeafPaths, LeafText, LeafMap, TailsUnder;
    assert LeafMap(printer, v).Keys == LeafPaths(v) by { LeafMapKeys(printer, v); }
    UnderMember(printer, v, k);
    TailsOfMember(v, k);
    var child := v.members[k];
    if child.Obj? {
      WrappedBuilds(printer, child, Some(k));
    } else if child.Arr? {
      WrappedArrayBuilds(printer, child, k);
    }
  }

  lemma {:induction false} WrappedArrayBuilds(printer: Printer, v: Value, k: string)
    requires v.Arr? && v.elems != [] && NamedKeys(v) && Filled(v) && ScalarsFirst(v) && !IsIndex(k)
    ensures Builds(WrappedMember(printer, k, v), Some(k), LeafMap(printer, v), LeafPaths(v))
    decreases v, 1
  {
    hide ArrayBuilt, LeafPaths, LeafMap, HasDeep, NamedKeys;
    var built := Arr(WrappedElements(printer, v));
    LastHead(v);
    forall p | p in LeafPaths(v) ensures ArrayPath(v, p) {
      ArrayPathForm(v, p);
    }
    assert HasIndexHead(LeafPaths(v));
    forall s ensures HasHead(LeafPaths(v), s) ==> IsIndex(s) {
    }
    assert ArrayBuilt(built, LeafMap(printer, v), LeafPaths(v)) by {
      WrappedElementsBuilt(printer, v);
    }
  }

  /** A leaf passes through the last element, and goes deeper when that element is an object. */
  lemma LastHead(v: Value)
    requires v.Arr? && v.elems != [] && NamedKeys(v) && Filled(v)
    ensures HasHead(LeafPaths(v), Print(|v.elems| - 1))
    ensures v.elems[|v.elems| - 1].Obj? ==> HasDeep(LeafPaths(v))
  {
    hide LeafPaths;
    var q, last := [], |v.elems| - 1;
    if v.elems[last].Obj? {
      q := SomeLeaf(v.elems[last]);
      LeafPathsContainer(v.elems[last]);
    }
    InArrayPaths(v, last, q);
    ParsePrint(last);
    assert ([Print(last)] + q)[0] == Print(last);
  }

  lemma {:induction false} WrappedElementsBuilt(printer: Printer, v: Value)
    requires v.Arr? && v.elems != [] && NamedKeys(v) && Filled(v) && ScalarsFirst(v)
    ensures ArrayBuilt(Arr(WrappedElements(printer, v)), LeafMap(printer, v), LeafPaths(v))
    decreases v, 0
  {
    hide ElementBuilt, LeafPaths, LeafMap, HasDeep;
    forall p | p in LeafPaths(v) ensures ArrayPath(v, p) {
      ArrayPathForm(v, p);
    }
    LastHead(v);
    forall i | 0 <= i < |v.elems|
      ensures ElementBuilt(WrappedElements(printer, v)[i], Print(i), LeafMap(printer, v), LeafPaths(v))
    {
      WrappedElementBuilt(printer, v, i);
    }
  }

  lemma {:induction false} WrappedElementBuilt(printer: Printer, v: Value, i: nat)
    requires v.Arr? && NamedKeys(v) && Filled(v) && ScalarsFirst(v) && i < |v.elems|
    ensures ElementBuilt(WrappedElements(printer, v)[i], Print(i), LeafMap(printer, v), LeafPaths(v))
    decreases v.elems[i], 2
  {
    hide Builds, LeafPaths, LeafMap, TailsUnder;
    LeafMapKeys(printer, v);
    UnderElement(printer, v, i);
    TailsOfElement(v, i);
    if v.elems[i].Obj? {
      LastHead(v);
      WrappedBuilds(printer, v.elems[i], Some(Print(i)));
    }
  }

  // An object before a plain element makes some order panic

  lemma {:induction false} ClashingLeaves(v: Value) returns (p: Path, q: Path)
    requires v.Obj? && NamedKeys(v) && (forall k :: k in v.members ==> Inhabited(v.members[k])) && !ScalarsFirst(v)
    ensures p in LeafPaths(v) && q in LeafPaths(v)
    ensures p != [] && q != [] && forall parent, x, y :: Clashes(Item(parent, p, x), Item(parent, q, y))
    decreases v
  {
    hide LeafPaths, ParseUsize;
    var k :| k in v.members && !ScalarsFirst(v.members[k]);
    var p', q';
    if v.members[k].Obj? {
      p', q' := ClashingLeaves(v.members[k]);
    } else {
      p', q' := ClashingElements(v.members[k]);
    }
    InMemberPaths(v, k, p');
    InMemberPaths(v, k, q');
    p, q := [k] + p', [k] + q';
    assert p[1..] == p' && q[1..] == q';
    assert !IsIndex(k);
  }

  lemma {:induction false} ClashingElements(v: Value) returns (p: Path, q: Path)
    requires v.Arr? && NamedKeys(v) && Inhabited(v) && !ScalarsFirst(v)
    ensures p in LeafPaths(v) && q in LeafPaths(v)
    ensures p != [] && q != [] && forall k, x, y :: Clashes(Item(Some(k), p, x), Item(Some(k), q, y))
    decreases v
  {
    hide LeafPaths, ParseUsize;
    if i, j :| 0 <= i < j < |v.elems| && v.elems[i].Obj? && !v.elems[j].Obj? {
      InhabitedIsFilled(v.elems[i]);
      var q' := SomeLeaf(v.elems[i]);
      LeafPathsContainer(v.elems[i]);
      InArrayPaths(v, i, q');
      InArrayPaths(v, j, []);
      assert [Print(j)] + [] == [Print(j)];
      p, q := [Print(j)], [Print(i)] + q';
      ParsePrint(i);
      ParsePrint(j);
    } else {
      var i :| 0 <= i < |v.elems| && v.elems[i].Obj? && !ScalarsFirst(v.elems[i]);
      var p', q' := ClashingLeaves(v.elems[i]);
      InArrayPaths(v, i, p');
      InArrayPaths(v, i, q');
      p, q := [Print(i)] + p', [Print(i)] + q';
      assert p[1..] == p' && q[1..] == q';
      ParsePrint(i);
    }
  }

  // From printed keys back to the tree

  /** Every printed key is cut back into the path it came from. */
  ghost predicate Faithful(printer: Printer, parser: Parser, v: Value) {
    forall p :: p in LeafPaths(v) ==> p != [] && Parts(parser, KeyText(printer, p)) == p
  }

  /** The pairs that flattening the whole tree can leave in an empty map. */
  ghost predicate FlattensTo(printer: Printer, v: Value, pairs: map<string, string>)
    requires v.Obj?
  {
    Written(map[], Writes(printer, v, ""), pairs)
  }

  ghost function KeyTexts(printer: Printer, paths: set<Path>): set<string> {
    set p | p in paths && p != [] :: KeyText(printer, p)
  }

  /** Under faithful printing nothing is overwritten: pairs and leaves correspond one to one. */
  lemma FlattenedIsLeaves(printer: Printer, parser: Parser, v: Value, pairs: map<string, string>)
    requires v.Obj? && KeepsIndices(printer) && NamedRoots(printer, v) && Faithful(printer, parser, v)
    requires FlattensTo(printer, v, pairs)
    ensures pairs.Keys == KeyTexts(printer, LeafPaths(v))
    ensures forall p :: p in LeafPaths(v) ==> pairs[KeyText(printer, p)] == LeafText(printer, v, p)
  {
    hide LeafPaths, LeafText, Writes, KeepsIndices, NamedRoots, KeyText, Parts;
    ObjectWritesAreLeaves(printer, v, "");
    var writes := LeafWrites(printer, v, true, "");
    forall p | p in LeafPaths(v) ensures KeyText(printer, p) in pairs && (KeyText(printer, p), LeafText(printer, v, p)) in writes {
      assert FullKey(printer, true, "", p) == KeyText(printer, p);
      assert (KeyText(printer, p), LeafText(printer, v, p)) in writes;
      assert KeyText(printer, p) in KeysIn(writes);
    }
    forall key | key in pairs ensures key in KeyTexts(printer, LeafPaths(v)) {
      var e :| e in writes && e.0 == key;
      var p :| p in LeafPaths(v) && e == (FullKey(printer, true, "", p), LeafText(printer, v, p));
      assert FullKey(printer, true, "", p) == KeyText(printer, p);
    }
    forall p | p in LeafPaths(v) ensures pairs[KeyText(printer, p)] == LeafText(printer, v, p) {
      var key := KeyText(printer, p);
      assert (key, pairs[key]) in writes;
      var p' :| p' in LeafPaths(v) && (key, pairs[key]) == (FullKey(printer, true, "", p'), LeafText(printer, v, p'));
      assert Parts(parser, KeyText(printer, p')) == p' && Parts(parser, KeyText(printer, p)) == p;
    }
  }

  /** The number of plain values in a tree, an array nested in an array counting as one. */
  ghost function LeafCount(v: Value): nat
    decreases v, 1, 0
  {
    match v
    case Obj(m) => MemberCount(v, m.Keys)
    case Arr(elems) => ElementCount(v, |elems|)
    case _ => 1
  }

  ghost function MemberCount(v: Value, keys: set<string>): nat
    requires v.Obj? && keys <= v.members.Keys
    decreases v, 0, |keys|
  {
    if keys == {} then 0
    else
      var k :| k in keys;
      LeafCount(v.members[k]) + MemberCount(v, keys - {k})
  }

  ghost function ElementCount(v: Value, n: nat): nat
    requires v.Arr? && n <= |v.elems|
    decreases v, 0, n
  {
    if n == 0 then 0
    else ElementCount(v, n - 1) + (if v.elems[n - 1].Obj? then LeafCount(v.elems[n - 1]) else 1)
  }

  ghost function Prefixed(k: string, paths: set<Path>): set<Path> {
    set q | q in paths :: [k] + q
  }

  lemma {:induction false} PrefixedCount(k: string, paths: set<Path>)
    ensures |Prefixed(k, paths)| == |paths|
  {
    if paths == {} {
      assert Prefixed(k, paths) == {};
    } else {
      var q :| q in paths;
      PrefixedCount(k, paths - {q});
      assert Prefixed(k, paths) == Prefixed(k, paths - {q}) + {[k] + q};
      forall q' ensures [k] + q' == [k] + q ==> q' == q {
        assert ([k] + q')[1..] == q' && ([k] + q)[1..] == q;
      }
    }
  }

  ghost function MemberPaths(v: Value, keys: set<string>): set<Path>
    requires v.Obj? && keys <= v.members.Keys
  {
    set k, q | k in keys && q in LeafPaths(v.members[k]) :: [k] + q
  }

  ghost function FirstPaths(v: Value, n: nat): set<Path>
    requires v.Arr? && n <= |v.elems|
  {
    set i, q | 0 <= i < n && q in ElementPaths(v.elems[i]) :: [Print(i)] + q
  }

  lemma MorePaths(v: Value, keys: set<string>, k: string)
    requires v.Obj? && keys <= v.members.Keys && k in keys
    ensures MemberPaths(v, keys) == Prefixed(k, LeafPaths(v.members[k])) + MemberPaths(v, keys - {k})
    ensures Prefixed(k, LeafPaths(v.members[k])) !! MemberPaths(v, keys - {k})
  {
    hide LeafPaths;
    assert forall p :: p in MemberPaths(v, keys - {k}) ==> p[0] != k;
  }

  lemma NextPaths(v: Value, n: nat)
    requires v.Arr? && n < |v.elems|
    ensures FirstPaths(v, n + 1) == Prefixed(Print(n), ElementPaths(v.elems[n])) + FirstPaths(v, n)
    ensures Prefixed(Print(n), ElementPaths(v.elems[n])) !! FirstPaths(v, n)
  {
    hide ElementPaths, Print;
    forall i: nat ensures Print(i) == Print(n) ==> i == n {
      PrintValue(i);
      PrintValue(n);
    }
    assert forall p :: p in FirstPaths(v, n) ==> p[0] != Print(n);
  }

  /** Leaf paths are as many as leaves: no two leaves share a path. */
  lemma {:induction false} LeafPathsCount(v: Value)
    ensures |LeafPaths(v)| == LeafCount(v)
    decreases v, 1, 0
  {
    match v
    case Obj(m) =>
      MemberPathsCount(v, m.Keys);
      assert LeafPaths(v) == MemberPaths(v, m.Keys);
    case Arr(elems) =>
      ElementPathsCount(v, |elems|);
      assert LeafPaths(v) == FirstPaths(v, |elems|);
    case _ =>
  }

  lemma {:induction false} MemberPathsCount(v: Value, keys: set<string>)
    requires v.Obj? && keys <= v.members.Keys
    ensures |MemberPaths(v, keys)| == MemberCount(v, keys)
    decreases v, 0, |keys|
  {
    hide LeafPaths, LeafCount;
    if keys == {} {
      assert MemberPaths(v, keys) == {};
    } else {
      var k :| k in keys && MemberCount(v, keys) == LeafCount(v.members[k]) + MemberCount(v, keys - {k});
      MemberPathsCount(v, keys - {k});
      LeafPathsCount(v.members[k]);
      PrefixedCount(k, LeafPaths(v.members[k]));
      MorePaths(v, keys, k);
    }
  }

  lemma NoPathsYet(v: Value)
    requires v.Arr?
    ensures FirstPaths(v, 0) == {}
  {
  }

  lemma ElementPathsSize(v: Value)
    ensures |ElementPaths(v)| == if v.Obj? then |LeafPaths(v)| else 1
  {
    hide LeafPaths;
  }

  lemma {:induction false} ElementPathsCount(v: Value, n: nat)
    requires v.Arr? && n <= |v.elems|
    ensures |FirstPaths(v, n)| == ElementCount(v, n)
    decreases v, 0, n
  {
    hide LeafPaths, LeafCount, Print, FirstPaths, ElementPaths, Prefixed;
    if n == 0 {
      NoPathsYet(v);
    } else {
      ElementPathsCount(v, n - 1);
      LeafPathsCount(v.elems[n - 1]);
      ElementPathsSize(v.elems[n - 1]);
      PrefixedCount(Print(n - 1), ElementPaths(v.elems[n - 1]));
      NextPaths(v, n - 1);
    }
  }

  /** Leaf conservation: under faithful printing the map holds exactly one pair per leaf. */
  lemma LeafConservation(printer: Printer, parser: Parser, v: Value, pairs: map<string, string>)
    requires v.Obj? && KeepsIndices(printer) && NamedRoots(printer, v) && Faithful(printer, parser, v)
    requires FlattensTo(printer, v, pairs)
    ensures |pairs| == |LeafPaths(v)| == LeafCount(v)
  {
    FlattenedIsLeaves(printer, parser, v, pairs);
    KeyTextsCount(printer, parser, LeafPaths(v));
    LeafPathsCount(v);
    assert |pairs| == |pairs.Keys|;
  }

  lemma {:induction false} KeyTextsCount(printer: Printer, parser: Parser, paths: set<Path>)
    requires forall p :: p in paths ==> p != [] && Parts(parser, KeyText(printer, p)) == p
    ensures |KeyTexts(printer, paths)| == |paths|
  {
    hide KeyText, Parts;
    if paths == {} {
      assert KeyTexts(printer, paths) == {};
    } else {
      var p :| p in paths;
      var rest := paths - {p};
      KeyTextsCount(printer, parser, rest);
      assert KeyTexts(printer, paths) == KeyTexts(printer, rest) + {KeyText(printer, p)};
      assert KeyText(printer, p) !in KeyTexts(printer, rest);
    }
  }

  /** What the parser sees of the flattened tree is its leaves. */
  lemma FlattenedEntries(printer: Printer, parser: Parser, v: Value, pairs: map<string, string>)
    requires v.Obj? && KeepsIndices(printer) && NamedRoots(printer, v) && Faithful(printer, parser, v)
    requires FlattensTo(printer, v, pairs)
    ensures DistinctParts(parser, pairs)
    ensures PathsOf(parser, pairs.Keys) == LeafPaths(v)
    ensures EntriesOf(parser, pairs) == LeafMap(printer, v)
  {
    hide LeafPaths, LeafText, KeepsIndices, NamedRoots, FlattensTo, KeyText, Parts;
    FlattenedIsLeaves(printer, parser, v, pairs);
    forall p ensures p in PathsOf(parser, pairs.Keys) <==> p in LeafPaths(v) {
      if p in LeafPaths(v) {
        assert KeyText(printer, p) in pairs;
      }
    }
    forall p | p in LeafPaths(v) ensures EntriesOf(parser, pairs)[p] == LeafText(printer, v, p) {
      var key := KeyOf(parser, pairs.Keys, p);
      assert key in KeyTexts(printer, LeafPaths(v));
    }
  }

  /** When nothing is hollow and scalars come first in every array, each iteration order gives the wrapped tree. */
  lemma RoundTripHolds(printer: Printer, parser: Parser, v: Value, pairs: map<string, string>, order: seq<string>)
    requires v.Obj? && KeepsIndices(printer) && NamedRoots(printer, v) && Faithful(printer, parser, v)
    requires NamedKeys(v) && Filled(v) && ScalarsFirst(v)
    requires FlattensTo(printer, v, pairs) && Enumerates(order, pairs.Keys)
    ensures RebuildInOrder(parser, order, pairs) == Done(Wrapped(printer, v).members)
  {
    hide LeafPaths, LeafText, KeepsIndices, NamedRoots, Faithful, FlattensTo, KeyText, Parts, NamedKeys, Filled, ScalarsFirst;
    hide Good, Builds, DistinctParts;
    FlattenedEntries(printer, parser, v, pairs);
    LeavesGood(v, None);
    RebuildBuilds(parser, pairs, order);
    WrappedBuilds(printer, v, None);
    LeafMapKeys(printer, v);
    assert (set k | k in order) == pairs.Keys;
    BuildsUnique(Obj(RebuildInOrder(parser, order, pairs).value), Wrapped(printer, v), None, LeafMap(printer, v));
  }

  /** When no container is empty and some array holds an object before a plain element, some iteration order panics. */
  lemma RoundTripPanics(printer: Printer, parser: Parser, v: Value, pairs: map<string, string>) returns (order: seq<string>)
    requires v.Obj? && KeepsIndices(printer) && NamedRoots(printer, v) && Faithful(printer, parser, v)
    requires NamedKeys(v) && (forall k :: k in v.members ==> Inhabited(v.members[k])) && !ScalarsFirst(v)
    requires FlattensTo(printer, v, pairs)
    ensures Enumerates(order, pairs.Keys)
    ensures RebuildInOrder(parser, order, pairs) == Panic
  {
    hide LeafPaths, LeafText, KeepsIndices, NamedRoots, FlattensTo, KeyText, Parts, NamedKeys, Inhabited, ScalarsFirst, Insert;
    FlattenedIsLeaves(printer, parser, v, pairs);
    var p, q := ClashingLeaves(v);
    var e, f := ItemOf(parser, pairs, KeyText(printer, p)), ItemOf(parser, pairs, KeyText(printer, q));
    assert e in ItemsOf(parser, pairs) && f in ItemsOf(parser, pairs) && Clashes(e, f);
    order := PanickingOrder(parser, pairs);
  }

  /** Every iteration order of the flattened pairs rebuilds the wrapped tree, without panic. */
  ghost predicate RoundTrips(printer: Printer, parser: Parser, v: Value, pairs: map<string, string>)
    requires v.Obj?
  {
    forall order :: Enumerates(order, pairs.Keys) ==>
      (forall i :: 0 <= i < |order| ==> order[i] in pairs) &&
      RebuildInOrder(parser, order, pairs) == Done(Wrapped(printer, v).members)
  }
}
