/** The leaves of a configuration tree by path, and flattening as a bijection between leaf paths and printed keys. */
module Leaves {
  import opened Values
  import opened Decimal
  import opened Flatten

  /** The paths of the plain values: array elements count by index, and an array nested in an array is one leaf. */
  ghost function LeafPaths(v: Value): set<Path>
    decreases v, 0
  {
    match v
    case Obj(m) => set k, q | k in m && q in LeafPaths(m[k]) :: [k] + q
    case Arr(elems) => set i, q | 0 <= i < |elems| && q in ElementPaths(elems[i]) :: [Print(i)] + q
    case _ => {[]}
  }

  ghost function ElementPaths(v: Value): set<Path>
    decreases v, 1
  {
    if v.Obj? then LeafPaths(v) else {[]}
  }

  /** The text of the leaf at path `p`. */
  function LeafText(printer: Printer, v: Value, p: Path): string
    decreases v, 0
  {
    match v
    case Obj(m) => if p != [] && p[0] in m then LeafText(printer, m[p[0]], p[1..]) else ""
    case Arr(elems) =>
      if p != [] && AllDigits(p[0]) && DigitsValue(p[0]) < |elems|
      then ElementText(printer, elems[DigitsValue(p[0])], p[1..]) else ""
    case _ => ValueText(printer, v)
  }

  function ElementText(printer: Printer, v: Value, p: Path): string
    decreases v, 1
  {
    if v.Obj? then LeafText(printer, v, p) else ValueText(printer, v)
  }

  ghost function LeafMap(printer: Printer, v: Value): Entries {
    map p | p in LeafPaths(v) :: LeafText(printer, v, p)
  }

  lemma InMemberPaths(v: Value, k: string, q: Path)
    requires v.Obj?
    ensures [k] + q in LeafPaths(v) <==> k in v.members && q in LeafPaths(v.members[k])
  {
    if [k] + q in LeafPaths(v) {
      var k', q' :| k' in v.members && q' in LeafPaths(v.members[k']) && [k'] + q' == [k] + q;
      assert ([k'] + q')[0] == k && ([k'] + q')[1..] == q' && ([k] + q)[1..] == q;
    }
  }

  lemma InArrayPaths(v: Value, i: nat, q: Path)
    requires v.Arr?
    ensures [Print(i)] + q in LeafPaths(v) <==> i < |v.elems| && q in ElementPaths(v.elems[i])
  {
    if [Print(i)] + q in LeafPaths(v) {
      var i', q' :| 0 <= i' < |v.elems| && q' in ElementPaths(v.elems[i']) && [Print(i')] + q' == [Print(i)] + q;
      assert ([Print(i')] + q')[0] == Print(i) && ([Print(i')] + q')[1..] == q' && ([Print(i)] + q)[1..] == q;
      PrintInjective(i, i');
    }
  }

  lemma ArrayPathHead(v: Value, p: Path)
    requires v.Arr? && p in LeafPaths(v)
    ensures exists i :: 0 <= i < |v.elems| && p != [] && p[0] == Print(i) && p[1..] in ElementPaths(v.elems[i])
  {
    var i, q :| 0 <= i < |v.elems| && q in ElementPaths(v.elems[i]) && p == [Print(i)] + q;
    assert p[1..] == q;
  }

  lemma ObjectPathHead(v: Value, p: Path)
    requires v.Obj? && p in LeafPaths(v)
    ensures p != [] && p[0] in v.members && p[1..] in LeafPaths(v.members[p[0]])
  {
    var k, q :| k in v.members && q in LeafPaths(v.members[k]) && p == [k] + q;
    assert p[1..] == q;
  }

  lemma ElementTextAt(printer: Printer, v: Value, i: nat, q: Path)
    requires v.Arr? && i < |v.elems|
    ensures LeafText(printer, v, [Print(i)] + q) == ElementText(printer, v.elems[i], q)
  {
    PrintValue(i);
    assert ([Print(i)] + q)[1..] == q;
  }

  // Printed keys

  function KeyText(printer: Printer, p: Path): string
    requires p != []
  {
    if |p| == 1 then PrintPart(printer, p[0])
    else PrintPart(printer, p[0]) + [printer.separator] + KeyText(printer, p[1..])
  }

  /** The printed key of the leaf at `p` below the key of its container, or of the whole tree when `top`. */
  function FullKey(printer: Printer, top: bool, key: string, p: Path): string {
    if p == [] then key
    else if top then KeyText(printer, p)
    else key + [printer.separator] + KeyText(printer, p)
  }

  ghost function LeafWrites(printer: Printer, v: Value, top: bool, key: string): set<(string, string)> {
    set p | p in LeafPaths(v) :: (FullKey(printer, top, key, p), LeafText(printer, v, p))
  }

  /** Array indices print as themselves. */
  ghost predicate KeepsIndices(printer: Printer) {
    forall i: nat :: PrintPart(printer, Print(i)) == Print(i)
  }

  /** No object sits under a root key that prints as the empty string. */
  predicate NamedRoots(printer: Printer, v: Value)
    requires v.Obj?
  {
    forall k :: k in v.members && v.members[k].Obj? ==> PrintPart(printer, k) != ""
  }

  lemma FullKeyStep(printer: Printer, key: string, k: string, q: Path)
    ensures FullKey(printer, false, ChildKey(printer, key, PrintPart(printer, k)), q) == FullKey(printer, key == "", key, [k] + q)
  {
    KeyTextStep(printer, key, k, q);
    var sep := [printer.separator];
    assert key + sep + PrintPart(printer, k) + sep == key + sep + (PrintPart(printer, k) + sep);
  }

  /** Prefixing an element's or member's key in front of the rest of its path. */
  lemma KeyTextStep(printer: Printer, key: string, k: string, q: Path)
    ensures
      var part, sep := PrintPart(printer, k), [printer.separator];
      && (q == [] ==> KeyText(printer, [k] + q) == part)
      && (q != [] ==> KeyText(printer, [k] + q) == part + sep + KeyText(printer, q))
      && (q != [] ==> key + sep + part + sep + KeyText(printer, q) == key + sep + KeyText(printer, [k] + q))
  {
    assert ([k] + q)[1..] == q;
    if q == [] {
      assert [k] + q == [k];
    } else {
      var part, sep := PrintPart(printer, k), [printer.separator];
      assert key + sep + part + sep + KeyText(printer, q) == key + sep + (part + sep + KeyText(printer, q));
    }
  }

  lemma {:induction false} MemberWritesAreLeaves(printer: Printer, v: Value, key: string)
    requires KeepsIndices(printer)
    requires v.Obj? ==> key != ""
    ensures MemberWrites(printer, v, key) == LeafWrites(printer, v, false, key)
    decreases v, 2
  {
    hide KeepsIndices;
    match v
    case Obj(_) => ObjectWritesAreLeaves(printer, v, key);
    case Arr(_) => ArrayWritesAreLeaves(printer, v, key);
    case _ =>
      assert [] in LeafPaths(v);
      assert LeafWrites(printer, v, false, key) == {(key, ValueText(printer, v))};
  }

  lemma {:induction false} ObjectWritesAreLeaves(printer: Printer, v: Value, key: string)
    requires KeepsIndices(printer) && v.Obj?
    requires key != "" || NamedRoots(printer, v)
    ensures Writes(printer, v, key) == LeafWrites(printer, v, key == "", key)
    decreases v, 1
  {
    hide KeepsIndices, MemberWrites, LeafPaths, LeafText, PrintPart, FullKey, LeafWrites, ChildKey;
    forall k | k in v.members
      ensures
        var childKey := ChildKey(printer, key, PrintPart(printer, k));
        MemberWrites(printer, v.members[k], childKey) == LeafWrites(printer, v.members[k], false, childKey)
    {
      ContainerKey(printer, v, key, k);
      MemberWritesAreLeaves(printer, v.members[k], ChildKey(printer, key, PrintPart(printer, k)));
    }
    forall e ensures e in Writes(printer, v, key) <==> e in LeafWrites(printer, v, key == "", key) {
      if e in Writes(printer, v, key) {
        assert e in WritesFor(printer, v, v.members.Keys, key);
        var k :| k in v.members && e in MemberWrites(printer, v.members[k], ChildKey(printer, key, PrintPart(printer, k)));
        LiftLeafWrite(printer, v, key, k, e);
      }
      if e in LeafWrites(printer, v, key == "", key) {
        var k := LowerLeafWrite(printer, v, key, e);
        assert e in MemberWrites(printer, v.members[k], ChildKey(printer, key, PrintPart(printer, k)));
      }
    }
  }

  lemma ContainerKey(printer: Printer, v: Value, key: string, k: string)
    requires v.Obj? && k in v.members && (key != "" || NamedRoots(printer, v))
    ensures v.members[k].Obj? ==> ChildKey(printer, key, PrintPart(printer, k)) != ""
  {
  }

  lemma LiftLeafWrite(printer: Printer, v: Value, key: string, k: string, e: (string, string))
    requires v.Obj? && k in v.members
    requires e in LeafWrites(printer, v.members[k], false, ChildKey(printer, key, PrintPart(printer, k)))
    ensures e in LeafWrites(printer, v, key == "", key)
  {
    var child := v.members[k];
    var childKey := ChildKey(printer, key, PrintPart(printer, k));
    var q :| q in LeafPaths(child) && e == (FullKey(printer, false, childKey, q), LeafText(printer, child, q));
    MemberLeaf(printer, v, key, k, q);
  }

  lemma LowerLeafWrite(printer: Printer, v: Value, key: string, e: (string, string)) returns (k: string)
    requires v.Obj? && e in LeafWrites(printer, v, key == "", key)
    ensures k in v.members && e in LeafWrites(printer, v.members[k], false, ChildKey(printer, key, PrintPart(printer, k)))
  {
    var p :| p in LeafPaths(v) && e == (FullKey(printer, key == "", key, p), LeafText(printer, v, p));
    ObjectPathHead(v, p);
    assert p == [p[0]] + p[1..];
    k := p[0];
    MemberLeaf(printer, v, key, k, p[1..]);
  }

  /** A leaf of a member is a leaf of the object, under the longer path and with the same printed key and text. */
  lemma MemberLeaf(printer: Printer, v: Value, key: string, k: string, q: Path)
    requires v.Obj? && k in v.members && q in LeafPaths(v.members[k])
    ensures [k] + q in LeafPaths(v)
    ensures FullKey(printer, false, ChildKey(printer, key, PrintPart(printer, k)), q) == FullKey(printer, key == "", key, [k] + q)
    ensures LeafText(printer, v, [k] + q) == LeafText(printer, v.members[k], q)
  {
    hide FullKey;
    InMemberPaths(v, k, q);
    FullKeyStep(printer, key, k, q);
    assert ([k] + q)[1..] == q;
  }

  lemma {:induction false} ArrayWritesAreLeaves(printer: Printer, v: Value, key: string)
    requires KeepsIndices(printer) && v.Arr?
    ensures FirstWrites(printer, v, |v.elems|, key) == LeafWrites(printer, v, false, key)
    decreases v, 1
  {
    hide KeepsIndices, ElementWrites, LeafPaths, LeafText, PrintPart, FullKey, LeafWrites;
    forall i | 0 <= i < |v.elems|
      ensures ElementWrites(printer, v.elems[i], ElementKey(printer, key, i)) ==
              ElementLeafWrites(printer, v.elems[i], ElementKey(printer, key, i))
    {
      ElementWritesAreLeaves(printer, v.elems[i], ElementKey(printer, key, i));
    }
    forall e ensures e in FirstWrites(printer, v, |v.elems|, key) <==> e in LeafWrites(printer, v, false, key) {
      if e in FirstWrites(printer, v, |v.elems|, key) {
        var i :| 0 <= i < |v.elems| && e in ElementWrites(printer, v.elems[i], ElementKey(printer, key, i));
        LiftElementWrite(printer, v, key, i, e);
      }
      if e in LeafWrites(printer, v, false, key) {
        var i := LowerElementWrite(printer, v, key, e);
        assert e in ElementWrites(printer, v.elems[i], ElementKey(printer, key, i));
      }
    }
  }

  ghost function ElementLeafWrites(printer: Printer, v: Value, key: string): set<(string, string)> {
    set p | p in ElementPaths(v) :: (FullKey(printer, false, key, p), ElementText(printer, v, p))
  }

  lemma {:induction false} ElementWritesAreLeaves(printer: Printer, v: Value, key: string)
    requires KeepsIndices(printer) && key != ""
    ensures ElementWrites(printer, v, key) == ElementLeafWrites(printer, v, key)
    decreases v, 3
  {
    hide KeepsIndices;
    if v.Obj? {
      ObjectWritesAreLeaves(printer, v, key);
      assert ElementLeafWrites(printer, v, key) == LeafWrites(printer, v, false, key);
    } else {
      assert ElementLeafWrites(printer, v, key) == {(key, ValueText(printer, v))} by {
        assert [] in ElementPaths(v);
      }
    }
  }

  lemma LiftElementWrite(printer: Printer, v: Value, key: string, i: nat, e: (string, string))
    requires KeepsIndices(printer) && v.Arr? && i < |v.elems|
    requires e in ElementLeafWrites(printer, v.elems[i], ElementKey(printer, key, i))
    ensures e in LeafWrites(printer, v, false, key)
  {
    var q :| q in ElementPaths(v.elems[i]) &&
      e == (FullKey(printer, false, ElementKey(printer, key, i), q), ElementText(printer, v.elems[i], q));
    ElementLeaf(printer, v, key, i, q);
  }

  lemma LowerElementWrite(printer: Printer, v: Value, key: string, e: (string, string)) returns (i: nat)
    requires KeepsIndices(printer) && v.Arr?
    requires e in LeafWrites(printer, v, false, key)
    ensures i < |v.elems| && e in ElementLeafWrites(printer, v.elems[i], ElementKey(printer, key, i))
  {
    var p :| p in LeafPaths(v) && e == (FullKey(printer, false, key, p), LeafText(printer, v, p));
    ArrayPathHead(v, p);
    i :| 0 <= i < |v.elems| && p != [] && p[0] == Print(i) && p[1..] in ElementPaths(v.elems[i]);
    assert p == [Print(i)] + p[1..];
    ElementLeaf(printer, v, key, i, p[1..]);
  }

  lemma ElementLeaf(printer: Printer, v: Value, key: string, i: nat, q: Path)
    requires KeepsIndices(printer) && v.Arr? && i < |v.elems| && q in ElementPaths(v.elems[i])
    ensures [Print(i)] + q in LeafPaths(v)
    ensures FullKey(printer, false, ElementKey(printer, key, i), q) == FullKey(printer, false, key, [Print(i)] + q)
    ensures LeafText(printer, v, [Print(i)] + q) == ElementText(printer, v.elems[i], q)
  {
    InArrayPaths(v, i, q);
    KeyTextStep(printer, key, Print(i), q);
    assert PrintPart(printer, Print(i)) == Print(i);
    ElementTextAt(printer, v, i, q);
  }
}
