/** Deep merge of configuration trees: `merge_json` of `file_format.rs`, its laws, and the fold over a claim's stores. */
module Merge {
  import opened Values

  /** Where both sides are objects their members are merged; anything else in `b` replaces what `a` has. */
  function Merged(a: Value, b: Value): Value
    decreases a
  {
    if a.Obj? && b.Obj? then
      Obj(map k | k in a.members.Keys + b.members.Keys ::
            if k !in b.members then a.members[k]
            else if k in a.members && a.members[k].Obj? && b.members[k].Obj? then Merged(a.members[k], b.members[k])
            else b.members[k])
    else a
  }

  /** A JSON value that is updated in place. */
  class ValueRef {
    var value: Value

    constructor (value: Value)
      ensures this.value == value
    {
      this.value := value;
    }

    /** The source's keys are visited in an order that is not relied upon. */
    method MergeJson(source: Value)
      modifies this
      ensures value == Merged(old(value), source)
      decreases source
    {
      if value.Obj? && source.Obj? {
        var todo := source.members.Keys;
        while todo != {}
          invariant value.Obj?
          invariant todo <= source.members.Keys
          invariant value.members.Keys == old(value).members.Keys + (source.members.Keys - todo)
          invariant forall k :: k in value.members ==>
            value.members[k] == (if k in source.members && k !in todo then Merged(old(value), source) else old(value)).members[k]
        {
          var key :| key in todo;
          var incoming := source.members[key];
          if key in value.members && value.members[key].Obj? && incoming.Obj? {
            var target := new ValueRef(value.members[key]);
            target.MergeJson(incoming);
            value := Obj(value.members[key := target.value]);
          } else {
            value := Obj(value.members[key := incoming]);
          }
          todo := todo - {key};
        }
        assert value.members == Merged(old(value), source).members;
      }
    }
  }

  // Algebra

  lemma {:induction false} Idempotent(a: Value)
    ensures Merged(a, a) == a
  {
    if a.Obj? {
      forall k | k in a.members ensures Merged(a, a).members[k] == a.members[k] {
        Idempotent(a.members[k]);
      }
      assert Merged(a, a).members == a.members;
    }
  }

  lemma EmptyIsIdentity(a: Value)
    requires a.Obj?
    ensures Merged(Obj(map[]), a) == a && Merged(a, Obj(map[])) == a
  {
    assert Merged(Obj(map[]), a).members == a.members;
    assert Merged(a, Obj(map[])).members == a.members;
  }

  /** Unless both sides are objects, the target stays as it is. */
  lemma OnlyObjectsMerge(a: Value, b: Value)
    ensures Merged(a, b) != a ==> a.Obj? && b.Obj?
  {
  }

  /** Merging the same source a second time changes nothing. */
  lemma {:induction false} Absorbs(a: Value, b: Value)
    ensures Merged(Merged(a, b), b) == Merged(a, b)
    decreases a
  {
    if a.Obj? && b.Obj? {
      var m := Merged(a, b);
      forall k | k in m.members ensures Merged(m, b).members[k] == m.members[k] {
        if k in b.members && b.members[k].Obj? {
          if k in a.members && a.members[k].Obj? {
            Absorbs(a.members[k], b.members[k]);
          } else {
            Idempotent(b.members[k]);
          }
        }
      }
      assert Merged(m, b).members == m.members;
    }
  }

  /** Every path of `a` is bound again by `c`. */
  predicate Covered(a: Value, c: Value)
    requires a.Obj? && c.Obj?
    decreases a
  {
    forall k :: k in a.members ==>
      && k in c.members
      && (a.members[k].Obj? && c.members[k].Obj? ==> Covered(a.members[k], c.members[k]))
  }

  lemma {:induction false} CoveredExactly(a: Value, c: Value)
    requires a.Obj? && c.Obj?
    ensures Merged(a, c) == c <==> Covered(a, c)
    decreases a
  {
    var m := Merged(a, c);
    forall k | k in a.members && k in c.members && a.members[k].Obj? && c.members[k].Obj?
      ensures Merged(a.members[k], c.members[k]) == c.members[k] <==> Covered(a.members[k], c.members[k])
    {
      CoveredExactly(a.members[k], c.members[k]);
    }
    if Covered(a, c) {
      assert m.members.Keys == c.members.Keys;
      assert m.members == c.members;
    }
    if m == c {
      forall k | k in a.members ensures k in c.members && (a.members[k].Obj? && c.members[k].Obj? ==> Covered(a.members[k], c.members[k])) {
        assert k in m.members;
      }
    }
  }

  /**
   * Wherever `a` has an object, `b` a plain value and `c` an object at one path, `c` binds
   * everything that `a` binds there.
   */
  predicate Associable(a: Value, b: Value, c: Value)
    requires a.Obj? && b.Obj? && c.Obj?
    decreases a
  {
    forall k :: k in a.members && k in b.members && k in c.members && a.members[k].Obj? && c.members[k].Obj? ==>
      if b.members[k].Obj? then Associable(a.members[k], b.members[k], c.members[k])
      else Covered(a.members[k], c.members[k])
  }

  /** Merging is associative exactly on the triples where no object lost to a plain value comes back. */
  lemma {:induction false} AssociativeExactly(a: Value, b: Value, c: Value)
    requires a.Obj? && b.Obj? && c.Obj?
    ensures Merged(Merged(a, b), c) == Merged(a, Merged(b, c)) <==> Associable(a, b, c)
    decreases a
  {
    var left, right := Merged(Merged(a, b), c), Merged(a, Merged(b, c));
    assert left.members.Keys == right.members.Keys;
    forall k | k in left.members
      ensures left.members[k] == right.members[k] <==>
        (k in a.members && k in b.members && k in c.members && a.members[k].Obj? && c.members[k].Obj? ==>
          if b.members[k].Obj? then Associable(a.members[k], b.members[k], c.members[k])
          else Covered(a.members[k], c.members[k]))
    {
      AssociativeAt(a, b, c, k);
    }
    if Associable(a, b, c) {
      assert left.members == right.members;
    }
  }

  lemma {:induction false} AssociativeAt(a: Value, b: Value, c: Value, k: string)
    requires a.Obj? && b.Obj? && c.Obj? && k in a.members.Keys + b.members.Keys + c.members.Keys
    ensures
      Merged(Merged(a, b), c).members[k] == Merged(a, Merged(b, c)).members[k] <==>
      (k in a.members && k in b.members && k in c.members && a.members[k].Obj? && c.members[k].Obj? ==>
        if b.members[k].Obj? then Associable(a.members[k], b.members[k], c.members[k])
        else Covered(a.members[k], c.members[k]))
    decreases a, 0
  {
    if k in a.members && k in b.members && k in c.members && a.members[k].Obj? && c.members[k].Obj? {
      if b.members[k].Obj? {
        AssociativeExactly(a.members[k], b.members[k], c.members[k]);
      } else {
        CoveredExactly(a.members[k], c.members[k]);
      }
    }
  }

  // The fold over the stores of a claim

  function MergeAll(stores: seq<Value>): Value
    requires stores != []
  {
    if |stores| == 1 then stores[0] else Merged(MergeAll(stores[..|stores| - 1]), stores[|stores| - 1])
  }

  /** `b` binds neither `p` nor, to anything but an object, a prefix of `p`. */
  ghost predicate Spares(b: Value, p: Path) {
    forall q: Path :: q != [] && q <= p && Lookup(b, q).Some? ==> q != p && Lookup(b, q).value.Obj?
  }

  /** `b` binds `p` and its prefixes to nothing but objects. */
  ghost predicate SparesObject(b: Value, p: Path) {
    forall q: Path :: q != [] && q <= p && Lookup(b, q).Some? ==> Lookup(b, q).value.Obj?
  }

  ghost predicate IsObjectAt(v: Value, p: Path) {
    Lookup(v, p).Some? && Lookup(v, p).value.Obj?
  }

  lemma SparesStep(b: Value, p: Path)
    requires b.Obj? && p != []
    ensures |p| == 1 ==> (Spares(b, p) <==> p[0] !in b.members)
    ensures |p| == 1 ==> (SparesObject(b, p) <==> (p[0] in b.members ==> b.members[p[0]].Obj?))
    ensures |p| > 1 ==> (Spares(b, p) <==> (p[0] in b.members ==> b.members[p[0]].Obj? && Spares(b.members[p[0]], p[1..])))
    ensures |p| > 1 ==> (SparesObject(b, p) <==> (p[0] in b.members ==> b.members[p[0]].Obj? && SparesObject(b.members[p[0]], p[1..])))
  {
    var k, rest := p[0], p[1..];
    assert [k] <= p && [k][1..] == [];
    if k in b.members {
      assert Lookup(b, [k]) == Some(b.members[k]);
      forall q: Path | q <= rest ensures [k] + q <= p && Lookup(b, [k] + q) == Lookup(b.members[k], q) {
        assert ([k] + q)[1..] == q;
      }
      forall q: Path | q != [] && q <= p ensures q == [k] + q[1..] && q[1..] <= rest {
      }
    }
  }

  /** A plain value is at `p` after a merge exactly when the source puts it there, or the target has it and the source spares it. */
  lemma {:induction false} MergedValueAt(a: Value, b: Value, p: Path, v: Value)
    requires a.Obj? && b.Obj? && p != [] && !v.Obj?
    ensures Lookup(Merged(a, b), p) == Some(v) <==>
      Lookup(b, p) == Some(v) || (Lookup(a, p) == Some(v) && Spares(b, p))
    decreases |p|
  {
    hide Spares, SparesObject;
    SparesStep(b, p);
    var k, rest := p[0], p[1..];
    if |p| > 1 && k in a.members && k in b.members && a.members[k].Obj? && b.members[k].Obj? {
      MergedValueAt(a.members[k], b.members[k], rest, v);
    }
    if |p| > 1 && k in b.members && b.members[k].Obj? && (k !in a.members || !a.members[k].Obj?) {
      assert Lookup(a, p) == None;
    }
  }

  lemma {:induction false} MergedObjectAt(a: Value, b: Value, p: Path)
    requires a.Obj? && b.Obj? && p != []
    ensures IsObjectAt(Merged(a, b), p) <==> IsObjectAt(b, p) || (IsObjectAt(a, p) && SparesObject(b, p))
    decreases |p|
  {
    hide Spares, SparesObject;
    SparesStep(b, p);
    var k, rest := p[0], p[1..];
    if |p| == 1 {
      assert rest == [];
    }
    assert IsObjectAt(a, p) <==> k in a.members && IsObjectAt(a.members[k], rest);
    assert IsObjectAt(b, p) <==> k in b.members && IsObjectAt(b.members[k], rest);
    assert IsObjectAt(Merged(a, b), p) <==> k in Merged(a, b).members && IsObjectAt(Merged(a, b).members[k], rest);
    if |p| > 1 && k in a.members && k in b.members && a.members[k].Obj? && b.members[k].Obj? {
      MergedObjectAt(a.members[k], b.members[k], rest);
    }
    if |p| > 1 && k in b.members && b.members[k].Obj? && (k !in a.members || !a.members[k].Obj?) {
      assert Lookup(a, p) == None;
    }
  }

  lemma {:induction false} MergeAllIsObject(stores: seq<Value>)
    requires stores != [] && forall i :: 0 <= i < |stores| ==> stores[i].Obj?
    ensures MergeAll(stores).Obj?
  {
    if |stores| > 1 {
      MergeAllIsObject(stores[..|stores| - 1]);
    }
  }

  /** Store `i` has the plain value `v` at `p`, and every later store spares it. */
  ghost predicate LastWrites(stores: seq<Value>, i: int, p: Path, v: Value) {
    && 0 <= i < |stores| && Lookup(stores[i], p) == Some(v)
    && forall j :: i < j < |stores| ==> Spares(stores[j], p)
  }

  ghost predicate LastHasObject(stores: seq<Value>, i: int, p: Path) {
    && 0 <= i < |stores| && IsObjectAt(stores[i], p)
    && forall j :: i < j < |stores| ==> SparesObject(stores[j], p)
  }

  lemma LastWritesStep(stores: seq<Value>, i: int, p: Path, v: Value)
    requires stores != []
    ensures
      var n := |stores| - 1;
      LastWrites(stores, i, p, v) <==>
        if i == n then Lookup(stores[n], p) == Some(v) else LastWrites(stores[..n], i, p, v) && Spares(stores[n], p)
    ensures LastWrites(stores[..|stores| - 1], i, p, v) ==> i < |stores| - 1
  {
    hide Spares, Lookup;
    var n := |stores| - 1;
    assert forall j :: 0 <= j < n ==> stores[..n][j] == stores[j];
  }

  lemma LastHasObjectStep(stores: seq<Value>, i: int, p: Path)
    requires stores != []
    ensures
      var n := |stores| - 1;
      LastHasObject(stores, i, p) <==>
        if i == n then IsObjectAt(stores[n], p) else LastHasObject(stores[..n], i, p) && SparesObject(stores[n], p)
    ensures LastHasObject(stores[..|stores| - 1], i, p) ==> i < |stores| - 1
  {
    hide SparesObject, IsObjectAt;
    var n := |stores| - 1;
    assert forall j :: 0 <= j < n ==> stores[..n][j] == stores[j];
  }

  /**
   * Last writer wins: the fold has the plain value `v` at `p` exactly when some store has it there and
   * every later store binds neither `p` nor, to anything but an object, a prefix of `p`.
   */
  lemma {:induction false} LastWriterWins(stores: seq<Value>, p: Path, v: Value)
    requires stores != [] && forall i :: 0 <= i < |stores| ==> stores[i].Obj?
    requires p != [] && !v.Obj?
    ensures Lookup(MergeAll(stores), p) == Some(v) <==> exists i :: LastWrites(stores, i, p, v)
  {
    hide Spares, Lookup, LastWrites;
    var n := |stores| - 1;
    var before := stores[..n];
    forall i
      ensures LastWrites(stores, i, p, v) <==>
        if i == n then Lookup(stores[n], p) == Some(v) else LastWrites(before, i, p, v) && Spares(stores[n], p)
      ensures LastWrites(before, i, p, v) ==> i < n
    {
      LastWritesStep(stores, i, p, v);
    }
    assert LastWrites(stores, n, p, v) <==> Lookup(stores[n], p) == Some(v);
    if n > 0 {
      LastWriterWins(before, p, v);
      MergeAllIsObject(before);
      MergedValueAt(MergeAll(before), stores[n], p, v);
    } else {
      forall i ensures !LastWrites(before, i, p, v) {
        NoStoreWrites(i, p, v);
      }
    }
  }

  lemma NoStoreWrites(i: int, p: Path, v: Value)
    ensures !LastWrites([], i, p, v) && !LastHasObject([], i, p)
  {
  }

  /** The same law for objects: an object stays at `p` while later stores bind `p` and its prefixes to objects only. */
  lemma {:induction false} ObjectsPersist(stores: seq<Value>, p: Path)
    requires stores != [] && forall i :: 0 <= i < |stores| ==> stores[i].Obj?
    requires p != []
    ensures IsObjectAt(MergeAll(stores), p) <==> exists i :: LastHasObject(stores, i, p)
  {
    hide SparesObject, IsObjectAt, LastHasObject;
    var n := |stores| - 1;
    var before := stores[..n];
    forall i
      ensures LastHasObject(stores, i, p) <==>
        if i == n then IsObjectAt(stores[n], p) else LastHasObject(before, i, p) && SparesObject(stores[n], p)
      ensures LastHasObject(before, i, p) ==> i < n
    {
      LastHasObjectStep(stores, i, p);
    }
    assert LastHasObject(stores, n, p) <==> IsObjectAt(stores[n], p);
    if n > 0 {
      ObjectsPersist(before, p);
      MergeAllIsObject(before);
      MergedObjectAt(MergeAll(before), stores[n], p);
    } else {
      forall i ensures !LastHasObject(before, i, p) {
        NoStoreWrites(i, p, Null);
      }
    }
  }

  // JSON Merge Patch, section 2 of RFC 7396

  function MergePatch(target: Value, patch: Value): Value
    decreases patch
  {
    if !patch.Obj? then patch
    else
      var members := if target.Obj? then target.members else map[];
      Obj(map k | k in members.Keys + patch.members.Keys && !(k in patch.members && patch.members[k].Null?) ::
            if k !in patch.members then members[k]
            else MergePatch(if k in members then members[k] else Null, patch.members[k]))
  }

  /** No object member is null, arrays not looked into. */
  predicate NullFree(v: Value) {
    v.Obj? ==> forall k :: k in v.members ==> !v.members[k].Null? && NullFree(v.members[k])
  }

  lemma {:induction false} PatchOverOther(target: Value, patch: Value)
    requires !target.Obj? && patch.Obj?
    ensures MergePatch(target, patch) == patch <==> NullFree(patch)
    decreases patch
  {
    var m := MergePatch(target, patch).members;
    forall k | k in patch.members && patch.members[k].Obj?
      ensures MergePatch(Null, patch.members[k]) == patch.members[k] <==> NullFree(patch.members[k])
    {
      PatchOverOther(Null, patch.members[k]);
    }
    if NullFree(patch) {
      assert m.Keys == patch.members.Keys;
      forall k | k in m ensures m[k] == patch.members[k] {
        if !patch.members[k].Obj? {
          assert MergePatch(Null, patch.members[k]) == patch.members[k];
        }
      }
    }
    if m == patch.members {
      forall k | k in patch.members ensures !patch.members[k].Null? && NullFree(patch.members[k]) {
        assert k in m;
      }
    }
  }

  /** On objects the merge is a JSON Merge Patch exactly when the source has no null member. */
  lemma {:induction false} PatchExactly(a: Value, b: Value)
    requires a.Obj? && b.Obj?
    ensures Merged(a, b) == MergePatch(a, b) <==> NullFree(b)
    decreases b
  {
    var m, patched := Merged(a, b).members, MergePatch(a, b).members;
    forall k | k in b.members && b.members[k].Obj?
      ensures !b.members[k].Null? && k in patched && (m[k] == patched[k] <==> NullFree(b.members[k]))
    {
      if k in a.members && a.members[k].Obj? {
        PatchExactly(a.members[k], b.members[k]);
      } else {
        PatchOverOther(if k in a.members then a.members[k] else Null, b.members[k]);
      }
    }
    if NullFree(b) {
      assert m.Keys == patched.Keys;
      forall k | k in m ensures m[k] == patched[k] {
        if k in b.members && !b.members[k].Obj? {
          assert MergePatch(if k in a.members then a.members[k] else Null, b.members[k]) == b.members[k];
        }
      }
    }
    if m == patched {
      forall k | k in b.members ensures !b.members[k].Null? && NullFree(b.members[k]) {
        assert k in m;
      }
    }
  }
}
