/** What a partially rebuilt tree looks like, whatever order its paths arrived in. */
module Canonical {
  import opened Values
  import opened Decimal

  function TailsUnder(paths: set<Path>, k: string): set<Path> {
    set p | p in paths && |p| > 1 && p[0] == k :: p[1..]
  }

  lemma InTailsUnder(paths: set<Path>, k: string, q: Path)
    ensures q in TailsUnder(paths, k) <==> q != [] && [k] + q in paths
  {
    if q != [] && [k] + q in paths {
      var p := [k] + q;
      assert p[0] == k && p[1..] == q;
    }
    if q in TailsUnder(paths, k) {
      var p :| p in paths && |p| > 1 && p[0] == k && p[1..] == q;
      assert p == [k] + q;
    }
  }

  /** The entries below key `k`, with `k` removed from the front of their paths. */
  function Under(all: Entries, k: string): (r: Entries)
    ensures r.Keys == TailsUnder(all.Keys, k)
  {
    map q | q in TailsUnder(all.Keys, k) :: (InTailsUnder(all.Keys, k, q); all[[k] + q])
  }

  predicate HasHead(paths: set<Path>, k: string) {
    exists p :: p in paths && p != [] && p[0] == k
  }

  predicate HasIndexHead(paths: set<Path>) {
    exists p :: p in paths && p != [] && IsIndex(p[0])
  }

  /** Some array element is itself an object. */
  predicate HasDeep(paths: set<Path>) {
    exists p :: p in paths && |p| > 1 && IsIndex(p[0])
  }

  /**
   * One level of a path set is well formed: indices appear only below a named key, in canonical
   * decimal form, and not beside a key of the array's own name; and when an array holds objects,
   * its plain elements fill an initial segment before all of them.
   */
  ghost predicate LevelGood(paths: set<Path>, parent: Option<string>) {
    && [] !in paths
    && (forall p :: p in paths && IsIndex(p[0]) ==>
          && parent.Some?
          && p[0] == Print(ParseUsize(p[0]).value)
          && (IsIndex(parent.value) || !HasHead(paths, parent.value)))
    && (forall i: nat, p :: [Print(i)] in paths && p in paths && |p| > 1 && IsIndex(p[0]) ==>
          && i < ParseUsize(p[0]).value
          && forall j: nat :: j < i ==> [Print(j)] in paths)
  }

  /** The remainders of the paths that properly extend `q`. */
  function Beneath(paths: set<Path>, q: Path): set<Path> {
    set p | p in paths && q < p :: p[|q|..]
  }

  function ParentAt(parent: Option<string>, q: Path): Option<string> {
    if q == [] then parent else Some(q[|q| - 1])
  }

  /** Every level of the path set is well formed. */
  ghost predicate Good(paths: set<Path>, parent: Option<string>) {
    && [] !in paths
    && forall q: Path :: LevelGood(Beneath(paths, q), ParentAt(parent, q))
  }

  lemma InBeneath(paths: set<Path>, q: Path, r: Path)
    ensures r in Beneath(paths, q) <==> r != [] && q + r in paths
  {
    if r != [] && q + r in paths {
      assert q < q + r && (q + r)[|q|..] == r;
    }
    if r in Beneath(paths, q) {
      var p :| p in paths && q < p && p[|q|..] == r;
      assert p == q + r;
    }
  }

  lemma BeneathUnder(paths: set<Path>, k: string, q: Path)
    ensures Beneath(TailsUnder(paths, k), q) == Beneath(paths, [k] + q)
  {
    forall r ensures r in Beneath(TailsUnder(paths, k), q) <==> r in Beneath(paths, [k] + q) {
      InBeneath(TailsUnder(paths, k), q, r);
      InBeneath(paths, [k] + q, r);
      if r != [] {
        InTailsUnder(paths, k, q + r);
        assert [k] + (q + r) == [k] + q + r;
      }
    }
  }

  lemma BeneathNothing(paths: set<Path>)
    requires [] !in paths
    ensures Beneath(paths, []) == paths
  {
    forall r ensures r in Beneath(paths, []) <==> r in paths {
      InBeneath(paths, [], r);
      assert [] + r == r;
    }
  }

  lemma GoodUnfold(paths: set<Path>, parent: Option<string>)
    requires Good(paths, parent)
    ensures LevelGood(paths, parent)
    ensures forall k :: Good(TailsUnder(paths, k), Some(k))
  {
    BeneathNothing(paths);
    assert LevelGood(Beneath(paths, []), ParentAt(parent, []));
    forall k ensures Good(TailsUnder(paths, k), Some(k)) {
      forall q: Path ensures LevelGood(Beneath(TailsUnder(paths, k), q), ParentAt(Some(k), q)) {
        BeneathUnder(paths, k, q);
        assert LevelGood(Beneath(paths, [k] + q), ParentAt(parent, [k] + q));
      }
      InTailsUnder(paths, k, []);
    }
  }

  lemma GoodFold(paths: set<Path>, parent: Option<string>)
    requires LevelGood(paths, parent)
    requires forall k :: HasHead(paths, k) ==> Good(TailsUnder(paths, k), Some(k))
    ensures Good(paths, parent)
  {
    forall q: Path ensures LevelGood(Beneath(paths, q), ParentAt(parent, q)) {
      if q == [] {
        BeneathNothing(paths);
      } else {
        var k, q' := q[0], q[1..];
        assert q == [k] + q';
        BeneathUnder(paths, k, q');
        if HasHead(paths, k) {
          assert LevelGood(Beneath(TailsUnder(paths, k), q'), ParentAt(Some(k), q'));
        } else {
          assert Beneath(paths, q) == {};
        }
      }
    }
  }

  /** The names bound in a map after the paths in `done` have been inserted. */
  ghost predicate KeysBuilt(keys: set<string>, parent: Option<string>, done: set<Path>) {
    forall k :: k in keys <==>
      || (HasHead(done, k) && !IsIndex(k))
      || (HasIndexHead(done) && parent == Some(k))
  }

  /** `v` is the object reached once exactly the paths in `done`, a part of `all`, have been inserted. */
  ghost predicate Builds(v: Value, parent: Option<string>, all: Entries, done: set<Path>)
    decreases v, 0
  {
    && v.Obj?
    && KeysBuilt(v.members.Keys, parent, done)
    && (forall k :: k in v.members && HasHead(done, k) && !IsIndex(k) ==> NameBuilt(v.members[k], k, all, done))
    && (HasIndexHead(done) && parent.Some? && parent.value in v.members ==>
          ArrayBuilt(v.members[parent.value], all, done))
  }

  /** What the name `k` is bound to: its own value wins over anything below it. */
  ghost predicate NameBuilt(v: Value, k: string, all: Entries, done: set<Path>)
    decreases v, 1
  {
    if [k] in done && [k] in all then v == Str(all[[k]])
    else Builds(v, Some(k), Under(all, k), TailsUnder(done, k))
  }

  ghost predicate ArrayBuilt(v: Value, all: Entries, done: set<Path>)
    decreases v, 0
  {
    && v.Arr? && |v.elems| <= USIZE_BOUND
    && (forall p :: p in done && p != [] && IsIndex(p[0]) ==> ParseUsize(p[0]).value < |v.elems|)
    && (v.elems != [] ==> HasHead(done, Print(|v.elems| - 1)))
    && (forall i :: 0 <= i < |v.elems| ==> ElementBuilt(v.elems[i], Print(i), all, done))
  }

  /** A plain element that has not arrived yet is padding: null, or an empty object when the array holds objects. */
  ghost predicate ElementBuilt(v: Value, s: string, all: Entries, done: set<Path>)
    decreases v, 1
  {
    if [s] in all then
      if [s] in done then v == Str(all[[s]]) else v == Null || (HasDeep(all.Keys) && v == Obj(map[]))
    else if HasDeep(all.Keys) then Builds(v, Some(s), Under(all, s), TailsUnder(done, s))
    else v == Null
  }
}
