/** Concrete inputs on which an unconditional form of a law fails. */
module Counterexamples {
  import opened Values
  import opened Decimal
  import opened Keys
  import opened Rebuild
  import opened PanicFreedom
  import opened Merge
  import opened Toml
  import opened Leaves
  import opened Flatten
  import opened FlattenMerge
  import opened Formats

  /** An object, then a plain value, then an object at one path: grouping decides whether the first comes back. */
  lemma MergeIsNotAssociative()
    ensures
      var a, b, c := Obj(map["k" := Obj(map["x" := Null])]), Obj(map["k" := Null]), Obj(map["k" := Obj(map[])]);
      Merged(Merged(a, b), c) != Merged(a, Merged(b, c))
  {
    var a, b, c := Obj(map["k" := Obj(map["x" := Null])]), Obj(map["k" := Null]), Obj(map["k" := Obj(map[])]);
    assert Merged(Merged(a, b), c).members["k"] == Obj(map[]);
    assert "x" in Merged(a, Merged(b, c)).members["k"].members;
  }

  /** A null member is stored by the merge and deletes in a JSON Merge Patch. */
  lemma NullIsStored()
    ensures
      var a, b := Obj(map["k" := Str("v")]), Obj(map["k" := Null]);
      "k" in Merged(a, b).members && "k" !in MergePatch(a, b).members
  {
  }

  /** A date-time under a table of the same name: TOML replaces it, JSON merges into the object it became. */
  lemma DatetimeIsMerged()
    ensures
      var a, b := Table(map["k" := Datetime("1979-05-27")]), Table(map["k" := Table(map[])]);
      ToJson(MergedToml(a, b)) != Merged(ToJson(a), ToJson(b))
  {
    var date, empty := Datetime("1979-05-27"), Table(map[]);
    NothingCoversDate(date.text);
    hide Covered, Merged, MergedToml, ToJson;
    var a, b := Table(map["k" := date]), Table(map["k" := empty]);
    assert "k" in a.members && a.members["k"] == date && "k" in b.members && b.members["k"] == empty;
    assert !DatetimesCovered(a, b);
    ConversionCommutes(a, b);
  }

  lemma NothingCoversDate(text: string)
    ensures ToJson(Datetime(text)).Obj? && ToJson(Table(map[])) == Obj(map[])
    ensures !Covered(ToJson(Datetime(text)), Obj(map[]))
  {
    assert ToJson(Table(map[])).members == map[];
    assert DATETIME_FIELD in ToJson(Datetime(text)).members;
  }

  /** A plain value replaced by an object leaves its own key behind among the extended pairs. */
  lemma ReplacedLeafStays(printer: Printer)
    ensures
      var a, b := Obj(map["k" := Str("v")]), Obj(map["k" := Obj(map["x" := Str("w")])]);
      LeafMap(printer, Merged(a, b)) != LeafMap(printer, a) + LeafMap(printer, b)
  {
    var a, b := Obj(map["k" := Str("v")]), Obj(map["k" := Obj(map["x" := Str("w")])]);
    assert !(LeafPaths(a.members["k"]) <= LeafPaths(b.members["k"])) by {
      assert [] in LeafPaths(a.members["k"]) && [] !in LeafPaths(b.members["k"]);
    }
    LeavesOfMerge(printer, a, b);
  }

  /** An array that holds an object before a plain element: one order of the two keys works, the other panics. */
  lemma MixedArrayPanics(x: string, y: string)
    ensures
      var deep, plain := ["a", "0", "x"], ["a", "1"];
      && Insert(map[], None, deep, x).Done?
      && Insert(Insert(map[], None, deep, x).value, None, plain, y).Done?
      && Insert(map[], None, plain, y).Done?
      && Insert(Insert(map[], None, plain, y).value, None, deep, x).Panic?
  {
  }

  lemma CutKeys()
    ensures Parts(PropertiesParser(), "a") == ["a"] && Parts(PropertiesParser(), "a.x") == ["a", "x"]
  {
    PropertiesParts("a");
    PropertiesParts("a.x");
    hide Split, Parts;
    SplitBreak("a", "x");
    SplitBreak("x", "");
    assert "a" + "." + "x" == "a.x";
  }

  lemma InsertUpper(m: Object)
    ensures Insert(m, None, ["a"], "v") == Done(m["a" := Str("v")])
  {
    assert !IsIndex("a");
  }

  lemma InsertLower()
    ensures Insert(map[], None, ["a", "x"], "w") == Done(map["a" := Obj(map["x" := Str("w")])])
    ensures Insert(map["a" := Str("v")], None, ["a", "x"], "w") == Done(map["a" := Str("v")])
  {
    assert !IsIndex("a") && !IsIndex("x");
    hide ParseUsize;
    assert ["a", "x"][1..] == ["x"];
    assert Insert(map[], Some("a"), ["x"], "w") == Done(map["x" := Str("w")]);
  }

  lemma MergeLower()
    ensures Merged(Obj(map["a" := Str("v")]), Obj(map["a" := Obj(map["x" := Str("w")])])) == Obj(map["a" := Obj(map["x" := Str("w")])])
  {
    var m := Merged(Obj(map["a" := Str("v")]), Obj(map["a" := Obj(map["x" := Str("w")])]));
    assert m.members == map["a" := Obj(map["x" := Str("w")])];
  }

  /** A key below another key of the first map: extending keeps the upper one, merging trees the lower one. */
  lemma ExtendingIsNotMerging()
    ensures
      var upper, lower := map["a" := "v"], map["a.x" := "w"];
      && RebuildInOrder(PropertiesParser(), ["a", "a.x"], upper + lower) == Done(map["a" := Str("v")])
      && Merged(Obj(map["a" := Str("v")]), Obj(map["a" := Obj(map["x" := Str("w")])])) == Obj(map["a" := Obj(map["x" := Str("w")])])
      && RebuildInOrder(PropertiesParser(), ["a"], upper) == Done(map["a" := Str("v")])
      && RebuildInOrder(PropertiesParser(), ["a.x"], lower) == Done(map["a" := Obj(map["x" := Str("w")])])
  {
    hide RebuildInOrder, Merged, Insert, Parts, Split;
    var parser, upper, lower := PropertiesParser(), map["a" := "v"], map["a.x" := "w"];
    CutKeys();
    InsertUpper(map[]);
    InsertLower();
    MergeLower();
    OneKey(parser, upper, "a");
    OneKey(parser, lower, "a.x");
    TwoKeys(parser, upper + lower, "a", "a.x");
  }
}
