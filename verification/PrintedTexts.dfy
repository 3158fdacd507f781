/** The texts of flattened pairs, value by value. */
module PrintedTexts {
  import opened Values
  import opened Decimal
  import opened Keys
  import opened Flatten
  import opened Leaves
  import opened RoundTrip

  /**
   * The plain value at a path of member keys and of decimal positions of array elements. An array counts as plain
   * inside another array, and is not entered there.
   */
  function PlainAt(v: Value, p: Path): Option<Value>
    decreases v, 0
  {
    match v
    case Obj(m) => if p != [] && p[0] in m then PlainAt(m[p[0]], p[1..]) else None
    case Arr(elems) =>
      if p != [] && AllDigits(p[0]) && DigitsValue(p[0]) < |elems| && Print(DigitsValue(p[0])) == p[0]
      then PlainElementAt(elems[DigitsValue(p[0])], p[1..]) else None
    case _ => if p == [] then Some(v) else None
  }

  function PlainElementAt(v: Value, p: Path): Option<Value>
    decreases v, 1
  {
    if v.Obj? then PlainAt(v, p) else if p == [] then Some(v) else None
  }

  /** What stands in a properties or env file for a value that is not an object; an array counts when it is in an array. */
  predicate StandsFor(printer: Printer, v: Value, text: string) {
    match v
    case Null => text == "null"
    case Bool(b) => (b && text == "true") || (!b && text == "false")
    case Number(digits) => text == digits
    case Str(s) => text == s
    case Arr(_) => text == printer.render(v)
    case Obj(_) => false
  }

  lemma {:induction false} LeafAt(printer: Printer, v: Value, p: Path)
    requires PlainAt(v, p).Some?
    ensures p in LeafPaths(v) && StandsFor(printer, PlainAt(v, p).value, LeafText(printer, v, p))
    decreases v, 0
  {
    match v
    case Obj(m) =>
      LeafAt(printer, m[p[0]], p[1..]);
      InMemberPaths(v, p[0], p[1..]);
      assert p == [p[0]] + p[1..];
    case Arr(elems) =>
      var i := DigitsValue(p[0]);
      if elems[i].Obj? {
        LeafAt(printer, elems[i], p[1..]);
      }
      InArrayPaths(v, i, p[1..]);
      assert p == [Print(i)] + p[1..];
    case _ =>
  }

  /** A path that only follows object members is read as such. */
  lemma {:induction false} LookupIsPlain(v: Value, p: Path)
    requires Lookup(v, p).Some? && !Lookup(v, p).value.Obj? && !Lookup(v, p).value.Arr?
    ensures PlainAt(v, p) == Lookup(v, p)
    decreases |p|
  {
    if p != [] {
      LookupIsPlain(v.members[p[0]], p[1..]);
    }
  }

  /** The same for an element of an array that members lead to. */
  lemma {:induction false} ElementIsPlain(v: Value, p: Path, i: nat)
    requires Lookup(v, p).Some? && Lookup(v, p).value.Arr? && i < |Lookup(v, p).value.elems|
    requires !Lookup(v, p).value.elems[i].Obj?
    ensures PlainAt(v, p + [Print(i)]) == Some(Lookup(v, p).value.elems[i])
    decreases |p|
  {
    var longer := p + [Print(i)];
    if p == [] {
      PrintValue(i);
      assert longer[1..] == [];
    } else {
      assert longer[1..] == p[1..] + [Print(i)];
      ElementIsPlain(v.members[p[0]], p[1..], i);
    }
  }

  /**
   * Under faithful printing, the pair of every plain value, at any depth and through arrays of objects, has its text:
   * true and false, null, the string itself, the digits of a number, and the JSON text of an array in an array.
   */
  lemma PairsHoldTexts(printer: Printer, parser: Parser, v: Value, pairs: map<string, string>, p: Path)
    requires v.Obj? && KeepsIndices(printer) && NamedRoots(printer, v) && Faithful(printer, parser, v)
    requires FlattensTo(printer, v, pairs) && PlainAt(v, p).Some?
    ensures p != [] && KeyText(printer, p) in pairs && StandsFor(printer, PlainAt(v, p).value, pairs[KeyText(printer, p)])
  {
    hide LeafPaths, LeafText, KeepsIndices, NamedRoots, FlattensTo, KeyText, Parts, StandsFor;
    FlattenedIsLeaves(printer, parser, v, pairs);
    LeafAt(printer, v, p);
    assert KeyText(printer, p) in KeyTexts(printer, LeafPaths(v));
  }

  /** The same, read off the tree by its member keys alone. */
  lemma PairsHoldMembers(printer: Printer, parser: Parser, v: Value, pairs: map<string, string>, p: Path)
    requires v.Obj? && KeepsIndices(printer) && NamedRoots(printer, v) && Faithful(printer, parser, v)
    requires FlattensTo(printer, v, pairs)
    requires Lookup(v, p).Some? && !Lookup(v, p).value.Obj?
    ensures
      match Lookup(v, p).value
      case Arr(elems) => forall i :: 0 <= i < |elems| && !elems[i].Obj? ==>
        var key := KeyText(printer, p + [Print(i)]);
        key in pairs && StandsFor(printer, elems[i], pairs[key])
      case leaf => p != [] && KeyText(printer, p) in pairs && StandsFor(printer, leaf, pairs[KeyText(printer, p)])
  {
    hide KeepsIndices, NamedRoots, Faithful, FlattensTo, KeyText, StandsFor, Print, PlainAt;
    match Lookup(v, p).value
    case Arr(elems) =>
      forall i: int | 0 <= i < |elems| && !elems[i].Obj?
        ensures
          var key := KeyText(printer, p + [Print(i)]);
          key in pairs && StandsFor(printer, elems[i], pairs[key])
      {
        ElementIsPlain(v, p, i);
        PairsHoldTexts(printer, parser, v, pairs, p + [Print(i)]);
      }
    case _ =>
      LookupIsPlain(v, p);
      PairsHoldTexts(printer, parser, v, pairs, p);
  }
}
