/** The properties and env-file formats: their separators, escapes and case conversions, and their round trips. */
module Formats {
  import opened Values
  import opened Decimal
  import opened Keys
  import opened Rebuild
  import opened Confluence
  import opened Flatten
  import opened Leaves
  import opened RoundTrip
  import opened Exactness

  // Properties files

  function PropertiesPrinter(render: Value -> string): Printer {
    Printer('.', ".", s => s, render)
  }

  function PropertiesParser(): Parser {
    Parser('.', None, s => s)
  }

  predicate NoDot(k: string) {
    '.' !in k
  }

  /** No key contains a dot. */
  predicate DotFree(v: Value) {
    EveryKey(v, NoDot)
  }

  lemma PropertiesParts(key: string)
    ensures Parts(PropertiesParser(), key) == Split(key, '.')
  {
  }

  /** Different properties keys always have different parts. */
  lemma PropertiesPartsDiffer(properties: map<string, string>)
    ensures DistinctParts(PropertiesParser(), properties)
  {
    forall k, k' | k in properties && k' in properties && Parts(PropertiesParser(), k) == Parts(PropertiesParser(), k') ensures k == k' {
      PropertiesParts(k);
      PropertiesParts(k');
      JoinSplit(k, '.');
      JoinSplit(k', '.');
    }
  }

  lemma ReplaceBySelf(s: string, c: char)
    ensures Replace(s, c, [c]) == s
  {
  }

  lemma ReplaceAbsent(s: string, c: char, with: string)
    requires c !in s
    ensures Replace(s, c, with) == s
  {
  }

  lemma {:induction false} PropertiesKeyText(render: Value -> string, p: Path)
    requires p != []
    ensures KeyText(PropertiesPrinter(render), p) == Join(p, '.')
  {
    ReplaceBySelf(p[0], '.');
    if |p| > 1 {
      PropertiesKeyText(render, p[1..]);
    }
  }

  lemma {:induction false} DotFreeLeaves(v: Value, p: Path)
    requires DotFree(v) && p in LeafPaths(v)
    ensures forall i :: 0 <= i < |p| ==> '.' !in p[i]
    decreases v
  {
    match v
    case Obj(m) =>
      ObjectPathHead(v, p);
      DotFreeLeaves(m[p[0]], p[1..]);
    case Arr(elems) =>
      ArrayPathHead(v, p);
      var i :| 0 <= i < |elems| && p != [] && p[0] == Print(i) && p[1..] in ElementPaths(elems[i]);
      if elems[i].Obj? {
        DotFreeLeaves(elems[i], p[1..]);
      }
    case _ =>
  }

  lemma PropertiesKeepIndices(render: Value -> string)
    ensures KeepsIndices(PropertiesPrinter(render))
  {
    forall i: nat ensures PrintPart(PropertiesPrinter(render), Print(i)) == Print(i) {
      ReplaceBySelf(Print(i), '.');
    }
  }

  lemma PropertiesFaithful(render: Value -> string, v: Value)
    requires v.Obj? && DotFree(v)
    ensures Faithful(PropertiesPrinter(render), PropertiesParser(), v)
  {
    LeafPathsContainer(v);
    forall p | p in LeafPaths(v) ensures Parts(PropertiesParser(), KeyText(PropertiesPrinter(render), p)) == p {
      PropertiesKeyText(render, p);
      DotFreeLeaves(v, p);
      SplitJoin(p, '.');
    }
  }

  // An object under the empty root key loses that key, and nothing gives it back

  /** The parts begin with a non-empty part, are the empty part alone, or go from it to an array index. */
  predicate Tame(parts: Path) {
    parts != [] && (parts[0] == "" ==> |parts| == 1 || IsIndex(parts[1]))
  }

  lemma SplitBreak(s: string, t: string)
    requires NoDot(s)
    ensures Split(s, '.') == [s]
    ensures Split(s + "." + t, '.') == [s] + Split(t, '.')
  {
    SplitPrefix(s, "", '.');
    assert s + "" == s;
    GlueBreak(s, []);
    SplitPrefix(s, "." + t, '.');
    assert s + "." + t == s + ("." + t) && ("." + t)[1..] == t;
    GlueBreak(s, Split(t, '.'));
  }

  lemma {:induction false} WritesAreTame(render: Value -> string, v: Value, e: (string, string))
    requires v.Obj? && DotFree(v) && Indexable(v)
    requires e in Writes(PropertiesPrinter(render), v, "")
    ensures Tame(Split(e.0, '.'))
    decreases v
  {
    hide MemberWrites, LeafPaths, KeyText, Split, IsIndex;
    var printer := PropertiesPrinter(render);
    assert e in WritesFor(printer, v, v.members.Keys, "");
    var k :| k in v.members && e in MemberWrites(printer, v.members[k], ChildKey(printer, "", PrintPart(printer, k)));
    ReplaceBySelf(k, '.');
    assert ChildKey(printer, "", PrintPart(printer, k)) == k;
    var child := v.members[k];
    if k == "" && child.Obj? {
      assert MemberWrites(printer, child, "") == Writes(printer, child, "") by { ObjectMemberWrites(printer, child, ""); }
      WritesAreTame(render, child, e);
    } else {
      PropertiesKeepIndices(render);
      MemberWritesAreLeaves(printer, child, k);
      var p :| p in LeafPaths(child) && e.0 == FullKey(printer, false, k, p);
      if p == [] {
        SplitBreak(k, "");
      } else {
        SplitBreak(k, KeyText(printer, p));
        if k == "" {
          IndexComesFirst(render, child, p);
        }
      }
    }
  }

  lemma ObjectMemberWrites(printer: Printer, v: Value, key: string)
    requires v.Obj?
    ensures MemberWrites(printer, v, key) == Writes(printer, v, key)
  {
  }

  lemma IndexComesFirst(render: Value -> string, v: Value, p: Path)
    requires !v.Obj? && Indexable(v) && p in LeafPaths(v) && p != []
    ensures IsIndex(Split(KeyText(PropertiesPrinter(render), p), '.')[0])
  {
    hide LeafPaths, Split;
    var printer := PropertiesPrinter(render);
    assert v.Arr? by { PlainLeafPaths(v); }
    ArrayPathHead(v, p);
    ReplaceBySelf(p[0], '.');
    var i :| 0 <= i < |v.elems| && p[0] == Print(i);
    ParsePrint(i);
    SplitBreak(p[0], if |p| == 1 then "" else KeyText(printer, p[1..]));
  }

  lemma PlainLeafPaths(v: Value)
    ensures !v.Obj? && !v.Arr? ==> LeafPaths(v) == {[]}
  {
  }

  /** Below an empty root key there are only arrays. */
  predicate RootTame(m: Object) {
    "" in m && m[""].Obj? ==> forall k :: k in m[""].members ==> m[""].members[k].Arr?
  }

  lemma {:induction false} RebuildTame(order: seq<string>, properties: map<string, string>)
    requires forall i :: 0 <= i < |order| ==> order[i] in properties
    requires forall k :: k in properties ==> Tame(Parts(PropertiesParser(), k))
    requires RebuildInOrder(PropertiesParser(), order, properties).Done?
    ensures RootTame(RebuildInOrder(PropertiesParser(), order, properties).value)
  {
    hide Insert, Parts, RootTame, Tame;
    if order == [] {
      assert RootTame(map[]) by { NothingTame(); }
    } else {
      var last, before := order[|order| - 1], order[..|order| - 1];
      RebuildTame(before, properties);
      InsertTame(RebuildInOrder(PropertiesParser(), before, properties).value, Parts(PropertiesParser(), last), properties[last]);
    }
  }

  lemma NothingTame()
    ensures RootTame(map[])
  {
  }

  lemma InsertTame(m: Object, parts: Path, value: string)
    requires RootTame(m) && Tame(parts) && Insert(m, None, parts, value).Done?
    ensures RootTame(Insert(m, None, parts, value).value)
  {
    hide InsertNumeric;
    assert !IsIndex("");
    assert Insert(m, None, parts, value) == InsertString(m, parts, value);
    if parts[0] == "" && |parts| > 1 {
      var entry := if "" in m then m[""] else Obj(map[]);
      if entry.Obj? {
        var members := Insert(entry.members, Some(""), parts[1..], value).value;
        assert members.Keys == entry.members.Keys + {""} && members[""].Arr?;
      }
    }
  }

  lemma WrappedIsNotTame(printer: Printer, v: Value)
    requires v.Obj? && "" in v.members && v.members[""].Obj? && v.members[""] != Obj(map[])
    ensures !RootTame(Wrapped(printer, v).members)
  {
    var child := v.members[""];
    assert Wrapped(printer, v).members[""] == Wrapped(printer, child);
    var k :| k in child.members;
    assert Wrapped(printer, child).members[k] == WrappedMember(printer, k, child.members[k]);
  }

  lemma RootMustBeNamed(render: Value -> string, v: Value, pairs: map<string, string>)
    requires v.Obj? && DotFree(v) && Indexable(v) && Filled(v)
    requires FlattensTo(PropertiesPrinter(render), v, pairs)
    requires RoundTrips(PropertiesPrinter(render), PropertiesParser(), v, pairs)
    ensures "" in v.members ==> !v.members[""].Obj?
  {
    hide Parts, RebuildInOrder, Tame, RootTame, DotFree, Indexable, Writes;
    var printer := PropertiesPrinter(render);
    forall k | k in pairs ensures Tame(Parts(PropertiesParser(), k)) {
      var e :| e in Writes(printer, v, "") && e.0 == k;
      WritesAreTame(render, v, e);
      PropertiesParts(k);
    }
    var order := SomeOrder(pairs.Keys);
    assert Enumerates(order, pairs.Keys);
    RebuildTame(order, pairs);
    if "" in v.members && v.members[""].Obj? {
      WrappedIsNotTame(printer, v);
    }
  }

  /**
   * Properties round trip, for every tree: each iteration order of the flattened pairs gives the wrapped
   * tree back exactly when keys are dot-free and do not read as indices, nothing is hollow, no array holds
   * an object before a plain element, and no object sits under an empty root key.
   */
  lemma PropertiesRoundTrip(render: Value -> string, v: Value, pairs: map<string, string>)
    requires v.Obj? && Indexable(v) && FlattensTo(PropertiesPrinter(render), v, pairs)
    ensures RoundTrips(PropertiesPrinter(render), PropertiesParser(), v, pairs) <==>
      && DotFree(v) && NamedKeys(v) && Filled(v) && ScalarsFirst(v)
      && ("" in v.members ==> !v.members[""].Obj?)
  {
    hide RoundTrips, DotFree, NamedKeys, Filled, ScalarsFirst, Indexable, FlattensTo, KeepsIndices, Faithful;
    var printer, parser := PropertiesPrinter(render), PropertiesParser();
    PropertiesKeepIndices(render);
    if RoundTrips(printer, parser, v, pairs) {
      PropertiesReturn(render, v, pairs);
      RootMustBeNamed(render, v, pairs);
    }
    if DotFree(v) && ("" in v.members ==> !v.members[""].Obj?) {
      PropertiesFaithful(render, v);
      forall k | k in v.members && v.members[k].Obj? ensures PrintPart(printer, k) != "" {
        ReplaceBySelf(k, '.');
      }
      RoundTripExactly(printer, parser, v, pairs);
    }
  }

  lemma PropertiesReturn(render: Value -> string, v: Value, pairs: map<string, string>)
    requires v.Obj? && Indexable(v) && RoundTrips(PropertiesPrinter(render), PropertiesParser(), v, pairs)
    ensures DotFree(v) && NamedKeys(v) && Filled(v)
  {
    hide Indexable, RoundTrips, NamedKeys, Filled, EveryKey;
    forall k | k in pairs ensures AllClean(Parts(PropertiesParser(), k), NoDot) {
      PropertiesParts(k);
      SplitPartsClean(k, '.');
    }
    ReturningIsFilled(PropertiesPrinter(render), PropertiesParser(), v, pairs, NoDot);
  }

  // Env files. The case conversions are `convert_case`'s, on ASCII letters without two adjacent capitals and on digits.

  predicate IsUpper(c: char) {
    'A' <= c <= 'Z'
  }

  predicate IsLower(c: char) {
    'a' <= c <= 'z'
  }

  function ToUpper(c: char): char {
    if IsLower(c) then 'A' + (c - 'a') else c
  }

  function ToLower(c: char): char {
    if IsUpper(c) then 'a' + (c - 'A') else c
  }

  /** Upper snake case: a word starts before each capital after the first character. */
  function UpperSnake(s: string): string {
    if s == [] then [] else [ToUpper(s[0])] + UpperSnakeTail(s[1..])
  }

  function UpperSnakeTail(s: string): string {
    if s == [] then [] else (if IsUpper(s[0]) then ['_', s[0]] else [ToUpper(s[0])]) + UpperSnakeTail(s[1..])
  }

  /** Lower case and then camel case: each underscore is dropped and the character after it capitalised. */
  function LowerCamel(s: string): string {
    if s == [] then []
    else if |s| > 1 && s[0] == '_' then [ToUpper(s[1])] + LowerCamel(s[2..])
    else [ToLower(s[0])] + LowerCamel(s[1..])
  }

  /** How env files are printed and parsed, for any pair of case conversions. */
  function CasedPrinter(snake: string -> string, render: Value -> string): Printer {
    Printer('_', "__", snake, render)
  }

  function CasedParser(camel: string -> string): Parser {
    Parser('_', Some('_'), camel)
  }

  function EnvPrinter(render: Value -> string): Printer {
    CasedPrinter(UpperSnake, render)
  }

  function EnvParser(): Parser {
    CasedParser(LowerCamel)
  }

  /** The printed form of the key is read back, is not empty, and does not start with an underscore. */
  predicate Reverses(snake: string -> string, camel: string -> string, k: string) {
    camel(snake(k)) == k && snake(k) != "" && snake(k)[0] != '_'
  }

  predicate ReversesKeys(snake: string -> string, camel: string -> string, v: Value) {
    match v
    case Obj(m) => forall k :: k in m ==> Reverses(snake, camel, k) && ReversesKeys(snake, camel, m[k])
    case Arr(elems) => forall i :: 0 <= i < |elems| && elems[i].Obj? ==> ReversesKeys(snake, camel, elems[i])
    case _ => true
  }

  /** Both conversions leave decimal numbers as they are. */
  ghost predicate KeepsDigits(snake: string -> string, camel: string -> string) {
    forall i: nat :: snake(Print(i)) == Print(i) && camel(Print(i)) == Print(i)
  }

  /** ASCII letters, the first one lower case, and no two capitals in a row. */
  predicate CamelKey(k: string) {
    && k != "" && IsLower(k[0])
    && (forall i :: 0 <= i < |k| ==> IsLower(k[i]) || IsUpper(k[i]))
    && (forall i :: 0 < i < |k| && IsUpper(k[i - 1]) ==> IsLower(k[i]))
  }

  predicate CamelKeys(v: Value) {
    match v
    case Obj(m) => forall k :: k in m ==> CamelKey(k) && CamelKeys(m[k])
    case Arr(elems) => |elems| <= USIZE_BOUND && forall i :: 0 <= i < |elems| && elems[i].Obj? ==> CamelKeys(elems[i])
    case _ => true
  }

  lemma {:induction false} LowerCamelUndoesTail(s: string)
    requires forall i :: 0 <= i < |s| ==> IsLower(s[i]) || IsUpper(s[i])
    ensures LowerCamel(UpperSnakeTail(s)) == s
  {
    if s != [] {
      LowerCamelUndoesTail(s[1..]);
      var rest := UpperSnakeTail(s[1..]);
      if IsUpper(s[0]) {
        assert (['_', s[0]] + rest)[2..] == rest;
      } else {
        assert ([ToUpper(s[0])] + rest)[1..] == rest;
      }
    }
  }

  /** Lower-then-camel undoes upper snake on camel-case keys and on indices. */
  lemma CaseRoundTrip(k: string)
    requires CamelKey(k) || (AllDigits(k) && k != "")
    ensures LowerCamel(UpperSnake(k)) == k
    ensures UpperSnake(k) != "" && UpperSnake(k)[0] != '_'
  {
    if CamelKey(k) {
      var tail := UpperSnakeTail(k[1..]);
      LowerCamelUndoesTail(k[1..]);
      assert ([ToUpper(k[0])] + tail)[1..] == tail;
    } else {
      DigitsKeepCase(k);
    }
  }

  /** Env keys are printed without lower-case letters. */
  lemma {:induction false} UpperSnakeIsUpper(s: string)
    ensures forall i :: 0 <= i < |UpperSnakeTail(s)| ==> !IsLower(UpperSnakeTail(s)[i])
    ensures forall i :: 0 <= i < |UpperSnake(s)| ==> !IsLower(UpperSnake(s)[i])
  {
    if s != [] {
      UpperSnakeIsUpper(s[1..]);
    }
  }

  lemma {:induction false} DigitsKeepCase(s: string)
    requires AllDigits(s)
    ensures UpperSnakeTail(s) == s && UpperSnake(s) == s && LowerCamel(s) == s
  {
    if s != [] {
      DigitsKeepCase(s[1..]);
    }
  }

  function Snaked(snake: string -> string, p: Path): Path {
    seq(|p|, i requires 0 <= i < |p| => snake(p[i]))
  }

  lemma {:induction false} CasedKeyText(snake: string -> string, render: Value -> string, p: Path)
    requires p != []
    ensures KeyText(CasedPrinter(snake, render), p) == JoinDoubled(Snaked(snake, p), '_')
  {
    assert ['_', '_'] == "__";
    if |p| > 1 {
      CasedKeyText(snake, render, p[1..]);
      assert Snaked(snake, p)[1..] == Snaked(snake, p[1..]);
    }
  }

  lemma {:induction false} ReversedLeaves(snake: string -> string, camel: string -> string, v: Value, p: Path)
    requires ReversesKeys(snake, camel, v) && KeepsDigits(snake, camel) && p in LeafPaths(v)
    ensures forall i :: 0 <= i < |p| ==> Reverses(snake, camel, p[i])
    decreases v
  {
    hide Reverses;
    match v
    case Obj(m) =>
      ObjectPathHead(v, p);
      ReversedLeaves(snake, camel, m[p[0]], p[1..]);
    case Arr(elems) =>
      ArrayPathHead(v, p);
      var i :| 0 <= i < |elems| && p != [] && p[0] == Print(i) && p[1..] in ElementPaths(elems[i]);
      DigitsReverse(snake, camel, i);
      if elems[i].Obj? {
        ReversedLeaves(snake, camel, elems[i], p[1..]);
      }
    case _ =>
  }

  lemma DigitsReverse(snake: string -> string, camel: string -> string, i: nat)
    requires KeepsDigits(snake, camel)
    ensures Reverses(snake, camel, Print(i))
  {
  }

  lemma CasedPartsBack(snake: string -> string, camel: string -> string, render: Value -> string, p: Path)
    requires p != [] && forall i :: 0 <= i < |p| ==> Reverses(snake, camel, p[i])
    ensures Parts(CasedParser(camel), KeyText(CasedPrinter(snake, render), p)) == p
  {
    hide SplitEscaped, JoinDoubled, KeyText;
    CasedKeyText(snake, render, p);
    forall i | 0 <= i < |p|
      ensures camel(Snaked(snake, p)[i]) == p[i] && Snaked(snake, p)[i] != "" && Snaked(snake, p)[i][0] != '_'
    {
      assert Reverses(snake, camel, p[i]);
    }
    SplitJoinDoubled(Snaked(snake, p), '_');
  }

  lemma CasedFaithful(snake: string -> string, camel: string -> string, render: Value -> string, v: Value)
    requires v.Obj? && ReversesKeys(snake, camel, v) && KeepsDigits(snake, camel)
    ensures KeepsIndices(CasedPrinter(snake, render))
    ensures Faithful(CasedPrinter(snake, render), CasedParser(camel), v)
  {
    hide Reverses, KeyText, Parts;
    forall i: nat ensures PrintPart(CasedPrinter(snake, render), Print(i)) == Print(i) {
      assert snake(Print(i)) == Print(i);
      ReplaceAbsent(Print(i), '_', "__");
    }
    LeafPathsContainer(v);
    forall p | p in LeafPaths(v) ensures Parts(CasedParser(camel), KeyText(CasedPrinter(snake, render), p)) == p {
      ReversedLeaves(snake, camel, v, p);
      CasedPartsBack(snake, camel, render, p);
    }
  }

  lemma ReplaceKeeps(s: string, c: char, with: string)
    requires s != "" && with != ""
    ensures Replace(s, c, with) != ""
  {
  }

  /**
   * Env round trip, for any two case conversions that leave numbers alone: for keys that the conversions
   * reverse, every iteration order gives the wrapped tree back exactly when no key reads as an index, nothing
   * is hollow, and no array holds an object before a plain element.
   */
  lemma CasedRoundTrip(snake: string -> string, camel: string -> string, render: Value -> string, v: Value, pairs: map<string, string>)
    requires v.Obj? && Indexable(v) && ReversesKeys(snake, camel, v) && KeepsDigits(snake, camel)
    requires FlattensTo(CasedPrinter(snake, render), v, pairs)
    ensures RoundTrips(CasedPrinter(snake, render), CasedParser(camel), v, pairs) <==>
      NamedKeys(v) && Filled(v) && ScalarsFirst(v)
  {
    var printer := CasedPrinter(snake, render);
    CasedFaithful(snake, camel, render, v);
    forall k | k in v.members ensures PrintPart(printer, k) != "" {
      assert Reverses(snake, camel, k);
      ReplaceKeeps(snake(k), '_', "__");
    }
    hide RoundTrips, NamedKeys, Filled, ScalarsFirst, Indexable, FlattensTo, KeepsIndices, Faithful, ReversesKeys;
    RoundTripExactly(printer, CasedParser(camel), v, pairs);
  }

  lemma EnvKeepsDigits()
    ensures KeepsDigits(UpperSnake, LowerCamel)
  {
    forall i: nat ensures UpperSnake(Print(i)) == Print(i) && LowerCamel(Print(i)) == Print(i) {
      DigitsKeepCase(Print(i));
    }
  }

  /** Camel-case keys are named, and the env conversions reverse them. */
  lemma {:induction false} CamelKeysReverse(v: Value)
    requires CamelKeys(v)
    ensures NamedKeys(v) && Indexable(v) && ReversesKeys(UpperSnake, LowerCamel, v)
    decreases v
  {
    match v
    case Obj(m) =>
      forall k | k in m
        ensures !IsIndex(k) && NamedKeys(m[k]) && Indexable(m[k])
        ensures Reverses(UpperSnake, LowerCamel, k) && ReversesKeys(UpperSnake, LowerCamel, m[k])
      {
        assert !IsDigit(k[0]) && k[0] != '+';
        CaseRoundTrip(k);
        CamelKeysReverse(m[k]);
      }
    case Arr(elems) =>
      forall i | 0 <= i < |elems| && elems[i].Obj?
        ensures NamedKeys(elems[i]) && Indexable(elems[i]) && ReversesKeys(UpperSnake, LowerCamel, elems[i])
      {
        CamelKeysReverse(elems[i]);
      }
    case _ =>
  }

  lemma EnvFaithful(render: Value -> string, v: Value)
    requires v.Obj? && CamelKeys(v)
    ensures KeepsIndices(EnvPrinter(render))
    ensures Faithful(EnvPrinter(render), EnvParser(), v)
  {
    hide KeepsIndices, Faithful, CamelKeys, ReversesKeys;
    CamelKeysReverse(v);
    EnvKeepsDigits();
    CasedFaithful(UpperSnake, LowerCamel, render, v);
  }

  /**
   * Env round trip: for camel-case keys without two adjacent capitals, every iteration order gives the
   * wrapped tree back exactly when nothing is hollow and no array holds an object before a plain element.
   */
  lemma EnvRoundTrip(render: Value -> string, v: Value, pairs: map<string, string>)
    requires v.Obj? && CamelKeys(v) && FlattensTo(EnvPrinter(render), v, pairs)
    ensures RoundTrips(EnvPrinter(render), EnvParser(), v, pairs) <==> Filled(v) && ScalarsFirst(v)
  {
    CamelKeysReverse(v);
    EnvKeepsDigits();
    hide RoundTrips, NamedKeys, Filled, ScalarsFirst, Indexable, FlattensTo, CamelKeys, ReversesKeys;
    CasedRoundTrip(UpperSnake, LowerCamel, render, v, pairs);
  }
}
