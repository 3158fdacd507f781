/** Flattening a configuration tree into key-value pairs: `json_to_key_value.rs`. */
module Flatten {
  import opened Values
  import opened Decimal
  import opened Keys

  /**
   * How one file format prints keys and values: the separator, what replaces a separator inside a
   * key, the case conversions applied to a key, and the JSON text of nested containers.
   */
  datatype Printer = Printer(separator: char, escapeWith: string, keyCase: string -> string, render: Value -> string)

  function PrintPart(printer: Printer, part: string): string {
    Replace(printer.keyCase(part), printer.separator, printer.escapeWith)
  }

  /** `map_value_to_string`. */
  function ValueText(printer: Printer, v: Value): string {
    match v
    case Str(s) => s
    case Number(text) => text
    case Bool(b) => if b then "true" else "false"
    case Null => "null"
    case _ => printer.render(v)
  }

  function ChildKey(printer: Printer, parentKey: string, part: string): string {
    if parentKey == "" then part else parentKey + [printer.separator] + part
  }

  function ElementKey(printer: Printer, key: string, index: nat): string {
    key + [printer.separator] + Print(index)
  }

  /** Every pair that flattening the object `v` below `parentKey` writes. */
  ghost function Writes(printer: Printer, v: Value, parentKey: string): set<(string, string)>
    requires v.Obj?
    decreases v, 2
  {
    WritesFor(printer, v, v.members.Keys, parentKey)
  }

  ghost function WritesFor(printer: Printer, v: Value, keys: set<string>, parentKey: string): set<(string, string)>
    requires v.Obj? && keys <= v.members.Keys
    decreases v, 1
  {
    set k, e | k in keys && e in MemberWrites(printer, v.members[k], ChildKey(printer, parentKey, PrintPart(printer, k))) :: e
  }

  ghost function MemberWrites(printer: Printer, v: Value, key: string): set<(string, string)>
    decreases v, 3
  {
    match v
    case Obj(_) => Writes(printer, v, key)
    case Arr(elems) => FirstWrites(printer, v, |elems|, key)
    case _ => {(key, ValueText(printer, v))}
  }

  ghost function FirstWrites(printer: Printer, v: Value, n: nat, key: string): set<(string, string)>
    requires v.Arr? && n <= |v.elems|
    decreases v, 1
  {
    set i, e | 0 <= i < n && e in ElementWrites(printer, v.elems[i], ElementKey(printer, key, i)) :: e
  }

  ghost function ElementWrites(printer: Printer, v: Value, key: string): set<(string, string)>
    decreases v, 3
  {
    if v.Obj? then Writes(printer, v, key) else {(key, ValueText(printer, v))}
  }

  lemma WritesForMore(printer: Printer, v: Value, keys: set<string>, k: string, parentKey: string)
    requires v.Obj? && keys <= v.members.Keys && k in v.members
    ensures WritesFor(printer, v, keys + {k}, parentKey) ==
            WritesFor(printer, v, keys, parentKey) + MemberWrites(printer, v.members[k], ChildKey(printer, parentKey, PrintPart(printer, k)))
  {
    hide MemberWrites;
  }

  lemma FirstWritesMore(printer: Printer, v: Value, n: nat, key: string)
    requires v.Arr? && n < |v.elems|
    ensures FirstWrites(printer, v, n + 1, key) ==
            FirstWrites(printer, v, n, key) + ElementWrites(printer, v.elems[n], ElementKey(printer, key, n))
  {
    hide ElementWrites;
  }

  function KeysIn(writes: set<(string, string)>): set<string> {
    set e | e in writes :: e.0
  }

  /** `after` is `before` with every pair of `writes` written over it, in some order. */
  ghost predicate Written(before: map<string, string>, writes: set<(string, string)>, after: map<string, string>) {
    && after.Keys == before.Keys + KeysIn(writes)
    && forall k :: k in after ==>
         if k in KeysIn(writes) then (k, after[k]) in writes else k in before && after[k] == before[k]
  }

  lemma WrittenNothing(pairs: map<string, string>)
    ensures Written(pairs, {}, pairs)
  {
  }

  lemma WrittenThen(a: map<string, string>, first: set<(string, string)>, b: map<string, string>, second: set<(string, string)>, c: map<string, string>)
    requires Written(a, first, b) && Written(b, second, c)
    ensures Written(a, first + second, c)
  {
    forall k ensures k in KeysIn(first + second) <==> k in KeysIn(first) || k in KeysIn(second) {
      if k in KeysIn(first) {
        var e :| e in first && e.0 == k;
        assert e in first + second;
      }
      if k in KeysIn(second) {
        var e :| e in second && e.0 == k;
        assert e in first + second;
      }
    }
  }

  lemma WrittenOne(pairs: map<string, string>, key: string, value: string)
    ensures Written(pairs, {(key, value)}, pairs[key := value])
  {
    assert KeysIn({(key, value)}) == {key} by {
      assert (key, value) in {(key, value)};
    }
  }

  /** The shared map that flattening fills in place. */
  class PairsRef {
    var pairs: map<string, string>

    constructor ()
      ensures pairs == map[]
    {
      pairs := map[];
    }

    /** The members of an object are visited in an order that is not relied upon. */
    method FlattenJson(printer: Printer, current: Value, parentKey: string)
      requires current.Obj?
      modifies this
      ensures Written(old(pairs), Writes(printer, current, parentKey), pairs)
      decreases current, 1
    {
      hide Written, WritesFor, MemberWrites;
      var todo := current.members.Keys;
      ghost var done := {};
      assert WritesFor(printer, current, done, parentKey) == {} by {
        NoWritesYet(printer, current, parentKey);
      }
      WrittenNothing(pairs);
      while todo != {}
        invariant todo + done == current.members.Keys
        invariant Written(old(pairs), WritesFor(printer, current, done, parentKey), pairs)
      {
        var key :| key in todo;
        var newKey := ChildKey(printer, parentKey, PrintPart(printer, key));
        ghost var before := pairs;
        FlattenMember(printer, current.members[key], newKey);
        WrittenThen(old(pairs), WritesFor(printer, current, done, parentKey), before,
                    MemberWrites(printer, current.members[key], newKey), pairs);
        WritesForMore(printer, current, done, key, parentKey);
        todo, done := todo - {key}, done + {key};
      }
    }

    method FlattenMember(printer: Printer, value: Value, newKey: string)
      modifies this
      ensures Written(old(pairs), MemberWrites(printer, value, newKey), pairs)
      decreases value, 2
    {
      hide Written, Writes, FirstWrites, ElementWrites;
      match value
      case Obj(_) =>
        FlattenJson(printer, value, newKey);
      case Arr(elems) =>
        assert FirstWrites(printer, value, 0, newKey) == {} by {
          NoElementWritesYet(printer, value, newKey);
        }
        WrittenNothing(pairs);
        for index := 0 to |elems|
          invariant Written(old(pairs), FirstWrites(printer, value, index, newKey), pairs)
        {
          var arrayKey := ElementKey(printer, newKey, index);
          ghost var before := pairs;
          FlattenElement(printer, elems[index], arrayKey);
          WrittenThen(old(pairs), FirstWrites(printer, value, index, newKey), before,
                      ElementWrites(printer, elems[index], arrayKey), pairs);
          FirstWritesMore(printer, value, index, newKey);
        }
      case _ =>
        WrittenOne(pairs, newKey, ValueText(printer, value));
        pairs := pairs[newKey := ValueText(printer, value)];
    }

    /** Objects in an array are flattened further; nested arrays are printed as text like any plain element. */
    method FlattenElement(printer: Printer, element: Value, arrayKey: string)
      modifies this
      ensures Written(old(pairs), ElementWrites(printer, element, arrayKey), pairs)
      decreases element, 2
    {
      if element.Obj? {
        FlattenJson(printer, element, arrayKey);
      } else {
        WrittenOne(pairs, arrayKey, ValueText(printer, element));
        pairs := pairs[arrayKey := ValueText(printer, element)];
      }
    }
  }

  lemma NoWritesYet(printer: Printer, v: Value, parentKey: string)
    requires v.Obj?
    ensures WritesFor(printer, v, {}, parentKey) == {}
  {
  }

  lemma NoElementWritesYet(printer: Printer, v: Value, key: string)
    requires v.Arr?
    ensures FirstWrites(printer, v, 0, key) == {}
  {
  }

  /** Only an object can be folded to key-value pairs. */
  method JsonToKeyValuePairs(printer: Printer, v: Value) returns (result: Option<map<string, string>>)
    ensures result.Some? <==> v.Obj?
    ensures result.Some? ==> Written(map[], Writes(printer, v, ""), result.value)
  {
    if !v.Obj? {
      return None;
    }
    var target := new PairsRef();
    target.FlattenJson(printer, v, "");
    result := Some(target.pairs);
  }
}
