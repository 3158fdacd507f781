/** TOML documents: their merge, their conversion to JSON, and when the two commute. */
module Toml {
  import opened Values
  import opened Merge

  /** A TOML value. A float that is not finite has no JSON number. */
  datatype TomlValue =
    | Text(s: string)
    | Integer(text: string)
    | Float(text: string, finite: bool)
    | Boolean(b: bool)
    | Datetime(text: string)
    | Array(elems: seq<TomlValue>)
    | Table(members: map<string, TomlValue>)

  /** The only key of the object that a date-time becomes. */
  const DATETIME_FIELD := "$__toml_private_datetime"

  function ToJson(t: TomlValue): Value {
    match t
    case Text(s) => Str(s)
    case Integer(text) => Number(text)
    case Float(text, finite) => if finite then Number(text) else Null
    case Boolean(b) => Bool(b)
    case Datetime(text) => Obj(map[DATETIME_FIELD := Str(text)])
    case Array(elems) => Arr(seq(|elems|, i requires 0 <= i < |elems| => ToJson(elems[i])))
    case Table(members) => Obj(map k | k in members :: ToJson(members[k]))
  }

  /** `merge_toml`. */
  function MergedToml(a: TomlValue, b: TomlValue): TomlValue
    decreases a
  {
    if a.Table? && b.Table? then
      Table(map k | k in a.members.Keys + b.members.Keys ::
              if k !in b.members then a.members[k]
              else if k in a.members && a.members[k].Table? && b.members[k].Table? then MergedToml(a.members[k], b.members[k])
              else b.members[k])
    else a
  }

  /** A TOML value that is updated in place. */
  class TomlRef {
    var value: TomlValue

    constructor (value: TomlValue)
      ensures this.value == value
    {
      this.value := value;
    }

    method MergeToml(source: TomlValue)
      modifies this
      ensures value == MergedToml(old(value), source)
      decreases source
    {
      if value.Table? && source.Table? {
        var todo := source.members.Keys;
        while todo != {}
          invariant value.Table?
          invariant todo <= source.members.Keys
          invariant value.members.Keys == old(value).members.Keys + (source.members.Keys - todo)
          invariant forall k :: k in value.members ==>
            value.members[k] == (if k in source.members && k !in todo then MergedToml(old(value), source) else old(value)).members[k]
        {
          var key :| key in todo;
          var incoming := source.members[key];
          if key in value.members && value.members[key].Table? && incoming.Table? {
            var target := new TomlRef(value.members[key]);
            target.MergeToml(incoming);
            value := Table(value.members[key := target.value]);
          } else {
            value := Table(value.members[key := incoming]);
          }
          todo := todo - {key};
        }
        assert value.members == MergedToml(old(value), source).members;
      }
    }
  }

  /** Unless both sides are tables, the target stays as it is. */
  lemma OnlyTablesMerge(a: TomlValue, b: TomlValue)
    ensures MergedToml(a, b) != a ==> a.Table? && b.Table?
  {
  }

  // What a converted document reads like

  /** A step into a document: a key of a table, or a position of an array. */
  datatype Hop = Key(k: string) | Index(i: nat)

  function TomlAt(t: TomlValue, route: seq<Hop>): Option<TomlValue>
    decreases |route|
  {
    if route == [] then Some(t)
    else
      match (t, route[0])
      case (Table(members), Key(k)) => if k in members then TomlAt(members[k], route[1..]) else None
      case (Array(elems), Index(i)) => if i < |elems| then TomlAt(elems[i], route[1..]) else None
      case _ => None
  }

  function JsonAt(v: Value, route: seq<Hop>): Option<Value>
    decreases |route|
  {
    if route == [] then Some(v)
    else
      match (v, route[0])
      case (Obj(members), Key(k)) => if k in members then JsonAt(members[k], route[1..]) else None
      case (Arr(elems), Index(i)) => if i < |elems| then JsonAt(elems[i], route[1..]) else None
      case _ => None
  }

  /** The JSON value that stands for a TOML value, as far as one look at both can tell. */
  predicate Corresponds(t: TomlValue, v: Value) {
    match t
    case Text(s) => v == Str(s)
    case Integer(text) => v == Number(text)
    case Float(text, finite) => if finite then v == Number(text) else v == Null
    case Boolean(b) => v.Bool? && (v.b <==> b)
    case Datetime(text) => v == Obj(map["$__toml_private_datetime" := Str(text)])
    case Array(elems) => v.Arr? && |v.elems| == |elems|
    case Table(members) => v.Obj? && v.members.Keys == members.Keys
  }

  /** Conversion keeps every value at its place: whatever a route finds in the document corresponds to what it finds in the JSON. */
  lemma {:induction false} ConversionReads(t: TomlValue, route: seq<Hop>)
    requires TomlAt(t, route).Some?
    ensures JsonAt(ToJson(t), route).Some? && Corresponds(TomlAt(t, route).value, JsonAt(ToJson(t), route).value)
    decreases |route|
  {
    if route != [] {
      match (t, route[0])
      case (Table(members), Key(k)) => ConversionReads(members[k], route[1..]);
      case (Array(elems), Index(i)) => ConversionReads(elems[i], route[1..]);
      case _ =>
    }
  }

  /** Where only JSON sees two objects, because one side is a date-time, the second covers the first. */
  predicate DatetimesCovered(a: TomlValue, b: TomlValue)
    requires a.Table? && b.Table?
    decreases a
  {
    forall k :: k in a.members && k in b.members ==>
      if a.members[k].Table? && b.members[k].Table? then DatetimesCovered(a.members[k], b.members[k])
      else ToJson(a.members[k]).Obj? && ToJson(b.members[k]).Obj? ==> Covered(ToJson(a.members[k]), ToJson(b.members[k]))
  }

  /** Merging TOML and converting agrees with converting and merging JSON exactly when date-times are covered. */
  lemma {:induction false} ConversionCommutes(a: TomlValue, b: TomlValue)
    requires a.Table? && b.Table?
    ensures ToJson(MergedToml(a, b)) == Merged(ToJson(a), ToJson(b)) <==> DatetimesCovered(a, b)
    decreases a
  {
    hide Covered;
    var left, right := ToJson(MergedToml(a, b)), Merged(ToJson(a), ToJson(b));
    assert left.members.Keys == right.members.Keys;
    forall k | k in left.members
      ensures left.members[k] == right.members[k] <==>
        (k in a.members && k in b.members ==>
          if a.members[k].Table? && b.members[k].Table? then DatetimesCovered(a.members[k], b.members[k])
          else ToJson(a.members[k]).Obj? && ToJson(b.members[k]).Obj? ==> Covered(ToJson(a.members[k]), ToJson(b.members[k])))
    {
      if k in a.members && k in b.members {
        if a.members[k].Table? && b.members[k].Table? {
          ConversionCommutes(a.members[k], b.members[k]);
        } else if ToJson(a.members[k]).Obj? && ToJson(b.members[k]).Obj? {
          CoveredExactly(ToJson(a.members[k]), ToJson(b.members[k]));
        }
      }
    }
    if DatetimesCovered(a, b) {
      assert left.members == right.members;
    }
  }

  /** No date-time occurs outside arrays. */
  predicate DatetimeFree(t: TomlValue) {
    !t.Datetime? && (t.Table? ==> forall k :: k in t.members ==> DatetimeFree(t.members[k]))
  }

  lemma {:induction false} DatetimeFreeCommutes(a: TomlValue, b: TomlValue)
    requires a.Table? && b.Table? && DatetimeFree(a) && DatetimeFree(b)
    ensures ToJson(MergedToml(a, b)) == Merged(ToJson(a), ToJson(b))
    decreases a
  {
    DatetimeFreeCovered(a, b);
    ConversionCommutes(a, b);
  }

  lemma {:induction false} DatetimeFreeCovered(a: TomlValue, b: TomlValue)
    requires a.Table? && b.Table? && DatetimeFree(a) && DatetimeFree(b)
    ensures DatetimesCovered(a, b)
    decreases a
  {
    forall k | k in a.members && k in b.members && a.members[k].Table? && b.members[k].Table?
      ensures DatetimesCovered(a.members[k], b.members[k])
    {
      DatetimeFreeCovered(a.members[k], b.members[k]);
    }
  }
}
