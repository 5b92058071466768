/**
 * Gson's `JsonObject` as the SDK builds it: a fresh object filled by
 * `addProperty(name, value)` with string values, where a null value is
 * stored as JSON null and adding an existing name replaces its value.
 */
module Json {
  import opened Failures

  datatype JsonValue = JsonString(text: string) | JsonNull

  datatype JsonObject = JsonObject(members: seq<(string, JsonValue)>)

  /** The JSON value `addProperty` stores for a nullable Kotlin string. */
  function FromNullable(value: Option<string>): (r: JsonValue)
    ensures value.Some? <==> r.JsonString?
    ensures value.Some? ==> r.text == value.value
  {
    match value
    case None => JsonNull
    case Some(s) => JsonString(s)
  }

  /** The nullable string a stored value stands for. */
  function ToNullable(value: JsonValue): (r: Option<string>)
    ensures FromNullable(r) == value
  {
    match value
    case JsonNull => None
    case JsonString(s) => Some(s)
  }

  lemma ToNullableFromNullable(value: Option<string>)
    ensures ToNullable(FromNullable(value)) == value
  {
  }

  /** The names of the members, in insertion order. */
  function Names(members: seq<(string, JsonValue)>): (names: seq<string>)
    ensures |names| == |members|
    ensures forall i :: 0 <= i < |members| ==> names[i] == members[i].0
  {
    if members == [] then [] else [members[0].0] + Names(members[1..])
  }

  /** `get(name)`: the member's value, or None when there is no such member. */
  function Get(o: JsonObject, name: string): Option<JsonValue> {
    GetIn(o.members, name)
  }

  function GetIn(members: seq<(string, JsonValue)>, name: string): (r: Option<JsonValue>)
    ensures r.None? <==> name !in Names(members)
  {
    if members == [] then None
    else if members[0].0 == name then Some(members[0].1)
    else GetIn(members[1..], name)
  }

  lemma GetInCons(m: (string, JsonValue), rest: seq<(string, JsonValue)>, name: string)
    ensures GetIn([m] + rest, name) == if m.0 == name then Some(m.1) else GetIn(rest, name)
    ensures Names([m] + rest) == [m.0] + Names(rest)
  {
    assert ([m] + rest)[1..] == rest;
  }

  /** Replaces the value of the first member called `name`, or appends a new member. */
  function Put(members: seq<(string, JsonValue)>, name: string, value: JsonValue): seq<(string, JsonValue)> {
    if members == [] then [(name, value)]
    else if members[0].0 == name then [(name, value)] + members[1..]
    else [members[0]] + Put(members[1..], name, value)
  }

  /** After `Put`, the name holds the new value. */
  lemma {:induction false} PutGet(members: seq<(string, JsonValue)>, name: string, value: JsonValue)
    ensures GetIn(Put(members, name, value), name) == Some(value)
  {
    if members != [] {
      if members[0].0 == name {
        GetInCons((name, value), members[1..], name);
      } else {
        PutGet(members[1..], name, value);
        GetInCons(members[0], Put(members[1..], name, value), name);
      }
    }
  }

  /** `Put` leaves every other name as it was. */
  lemma {:induction false} PutOther(members: seq<(string, JsonValue)>, name: string, value: JsonValue, other: string)
    requires other != name
    ensures GetIn(Put(members, name, value), other) == GetIn(members, other)
  {
    if members == [] {
      GetInCons((name, value), [], other);
    } else {
      assert members == [members[0]] + members[1..];
      GetInCons(members[0], members[1..], other);
      if members[0].0 == name {
        GetInCons((name, value), members[1..], other);
      } else {
        PutOther(members[1..], name, value, other);
        GetInCons(members[0], Put(members[1..], name, value), other);
      }
    }
  }

  /** `Put` keeps the order of the names and appends a name it has not seen. */
  lemma {:induction false} PutNames(members: seq<(string, JsonValue)>, name: string, value: JsonValue)
    ensures Names(Put(members, name, value)) == if name in Names(members) then Names(members) else Names(members) + [name]
  {
    if members != [] {
      var first, rest := members[0], members[1..];
      assert members == [first] + rest;
      GetInCons(first, rest, name);
      if first.0 == name {
        GetInCons((name, value), rest, name);
      } else {
        PutNames(rest, name, value);
        GetInCons(first, Put(rest, name, value), name);
        assert name in Names(members) <==> name in Names(rest);
        if name in Names(rest) {
          assert Names(Put(members, name, value)) == [first.0] + Names(rest);
        } else {
          assert Names(Put(members, name, value)) == [first.0] + (Names(rest) + [name]);
          assert [first.0] + (Names(rest) + [name]) == Names(members) + [name];
        }
      }
    }
  }

  /** On a name that is not there, `Put` appends a member at the end. */
  lemma {:induction false} PutAbsent(members: seq<(string, JsonValue)>, name: string, value: JsonValue)
    requires name !in Names(members)
    ensures Put(members, name, value) == members + [(name, value)]
  {
    if members != [] {
      assert members == [members[0]] + members[1..];
      GetInCons(members[0], members[1..], name);
      PutAbsent(members[1..], name, value);
      assert [members[0]] + (members[1..] + [(name, value)]) == members + [(name, value)];
    }
  }

  /** `JsonObject.addProperty(name, value)`. */
  function AddProperty(o: JsonObject, name: string, value: Option<string>): (r: JsonObject)
    ensures Get(r, name) == Some(FromNullable(value))
    ensures forall other :: other != name ==> Get(r, other) == Get(o, other)
    ensures Names(r.members) == if name in Names(o.members) then Names(o.members) else Names(o.members) + [name]
    ensures name !in Names(o.members) ==> r.members == o.members + [(name, FromNullable(value))]
  {
    var r := JsonObject(Put(o.members, name, FromNullable(value)));
    PutGet(o.members, name, FromNullable(value));
    PutNames(o.members, name, FromNullable(value));
    assert forall other :: other != name ==> Get(r, other) == Get(o, other) by {
      forall other | other != name
        ensures Get(r, other) == Get(o, other)
      {
        PutOther(o.members, name, FromNullable(value), other);
      }
    }
    assert name !in Names(o.members) ==> r.members == o.members + [(name, FromNullable(value))] by {
      if name !in Names(o.members) {
        PutAbsent(o.members, name, FromNullable(value));
      }
    }
    r
  }

  /** `JsonObject()`. */
  const Empty: JsonObject := JsonObject([])
}
