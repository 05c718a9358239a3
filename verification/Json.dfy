/** JSON values.  An object lists its fields in iteration order; a parsed object has distinct keys. */
module JsonValues {

  datatype Option<+T> = None | Some(value: T)

  datatype Field = Field(key: string, value: Json)

  /** A number keeps its literal and whether it is an integer that fits 64 bits. */
  datatype Json =
    | Null
    | Boolean(flag: bool)
    | Number(literal: string, integer: bool)
    | Text(text: string)
    | Array(items: seq<Json>)
    | Object(fields: seq<Field>)

  predicate DistinctKeys(fields: seq<Field>) {
    forall i, j :: 0 <= i < j < |fields| ==> fields[i].key != fields[j].key
  }

  /** Every object inside the value has distinct keys. */
  predicate WellKeyed(value: Json) {
    match value
    case Array(items) => forall i :: 0 <= i < |items| ==> WellKeyed(items[i])
    case Object(fields) => DistinctKeys(fields) && forall i :: 0 <= i < |fields| ==> WellKeyed(fields[i].value)
    case _ => true
  }

  /** The value under a key of an object; `None` for a missing key or a value that is no object. */
  function Get(value: Json, key: string): Option<Json> {
    if value.Object? then FieldOf(value.fields, key) else None
  }

  function FieldOf(fields: seq<Field>, key: string): (r: Option<Json>)
    ensures r.None? <==> forall i :: 0 <= i < |fields| ==> fields[i].key != key
    ensures r.Some? ==> exists i :: 0 <= i < |fields| && fields[i] == Field(key, r.value)
  {
    if |fields| == 0 then None
    else if fields[0].key == key then
      assert fields[0] == Field(key, fields[0].value);
      Some(fields[0].value)
    else
      var rest := FieldOf(fields[1..], key);
      assert forall i :: 0 <= i < |fields[1..]| ==> fields[1..][i] == fields[i + 1];
      assert forall i :: 1 <= i < |fields| ==> fields[i] == fields[1..][i - 1];
      rest
  }

  lemma FieldAt(fields: seq<Field>, i: nat)
    requires DistinctKeys(fields) && i < |fields|
    ensures FieldOf(fields, fields[i].key) == Some(fields[i].value)
  {
    var r := FieldOf(fields, fields[i].key);
    assert r.Some?;
    var j :| 0 <= j < |fields| && fields[j] == Field(fields[i].key, r.value);
    assert i == j;
  }
}
