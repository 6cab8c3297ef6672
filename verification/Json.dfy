/** Values the platform moves around: JSON documents, and the result types its
    operations return instead of throwing. */
module Json {

  datatype Option<+T> = None | Some(value: T)

  /** A JSON document over a string type `S`. A number is its shortest round-trip
      numeral (what both `String(n)` and `JSON.stringify(n)` print); an object keeps
      its members in insertion order, as JavaScript objects do whose keys are not array
      indices. */
  datatype Json<S> =
    | Null
    | Bool(b: bool)
    | Num(numeral: S)
    | Str(s: S)
    | Arr(items: seq<Json<S>>)
    | Obj(fields: seq<Field<S>>)

  datatype Field<S> = Field(key: S, value: Json<S>)

  /** `record[key]`. */
  function Lookup<S(==)>(fields: seq<Field<S>>, key: S): (r: Option<Json<S>>)
    ensures r.Some? <==> exists f :: f in fields && f.key == key
    ensures r.Some? ==> Field(key, r.value) in fields
  {
    if fields == [] then None
    else if fields[0].key == key then Some(fields[0].value)
    else Lookup(fields[1..], key)
  }

  /** `record[key] = value`: overwrite in place, or append a new member. */
  function Put<S(==)>(fields: seq<Field<S>>, key: S, value: Json<S>): (r: seq<Field<S>>)
    ensures Lookup(r, key) == Some(value)
  {
    if fields == [] then [Field(key, value)]
    else if fields[0].key == key then [Field(key, value)] + fields[1..]
    else
      var r := [fields[0]] + Put(fields[1..], key, value);
      assert r[1..] == Put(fields[1..], key, value);
      r
  }

  /** Writing one member leaves every other one alone. */
  lemma {:induction false} PutElsewhere<S>(fields: seq<Field<S>>, key: S, value: Json<S>, other: S)
    requires other != key
    ensures Lookup(Put(fields, key, value), other) == Lookup(fields, other)
  {
    if fields != [] && fields[0].key != key {
      PutElsewhere(fields[1..], key, value, other);
      assert Put(fields, key, value)[1..] == Put(fields[1..], key, value);
    } else {
      assert Put(fields, key, value)[1..] == if fields == [] then [] else fields[1..];
    }
  }
}
