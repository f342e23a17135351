/** JSON documents and the accessors the adapters read them with. */
module Json {
  import opened Prelude

  /** A JSON value. Objects compare without regard to key order, so they are maps.
      Integers and other numbers are kept apart because only the former have an `AsI64`. */
  datatype Value =
    | Null
    | Bool(b: bool)
    | Int(n: int)
    | Float(x: real)
    | Str(s: string)
    | Arr(items: seq<Value>)
    | Obj(fields: map<string, Value>)

  const EMPTY_OBJECT := Obj(map[])
  const EMPTY_ARRAY := Arr([])

  /** The member `key` of an object; nothing for any other kind of value. */
  function Get(v: Value, key: string): Option<Value> {
    if v.Obj? && key in v.fields then Some(v.fields[key]) else None
  }

  function AsStr(v: Value): Option<string> {
    if v.Str? then Some(v.s) else None
  }

  /** The string member `key`, when there is one. */
  function GetStr(v: Value, key: string): Option<string> {
    match Get(v, key)
    case Some(w) => AsStr(w)
    case None => None
  }

  /** A genuine integer in the signed 64-bit range. */
  function AsI64(v: Value): Option<int> {
    if v.Int? && -0x8000_0000_0000_0000 <= v.n < 0x8000_0000_0000_0000 then Some(v.n) else None
  }

  /** A string member is a member that is a string, and an integer member one that is an integer of 64 bits. */
  lemma MembersAre(v: Value, key: string)
    ensures forall s :: GetStr(v, key) == Some(s) <==> v.Obj? && key in v.fields && v.fields[key] == Str(s)
    ensures forall w, n :: Get(v, key) == Some(w) && AsI64(w) == Some(n) <==>
      v.Obj? && key in v.fields && v.fields[key] == w == Int(n) && -0x8000_0000_0000_0000 <= n <= 0x7FFF_FFFF_FFFF_FFFF
  {
  }
}
