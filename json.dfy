/** JSON documents as the node sees them, and the accessors serde_json offers on them. */
module Json {

  const U64_MAX: int := 0xFFFF_FFFF_FFFF_FFFF

  /** An unsigned 64-bit integer. */
  type U64 = x: int | 0 <= x <= U64_MAX

  /** A JSON value. Numbers are integers only. */
  datatype JVal =
    | Null
    | Bool(b: bool)
    | Num(n: int)
    | Str(s: string)
    | Arr(items: seq<JVal>)
    | Obj(fields: Body)

  /** The fields of a JSON object. */
  type Body = map<string, JVal>

  datatype Option<T> = None | Some(value: T)

  /** The outcome of a handler or of a dispatch; `Err(())` for handlers that report no reason. */
  datatype Result<E> = Ok | Err(error: E)

  /** `body[key]` on an object: a missing key reads as `null`. */
  function Field(body: Body, key: string): JVal
  {
    if key in body then body[key] else Null
  }

  /** `v[key]` on any value: anything but an object reads as `null`. */
  function Get(v: JVal, key: string): JVal
  {
    if v.Obj? then Field(v.fields, key) else Null
  }

  /** `as_u64`: a non-negative integer that fits in 64 bits. */
  function AsU64(v: JVal): Option<U64>
  {
    if v.Num? && 0 <= v.n <= U64_MAX then Some(v.n) else None
  }

  /** `as_str`. */
  function AsStr(v: JVal): Option<string>
  {
    if v.Str? then Some(v.s) else None
  }

  /** `as_array`. */
  function AsArray(v: JVal): Option<seq<JVal>>
  {
    if v.Arr? then Some(v.items) else None
  }

  /** `as_object`. */
  function AsObject(v: JVal): Option<Body>
  {
    if v.Obj? then Some(v.fields) else None
  }

  /** A sequence of integers as a JSON array. */
  function Nums(xs: seq<U64>): (r: seq<JVal>)
    ensures |r| == |xs| && forall i :: 0 <= i < |xs| ==> r[i] == Num(xs[i])
  {
    seq(|xs|, i requires 0 <= i < |xs| => Num(xs[i]))
  }
}
