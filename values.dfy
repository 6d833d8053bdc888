/** The one tree shape used throughout the engine: resource descriptions, the
    environment and the decoded function input are all trees of this kind. */
module Values {

  datatype Option<+T> = None | Some(value: T) {
    function GetOr(default: T): T {
      match this
      case Some(v) => v
      case None => default
    }
  }

  /** A decoded protobuf `Value`. Numbers are kept as integers; see `Str`. */
  datatype Json =
    | JNull
    | JBool(b: bool)
    | JNumber(n: int)
    | JString(s: string)
    | JArray(items: seq<Json>)
    | JObject(fields: map<string, Json>)

  /** An object node: a mapping of keys to trees. */
  type Obj = map<string, Json>

  /** Python truthiness of a decoded value (`if f:`). */
  predicate Truthy(v: Json) {
    match v
    case JNull => false
    case JBool(b) => b
    case JNumber(n) => n != 0
    case JString(s) => s != ""
    case JArray(a) => a != []
    case JObject(m) => m != map[]
  }

  /** Decimal digits of a natural number. */
  function Digits(n: nat): (r: string)
    ensures r != []
    ensures forall i :: 0 <= i < |r| ==> '0' <= r[i] <= '9'
  {
    if n < 10 then [('0' as int + n) as char]
    else Digits(n / 10) + [('0' as int + n % 10) as char]
  }

  /** Python's `str()` of a decoded leaf. Protobuf numbers decode to floats,
      so an integral number `n` prints as `n.0`. Containers print as a fixed
      placeholder instead of Python's repr. */
  function Str(v: Json): (r: string)
    ensures v.JString? ==> r == v.s
    ensures Truthy(v) ==> r != ""
  {
    match v
    case JNull => "None"
    case JBool(b) => if b then "True" else "False"
    case JNumber(n) => (if n < 0 then "-" else "") + Digits(if n < 0 then -n else n) + ".0"
    case JString(s) => s
    case JArray(_) => "[...]"
    case JObject(_) => "{...}"
  }

  /** The object reached from `o` by following the keys of `loc`, each one
      through a nested object; `None` when a key is missing or a value on the
      way is not an object. A location is the model's handle to a node that
      the source mutates in place. */
  function GetAt(o: Obj, loc: seq<string>): Option<Obj>
    decreases |loc|
  {
    if loc == [] then Some(o)
    else if loc[0] in o && o[loc[0]].JObject? then GetAt(o[loc[0]].fields, loc[1..])
    else None
  }

  /** `o` with the object at `loc` replaced by `c`: an in-place update through
      a handle, written as a value. */
  function PutAt(o: Obj, loc: seq<string>, c: Obj): (r: Obj)
    requires GetAt(o, loc).Some?
    ensures GetAt(r, loc) == Some(c)
    ensures loc != [] ==> r.Keys == o.Keys
    decreases |loc|
  {
    if loc == [] then c
    else o[loc[0] := JObject(PutAt(o[loc[0]].fields, loc[1..], c))]
  }

  /** The value at the end of a key path, following nested objects. */
  function ValueAt(o: Obj, segs: seq<string>): Option<Json>
    decreases |segs|
  {
    if segs == [] then None
    else if segs[0] !in o then None
    else if |segs| == 1 then Some(o[segs[0]])
    else if o[segs[0]].JObject? then ValueAt(o[segs[0]].fields, segs[1..])
    else None
  }

  lemma {:induction false} GetAtAppend(o: Obj, a: seq<string>, b: seq<string>)
    ensures GetAt(o, a + b) == (match GetAt(o, a) case Some(x) => GetAt(x, b) case None => None)
    decreases |a|
  {
    if a != [] {
      assert (a + b)[0] == a[0] && (a + b)[1..] == a[1..] + b;
      if a[0] in o && o[a[0]].JObject? {
        GetAtAppend(o[a[0]].fields, a[1..], b);
      }
    } else {
      assert a + b == b;
    }
  }

  /** The value at `loc + [k]` after the object at `loc` was replaced by `c`. */
  lemma {:induction false} ValueAtPut(o: Obj, loc: seq<string>, c: Obj, k: string)
    requires GetAt(o, loc).Some?
    ensures ValueAt(PutAt(o, loc, c), loc + [k]) == (if k in c then Some(c[k]) else None)
    decreases |loc|
  {
    if loc == [] {
      assert loc + [k] == [k];
    } else {
      assert (loc + [k])[0] == loc[0] && (loc + [k])[1..] == loc[1..] + [k];
      ValueAtPut(o[loc[0]].fields, loc[1..], c, k);
    }
  }

  /** The value at a key path is the key's entry in the object that holds it. */
  lemma {:induction false} ValueAtSplit(o: Obj, loc: seq<string>, k: string)
    ensures ValueAt(o, loc + [k]) ==
      (match GetAt(o, loc) case Some(c) => (if k in c then Some(c[k]) else None) case None => None)
    decreases |loc|
  {
    if loc == [] {
      assert loc + [k] == [k];
    } else {
      assert (loc + [k])[0] == loc[0] && (loc + [k])[1..] == loc[1..] + [k];
      if loc[0] in o && o[loc[0]].JObject? {
        ValueAtSplit(o[loc[0]].fields, loc[1..], k);
      }
    }
  }

  /** A location below the root reaches, as a value, the object it
      designates. */
  lemma {:induction false} ValueAtGetAt(o: Obj, loc: seq<string>)
    requires loc != [] && GetAt(o, loc).Some?
    ensures ValueAt(o, loc) == Some(JObject(GetAt(o, loc).value))
    decreases |loc|
  {
    if |loc| > 1 {
      ValueAtGetAt(o[loc[0]].fields, loc[1..]);
    }
  }
}
