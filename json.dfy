// JSON values as the schema audit reads them: objects keep their keys in
// document order, and lookups, truthiness and `str()` follow Python's
// dictionary and string conversions.

module Json {

  import opened Wrappers

  datatype Json =
    | Null
    | Bool(b: bool)
    | Num(n: int)
    | Str(s: string)
    | Arr(items: seq<Json>)
    | Obj(fields: seq<(string, Json)>)

  /** The first value stored under `key` in an object's fields. */
  function Lookup(fields: seq<(string, Json)>, key: string): (r: Option<Json>)
    ensures r.Some? <==> exists i :: 0 <= i < |fields| && fields[i].0 == key
    ensures r.Some? ==> exists i :: 0 <= i < |fields| && fields[i] == (key, r.value)
  {
    if |fields| == 0 then None
    else if fields[0].0 == key then Some(fields[0].1)
    else
      var r := Lookup(fields[1..], key);
      assert forall i :: 0 <= i < |fields| - 1 ==> fields[1..][i] == fields[i + 1];
      r
  }

  /** `dict.get(key)`: nothing for a missing key, and nothing for a value that is not an object. */
  function Get(j: Json, key: string): Option<Json>
  {
    if j.Obj? then Lookup(j.fields, key) else None
  }

  /** `key in dict`. */
  predicate Has(j: Json, key: string)
  {
    Get(j, key).Some?
  }

  /** The elements of an array; anything else reads as an empty array. */
  function Items(j: Option<Json>): seq<Json>
  {
    if j.Some? && j.value.Arr? then j.value.items else []
  }

  /** The key/value pairs of an object, in order; anything else reads as an empty object. */
  function Fields(j: Option<Json>): seq<(string, Json)>
  {
    if j.Some? && j.value.Obj? then j.value.fields else []
  }

  /** The number of keys, `len(dict)`. */
  function Size(j: Json): nat
  {
    if j.Obj? then |j.fields| else 0
  }

  /** Python truthiness of a looked-up value; a missing key reads as `None`. */
  predicate Truthy(j: Option<Json>)
  {
    match j
    case None => false
    case Some(v) =>
      match v
      case Null => false
      case Bool(b) => b
      case Num(n) => n != 0
      case Str(s) => s != ""
      case Arr(items) => items != []
      case Obj(fields) => fields != []
  }

  /** `a or b` on looked-up values: the first if it is truthy, else the second. */
  function Or(a: Option<Json>, b: Option<Json>): (r: Option<Json>)
    ensures Truthy(r) <==> Truthy(a) || Truthy(b)
  {
    if Truthy(a) then a else b
  }

  function Digit(d: nat): char
    requires d < 10
  {
    "0123456789"[d]
  }

  /** Decimal digits of a natural number. */
  function NatString(n: nat): (s: string)
    ensures |s| > 0
    decreases n
  {
    if n < 10 then [Digit(n)] else NatString(n / 10) + [Digit(n % 10)]
  }

  /** `str(v)`: strings as they are, other values as Python prints them. */
  function Show(j: Json): string
    decreases j, 2
  {
    match j
    case Null => "None"
    case Bool(b) => if b then "True" else "False"
    case Num(n) => if n < 0 then "-" + NatString(-n) else NatString(n)
    case Str(s) => s
    case Arr(items) => "[" + ShowItems(j, items) + "]"
    case Obj(fields) => "{" + ShowFields(j, fields) + "}"
  }

  /** `repr(v)` inside a container: strings in single quotes. */
  function Repr(j: Json): string
    decreases j, 3
  {
    if j.Str? then "'" + j.s + "'" else Show(j)
  }

  function ShowItems(parent: Json, items: seq<Json>): string
    requires forall i :: 0 <= i < |items| ==> items[i] < parent
    decreases parent, 1, |items|
  {
    if |items| == 0 then ""
    else if |items| == 1 then Repr(items[0])
    else Repr(items[0]) + ", " + ShowItems(parent, items[1..])
  }

  function ShowFields(parent: Json, fields: seq<(string, Json)>): string
    requires forall i :: 0 <= i < |fields| ==> fields[i].1 < parent
    decreases parent, 1, |fields|
  {
    if |fields| == 0 then ""
    else
      var entry := "'" + fields[0].0 + "': " + Repr(fields[0].1);
      if |fields| == 1 then entry else entry + ", " + ShowFields(parent, fields[1..])
  }

  /** Converting a string is the identity, and only strings convert to the empty string. */
  lemma ShowString(j: Json)
    ensures j.Str? ==> Show(j) == j.s
    ensures Show(j) == "" ==> j == Str("")
  {
  }
}
