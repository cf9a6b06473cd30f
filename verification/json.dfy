/** Python values as they come out of `json.loads`, with Python's truthiness, `dict.get` and `str()`. */
module Json {
  import opened Wrappers
  import opened Text

  /**
   * A decoded JSON value; `JNull` is also Python's `None`. A number without a fraction or an
   * exponent decodes to a Python `int`, any other number to a `float`, and `str()` tells them apart.
   */
  datatype Json =
    | JNull
    | JBool(b: bool)
    | JInt(i: int)
    | JFloat(f: real)
    | JStr(s: string)
    | JArr(items: seq<Json>)
    | JObj(fields: map<string, Json>)

  /**
   * The two library calls the core depends on but does not define:
   * `parse` is `json.loads` (None when it raises), `render` is `str()` of a non-string value.
   */
  datatype Runtime = Runtime(parse: string -> Option<Json>, render: Json -> string)

  /** Python's `bool(v)`: None, False, 0, "", [] and {} are false. */
  predicate Truthy(v: Json) {
    match v
    case JNull => false
    case JBool(b) => b
    case JInt(i) => i != 0
    case JFloat(f) => f != 0.0
    case JStr(s) => s != []
    case JArr(xs) => xs != []
    case JObj(m) => m != map[]
  }

  /** Python's `a or b`. */
  function Or(a: Json, b: Json): (r: Json)
    ensures Truthy(a) ==> r == a
    ensures !Truthy(a) ==> r == b
  {
    if Truthy(a) then a else b
  }

  /** `obj.get(key)`: the value, or None when the key is absent. */
  function Get(m: map<string, Json>, key: string): (r: Json)
    ensures key in m ==> r == m[key]
    ensures key !in m ==> r == JNull
  {
    if key in m then m[key] else JNull
  }

  /** `obj.get(key, default)`. */
  function GetDefault(m: map<string, Json>, key: string, default: Json): (r: Json)
    ensures key in m ==> r == m[key]
    ensures key !in m ==> r == default
  {
    if key in m then m[key] else default
  }

  /** Python's `str(v)`: a string renders as itself, anything else as `rt.render` says. */
  function PyStr(rt: Runtime, v: Json): string {
    if v.JStr? then v.s else rt.render(v)
  }

  /**
   * An int and a float of the same value are different values here: there is a `str()` that
   * renders them differently, as Python's does ("1299" and "1299.0").
   */
  lemma IntAndFloatRenderApart(n: int)
    ensures exists rt: Runtime :: PyStr(rt, JInt(n)) != PyStr(rt, JFloat(n as real))
  {
    var rt := Runtime(_ => None, (v: Json) => if v.JFloat? then "float" else "int");
    assert PyStr(rt, JInt(n)) == "int" && PyStr(rt, JFloat(n as real)) == "float";
  }

  /** A selector read as a Python value: `None` or the text. */
  function FromRead(o: Option<string>): (r: Json)
    ensures o.None? ==> r == JNull
    ensures o.Some? ==> r == JStr(o.value)
  {
    match o
    case None => JNull
    case Some(s) => JStr(s)
  }

  /** `f"R$ {v}"`. */
  function Reais(rt: Runtime, v: Json): (r: Json)
    ensures r.JStr? && StartsWith(r.s, "R$ ")
  {
    JStr("R$ " + PyStr(rt, v))
  }

  /**
   * A chain of `if not x: x = next` steps: the first truthy value, or the last one when
   * none is truthy.
   */
  function OrChain(xs: seq<Json>): (r: Json)
    requires xs != []
    ensures r in xs
    ensures Truthy(r) <==> exists i :: 0 <= i < |xs| && Truthy(xs[i])
    ensures forall i :: 0 <= i < |xs| && Truthy(xs[i]) ==> r == xs[FirstTruthy(xs)]
  {
    if |xs| == 1 || Truthy(xs[0]) then xs[0] else OrChain(xs[1..])
  }

  /** The index of the first truthy element of `xs`, or `|xs|` when there is none. */
  function FirstTruthy(xs: seq<Json>): (k: nat)
    ensures k <= |xs|
    ensures k < |xs| ==> Truthy(xs[k])
    ensures forall j :: 0 <= j < k ==> !Truthy(xs[j])
  {
    if xs == [] then 0 else if Truthy(xs[0]) then 0 else 1 + FirstTruthy(xs[1..])
  }
}
