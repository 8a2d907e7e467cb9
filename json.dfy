/** Decoded JSON values, as `json.loads` hands them to Python code, and Python's `float()` on them.
    Decoding itself is not modelled: a decoder is any function from text to a value, or to `None`
    where `json.loads` raises `JSONDecodeError`. */
module Json {
  import opened Python

  /** A value `json.loads` can return. Numbers keep only what `float()` sees of them; the literals
      `NaN`, `Infinity` and `-Infinity`, which Python's decoder accepts, are `JNumber(NonFinite)`.
      An object is a `dict`; with repeated keys the decoder keeps the last one. */
  datatype Json =
    | JNull
    | JBool(b: bool)
    | JNumber(n: Float)
    | JString(s: string)
    | JArray(items: seq<Json>)
    | JObject(fields: map<string, Json>)

  /** `json.loads`: `None` stands for `JSONDecodeError`. */
  type Decoder = string -> Option<Json>

  /** `float()` applied to a `str`: `None` stands for the `ValueError` of a non-numeric string. */
  type FloatParser = string -> Option<Float>

  /** Python's `float(v)` on a decoded value: numbers convert, `True`/`False` give 1.0/0.0, a
      numeric string is parsed, a non-numeric string raises `ValueError`, and `None`, a list or a
      dict raise `TypeError`. */
  function ToFloat(v: Json, parseFloat: FloatParser): (r: Outcome<Float>)
    ensures r == Raised(ValueError) <==> v.JString? && parseFloat(v.s).None?
    ensures r == Raised(TypeError) <==> v.JNull? || v.JArray? || v.JObject?
    ensures r != Raised(KeyError)
    ensures v.JNumber? ==> r == Returned(v.n)
    ensures v.JBool? ==> r == Returned(Finite(if v.b then 1.0 else 0.0))
    ensures v.JString? && parseFloat(v.s).Some? ==> r == Returned(parseFloat(v.s).value)
  {
    match v
    case JNumber(n) => Returned(n)
    case JBool(b) => Returned(Finite(if b then 1.0 else 0.0))
    case JString(s) => (match parseFloat(s) case Some(x) => Returned(x) case None => Raised(ValueError))
    case _ => Raised(TypeError)
  }
}
