/** The JavaScript values a JSON request body can carry, and the two pieces of
    JavaScript semantics the bookmarks router relies on: truthiness (`!value`)
    and `Number.isInteger`. */
module JsValues {

  /** A value read from a parsed JSON body. A field the body does not contain
      reads as `Undefined`. A `Num` holds the value of the parsed double; the
      `Infinity` an overflowing literal parses to is not represented. Arrays
      and objects keep their contents, so two different ones are different
      values to the sanitiser, to the url check and in the stored record. */
  datatype Value =
    | Undefined
    | Null
    | Bool(b: bool)
    | Num(x: real)
    | Str(s: string)
    | Array(items: seq<Value>)
    | Object(fields: map<string, Value>)

  /** A parsed JSON object body: field name to value. */
  type Payload = map<string, Value>

  /** `body[name]`: the field's value, or `undefined` when it is absent. */
  function Field(body: Payload, name: string): (v: Value)
    ensures name in body ==> v == body[name]
    ensures name !in body ==> v == Undefined
  {
    if name in body then body[name] else Undefined
  }

  /** JavaScript truthiness: `undefined`, `null`, `false`, `0`, `-0` and `""`
      are falsy; every other value, including every array and object, is truthy. */
  predicate Truthy(v: Value)
    ensures !Truthy(v) <==> v in {Undefined, Null, Bool(false), Num(0.0), Str("")}
  {
    match v
    case Undefined => false
    case Null => false
    case Bool(b) => b
    case Num(x) => x != 0.0
    case Str(s) => s != ""
    case Array(_) => true
    case Object(_) => true
  }

  /** `Number.isInteger(v)`: true only of numbers with no fractional part;
      a string such as "3" is not an integer. */
  predicate IsInteger(v: Value) {
    v.Num? && v.x.Floor as real == v.x
  }

  /** `Number.isInteger` accepts every integer-valued number and refuses every
      number strictly between two consecutive integers and every non-number. */
  lemma IntegerNumbers(n: int, y: real, v: Value)
    ensures IsInteger(Num(n as real))
    ensures n as real < y < n as real + 1.0 ==> !IsInteger(Num(y))
    ensures !v.Num? ==> !IsInteger(v)
  {
    if n as real < y < n as real + 1.0 {
      assert y.Floor == n;
    }
  }
}
