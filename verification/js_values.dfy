/** JavaScript values as they reach the backend in a parsed JSON body, a query
    string or the parsed watchlist file, and the two tests the code applies to
    them: truthiness (`!x`, `x || y`, `filter(movie => movie.watched)`) and
    strict equality (`===`). */
module JsValues {

  /** A JavaScript value. `Undefined` stands for a property that is absent.
      `Composite` stands for any object or array: the code never looks inside
      one, and since every object it compares was freshly parsed, no two of
      them are ever the same reference. Numbers are exact reals: the model does
      not round numerals to the nearest double, and has no infinities, NaN or
      negative zero. */
  datatype JsValue =
    | Undefined
    | Null
    | Bool(b: bool)
    | Num(n: real)
    | Str(s: string)
    | Composite

  /** JavaScript truthiness: `undefined`, `null`, `false`, `0` and `""` are
      falsy, every other value (every object and array included) is truthy. */
  predicate Truthy(v: JsValue)
  {
    match v
    case Undefined => false
    case Null => false
    case Bool(b) => b
    case Num(n) => n != 0.0
    case Str(s) => s != ""
    case Composite => true
  }

  /** `a === b`: primitives compare by type and value; two objects are never
      the same reference here, so a comparison involving one is false. */
  predicate StrictEquals(a: JsValue, b: JsValue)
  {
    match (a, b)
    case (Undefined, Undefined) => true
    case (Null, Null) => true
    case (Bool(x), Bool(y)) => x == y
    case (Num(x), Num(y)) => x == y
    case (Str(x), Str(y)) => x == y
    case _ => false
  }

  /** `typeof v === 'boolean'`. */
  predicate IsBoolean(v: JsValue)
  {
    v.Bool?
  }

  /** Strict equality against a string literal is plain equality with that
      string, and it is never satisfied by a value of another type. */
  lemma StrictEqualsString(v: JsValue, s: string)
    ensures StrictEquals(v, Str(s)) <==> v == Str(s)
    ensures StrictEquals(v, Str(s)) ==> Truthy(v) == (s != "")
  {
  }
}
