/** The JavaScript values the application-state setters accept, and `!!v`. */
module Js {

  /** A JavaScript value as far as its truthiness goes; `NaN` is not modelled. */
  datatype JsValue = Undefined | Null | Bool(b: bool) | Number(n: real) | Str(s: string) | Object

  /** `!!v`: `false` for `undefined`, `null`, `false`, `0` and `''`, `true` for everything else. */
  function Truthy(v: JsValue): bool {
    match v
    case Undefined => false
    case Null => false
    case Bool(b) => b
    case Number(n) => n != 0.0
    case Str(s) => s != ""
    case Object => true
  }

  /** The falsy values of ToBoolean (ECMA-262 section 7.1.2) are exactly these five; `!!` of a boolean is itself. */
  lemma FalsyValues(v: JsValue)
    ensures !Truthy(v) <==> v in [Undefined, Null, Bool(false), Number(0.0), Str("")]
    ensures Truthy(Bool(Truthy(v))) == Truthy(v)
  {
  }
}
