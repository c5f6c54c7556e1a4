/** Shared vocabulary of the model: optional values, identifiers, the
    JavaScript values whose truthiness the components test, and the
    `parseFloat(x || 0)` reading of a price. */
module Base {

  /** A value that may be absent (`undefined` / `null` in the source). */
  datatype Option<+T> = None | Some(value: T) {
    function GetOr(default: T): T {
      match this
      case Some(v) => v
      case None => default
    }
  }

  /** Backend identifiers (service selections, packages, products, contacts). */
  type Id = string

  /** A JavaScript value as far as the components inspect it. Numbers are
      modelled as reals; NaN is not representable. */
  datatype JsValue = Undefined | Null | Bool(b: bool) | Num(n: real) | Str(s: string)

  /** JavaScript truthiness: `undefined`, `null`, `false`, `0` and `""` are falsy. */
  predicate Truthy(v: JsValue) {
    match v
    case Undefined => false
    case Null => false
    case Bool(b) => b
    case Num(n) => n != 0.0
    case Str(s) => s != ""
  }

  /** `x || fallback` on a JavaScript value. */
  function OrElse(v: JsValue, fallback: JsValue): (r: JsValue)
    ensures Truthy(v) ==> r == v
    ensures !Truthy(v) ==> r == fallback
  {
    if Truthy(v) then v else fallback
  }

  /** A price field read as `parseFloat(price || 0)`, in integer cents: a
      missing price counts as 0. */
  function PriceOr0(p: Option<int>): (r: int)
    ensures p.None? ==> r == 0
    ensures p.Some? ==> r == p.value
  {
    p.GetOr(0)
  }

  /** `Math.max` on cents. */
  function Max(a: int, b: int): (r: int)
    ensures r >= a && r >= b
    ensures r == a || r == b
  {
    if a < b then b else a
  }
}
