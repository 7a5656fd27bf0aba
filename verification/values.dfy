/**
 * JavaScript values as the element-wise inverse error function layer sees
 * them, the errors it can raise, and the facts assumed of the scalar kernel.
 */
module Values {

  datatype Option<+T> = None | Some(value: T)

  /** The JavaScript error constructors the library throws. */
  datatype ErrorKind =
    | RangeError   // the kernel, for a number outside [-1, 1]
    | TypeError    // unsupported input, or an unknown dtype for an array-like
    | PlainError   // `Error`: matrix length mismatch, unknown dtype for a matrix

  /** A computation that either returns a value or throws. */
  datatype Result<+T> = Ok(value: T) | Err(error: ErrorKind)

  /**
   * A JavaScript value, observed only as far as this library distinguishes it.
   * Signed zero is not distinguished; strings, booleans and null are all `Other`;
   * objects, arrays and functions are `Obj`, seen through their own properties
   * (an array's elements are the properties "0", "1", ...).
   */
  datatype JsValue =
    | Num(r: real)
    | NaN
    | PosInf
    | NegInf
    | Undefined
    | Other
    | Obj(fields: map<string, JsValue>)

  /** `typeof v === 'number'`. */
  predicate IsNumber(v: JsValue) {
    v.Num? || v.NaN? || v.PosInf? || v.NegInf?
  }

  /** A number outside the closed interval [-1, 1] (NaN is not outside it). */
  predicate OutOfDomain(v: JsValue) {
    match v
    case Num(r) => r < -1.0 || 1.0 < r
    case PosInf => true
    case NegInf => true
    case _ => false
  }

  /** The scalar kernel `lib/number.js`: returns a value or throws. */
  type Kernel = JsValue -> Result<JsValue>

  /**
   * What the library assumes of the kernel: the exact values it pins at NaN, 0
   * and the two ends of the domain, a RangeError for every number outside
   * [-1, 1], and no error for any number inside it.
   */
  ghost predicate KernelLaws(kernel: Kernel) {
    && kernel(NaN) == Ok(NaN)
    && kernel(Num(0.0)) == Ok(Num(0.0))
    && kernel(Num(1.0)) == Ok(PosInf)
    && kernel(Num(-1.0)) == Ok(NegInf)
    && (forall v :: IsNumber(v) && OutOfDomain(v) ==> kernel(v) == Err(RangeError))
    && (forall v :: IsNumber(v) && !OutOfDomain(v) ==> kernel(v).Ok?)
  }

  /** The kernel turns every non-number (true, null, [], {}, ...) into NaN. */
  ghost predicate NonNumbersToNaN(kernel: Kernel) {
    forall v :: !IsNumber(v) ==> kernel(v) == Ok(NaN)
  }
}
