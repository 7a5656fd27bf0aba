/**
 * Output element types ("dtypes"), the registry that maps their names to
 * buffer kinds, and what storing a value into a buffer of each kind keeps.
 */
module Coercion {
  import opened Values

  /** The typed-array element types a buffer can be allocated with. */
  datatype Dtype = Int8 | Uint8 | Uint8Clamped | Int16 | Uint16 | Int32 | Uint32 | Float32 | Float64

  /** A plain JavaScript Array stores any value; a typed array coerces to its dtype. */
  datatype Kind = Plain | Typed(dtype: Dtype)

  function NameOf(dt: Dtype): string {
    match dt
    case Int8 => "int8"
    case Uint8 => "uint8"
    case Uint8Clamped => "uint8_clamped"
    case Int16 => "int16"
    case Uint16 => "uint16"
    case Int32 => "int32"
    case Uint32 => "uint32"
    case Float32 => "float32"
    case Float64 => "float64"
  }

  /** The constructor registry: the dtype a name denotes, or None ("no constructor"). */
  function DtypeNamed(name: string): (d: Option<Dtype>)
    ensures d.Some? ==> NameOf(d.value) == name
  {
    if name == "int8" then Some(Int8)
    else if name == "uint8" then Some(Uint8)
    else if name == "uint8_clamped" then Some(Uint8Clamped)
    else if name == "int16" then Some(Int16)
    else if name == "uint16" then Some(Uint16)
    else if name == "int32" then Some(Int32)
    else if name == "uint32" then Some(Uint32)
    else if name == "float32" then Some(Float32)
    else if name == "float64" then Some(Float64)
    else None
  }

  /** Every dtype's name resolves back to that dtype. */
  lemma DtypeNamedRoundTrip(dt: Dtype)
    ensures DtypeNamed(NameOf(dt)) == Some(dt)
  {
  }

  predicate IsIntegral(dt: Dtype) {
    !(dt.Float32? || dt.Float64?)
  }

  /** Smallest and largest integer an integral dtype holds. */
  function Lo(dt: Dtype): int {
    match dt
    case Int8 => -128
    case Int16 => -32768
    case Int32 => -2147483648
    case _ => 0
  }

  function Hi(dt: Dtype): int {
    match dt
    case Int8 => 127
    case Uint8 => 255
    case Uint8Clamped => 255
    case Int16 => 32767
    case Uint16 => 65535
    case Int32 => 2147483647
    case Uint32 => 4294967295
    case _ => 0
  }

  /** Rounding toward zero. */
  function Trunc(r: real): int {
    if r < 0.0 then -((-r).Floor) else r.Floor
  }

  /** The integer a wrapping integral store starts from: NaN and the infinities give 0. */
  function IntegerPart(v: JsValue): int {
    if v.Num? then Trunc(v.r) else 0
  }

  /**
   * Reduction modulo 2^bits into [Lo(dt), Hi(dt)], for the wrapping integral
   * dtypes: the stored integer differs from n by a multiple of 2^bits.
   */
  function Wrap(dt: Dtype, n: int): (w: int)
    requires IsIntegral(dt) && !dt.Uint8Clamped?
    ensures Lo(dt) <= w <= Hi(dt)
    ensures (w - n) % (Hi(dt) - Lo(dt) + 1) == 0
    ensures Lo(dt) <= n <= Hi(dt) ==> w == n
  {
    var m := Hi(dt) - Lo(dt) + 1;
    var u := n % m;
    ShiftedMod(n, m);
    if Lo(dt) < 0 && u > Hi(dt) then
      ModUnique(u - m - n, m, -(n / m) - 1, 0);
      u - m
    else
      ModUnique(u - n, m, -(n / m), 0);
      u
  }

  /** A number in [-m, m) reduced modulo m. */
  lemma ShiftedMod(n: int, m: int)
    requires m > 0
    ensures 0 <= n < m ==> n % m == n
    ensures -m <= n < 0 ==> n % m == n + m
  {
    if 0 <= n < m {
      ModUnique(n, m, 0, n);
    } else if -m <= n < 0 {
      ModUnique(n, m, -1, n + m);
    }
  }

  /** The remainder is the only r in [0, m) with n == q * m + r. */
  lemma ModUnique(n: int, m: int, q: int, r: int)
    requires m > 0 && 0 <= r < m && n == q * m + r
    ensures n % m == r
  {
    var q0, r0 := n / m, n % m;
    var d := q - q0;
    assert d * m == r0 - r by {
      assert n == q0 * m + r0;
      assert d * m == q * m - q0 * m;
    }
  }

  /** Round half to even, as Uint8ClampedArray stores do. */
  function RoundHalfEven(r: real): int {
    var f := r.Floor;
    var d := r - f as real;
    if d < 0.5 then f
    else if d > 0.5 then f + 1
    else if f % 2 == 0 then f
    else f + 1
  }

  /** The Uint8ClampedArray store: NaN and -Infinity give 0, +Infinity 255, otherwise clamp and round. */
  function Clamped(v: JsValue): (w: int)
    ensures 0 <= w <= 255
  {
    match v
    case Num(r) => if r <= 0.0 then 0 else if r >= 255.0 then 255 else RoundHalfEven(r)
    case PosInf => 255
    case _ => 0
  }

  /**
   * The value a typed array of dtype `dt` holds after `v` is stored into it.
   * Non-numbers store as NaN in float arrays and as 0 in integral ones.
   */
  function Coerce(dt: Dtype, v: JsValue): (w: JsValue)
    ensures IsNumber(w)
    ensures IsIntegral(dt) ==> w.Num? && Representable(dt, w)
    ensures !IsIntegral(dt) && IsNumber(v) ==> w == v
  {
    if !IsIntegral(dt) then
      (if IsNumber(v) then v else NaN)
    else if dt.Uint8Clamped? then
      Num(Clamped(v) as real)
    else
      Num(Wrap(dt, IntegerPart(v)) as real)
  }

  /** A value a buffer of dtype `dt` can hold exactly. */
  predicate Representable(dt: Dtype, v: JsValue) {
    if IsIntegral(dt) then
      v.Num? && v.r == v.r.Floor as real && Lo(dt) as real <= v.r <= Hi(dt) as real
    else IsNumber(v)
  }

  /** Storing a value the dtype already holds exactly leaves it unchanged. */
  lemma CoerceKeepsRepresentable(dt: Dtype, v: JsValue)
    requires Representable(dt, v)
    ensures Coerce(dt, v) == v
  {
    if IsIntegral(dt) {
      var n := v.r.Floor;
      assert v.r == n as real;
      if n < 0 {
        assert (-v.r).Floor == -n;
      }
      assert IntegerPart(v) == n;
      if dt.Uint8Clamped? {
        assert RoundHalfEven(v.r) == n;
      }
    }
  }

  /** Storing twice is storing once. */
  lemma CoerceIdempotent(dt: Dtype, v: JsValue)
    ensures Coerce(dt, Coerce(dt, v)) == Coerce(dt, v)
  {
    CoerceKeepsRepresentable(dt, Coerce(dt, v));
  }

  /**
   * A wrapping integral store truncates toward zero: a number whose integer
   * part fits the dtype is stored as that integer part (e.g. 2.32 and -2.32
   * stored into an int8 array become 2 and -2).
   */
  lemma CoerceTruncates(dt: Dtype, r: real)
    requires IsIntegral(dt) && !dt.Uint8Clamped?
    requires Lo(dt) <= Trunc(r) <= Hi(dt)
    ensures Coerce(dt, Num(r)) == Num(Trunc(r) as real)
  {
  }

  /**
   * Store into a buffer of the given kind: a plain Array keeps the value as it
   * is; a typed array holds a value its dtype represents, and keeps a value
   * that is already one.
   */
  function Store(kind: Kind, v: JsValue): (w: JsValue)
    ensures kind.Plain? ==> w == v
    ensures kind.Typed? ==> Representable(kind.dtype, w)
    ensures kind.Typed? && Representable(kind.dtype, v) ==> w == v
  {
    match kind
    case Plain => v
    case Typed(dt) =>
      if Representable(dt, v) then
        CoerceKeepsRepresentable(dt, v);
        Coerce(dt, v)
      else Coerce(dt, v)
  }
}
