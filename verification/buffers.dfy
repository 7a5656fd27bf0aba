/**
 * The heap containers the library reads and writes: array-likes (plain
 * Arrays and typed arrays) and matrices over a flat typed buffer.
 */
module Buffers {
  import opened Values
  import opened Coercion

  /** What `new Array(n)` (n holes) or `new ctor(n)` (n zeros) holds. */
  function Initial(kind: Kind, n: nat): seq<JsValue> {
    seq(n, _ => if kind.Plain? then Undefined else Num(0.0))
  }

  /** An array-like object: a plain Array or a typed array of some dtype. */
  class Buffer {
    const kind: Kind
    const data: array<JsValue>

    /** A typed array only ever holds values its dtype can represent. */
    ghost predicate Valid()
      reads this, data
    {
      kind.Typed? ==> forall i :: 0 <= i < data.Length ==> Representable(kind.dtype, data[i])
    }

    /** `new Array(n)` for a plain kind, `new ctor(n)` for a typed one. */
    constructor (kind: Kind, n: nat)
      ensures this.kind == kind && fresh(data)
      ensures data[..] == Initial(kind, n)
      ensures Valid()
    {
      this.kind := kind;
      var d := new JsValue[n](_ => if kind.Plain? then Undefined else Num(0.0));
      data := d;
      assert d[..] == Initial(kind, n);
    }
  }

  /** A matrix: a shape bound to a flat row-major typed buffer of a declared dtype. */
  class Matrix {
    const rows: nat
    const cols: nat
    const dtype: Dtype
    const data: array<JsValue>

    ghost predicate Valid()
      reads this, data
    {
      && data.Length == rows * cols
      && forall i :: 0 <= i < data.Length ==> Representable(dtype, data[i])
    }

    /** The matrix's `length`: its number of elements. */
    function Length(): nat {
      rows * cols
    }

    /** `matrix(d, [rows, cols], dtype)`. */
    constructor (d: array<JsValue>, rows: nat, cols: nat, dtype: Dtype)
      requires d.Length == rows * cols
      requires forall i :: 0 <= i < d.Length ==> Representable(dtype, d[i])
      ensures this.data == d && this.rows == rows && this.cols == cols && this.dtype == dtype
      ensures Valid()
    {
      this.data := d;
      this.rows := rows;
      this.cols := cols;
      this.dtype := dtype;
    }
  }
}
