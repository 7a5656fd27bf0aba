/**
 * lib/matrix.js: the element-wise map over the flat data of two matrices.
 * Only total lengths are compared, never shapes.
 */
module MatrixMap {
  import opened Values
  import opened Coercion
  import opened Buffers
  import opened Elementwise

  /**
   * `erfinv(y, x)`: throws a plain Error, writing nothing, when the lengths
   * differ; otherwise y.data[i] = kernel(x.data[i]) for every index, in order,
   * and y is returned (also when both are empty).
   */
  method Erfinv(y: Matrix, x: Matrix, kernel: Kernel) returns (res: Result<Matrix>)
    requires x.Valid() && y.Valid()
    modifies y.data
    ensures y.Valid()
    ensures y.Length() != x.Length() ==> res == Err(PlainError) && y.data[..] == old(y.data[..])
    ensures y.Length() == x.Length() ==>
      var os := KernelOutcomes(kernel, old(x.data[..]));
      && WrittenUpTo(y.data, Typed(y.dtype), os)
      && res == if FirstError(os) == |os| then Ok(y) else Err(os[FirstError(os)].error)
    ensures x.data != y.data ==> x.data[..] == old(x.data[..])
  {
    var len := x.Length();
    if y.Length() != len {
      return Err(PlainError);
    }
    ghost var os := KernelOutcomes(kernel, x.data[..]);
    for i := 0 to len
      invariant y.Valid()
      invariant forall j :: 0 <= j < i ==> os[j].Ok? && y.data[j] == Coerce(y.dtype, os[j].value)
      invariant forall j :: i <= j < len ==> y.data[j] == old(y.data[j])
      invariant forall j :: i <= j < len ==> x.data[j] == old(x.data[j])
    {
      var r := kernel(x.data[i]);
      if r.Err? {
        assert os[i] == r;
        return Err(r.error);
      }
      y.data[i] := Coerce(y.dtype, r.value);
    }
    res := Ok(y);
  }
}
