/**
 * lib/typedarray.js: the unchecked element-wise map. Every element goes
 * straight to the kernel; results are written into the caller's output,
 * which is returned.
 */
module TypedArrayMap {
  import opened Values
  import opened Coercion
  import opened Buffers
  import opened Elementwise

  /** `erfinv(y, x)`: y[i] = kernel(x[i]) for every index of x, in order. */
  method Erfinv(y: Buffer, x: Buffer, kernel: Kernel) returns (res: Result<Buffer>)
    requires x.data.Length <= y.data.Length
    requires y.Valid()
    modifies y.data
    ensures y.Valid()
    ensures WrittenUpTo(y.data, y.kind, KernelOutcomes(kernel, old(x.data[..])))
    ensures var os := KernelOutcomes(kernel, old(x.data[..]));
      res == if FirstError(os) == |os| then Ok(y) else Err(os[FirstError(os)].error)
    ensures x.data != y.data ==> x.data[..] == old(x.data[..])
  {
    ghost var os := KernelOutcomes(kernel, x.data[..]);
    var n := x.data.Length;
    for i := 0 to n
      invariant y.Valid()
      invariant forall j :: 0 <= j < i ==> os[j].Ok? && y.data[j] == Store(y.kind, os[j].value)
      invariant forall j :: i <= j < y.data.Length ==> y.data[j] == old(y.data[j])
      invariant forall j :: i <= j < n ==> x.data[j] == old(x.data[j])
    {
      var r := kernel(x.data[i]);
      if r.Err? {
        assert os[i] == r;
        return Err(r.error);
      }
      y.data[i] := Store(y.kind, r.value);
    }
    res := Ok(y);
  }
}
