/**
 * lib/accessor.js: the element-wise map over values read through a caller
 * callback `accessor(element, index)`. Empty input yields null.
 */
module AccessorMap {
  import opened Values
  import opened Coercion
  import opened Buffers
  import opened Elementwise

  /**
   * The caller's accessor: given an element and its index, the value to
   * transform, or the error it throws (`d.x` on a null element, say).
   */
  type Accessor = (JsValue, nat) -> Result<JsValue>

  /** One index: the accessor's throw, or the kernel applied to the accessor's value. */
  function AccessorStep(kernel: Kernel, accessor: Accessor, v: JsValue, i: nat): Result<JsValue> {
    var a := accessor(v, i);
    if a.Err? then Err(a.error) else kernel(a.value)
  }

  function AccessorOutcomes(kernel: Kernel, accessor: Accessor, xs: seq<JsValue>): seq<Result<JsValue>> {
    seq(|xs|, i requires 0 <= i < |xs| => AccessorStep(kernel, accessor, xs[i], i))
  }

  /** The values an accessor that never throws returns, index by index. */
  function Accessed(accessor: Accessor, xs: seq<JsValue>): seq<JsValue>
    requires forall i :: 0 <= i < |xs| ==> accessor(xs[i], i).Ok?
  {
    seq(|xs|, i requires 0 <= i < |xs| => accessor(xs[i], i).value)
  }

  /** The calls a run makes to the accessor: (element, index) for each index up to `count`. */
  function Calls(xs: seq<JsValue>, count: nat): seq<(JsValue, nat)>
    requires count <= |xs|
  {
    seq(count, i requires 0 <= i < count => (xs[i], i))
  }

  /**
   * The accessor's result goes to the kernel unchecked: with an accessor that
   * never throws, the run is exactly the unchecked kernel map over the accessed
   * values, so a non-number returned by the accessor is the kernel's to
   * handle, not turned into NaN here.
   */
  lemma OutcomesAreKernelOverAccessed(kernel: Kernel, accessor: Accessor, xs: seq<JsValue>)
    requires forall i :: 0 <= i < |xs| ==> accessor(xs[i], i).Ok?
    ensures AccessorOutcomes(kernel, accessor, xs) == KernelOutcomes(kernel, Accessed(accessor, xs))
  {
  }

  /**
   * A run stops at the first index where the accessor or the kernel throws,
   * with that error; when it is the accessor that throws there, the kernel is
   * never reached for that index.
   */
  lemma {:induction false} StopsAtFirstThrow(kernel: Kernel, accessor: Accessor, xs: seq<JsValue>)
    ensures var os := AccessorOutcomes(kernel, accessor, xs);
      var f := FirstError(os);
      && (forall j :: 0 <= j < f ==> accessor(xs[j], j).Ok? && kernel(accessor(xs[j], j).value).Ok?)
      && (f < |xs| ==>
            if accessor(xs[f], f).Err? then os[f] == Err(accessor(xs[f], f).error)
            else os[f] == kernel(accessor(xs[f], f).value) && os[f].Err?)
  {
    var os := AccessorOutcomes(kernel, accessor, xs);
    var f := FirstError(os);
    forall j | 0 <= j < f ensures accessor(xs[j], j).Ok? && kernel(accessor(xs[j], j).value).Ok? {
      assert os[j] == AccessorStep(kernel, accessor, xs[j], j);
    }
    if f < |xs| {
      assert os[f] == AccessorStep(kernel, accessor, xs[f], f);
    }
  }

  /**
   * `erfinv(y, x, accessor)`. Returns None (null) for empty input without
   * touching y; otherwise y, or the first error the accessor or the kernel
   * throws, with the indices before it already written. `calls` records the
   * accessor's arguments: once per index reached, in increasing order.
   */
  method Erfinv(y: Buffer, x: Buffer, accessor: Accessor, kernel: Kernel)
    returns (res: Result<Option<Buffer>>, ghost calls: seq<(JsValue, nat)>)
    requires x.data.Length <= y.data.Length
    requires y.Valid()
    modifies y.data
    ensures y.Valid()
    ensures x.data.Length == 0 ==> res == Ok(None) && calls == [] && y.data[..] == old(y.data[..])
    ensures x.data.Length > 0 ==>
      var os := AccessorOutcomes(kernel, accessor, old(x.data[..]));
      var f := FirstError(os);
      && WrittenUpTo(y.data, y.kind, os)
      && res == (if f == |os| then Ok(Some(y)) else Err(os[f].error))
      && calls == Calls(old(x.data[..]), if f == |os| then f else f + 1)
    ensures x.data != y.data ==> x.data[..] == old(x.data[..])
  {
    var n := x.data.Length;
    calls := [];
    if n == 0 {
      return Ok(None), calls;
    }
    ghost var xs := x.data[..];
    ghost var os := AccessorOutcomes(kernel, accessor, xs);
    for i := 0 to n
      invariant y.Valid()
      invariant forall j :: 0 <= j < i ==> os[j].Ok? && y.data[j] == Store(y.kind, os[j].value)
      invariant forall j :: i <= j < y.data.Length ==> y.data[j] == old(y.data[j])
      invariant forall j :: i <= j < n ==> x.data[j] == old(x.data[j])
      invariant calls == Calls(xs, i)
    {
      var a := accessor(x.data[i], i);
      calls := calls + [(x.data[i], i)];
      if a.Err? {
        assert os[i] == Err(a.error);
        return Err(a.error), calls;
      }
      var r := kernel(a.value);
      if r.Err? {
        assert os[i] == r;
        return Err(r.error), calls;
      }
      y.data[i] := Store(y.kind, r.value);
    }
    res := Ok(Some(y));
  }
}
