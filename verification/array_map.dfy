/**
 * lib/array.js: the flat element-wise map. Numbers go through the kernel,
 * anything else becomes NaN; results are written into a caller-supplied
 * output, which is returned.
 */
module ArrayMap {
  import opened Values
  import opened Coercion
  import opened Buffers
  import opened Elementwise

  /**
   * One index of the flat map: the kernel for a number, NaN for anything else.
   * Under the kernel's laws it throws exactly for a number outside [-1, 1].
   */
  function FlatStep(kernel: Kernel, v: JsValue): (r: Result<JsValue>)
    ensures !IsNumber(v) ==> r == Ok(NaN)
    ensures KernelLaws(kernel) ==> (r.Err? <==> IsNumber(v) && OutOfDomain(v))
    ensures KernelLaws(kernel) && r.Err? ==> r.error == RangeError
  {
    if IsNumber(v) then kernel(v) else Ok(NaN)
  }

  function FlatOutcomes(kernel: Kernel, xs: seq<JsValue>): seq<Result<JsValue>> {
    seq(|xs|, i requires 0 <= i < |xs| => FlatStep(kernel, xs[i]))
  }

  /**
   * `erfinv(y, x)`. Each index is read before it is written, so with `y == x`
   * every element is still the transform of the original element.
   */
  method Erfinv(y: Buffer, x: Buffer, kernel: Kernel) returns (res: Result<Buffer>)
    requires x.data.Length <= y.data.Length
    requires y.Valid()
    modifies y.data
    ensures y.Valid()
    ensures WrittenUpTo(y.data, y.kind, FlatOutcomes(kernel, old(x.data[..])))
    ensures var os := FlatOutcomes(kernel, old(x.data[..]));
      res == if FirstError(os) == |os| then Ok(y) else Err(os[FirstError(os)].error)
    ensures x.data != y.data ==> x.data[..] == old(x.data[..])
  {
    ghost var os := FlatOutcomes(kernel, x.data[..]);
    var n := x.data.Length;
    for i := 0 to n
      invariant y.Valid()
      invariant forall j :: 0 <= j < i ==> os[j].Ok? && y.data[j] == Store(y.kind, os[j].value)
      invariant forall j :: i <= j < y.data.Length ==> y.data[j] == old(y.data[j])
      invariant forall j :: i <= j < n ==> x.data[j] == old(x.data[j])
    {
      if IsNumber(x.data[i]) {
        var r := kernel(x.data[i]);
        if r.Err? {
          assert os[i] == r;
          return Err(r.error);
        }
        y.data[i] := Store(y.kind, r.value);
      } else {
        y.data[i] := Store(y.kind, NaN);
      }
    }
    res := Ok(y);
  }

  /**
   * The flat map throws exactly when some element is a number outside
   * [-1, 1], and then with the kernel's RangeError; non-numbers never throw.
   */
  lemma FlatFailsIffOutOfDomain(kernel: Kernel, xs: seq<JsValue>)
    requires KernelLaws(kernel)
    ensures var os := FlatOutcomes(kernel, xs);
      && (FirstError(os) < |xs| <==> exists i :: 0 <= i < |xs| && IsNumber(xs[i]) && OutOfDomain(xs[i]))
      && (FirstError(os) < |xs| ==> os[FirstError(os)] == Err(RangeError))
  {
    var os := FlatOutcomes(kernel, xs);
    var f := FirstError(os);
    if f < |xs| {
      assert os[f] == FlatStep(kernel, xs[f]);
    } else {
      forall i | 0 <= i < |xs| && IsNumber(xs[i]) ensures !OutOfDomain(xs[i]) {
        assert os[i] == kernel(xs[i]);
      }
    }
  }

  /** Every non-number element yields NaN, whatever the kernel is. */
  lemma NonNumbersBecomeNaN(kernel: Kernel, xs: seq<JsValue>, i: nat)
    requires i < |xs| && !IsNumber(xs[i])
    ensures FlatOutcomes(kernel, xs)[i] == Ok(NaN)
  {
  }

  /**
   * On a sequence of numbers (any typed array) the checked map and the
   * unchecked map of lib/typedarray.js produce the same outcomes.
   */
  lemma AgreesWithUncheckedOnNumbers(kernel: Kernel, xs: seq<JsValue>)
    requires forall i :: 0 <= i < |xs| ==> IsNumber(xs[i])
    ensures FlatOutcomes(kernel, xs) == KernelOutcomes(kernel, xs)
  {
  }
}
