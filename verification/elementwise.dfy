/**
 * What every element-wise loop of the library shares: the per-index outcomes
 * of a run, the index at which a throw stops it, and what the output array
 * holds afterwards.
 */
module Elementwise {
  import opened Values
  import opened Coercion

  /**
   * The index of the first outcome that throws, or |os| when none does: a loop
   * that evaluates index after index stops there.
   */
  function FirstError(os: seq<Result<JsValue>>): (f: nat)
    ensures f <= |os|
    ensures forall j :: 0 <= j < f ==> os[j].Ok?
    ensures f < |os| ==> os[f].Err?
  {
    if |os| == 0 || os[0].Err? then 0 else 1 + FirstError(os[1..])
  }

  /** A run completes exactly when no outcome throws. */
  lemma CompletesIffNoError(os: seq<Result<JsValue>>)
    ensures FirstError(os) == |os| <==> forall j :: 0 <= j < |os| ==> os[j].Ok?
  {
  }

  /** The kernel applied to each element, with no check on the element. */
  function KernelOutcomes(kernel: Kernel, xs: seq<JsValue>): seq<Result<JsValue>> {
    seq(|xs|, i requires 0 <= i < |xs| => kernel(xs[i]))
  }

  /**
   * If every number lies in [-1, 1], applying the kernel to each element
   * completes; if some number lies outside, the run stops with a RangeError.
   */
  lemma KernelRunFailsIffOutOfDomain(kernel: Kernel, xs: seq<JsValue>)
    requires KernelLaws(kernel)
    requires forall i :: 0 <= i < |xs| ==> IsNumber(xs[i])
    ensures var os := KernelOutcomes(kernel, xs);
      && (FirstError(os) < |xs| <==> exists i :: 0 <= i < |xs| && OutOfDomain(xs[i]))
      && (FirstError(os) < |xs| ==> os[FirstError(os)] == Err(RangeError))
  {
    var os := KernelOutcomes(kernel, xs);
    var f := FirstError(os);
    if f < |xs| {
      assert os[f] == kernel(xs[f]);
    } else {
      forall i | 0 <= i < |xs| ensures !OutOfDomain(xs[i]) {
        assert os[i] == kernel(xs[i]);
      }
    }
  }

  /** No outcome throws, and every index of `a` before |os| holds the stored result of its outcome. */
  ghost predicate Filled(a: array<JsValue>, kind: Kind, os: seq<Result<JsValue>>)
    reads a
  {
    forall j :: 0 <= j < |os| ==> j < a.Length && os[j].Ok? && a[j] == Store(kind, os[j].value)
  }

  /**
   * After a run over `os` into `a`: the indices before the first throw hold
   * their stored results and every other index of `a` is as it was before.
   */
  twostate predicate WrittenUpTo(a: array<JsValue>, kind: Kind, new os: seq<Result<JsValue>>)
    reads a
  {
    var f := FirstError(os);
    && (forall j :: 0 <= j < f && j < a.Length ==> a[j] == Store(kind, os[j].value))
    && (forall j :: f <= j < a.Length ==> a[j] == old(a[j]))
  }
}
