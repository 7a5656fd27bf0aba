/**
 * lib/deepset.js: rewrites, in place, the value at a key path inside every
 * record of the input array. There is no separate output; empty input yields
 * null.
 */
module DeepSetMap {
  import opened Values
  import opened Buffers
  import opened Elementwise
  import opened Records

  /** The separator the deep getter and setter use when none is passed on. */
  const DefaultSep := "."

  /** The separator the key path is split on: the one passed on, else ".". */
  function SepOf(sep: Option<string>): string {
    if sep.Some? then sep.value else DefaultSep
  }

  /**
   * The key sequence the path denotes. For a non-empty separator, the keys
   * joined by it give the path back and no key contains it.
   */
  function KeyPath(path: string, sep: Option<string>): (keys: seq<string>)
    ensures SepOf(sep) != "" ==> |keys| >= 1 && Join(keys, SepOf(sep)) == path
    ensures SepOf(sep) != "" ==> forall k :: 0 <= k < |keys| ==> !Occurs(SepOf(sep), keys[k])
  {
    var s := SepOf(sep);
    if s != "" then
      JoinSplit(path, s);
      SplitPiecesFree(path, s);
      Split(path, s)
    else Split(path, s)
  }

  /** For each record, the kernel applied to the value at the path. */
  function PathOutcomes(kernel: Kernel, keys: seq<string>, xs: seq<JsValue>): seq<Result<JsValue>> {
    seq(|xs|, i requires 0 <= i < |xs| => kernel(DeepGet(xs[i], keys)))
  }

  /**
   * After a run over `os`: each record before the first throw has the value at
   * the path replaced by its result; every other record is as it was.
   */
  twostate predicate Rewritten(a: array<JsValue>, keys: seq<string>, new os: seq<Result<JsValue>>)
    reads a
  {
    var f := FirstError(os);
    && (forall j :: 0 <= j < f && j < a.Length ==> a[j] == DeepSet(old(a[j]), keys, os[j].value))
    && (forall j :: f <= j < a.Length ==> a[j] == old(a[j]))
  }

  /**
   * `erfinv(x, path[, sep])`: None (null) for an empty x; otherwise x itself,
   * rewritten record by record, or the kernel's error.
   */
  method Erfinv(x: Buffer, path: string, sep: Option<string>, kernel: Kernel) returns (res: Result<Option<Buffer>>)
    requires x.Valid()
    modifies x.data
    ensures x.Valid()
    ensures x.data.Length == 0 ==> res == Ok(None)
    ensures x.data.Length > 0 ==>
      var keys := KeyPath(path, sep);
      var os := PathOutcomes(kernel, keys, old(x.data[..]));
      && Rewritten(x.data, keys, os)
      && res == if FirstError(os) == |os| then Ok(Some(x)) else Err(os[FirstError(os)].error)
  {
    var n := x.data.Length;
    if n == 0 {
      return Ok(None);
    }
    var keys := KeyPath(path, sep);
    ghost var os := PathOutcomes(kernel, keys, x.data[..]);
    for i := 0 to n
      invariant x.Valid()
      invariant forall j :: 0 <= j < i ==> os[j].Ok? && x.data[j] == DeepSet(old(x.data[j]), keys, os[j].value)
      invariant forall j :: i <= j < n ==> x.data[j] == old(x.data[j])
    {
      var r := kernel(DeepGet(x.data[i], keys));
      if r.Err? {
        assert os[i] == r;
        return Err(r.error);
      }
      x.data[i] := DeepSet(x.data[i], keys, r.value);
    }
    res := Ok(Some(x));
  }

  /** Without a separator argument the path is split on "."; "x/1" then stays one key. */
  lemma DefaultSeparatorIsDot(path: string)
    ensures KeyPath(path, None) == KeyPath(path, Some("."))
    ensures KeyPath("x/1", None) == ["x/1"]
  {
    assert Split("", ".") == [""];
    assert Split("1", ".") == ["1"] by {
      SplitStep("1", '.');
      assert "1"[1..] == "" && ['1'] + "" == "1";
    }
    assert Split("/1", ".") == ["/1"] by {
      SplitStep("/1", '.');
      assert "/1"[1..] == "1" && ['/'] + "1" == "/1";
    }
    assert Split("x/1", ".") == ["x/1"] by {
      SplitStep("x/1", '.');
      assert "x/1"[1..] == "/1" && ['x'] + "/1" == "x/1";
    }
  }

  /** One step of splitting a string that does not start with the separator. */
  lemma SplitStep(s: string, sep: char)
    requires |s| >= 1 && s[0] != sep
    ensures var rest := Split(s[1..], [sep]); Split(s, [sep]) == [[s[0]] + rest[0]] + rest[1..]
  {
    assert s[..1][0] != [sep][0];
  }

  /**
   * With path "x/1" and separator "/", a record `{x: [a, b]}` becomes
   * `{x: [a, w]}`: element 1 of field x is rewritten, element 0 keeps its value.
   */
  lemma CustomSeparatorRewritesOneElement(a: JsValue, b: JsValue, w: JsValue)
    ensures KeyPath("x/1", Some("/")) == ["x", "1"]
    ensures DeepSet(Obj(map["x" := Obj(map["0" := a, "1" := b])]), ["x", "1"], w)
         == Obj(map["x" := Obj(map["0" := a, "1" := w])])
  {
    assert Split("", "/") == [""];
    assert Split("1", "/") == ["1"] by {
      SplitStep("1", '/');
      assert "1"[1..] == "" && ['1'] + "" == "1";
    }
    assert Split("/1", "/") == ["", "1"] by { assert "/1"[..1] == "/" && "/1"[1..] == "1"; }
    assert Split("x/1", "/") == ["x", "1"] by {
      SplitStep("x/1", '/');
      assert "x/1"[1..] == "/1" && ['x'] + "" == "x";
    }
    var inner := Obj(map["0" := a, "1" := b]);
    var rec := Obj(map["x" := inner]);
    assert PathExists(inner, ["1"]) by { assert ["1"][1..] == []; }
    assert PathExists(rec, ["x", "1"]) by { assert ["x", "1"][1..] == ["1"]; }
    assert DeepSet(inner, ["1"], w) == Obj(map["0" := a, "1" := w]);
    assert ["x", "1"][1..] == ["1"];
  }

  /**
   * When the kernel turns non-numbers into NaN and every record holds a
   * non-number (true, null, [], {}) at the path, the run completes and every
   * record then holds NaN there.
   */
  lemma NonNumbersAtPathBecomeNaN(kernel: Kernel, keys: seq<string>, xs: seq<JsValue>)
    requires NonNumbersToNaN(kernel) && |keys| >= 1
    requires forall i :: 0 <= i < |xs| ==> PathExists(xs[i], keys) && !IsNumber(DeepGet(xs[i], keys))
    ensures var os := PathOutcomes(kernel, keys, xs);
      && FirstError(os) == |xs|
      && forall i :: 0 <= i < |xs| ==> DeepGet(DeepSet(xs[i], keys, os[i].value), keys) == NaN
  {
    var os := PathOutcomes(kernel, keys, xs);
    forall i | 0 <= i < |xs| ensures os[i] == Ok(NaN) {
      assert os[i] == kernel(DeepGet(xs[i], keys));
    }
    CompletesIffNoError(os);
    forall i | 0 <= i < |xs| ensures DeepGet(DeepSet(xs[i], keys, os[i].value), keys) == NaN {
      GetAfterSet(xs[i], keys, NaN);
    }
  }
}
