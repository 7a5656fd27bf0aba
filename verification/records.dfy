/**
 * Key paths into nested records: splitting a path string on its separator,
 * and reading or overwriting the value a key path names. Records are `Obj`
 * values; arrays inside them are objects keyed "0", "1", ...
 */
module Records {
  import opened Values

  /**
   * `s.split(sep)`: the pieces of `s` between occurrences of `sep`, scanning
   * left to right; with an empty separator, the characters of `s`.
   */
  function Split(s: string, sep: string): (parts: seq<string>)
    ensures sep != "" ==> |parts| >= 1
    decreases |s|
  {
    if sep == "" then seq(|s|, i requires 0 <= i < |s| => [s[i]])
    else if |s| < |sep| then [s]
    else if s[..|sep|] == sep then [""] + Split(s[|sep|..], sep)
    else
      var rest := Split(s[1..], sep);
      [[s[0]] + rest[0]] + rest[1..]
  }

  /** `parts.join(sep)`. */
  function Join(parts: seq<string>, sep: string): string
    requires |parts| >= 1
  {
    if |parts| == 1 then parts[0] else parts[0] + sep + Join(parts[1..], sep)
  }

  /** Splitting on a non-empty separator loses nothing: joining the pieces gives the path back. */
  lemma {:induction false} JoinSplit(s: string, sep: string)
    requires sep != ""
    ensures Join(Split(s, sep), sep) == s
    decreases |s|
  {
    if |s| < |sep| {
      assert Split(s, sep) == [s];
    } else if s[..|sep|] == sep {
      var rest := Split(s[|sep|..], sep);
      assert Split(s, sep) == [""] + rest;
      JoinSplit(s[|sep|..], sep);
      JoinAfterEmpty(rest, sep);
      assert s == sep + s[|sep|..];
    } else {
      var rest := Split(s[1..], sep);
      assert Split(s, sep) == [[s[0]] + rest[0]] + rest[1..];
      JoinSplit(s[1..], sep);
      JoinPrepend(s[0], rest, sep);
      assert s == [s[0]] + s[1..];
    }
  }

  /** sep occurs in s starting at index i. */
  predicate OccursAt(sep: string, s: string, i: nat) {
    i + |sep| <= |s| && s[i..i + |sep|] == sep
  }

  /** `s.includes(sep)`: sep occurs somewhere in s. */
  predicate Occurs(sep: string, s: string) {
    exists i: nat :: i <= |s| && OccursAt(sep, s, i)
  }

  /**
   * Splitting cuts at every occurrence: no piece contains the separator. The
   * first piece is also where s starts.
   */
  lemma {:induction false} SplitPiecesFree(s: string, sep: string)
    requires sep != ""
    ensures forall k :: 0 <= k < |Split(s, sep)| ==> !Occurs(sep, Split(s, sep)[k])
    ensures Split(s, sep)[0] <= s
    decreases |s|
  {
    var parts := Split(s, sep);
    if |s| < |sep| {
      assert parts == [s];
    } else if s[..|sep|] == sep {
      var rest := Split(s[|sep|..], sep);
      assert parts == [""] + rest;
      SplitPiecesFree(s[|sep|..], sep);
      forall k | 0 <= k < |parts| ensures !Occurs(sep, parts[k]) {
        if k > 0 { assert parts[k] == rest[k - 1]; }
      }
    } else {
      var rest := Split(s[1..], sep);
      var p := [s[0]] + rest[0];
      assert parts == [p] + rest[1..];
      SplitPiecesFree(s[1..], sep);
      assert p <= s by { assert s == [s[0]] + s[1..]; }
      forall i: nat | i <= |p| ensures !OccursAt(sep, p, i) {
        if 0 < i && i + |sep| <= |p| {
          assert p[i..i + |sep|] == rest[0][i - 1..i - 1 + |sep|];
          assert !OccursAt(sep, rest[0], i - 1);
        }
      }
      forall k | 0 <= k < |parts| ensures !Occurs(sep, parts[k]) {
        if k > 0 { assert parts[k] == rest[k]; }
      }
    }
  }

  lemma JoinAfterEmpty(parts: seq<string>, sep: string)
    requires |parts| >= 1
    ensures Join([""] + parts, sep) == sep + Join(parts, sep)
  {
    assert ([""] + parts)[1..] == parts;
  }

  lemma JoinPrepend(c: char, parts: seq<string>, sep: string)
    requires |parts| >= 1
    ensures Join([[c] + parts[0]] + parts[1..], sep) == [c] + Join(parts, sep)
  {
    var q := [[c] + parts[0]] + parts[1..];
    if |parts| > 1 {
      assert q[1..] == parts[1..];
    }
  }

  /** Every key of the path names an own property, each step but the last inside an object. */
  predicate PathExists(v: JsValue, keys: seq<string>)
    decreases |keys|
  {
    |keys| == 0 || (v.Obj? && keys[0] in v.fields && PathExists(v.fields[keys[0]], keys[1..]))
  }

  /** The deep getter: the value at the path, or undefined where the path breaks off. */
  function DeepGet(v: JsValue, keys: seq<string>): (r: JsValue)
    ensures !PathExists(v, keys) ==> r == Undefined
    decreases |keys|
  {
    if |keys| == 0 then v
    else if v.Obj? && keys[0] in v.fields then DeepGet(v.fields[keys[0]], keys[1..])
    else Undefined
  }

  /**
   * The deep setter without `create`: the value at an existing, non-empty
   * path is replaced by `w`; a missing path leaves the record as it is.
   */
  function DeepSet(v: JsValue, keys: seq<string>, w: JsValue): (r: JsValue)
    ensures r.Obj? == v.Obj?
    ensures v.Obj? ==> r.fields.Keys == v.fields.Keys
    ensures !v.Obj? ==> r == v
    decreases |keys|
  {
    if |keys| == 0 || !PathExists(v, keys) then v
    else if |keys| == 1 then Obj(v.fields[keys[0] := w])
    else Obj(v.fields[keys[0] := DeepSet(v.fields[keys[0]], keys[1..], w)])
  }

  /** Reading back a path just written gives the value written. */
  lemma {:induction false} GetAfterSet(v: JsValue, keys: seq<string>, w: JsValue)
    requires |keys| >= 1 && PathExists(v, keys)
    ensures DeepGet(DeepSet(v, keys, w), keys) == w
    ensures PathExists(DeepSet(v, keys, w), keys)
    decreases |keys|
  {
    if |keys| > 1 {
      GetAfterSet(v.fields[keys[0]], keys[1..], w);
    }
  }

  /** Writing a path that does not exist changes nothing. */
  lemma SetMissingIsNoOp(v: JsValue, keys: seq<string>, w: JsValue)
    requires !PathExists(v, keys)
    ensures DeepSet(v, keys, w) == v
  {
  }

  /** Two paths that part ways: at some position both have a key, and the keys differ. */
  predicate Diverge(keys: seq<string>, other: seq<string>) {
    exists k :: 0 <= k < |keys| && k < |other| && keys[k] != other[k] && keys[..k] == other[..k]
  }

  /**
   * Writing one path leaves the value at any diverging path as it was: in a
   * record `{x: [9, 0.25]}`, writing "x","1" keeps "x","0" at 9.
   */
  lemma {:induction false} SetLeavesDivergingPath(v: JsValue, keys: seq<string>, other: seq<string>, w: JsValue)
    requires Diverge(keys, other)
    ensures DeepGet(DeepSet(v, keys, w), other) == DeepGet(v, other)
    decreases |keys|
  {
    var k :| 0 <= k < |keys| && k < |other| && keys[k] != other[k] && keys[..k] == other[..k];
    if PathExists(v, keys) {
      if k == 0 {
        assert keys[0] != other[0];
      } else {
        assert keys[0] == other[0] by { assert keys[..k][0] == other[..k][0]; }
        assert keys[1..][..k - 1] == other[1..][..k - 1] by {
          assert keys[1..][..k - 1] == keys[..k][1..];
          assert other[1..][..k - 1] == other[..k][1..];
        }
        assert Diverge(keys[1..], other[1..]) by {
          assert keys[1..][k - 1] != other[1..][k - 1];
        }
        SetLeavesDivergingPath(v.fields[keys[0]], keys[1..], other[1..], w);
      }
    }
  }
}
