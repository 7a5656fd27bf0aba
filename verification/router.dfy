/**
 * lib/index.js: the entry point. It decides from the input's kind and the
 * options which element-wise map runs and whether the output is a fresh
 * container or the input object itself, allocates that output, and delegates.
 */
module Router {
  import opened Values
  import opened Coercion
  import opened Buffers
  import opened Elementwise
  import ArrayMap
  import AccessorMap
  import DeepSetMap
  import MatrixMap

  /**
   * The options bag after validation. An empty string stands for an absent
   * (or otherwise falsy) string option, as JavaScript's `||` treats both alike.
   */
  datatype Options = Options(
    copy: Option<bool>,
    accessor: Option<AccessorMap.Accessor>,
    path: string,
    sep: string,
    dtype: string)

  const NoOptions := Options(None, None, "", "", "")

  /** The options check (`validate(opts, options)`): an error to throw, or None. */
  type Validator = Options -> Option<ErrorKind>

  /** What the caller passes: a matrix-like, an array-like, or any other value. */
  datatype Input = Value(v: JsValue) | ArrayLike(a: Buffer) | MatrixLike(m: Matrix)

  /** What the call returns when it does not throw. */
  datatype Output = Scalar(v: JsValue) | ArrayOut(b: Buffer) | MatrixOut(m: Matrix) | Null

  /** The runtime probes, in the order the entry point applies them. */
  datatype Shape = NumberShape | MatrixShape | ArrayShape(plain: bool) | UnsupportedShape

  function ShapeOf(x: Input): Shape {
    match x
    case Value(v) => if IsNumber(v) then NumberShape else UnsupportedShape
    case ArrayLike(a) => ArrayShape(a.kind.Plain?)
    case MatrixLike(_) => MatrixShape
  }

  /** The heap locations a call may write: the input's own element storage. */
  function Footprint(x: Input): set<object> {
    match x
    case Value(_) => {}
    case ArrayLike(a) => {a.data}
    case MatrixLike(m) => {m.data}
  }

  /** Where results go: into the input itself, or into a freshly allocated container. */
  datatype Target = InPlace | FreshPlain | FreshTyped(dtype: Dtype)

  /** The decision the entry point takes before touching any element. */
  datatype Plan =
    | Direct
    | Fail(error: ErrorKind)
    | MatrixPlan(target: Target)
    | PathPlan(path: string, sep: string)
    | FlatPlan(target: Target)
    | AccessorPlan(target: Target, accessor: AccessorMap.Accessor)

  /** `s || d` on a string option. */
  function OrDefault(s: string, d: string): string {
    if s != "" then s else d
  }

  /** The error the options check reports; the check only runs when options are passed. */
  function Verdict(options: Option<Options>, validate: Validator): Option<ErrorKind> {
    if options.Some? then validate(options.value) else None
  }

  function Settings(options: Option<Options>): Options {
    if options.Some? then options.value else NoOptions
  }

  /** Where a fresh typed output's dtype comes from: the option, else "float64". */
  function FreshDtype(opts: Options): Option<Dtype> {
    DtypeNamed(OrDefault(opts.dtype, "float64"))
  }

  /** The decision tree of the entry point. */
  function Route(shape: Shape, options: Option<Options>, validate: Validator): (p: Plan)
    ensures p.Direct? <==> shape.NumberShape?
    ensures p.MatrixPlan? ==> shape.MatrixShape? && !p.target.FreshPlain?
    ensures p.PathPlan? || p.FlatPlan? || p.AccessorPlan? ==> shape.ArrayShape?
    ensures p.PathPlan? ==> p.path != "" && p.sep != ""
  {
    if shape.NumberShape? then Direct
    else if Verdict(options, validate).Some? then Fail(Verdict(options, validate).value)
    else
      var opts := Settings(options);
      match shape
      case MatrixShape =>
        if opts.copy != Some(false) then
          match FreshDtype(opts)
          case None => Fail(PlainError)
          case Some(dt) => MatrixPlan(FreshTyped(dt))
        else MatrixPlan(InPlace)
      case ArrayShape(plain) =>
        if opts.path != "" then PathPlan(opts.path, OrDefault(opts.sep, "."))
        else
          var target :=
            if opts.copy == Some(false) then Ok(InPlace)
            else if opts.dtype != "" || !plain then
              (match FreshDtype(opts)
               case None => Err(TypeError)
               case Some(dt) => Ok(FreshTyped(dt)))
            else Ok(FreshPlain);
          if target.Err? then Fail(TypeError)
          else if opts.accessor.Some? then AccessorPlan(target.value, opts.accessor.value)
          else FlatPlan(target.value)
      case _ => Fail(TypeError)
  }

  /** A primitive number goes straight to the kernel; the options are neither checked nor used. */
  lemma NumberIgnoresOptions(options: Option<Options>, validate: Validator)
    ensures Route(NumberShape, options, validate).Direct?
  {
  }

  /** Anything else first has its options checked; a failed check is what is thrown. */
  lemma OptionsCheckedFirst(shape: Shape, options: Option<Options>, validate: Validator)
    requires !shape.NumberShape? && Verdict(options, validate).Some?
    ensures Route(shape, options, validate) == Fail(Verdict(options, validate).value)
  {
  }

  /** A value that is neither a number, matrix-like nor array-like is a TypeError. */
  lemma UnsupportedIsTypeError(options: Option<Options>, validate: Validator)
    requires Verdict(options, validate).None?
    ensures Route(UnsupportedShape, options, validate) == Fail(TypeError)
  {
  }

  /**
   * For array-likes a path wins over copy, dtype and accessor: the path map
   * runs in place, with separator "." when none (or an empty one) is given.
   */
  lemma PathTakesPrecedence(plain: bool, opts: Options, validate: Validator)
    requires validate(opts).None? && opts.path != ""
    ensures Route(ArrayShape(plain), Some(opts), validate) == PathPlan(opts.path, if opts.sep == "" then "." else opts.sep)
  {
  }

  /**
   * With copy === false the input itself is the output and dtype is ignored,
   * so even an unknown dtype is not an error; for matrices and for array-likes
   * without a path.
   */
  lemma CopyFalseReusesInput(shape: Shape, opts: Options, validate: Validator)
    requires shape.MatrixShape? || (shape.ArrayShape? && opts.path == "")
    requires validate(opts).None? && opts.copy == Some(false)
    ensures var p := Route(shape, Some(opts), validate);
      (p.MatrixPlan? || p.FlatPlan? || p.AccessorPlan?) && p.target.InPlace?
  {
  }

  /**
   * A fresh output whose dtype names no constructor is refused before any
   * element is written: with a plain Error for a matrix, a TypeError for an
   * array-like.
   */
  lemma UnknownDtypeRejected(shape: Shape, opts: Options, validate: Validator)
    requires validate(opts).None? && opts.copy != Some(false) && FreshDtype(opts).None?
    requires shape.MatrixShape? || (shape.ArrayShape? && opts.path == "" && (opts.dtype != "" || !shape.plain))
    ensures Route(shape, Some(opts), validate) == Fail(if shape.MatrixShape? then PlainError else TypeError)
  {
  }

  /**
   * Without copy === false the output is fresh: a plain Array for a plain
   * array with no dtype option, otherwise a typed array (for a matrix, a typed
   * matrix) of the dtype option or float64, never the input's own dtype.
   */
  lemma FreshOutputKind(shape: Shape, opts: Options, validate: Validator)
    requires validate(opts).None? && opts.copy != Some(false)
    requires shape.MatrixShape? || (shape.ArrayShape? && opts.path == "")
    ensures var p := Route(shape, Some(opts), validate);
      && (shape.ArrayShape? && shape.plain && opts.dtype == "" ==> p.FlatPlan? || p.AccessorPlan?)
      && (shape.ArrayShape? && shape.plain && opts.dtype == "" ==> p.target == FreshPlain)
      && (FreshDtype(opts).Some? && (shape.MatrixShape? || opts.dtype != "" || !shape.plain) ==>
            !p.Fail? && p.target == FreshTyped(FreshDtype(opts).value))
  {
  }

  /** An accessor selects the accessor map; without one the flat map runs. */
  lemma AccessorSelectsMap(plain: bool, opts: Options, validate: Validator)
    requires validate(opts).None? && opts.path == ""
    requires !Route(ArrayShape(plain), Some(opts), validate).Fail?
    ensures var p := Route(ArrayShape(plain), Some(opts), validate);
      (opts.accessor.Some? ==> p.AccessorPlan? && p.accessor == opts.accessor.value)
      && (opts.accessor.None? ==> p.FlatPlan?)
  {
  }

  /** The outcomes the array map of a plan produces. */
  function ArrayOutcomes(plan: Plan, kernel: Kernel, xs: seq<JsValue>): seq<Result<JsValue>>
    requires plan.FlatPlan? || plan.AccessorPlan?
  {
    if plan.AccessorPlan? then AccessorMap.AccessorOutcomes(kernel, plan.accessor, xs)
    else ArrayMap.FlatOutcomes(kernel, xs)
  }

  /** `new Array(n)`, `new ctor(n)`, or the input itself. */
  method Allocate(x: Buffer, target: Target) returns (out: Buffer)
    requires x.Valid()
    ensures out.Valid()
    ensures target.InPlace? ==> out == x
    ensures !target.InPlace? ==> fresh(out) && fresh(out.data) && out.data.Length == x.data.Length
    ensures target.FreshPlain? ==> out.kind == Plain
    ensures target.FreshTyped? ==> out.kind == Typed(target.dtype)
  {
    match target
    case InPlace => out := x;
    case FreshPlain => out := new Buffer(Plain, x.data.Length);
    case FreshTyped(dt) => out := new Buffer(Typed(dt), x.data.Length);
  }

  /** `erfinv(x[, options])`. */
  method Erfinv(x: Input, options: Option<Options>, kernel: Kernel, validate: Validator) returns (res: Result<Output>)
    requires x.ArrayLike? ==> x.a.Valid()
    requires x.MatrixLike? ==> x.m.Valid()
    modifies Footprint(x)
    ensures x.ArrayLike? ==> x.a.Valid()
    ensures x.MatrixLike? ==> x.m.Valid()
    // a number: the kernel's value or error
    ensures x.Value? && IsNumber(x.v) ==>
      res == if kernel(x.v).Ok? then Ok(Scalar(kernel(x.v).value)) else Err(kernel(x.v).error)
    // refused before any element is touched
    ensures var plan := Route(ShapeOf(x), options, validate);
      plan.Fail? ==> res == Err(plan.error) && unchanged(Footprint(x))
    // a matrix: into a fresh matrix of the input's shape, or into the input itself
    ensures var plan := Route(ShapeOf(x), options, validate);
      plan.MatrixPlan? ==>
        var os := KernelOutcomes(kernel, old(x.m.data[..]));
        var f := FirstError(os);
        && (f < |os| ==> res == Err(os[f].error))
        && (f == |os| ==>
              && res.Ok? && res.value.MatrixOut?
              && (var out := res.value.m;
                  && out.Valid()
                  && (plan.target.InPlace? ==> out == x.m)
                  && (plan.target.FreshTyped? ==>
                        && fresh(out) && fresh(out.data)
                        && out.rows == x.m.rows && out.cols == x.m.cols
                        && out.dtype == plan.target.dtype)
                  && Filled(out.data, Typed(out.dtype), os)))
        && (plan.target.InPlace? ==> WrittenUpTo(x.m.data, Typed(x.m.dtype), os))
        && (plan.target.FreshTyped? ==> x.m.data[..] == old(x.m.data[..]))
    // an array-like with a path: the records of x rewritten in place
    ensures var plan := Route(ShapeOf(x), options, validate);
      plan.PathPlan? ==>
        var keys := DeepSetMap.KeyPath(plan.path, Some(plan.sep));
        var os := DeepSetMap.PathOutcomes(kernel, keys, old(x.a.data[..]));
        var f := FirstError(os);
        && DeepSetMap.Rewritten(x.a.data, keys, os)
        && res == (if |os| == 0 then Ok(Null) else if f == |os| then Ok(ArrayOut(x.a)) else Err(os[f].error))
    // an array-like without a path: the flat or the accessor map
    ensures var plan := Route(ShapeOf(x), options, validate);
      plan.FlatPlan? || plan.AccessorPlan? ==>
        var os := ArrayOutcomes(plan, kernel, old(x.a.data[..]));
        var f := FirstError(os);
        if plan.AccessorPlan? && |os| == 0 then
          res == Ok(Null) && x.a.data[..] == old(x.a.data[..])
        else
          && (f < |os| ==> res == Err(os[f].error))
          && (f == |os| ==>
                && res.Ok? && res.value.ArrayOut?
                && (var out := res.value.b;
                    && out.Valid()
                    && (plan.target.InPlace? ==> out == x.a)
                    && (!plan.target.InPlace? ==> fresh(out) && fresh(out.data) && out.data.Length == |os|)
                    && (plan.target.FreshPlain? ==> out.kind == Plain)
                    && (plan.target.FreshTyped? ==> out.kind == Typed(plan.target.dtype))
                    && Filled(out.data, out.kind, os)))
          && (plan.target.InPlace? ==> WrittenUpTo(x.a.data, x.a.kind, os))
          && (!plan.target.InPlace? ==> x.a.data[..] == old(x.a.data[..]))
  {
    var plan := Route(ShapeOf(x), options, validate);
    match plan
    case Direct =>
      var r := kernel(x.v);
      res := if r.Ok? then Ok(Scalar(r.value)) else Err(r.error);
    case Fail(e) =>
      res := Err(e);
    case MatrixPlan(target) =>
      var out: Matrix;
      if target.InPlace? {
        out := x.m;
      } else {
        var d := new JsValue[x.m.Length()](_ => Num(0.0));
        out := new Matrix(d, x.m.rows, x.m.cols, target.dtype);
      }
      var r := MatrixMap.Erfinv(out, x.m, kernel);
      res := if r.Ok? then Ok(MatrixOut(r.value)) else Err(r.error);
    case PathPlan(path, sep) =>
      var r := DeepSetMap.Erfinv(x.a, path, Some(sep), kernel);
      res := match r
        case Ok(None) => Ok(Null)
        case Ok(Some(b)) => Ok(ArrayOut(b))
        case Err(e) => Err(e);
    case FlatPlan(target) =>
      var out := Allocate(x.a, target);
      var r := ArrayMap.Erfinv(out, x.a, kernel);
      res := if r.Ok? then Ok(ArrayOut(r.value)) else Err(r.error);
    case AccessorPlan(target, accessor) =>
      var out := Allocate(x.a, target);
      ghost var calls;
      var r;
      r, calls := AccessorMap.Erfinv(out, x.a, accessor, kernel);
      res := match r
        case Ok(None) => Ok(Null)
        case Ok(Some(b)) => Ok(ArrayOut(b))
        case Err(e) => Err(e);
  }
}
