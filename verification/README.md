# compute-erfinv: the element-wise layer, modelled in Dafny

`compute-erfinv` evaluates the inverse error function on a number, an array
(a plain Array or a typed array), an array of records (through a key path),
or a matrix. The scalar function lives in `lib/number.js`. This project
models everything around it:

- the entry point `lib/index.js`. It decides from the input's kind and the
  options `copy`, `accessor`, `path`, `sep` and `dtype` which loop runs. It
  also decides whether the output is a fresh container or the input object
  itself.
- the five element-wise loops:
  - `lib/array.js`: a flat map that turns non-numbers into NaN;
  - `lib/typedarray.js`: an unchecked flat map;
  - `lib/accessor.js`: reads each value through a caller callback;
  - `lib/deepset.js`: rewrites a field inside every record, in place;
  - `lib/matrix.js`: maps over a matrix's flat data after a length check.

The scalar function is a parameter `kernel: Kernel` that returns a value or
throws. The facts the library relies on are collected in `Values.KernelLaws`:

- NaN gives NaN, 0 gives 0, 1 gives +Infinity and -1 gives -Infinity;
- every number outside [-1, 1] throws a RangeError;
- no number inside [-1, 1] throws.

Lemmas that need these facts take `KernelLaws(kernel)` as a precondition.
One lemma, `DeepSetMap.NonNumbersAtPathBecomeNaN`, needs a second assumption,
`Values.NonNumbersToNaN`: the kernel maps every non-number to NaN. Everything
else holds for any kernel.

Containers are heap objects. `Buffers.Buffer` is an array-like: a plain Array
or a typed array of some dtype, over a Dafny `array`. `Buffers.Matrix` is a
shape and a dtype over a flat typed buffer. Each loop is a method that writes
the output array in place. Its postcondition ties the new contents to the
outcome sequence of the kernel over the *old* input. Two shared predicates
say what the array holds afterwards:

- `Elementwise.WrittenUpTo`: every index before the first throw holds its
  stored result, and every other index is as it was;
- `Elementwise.Filled`: the completed form, where every index holds its
  stored result.

Because the outcomes are taken over the old input, an output that *is* the
input (`copy: false`) still gets the transform of each original element.
Storing into a typed array coerces the value to the dtype (`Coercion.Coerce`).
A plain Array keeps the value as it is.

Where the code and its tests disagree, the model follows the code:

- `lib/array.js:24-25` writes NaN for a non-number element. The test at
  `test/test.js:47-67` expects a TypeError. The model writes NaN.
- `lib/array.js:28` returns the output even for empty input. The test at
  `test/test.array.js:81-84` expects null. The model returns the output.
- `lib/deepset.js:28-30` returns null for empty input. The test at
  `test/test.deepset.js:104-107` expects an empty array. The model returns
  null.

The router therefore returns an empty array, not null, for an empty plain
array without an accessor.

## Model

| member | source | states |
|---|---|---|
| Coercion.DtypeNamed | lib/index.js:58-60 | the constructor registry: a name resolves only to the dtype of that name; anything else gives None |
| Coercion.DtypeNamedRoundTrip | lib/index.js:81-84 | every one of the nine dtype names resolves back to its own dtype |
| Coercion.Wrap | test/test.matrix.js:35-40 | a wrapping integral store lands in the dtype's range, differs from the integer by a multiple of 2^bits, and keeps in-range integers |
| Coercion.Clamped | test/test.matrix.js:35-40 | a Uint8ClampedArray store lands in 0..255 |
| Coercion.Coerce | lib/matrix.js:25 | a typed store always yields a number; an integral dtype yields an integer it can hold; a float dtype keeps a number as it is |
| Coercion.CoerceKeepsRepresentable | lib/matrix.js:25 | storing a value the dtype already holds exactly changes nothing |
| Coercion.CoerceIdempotent | lib/matrix.js:25 | storing the stored value again changes nothing |
| Coercion.Store | lib/array.js:23-25 | an element store (also lib/matrix.js:25): a plain Array keeps the value; a typed array holds a value its dtype represents and keeps one that already is |
| Coercion.CoerceTruncates | test/test.matrix.js:35-40 | a wrapping integral store of a number whose integer part fits keeps exactly that integer part, rounded toward zero |
| Buffers.Buffer.constructor | lib/index.js:87-90 | `new Array(n)` or `new ctor(n)`: a fresh array of the given kind holding n undefined entries or n zeros, which every dtype represents |
| Buffers.Matrix.constructor | lib/index.js:64-65 | `matrix(d, shape, dtype)` wraps the given buffer with that shape and dtype |
| Elementwise.FirstError | lib/array.js:21-27 | the index where a loop that throws stops: every earlier outcome succeeds, the outcome there throws, or no outcome throws at all |
| Elementwise.CompletesIffNoError | lib/array.js:21-27 | a loop runs to the end exactly when no outcome throws |
| Elementwise.KernelRunFailsIffOutOfDomain | test/test.js:75-90 | over numbers, the unchecked map throws exactly when some element lies outside [-1, 1], and then with a RangeError |
| ArrayMap.FlatStep | lib/array.js:22-26 | one index: a non-number gives NaN; under the kernel's laws the step throws exactly for a number outside [-1, 1], with a RangeError |
| ArrayMap.Erfinv | lib/array.js:18-29 | each index of x: a number goes through the kernel and a non-number becomes NaN; the result is stored at the same index of y; indices of y beyond x are untouched; y itself is returned, also for empty x; a kernel throw stops the loop with that error; x is unchanged unless it is y, and with y == x each entry is the transform of the original |
| ArrayMap.FlatFailsIffOutOfDomain | lib/array.js:21-26 | the flat map throws exactly when some element is a number outside [-1, 1], and then with a RangeError; non-numbers never throw |
| ArrayMap.NonNumbersBecomeNaN | lib/array.js:24-26 | a non-number element yields NaN whatever the kernel does |
| ArrayMap.AgreesWithUncheckedOnNumbers | lib/typedarray.js:21-23 | on all-number input the checked flat map and the unchecked one produce the same outcomes |
| TypedArrayMap.Erfinv | lib/typedarray.js:18-25 | y[i] becomes the stored kernel result of the original x[i] for each index, with no type check; indices of y beyond x are untouched; y is returned, also for empty x |
| AccessorMap.OutcomesAreKernelOverAccessed | lib/accessor.js:26 | the accessor's value goes to the kernel unchecked: with an accessor that never throws, the run is the unchecked map over the accessed values |
| AccessorMap.StopsAtFirstThrow | lib/accessor.js:25-27 | a run stops at the first index where the accessor or the kernel throws, with that error; every earlier index passed both |
| AccessorMap.Erfinv | lib/accessor.js:19-29 | empty x gives null with no accessor call and y untouched; otherwise y[i] is the kernel of accessor(x[i], i) for each index before the first throw of the accessor or the kernel, later indices are untouched, and y or that error is returned; the call log lists (element, index) once per index reached, in increasing order |
| MatrixMap.Erfinv | lib/matrix.js:18-28 | different total lengths throw a plain Error before anything is written (shapes are not compared); otherwise y.data[i] is the stored kernel result of x.data[i] and y is returned, also when both are empty |
| Records.Split | lib/deepset.js:31-35 | splitting a path on a non-empty separator yields at least one key |
| Records.SplitPiecesFree | lib/deepset.js:31-35 | no piece of a split contains the separator, and the first piece is a prefix of the path |
| Records.JoinSplit | lib/deepset.js:31-35 | joining the pieces of a split path with its separator gives the path back |
| Records.DeepGet | lib/deepset.js:34 | the deep getter: a path that does not exist reads as undefined |
| Records.DeepSet | lib/deepset.js:35-37 | the deep setter: an object stays an object with the same keys, and anything else is left as it is |
| Records.GetAfterSet | lib/deepset.js:37 | after writing an existing path, reading it back gives the value written and the path still exists |
| Records.SetMissingIsNoOp | lib/deepset.js:37 | writing a path that does not exist leaves the record as it is |
| Records.SetLeavesDivergingPath | test/test.deepset.js:67-101 | writing one path leaves the value at every path that diverges from it as it was |
| DeepSetMap.KeyPath | lib/deepset.js:31-35 | the keys the path denotes, split on the separator passed on or else "."; for a non-empty separator, the keys joined by it give the path back and none contains it |
| DeepSetMap.Erfinv | lib/deepset.js:21-40 | empty x gives null; otherwise each record has the value at the path replaced by the kernel of the value there, records after a throw are untouched, and x itself is returned |
| DeepSetMap.DefaultSeparatorIsDot | lib/deepset.js:31-35 | without a separator argument the path is split on "."; then "x/1" stays one key |
| DeepSetMap.CustomSeparatorRewritesOneElement | test/test.deepset.js:67-101 | with path "x/1" and separator "/", a record {x: [a, b]} becomes {x: [a, w]} |
| DeepSetMap.NonNumbersAtPathBecomeNaN | test/test.deepset.js:109-128 | if the kernel maps non-numbers to NaN, records with a non-number at the path complete and hold NaN there afterwards |
| Router.ShapeOf | lib/index.js:47-81 | definition: the probe that classifies the input (primitive number, matrix-like, array-like with Array.isArray, anything else); Router.Route and Router.Erfinv are stated through it |
| Router.Route | lib/index.js:47-97 | the decision tree: only a number goes straight to the kernel; a matrix plan never allocates a plain Array; path, flat and accessor plans arise only for array-likes; a path plan always has a non-empty separator |
| Router.NumberIgnoresOptions | lib/index.js:47-49 | a primitive number is evaluated directly whatever the options and the options check say |
| Router.OptionsCheckedFirst | lib/index.js:50-55 | for anything else, a failed options check is thrown before any other decision |
| Router.UnsupportedIsTypeError | lib/index.js:97 | a value that is neither a number, matrix-like nor array-like is a TypeError |
| Router.PathTakesPrecedence | lib/index.js:73-76 | for array-likes, a path wins over copy, dtype and accessor; the separator is "." when empty or absent |
| Router.CopyFalseReusesInput | lib/index.js:66-69 | with copy false the output is the input itself and dtype is ignored, for matrices and for array-likes without a path (lib/index.js:78-79) |
| Router.UnknownDtypeRejected | lib/index.js:59-62 | an unknown dtype for a fresh output is rejected: a plain Error for a matrix; for an array-like, a TypeError (lib/index.js:83-86) |
| Router.FreshOutputKind | lib/index.js:81-91 | without copy false the output is fresh: a plain Array for a plain array without dtype, otherwise a typed output of the dtype option or float64, for matrices too (lib/index.js:57-65) |
| Router.AccessorSelectsMap | lib/index.js:92-95 | an accessor selects the accessor map with that accessor; without one the flat map runs |
| Router.Allocate | lib/index.js:78-91 | the output is the input itself, or a fresh array of the input's length and the chosen kind |
| Router.Erfinv | lib/index.js:38-98 | per plan: a number gives the kernel's value or error; a refusal throws with nothing written; a matrix or array-like output holds the stored kernel results of the original elements, in a fresh container (input unchanged) or in the input itself, or the run throws the first kernel error; a path run rewrites the records of x; an empty accessor or path run gives null, while an empty flat run gives an empty array |

## Left out

- The scalar function `lib/number.js` is not part of this model. It is a floating-point rational approximation. Only the facts in `Values.KernelLaws` are assumed, and no accuracy claim is made. The numeric `closeTo` checks of the tests are out too.
- `Values.KernelLaws` assumes that no number inside [-1, 1] throws. The tests show this only for single values such as 0.5.
- `Values.NonNumbersToNaN` assumes that the kernel maps every non-number to NaN. Only the expectation in test/test.deepset.js:109-128 supports it; `DeepSetMap.NonNumbersAtPathBecomeNaN` takes it as a precondition.
- AccessorMap.Erfinv: the callback is a function of its arguments that returns a value or throws. Side effects it might have, and how many times it is called, are not observable in the model. The `calls` log is ghost state that the loop extends beside each call, so it records the loop's order rather than observing the callback.
- Coercion.Coerce: does not model float32 rounding. A number stored into a Float32Array is kept as it is. Signed zero is not distinguished.
- Coercion.Coerce: a non-number stored into a typed array is modelled as NaN for float dtypes and as 0 for integral ones. The full ToNumber conversion of strings, booleans and null is not modelled. The router only ever stores numbers or NaN into typed arrays.
- The runtime probes (`validate.io-number-primitive`, `-array`, `-array-like`, `-matrix-like`) are replaced by the `Router.Input` datatype. Array-like objects other than plain Arrays and typed arrays are not modelled.
- `./validate.js` is not part of this model. It is a function parameter `validate` that returns an error or none. The copying of validated options into the options bag is taken as already done.
- The `compute-array-constructors` registry is `Coercion.DtypeNamed` over the nine typed-array names. `dstructs-matrix` is `Buffers.Matrix` with a two-dimensional shape.
- The deep getter and setter (`utils-deep-get`, `utils-deep-set`) are modelled on key sequences. A missing path is read as undefined and is not created on write. Arrays inside records are objects keyed "0", "1", and so on.
- Records are values. Two entries of the input that share one record object, where a write through one shows up in the other, are not modelled.
- ArrayMap.Erfinv: requires the output to be at least as long as the input. A shorter plain Array would grow, and a shorter typed array would drop the writes. The router never passes a shorter output.
- TypedArrayMap.Erfinv and AccessorMap.Erfinv: require the output to be at least as long as the input, for the same reason.
- The texts of error messages are not modelled, only the error constructor.
- examples/index.js only prints and is not part of this model.
