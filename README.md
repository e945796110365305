# go-functools in Dafny

A model of `functools.go`, a small generic sequence toolkit for Go with five operations:

- `Equal` tells whether two slices hold the same values in the same order.
- `Apply` runs an effect on every element, in order.
- `Filter` keeps the elements that satisfy a predicate, in order.
- `Map` transforms every element, keeping length and order.
- `Reduce` is a left fold whose combiner takes the element first and the accumulator second.

Module `Functools` (functools.dfy) writes each Go `for` loop as a Dafny method with a loop and its invariants.
Each method is proved to agree with a recursive specification function: `Effects`, `Filtered`, `Mapped` or `Reduced`.
`Equal` is specified directly.
The lemmas beside them state what the specifications promise.
Module `FunctoolsTests` (functools_test.dfy) restates the integer cases of `functools_test.go` as client methods.
These clients rely only on the contracts of `Functools`.

Slices are `seq<T>` values. Predicates, transforms and combiners are total Dafny functions (`T -> bool`, `S -> T`, `(T, T) -> T`).
An `Effect` in Go is a closure that may change state it has captured.
Here it is a function `(W, T) -> W` from the state it can observe and its argument to the new state.
`Apply` takes the initial state and returns the final state.
It also returns `calls`, the list of arguments the effect received, one entry per call.

## Model

| member | source | states |
|---|---|---|
| Functools.Equal | functools.go:4-15 | false whenever the lengths differ; true exactly when the lengths match and `xs[i] == ys[i]` at every index; equivalently true exactly when `xs == ys`, so `Equal(xs, xs)` holds, the empty case included |
| Functools.Apply | functools.go:21-25 | the effect is called once per element in ascending index order (`calls == xs`, no calls for empty `xs`); the final state is the effects of `xs` run first to last from the initial state |
| Functools.Effects | functools.go:21-25 | the state the effect leaves behind when it runs on each element first to last; no element leaves the state unchanged (no contract of its own; `Apply`, `EffectsAppend` and `StoreRecordsEach` state its properties) |
| Functools.EffectsAppend | functools.go:22-24 | running the effects of `a + b` runs those of `a` and continues from that state with those of `b` |
| Functools.Store | functools_test.go:55-57 | the test's storing closure as an effect: it appends its argument to the storage (no contract of its own; `StoreRecordsEach` states what it does over a whole slice) |
| Functools.StoreRecordsEach | functools_test.go:52-65 | an effect that appends its argument to a storage slice, applied to `xs`, leaves the storage extended by exactly `xs` |
| Functools.Filtered | functools.go:32-40 | the filtered sequence is no longer than the input and every element of it satisfies the predicate |
| Functools.Filter | functools.go:32-40 | the loop that appends each element satisfying the predicate returns exactly `Filtered(xs, p)` |
| Functools.FilterIsOrderedSelection | functools.go:34-38 | the result is `xs` read at the ascending indices whose element satisfies `p`: an index is selected if and only if its element satisfies `p`, the indices are strictly increasing, and the result has one element per selected index |
| Functools.FilterAppend | functools.go:34-38 | filtering `a + b` is filtering `a` followed by filtering `b` |
| Functools.FilterEmptyIffNoneSatisfy | functools.go:33-39 | the result is empty if and only if no element satisfies `p`, so an empty input gives an empty result |
| Functools.FilterKeepsAll | functools.go:34-38 | when every element satisfies `p`, the result is the input |
| Functools.FilterIdempotent | functools.go:32-40 | filtering a filtered sequence again by the same predicate changes nothing |
| Functools.Mapped | functools.go:47-54 | the mapped sequence has the input's length and holds `f(xs[i])` at every index `i` |
| Functools.Map | functools.go:47-54 | the loop that appends `f(x)` for each element returns exactly `Mapped(xs, f)` |
| Functools.Reduced | functools.go:59-67 | the left fold with `acc := c(x, acc)` from the first element to the last, giving back the accumulator for an empty input (no contract of its own; `Reduce`, `ReduceAppend`, `ReduceLast`, `ReduceElementFirst` and `ReduceWithPlusSums` state its properties) |
| Functools.Reduce | functools.go:61-67 | returns `init` for an empty input; in general returns the left fold `Reduced(xs, init, c)` with `acc := c(x, acc)` in index order |
| Functools.ReduceAppend | functools.go:62-65 | folding `a + b` folds `a` from `init` and continues over `b` from that accumulator |
| Functools.ReduceLast | functools.go:62-65 | for a non-empty input the last element is combined last, as the first argument, with the fold of the rest as the accumulator |
| Functools.ReduceElementFirst | functools.go:57 | on `[x, y]` the result is `c(y, c(x, init))`: element first, accumulator second |
| Functools.Plus | functools_test.go:126 | the test's combiner, element plus accumulator (no contract of its own; `ReduceWithPlusSums` states what folding with it gives) |
| Functools.ReduceWithPlusSums | functools_test.go:122-129 | folding with element-plus-accumulator adds the sum of the input to the initial value |
| FunctoolsTests.TestEqual | functools_test.go:14-50 | the five table cases give true, false, true, true, false |
| FunctoolsTests.TestEffect | functools_test.go:52-65 | applying the storing effect to `[1, 2, 3, 4, 5]` leaves the storage equal to the input, and `Equal` confirms it |
| FunctoolsTests.NonNegative | functools_test.go:76 | the filter test's predicate `x >= 0` (no contract of its own; `TestFilter` states what filtering by it gives) |
| FunctoolsTests.TestFilter | functools_test.go:73-89 | filtering `[-3, 2, -1, 0, 1, 3, -2]` by `x >= 0` gives `[2, 0, 1, 3]` |
| FunctoolsTests.TestReduce | functools_test.go:122-139 | reducing `[1, 2, 3, 4, 5, 6]` from 0 with addition gives 21 |

## Left out

- demo/main.go is not part of this model: it works on `float64` with `math.Round` and prints to the console. It only shows Filter, Map and Reduce chained together.
- The Map test (functools_test.go:97-113) rounds `float64` values with `math.Round`. Floating point is not modelled.
- Go's testing plumbing (`testing.T`, `t.Errorf`) is left out. The test cases are the methods of `FunctoolsTests`.
- Callbacks cannot panic or fail here. In Go, a panicking callback stops the traversal, and that is not modelled.
- A Go closure may change any state it has captured. Here an effect changes only the explicit state value passed through `Apply`.
- The difference between a nil slice and an empty slice, slice aliasing and capacity are not modelled. `Filter` and `Map` return fresh `seq` values.
- Go's `comparable` constraint is modelled by Dafny's `T(==)` and nothing more.
- Functools.Equal: does not model Go's `==` where it is not an equivalence. On `float64` a NaN is unequal to itself, so Go's `Equal` on a slice holding NaN returns false even for the same slice. On interface values whose dynamic type is not comparable, Go's `==` panics. The model's `eq <==> xs == ys`, and with it `Equal(xs, xs)`, holds for Dafny's equality only.
- Functools.ReduceWithPlusSums: does not model integer width or overflow. Go's `int` is 64 bits wide and wraps, so `[9223372036854775807, 1]` from 0 gives -2^63 in Go and 2^63 here. The test's `[1, 2, 3, 4, 5, 6]` case is far from the bound and unaffected. `Plus` and `Sum` work on unbounded integers.
