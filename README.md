# mmath: error aggregate and failing calculation

A Dafny model of two pieces of the Go library `mmath`, which builds lazily
evaluated boolean and int64 calculations that report failures as ordinary
`(value, error)` results.

- **The error aggregate** (`errors`, error.go). An ordered list of failures
  that is itself a failure. Its message is `"multiple errors: "` followed by
  the messages of its elements, in list order, joined by `"; "`. Failures are
  the datatype `Errors.Err = Leaf(msg) | Multi(errs)`. `Leaf` is any
  failure that is not an aggregate. `Multi` is the aggregate, whose elements
  may be aggregates again. The specification of the message is the function
  `Errors.Message` and the functions `Errors.Render` and `Errors.Join` it
  uses. `Errors.Join` is written out and plays the part of Go's
  `strings.Join`. The `Error()` method itself is the method
  `Errors.AggregateError`. It allocates the array `errStrings` with one entry
  per element and fills it in a `for` loop, asking each element for its own
  message (`Errors.ErrorMessage`, which recurses into nested aggregates).
  Then it joins the entries after the prefix. The method is proved to return
  exactly `Render(errs)`. The lemmas then give the full layout of that
  string: where each message stands, where each separator stands, the total
  length, the ends, and containment of every message.
- **The failing calculation** (failing_calculation.go). A test double that
  implements both calculation interfaces (int64.go, bool.go). It always
  returns the zero value of the result type with the error it was created
  with. The result pair is `FailingCalculations.Result<T>(value, err)`,
  where `err: Option<Err>` and `None` stands for Go's `nil`. These are pure
  functions on a value. Repeated evaluation therefore gives identical
  results by construction, and evaluation cannot change the double. The
  same holds for the aggregate: its `Error()` has a value receiver, and
  `AggregateError` takes a `seq` and has no `modifies` clause.

Nothing in error.go forbids an empty aggregate. It renders as the bare
prefix (see `Errors.RenderEmpty`).

## Model

| member | source | states |
|---|---|---|
| Errors.AggregateError | error.go:9-15 | Error() of an aggregate fills `errStrings` so that entry `i` is the message of element `i` (the loop invariant), then returns exactly the prefix followed by those messages joined by "; " |
| Errors.ErrorMessage | error.go:12 | the message of one element is its own message if it is a plain failure, and the rendering of the aggregate if it is an aggregate |
| Errors.Render | error.go:14 | every rendering of an aggregate starts with the literal "multiple errors: " |
| Errors.RenderEmpty | error.go:10-14 | an empty aggregate renders as exactly the prefix, with no separator |
| Errors.RenderSingle | error.go:14 | a one-element aggregate renders as the prefix followed by that element's message, with no "; " |
| Errors.RenderMessageAt | error.go:11-14 | the message of element `i` stands unchanged right after the prefix, the earlier messages and one separator after each of them |
| Errors.RenderSeparatorAt | error.go:14 | between the messages of elements `i` and `i + 1` stands exactly "; " |
| Errors.RenderEnds | error.go:14 | a non-empty rendering continues the prefix with the first message and ends with the last one: no separator at either end |
| Errors.RenderLength | error.go:10-14 | for n >= 1 elements the length is 17 plus the sum of the message lengths plus 2 * (n - 1) |
| Errors.RenderContainsMessage | error.go:11-14 | every element's message is a substring of the rendering, the check the aggregated-failure tests make |
| Errors.MessageContainsMention | error.go:12 | the message of every plain failure nested at any depth inside a failure is a substring of that failure's message |
| Errors.RenderBrokenMeh | bool_test.go:44-53 | two failures "broken" and "meh", aggregated in operand order, render as "multiple errors: broken; meh", which contains both |
| Errors.JoinPartAt | error.go:14 | strings.Join places part `i` unchanged after the earlier parts and their separators |
| Errors.JoinSeparatorAt | error.go:14 | strings.Join places exactly the separator between consecutive parts |
| Errors.JoinLength | error.go:14 | a join of n >= 1 parts is as long as the parts plus n - 1 separators |
| Errors.JoinEnds | error.go:14 | a non-empty join starts with the first part and ends with the last |
| FailingCalculations.NewFailingCalculation | failing_calculation.go:11-15 | the double stores the supplied error unchanged |
| FailingCalculations.CalculateBool | failing_calculation.go:18-20 | returns false and exactly the stored error; success exactly when that error is nil |
| FailingCalculations.CalculateInt64 | failing_calculation.go:23-25 | returns 0 and exactly the stored error; success exactly when that error is nil |
| FailingCalculations.NeverSucceeds | failing_calculation.go:18-25 | created with a non-nil error, neither evaluation reports success, and both report the same failure |
| FailingCalculations.ReportsSuppliedFailure | failing_calculation.go:19-24 | the returned error is the supplied one, not an aggregate of one element wrapping it, and carries its message |
| FailingCalculations.WhoopsieComesThrough | bool_test.go:32-33 | the double used in the negation test reports the plain failure "whoopsie" |
| FailingCalculations.AggregatedFailuresAreContained | bool_test.go:44-53 | the failures of two doubles, aggregated in operand order, both appear in the combined message |

## Left out

- The other calculations (`NewSumInt64`, `NewNot`, `NewInt64Equals`, constants, variables) are not modelled, because their source is not among the files. Of them, only `NewSumInt64` and `NewInt64Equals` combine failures into an aggregate.
- Go's nil error inside an aggregate: calling `Error()` on a nil element panics. `Err` has no nil value, so the model only covers aggregates of real failures.
- Interface dispatch for `CalculationInt64` and `CalculationBool` is not modelled. Only the `(value, error)` result shape they declare is, as `Result<T>`.
- The test harness (`runTestcasesBool`, `errorAnd`, `errorContainsString`, table-driven loops), `t.Parallel()` and subtests, and the `fmt.Printf` output of the example tests are left out. They are test machinery, concurrency and I/O, not library logic. `Errors.Contains` stands in for `strings.Contains`.
- Go strings are byte sequences; the model uses `seq<char>`. Errors.RenderLength therefore counts characters where Go's `len` counts bytes. The two agree when the messages are ASCII, as the prefix and separator are.
- The builder loop inside Go's `strings.Join` is library code and is not modelled step by step. `Errors.Join` gives its result as a recursive function.
