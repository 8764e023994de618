# xp500 errors: a verified model of the result type and its handler chains

The library represents the outcome of a fallible operation as an error `e`, a
success carrying a value `v`, or a void success. Callers do not branch on a
tag. They use a two-step chain instead: a handler call (`ifError`,
`ifNotError`, `ifErrorReturn`, `ifNotErrorReturn`) runs its own side straight
away when the tag matches. Otherwise it returns a one-shot executor, and the
executor's `otherwise(...)` runs the other side. A side-effect chain returns
nothing. A returning chain collapses both sides to one value.

The model:

- `Errors.Result` is the single datatype `Err(e) | Val(v) | Void`. It replaces
  the four variant classes of `Errors.java` and their bases `ErrorImpl` (error
  side) and `NotError` (success side).
- The factories are `Errors.ForValue`, `ForVoid`, `ForValueError` and
  `ForVoidError`.
- `VoidElseExecutors.VoidElseExecutor` and
  `ReturnElseExecutors.ReturnElseExecutor` are the two executor families. Each
  `Otherwise` is a function of its argument.
- Callbacks are values:
  - `Action` is a `Consumer` (one argument) or a `Command` (no argument). Its
    arrow gives the event the callback records when it is invoked.
  - `Func` is a `OneArgFunction` or a `Supplier`.
- A side-effect handler returns a `Handled` pair: the invocations it made at
  once (a trace, `seq<Ev>`) and the executor. `Handled.Otherwise` gives the
  trace of the whole chain.
- `Calls.Call` is the event type of a spy: `ErrSide(e) | ValSide(v) | VoidSide`.
  `Calls.Count` is the spy's counter.
- Two reference case analyses, `Result.Dispatch` (side effects) and
  `Result.Collapse` (returning), say what a complete chain must do. Each
  handler's contract ties the handler and the executor's `Otherwise`, for
  every admissible completion, to that reference.
- `LegacyErrorOr` models the older `ErrorOr` class of package `com.cred.utils`:
  `isError`, `getValueOrFail` and `getErrorOrFail`. A throwing accessor yields
  `Thrown(IllegalStateException(message))` with the source's message.

Notes on the source:
- The repository holds two result surfaces. The chain surface lives in
  `Errors.java`, `ErrorImpl.java`, `NotError.java` and the two executor files.
  The older `ErrorOr` class in `ErrorOr.java`, declared in package
  `com.cred.utils`, is modelled as the separate module `LegacyErrorOr`.
- Only the older surface has payload accessors that throw on the wrong
  variant. The chain surface reaches a payload only through a handler chain.
- `ErrorImpl.error` is declared `private`, yet `ValueErrorImpl` and
  `VoidErrorImpl` read it (`Errors.java` lines 266, 271, 284 and 289). The
  model treats the constructor's error as visible to every error variant,
  which is what the code evidently means.

## Model

| member | source | states |
|---|---|---|
| `VoidElseExecutors.NoActionIgnoresCallback` | src/main/java/io/github/xp500/errors/VoidElseExecutor.java:14-21 | The inert executor's `otherwise` invokes no callback, whatever callback it is given |
| `VoidElseExecutors.VoidElseExecutor.OtherwiseDoNothing` | src/main/java/io/github/xp500/errors/VoidElseExecutor.java:11-12 | `otherwiseDoNothing` invokes nothing on every executor kind: its trace is a prefix of what `otherwise(k)` would leave, shorter by exactly the one invocation a pending executor would make |
| `ReturnElseExecutors.NoActionIgnoresFunction` | src/main/java/io/github/xp500/errors/ReturnElseExecutor.java:14-28 | `NoActionReturnElseExecutor(x).otherwise(f)` is `x` for every `f`: the result does not depend on the function |
| `ReturnElseExecutors.ReturnElseExecutor.OtherwiseReturnNull` | src/main/java/io/github/xp500/errors/ReturnElseExecutor.java:10-12 | As written, `otherwiseReturnNull` is always null, and so agrees with the intended behaviour exactly on executors that do not yet hold a result |
| `ReturnElseExecutors.OtherwiseReturnNullDropsResult` | src/main/java/io/github/xp500/errors/ReturnElseExecutor.java:10-12 | As written, `otherwiseReturnNull` is null even on an executor that holds a result; the intended version returns that result |
| `ReturnElseExecutors.ReturnElseExecutor.OtherwiseOrNull` | src/main/java/io/github/xp500/errors/ReturnElseExecutor.java:10-12 | Intended `otherwiseReturnNull`: non-null exactly when the executor already holds the result, and then equal to what `otherwise` returns for every admissible function |
| `Errors.Handled.Otherwise` | src/main/java/io/github/xp500/errors/NotError.java:9-13 | A chain's trace starts with the handler's immediate invocations, in order, and has one more invocation exactly when the executor is still pending |
| `Errors.Result.IfError` | src/main/java/io/github/xp500/errors/ErrorImpl.java:19-23 | `ifError(c)` invokes c at once exactly for an error; a success returns the consumer or command executor (`Errors.java` lines 211-238, `VoidElseExecutor.java` lines 14-46), so that, completed with any admissible success callback, the chain performs exactly the single invocation the reference `Dispatch` prescribes |
| `Errors.Result.IfNotError` | src/main/java/io/github/xp500/errors/NotError.java:9-15 | `ifNotError(a)` invokes a at once exactly for a success, through `doAction` (`Errors.java` lines 216-243); an error returns the consumer executor holding its error (`ErrorImpl.java` lines 30-33), so that, completed with any error consumer d, the chain performs exactly the invocation `Dispatch(d, a)` |
| `Errors.Result.IfErrorReturn` | src/main/java/io/github/xp500/errors/Errors.java:221-290 | `ifErrorReturn(f)` resolves eagerly exactly on an error; completed with any admissible g, the executor (`ReturnElseExecutor.java` lines 14-52) makes the chain's value `Collapse(f, g)` |
| `Errors.Result.IfNotErrorReturn` | src/main/java/io/github/xp500/errors/Errors.java:221-290 | `ifNotErrorReturn(g)` resolves eagerly exactly on a success; completed with any error function f, the executor (`ReturnElseExecutor.java` lines 14-52) makes the chain's value `Collapse(f, g)` |
| `Errors.ForValue` | src/main/java/io/github/xp500/errors/Errors.java:166-168 | `forValue(v)` is a value object: its chains admit a consumer and run the value side with exactly v |
| `Errors.ForVoid` | src/main/java/io/github/xp500/errors/Errors.java:176-178 | `forVoid()` is a void object: its chains admit a command and run it |
| `Errors.ForValueError` | src/main/java/io/github/xp500/errors/Errors.java:198-200 | `forValueError(e)` is an error of the value family: its chains admit a consumer and run the error side with exactly e |
| `Errors.ForVoidError` | src/main/java/io/github/xp500/errors/Errors.java:187-189 | `forVoidError(e)` is an error of the void family: its chains admit a command and run the error side with exactly e |
| `Chains.BothCallOrdersAgree` | src/main/java/io/github/xp500/errors/ErrorImpl.java:19-33 | `ifError(c).otherwise(a)` and `ifNotError(a).otherwise(c)` leave the same one-entry trace, the invocation `Dispatch` prescribes |
| `Chains.ChainCountSplits` | src/main/java/io/github/xp500/errors/NotError.java:9-13 | A spy's counter over a whole chain is its count over the handler's immediate invocations plus its count over the executor's |
| `Chains.SpiedChainsRunExactlyOneSide` | src/main/java/io/github/xp500/errors/Errors.java:211-243 | With spies on both sides, every variant in both call orders runs exactly one side, exactly once, with the variant's own payload: error counter 1 exactly for errors, success counter 1 exactly for successes; the handler has already run its own side before `otherwise` is called |
| `Chains.ReturnBothCallOrdersAgree` | src/main/java/io/github/xp500/errors/Errors.java:221-290 | `ifErrorReturn(f).otherwise(g)` and `ifNotErrorReturn(g).otherwise(f)` both equal `Collapse(f, g)` for every variant |
| `Chains.ReturnChainIgnoresOtherSide` | src/main/java/io/github/xp500/errors/Errors.java:264-272 | A returning chain's value does not depend on the success function for an error, nor on the error function for a success |
| `Chains.ForValueChains` | src/main/java/io/github/xp500/errors/Errors.java:202-231 | On `forValue(v)` no error callback runs; every success callback gets exactly v; `ifNotErrorReturn(g)` holds `g(v)` eagerly and the chains return `g(v)` |
| `Chains.ForVoidChains` | src/main/java/io/github/xp500/errors/Errors.java:233-255 | On `forVoid()` no error callback runs; the command or supplier runs once with no argument and the chains return `s()` |
| `Chains.ForVoidDocExample` | src/main/java/io/github/xp500/errors/Errors.java:57 | The documented `forVoid().ifErrorReturn(e -> 0).otherwise(() -> 1)` yields 1 |
| `Chains.ForValueErrorChains` | src/main/java/io/github/xp500/errors/Errors.java:257-273 | On `forValueError(e)` the error callback runs once with exactly e, no value callback runs, and both returning chains yield `f(e)` |
| `Chains.ForVoidErrorChains` | src/main/java/io/github/xp500/errors/Errors.java:275-291 | On `forVoidError(e)` the error callback runs once with exactly e, no command or supplier runs, and both returning chains yield `f(e)` |
| `Chains.ValueFamilyTestExpectations` | src/test/java/io/github/xp500/errors/ErrorOrValueTest.java:56-78 | The value-family test's expectations: `forValue(5)` ends at 2 and `forValueError(e)` at 10 in all four chain forms |
| `Chains.OtherwiseReturnNullDiscardsHandledResult` | src/main/java/io/github/xp500/errors/ReturnElseExecutor.java:10-12 | As written, `otherwiseReturnNull` after a matching handler is null although `otherwise` would return the handler's computed value |
| `Chains.OtherwiseOrNullKeepsHandledResult` | src/main/java/io/github/xp500/errors/ReturnElseExecutor.java:14-28 | The intended `otherwiseReturnNull` returns the matching handler's value and is null exactly when the other side would have to run |
| `LegacyErrorOr.ForError` | src/main/java/io/github/xp500/errors/ErrorOr.java:14-16 | `forError(e).getErrorOrFail()` returns exactly e |
| `LegacyErrorOr.ForValue` | src/main/java/io/github/xp500/errors/ErrorOr.java:26-28 | `forValue(v).getValueOrFail()` returns exactly v |
| `LegacyErrorOr.ForVoid` | src/main/java/io/github/xp500/errors/ErrorOr.java:39-41 | On `forVoid()` both accessors throw, with the void object's messages |
| `LegacyErrorOr.ErrorOr.GetValueOrFail` | src/main/java/io/github/xp500/errors/ErrorOr.java:43-53 | `getValueOrFail` returns only on a non-error object and throws the documented `IllegalStateException` on an error object |
| `LegacyErrorOr.ErrorOr.GetErrorOrFail` | src/main/java/io/github/xp500/errors/ErrorOr.java:62-72 | `getErrorOrFail` returns exactly when `isError()` holds |
| `LegacyErrorOr.IsErrorExactlyForErrors` | src/main/java/io/github/xp500/errors/ErrorOr.java:55-60 | `isError()` holds of an object exactly when it is `forError(e)` for some e; it fails for every `forValue(v)` and for `forVoid()` |
| `LegacyErrorOr.GetValueFailsOnErrorAndVoid` | src/main/java/io/github/xp500/errors/ErrorOr.java:82-134 | `getValueOrFail` throws, with the source's messages, on an error object and on a void object |
| `LegacyErrorOr.GetErrorFailsOnValueAndVoid` | src/main/java/io/github/xp500/errors/ErrorOr.java:118-145 | `getErrorOrFail` throws on a value object and on a void object |
| `LegacyErrorOr.AccessorsFollowIsError` | src/main/java/io/github/xp500/errors/ErrorOr.java:43-72 | `getErrorOrFail` succeeds iff `isError()`; `getValueOrFail` succeeds iff not an error and not void |
| `LegacyErrorOr.AccessorsDetermineObject` | src/main/java/io/github/xp500/errors/ErrorOr.java:74-147 | Two objects that answer `isError`, `getValueOrFail` and `getErrorOrFail` alike are the same object |

## Left out

- The callback interfaces `OneArgFunction`, `Supplier`, `Command` and `FunctionWithReturnValue` are not declared as types of their own. A `Command` becomes the `Action.Command` shape, whose `run` stands for `doCommand()`. `OneArgFunction` and `Supplier` become the two `Func` shapes. `FunctionWithReturnValue` has no separate shape: its role is taken by `Func`.
- The `ErrorOr` interface that `ErrorImpl` and `NotError` implement in package `io.github.xp500.errors` is not part of this model. Its methods are modelled only through their implementations.
- Java generics, wildcards and the class hierarchy collapse into `Result`. An `Err` does not record whether it came from `forValueError` or `forVoidError`. The difference lies only in the callback shapes the family admits, so an `Err` accepts both shapes. The `Accepts` and `AcceptsFunc` preconditions stand for the static typing that admits a `Consumer` or a `Command`, a `OneArgFunction` or a `Supplier`.
- Payloads are values of types that hold no allocated references. The library never reads, compares or allocates a payload, so aliasing and mutation of payload objects are out of scope.
- Exceptions thrown by callbacks, and their propagation, are not modelled. The library has no handling for them.
- Functions of the returning family are pure. Side effects inside them are not traced. "Never applied" is stated as independence of the chain's value from that function (`Chains.ReturnChainIgnoresOtherSide`), and "applied eagerly" as the executor holding the computed value.
- Calling `otherwise` twice on one executor is outside the library's contract and is not modelled.
- That captured values are final needs no lemma. Executors are immutable datatype values, and `Otherwise` returns a trace or a value, never a changed executor.
- Null callbacks and null payloads, and the `NullPointerException` they would cause, are not modelled.
- `otherwiseDoNothing` is modelled as written. It invokes nothing on every executor kind, which is what its name says.

## Findings

| source | as written | input that shows it | evidently intended | confidence | as-written member | corrected member |
|---|---|---|---|---|---|---|
| src/main/java/io/github/xp500/errors/ReturnElseExecutor.java:10-12 | `otherwiseReturnNull()` is defined once in the base class, and no executor overrides it, so it returns null for every executor | `forValueError(e).ifErrorReturn(f).otherwiseReturnNull()` is null, although `f(e)` was already computed and `otherwise` would return it | an executor that already holds the handler's result returns it; null only when the other side would have to run | medium; not executed | `Chains.OtherwiseReturnNullDiscardsHandledResult` | `Chains.OtherwiseOrNullKeepsHandledResult` |
