/** Properties of complete two-step chains: a handler call followed by the
    `otherwise` call on the executor it returns, for every variant, both
    families and both call orders. */
module Chains {
  import opened Calls
  import opened VoidElseExecutors
  import opened ReturnElseExecutors
  import opened Errors

  // ---------------------------------------------------------------------------
  // Side-effect chains: `ifError(..).otherwise(..)` and `ifNotError(..).otherwise(..)`

  /** Both call orders perform the same single invocation: the one the
      reference case analysis `Dispatch` prescribes. */
  lemma BothCallOrdersAgree<E(!new), T(!new), Ev(!new)>(r: Result<E, T>, c: E -> Ev, a: Action<T, Ev>)
    requires r.Accepts(a)
    ensures r.IfError(c).next.Accepts(a) && r.IfNotError(a).next.Accepts(Consumer(c))
    ensures r.IfError(c).Otherwise(a) == r.IfNotError(a).Otherwise(Consumer(c)) == [r.Dispatch(c, a)]
  {
  }

  /** a is a success-side spy: every invocation records the success side with
      its payload (a `Consumer` of values or a `Command`). */
  ghost predicate SpiesSuccess<E(!new), T(!new)>(a: Action<T, Call<E, T>>)
  {
    && (a.Consumer? ==> forall v :: a.accept(v) == ValSide(v))
    && (a.Command? ==> a.run() == VoidSide)
  }

  /** The record a spied chain must leave for r. */
  function SideOf<E(!new), T(!new)>(r: Result<E, T>): Call<E, T>
  {
    match r
    case Err(e) => ErrSide(e)
    case Val(v) => ValSide(v)
    case Void => VoidSide
  }

  /** A spy's counter over a whole chain is its count over the invocations
      the handler made at once plus its count over those of the completion. */
  lemma ChainCountSplits<X(!new), Ev>(h: Handled<X, Ev>, k: Action<X, Ev>, p: Ev -> bool)
    requires h.next.Accepts(k)
    ensures Count(h.Otherwise(k), p) == Count(h.trace, p) + Count(h.next.Otherwise(k), p)
  {
    CountAppend(h.trace, h.next.Otherwise(k), p);
  }

  /** With spies on both sides, each call order runs exactly one side, exactly
      once, with the variant's own payload: the error counter reads 1 exactly
      for an error, the success counter 1 exactly for a success. The handler
      already runs its own side before `otherwise` is called. */
  lemma SpiedChainsRunExactlyOneSide<E(!new), T(!new)>(r: Result<E, T>, a: Action<T, Call<E, T>>)
    requires r.Accepts(a) && SpiesSuccess(a)
    ensures r.IfError(ErrSpy()).Otherwise(a) == [SideOf(r)]
    ensures r.IfNotError(a).Otherwise(Consumer(ErrSpy())) == [SideOf(r)]
    ensures Count(r.IfError(ErrSpy()).Otherwise(a), IsErrSide) == (if r.Err? then 1 else 0)
    ensures Count(r.IfError(ErrSpy()).Otherwise(a), IsSuccessSide) == (if r.Err? then 0 else 1)
    ensures Count(r.IfNotError(a).Otherwise(Consumer(ErrSpy())), IsErrSide) == (if r.Err? then 1 else 0)
    ensures Count(r.IfNotError(a).Otherwise(Consumer(ErrSpy())), IsSuccessSide) == (if r.Err? then 0 else 1)
    ensures Count(r.IfError(ErrSpy<E, T>()).trace, IsErrSide) == (if r.Err? then 1 else 0)
    ensures Count(r.IfNotError(a).trace, IsSuccessSide) == (if r.Err? then 0 else 1)
  {
  }

  // ---------------------------------------------------------------------------
  // Returning chains: `ifErrorReturn(..).otherwise(..)` and `ifNotErrorReturn(..).otherwise(..)`

  /** Both call orders yield the value the reference case analysis `Collapse`
      prescribes. */
  lemma ReturnBothCallOrdersAgree<E(!new), T(!new), R(!new)>(r: Result<E, T>, f: E -> R, g: Func<T, R>)
    requires r.AcceptsFunc(g)
    ensures r.IfErrorReturn(f).Accepts(g) && r.IfNotErrorReturn(g).Accepts(OneArgFunction(f))
    ensures r.IfErrorReturn(f).Otherwise(g) == r.IfNotErrorReturn(g).Otherwise(OneArgFunction(f)) == r.Collapse(f, g)
  {
  }

  /** A returning chain never uses the function of the other side: on an error
      its value does not depend on the success function, on a success it does
      not depend on the error function. */
  lemma ReturnChainIgnoresOtherSide<E(!new), T(!new), R(!new)>(r: Result<E, T>, f1: E -> R, f2: E -> R, g1: Func<T, R>, g2: Func<T, R>)
    requires r.AcceptsFunc(g1) && r.AcceptsFunc(g2)
    ensures r.Err? ==> r.IfErrorReturn(f1).Otherwise(g1) == r.IfErrorReturn(f1).Otherwise(g2)
    ensures r.Err? ==> r.IfNotErrorReturn(g1).Otherwise(OneArgFunction(f1)) == r.IfNotErrorReturn(g2).Otherwise(OneArgFunction(f1))
    ensures !r.Err? ==> r.IfErrorReturn(f1).Otherwise(g1) == r.IfErrorReturn(f2).Otherwise(g1)
    ensures !r.Err? ==> r.IfNotErrorReturn(g1).Otherwise(OneArgFunction(f1)) == r.IfNotErrorReturn(g1).Otherwise(OneArgFunction(f2))
  {
  }

  // ---------------------------------------------------------------------------
  // The four variants, as the factories build them

  /** `forValue(v)`: no error callback ever runs; every success callback gets
      exactly v; `ifNotErrorReturn` applies its function eagerly. */
  lemma ForValueChains<E(!new), T(!new), Ev(!new), R(!new)>(v: T, c: E -> Ev, k: T -> Ev, f: E -> R, g: T -> R)
    ensures ForValue<E, T>(v).IfError(c).trace == []
    ensures ForValue<E, T>(v).IfError(c).Otherwise(Consumer(k)) == [k(v)]
    ensures ForValue<E, T>(v).IfNotError(Consumer(k)).trace == [k(v)]
    ensures ForValue<E, T>(v).IfNotError(Consumer(k)).Otherwise(Consumer(c)) == [k(v)]
    ensures ForValue<E, T>(v).IfErrorReturn(f).Otherwise(OneArgFunction(g)) == g(v)
    ensures ForValue<E, T>(v).IfNotErrorReturn(OneArgFunction(g)) == NoActionReturn(g(v))
    ensures ForValue<E, T>(v).IfNotErrorReturn(OneArgFunction(g)).Otherwise(OneArgFunction(f)) == g(v)
  {
  }

  /** `forVoid()`: no error callback ever runs; the command or supplier runs
      once with no argument. */
  lemma ForVoidChains<E(!new), T(!new), Ev(!new), R(!new)>(c: E -> Ev, cmd: () -> Ev, f: E -> R, s: () -> R)
    ensures ForVoid<E, T>().IfError(c).trace == []
    ensures ForVoid<E, T>().IfError(c).Otherwise(Command(cmd)) == [cmd()]
    ensures ForVoid<E, T>().IfNotError(Command(cmd)).trace == [cmd()]
    ensures ForVoid<E, T>().IfNotError(Command(cmd)).Otherwise(Consumer(c)) == [cmd()]
    ensures ForVoid<E, T>().IfErrorReturn(f).Otherwise(Supplier(s)) == s()
    ensures ForVoid<E, T>().IfNotErrorReturn(Supplier(s)) == NoActionReturn(s())
    ensures ForVoid<E, T>().IfNotErrorReturn(Supplier(s)).Otherwise(OneArgFunction(f)) == s()
  {
  }

  /** The documented example: `forVoid().ifErrorReturn(e -> 0).otherwise(() -> 1)` is 1. */
  lemma ForVoidDocExample<E(!new), T(!new)>()
    ensures ForVoid<E, T>().IfErrorReturn(_ => 0).Otherwise(Supplier(() => 1)) == 1
  {
  }

  /** `forValueError(e)`: the error callback runs once with exactly e; no
      value callback ever runs; `ifErrorReturn` applies its function eagerly. */
  lemma ForValueErrorChains<E(!new), T(!new), Ev(!new), R(!new)>(e: E, c: E -> Ev, k: T -> Ev, f: E -> R, g: T -> R)
    ensures ForValueError<E, T>(e).IfError(c).trace == [c(e)]
    ensures ForValueError<E, T>(e).IfError(c).Otherwise(Consumer(k)) == [c(e)]
    ensures ForValueError<E, T>(e).IfNotError(Consumer(k)).trace == []
    ensures ForValueError<E, T>(e).IfNotError(Consumer(k)).Otherwise(Consumer(c)) == [c(e)]
    ensures ForValueError<E, T>(e).IfErrorReturn(f) == NoActionReturn(f(e))
    ensures ForValueError<E, T>(e).IfErrorReturn(f).Otherwise(OneArgFunction(g)) == f(e)
    ensures ForValueError<E, T>(e).IfNotErrorReturn(OneArgFunction(g)).Otherwise(OneArgFunction(f)) == f(e)
  {
  }

  /** `forVoidError(e)`: the error callback runs once with exactly e; no
      command or supplier ever runs. */
  lemma ForVoidErrorChains<E(!new), T(!new), Ev(!new), R(!new)>(e: E, c: E -> Ev, cmd: () -> Ev, f: E -> R, s: () -> R)
    ensures ForVoidError<E, T>(e).IfError(c).trace == [c(e)]
    ensures ForVoidError<E, T>(e).IfError(c).Otherwise(Command(cmd)) == [c(e)]
    ensures ForVoidError<E, T>(e).IfNotError(Command(cmd)).trace == []
    ensures ForVoidError<E, T>(e).IfNotError(Command(cmd)).Otherwise(Consumer(c)) == [c(e)]
    ensures ForVoidError<E, T>(e).IfErrorReturn(f) == NoActionReturn(f(e))
    ensures ForVoidError<E, T>(e).IfErrorReturn(f).Otherwise(Supplier(s)) == f(e)
    ensures ForVoidError<E, T>(e).IfNotErrorReturn(Supplier(s)).Otherwise(OneArgFunction(f)) == f(e)
  {
  }

  /** The expectations of the value-family test: a consumer sets a holder to
      10 on the error side or 2 on the value side, and the holder ends with the
      last value set; `forValue(5)` ends at 2 and `forValueError(e)` at 10, in
      every chain form. */
  lemma ValueFamilyTestExpectations<E(!new)>(e: E)
    ensures ForValue<E, int>(5).IfError(_ => 10).Otherwise(Consumer(_ => 2)) == [2]
    ensures ForValue<E, int>(5).IfNotError(Consumer(_ => 2)).Otherwise(Consumer(_ => 10)) == [2]
    ensures ForValue<E, int>(5).IfErrorReturn(_ => 10).Otherwise(OneArgFunction(_ => 2)) == 2
    ensures ForValue<E, int>(5).IfNotErrorReturn(OneArgFunction(_ => 2)).Otherwise(OneArgFunction(_ => 10)) == 2
    ensures ForValueError<E, int>(e).IfError(_ => 10).Otherwise(Consumer(_ => 2)) == [10]
    ensures ForValueError<E, int>(e).IfNotError(Consumer(_ => 2)).Otherwise(Consumer(_ => 10)) == [10]
    ensures ForValueError<E, int>(e).IfErrorReturn(_ => 10).Otherwise(OneArgFunction(_ => 2)) == 10
    ensures ForValueError<E, int>(e).IfNotErrorReturn(OneArgFunction(_ => 2)).Otherwise(OneArgFunction(_ => 10)) == 10
  {
  }

  // ---------------------------------------------------------------------------
  // otherwiseReturnNull

  /** As written, `otherwiseReturnNull` after a handler whose own side matched
      discards the value that handler computed. */
  lemma OtherwiseReturnNullDiscardsHandledResult<E(!new), T(!new), R(!new)>(r: Result<E, T>, f: E -> R, g: Func<T, R>)
    requires r.AcceptsFunc(g)
    ensures r.Err? ==> r.IfErrorReturn(f).OtherwiseReturnNull() == Null && r.IfErrorReturn(f).Otherwise(g) == f(r.error)
    ensures !r.Err? ==> r.IfNotErrorReturn(g).OtherwiseReturnNull() == Null && r.IfNotErrorReturn(g).Otherwise(OneArgFunction(f)) == r.Collapse(f, g)
  {
  }

  /** As intended, `otherwiseReturnNull` completes a chain whose handler side
      matched with that side's value, and yields null only where the other
      side would have had to run. */
  lemma OtherwiseOrNullKeepsHandledResult<E(!new), T(!new), R(!new)>(r: Result<E, T>, f: E -> R, g: Func<T, R>)
    requires r.AcceptsFunc(g)
    ensures r.IfErrorReturn(f).OtherwiseOrNull() == if r.Err? then NonNull(r.Collapse(f, g)) else Null
    ensures r.IfNotErrorReturn(g).OtherwiseOrNull() == if r.Err? then Null else NonNull(r.Collapse(f, g))
  {
  }
}
