/** The result type of io.github.xp500.errors and its two-step handler chains.

    The source's four variant classes (`ValueImpl`, `VoidImpl`,
    `ValueErrorImpl`, `VoidErrorImpl`) and their shared bases (`ErrorImpl` for
    the error side, `NotError` for the success side) collapse into one
    datatype; the virtual dispatch becomes a match on the tag. */
module Errors {
  import opened Calls
  import opened VoidElseExecutors
  import opened ReturnElseExecutors

  /** What a side-effect handler produces: the callback invocations it made
      straight away and the executor that completes the chain. */
  datatype Handled<X(!new), Ev> = Handled(trace: seq<Ev>, next: VoidElseExecutor<X>)
  {
    /** `.otherwise(k)` on the returned executor: the trace of the whole chain. */
    function Otherwise(k: Action<X, Ev>): (chain: seq<Ev>)
      requires next.Accepts(k)
      ensures trace <= chain
      ensures |chain| == |trace| + (if next.Pending() then 1 else 0)
    {
      trace + next.Otherwise(k)
    }
  }

  datatype Result<E(!new), T(!new)> =
    | Err(error: E)   // ValueErrorImpl or VoidErrorImpl
    | Val(value: T)   // ValueImpl
    | Void            // VoidImpl
  {
    /** The success callback shapes the variant's generic parameter admits:
        a value success takes a `Consumer<T>`, a void success a `Command`; an
        error belongs to either family and never invokes it. */
    predicate Accepts<Ev>(a: Action<T, Ev>)
    {
      match this
      case Err(_) => true
      case Val(_) => a.Consumer?
      case Void => a.Command?
    }

    /** The same for the returning family: `OneArgFunction<T, R>` for a value
        success, `Supplier<R>` for a void success. */
    predicate AcceptsFunc<R>(g: Func<T, R>)
    {
      match this
      case Err(_) => true
      case Val(_) => g.OneArgFunction?
      case Void => g.Supplier?
    }

    /** Reference case analysis for side-effect chains: the single callback
        invocation a chain must perform, chosen by the tag, with the payload. */
    function Dispatch<Ev>(onError: E -> Ev, onSuccess: Action<T, Ev>): Ev
      requires Accepts(onSuccess)
    {
      match this
      case Err(e) => onError(e)
      case Val(v) => onSuccess.accept(v)
      case Void => onSuccess.run()
    }

    /** Reference case analysis for returning chains: the one function value
        a chain must produce. */
    function Collapse<R>(onError: E -> R, onSuccess: Func<T, R>): R
      requires AcceptsFunc(onSuccess)
    {
      match this
      case Err(e) => onError(e)
      case Val(v) => onSuccess.apply(v)
      case Void => onSuccess.get()
    }

    /** `ifError(c)`: an error invokes c at once and returns the inert
        executor; a success invokes nothing and leaves its own side pending,
        so that the chain, completed with any admissible success callback,
        performs exactly the one invocation `Dispatch` prescribes. */
    function IfError<Ev(!new)>(c: E -> Ev): (h: Handled<T, Ev>)
      ensures |h.trace| == (if Err? then 1 else 0)
      ensures forall a :: Accepts(a) ==> h.next.Accepts(a) && h.Otherwise(a) == [Dispatch(c, a)]
    {
      match this
      case Err(e) => Handled([c(e)], NoActionVoid)
      case Val(v) => Handled([], ConsumerActionVoid(v))
      case Void => Handled([], CommandActionVoid)
    }

    /** `doAction(a)` of a success variant: the one invocation of its success
        callback, the one `Dispatch` prescribes whatever the error callback. */
    function DoAction<Ev(!new)>(a: Action<T, Ev>): (ev: Ev)
      requires !Err? && Accepts(a)
      ensures forall c :: ev == Dispatch(c, a)
    {
      if Val? then a.accept(value) else a.run()
    }

    /** `ifNotError(a)`: a success runs `doAction(a)` at once and returns the
        inert executor; an error invokes nothing and returns an executor that
        passes the error to the consumer it is completed with. */
    function IfNotError<Ev(!new)>(a: Action<T, Ev>): (h: Handled<E, Ev>)
      requires Accepts(a)
      ensures |h.trace| == (if Err? then 0 else 1)
      ensures forall d :: h.next.Accepts(Consumer(d)) && h.Otherwise(Consumer(d)) == [Dispatch(d, a)]
    {
      if Err? then Handled([], ConsumerActionVoid(error))
      else Handled([DoAction(a)], NoActionVoid)
    }

    /** `ifErrorReturn(f)`: an error applies f at once and returns an executor
        holding the result; a success returns a pending executor. Completed
        with any admissible success function g, the chain yields `Collapse(f, g)`. */
    function IfErrorReturn<R(!new)>(f: E -> R): (ex: ReturnElseExecutor<T, R>)
      ensures ex.Resolved() <==> Err?
      ensures forall g :: AcceptsFunc(g) ==> ex.Accepts(g) && ex.Otherwise(g) == Collapse(f, g)
    {
      match this
      case Err(e) => NoActionReturn(f(e))
      case Val(v) => FunctionActionReturn(v)
      case Void => SupplierActionReturn
    }

    /** `ifNotErrorReturn(g)`: a success applies g at once and returns an
        executor holding the result; an error returns an executor that applies
        the error function it is completed with to the error. */
    function IfNotErrorReturn<R(!new)>(g: Func<T, R>): (ex: ReturnElseExecutor<E, R>)
      requires AcceptsFunc(g)
      ensures ex.Resolved() <==> !Err?
      ensures forall f :: ex.Accepts(OneArgFunction(f)) && ex.Otherwise(OneArgFunction(f)) == Collapse(f, g)
    {
      match this
      case Err(e) => FunctionActionReturn(e)
      case Val(v) => NoActionReturn(g.apply(v))
      case Void => NoActionReturn(g.get())
    }
  }

  /** `Errors.forValue(v)`: a value object, whose chains run the value side
      with exactly v. */
  function ForValue<E(!new), T(!new)>(v: T): (r: Result<E, T>)
    ensures r.Accepts(ValueSpy<E, T>()) && r.Dispatch(ErrSpy<E, T>(), ValueSpy<E, T>()) == ValSide(v)
  {
    Val(v)
  }

  /** `Errors.forVoid()`: a void object, whose chains run the command. */
  function ForVoid<E(!new), T(!new)>(): (r: Result<E, T>)
    ensures r.Accepts(CommandSpy<E, T>()) && r.Dispatch(ErrSpy<E, T>(), CommandSpy<E, T>()) == Call<E, T>.VoidSide
  {
    Void
  }

  /** `Errors.forValueError(e)`: an error of the value family, whose chains
      run the error side with exactly e. */
  function ForValueError<E(!new), T(!new)>(e: E): (r: Result<E, T>)
    ensures r.Accepts(ValueSpy<E, T>()) && r.Dispatch(ErrSpy<E, T>(), ValueSpy<E, T>()) == ErrSide(e)
  {
    Err(e)
  }

  /** `Errors.forVoidError(e)`: an error of the void family, whose chains run
      the error side with exactly e. */
  function ForVoidError<E(!new), T(!new)>(e: E): (r: Result<E, T>)
    ensures r.Accepts(CommandSpy<E, T>()) && r.Dispatch(ErrSpy<E, T>(), CommandSpy<E, T>()) == ErrSide(e)
  {
    Err(e)
  }
}
