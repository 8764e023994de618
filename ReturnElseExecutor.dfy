/** The continuation returned by the value-returning handlers `ifErrorReturn`
    and `ifNotErrorReturn`. It either already holds the chain's result or
    computes it from the function `Otherwise` is given. */
module ReturnElseExecutors {

  /** The function a caller hands over for one side of a returning chain: a
      one-argument `OneArgFunction<X, R>` or a no-argument `Supplier<R>`. */
  datatype Func<!X, R> =
    | OneArgFunction(apply: X -> R)
    | Supplier(get: () -> R)

  /** A Java reference of type R that may be null. */
  datatype Nullable<R> = Null | NonNull(value: R)

  datatype ReturnElseExecutor<X(!new), R(!new)> =
    | NoActionReturn(retValue: R)    // the handler already computed the result
    | SupplierActionReturn           // the result is the supplier's value
    | FunctionActionReturn(value: X) // the result is the function applied to value
  {
    /** The executor already holds the chain's result. */
    predicate Resolved() { NoActionReturn? }

    /** The function shapes the executor's generic parameter admits. */
    predicate Accepts(f: Func<X, R>)
    {
      match this
      case NoActionReturn(_) => true
      case SupplierActionReturn => f.Supplier?
      case FunctionActionReturn(_) => f.OneArgFunction?
    }

    /** `otherwise(f)`: a resolved executor returns its stored result and does
        not use f; a pending one returns f's value on the captured payload. */
    function Otherwise(f: Func<X, R>): (r: R)
      requires Accepts(f)
      ensures Resolved() ==> r == retValue
      ensures FunctionActionReturn? ==> r == f.apply(value)
      ensures SupplierActionReturn? ==> r == f.get()
    {
      match this
      case NoActionReturn(x) => x
      case SupplierActionReturn => f.get()
      case FunctionActionReturn(v) => f.apply(v)
    }

    /** `otherwiseReturnNull()` as written: declared once in the base class and
        overridden by no executor kind, so it is null even for an executor
        that already holds the chain's result. */
    function OtherwiseReturnNull(): (r: Nullable<R>)
      ensures r.Null?
      ensures r == OtherwiseOrNull() <==> !Resolved()
    {
      Null
    }

    /** `otherwiseReturnNull()` as evidently intended: the stored result when
        the handler's own side already produced it, null when the other side
        would have to run. */
    function OtherwiseOrNull(): (r: Nullable<R>)
      ensures r.NonNull? <==> Resolved()
      ensures r.NonNull? ==> forall f :: Accepts(f) ==> r.value == Otherwise(f)
    {
      if NoActionReturn? then NonNull(retValue) else Null
    }
  }

  /** The resolved executor's result does not depend on the function it is
      given. */
  lemma NoActionIgnoresFunction<X(!new), R(!new)>(x: R, f1: Func<X, R>, f2: Func<X, R>)
    ensures NoActionReturn(x).Accepts(f1) && NoActionReturn(x).Accepts(f2)
    ensures NoActionReturn(x).Otherwise(f1) == NoActionReturn(x).Otherwise(f2) == x
  {
  }

  /** As written, `otherwiseReturnNull` discards a result the executor already
      holds. */
  lemma OtherwiseReturnNullDropsResult<X(!new), R(!new)>(x: R)
    ensures ReturnElseExecutor<X, R>.NoActionReturn(x).OtherwiseReturnNull() == Null
    ensures ReturnElseExecutor<X, R>.NoActionReturn(x).OtherwiseOrNull() == NonNull(x)
  {
  }
}
