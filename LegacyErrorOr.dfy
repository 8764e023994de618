/** The older result surface of package com.cred.utils: a three-way tagged
    union with a tag query and two accessors that fail, rather than return a
    default, on the wrong variant. A failing accessor yields `Thrown` with the
    source's `IllegalStateException` message. */
module LegacyErrorOr {

  datatype IllegalStateException = IllegalStateException(message: string)

  /** What an accessor call does: return a value or throw. */
  datatype Outcome<X> = Returned(value: X) | Thrown(exception: IllegalStateException)

  const ValueOfErrorMessage := "Tried to access the value of an error object. Have you called isError() first?"
  const ValueOfVoidMessage := "Tried to access the value of a void object."
  /** The void variant reuses the value variant's message. */
  const ErrorOfValueMessage := "Tried to access the error of a value object. Have you called isError() first?"

  datatype ErrorOr<E, T> =
    | ErrorImpl(error: E)
    | ValueImpl(value: T)
    | VoidImpl
  {
    /** `isError()`. */
    predicate IsError()
    {
      match this
      case ErrorImpl(_) => true
      case ValueImpl(_) => false
      case VoidImpl => false
    }

    /** `getValueOrFail()`: throws on an error object, as documented, and on
        a void object too. */
    function GetValueOrFail(): (r: Outcome<T>)
      ensures r.Returned? ==> !IsError()
      ensures IsError() ==> r == Thrown(IllegalStateException(ValueOfErrorMessage))
    {
      match this
      case ErrorImpl(_) => Thrown(IllegalStateException(ValueOfErrorMessage))
      case ValueImpl(v) => Returned(v)
      case VoidImpl => Thrown(IllegalStateException(ValueOfVoidMessage))
    }

    /** `getErrorOrFail()`: returns exactly when this is an error object. */
    function GetErrorOrFail(): (r: Outcome<E>)
      ensures r.Returned? <==> IsError()
    {
      match this
      case ErrorImpl(e) => Returned(e)
      case ValueImpl(_) => Thrown(IllegalStateException(ErrorOfValueMessage))
      case VoidImpl => Thrown(IllegalStateException(ErrorOfValueMessage))
    }
  }

  /** `ErrorOr.forError(e)`: an error object from which `getErrorOrFail()`
      returns exactly e. */
  function ForError<E, T>(e: E): (o: ErrorOr<E, T>)
    ensures o.GetErrorOrFail() == Returned(e)
  {
    ErrorImpl(e)
  }

  /** `ErrorOr.forValue(v)`: a value object from which `getValueOrFail()`
      returns exactly v. */
  function ForValue<E, T>(v: T): (o: ErrorOr<E, T>)
    ensures o.GetValueOrFail() == Returned(v)
  {
    ValueImpl(v)
  }

  /** `ErrorOr.forVoid()`: an object from which neither accessor returns. */
  function ForVoid<E, T>(): (o: ErrorOr<E, T>)
    ensures o.GetValueOrFail() == Thrown(IllegalStateException(ValueOfVoidMessage))
    ensures o.GetErrorOrFail() == Thrown(IllegalStateException(ErrorOfValueMessage))
  {
    VoidImpl
  }

  /** `isError()` is true exactly for objects built by `forError`, and false
      for those built by `forValue` and `forVoid`. */
  lemma IsErrorExactlyForErrors<E, T>(o: ErrorOr<E, T>)
    ensures o.IsError() <==> exists e :: o == ForError(e)
    ensures ((exists v :: o == ForValue(v)) || o == ForVoid()) ==> !o.IsError()
  {
    if o.IsError() {
      assert o == ForError(o.error);
    }
  }

  /** `getValueOrFail()` throws, rather than returning a default, on an error
      object and on a void object. */
  lemma GetValueFailsOnErrorAndVoid<E, T>(e: E)
    ensures ForError<E, T>(e).GetValueOrFail() == Thrown(IllegalStateException(ValueOfErrorMessage))
    ensures ForVoid<E, T>().GetValueOrFail() == Thrown(IllegalStateException(ValueOfVoidMessage))
  {
  }

  /** `getErrorOrFail()` throws on a value object and on a void object. */
  lemma GetErrorFailsOnValueAndVoid<E, T>(v: T)
    ensures ForValue<E, T>(v).GetErrorOrFail() == Thrown(IllegalStateException(ErrorOfValueMessage))
    ensures ForVoid<E, T>().GetErrorOrFail() == Thrown(IllegalStateException(ErrorOfValueMessage))
  {
  }

  /** The accessors' success follows the tag: `getErrorOrFail()` succeeds iff
      `isError()`, `getValueOrFail()` iff not an error and not void. */
  lemma AccessorsFollowIsError<E, T>(o: ErrorOr<E, T>)
    ensures o.GetErrorOrFail().Returned? <==> o.IsError()
    ensures o.GetValueOrFail().Returned? <==> !o.IsError() && !o.VoidImpl?
  {
  }

  /** The tag query and the two accessors together determine the object: no
      two distinct objects answer them alike. */
  lemma AccessorsDetermineObject<E, T>(o1: ErrorOr<E, T>, o2: ErrorOr<E, T>)
    requires o1.IsError() == o2.IsError()
    requires o1.GetValueOrFail() == o2.GetValueOrFail()
    requires o1.GetErrorOrFail() == o2.GetErrorOrFail()
    ensures o1 == o2
  {
  }
}
