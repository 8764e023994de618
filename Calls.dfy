/** Observable callback invocations.

    The library's only effect is to invoke a caller's callback. A trace is the
    sequence of the events those invocations record, in order. `Call` is the
    event type of a spy: it records which side of a chain ran and with which
    payload; `Count` is the spy's invocation counter. */
module Calls {
  import opened VoidElseExecutors

  datatype Call<E, T> =
    | ErrSide(e: E)   // the error-side consumer was invoked with e
    | ValSide(v: T)   // the value-side consumer was invoked with v
    | VoidSide        // the void-side command was run

  predicate IsErrSide<E, T>(c: Call<E, T>) { c.ErrSide? }

  predicate IsSuccessSide<E, T>(c: Call<E, T>) { !c.ErrSide? }

  /** Number of entries of the trace that satisfy p. */
  function Count<X>(trace: seq<X>, p: X -> bool): nat
  {
    if trace == [] then 0 else (if p(trace[0]) then 1 else 0) + Count(trace[1..], p)
  }

  /** A counter over two traces run one after the other is the sum of the
      counters over each. */
  lemma {:induction false} CountAppend<X>(a: seq<X>, b: seq<X>, p: X -> bool)
    ensures Count(a + b, p) == Count(a, p) + Count(b, p)
  {
    if a == [] {
      assert a + b == b;
    } else {
      assert (a + b)[0] == a[0];
      assert (a + b)[1..] == a[1..] + b;
      CountAppend(a[1..], b, p);
    }
  }

  /** The error-side spy: records that the error consumer ran, and with what. */
  function ErrSpy<E, T>(): E -> Call<E, T>
  {
    e => ErrSide(e)
  }

  /** The value-side spy, a `Consumer` recording each value it is given. */
  function ValueSpy<E, T>(): Action<T, Call<E, T>>
  {
    Consumer(v => ValSide(v))
  }

  /** The void-side spy, a `Command` recording that it was run. */
  function CommandSpy<E, T>(): Action<T, Call<E, T>>
  {
    Command(() => VoidSide)
  }
}
