/** The continuation returned by the side-effect handlers `ifError` and
    `ifNotError`. It holds at most one pending side; `Otherwise` completes the
    chain and returns the trace of the callback invocations it performs. */
module VoidElseExecutors {

  /** The callback a caller hands over for one side of a chain: a one-argument
      `Consumer<X>` or a no-argument `Command`. The arrow gives the event the
      callback records when the library invokes it. */
  datatype Action<!X, Ev> =
    | Consumer(accept: X -> Ev)
    | Command(run: () -> Ev)

  datatype VoidElseExecutor<X(!new)> =
    | NoActionVoid                 // the handler already ran its own side
    | ConsumerActionVoid(value: X) // pass the captured payload to a consumer
    | CommandActionVoid            // run a command with no argument
  {
    /** The executor still has a side to run. */
    predicate Pending() { !NoActionVoid? }

    /** The callback shapes the executor's generic parameter admits: a consumer
        executor takes a `Consumer`, a command executor a `Command`, and the
        inert executor takes either. */
    predicate Accepts<Ev>(k: Action<X, Ev>)
    {
      match this
      case NoActionVoid => true
      case ConsumerActionVoid(_) => k.Consumer?
      case CommandActionVoid => k.Command?
    }

    /** `otherwise(k)`: a pending executor invokes k exactly once, with the
        captured payload if it has one; the inert executor invokes nothing. */
    function Otherwise<Ev>(k: Action<X, Ev>): (trace: seq<Ev>)
      requires Accepts(k)
      ensures |trace| == (if Pending() then 1 else 0)
      ensures ConsumerActionVoid? ==> trace == [k.accept(value)]
      ensures CommandActionVoid? ==> trace == [k.run()]
    {
      match this
      case NoActionVoid => []
      case ConsumerActionVoid(x) => [k.accept(x)]
      case CommandActionVoid => [k.run()]
    }

    /** `otherwiseDoNothing()`, inherited unchanged by every executor kind:
        it invokes nothing, so against `otherwise(k)` the chain loses exactly
        the one invocation a pending executor would have made. */
    function OtherwiseDoNothing<Ev(!new)>(): (trace: seq<Ev>)
      ensures forall k: Action<X, Ev> :: Accepts(k) ==> trace <= Otherwise(k) && |Otherwise(k)| == |trace| + (if Pending() then 1 else 0)
    {
      []
    }
  }

  /** The inert executor invokes no callback, whatever it is given. */
  lemma NoActionIgnoresCallback<X(!new), Ev>(k1: Action<X, Ev>, k2: Action<X, Ev>)
    ensures NoActionVoid.Accepts(k1) && NoActionVoid.Accepts(k2)
    ensures NoActionVoid.Otherwise(k1) == NoActionVoid.Otherwise(k2) == []
  {
  }
}
