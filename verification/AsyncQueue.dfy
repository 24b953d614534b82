/** A queue where values and waiting handlers meet. */
module AsyncQueue {

  /** `calls` lists the handler invocations made so far, each with the value it was given. */
  datatype Queue<V, H> = Queue(handlers: seq<H>, values: seq<V>, calls: seq<(H, V)>)

  datatype Op<V, H> = Push(value: V) | AsyncPop(handler: H)

  function Apply<V, H>(q: Queue<V, H>, op: Op<V, H>): Queue<V, H> {
    match op
    case Push(v) =>
      if q.handlers == [] then q.(values := q.values + [v])
      else q.(handlers := q.handlers[1..], calls := q.calls + [(q.handlers[0], v)])
    case AsyncPop(h) =>
      if q.values == [] then q.(handlers := q.handlers + [h])
      else q.(values := q.values[1..], calls := q.calls + [(h, q.values[0])])
  }

  function After<V, H>(ops: seq<Op<V, H>>): Queue<V, H> {
    if ops == [] then Queue([], [], []) else Apply(After(ops[..|ops| - 1]), ops[|ops| - 1])
  }

  function Pushed<V, H>(ops: seq<Op<V, H>>): seq<V> {
    if ops == [] then []
    else Pushed(ops[..|ops| - 1]) + if ops[|ops| - 1].Push? then [ops[|ops| - 1].value] else []
  }

  function Popped<V, H>(ops: seq<Op<V, H>>): seq<H> {
    if ops == [] then []
    else Popped(ops[..|ops| - 1]) + if ops[|ops| - 1].AsyncPop? then [ops[|ops| - 1].handler] else []
  }

  /** `q` has paired the first values with the first handlers, in order, and holds what is left of
      the longer list. */
  ghost predicate Paired<V, H>(q: Queue<V, H>, values: seq<V>, handlers: seq<H>) {
    && |q.calls| == (if |values| <= |handlers| then |values| else |handlers|)
    && (forall i :: 0 <= i < |q.calls| ==> q.calls[i] == (handlers[i], values[i]))
    && q.values == values[|q.calls|..]
    && q.handlers == handlers[|q.calls|..]
  }

  lemma ApplyKeepsPaired<V, H>(q: Queue<V, H>, values: seq<V>, handlers: seq<H>, op: Op<V, H>)
    requires Paired(q, values, handlers)
    ensures match op
      case Push(v) => Paired(Apply(q, op), values + [v], handlers)
      case AsyncPop(h) => Paired(Apply(q, op), values, handlers + [h])
  {
  }

  /** In every run the i-th value pushed goes to the i-th handler, once, and the queue never holds
      values and waiting handlers together. */
  lemma {:induction false} RunPairsInOrder<V, H>(ops: seq<Op<V, H>>)
    ensures Paired(After(ops), Pushed(ops), Popped(ops))
    ensures After(ops).values == [] || After(ops).handlers == []
  {
    if ops != [] {
      var init, op := ops[..|ops| - 1], ops[|ops| - 1];
      RunPairsInOrder(init);
      ApplyKeepsPaired(After(init), Pushed(init), Popped(init), op);
    }
  }

  class AsyncQueue<V, H> {
    var handlers: seq<H>
    var values: seq<V>
    var calls: seq<(H, V)>

    ghost function View(): Queue<V, H>
      reads this
    {
      Queue(handlers, values, calls)
    }

    constructor ()
      ensures View() == Queue([], [], [])
    {
      handlers, values, calls := [], [], [];
    }

    method Push(value: V)
      modifies this
      ensures View() == Apply(old(View()), Op.Push(value))
    {
      if handlers == [] {
        values := values + [value];
        return;
      }
      var handler := handlers[0];
      handlers := handlers[1..];
      calls := calls + [(handler, value)];
    }

    method AsyncPop(handler: H)
      modifies this
      ensures View() == Apply(old(View()), Op.AsyncPop(handler))
    {
      if values == [] {
        handlers := handlers + [handler];
        return;
      }
      var value := values[0];
      values := values[1..];
      calls := calls + [(handler, value)];
    }
  }
}
