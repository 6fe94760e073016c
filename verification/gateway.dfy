/**
  An abstract model of the control layer's gateway: a stack of controllable
  surfaces with `push`, `pop`, `update` and a nestable `updateControls` batch.
  The control layer observes the stack only when it is committed: after a
  stack operation made outside any batch, or when the outermost batch closes.
  Every call is recorded in an event trace so that its exact shape can be
  stated. The library's own bodies are not part of this model.
*/
module ControlGateway {

  datatype Event<E> =
    | Pushed(entry: E)
    | Popped
    | Updated(entry: E)
    | Committed(stack: seq<E>)

  datatype Gateway<E> = Gateway(stack: seq<E>, depth: nat, trace: seq<Event<E>>)

  function Empty<E>(): (g: Gateway<E>)
    ensures g.stack == [] && g.depth == 0 && g.trace == []
  {
    Gateway([], 0, [])
  }

  /** What the control layer is shown when `g` changes outside a batch. */
  function CommitIfIdle<E>(g: Gateway<E>): Gateway<E>
  {
    if g.depth == 0 then g.(trace := g.trace + [Committed(g.stack)]) else g
  }

  function Push<E>(g: Gateway<E>, e: E): (r: Gateway<E>)
    ensures r.stack == g.stack + [e] && r.depth == g.depth
    ensures g.depth > 0 ==> r.trace == g.trace + [Pushed(e)]
    ensures g.depth == 0 ==> r.trace == g.trace + [Pushed(e), Committed(g.stack + [e])]
  {
    CommitIfIdle(g.(stack := g.stack + [e], trace := g.trace + [Pushed(e)]))
  }

  /** Popping an empty stack leaves it empty; the call is still recorded. */
  function Pop<E>(g: Gateway<E>): (r: Gateway<E>)
    ensures |g.stack| > 0 ==> r.stack == g.stack[..|g.stack| - 1]
    ensures |g.stack| == 0 ==> r.stack == []
    ensures r.depth == g.depth
    ensures g.depth > 0 ==> r.trace == g.trace + [Popped]
    ensures g.depth == 0 ==> r.trace == g.trace + [Popped, Committed(r.stack)]
  {
    var s := if |g.stack| > 0 then g.stack[..|g.stack| - 1] else [];
    CommitIfIdle(g.(stack := s, trace := g.trace + [Popped]))
  }

  /** Re-registration of the actions of a surface; the stack is untouched. */
  function Update<E>(g: Gateway<E>, e: E): (r: Gateway<E>)
    ensures r.stack == g.stack && r.depth == g.depth
    ensures r.trace == g.trace + [Updated(e)]
  {
    g.(trace := g.trace + [Updated(e)])
  }

  function BeginBatch<E>(g: Gateway<E>): (r: Gateway<E>)
    ensures r.stack == g.stack && r.trace == g.trace && r.depth == g.depth + 1
  {
    g.(depth := g.depth + 1)
  }

  /** Closing the outermost batch commits the stack as one transaction. */
  function EndBatch<E>(g: Gateway<E>): (r: Gateway<E>)
    requires g.depth > 0
    ensures r.stack == g.stack && r.depth == g.depth - 1
    ensures g.depth > 1 ==> r.trace == g.trace
    ensures g.depth == 1 ==> r.trace == g.trace + [Committed(g.stack)]
  {
    CommitIfIdle(g.(depth := g.depth - 1))
  }

  /** The stacks the control layer has been shown, in order. */
  function Commits<E>(trace: seq<Event<E>>): (r: seq<seq<E>>)
    ensures |r| <= |trace|
  {
    if trace == [] then []
    else
      var rest := Commits(trace[1..]);
      if trace[0].Committed? then [trace[0].stack] + rest else rest
  }

  lemma {:induction false} CommitsAppend<E>(a: seq<Event<E>>, b: seq<Event<E>>)
    ensures Commits(a + b) == Commits(a) + Commits(b)
  {
    if a == [] {
      assert a + b == b;
    } else {
      assert (a + b)[1..] == a[1..] + b;
      CommitsAppend(a[1..], b);
    }
  }
}
