/** `forEach`: call the callback with `(i, array[i])` for every index in
    ascending order. The callback's effect is modelled as a state it returns
    from each call, threaded into the next one. */
module Iteration {

  /** The state after the callback has run on the first `n` items, in order. */
  function Visit<S, T>(items: seq<T>, n: nat, init: S, callback: (S, nat, T) -> S): (state: S)
    requires n <= |items|
  {
    if n == 0 then init
    else callback(Visit(items, n - 1, init, callback), n - 1, items[n - 1])
  }

  /** `forEach`: the loop `for (i = 0; i < array.length; i++) callback(i, array[i])`. */
  method ForEach<S, T>(items: seq<T>, init: S, callback: (S, nat, T) -> S) returns (state: S)
    ensures state == Visit(items, |items|, init, callback)
  {
    state := init;
    var i := 0;
    while i < |items|
      invariant 0 <= i <= |items|
      invariant state == Visit(items, i, init, callback)
    {
      state := callback(state, i, items[i]);
      i := i + 1;
    }
  }

  /** A callback that only records the arguments it receives. */
  function Record<T>(calls: seq<(nat, T)>, i: nat, x: T): (calls': seq<(nat, T)>)
  {
    calls + [(i, x)]
  }

  /** The callback runs exactly once per index `0 .. n-1`, in ascending order,
      and receives `(i, items[i])` on its `i`-th call. */
  lemma {:induction false} VisitsEachIndexOnceInOrder<T>(items: seq<T>, n: nat)
    requires n <= |items|
    ensures |Visit(items, n, [], Record)| == n
    ensures forall k :: 0 <= k < n ==> Visit(items, n, [], Record)[k] == (k, items[k])
  {
    if n > 0 {
      VisitsEachIndexOnceInOrder(items, n - 1);
    }
  }
}
