/** `parallel` (lib/flow.js:27-51) and `map` (lib/flow.js:53-77). Both invoke
    every task at once and then count completions in the same `next` closure:
    `resArray` collects success data in the order completions arrive, and the
    `hasError` latch lets only the first error through. The event loop is
    replaced by a completion trace: the calls the tasks make to `next`, in
    the order they happen. */
module Concurrent {
  import opened JsValues

  /** The per-call bookkeeping of `parallel` and `map`: `resArray`,
      `hasError`, and the log of calls made to the user's callback. */
  datatype State = State(results: seq<Js>, hasError: bool, delivered: seq<Call>)

  /** The state right after `resArray = []` and `hasError = false`. */
  const Start: State := State([], false, [])

  /** The state of a call on an empty list: `callback(null, null)` has been
      made and no `next` exists. */
  const Empty: State := State([], false, [SuccessCall(Null)])

  /** One call of `parallel` or `map`: what the tasks (or the mapper) were
      invoked with, in invocation order, and the state the completions
      leave behind. */
  datatype ConcurrentRun<I> = ConcurrentRun(invoked: seq<I>, final: State)

  /** The `next(error, data)` closure when the call expects `n` results. */
  function Step(n: nat, st: State, c: Call): (st': State)
    ensures st.hasError ==> st' == st
    ensures st.hasError ==> st'.hasError
    ensures st.results <= st'.results && st.delivered <= st'.delivered
    ensures |st'.delivered| <= |st.delivered| + 1
    ensures |st'.delivered| == |st.delivered| + 1 ==>
              if st'.hasError then !st.hasError && st'.delivered[|st.delivered|] == ErrorCall(c.error)
              else |st'.results| == n && st'.delivered[|st.delivered|] == SuccessCall(Arr(st'.results))
  {
    if st.hasError then
      st
    else if Truthy(c.error) then
      State(st.results, true, st.delivered + [ErrorCall(c.error)])
    else
      var results := st.results + [c.data];
      State(results, false, if |results| == n then st.delivered + [SuccessCall(Arr(results))] else st.delivered)
  }

  /** The state after `next` has been called with each completion of
      `trace`, in order, starting from `st`. */
  function Fold(n: nat, st: State, trace: seq<Call>): (st': State)
    ensures st.hasError ==> st' == st
    ensures st.results <= st'.results && st.delivered <= st'.delivered
    decreases |trace|
  {
    if |trace| == 0 then st
    else Step(n, Fold(n, st, trace[..|trace| - 1]), trace[|trace| - 1])
  }

  /** The success data of a trace, in completion order. */
  function DataOf(trace: seq<Call>): (r: seq<Js>)
    ensures |r| == |trace|
  {
    seq(|trace|, k requires 0 <= k < |trace| => trace[k].data)
  }

  predicate AllSucceed(trace: seq<Call>) {
    forall k :: 0 <= k < |trace| ==> Succeeds(trace[k])
  }

  /** Completion i is the earliest one in the trace carrying a truthy error. */
  predicate FirstErrorAt(trace: seq<Call>, i: int) {
    0 <= i < |trace| && !Succeeds(trace[i]) && AllSucceed(trace[..i])
  }

  /** A trace either succeeds throughout or has an earliest error. */
  lemma {:induction false} FirstErrorExists(trace: seq<Call>)
    ensures AllSucceed(trace) || exists i :: FirstErrorAt(trace, i)
    decreases |trace|
  {
    if AllSucceed(trace) {
      return;
    }
    var p := trace[..|trace| - 1];
    if AllSucceed(p) {
      assert trace[..|trace| - 1] == p;
      assert FirstErrorAt(trace, |trace| - 1);
    } else {
      FirstErrorExists(p);
      var i :| FirstErrorAt(p, i);
      assert trace[..i] == p[..i];
      assert FirstErrorAt(trace, i);
    }
  }

  /** Folding a trace in two pieces is folding it whole. */
  lemma {:induction false} FoldAppend(n: nat, st: State, a: seq<Call>, b: seq<Call>)
    ensures Fold(n, st, a + b) == Fold(n, Fold(n, st, a), b)
    decreases |b|
  {
    if |b| > 0 {
      var ab := a + b;
      assert ab[..|ab| - 1] == a + b[..|b| - 1];
      assert ab[|ab| - 1] == b[|b| - 1];
      FoldAppend(n, st, a, b[..|b| - 1]);
    } else {
      assert a + b == a;
    }
  }

  /** The state after up to `n` completions of a call expecting `n`: with no
      error so far it holds every data value in completion order and has
      delivered success exactly when the n-th one arrived; otherwise it has
      delivered the earliest error, once, and kept the data that came
      before it. */
  lemma {:induction false} Settle(n: nat, trace: seq<Call>)
    requires 0 < n && |trace| <= n
    ensures AllSucceed(trace) ==>
              Fold(n, Start, trace)
              == State(DataOf(trace), false, if |trace| == n then [SuccessCall(Arr(DataOf(trace)))] else [])
    ensures forall i :: FirstErrorAt(trace, i) ==>
              Fold(n, Start, trace) == State(DataOf(trace[..i]), true, [ErrorCall(trace[i].error)])
    decreases |trace|
  {
    if |trace| > 0 {
      var p := trace[..|trace| - 1];
      var c := trace[|trace| - 1];
      Settle(n, p);
      assert Fold(n, Start, trace) == Step(n, Fold(n, Start, p), c);
      if AllSucceed(trace) {
        assert AllSucceed(p);
        assert DataOf(p) + [c.data] == DataOf(trace);
      }
      forall i | FirstErrorAt(trace, i)
        ensures Fold(n, Start, trace) == State(DataOf(trace[..i]), true, [ErrorCall(trace[i].error)])
      {
        if i < |p| {
          assert p[..i] == trace[..i];
          assert FirstErrorAt(p, i);
        } else {
          assert trace[..i] == p;
        }
      }
    }
  }

  /** Once an error has been delivered, no completion of any kind, however
      many arrive, changes the state or delivers anything again. */
  lemma ErrorLatches(n: nat, trace: seq<Call>, later: seq<Call>)
    requires Fold(n, Start, trace).hasError
    ensures Fold(n, Start, trace + later) == Fold(n, Start, trace)
  {
    FoldAppend(n, Start, trace, later);
  }

  /** Within `n` completions the user's callback is called at most once, and
      success is delivered exactly when `n` completions without error have
      arrived. */
  lemma AtMostOnce(n: nat, trace: seq<Call>)
    requires 0 < n && |trace| <= n
    ensures |Fold(n, Start, trace).delivered| <= 1
    ensures (exists k :: 0 <= k < |Fold(n, Start, trace).delivered| && Succeeds(Fold(n, Start, trace).delivered[k]))
            <==> AllSucceed(trace) && |trace| == n
  {
    Settle(n, trace);
    FirstErrorExists(trace);
  }

  /** A completion order for n tasks: each index below n completes exactly
      once (n entries, all below n, none missing). */
  predicate IsSchedule(order: seq<nat>, n: nat) {
    && |order| == n
    && (forall k :: 0 <= k < n ==> order[k] < n)
    && (forall i :: 0 <= i < n ==> i in order)
  }

  /** The calls the tasks make to `next`, in the order `order` says they complete. */
  function Completions(outcomes: seq<Call>, order: seq<nat>): (trace: seq<Call>)
    requires forall k :: 0 <= k < |order| ==> order[k] < |outcomes|
    ensures |trace| == |order|
  {
    seq(|order|, k requires 0 <= k < |order| => outcomes[order[k]])
  }

  /** `parallel(funcArray, callback)`. Task i calls back with `tasks[i]`;
      `order` is the order in which the tasks complete. Every task is
      invoked once, in input order, and the user's callback is called
      exactly once: with `(null, null)` for an empty list, with the error of
      the earliest failing completion if there is one, and otherwise with
      every task's data, listed in completion order. */
  function Parallel(tasks: seq<Call>, order: seq<nat>): (run: ConcurrentRun<nat>)
    requires IsSchedule(order, |tasks|)
    ensures |run.invoked| == |tasks| && forall i :: 0 <= i < |tasks| ==> run.invoked[i] == i
    ensures |run.final.delivered| == 1
    ensures |tasks| == 0 ==> run.final.delivered[0] == Call(Null, Null)
    ensures Succeeds(run.final.delivered[0]) <==> AllSucceed(Completions(tasks, order))
    ensures forall i :: FirstErrorAt(Completions(tasks, order), i) ==>
              run.final.delivered[0] == ErrorCall(tasks[order[i]].error)
    ensures |tasks| > 0 && AllSucceed(Completions(tasks, order)) ==>
              var d := run.final.delivered[0];
              && d.error == Null && d.data.Arr? && |d.data.items| == |tasks|
              && forall k :: 0 <= k < |tasks| ==> d.data.items[k] == tasks[order[k]].data
  {
    if |tasks| == 0 then
      ConcurrentRun([], Empty)
    else
      var trace := Completions(tasks, order);
      Settle(|tasks|, trace);
      FirstErrorExists(trace);
      ConcurrentRun(seq(|tasks|, i => i), Fold(|tasks|, Start, trace))
  }

  /** What task i of `map` calls back with: `mapper(values[i])`. */
  function Mapped(values: seq<Js>, mapper: Js -> Call): (outcomes: seq<Call>)
    ensures |outcomes| == |values|
  {
    seq(|values|, i requires 0 <= i < |values| => mapper(values[i]))
  }

  /** `map(valueArray, func, callback)`. The mapper calls back with
      `mapper(v)` for value v; `order` is the order in which the values'
      completions arrive. The bookkeeping is that of `parallel` over the
      mapped outcomes; the mapper is invoked once per value, in input order,
      and the user's callback exactly once: with `(null, null)` for an empty
      list, with the error of the earliest failing completion if there is
      one, and otherwise with every mapped value, in completion order. */
  function Map(values: seq<Js>, mapper: Js -> Call, order: seq<nat>): (run: ConcurrentRun<Js>)
    requires IsSchedule(order, |values|)
    ensures run.invoked == values
    ensures |run.final.delivered| == 1
    ensures |values| == 0 ==> run.final.delivered[0] == Call(Null, Null)
    ensures Succeeds(run.final.delivered[0]) <==> AllSucceed(Completions(Mapped(values, mapper), order))
    ensures forall i :: FirstErrorAt(Completions(Mapped(values, mapper), order), i) ==>
              run.final.delivered[0] == ErrorCall(mapper(values[order[i]]).error)
    ensures |values| > 0 && AllSucceed(Completions(Mapped(values, mapper), order)) ==>
              var d := run.final.delivered[0];
              && d.error == Null && d.data.Arr? && |d.data.items| == |values|
              && forall k :: 0 <= k < |values| ==> d.data.items[k] == mapper(values[order[k]]).data
  {
    ConcurrentRun(values, Parallel(Mapped(values, mapper), order).final)
  }
}
