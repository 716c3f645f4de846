/** Index-addressed result collection for `parallel`, the behaviour its own
    test at tests/flow-test.js:109-129 expects: a task's data is written into
    the slot of the task's position, so the result list follows input order
    whatever order the completions arrive in. lib/flow.js:39 appends in
    completion order instead; `CompletionOrderCounterexample` exhibits the
    difference. */
module IndexedParallel {
  import opened JsValues
  import opened Concurrent

  /** Bookkeeping with one slot per task, a count of filled slots, the
      `hasError` latch and the log of calls made to the user's callback. */
  datatype Slots = Slots(values: seq<Js>, filled: nat, hasError: bool, delivered: seq<Call>)

  /** `next` for the completion of task i, storing its data at index i. */
  function IndexedStep(n: nat, st: Slots, i: nat, c: Call): (st': Slots)
    requires i < |st.values|
    ensures |st'.values| == |st.values|
    ensures st.hasError ==> st' == st
    ensures st.delivered <= st'.delivered && |st'.delivered| <= |st.delivered| + 1
  {
    if st.hasError then
      st
    else if Truthy(c.error) then
      Slots(st.values, st.filled, true, st.delivered + [ErrorCall(c.error)])
    else
      var values := st.values[i := c.data];
      var filled := st.filled + 1;
      Slots(values, filled, false, if filled == n then st.delivered + [SuccessCall(Arr(values))] else st.delivered)
  }

  /** The state after the first k completions of `order`, task i calling
      back with `tasks[i]`. */
  function IndexedRun(tasks: seq<Call>, order: seq<nat>, k: nat): (st: Slots)
    requires k <= |order|
    requires forall j :: 0 <= j < |order| ==> order[j] < |tasks|
    ensures |st.values| == |tasks|
  {
    if k == 0 then Slots(seq(|tasks|, _ => Undefined), 0, false, [])
    else IndexedStep(|tasks|, IndexedRun(tasks, order, k - 1), order[k - 1], tasks[order[k - 1]])
  }

  /** `parallel` with index-addressed results. */
  function ParallelIndexed(tasks: seq<Call>, order: seq<nat>): (st: Slots)
    requires IsSchedule(order, |tasks|)
    ensures |tasks| == 0 ==> st.delivered == [Call(Null, Null)]
  {
    if |tasks| == 0 then Slots([], 0, false, [SuccessCall(Null)])
    else IndexedRun(tasks, order, |tasks|)
  }

  /** While every task succeeds, after k completions exactly the slots of
      the tasks that have completed hold their data, and success is
      delivered once all n slots are filled. */
  lemma {:induction false} IndexedPrefix(tasks: seq<Call>, order: seq<nat>, k: nat)
    requires IsSchedule(order, |tasks|) && k <= |tasks|
    requires forall i :: 0 <= i < |tasks| ==> Succeeds(tasks[i])
    ensures var st := IndexedRun(tasks, order, k);
            && !st.hasError
            && st.filled == k
            && (forall j :: 0 <= j < |tasks| ==>
                  st.values[j] == if j in order[..k] then tasks[j].data else Undefined)
            && st.delivered == if 0 < k == |tasks| then [SuccessCall(Arr(st.values))] else []
  {
    if k > 0 {
      IndexedPrefix(tasks, order, k - 1);
      assert order[..k] == order[..k - 1] + [order[k - 1]];
    }
  }

  /** With index-addressed slots, a successful `parallel` delivers every
      task's data in input order, for every completion order. */
  lemma IndexedInputOrder(tasks: seq<Call>, order: seq<nat>)
    requires IsSchedule(order, |tasks|)
    requires forall i :: 0 <= i < |tasks| ==> Succeeds(tasks[i])
    ensures |tasks| > 0 ==>
              ParallelIndexed(tasks, order).delivered
              == [SuccessCall(Arr(seq(|tasks|, i requires 0 <= i < |tasks| => tasks[i].data)))]
  {
    if |tasks| > 0 {
      var n := |tasks|;
      IndexedPrefix(tasks, order, n);
      assert order[..n] == order;
      var st := IndexedRun(tasks, order, n);
      assert st.values == seq(n, i requires 0 <= i < n => tasks[i].data);
    }
  }

  /** The scenario of tests/flow-test.js:109-129: three tasks reporting 0, 1
      and 2, the middle one completing last. The code delivers [0, 2, 1];
      index-addressed slots deliver [0, 1, 2], which the test expects. */
  lemma CompletionOrderCounterexample()
    ensures var tasks := [SuccessCall(Num(0)), SuccessCall(Num(1)), SuccessCall(Num(2))];
            && Parallel(tasks, [0, 2, 1]).final.delivered == [SuccessCall(Arr([Num(0), Num(2), Num(1)]))]
            && ParallelIndexed(tasks, [0, 2, 1]).delivered == [SuccessCall(Arr([Num(0), Num(1), Num(2)]))]
  {
    var tasks := [SuccessCall(Num(0)), SuccessCall(Num(1)), SuccessCall(Num(2))];
    var order := [0, 2, 1];
    assert 1 in order && 2 in order;
    var trace := Completions(tasks, order);
    assert trace == [SuccessCall(Num(0)), SuccessCall(Num(2)), SuccessCall(Num(1))];
    Settle(3, trace);
    assert DataOf(trace) == [Num(0), Num(2), Num(1)];
    IndexedInputOrder(tasks, order);
    assert seq(3, i requires 0 <= i < 3 => tasks[i].data) == [Num(0), Num(1), Num(2)];
  }
}
