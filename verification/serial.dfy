/** `serial` (lib/flow.js:3-25): runs a list of tasks one after another,
    threading each success value into the next task, and stops at the first
    error. A task is modelled as a pure function from the arguments it is
    invoked with to the arguments it passes its completion callback. */
module Serial {
  import opened JsValues

  /** What a task receives in front of its completion callback: nothing, or
      the previous task's data as a leading argument. */
  datatype Args = CallbackOnly | Leading(data: Js)

  /** A task of a serial chain. It calls its callback exactly once, with the
      arguments it returns. */
  type Task = Args -> Call

  /** One call of `serial`: the arguments each invoked task received, in
      list order (entry i belongs to task i), and the single call made to the
      user's callback. */
  datatype SerialRun = SerialRun(invoked: seq<Args>, delivered: Call)

  /** How `next` invokes the following task: with the data as leading
      argument unless it is `undefined`; `null` is passed on. */
  function ArgsFor(data: Js): Args {
    if data.Undefined? then CallbackOnly else Leading(data)
  }

  /** The inner `next(error, data)` closure, with `pending` the tasks still in
      `nextFunctions` and `c` the arguments `next` was called with. */
  function Next(pending: seq<Task>, c: Call): (run: SerialRun)
    ensures |run.invoked| <= |pending|
    ensures Succeeds(run.delivered) ==> |run.invoked| == |pending| && run.delivered.error == Null
    ensures !Succeeds(run.delivered) ==> run.delivered.data == Undefined
    ensures !Succeeds(c) ==> run == SerialRun([], ErrorCall(c.error))
    decreases |pending|
  {
    if Truthy(c.error) then
      SerialRun([], ErrorCall(c.error))
    else if |pending| == 0 then
      SerialRun([], SuccessCall(c.data))
    else
      var a := ArgsFor(c.data);
      var rest := Next(pending[1..], pending[0](a));
      SerialRun([a] + rest.invoked, rest.delivered)
  }

  /** `serial(funcArray, callback)`: an empty list is answered with
      `callback(null, null)`; otherwise `next()` starts the chain with no
      error and no data. */
  function Serial(tasks: seq<Task>): (run: SerialRun)
    ensures |tasks| == 0 ==> run.invoked == [] && run.delivered == Call(Null, Null)
    ensures |tasks| > 0 ==> 1 <= |run.invoked| <= |tasks| && run.invoked[0] == CallbackOnly
  {
    if |tasks| == 0 then
      SerialRun([], SuccessCall(Null))
    else
      Next(tasks, Call(Undefined, Undefined))
  }

  /** What task i reported in `run`, given the arguments it was invoked with. */
  function Reported(tasks: seq<Task>, run: SerialRun, i: nat): Call
    requires i < |tasks| && i < |run.invoked|
  {
    tasks[i](run.invoked[i])
  }

  /** A run of a non-empty chain whose first task receives `first`, described
      call by call: every task but the last invoked one succeeded and handed
      its data on to the next, and the last invoked one either failed, which
      is delivered as the error, or was the last task, whose data is
      delivered. */
  predicate IsRunFrom(tasks: seq<Task>, first: Args, run: SerialRun) {
    var k := |run.invoked|;
    && 1 <= k <= |tasks|
    && run.invoked[0] == first
    && (forall i :: 0 <= i < k - 1 ==>
          Succeeds(Reported(tasks, run, i)) && run.invoked[i + 1] == ArgsFor(Reported(tasks, run, i).data))
    && var last := Reported(tasks, run, k - 1);
       if Truthy(last.error) then run.delivered == ErrorCall(last.error)
       else k == |tasks| && run.delivered == SuccessCall(last.data)
  }

  /** The behaviour `serial` promises, independent of the driver's recursion. */
  predicate IsSerialRun(tasks: seq<Task>, run: SerialRun) {
    if |tasks| == 0 then run.invoked == [] && run.delivered == SuccessCall(Null)
    else IsRunFrom(tasks, CallbackOnly, run)
  }

  lemma {:induction false} NextIsRunFrom(pending: seq<Task>, c: Call)
    requires |pending| > 0 && Succeeds(c)
    ensures IsRunFrom(pending, ArgsFor(c.data), Next(pending, c))
    decreases |pending|
  {
    var a := ArgsFor(c.data);
    var c' := pending[0](a);
    var rest := Next(pending[1..], c');
    var run := Next(pending, c);
    assert run == SerialRun([a] + rest.invoked, rest.delivered);
    if Truthy(c'.error) || |pending| == 1 {
      assert rest.invoked == [];
      assert Reported(pending, run, 0) == c';
    } else {
      NextIsRunFrom(pending[1..], c');
      var k := |run.invoked|;
      assert Reported(pending, run, 0) == c';
      forall i | 1 <= i < k
        ensures Reported(pending, run, i) == Reported(pending[1..], rest, i - 1)
      {
        assert run.invoked[i] == rest.invoked[i - 1];
      }
      forall i | 0 <= i < k - 1
        ensures Succeeds(Reported(pending, run, i)) && run.invoked[i + 1] == ArgsFor(Reported(pending, run, i).data)
      {
        if i > 0 {
          assert run.invoked[i + 1] == rest.invoked[i];
        }
      }
    }
  }

  /** `serial` behaves as `IsSerialRun` describes. */
  lemma SerialMeetsSpec(tasks: seq<Task>)
    ensures IsSerialRun(tasks, Serial(tasks))
  {
    if |tasks| > 0 {
      NextIsRunFrom(tasks, Call(Undefined, Undefined));
    }
  }

  /** Two runs that both follow the call-by-call description are the same run. */
  lemma RunFromUnique(tasks: seq<Task>, first: Args, r1: SerialRun, r2: SerialRun)
    requires IsRunFrom(tasks, first, r1) && IsRunFrom(tasks, first, r2)
    ensures r1 == r2
  {
    var k1, k2 := |r1.invoked|, |r2.invoked|;
    var m := if k1 < k2 then k1 else k2;
    var j := 1;
    while j < m
      invariant 1 <= j <= m
      invariant r1.invoked[..j] == r2.invoked[..j]
    {
      assert r1.invoked[j - 1] == r1.invoked[..j][j - 1];
      assert Reported(tasks, r1, j - 1) == Reported(tasks, r2, j - 1);
      assert r1.invoked[..j + 1] == r1.invoked[..j] + [r1.invoked[j]];
      assert r2.invoked[..j + 1] == r2.invoked[..j] + [r2.invoked[j]];
      j := j + 1;
    }
    assert r1.invoked[m - 1] == r1.invoked[..m][m - 1];
    assert Reported(tasks, r1, m - 1) == Reported(tasks, r2, m - 1);
    assert k1 == k2;
    assert r1.invoked == r1.invoked[..m];
    assert r2.invoked == r2.invoked[..m];
  }

  /** The call-by-call description characterises `serial` exactly. */
  lemma SerialSpecExact(tasks: seq<Task>, run: SerialRun)
    ensures IsSerialRun(tasks, run) <==> run == Serial(tasks)
  {
    SerialMeetsSpec(tasks);
    if IsSerialRun(tasks, run) && |tasks| > 0 {
      RunFromUnique(tasks, CallbackOnly, run, Serial(tasks));
    }
  }

  /** Each task after the first receives the previous task's data as a
      leading argument exactly when that data is not `undefined`. */
  lemma SerialThreadsData(tasks: seq<Task>, i: nat)
    requires 0 < i < |Serial(tasks).invoked|
    ensures var run := Serial(tasks);
            var prev := Reported(tasks, run, i - 1);
            && Succeeds(prev)
            && (run.invoked[i] == Leading(prev.data) <==> !prev.data.Undefined?)
            && (run.invoked[i] == CallbackOnly <==> prev.data.Undefined?)
  {
    SerialMeetsSpec(tasks);
  }

  /** The first task reporting a truthy error ends the chain: its error is
      delivered without data, and no later task is invoked. */
  lemma SerialStopsAtFirstError(tasks: seq<Task>, i: nat)
    requires i < |Serial(tasks).invoked| && i < |tasks|
    requires Truthy(Reported(tasks, Serial(tasks), i).error)
    ensures |Serial(tasks).invoked| == i + 1
    ensures Serial(tasks).delivered == ErrorCall(Reported(tasks, Serial(tasks), i).error)
  {
    SerialMeetsSpec(tasks);
  }

  /** `serial` reports success exactly when it invoked every task and each
      of them succeeded; it then delivers the last task's data. */
  lemma SerialSuccessRunsAll(tasks: seq<Task>)
    requires |tasks| > 0
    ensures var run := Serial(tasks);
            Succeeds(run.delivered) <==>
              |run.invoked| == |tasks| && forall i :: 0 <= i < |tasks| ==> Succeeds(Reported(tasks, run, i))
    ensures var run := Serial(tasks);
            Succeeds(run.delivered) ==> run.delivered == SuccessCall(Reported(tasks, run, |tasks| - 1).data)
  {
    SerialMeetsSpec(tasks);
  }

  /** `serial` as a loop over a copy of the task list, taking tasks off its
      front as `nextFunctions.shift()` does. */
  method RunSerial(tasks: seq<Task>) returns (invoked: seq<Args>, delivered: Call)
    ensures SerialRun(invoked, delivered) == Serial(tasks)
  {
    if |tasks| == 0 {
      return [], SuccessCall(Null);
    }
    var queue := tasks;
    var c := Call(Undefined, Undefined);
    invoked := [];
    while Succeeds(c) && |queue| > 0
      invariant Serial(tasks) == SerialRun(invoked + Next(queue, c).invoked, Next(queue, c).delivered)
      decreases |queue|
    {
      var a := ArgsFor(c.data);
      var task := queue[0];
      queue := queue[1..];
      invoked := invoked + [a];
      c := task(a);
    }
    delivered := if Truthy(c.error) then ErrorCall(c.error) else SuccessCall(c.data);
  }

  /** A task that reports `seed`, whatever it is invoked with. */
  function SeedTask(seed: int): Task {
    (a: Args) => SuccessCall(Num(seed))
  }

  /** The task `(n, cb) => cb(null, n + 1)` of tests/flow-test.js:30-35,
      invoked with a number. Only the `Leading(Num(_))` branch is used by
      the lemmas below. The other branch is a placeholder: in JavaScript
      the task throws when it is given only its callback, and reports a
      coerced number or NaN for a non-number. */
  function Increment(): Task {
    (a: Args) => match a
         case Leading(Num(x)) => SuccessCall(Num(x + 1))
         case _ => ErrorCall(Str("not a number"))
  }

  lemma {:induction false} NextIncrements(n: nat, x: int)
    ensures Next(seq(n, _ => Increment()), SuccessCall(Num(x)))
            == SerialRun(seq(n, i => Leading(Num(x + i))), SuccessCall(Num(x + n)))
  {
    if n > 0 {
      var tasks := seq(n, _ => Increment());
      assert tasks[1..] == seq(n - 1, _ => Increment());
      NextIncrements(n - 1, x + 1);
      assert [Leading(Num(x))] + seq(n - 1, i => Leading(Num(x + 1 + i))) == seq(n, i => Leading(Num(x + i)));
    }
  }

  /** A seed task followed by n incrementers delivers seed + n, and the
      incrementers see seed, seed + 1, ... in turn. */
  lemma SerialIncrements(seed: int, n: nat)
    ensures Serial([SeedTask(seed)] + seq(n, _ => Increment()))
            == SerialRun([CallbackOnly] + seq(n, i => Leading(Num(seed + i))), SuccessCall(Num(seed + n)))
  {
    var tasks := [SeedTask(seed)] + seq(n, _ => Increment());
    assert tasks[1..] == seq(n, _ => Increment());
    NextIncrements(n, seed);
  }
  /** A task calling `cb(0, 5)`: its error argument is the falsy 0. */
  function FalsyErrorTask(): Task {
    (a: Args) => Call(Num(0), Num(5))
  }

  /** A falsy error argument is no error: after a first task calling
      `cb(0, 5)` the chain goes on, and the second task receives 5. */
  lemma SerialFalsyErrorContinues(second: Task)
    ensures Serial([FalsyErrorTask(), second]).invoked == [CallbackOnly, Leading(Num(5))]
    ensures var last := second(Leading(Num(5)));
            Serial([FalsyErrorTask(), second]).delivered
            == if Truthy(last.error) then ErrorCall(last.error) else SuccessCall(last.data)
  {
    var tasks := [FalsyErrorTask(), second];
    var c1 := tasks[0](CallbackOnly);
    assert c1 == Call(Num(0), Num(5)) && !Truthy(c1.error);
    var last := second(Leading(Num(5)));
    assert tasks[1..][1..] == [];
    assert Next(tasks[1..], c1) == SerialRun([Leading(Num(5))] + Next([], last).invoked, Next([], last).delivered);
  }
}
