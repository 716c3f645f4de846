# flow: serial, parallel and map as verified state machines

This project models `lib/flow.js`, a small library with three combinators for
callback-style asynchronous functions:

- `serial(funcArray, callback)` runs tasks one after another.
  The first task gets only its callback.
  Each later task also gets the previous task's data as a leading argument,
  unless that data is `undefined`.
  The chain stops at the first truthy error.
- `parallel(funcArray, callback)` starts every task.
  It appends each success value to `resArray` as it arrives.
  It calls back with the array when the count reaches the number of tasks.
  The `hasError` latch lets only the first error through.
- `map(valueArray, func, callback)` does the same with `func(value, next)`
  for every value.

Each combinator's inner `next` closure is a small deterministic state machine.
The model is written in plain functional Dafny:

- `JsValues` (js_values.dfy) holds JavaScript values (`Js`), truthiness
  (`Truthy`) and the arguments of one callback call (`Call`).
  `callback(error)` is `ErrorCall(error)`; `callback(null, data)` is
  `SuccessCall(data)`.
- `Serial` (serial.dfy) models a task as a pure function from the arguments
  it receives (`CallbackOnly` or `Leading(data)`) to the call it makes to its
  callback. `Next` mirrors the closure over the remaining `nextFunctions`.
  `IsSerialRun` describes the same behaviour call by call, and the two are
  proved to agree exactly.
  `RunSerial` is the loop form that takes tasks off the front of a copy of
  the list.
- `Concurrent` (concurrent.dfy) models the closure shared by `parallel` and
  `map` as `Step`. `Fold` runs it over a completion trace, which takes the
  place of the event loop. A trace is the calls the tasks make to `next`, in
  the order they happen. `Parallel` and `Map` build that trace from a
  completion order `order`.
- `IndexedParallel` (indexed.dfy) is the index-addressed alternative described
  under Findings.

Results are kept in completion order, as the code does.
The test at tests/flow-test.js:109-129 expects results by task index. The
code (`resArray.push`, lib/flow.js:39 and 65) does not place them so. The
model follows the code: the contracts of `Concurrent.Parallel` and
`Concurrent.Map` state that results come in completion order.

## Model

| member | source | states |
|---|---|---|
| Serial.Next | lib/flow.js:4-18 | a truthy error ends the chain with `callback(error)` and invokes nothing; a success delivery comes only after every remaining task was invoked, with a null error; an error delivery carries no data |
| Serial.Serial | lib/flow.js:19-24 | an empty list is answered with `(null, null)` and invokes no task; otherwise at least one and at most all tasks are invoked, the first with only its callback |
| Serial.NextIsRunFrom | lib/flow.js:4-18 | from any falsy-error call of `next`, the run follows the call-by-call description: each task before the last invoked one succeeded and handed its data on, and the last one's error or data is what gets delivered |
| Serial.SerialMeetsSpec | lib/flow.js:3-25 | `serial` satisfies the call-by-call description for every task list |
| Serial.RunFromUnique | lib/flow.js:3-25 | the call-by-call description fixes the run: two runs that satisfy it are equal |
| Serial.SerialSpecExact | lib/flow.js:3-25 | a run satisfies the call-by-call description if and only if it is the run of `serial` |
| Serial.SerialThreadsData | lib/flow.js:13-17 | every task after the first follows a successful one and receives its data as a leading argument exactly when that data is not `undefined`; `null` is passed on |
| Serial.SerialStopsAtFirstError | lib/flow.js:5-8 | when invoked task i reports a truthy error, it is the last task invoked and its error is delivered once, without data |
| Serial.SerialSuccessRunsAll | lib/flow.js:9-12 | success is delivered if and only if every task was invoked and each succeeded; the delivered data is the last task's |
| Serial.RunSerial | lib/flow.js:14-24 | the loop that takes tasks off a copy of the list produces the same invocations and delivery as the recursive closure |
| Serial.NextIncrements | tests/flow-test.js:30-35 | a chain of n incrementers started with x receives x, x+1, ... and delivers x+n |
| Serial.SerialIncrements | tests/flow-test.js:29-48 | a seed task followed by n incrementers delivers `(null, seed+n)`, and the incrementers see seed, seed+1, ... in turn |
| Serial.SerialFalsyErrorContinues | lib/flow.js:5 | a falsy error argument (0) is not an error: the chain goes on and the next task receives the data |
| Concurrent.Step | lib/flow.js:30-43 | once `hasError` is set, a completion changes nothing; results and deliveries only grow, by at most one delivery per completion; a new delivery is either the first error or success with exactly n results (map's twin is lines 56-69) |
| Concurrent.Fold | lib/flow.js:30-43 | over any completion trace, a latched state stays unchanged, and results and deliveries are only ever extended |
| Concurrent.Settle | lib/flow.js:31-42 | after at most n completions without error, the state holds their data in completion order and has delivered success iff there were exactly n; after an error, it has delivered exactly the earliest truthy error and kept only the data before it |
| Concurrent.ErrorLatches | lib/flow.js:31-37 | once an error has been delivered, any further completions, in any number, leave the state and delivery log unchanged |
| Concurrent.AtMostOnce | lib/flow.js:31-42 | within n completions the callback is called at most once, and a success is among the deliveries iff all n completions arrived without error |
| Concurrent.Parallel | lib/flow.js:27-51 | every task is invoked exactly once, in input order; the callback is called exactly once: `(null, null)` for an empty list, an error iff some completion carries one and then the earliest in completion order, otherwise `(null, results)` with the n task data in completion order |
| Concurrent.Map | lib/flow.js:53-77 | the mapper is invoked once per value, in input order; the callback is called exactly once: `(null, null)` for an empty list, an error iff some mapped completion carries one and then the earliest, otherwise `(null, results)` with the n mapped data in completion order |
| IndexedParallel.IndexedPrefix | lib/flow.js:39-41 | in the index-addressed variant, while all tasks succeed, after k completions exactly the completed tasks' slots hold their data, and success is delivered once all n are in |
| IndexedParallel.IndexedInputOrder | tests/flow-test.js:109-129 | in the index-addressed variant, a successful `parallel` delivers every task's data in input order, whatever the completion order |
| IndexedParallel.CompletionOrderCounterexample | lib/flow.js:39 | with tasks reporting 0, 1, 2 and the middle one completing last, the code delivers [0, 2, 1] while index-addressed slots deliver [0, 1, 2] |

## Left out

- Timers, `setTimeout` and the event loop are replaced by an explicit completion order (`order`) or trace.
- Concurrent.Parallel: a task that completes synchronously does so inside the `forEach`, between invocations. The model keeps invocation and completion as separate phases. The state depends only on the order of completions, and, as long as the user's callback does not throw, the `forEach` goes on whatever the completions did.
- Concurrent.Settle: assumes each task calls back exactly once, so the trace holds at most n completions. A task that calls back twice could push past n, and a later error would then call back a second time (lib/flow.js:39-41).
- Concurrent.AtMostOnce: at-most-once delivery is stated for up to n completions only, for the same reason. `ErrorLatches` holds for any number of completions.
- Re-entrancy is not modelled. A user callback that synchronously triggers `next` before `hasError = true` runs (lib/flow.js:35-36) falls outside the model.
- Stack depth of the synchronous recursion in `serial` is not modelled, and neither are exceptions thrown by tasks.
- Concurrent.ErrorLatches: the user's callback is assumed not to throw. lib/flow.js:35-36 and 61-62 call `callback(error)` before setting `hasError = true`, so a throwing callback leaves the latch unset and a later error calls back a second time. A throw during a synchronous completion inside the `forEach` (lib/flow.js:48-50, 74-76) also stops the later tasks from being invoked.
- Concurrent.Step: the expected count n is fixed when the call starts. lib/flow.js:40 and 66 re-read `funcArray.length` and `valueArray.length` at every completion, so a caller that changes the array during a call changes the target count; that is not modelled.
- JavaScript numbers are integers here. NaN (falsy) and fractions are not modelled. Objects and functions are `Obj(id)`.
- Serial.Serial: a task is a total function of what it receives. A task that reads its parameters at a different arity than it is called with has its behaviour folded into that function.
- Idempotence (equal inputs give equal outcomes) holds by construction, because every combinator is a pure function of its inputs. No separate lemma states it.

## Findings

| source | as written | input that shows it | evidently intended | confidence | as-written member | corrected member |
|---|---|---|---|---|---|---|
| lib/flow.js:39 | `resArray.push(data)` stores results in completion order | three tasks reporting 0, 1, 2 whose middle one completes last (order 0, 2, 1) deliver [0, 2, 1] | each result placed at its task's index, delivering [0, 1, 2] as tests/flow-test.js:109-129 expects | medium, not executed | IndexedParallel.CompletionOrderCounterexample | IndexedParallel.IndexedInputOrder |

`map` appends the same way (lib/flow.js:65). Its test at tests/flow-test.js:168-181 gives every value the same delay, so completion order matches input order there. `Concurrent.Parallel` and `Concurrent.Map` keep the code's behaviour. The corrected engine is `IndexedParallel.ParallelIndexed`.
