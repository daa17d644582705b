# spring-distributed-cluster: dispatcher and property accessor in Dafny

This project models the core of the cluster-abstraction layer. A cluster
manager lists its members and dispatches instructions to them. It collects
each member's result within a configured timeout. It also reads and writes
loosely-typed distributed properties.

Modelled:

- `AbstractClusterManager`:
  - the broadcast `submitInstruction(instruction)`;
  - the fan-out / poll / log engine `submitInstructions(instructions)`;
  - the three `getProperty` overloads and `setProperty`.
- `StandaloneClusterManager`: the single-node backend. It has a one-member
  list fixed at construction and an in-memory property map owned by the
  instance.

Files and modules:

- `cluster.dfy` (`Cluster`): members, instructions, handles and the clock.
  - A backend handle (a `Future`) is a completion reading plus an outcome.
    The completion reading is the clock value from which `isDone()` holds,
    or never. The outcome is the value or the error that `get()` delivers.
  - The wall clock is the sequence of values that successive calls of
    `System.currentTimeMillis()` return. The model takes it to be strictly
    increasing.
  - Java `long` range and wrap-around are also defined here.
- `dispatch.dfy` (`Dispatcher`, `DispatchScenarios`):
  - `Poll` and `Dispatch` are pure functions. They give the outcome of one
    call from the handles, the clock readings and the deadline: either the
    result map plus the timed-out members, or an abort.
  - The methods `BroadcastAssignments`, `SubmitAll`, `PollPass`,
    `SubmitInstructions` and `SubmitInstruction` are the Java loops. Each is
    proved to compute that specification.
  - `Dispatch` and the methods compute the deadline as the code does: a
    wrapping `long` addition. `CorrectedDispatch` is the same call with a
    saturating deadline (see "## Findings").
  - The lemmas state what a call guarantees.
  - `DispatchScenarios` proves two worked scenarios. The first has three
    members, a 50 ms timeout, and instructions that finish after 10, 10 and
    200 ms. In the second, one instruction fails.
- `properties.dfy` (`Properties`): the typed lookups over the property map.
  Java objects are a tagged `Value`, classes are a `Kind`, and
  `Class.isInstance` is `IsInstance`. `IsInstance` is false for null.
  `getProperty(name)` returns the stored value only when it is a `String`,
  and null otherwise; nothing is converted to text.
- `standalone.dfy` (`Standalone`): the `StandaloneClusterManager` class.
  - It has constant `clusterMembers` and `instructionTimeout` fields and a
    mutable `properties` map.
  - It provides both constructors, `GetClusterMembers`, `GetProperties` and
    `SetProperty`.
  - Its dispatch methods bind the configured timeout.

Model parameters, not state:

- The backend's `submitInstruction(member, instruction)` is a function
  parameter `submit`.
- The clock is a function parameter `clock: nat -> int`. Reading 0 computes
  the deadline. Reading k is the k-th evaluation of the `while` guard.
- The error log is a ghost list of the member ids logged.

## Model

| member | source | states |
|---|---|---|
| `Dispatcher.BroadcastAssignments` | spring-distributed-cluster/src/main/java/com/budjb/spring/distributed/cluster/AbstractClusterManager.java:60-64 | the assignment map has exactly one key per listed member, each mapped to the broadcast instruction |
| `Dispatcher.SubmitInstruction` | spring-distributed-cluster/src/main/java/com/budjb/spring/distributed/cluster/AbstractClusterManager.java:59-67 | a broadcast returns, logs or throws exactly what `Dispatch` gives for the per-member assignment map, with the deadline computed by the wrapping `long` addition of line 82 |
| `Dispatcher.BroadcastResultsWithinMembers` | spring-distributed-cluster/src/main/java/com/budjb/spring/distributed/cluster/AbstractClusterManager.java:59-67 | a broadcast's returned and logged members together are exactly the listed members; each value comes from that member's own handle |
| `Dispatcher.NullBroadcastIsEmpty` | spring-distributed-cluster/src/main/java/com/budjb/spring/distributed/cluster/AbstractClusterManager.java:59-80 | broadcasting a null instruction submits nothing and returns an empty map |
| `Dispatcher.Submitted` | spring-distributed-cluster/src/main/java/com/budjb/spring/distributed/cluster/AbstractClusterManager.java:74-80 | the pending map holds one handle for each member with a non-null instruction, and it is the one the backend returned for that member |
| `Dispatcher.SubmitAll` | spring-distributed-cluster/src/main/java/com/budjb/spring/distributed/cluster/AbstractClusterManager.java:74-80 | the fan-out loop submits exactly the non-null assignments and keeps each member's own handle |
| `Dispatcher.NullAssignmentNeverReported` | spring-distributed-cluster/src/main/java/com/budjb/spring/distributed/cluster/AbstractClusterManager.java:76-80 | a member assigned null is never submitted: it is not in the result, not logged and not the cause of an abort |
| `Dispatcher.Deadline` | spring-distributed-cluster/src/main/java/com/budjb/spring/distributed/cluster/AbstractClusterManager.java:82 | the corrected deadline: `timeout` ms after the start, saturating at `Long.MAX_VALUE`; never before the start for a non-negative timeout; equal to the plain sum when that is a `long` |
| `Dispatcher.DeadlineAsWrittenAgrees` | spring-distributed-cluster/src/main/java/com/budjb/spring/distributed/cluster/AbstractClusterManager.java:82 | without overflow, the wrapping `long` addition gives the same deadline as the saturating one |
| `Dispatcher.DeadlineAsWrittenOverflows` | spring-distributed-cluster/src/main/java/com/budjb/spring/distributed/cluster/AbstractClusterManager.java:82 | with a timeout of `Long.MAX_VALUE` the written addition wraps to a deadline before the start |
| `Dispatcher.DeadlineAsWritten` | spring-distributed-cluster/src/main/java/com/budjb/spring/distributed/cluster/AbstractClusterManager.java:82 | the deadline as written is a `long`, congruent to start + timeout modulo 2^64, and equal to it when the sum is a `long` |
| `Dispatcher.Poll` | spring-distributed-cluster/src/main/java/com/budjb/spring/distributed/cluster/AbstractClusterManager.java:86-95 | the polling loop from the k-th reading: timed-out members are among the pending ones and earlier results stay; an abort names a non-empty set of pending members (the full characterisation is in the `Poll…` lemmas) |
| `Dispatcher.Dispatch` | spring-distributed-cluster/src/main/java/com/budjb/spring/distributed/cluster/AbstractClusterManager.java:73-104 | the whole call as written: timed-out and failed members are among the submitted ones; when start + timeout is a `long`, the loop polls up to exactly that deadline |
| `Dispatcher.CorrectedDispatch` | spring-distributed-cluster/src/main/java/com/budjb/spring/distributed/cluster/AbstractClusterManager.java:73-104 | the call with the saturating deadline; whenever start + timeout does not exceed `Long.MAX_VALUE` it is the call as written |
| `Dispatcher.WrittenAndCorrectedDiverge` | spring-distributed-cluster/src/main/java/com/budjb/spring/distributed/cluster/AbstractClusterManager.java:82-86 | if every instruction has succeeded by the first poll, with timeout `Long.MAX_VALUE` the call as written returns nothing and logs everyone, while the corrected call returns every result |
| `Dispatcher.DefaultTimeoutIsAsIntended` | spring-distributed-cluster/src/main/java/com/budjb/spring/distributed/cluster/ClusterConfigurationProperties.java:10 | with the default timeout of 120000 ms and a start up to `Long.MAX_VALUE - 120000`, the call as written and the corrected call agree |
| `Dispatcher.PollPass` | spring-distributed-cluster/src/main/java/com/budjb/spring/distributed/cluster/AbstractClusterManager.java:87-94 | one iterator pass moves every done handle's value from the pending map to the results, or throws the cause of a done handle that failed |
| `Dispatcher.PassSplitsPending` | spring-distributed-cluster/src/main/java/com/budjb/spring/distributed/cluster/AbstractClusterManager.java:87-94 | a pass without failure splits the pending members into collected ones and still-pending ones; each collected value is that handle's value |
| `Dispatcher.PassKeepsPartition` | spring-distributed-cluster/src/main/java/com/budjb/spring/distributed/cluster/AbstractClusterManager.java:87-94 | a pass keeps the invariant that results and pending are disjoint, loses no member and keeps earlier results |
| `Dispatcher.PollPartitions` | spring-distributed-cluster/src/main/java/com/budjb/spring/distributed/cluster/AbstractClusterManager.java:86-95 | when the loop ends, every member is in exactly one of the results and the still-pending set, and earlier results are kept |
| `Dispatcher.PollResultsFromHandles` | spring-distributed-cluster/src/main/java/com/budjb/spring/distributed/cluster/AbstractClusterManager.java:86-95 | a member enters the results only with its own handle's value, and only if that handle was done at a clock reading before the deadline |
| `Dispatcher.PollTimesOut` | spring-distributed-cluster/src/main/java/com/budjb/spring/distributed/cluster/AbstractClusterManager.java:86-95 | a pending member is still pending at the end exactly when its handle was done at no clock reading before the deadline |
| `Dispatcher.PollAbortsIff` | spring-distributed-cluster/src/main/java/com/budjb/spring/distributed/cluster/AbstractClusterManager.java:86-95 | the loop aborts exactly when some pending handle failed and was done at a reading before the deadline; every member named in the abort is such a one |
| `Dispatcher.SubmitInstructions` | spring-distributed-cluster/src/main/java/com/budjb/spring/distributed/cluster/AbstractClusterManager.java:73-104 | the call returns exactly when `Dispatch` (with the wrapping deadline of line 82) completes, and then returns its result map and logs each timed-out member exactly once; otherwise it throws the cause of a failed member and logs nobody |
| `Dispatcher.ResultsComeFromOwnHandles` | spring-distributed-cluster/src/main/java/com/budjb/spring/distributed/cluster/AbstractClusterManager.java:84-95 | result keys are a subset of the submitted members, with no more entries than requested; each value is that member's own handle's value |
| `Dispatcher.SubmittedArePartitioned` | spring-distributed-cluster/src/main/java/com/budjb/spring/distributed/cluster/AbstractClusterManager.java:84-101 | on success the submitted members are partitioned into returned and logged; a member is logged exactly when its handle was not done before the deadline |
| `Dispatcher.AbortsIffFailureSeen` | spring-distributed-cluster/src/main/java/com/budjb/spring/distributed/cluster/AbstractClusterManager.java:86-95 | the call throws `ExecutionException` exactly when a submitted instruction failed and was seen done before the deadline |
| `Dispatcher.AllDoneBeforeDeadline` | spring-distributed-cluster/src/main/java/com/budjb/spring/distributed/cluster/AbstractClusterManager.java:86-103 | if every instruction succeeds and is done at a reading before the deadline, the result keys are all submitted members and nobody is logged |
| `Dispatcher.SlowMemberIsLeftOut` | spring-distributed-cluster/src/main/java/com/budjb/spring/distributed/cluster/AbstractClusterManager.java:97-101 | a member whose handle is not done before the deadline is left out of the result and logged |
| `Dispatcher.NonPositiveTimeoutPollsNothing` | spring-distributed-cluster/src/main/java/com/budjb/spring/distributed/cluster/AbstractClusterManager.java:82-86 | with a timeout of zero or less nothing is polled: the result is empty and every submitted member is logged |
| `Dispatcher.OverflowingTimeoutLeavesEveryoneOut` | spring-distributed-cluster/src/main/java/com/budjb/spring/distributed/cluster/AbstractClusterManager.java:82-86 | as written, a call with a timeout of `Long.MAX_VALUE` and a positive start returns an empty map and logs every submitted member |
| `Dispatcher.SaturatedTimeoutWaits` | spring-distributed-cluster/src/main/java/com/budjb/spring/distributed/cluster/AbstractClusterManager.java:82-86 | the corrected call with the same timeout returns every member that succeeded before the end of `long` time and logs nobody |
| `DispatchScenarios.SlowMemberScenario` | spring-distributed-cluster/src/main/java/com/budjb/spring/distributed/cluster/AbstractClusterManager.java:86-101 | timeout 50 ms; A and B finish after 10 ms and C after 200 ms; the clock is read at least once between 10 and 50 ms; the result is exactly A and B with their own values, and C is logged |
| `DispatchScenarios.FailingMemberScenario` | spring-distributed-cluster/src/main/java/com/budjb/spring/distributed/cluster/AbstractClusterManager.java:86-95 | if one of the three instructions fails, the call aborts naming only that member, and no result map is returned |
| `Properties.GetProperty` | spring-distributed-cluster/src/main/java/com/budjb/spring/distributed/cluster/AbstractClusterManager.java:127-141 | returns the stored value exactly when the key is present and holds an instance of the class; otherwise returns the default |
| `Properties.GetPropertyOfKind` | spring-distributed-cluster/src/main/java/com/budjb/spring/distributed/cluster/AbstractClusterManager.java:118-120 | the result is null or a value stored under the name that is an instance of the class; a stored instance is always found |
| `Properties.GetStringProperty` | spring-distributed-cluster/src/main/java/com/budjb/spring/distributed/cluster/AbstractClusterManager.java:110-112 | the result is null or the string stored under the name; a stored string is always found |
| `Properties.StoredNullReadsAsDefault` | spring-distributed-cluster/src/main/java/com/budjb/spring/distributed/cluster/AbstractClusterManager.java:134-138 | a key stored with null reads as absent: every class gives the default |
| `Properties.GetAfterSet` | spring-distributed-cluster/src/main/java/com/budjb/spring/distributed/cluster/AbstractClusterManager.java:147-149 | after setting a value, a lookup of that name returns it if it is of the requested class, and the default otherwise |
| `Properties.SetLeavesOtherKeys` | spring-distributed-cluster/src/main/java/com/budjb/spring/distributed/cluster/AbstractClusterManager.java:147-149 | setting one name changes no lookup of any other name |
| `Properties.EmptyStoreReadsAsDefault` | spring-distributed-cluster/src/main/java/com/budjb/spring/distributed/cluster/standalone/StandaloneClusterManager.java:37 | every lookup on an empty property map returns its default |
| `Standalone.StandaloneClusterManager.constructor` | spring-distributed-cluster/src/main/java/com/budjb/spring/distributed/cluster/standalone/StandaloneClusterManager.java:49-51 | the constructor without a member lists exactly one member, with id "localhost"; the property map starts empty |
| `Standalone.StandaloneClusterManager.WithMember` | spring-distributed-cluster/src/main/java/com/budjb/spring/distributed/cluster/standalone/StandaloneClusterManager.java:59-63 | the member list is exactly the given member; the property map starts empty |
| `Standalone.StandaloneClusterManager.GetClusterMembers` | spring-distributed-cluster/src/main/java/com/budjb/spring/distributed/cluster/standalone/StandaloneClusterManager.java:97-99 | the member list always has one element, the member fixed at construction |
| `Standalone.StandaloneClusterManager.GetProperties` | spring-distributed-cluster/src/main/java/com/budjb/spring/distributed/cluster/standalone/StandaloneClusterManager.java:89-91 | `getProperties` returns the manager's own map, not a copy, so what `SetProperty` writes is what later lookups read |
| `Standalone.StandaloneClusterManager.SetProperty` | spring-distributed-cluster/src/main/java/com/budjb/spring/distributed/cluster/AbstractClusterManager.java:147-149 | the property map afterwards is the old map with only that name overwritten |
| `Standalone.StandaloneClusterManager.SubmitInstructions` | spring-distributed-cluster/src/main/java/com/budjb/spring/distributed/cluster/AbstractClusterManager.java:73-104 | returns, logs or throws exactly what `Dispatch` gives with the configured instruction timeout and the wrapping deadline |
| `Standalone.StandaloneClusterManager.SubmitInstruction` | spring-distributed-cluster/src/main/java/com/budjb/spring/distributed/cluster/standalone/StandaloneClusterManager.java:97-99 | a standalone broadcast targets its one member, so the result has at most one entry, for that member |
| `Standalone.SingleMemberBroadcast` | spring-distributed-cluster/src/main/java/com/budjb/spring/distributed/cluster/standalone/StandaloneClusterManager.java:97-99 | a broadcast over a one-member list yields at most one result, keyed by that member |
| `Standalone.FreshManagerReadsDefaults` | spring-distributed-cluster/src/main/java/com/budjb/spring/distributed/cluster/standalone/StandaloneClusterManager.java:37 | on a freshly built manager every property lookup returns its default |
| `Standalone.SetThenGet` | spring-distributed-cluster/src/main/java/com/budjb/spring/distributed/cluster/standalone/StandaloneClusterManager.java:89-91 | `getProperties` returns the same map, so a lookup after `setProperty` sees the new value (when its class matches) and other names are unchanged |

## Left out

- Submission failures: the backend's `submitInstruction(member, instruction)` is a total function here. A backend that throws while submitting is not modelled.
- `InterruptedException`: interruption of the waiting thread is not modelled.
- Real time and concurrency. The clock is an arbitrary strictly increasing sequence of readings. A real `currentTimeMillis()` can return the same value twice; the model gives the loop its measure by assuming it does not.
- Within one pass of the inner loop, `isDone()` is evaluated at the clock reading of the loop guard. The time a pass takes is not modelled.
- Which failing member's exception is thrown depends on `HashMap` iteration order. The model proves only that it is one of the failed members seen done.
- Instructions still running after the deadline keep running. The dispatcher never looks at them again, and neither does the model.
- Log text: only the logged member ids are kept, as a ghost list. The message wording and the timeout in it are left out.
- Bean-factory autowiring and the cached thread pool of the standalone `submitInstruction` (StandaloneClusterManager.java:79-83), and `setBeanFactory`/`setApplicationContext`. They are reflection and executor calls, represented by the abstract `submit` parameter.
- `getClusterMembers` returns the manager's own mutable `ArrayList`, so a caller could change it. The model's member list is an immutable sequence.
- `ClusterMember` equality is taken to be equality of ids.
- Property values: only null, `String`, `Integer`, `Long` and `Boolean` values and those classes plus `Object` are modelled. Other classes and subclassing are not.
- Concurrent writers to the property map on different nodes: the code does no synchronisation, so the model is single-threaded.
- The Hazelcast manager and member, the Spring auto-configuration classes, and the `ClusterConfigurationProperties` getter and setter. The configuration is folded into a timeout parameter whose default, 120000 ms, is `Cluster.DEFAULT_INSTRUCTION_TIMEOUT`. The standalone manager fixes the timeout when it is built, whereas the code reads `getInstructionTimeout()` on every call (AbstractClusterManager.java:82), so a later `setInstructionTimeout` is not modelled.

## Findings

| source | as written | input that shows it | evidently intended | confidence | as-written member | corrected member |
|---|---|---|---|---|---|---|
| spring-distributed-cluster/src/main/java/com/budjb/spring/distributed/cluster/AbstractClusterManager.java:82 | `end = System.currentTimeMillis() + timeout` is a `long` addition, which wraps | `timeout = Long.MAX_VALUE` with any positive clock reading: `end` becomes negative, the `while` guard is false at once, and every member is logged as timed out even if its instruction is already done | wait up to `timeout` ms, treating a huge timeout as "wait until done" (a saturating addition) | medium, not executed | `Dispatcher.OverflowingTimeoutLeavesEveryoneOut` | `Dispatcher.SaturatedTimeoutWaits` |

`Dispatcher.Dispatch` and the methods keep the code's wrapping addition, so they do what the code does at this input. `Dispatcher.CorrectedDispatch` uses the saturating `Dispatcher.Deadline`. `Dispatcher.WrittenAndCorrectedDiverge` proves that the two differ at this input, and the contract of `CorrectedDispatch` proves that they agree whenever the addition does not overflow.
