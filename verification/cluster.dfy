/**
 * Shared vocabulary of the cluster layer: members, instructions, the
 * asynchronous handles a backend returns for a submitted instruction, the
 * wall clock, and Java's 64-bit `long` range.
 */
module Cluster {

  datatype Option<T> = None | Some(value: T)

  datatype Result<T, E> = Success(value: T) | Failure(error: E)

  /** A cluster node, identified by its id (`ClusterMember`); equality is by id. */
  datatype Member = Member(id: string)

  /** A unit of work; its content is opaque to the dispatcher. */
  datatype Instruction = Instruction(name: string)

  /** What `Future.get()` yields once the handle is done: the instruction's value, or the error it raised. */
  datatype Outcome<T> = Value(value: T) | Failed(cause: string)

  /**
   * An asynchronous handle (`Future`) as the dispatcher sees it: the clock
   * reading from which `isDone()` holds (None: it never completes), and the
   * outcome `get()` then delivers.
   */
  datatype Handle<T> = Handle(completesAt: Option<int>, outcome: Outcome<T>)

  /** `isDone()` of a handle observed at clock reading `now`. */
  predicate IsDone<T>(h: Handle<T>, now: int)
  {
    h.completesAt.Some? && h.completesAt.value <= now
  }

  /**
   * The wall clock, as the sequence of values successive calls to
   * `System.currentTimeMillis()` return: `clock(k)` is the k-th reading.
   */
  ghost predicate Increasing(clock: nat -> int)
  {
    forall i: nat, j: nat :: i < j ==> clock(i) < clock(j)
  }

  const LONG_MIN: int := -0x8000_0000_0000_0000
  const LONG_MAX: int := 0x7FFF_FFFF_FFFF_FFFF

  predicate IsLong(x: int)
  {
    LONG_MIN <= x <= LONG_MAX
  }

  /** Two's-complement wrap-around of Java `long` arithmetic. */
  function WrapLong(x: int): (r: int)
    ensures IsLong(r)
    ensures (r - x) % 0x1_0000_0000_0000_0000 == 0
    ensures IsLong(x) ==> r == x
  {
    (x - LONG_MIN) % 0x1_0000_0000_0000_0000 + LONG_MIN
  }

  /** Default of `cluster.instructionTimeout`, in milliseconds. */
  const DEFAULT_INSTRUCTION_TIMEOUT: int := 120000
}
