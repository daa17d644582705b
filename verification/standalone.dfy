/**
 * `StandaloneClusterManager`: the single-node backend. Its member list holds
 * exactly the member given at construction, its distributed properties live
 * in a map the instance owns, and every dispatch goes through the
 * dispatcher with the configured instruction timeout.
 */
module Standalone {
  import opened Cluster
  import opened Properties
  import opened Dispatcher

  /** Id of the member the constructor without a member uses. */
  const LOCALHOST: string := "localhost"

  class StandaloneClusterManager {
    /** `clusterConfigurationProperties.getInstructionTimeout()`, in milliseconds. */
    const instructionTimeout: int
    /** `clusterMembers`: the one member of this cluster. */
    const clusterMembers: seq<Member>
    /** `properties`: the in-memory map behind the distributed properties. */
    var properties: Store

    ghost predicate Valid()
    {
      |clusterMembers| == 1 && IsLong(instructionTimeout)
    }

    /** `StandaloneClusterManager(config)`: one member, with id "localhost". */
    constructor (instructionTimeout: int)
      requires IsLong(instructionTimeout)
      ensures Valid()
      ensures clusterMembers == [Member(LOCALHOST)]
      ensures this.instructionTimeout == instructionTimeout && properties == map[]
    {
      this.instructionTimeout := instructionTimeout;
      clusterMembers := [Member(LOCALHOST)];
      properties := map[];
    }

    /** `StandaloneClusterManager(config, member)`: the given member is the only one. */
    constructor WithMember(instructionTimeout: int, member: Member)
      requires IsLong(instructionTimeout)
      ensures Valid()
      ensures clusterMembers == [member]
      ensures this.instructionTimeout == instructionTimeout && properties == map[]
    {
      this.instructionTimeout := instructionTimeout;
      clusterMembers := [member];
      properties := map[];
    }

    /** `getClusterMembers()`: always the same one-member list. */
    function GetClusterMembers(): (members: seq<Member>)
      requires Valid()
      ensures |members| == 1 && members[0] == clusterMembers[0]
    {
      clusterMembers
    }

    /** `getProperties()`: the instance's own map, the same on every call. */
    function GetProperties(): (store: Store)
      reads this
      ensures store == properties
    {
      properties
    }

    /** `setProperty(name, value)`: overwrite one entry of the map. */
    method SetProperty(name: string, value: Value)
      modifies this
      ensures properties == old(properties)[name := value]
    {
      properties := properties[name := value];
    }

    /** `submitInstructions(instructions)` with this manager's timeout. */
    method SubmitInstructions<T>(a: Assignments, submit: Submit<T>, clock: nat -> int)
      returns (r: Result<map<Member, T>, ExecutionException>, ghost log: seq<Member>, ghost culprit: Member)
      requires Valid() && Increasing(clock) && 0 <= clock(0) && IsLong(clock(0))
      ensures var o := Dispatch(a, submit, clock, instructionTimeout);
        (r.Success? <==> o.Completed?) && (o.Completed? ==> r.value == o.results)
      ensures Reports(Dispatch(a, submit, clock, instructionTimeout), Submitted(a, submit), r, log, culprit)
    {
      r, log, culprit := Dispatcher.SubmitInstructions(a, submit, clock, instructionTimeout);
    }

    /**
     * `submitInstruction(instruction)`: a broadcast to the one member, so
     * the result map has at most one entry, for that member.
     */
    method SubmitInstruction<T>(instruction: Option<Instruction>, submit: Submit<T>, clock: nat -> int)
      returns (r: Result<map<Member, T>, ExecutionException>, ghost log: seq<Member>, ghost culprit: Member)
      requires Valid() && Increasing(clock) && 0 <= clock(0) && IsLong(clock(0))
      ensures var a := Broadcast(clusterMembers, instruction);
        Reports(Dispatch(a, submit, clock, instructionTimeout), Submitted(a, submit), r, log, culprit)
      ensures r.Success? ==> |r.value| <= 1 && r.value.Keys <= {clusterMembers[0]}
    {
      r, log, culprit := Dispatcher.SubmitInstruction(clusterMembers, instruction, submit, clock, instructionTimeout);
      SingleMemberBroadcast(clusterMembers[0], instruction, submit, clock, instructionTimeout);
      assert clusterMembers == [clusterMembers[0]];
    }
  }

  /** A broadcast over a one-member list yields at most one result, for that member. */
  lemma SingleMemberBroadcast<T>(member: Member, instruction: Option<Instruction>, submit: Submit<T>,
                                 clock: nat -> int, timeout: int)
    requires Increasing(clock) && 0 <= clock(0) && IsLong(clock(0)) && IsLong(timeout)
    ensures var o := Dispatch(Broadcast([member], instruction), submit, clock, timeout);
      o.Completed? ==> |o.results| <= 1 && o.results.Keys <= {member}
  {
    var a := Broadcast([member], instruction);
    assert a.Keys == {member};
    assert |a| == 1;
    ResultsComeFromOwnHandles(a, submit, clock, timeout);
  }

  /** On a freshly built manager every property lookup returns its default. */
  method FreshManagerReadsDefaults(instructionTimeout: int, name: string, kind: Kind, default: Value)
    returns (r: Value)
    requires IsLong(instructionTimeout)
    ensures r == default
  {
    var manager := new StandaloneClusterManager(instructionTimeout);
    r := GetProperty(manager.GetProperties(), name, kind, default);
  }

  /**
   * `setProperty` then `getProperty` on one manager: the lookup sees the
   * value just set whenever it has the requested class, and every other
   * key is untouched.
   */
  method SetThenGet(manager: StandaloneClusterManager, name: string, value: Value, kind: Kind, default: Value)
    returns (r: Value)
    modifies manager
    ensures r == if IsInstance(kind, value) then value else default
    ensures forall other, k, d :: other != name ==>
      GetProperty(manager.properties, other, k, d) == GetProperty(old(manager.properties), other, k, d)
  {
    manager.SetProperty(name, value);
    r := GetProperty(manager.GetProperties(), name, kind, default);
    GetAfterSet(old(manager.properties), name, value, kind, default);
  }
}
