/** The instance manager's methods run one at a time: what each call returns and
    leaves behind. Their interleavings are in InstanceAdmission. */
module InstanceManager {
  import opened Bytes

  type Id = string

  datatype InstanceInfo = InstanceInfo(id: Id, sessionId: string, pid: nat)

  datatype InstanceError = MaxInstancesReached | NotFound | Backend

  class Manager {
    const maxInstances: nat
    var instances: map<Id, InstanceInfo>
    var pendingCreates: nat

    constructor (max: nat)
      ensures maxInstances == max && instances == map[] && pendingCreates == 0
    {
      maxInstances, instances, pendingCreates := max, map[], 0;
    }

    /** `worker` is what the backend answered: the new process, or a failure. */
    method Create(instanceId: Id, sessionId: string, worker: Option<nat>)
      returns (r: Result<InstanceInfo, InstanceError>)
      modifies this
      ensures pendingCreates == old(pendingCreates)
      ensures r == if old(|instances| + pendingCreates) >= maxInstances then Err(MaxInstancesReached)
                   else if worker.None? then Err(Backend)
                   else Ok(InstanceInfo(instanceId, sessionId, worker.value))
      ensures instances == if r.Ok? then old(instances)[instanceId := r.value] else old(instances)
      ensures old(|instances|) <= maxInstances ==> |instances| <= maxInstances
    {
      var current := |instances|;
      if current + pendingCreates >= maxInstances {
        return Err(MaxInstancesReached);
      }
      pendingCreates := pendingCreates + 1;
      if worker.None? {
        pendingCreates := pendingCreates - 1;
        return Err(Backend);
      }
      var info := InstanceInfo(instanceId, sessionId, worker.value);
      instances := instances[instanceId := info];
      pendingCreates := pendingCreates - 1;
      assert instances.Keys == old(instances).Keys + {instanceId};
      assert |instances| == |instances.Keys| && old(|instances|) == |old(instances).Keys|;
      r := Ok(info);
    }

    /** `stops` says whether the backend manages to stop an instance. */
    method Destroy(id: Id, stops: Id -> bool) returns (r: Result<(), InstanceError>)
      modifies this`instances
      ensures r == if id !in old(instances) then Err(NotFound) else if !stops(id) then Err(Backend) else Ok(())
      ensures instances == if r.Ok? then old(instances) - {id} else old(instances)
    {
      if id !in instances {
        return Err(NotFound);
      }
      if !stops(id) {
        return Err(Backend);
      }
      instances := instances - {id};
      r := Ok(());
    }

    /** `destroy_all` goes on after a failure and reports the first one; `ids` are
        the keys in the order the map yields them. */
    method DestroyAll(ids: seq<Id>, stops: Id -> bool) returns (r: Result<(), InstanceError>)
      requires forall id :: id in ids <==> id in instances
      requires forall i, j :: 0 <= i < j < |ids| ==> ids[i] != ids[j]
      modifies this`instances
      ensures instances == map id | id in old(instances) && !stops(id) :: old(instances)[id]
      ensures r.Ok? <==> instances == map[]
      ensures r.Err? ==> r.error == Backend
    {
      var firstError: Option<InstanceError> := None;
      for i := 0 to |ids|
        invariant forall id :: id in instances <==> id in old(instances) && (id in ids[..i] ==> !stops(id))
        invariant forall id :: id in instances ==> instances[id] == old(instances)[id]
        invariant firstError.Some? <==> exists id :: id in ids[..i] && !stops(id)
        invariant firstError.Some? ==> firstError.value == Backend
      {
        assert ids[..i + 1] == ids[..i] + [ids[i]];
        assert ids[i] in ids && ids[i] !in ids[..i];
        var result := Destroy(ids[i], stops);
        if result.Err? && firstError.None? {
          firstError := Some(result.error);
        }
      }
      assert ids[..|ids|] == ids;
      if firstError.Some? {
        var id :| id in ids && !stops(id);
        assert id in instances;
        return Err(firstError.value);
      }
      r := Ok(());
    }

    /** `reconstruct`: stops what the backend lists and forgets everything, unless a stop fails. */
    method Reconstruct(managed: Option<seq<Id>>, stops: Id -> bool) returns (r: Result<(), InstanceError>)
      modifies this`instances
      ensures r.Ok? <==> managed.Some? && forall id :: id in managed.value ==> stops(id)
      ensures instances == if r.Ok? then map[] else old(instances)
    {
      if managed.None? {
        return Err(Backend);
      }
      for i := 0 to |managed.value|
        invariant forall j :: 0 <= j < i ==> stops(managed.value[j])
      {
        if !stops(managed.value[i]) {
          return Err(Backend);
        }
      }
      instances := map[];
      r := Ok(());
    }
  }
}
