/** The traffic manager: a stored capacity, the `vehicles` snapshot, the
    linked list `head` in admission order, and the emergency queue. Each
    public operation is a function from the old state to the new one. */
module TrafficManagers {
  import opened Wrappers
  import opened Vehicles
  import opened VehicleList
  import opened SnapshotSort

  /** `capacity` is stored at construction and never read again. */
  datatype TrafficManager = TrafficManager(
    capacity: int,
    vehicles: seq<Vehicle>,
    head: seq<Vehicle>,
    emergencyQueue: seq<Vehicle>)

  /** The emergency queue holds exactly the priority-1 vehicles of the list,
      in list order. */
  predicate EmergencyQueueMirrorsList(m: TrafficManager) {
    m.emergencyQueue == Emergencies(m.head)
  }

  /** Every vehicle in the list (counted with multiplicity) is also in the
      snapshot. The converse fails once vehicles have been removed: the
      snapshot is only ever appended to or reordered. */
  predicate ListWithinSnapshot(m: TrafficManager) {
    multiset(m.head) <= multiset(m.vehicles)
  }

  /** The joint invariant the program keeps while ids are distinct. */
  predicate Valid(m: TrafficManager) {
    UniqueIds(m.head) && EmergencyQueueMirrorsList(m) && ListWithinSnapshot(m)
  }

  /** A new manager: all three containers empty, the capacity recorded. */
  function Create(capacity: int): (m: TrafficManager)
    ensures Valid(m)
    ensures m.capacity == capacity && |m.head| == 0 && |m.vehicles| == 0
  {
    TrafficManager(capacity, [], [], [])
  }

  /** Link `v` at the tail of the list, push it onto the snapshot, and onto
      the emergency queue when its priority is 1. Nothing is checked: the
      capacity and duplicate ids are ignored, so the call never fails. */
  function AddVehicle(m: TrafficManager, v: Vehicle): (r: TrafficManager)
    ensures r.head == m.head + [v]
    ensures |r.head| == |m.head| + 1
    ensures r.vehicles == m.vehicles + [v]
    ensures IsEmergency(v) ==> r.emergencyQueue == m.emergencyQueue + [v]
    ensures !IsEmergency(v) ==> r.emergencyQueue == m.emergencyQueue
    ensures r.capacity == m.capacity
  {
    var linked := AppendAtTail(m.head, v);
    assert linked == m.head + [v];
    TrafficManager(
      m.capacity,
      m.vehicles + [v],
      linked,
      if IsEmergency(v) then m.emergencyQueue + [v] else m.emergencyQueue)
  }

  /** Unlink the first list node whose vehicle has id `id`. The snapshot and
      the emergency queue are left alone, even when the vehicle is in them. */
  function RemoveVehicle(m: TrafficManager, id: int): (r: TrafficManager)
    ensures !HasId(m.head, id) ==> r.head == m.head
    ensures HasId(m.head, id) ==>
              var k := FirstIndex(m.head, id);
              m.head[k].id == id && r.head == m.head[..k] + m.head[k + 1..]
    ensures multiset(r.head) <= multiset(m.head)
    ensures r.vehicles == m.vehicles && r.emergencyQueue == m.emergencyQueue
    ensures r.capacity == m.capacity
  {
    FirstIndexFinds(m.head, id);
    RemoveFirstMultiset(m.head, id);
    m.(head := RemoveFirst(m.head, id))
  }

  /** The first vehicle in list order with id `id`, or `None` for a null
      pointer. The state is not changed. */
  function SearchVehicle(m: TrafficManager, id: int): (r: Option<Vehicle>)
    ensures r.None? <==> !HasId(m.head, id)
    ensures r.Some? ==>
              var k := FirstIndex(m.head, id);
              k < |m.head| && r.value == m.head[k] && r.value.id == id
  {
    Search(m.head, id)
  }

  /** Reorder the snapshot by arrival stamp; the list and the emergency
      queue are untouched. */
  function SortVehicles(m: TrafficManager): (r: TrafficManager)
    ensures SortedByArrival(r.vehicles)
    ensures multiset(r.vehicles) == multiset(m.vehicles)
    ensures r.head == m.head && r.emergencyQueue == m.emergencyQueue
    ensures r.capacity == m.capacity
  {
    m.(vehicles := SortByArrival(m.vehicles))
  }

  /** For each vehicle of the emergency queue in turn, unlink the first list
      node carrying its id; then empty the queue. The snapshot keeps every
      entry. */
  function ProcessEmergencyVehicles(m: TrafficManager): (r: TrafficManager)
    ensures r.emergencyQueue == []
    ensures multiset(r.head) <= multiset(m.head)
    ensures r.vehicles == m.vehicles && r.capacity == m.capacity
  {
    m.(head := RemoveEach(m.head, m.emergencyQueue), emergencyQueue := [])
  }

  /** With distinct ids in the list, processing removes exactly the vehicles
      whose ids were queued as emergencies and keeps the others in order;
      none of the queued vehicles is left in the list. */
  lemma ProcessRemovesQueued(m: TrafficManager)
    requires UniqueIds(m.head)
    ensures ProcessEmergencyVehicles(m).head == Without(m.head, IdSet(m.emergencyQueue))
    ensures forall e :: e in m.emergencyQueue ==> !HasId(ProcessEmergencyVehicles(m).head, e.id)
  {
    RemoveEachIsWithout(m.head, m.emergencyQueue);
    var rest := ProcessEmergencyVehicles(m).head;
    forall e | e in m.emergencyQueue ensures !HasId(rest, e.id) {
      var i :| 0 <= i < |m.emergencyQueue| && m.emergencyQueue[i] == e;
      assert Ids(m.emergencyQueue)[i] == e.id;
      SearchMissesDropped(m.head, IdSet(m.emergencyQueue), e.id);
    }
  }

  /** While the emergency queue mirrors the list, processing keeps every
      ordinary vehicle: no queued id belongs to a vehicle of another priority. */
  lemma ProcessKeepsOrdinary(m: TrafficManager, v: Vehicle)
    requires Valid(m)
    requires v in m.head && !IsEmergency(v)
    ensures v in ProcessEmergencyVehicles(m).head
  {
    ProcessRemovesQueued(m);
  }

  /** Adding a vehicle under a fresh id keeps the joint invariant. */
  lemma AddPreservesValid(m: TrafficManager, v: Vehicle)
    requires Valid(m)
    requires !HasId(m.head, v.id)
    ensures Valid(AddVehicle(m, v))
  {
    var r := AddVehicle(m, v);
    EmergenciesAppend(m.head, v);
    forall i, j | 0 <= i < j < |r.head| ensures r.head[i].id != r.head[j].id {
      if j == |m.head| {
        assert Ids(m.head)[i] == m.head[i].id;
      }
    }
  }

  /** Processing keeps the joint invariant and leaves no priority-1 vehicle
      in the list. */
  lemma ProcessPreservesValid(m: TrafficManager)
    requires Valid(m)
    ensures Valid(ProcessEmergencyVehicles(m))
    ensures Emergencies(ProcessEmergencyVehicles(m).head) == []
  {
    var r := ProcessEmergencyVehicles(m);
    var ids := IdSet(m.emergencyQueue);
    ProcessRemovesQueued(m);
    WithoutKeepsUnique(m.head, ids);
    forall i | 0 <= i < |m.head| && IsEmergency(m.head[i]) ensures m.head[i].id in ids {
      assert m.head[i] in m.emergencyQueue;
    }
    WithoutCoveringEmergencies(m.head, ids);
  }

  /** Sorting keeps the joint invariant. */
  lemma SortPreservesValid(m: TrafficManager)
    requires Valid(m)
    ensures Valid(SortVehicles(m))
  {
  }

  /** Removal keeps the list within the snapshot and its ids distinct, but an
      emergency vehicle removed by id stays in the emergency queue after it
      has left the list. */
  lemma RemoveLeavesEmergencyEntry(m: TrafficManager, id: int)
    requires Valid(m)
    requires HasId(m.head, id)
    requires IsEmergency(m.head[FirstIndex(m.head, id)])
    ensures var r := RemoveVehicle(m, id);
            var v := m.head[FirstIndex(m.head, id)];
            UniqueIds(r.head) && ListWithinSnapshot(r) &&
            v in r.emergencyQueue && v !in r.head && !EmergencyQueueMirrorsList(r)
  {
    var v := m.head[FirstIndex(m.head, id)];
    RemoveFirstIsWithout(m.head, id);
    WithoutKeepsUnique(m.head, {id});
    assert v in m.head;
  }

  /** A vehicle added under a fresh id is what a search for that id returns. */
  lemma SearchAfterAdd(m: TrafficManager, v: Vehicle)
    requires !HasId(m.head, v.id)
    ensures SearchVehicle(AddVehicle(m, v), v.id) == Some(v)
  {
  }

  /** With distinct ids, a search for a removed id finds nothing. */
  lemma SearchAfterRemove(m: TrafficManager, id: int)
    requires UniqueIds(m.head)
    ensures SearchVehicle(RemoveVehicle(m, id), id) == None
  {
  }

  /** Removing, by its fresh id, the vehicle just added restores the list;
      the snapshot and emergency queue keep the addition. */
  lemma RemoveUndoesAddOnList(m: TrafficManager, v: Vehicle)
    requires !HasId(m.head, v.id)
    ensures RemoveVehicle(AddVehicle(m, v), v.id).head == m.head
    ensures RemoveVehicle(AddVehicle(m, v), v.id).vehicles == m.vehicles + [v]
  {
  }
}
