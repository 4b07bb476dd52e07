/** The vehicle record stored by the traffic manager, and the id-level
    vocabulary the rest of the model speaks about sequences of vehicles. */
module Vehicles {

  /** One vehicle. Arrival stamps (`time_t` in the program) are opaque
      integers; the optional trailing constructor arguments default exactly
      as in the program: priority 0, no passengers, empty route. */
  datatype Vehicle = Vehicle(
    id: int,
    vehicleType: string,
    category: string,
    arrivalTime: int,
    priority: int := 0,
    passengers: int := 0,
    route: string := "")

  /** The priority value that sends a vehicle to the emergency queue. */
  const EmergencyPriority: int := 1

  predicate IsEmergency(v: Vehicle) {
    v.priority == EmergencyPriority
  }

  /** The ids of `s`, position by position. */
  function Ids(s: seq<Vehicle>): (r: seq<int>)
    ensures |r| == |s|
    ensures forall i :: 0 <= i < |s| ==> r[i] == s[i].id
  {
    seq(|s|, i requires 0 <= i < |s| => s[i].id)
  }

  /** Some element of `s` carries `id`. */
  predicate HasId(s: seq<Vehicle>, id: int) {
    id in Ids(s)
  }

  /** No two positions of `s` carry the same id. */
  predicate UniqueIds(s: seq<Vehicle>) {
    forall i, j :: 0 <= i < j < |s| ==> s[i].id != s[j].id
  }

  /** The set of ids carried by `s`. */
  function IdSet(s: seq<Vehicle>): (r: set<int>)
    ensures forall id :: id in r <==> HasId(s, id)
  {
    set i | 0 <= i < |s| :: s[i].id
  }
}
