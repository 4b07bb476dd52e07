/** The state-changing part of the interactive driver: the id counter that
    starts at 1 and is post-incremented for every vehicle created, and the
    effect of each menu choice on the manager. Console input and output are
    not modelled; the values the driver draws from `rand()` and `time(0)`
    arrive as fields of the choice. */
module Session {
  import opened Vehicles
  import opened VehicleList
  import opened TrafficManagers
  import opened SnapshotSort

  /** A menu choice other than Exit. `roll` fields stand for `rand()`
      results, which are never negative; `now` stands for `time(0)`. */
  datatype Choice =
    | AddPrivate(typeRoll: nat, now: int)
    | AddPublic(routeRoll: nat, passengerRoll: nat, now: int)
    | ProcessVehicles
    | ViewQueue
    | SearchById(id: int)
    | Sort
    | Report
    | Invalid

  /** The driver's state between passes of the menu loop: the manager and
      the next value of the id counter. */
  datatype DriverState = DriverState(manager: TrafficManager, nextId: int)

  const PrivateTypes: seq<string> := ["Car", "Truck", "Motorcycle"]
  const Routes: seq<string> := ["Bus-101", "Bus-202", "Tram-A1", "Tram-B2"]

  /** `sub` occurs somewhere in `s` (the test `route.find(sub) != npos`),
      checked by comparing `sub` with each prefix of each suffix. */
  predicate Contains(s: string, sub: string)
    decreases |s|
  {
    if |s| < |sub| then false
    else s[..|sub|] == sub || Contains(s[1..], sub)
  }

  /** `sub` occurs in `s` starting at position `i`. */
  predicate OccursAt(s: string, sub: string, i: int) {
    0 <= i <= |s| - |sub| && s[i..i + |sub|] == sub
  }

  /** The prefix-by-prefix search finds `sub` exactly when it occurs at some
      position of `s`. */
  lemma {:induction false} ContainsIffOccurs(s: string, sub: string)
    ensures Contains(s, sub) <==> exists i :: OccursAt(s, sub, i)
    decreases |s|
  {
    if |s| < |sub| {
      forall i | OccursAt(s, sub, i) ensures false {
      }
    } else if s[..|sub|] == sub {
      assert OccursAt(s, sub, 0);
    } else {
      ContainsIffOccurs(s[1..], sub);
      forall i | OccursAt(s[1..], sub, i) ensures OccursAt(s, sub, i + 1) {
        assert s[1..][i..i + |sub|] == s[i + 1..i + 1 + |sub|];
      }
      forall i | OccursAt(s, sub, i) ensures i > 0 && OccursAt(s[1..], sub, i - 1) {
        assert s[1..][i - 1..i - 1 + |sub|] == s[i..i + |sub|];
      }
    }
  }

  /** The vehicle built by choice 1: default priority 0, no passengers, no
      route. The constructor's first two string arguments are passed as
      "Private" and the drawn type, in that order. */
  function PrivateVehicle(id: int, typeRoll: nat, now: int): (v: Vehicle)
    ensures v.id == id && v.arrivalTime == now
    ensures v.priority == 0 && !IsEmergency(v)
    ensures v.vehicleType == "Private" && v.category == PrivateTypes[typeRoll % 3]
    ensures v.passengers == 0 && v.route == ""
    ensures v.category in PrivateTypes
  {
    Vehicle(id, "Private", PrivateTypes[typeRoll % 3], now)
  }

  /** The vehicle built by choice 2: priority 2, 10 to 59 passengers, one of
      the four routes, typed "Bus" when the route names a bus. */
  function PublicVehicle(id: int, routeRoll: nat, passengerRoll: nat, now: int): (v: Vehicle)
    ensures v.id == id && v.arrivalTime == now
    ensures v.priority == 2 && !IsEmergency(v)
    ensures 10 <= v.passengers <= 59 && v.passengers == 10 + passengerRoll % 50
    ensures v.route == Routes[routeRoll % 4] && v.category == "Public"
    ensures v.vehicleType == (if routeRoll % 4 < 2 then "Bus" else "Tram")
  {
    var route := Routes[routeRoll % 4];
    RouteNamesBus(routeRoll % 4);
    Vehicle(id,
            if Contains(route, "Bus") then "Bus" else "Tram",
            "Public",
            now,
            2,
            10 + passengerRoll % 50,
            route)
  }

  /** Of the four routes, exactly the first two name a bus. */
  lemma RouteNamesBus(k: nat)
    requires k < |Routes|
    ensures Contains(Routes[k], "Bus") <==> k < 2
  {
    var r := Routes[k];
    if k < 2 {
      assert r[..3] == "Bus";
    } else {
      assert r[..3] != "Bus" by { assert r[0] == 'T'; }
      assert r[1..][..3] != "Bus" by { assert r[1] == 'r'; }
      assert r[2..][..3] != "Bus" by { assert r[2] == 'a'; }
      assert r[3..][..3] != "Bus" by { assert r[3] == 'm'; }
      assert r[4..][..3] != "Bus" by { assert r[4] == '-'; }
      assert !Contains(r[5..], "Bus");
      assert r[1..][1..] == r[2..] && r[2..][1..] == r[3..];
      assert r[3..][1..] == r[4..] && r[4..][1..] == r[5..];
    }
  }

  /** A fresh session: a new manager of the typed-in capacity, ids from 1. */
  function Start(capacity: int): (s: DriverState)
    ensures s.nextId == 1 && s.manager.head == []
    ensures s.manager.vehicles == [] && s.manager.emergencyQueue == []
    ensures s.manager.capacity == capacity
  {
    DriverState(Create(capacity), 1)
  }

  /** One pass of the menu loop. */
  function Step(s: DriverState, c: Choice): (r: DriverState)
    ensures c.AddPrivate? || c.AddPublic? ==> r.nextId == s.nextId + 1
    ensures !(c.AddPrivate? || c.AddPublic?) ==> r.nextId == s.nextId
    ensures c.AddPrivate? || c.AddPublic? ==>
              var n := |s.manager.head|;
              |r.manager.head| == n + 1 && r.manager.head[..n] == s.manager.head &&
              r.manager.head[n].id == s.nextId &&
              r.manager.head[n].priority == (if c.AddPrivate? then 0 else 2)
    ensures c.ProcessVehicles? ==>
              r.manager.emergencyQueue == [] &&
              multiset(r.manager.head) <= multiset(s.manager.head)
    ensures c.Sort? ==>
              SortedByArrival(r.manager.vehicles) && r.manager.head == s.manager.head &&
              multiset(r.manager.vehicles) == multiset(s.manager.vehicles)
    ensures c.ProcessVehicles? || c.Sort? || c.AddPrivate? || c.AddPublic? || r == s
  {
    match c
    case AddPrivate(typeRoll, now) =>
      DriverState(AddVehicle(s.manager, PrivateVehicle(s.nextId, typeRoll, now)), s.nextId + 1)
    case AddPublic(routeRoll, passengerRoll, now) =>
      DriverState(AddVehicle(s.manager, PublicVehicle(s.nextId, routeRoll, passengerRoll, now)),
              s.nextId + 1)
    case ProcessVehicles => s.(manager := ProcessEmergencyVehicles(s.manager))
    case Sort => s.(manager := SortVehicles(s.manager))
    case _ => s
  }

  /** The number of vehicle-creating choices (1 and 2) in `cs`. */
  function Adds(cs: seq<Choice>): (n: nat)
    ensures n <= |cs|
  {
    if cs == [] then 0
    else (if cs[0].AddPrivate? || cs[0].AddPublic? then 1 else 0) + Adds(cs[1..])
  }

  /** Several passes of the menu loop. The counter ends up advanced by
      exactly one for every vehicle created. */
  function Run(s: DriverState, cs: seq<Choice>): (r: DriverState)
    ensures r.nextId == s.nextId + Adds(cs)
    decreases |cs|
  {
    if cs == [] then s else Run(Step(s, cs[0]), cs[1..])
  }

  /** What holds between passes: the manager's joint invariant, every listed
      id below the counter, and no priority-1 vehicle anywhere in the list. */
  predicate Good(s: DriverState) {
    && Valid(s.manager)
    && (forall i :: 0 <= i < |s.manager.head| ==> s.manager.head[i].id < s.nextId)
    && (forall i :: 0 <= i < |s.manager.head| ==> !IsEmergency(s.manager.head[i]))
  }

  lemma StartIsGood(capacity: int)
    ensures Good(Start(capacity))
  {
  }

  /** Every menu choice keeps `Good`. */
  lemma StepPreservesGood(s: DriverState, c: Choice)
    requires Good(s)
    ensures Good(Step(s, c))
  {
    if c.AddPrivate? || c.AddPublic? {
      AddChoiceKeepsGood(s, c);
    } else {
      OtherChoiceKeepsGood(s, c);
    }
  }

  /** Choices 1 and 2 keep `Good`. */
  lemma AddChoiceKeepsGood(s: DriverState, c: Choice)
    requires Good(s)
    requires c.AddPrivate? || c.AddPublic?
    ensures Good(Step(s, c))
  {
    var v := if c.AddPrivate? then PrivateVehicle(s.nextId, c.typeRoll, c.now)
             else PublicVehicle(s.nextId, c.routeRoll, c.passengerRoll, c.now);
    assert Step(s, c) == DriverState(AddVehicle(s.manager, v), s.nextId + 1);
    AddKeepsGood(s, v);
  }

  /** The remaining choices keep `Good`. */
  lemma OtherChoiceKeepsGood(s: DriverState, c: Choice)
    requires Good(s)
    requires !(c.AddPrivate? || c.AddPublic?)
    ensures Good(Step(s, c))
  {
    match c
    case ProcessVehicles =>
      ProcessKeepsGood(s);
    case Sort =>
      SortPreservesValid(s.manager);
    case _ =>
  }

  /** Processing keeps `Good`. */
  lemma ProcessKeepsGood(s: DriverState)
    requires Good(s)
    ensures Good(s.(manager := ProcessEmergencyVehicles(s.manager)))
  {
    ProcessPreservesValid(s.manager);
    ProcessKeepsPrefixFree(s);
  }

  /** Adding a non-emergency vehicle under the counter's id, then bumping the
      counter, keeps `Good`. */
  lemma AddKeepsGood(s: DriverState, v: Vehicle)
    requires Good(s)
    requires v.id == s.nextId && !IsEmergency(v)
    ensures Good(DriverState(AddVehicle(s.manager, v), s.nextId + 1))
  {
    FreshCounterId(s);
    AddPreservesValid(s.manager, v);
  }

  /** The counter is not yet used by any listed vehicle. */
  lemma FreshCounterId(s: DriverState)
    requires Good(s)
    ensures !HasId(s.manager.head, s.nextId)
  {
  }

  /** Processing only removes vehicles, so the two per-vehicle facts of
      `Good` survive it. */
  lemma ProcessKeepsPrefixFree(s: DriverState)
    requires Good(s)
    ensures var h := ProcessEmergencyVehicles(s.manager).head;
            forall i :: 0 <= i < |h| ==> h[i].id < s.nextId && !IsEmergency(h[i])
  {
    var h := ProcessEmergencyVehicles(s.manager).head;
    forall i | 0 <= i < |h| ensures h[i].id < s.nextId && !IsEmergency(h[i]) {
      assert h[i] in multiset(h);
      assert h[i] in s.manager.head;
    }
  }

  /** Every state the driver reaches from a fresh session is `Good`. */
  lemma {:induction false} RunPreservesGood(s: DriverState, cs: seq<Choice>)
    requires Good(s)
    ensures Good(Run(s, cs))
    decreases |cs|
  {
    if cs != [] {
      StepPreservesGood(s, cs[0]);
      RunPreservesGood(Step(s, cs[0]), cs[1..]);
    }
  }

  /** The driver never builds a priority-1 vehicle, so in every reachable
      state the emergency queue is empty and "Process Vehicles" leaves the
      list exactly as it was. */
  lemma ProcessChangesNothingInSession(capacity: int, cs: seq<Choice>)
    ensures var s := Run(Start(capacity), cs);
            s.manager.emergencyQueue == [] &&
            ProcessEmergencyVehicles(s.manager).head == s.manager.head
  {
    var s := Run(Start(capacity), cs);
    StartIsGood(capacity);
    RunPreservesGood(Start(capacity), cs);
    NoEmergenciesInList(s.manager.head);
  }
}
