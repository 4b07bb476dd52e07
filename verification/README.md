# Traffic manager vehicle queue — Dafny model

This project models the vehicle-queue engine of a small C++ traffic control
simulator, the `TrafficManager` class, and the `Vehicle` record it stores.
The manager keeps three containers side by side:

- a singly linked list `head` of vehicles in admission order;
- a `vehicles` vector, a snapshot that can be sorted by arrival time;
- an `emergencyQueue` vector of the priority-1 vehicles.

It offers five operations: `addVehicle`, `removeVehicle`, `searchVehicle`,
`sortVehicles` and `processEmergencyVehicles`.

In the model, vehicles are immutable values (`Vehicles.Vehicle`). The
program's arrival stamps (`time_t`) are opaque integers. Each container is a
`seq<Vehicle>`: the node at distance k from `head` is position k of the
sequence. Each list walk of the program is a recursive function over the
sequence (`VehicleList`). Each walk is specified against a position-level
description:

- the first matching index;
- a splice;
- a filter by id set (`Without`);
- a filter by priority (`Emergencies`).

The manager (`TrafficManagers`) is a datatype with four fields. Each
operation is a function from the old state to the new one.

Sorting (`SnapshotSort`) is an insertion sort by arrival stamp. The program
uses an unstable library sort, so `SortVehicles` promises only what that sort
promises: a permutation in non-decreasing stamp order.
`SortedArrivalsUnique` proves that every such permutation has the same
sequence of stamps. Only the relative order of equally stamped vehicles can
differ from the program's.

The driver's effect on the manager is modelled in `Session`: the id counter
`vehicleId` and what each menu choice does to the state. With it, the model
proves that distinct ids (the precondition of the strongest lemmas) hold in
every state the program can reach. The driver only ever builds vehicles of
priority 0 (private) or 2 (public). So in a reachable state the emergency
queue is empty, and "Process Vehicles" leaves the list unchanged
(`ProcessChangesNothingInSession`).

Several behaviours one might expect of such a queue engine are absent from
the code. The model follows the code:

- The capacity is stored but never read. `addVehicle` never rejects a
  vehicle: there is no capacity check and no duplicate-id check.
- There is no identity index and no event log. There is no "process next"
  operation. While the emergency queue mirrors the list and listed ids are
  distinct (`Valid`), `processEmergencyVehicles` removes every queued
  emergency vehicle at once and no ordinary vehicle (`ProcessRemovesQueued`,
  `ProcessKeepsOrdinary`). Distinct list ids alone are not enough. The
  operation unlinks the first node carrying each queued id. So it can unlink
  an ordinary vehicle in two cases. One is a repeated id. The other is a
  stale queue entry: an emergency vehicle was removed and another vehicle
  was then added under its id.
- `removeVehicle` unlinks only the list node. The snapshot and the emergency
  queue keep the vehicle, so the snapshot is not kept in step with the list.
  What does hold is that every listed vehicle is also in the snapshot
  (`ListWithinSnapshot`). `RemoveLeavesEmergencyEntry` shows that removing an
  emergency vehicle breaks the emergency-queue invariant.
- The sort is unstable and orders by arrival stamp only. There is no
  priority-ordered view.

## Model

| member | source | states |
|---|---|---|
| VehicleList.AppendAtTail | main.cpp:56-68 | walking to the last node and linking the new one yields the old list followed by the new vehicle, earlier positions unchanged |
| VehicleList.FirstIndex | main.cpp:85-101 | the walk stops at a position holding the id, and every earlier position holds a different id; it runs off the end only if no position matches |
| VehicleList.FirstIndexFinds | main.cpp:85-102 | the walk stops inside the list exactly when some vehicle carries the id |
| VehicleList.RemoveFirst | main.cpp:80-102 | unlinking the first match splices out exactly that position and keeps the rest in order; an unmatched id leaves the list unchanged |
| VehicleList.RemoveFirstMultiset | main.cpp:87-98 | unlinking takes exactly the matched vehicle out of the list's multiset, and nothing when there is no match |
| VehicleList.Search | main.cpp:106-118 | the search returns null exactly when no vehicle has the id; otherwise it returns the vehicle at the first matching position |
| VehicleList.RemoveFirstIsWithout | main.cpp:80-102 | with distinct ids, unlinking the first match drops every vehicle with that id |
| VehicleList.RemoveEach | main.cpp:141-145 | the removal loop over the emergency queue only takes vehicles out of the list |
| VehicleList.RemoveEachIsWithout | main.cpp:141-145 | with distinct ids, the removal loop removes exactly the vehicles whose ids are queued and keeps the rest in order |
| VehicleList.RemoveEachKeepsUnqueued | main.cpp:141-145 | whatever the ids, the removal loop keeps every copy of a vehicle whose id is not in the emergency queue |
| VehicleList.EmergenciesAppend | main.cpp:70-76 | the priority-1 vehicles of the extended list are the old ones, plus the new vehicle exactly when its priority is 1 |
| SnapshotSort.SortByArrival | main.cpp:123-124 | the sorted snapshot is a permutation of the old one, in non-decreasing arrival order |
| SnapshotSort.SortedArrivalsUnique | main.cpp:123-124 | any two sorted permutations of one snapshot list the same arrival stamps in the same order, so the model agrees with the library sort up to ties |
| SnapshotSort.SortSortedIsIdentity | main.cpp:121-125 | the model's sort (not the library sort) leaves an already sorted snapshot as it is |
| SnapshotSort.SortSortedKeepsArrivals | main.cpp:123-124 | sorting an already sorted snapshot keeps its sequence of arrival stamps, which any sort with this comparator guarantees |
| TrafficManagers.Create | main.cpp:51 | a new manager records the capacity, has empty containers and satisfies the joint invariant |
| TrafficManagers.AddVehicle | main.cpp:54-77 | the list becomes the old list followed by v, so its length grows by one whatever the capacity; v is pushed onto the snapshot; v is pushed onto the emergency queue exactly when its priority is 1, which is otherwise unchanged |
| TrafficManagers.RemoveVehicle | main.cpp:80-102 | only the first list vehicle with the id is removed and the others keep their order; an unmatched id changes nothing; the snapshot and emergency queue are never modified |
| TrafficManagers.SearchVehicle | main.cpp:106-118 | the result is null exactly when no listed vehicle has the id; otherwise it is the first listed vehicle with that id |
| TrafficManagers.SortVehicles | main.cpp:121-125 | the snapshot becomes a permutation of itself sorted by arrival stamp; the list and emergency queue are untouched |
| TrafficManagers.ProcessEmergencyVehicles | main.cpp:139-147 | the emergency queue ends empty, the list only loses vehicles, and the snapshot keeps every entry |
| TrafficManagers.ProcessRemovesQueued | main.cpp:139-147 | with distinct ids, processing removes exactly the queued emergency vehicles' ids from the list, none of them remains, and the rest keep their order |
| TrafficManagers.ProcessKeepsOrdinary | main.cpp:139-147 | while the queue mirrors the list and ids are distinct, every vehicle that is not an emergency one is still in the list after processing |
| TrafficManagers.AddPreservesValid | main.cpp:54-77 | adding under a fresh id keeps ids distinct, keeps the emergency queue equal to the list's priority-1 vehicles in list order, and keeps the list within the snapshot |
| TrafficManagers.ProcessPreservesValid | main.cpp:139-147 | processing keeps the joint invariant and leaves no priority-1 vehicle in the list |
| TrafficManagers.SortPreservesValid | main.cpp:121-125 | sorting keeps the joint invariant |
| TrafficManagers.RemoveLeavesEmergencyEntry | main.cpp:80-102 | removing a listed emergency vehicle by id keeps ids distinct and the list within the snapshot, but leaves the vehicle in the emergency queue after it has left the list |
| TrafficManagers.SearchAfterAdd | main.cpp:106-118 | searching for the fresh id of a just-added vehicle returns that vehicle |
| TrafficManagers.SearchAfterRemove | main.cpp:80-118 | with distinct ids, searching for a removed id returns null |
| TrafficManagers.RemoveUndoesAddOnList | main.cpp:54-102 | removing a just-added vehicle by its fresh id restores the list, while the snapshot keeps the addition |
| Session.PrivateVehicle | main.cpp:181-184 | menu choice 1 builds a vehicle with the counter's id, the current time, type "Private", priority 0, no passengers, no route (the constructor defaults of main.cpp:23) and the drawn one of the three private categories |
| Session.PublicVehicle | main.cpp:189-199 | menu choice 2 builds a "Public" priority-2 vehicle with 10 plus the passenger draw mod 50 passengers (10 to 59) on the drawn one of four routes, typed Bus for the two bus routes and Tram otherwise |
| Session.RouteNamesBus | main.cpp:189-194 | the substring test for "Bus" holds for exactly the first two routes |
| Session.Start | main.cpp:158-159 | a session starts with a manager of the typed-in capacity whose list, snapshot and emergency queue are empty, and the id counter at 1 |
| Session.Step | main.cpp:177-236 | the two add choices append one vehicle at the list's tail carrying the old counter value (priority 0 for private, 2 for public) and post-increment the counter; processing empties the emergency queue and only shrinks the list; sorting makes the snapshot a sorted permutation of itself and keeps the list; the other choices change nothing |
| Session.Run | main.cpp:161-237 | over the menu loop the id counter advances by exactly the number of vehicle-creating choices, one per `vehicleId++` |
| Session.ContainsIffOccurs | main.cpp:194 | the route test `route.find(sub) != npos` holds exactly when `sub` occurs at some position of the route |
| Session.StepPreservesGood | main.cpp:177-236 | every menu choice keeps the manager's joint invariant, keeps every listed id below the counter, and admits no priority-1 vehicle |
| Session.RunPreservesGood | main.cpp:159-237 | every state reached by the menu loop satisfies the same invariant, so listed ids are always distinct |
| Session.ProcessChangesNothingInSession | main.cpp:183-203 | in every reachable state the emergency queue is empty and processing leaves the list unchanged |

## Left out

- Console input and output are not modelled: the menu text, `Vehicle::display`, `displayVehicles`, the search result printout, and the "Generate Report" choice, which only prints a message. The model keeps only their effect on state, which is none.
- `rand()`, `srand` and `time(0)` are not modelled; their results are fields of `Session.Choice`.
- Heap management is not modelled. Vehicles are values and list nodes are sequence positions. This leaves out the leaked `Vehicle` objects of `removeVehicle` and the dangling pointers left in `vehicles` after `processEmergencyVehicles` deletes vehicles. It also leaves out the use-after-free that a stale emergency-queue entry could cause.
- Integer widths are not modelled: `int` ids, the `vehicleId++` counter and `time_t` stamps are unbounded, so the counter's 32-bit overflow after about two billion vehicles is not modelled.
- A failed `cin >> capacity` or `cin >> choice` is not modelled. Exit (choice 8) ends the loop, so it is not a step.
- TrafficManagers.SortVehicles: does not fix the order among vehicles with equal stamps, because the program's library sort is unstable and leaves it unspecified; the model's insertion sort is one admissible outcome.
- TrafficManagers.ProcessRemovesQueued: stated only for lists with distinct ids, and `ProcessKeepsOrdinary` only while the queue mirrors the list. With duplicate ids, processing may unlink a different vehicle that shares a queued vehicle's id. The same happens after a stale queue entry: `removeVehicle` leaves an emergency vehicle in the queue, and a later vehicle added under its id is then unlinked, even though list ids are distinct. `RemoveEach` follows the code's first-match unlinking in that case, but the program can also walk a node whose vehicle it has already deleted, which is undefined behaviour the model does not reproduce.
