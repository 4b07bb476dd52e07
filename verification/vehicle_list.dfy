/** The singly linked list of vehicles, in admission order, as a sequence:
    the node at distance k from `head` is position k. Each list walk of the
    traffic manager is a recursive function over the sequence, and each is
    specified against an independent, position-level description. */
module VehicleList {
  import opened Wrappers
  import opened Vehicles
  import opened Multisets

  /** Walk to the last node and link a new node after it (or make it the
      head of an empty list). */
  function AppendAtTail(s: seq<Vehicle>, v: Vehicle): (r: seq<Vehicle>)
    ensures |r| == |s| + 1
    ensures r[..|s|] == s && r[|s|] == v
  {
    if s == [] then [v] else [s[0]] + AppendAtTail(s[1..], v)
  }

  /** Position of the first vehicle whose id is `id`, or `|s|` when none is. */
  function FirstIndex(s: seq<Vehicle>, id: int): (k: nat)
    ensures k <= |s|
    ensures k < |s| ==> s[k].id == id
    ensures forall j :: 0 <= j < k ==> s[j].id != id
  {
    if s == [] then 0
    else if s[0].id == id then 0
    else 1 + FirstIndex(s[1..], id)
  }

  /** The first-match position lies inside the list exactly when some
      vehicle carries the id. */
  lemma FirstIndexFinds(s: seq<Vehicle>, id: int)
    ensures FirstIndex(s, id) < |s| <==> HasId(s, id)
  {
  }

  /** Unlink the first node whose vehicle has id `id`; an unmatched id
      leaves the list as it is. */
  function RemoveFirst(s: seq<Vehicle>, id: int): (r: seq<Vehicle>)
    ensures FirstIndex(s, id) == |s| ==> r == s
    ensures FirstIndex(s, id) < |s| ==>
              r == s[..FirstIndex(s, id)] + s[FirstIndex(s, id) + 1..]
  {
    if s == [] then []
    else if s[0].id == id then s[1..]
    else
      assert s == [s[0]] + s[1..];
      [s[0]] + RemoveFirst(s[1..], id)
  }

  /** Removing the first match takes exactly that one vehicle out of the
      multiset of vehicles in the list, and nothing when there is no match. */
  lemma RemoveFirstMultiset(s: seq<Vehicle>, id: int)
    ensures FirstIndex(s, id) == |s| ==> multiset(RemoveFirst(s, id)) == multiset(s)
    ensures FirstIndex(s, id) < |s| ==>
              multiset(RemoveFirst(s, id)) + multiset{s[FirstIndex(s, id)]} == multiset(s)
    ensures multiset(RemoveFirst(s, id)) <= multiset(s)
  {
    var k := FirstIndex(s, id);
    if k < |s| {
      assert RemoveFirst(s, id) == s[..k] + s[k + 1..];
      CutMultiset(s, k);
    } else {
      assert RemoveFirst(s, id) == s;
    }
  }

  /** Walk from the head and return the first vehicle with id `id`, or
      `None` (a null pointer) when the walk runs off the end. */
  function Search(s: seq<Vehicle>, id: int): (r: Option<Vehicle>)
    ensures r.None? <==> !HasId(s, id)
    ensures r.Some? ==> r.value.id == id
    ensures r.Some? ==> FirstIndex(s, id) < |s| && r.value == s[FirstIndex(s, id)]
  {
    if s == [] then None
    else if s[0].id == id then Some(s[0])
    else
      assert Ids(s) == [s[0].id] + Ids(s[1..]);
      Search(s[1..], id)
  }

  /** The vehicles of `s` whose ids are not in `ids`, in list order: the
      reference for what repeated removals by id leave behind. */
  function Without(s: seq<Vehicle>, ids: set<int>): (r: seq<Vehicle>)
    ensures |r| <= |s|
    ensures forall v :: v in r <==> v in s && v.id !in ids
  {
    if s == [] then []
    else if s[0].id in ids then Without(s[1..], ids)
    else [s[0]] + Without(s[1..], ids)
  }

  /** The priority-1 vehicles of `s`, in list order. */
  function Emergencies(s: seq<Vehicle>): (r: seq<Vehicle>)
    ensures forall v :: v in r <==> v in s && IsEmergency(v)
  {
    if s == [] then []
    else if IsEmergency(s[0]) then [s[0]] + Emergencies(s[1..])
    else Emergencies(s[1..])
  }

  /** Remove, one after another, the first vehicle carrying each id of `q`
      (the loop of processEmergencyVehicles over the emergency queue). */
  function RemoveEach(s: seq<Vehicle>, q: seq<Vehicle>): (r: seq<Vehicle>)
    ensures |r| <= |s|
    ensures multiset(r) <= multiset(s)
    decreases |q|
  {
    if q == [] then s
    else
      var s' := RemoveFirst(s, q[0].id);
      RemoveFirstMultiset(s, q[0].id);
      assert |s'| <= |s| by {
        assert |multiset(s')| <= |multiset(s)|;
      }
      RemoveEach(s', q[1..])
  }

  /** A list without the ids in `ids` still has unique ids if the list did. */
  lemma {:induction false} WithoutKeepsUnique(s: seq<Vehicle>, ids: set<int>)
    requires UniqueIds(s)
    ensures UniqueIds(Without(s, ids))
  {
    if s != [] {
      WithoutKeepsUnique(s[1..], ids);
      var t := Without(s[1..], ids);
      if s[0].id !in ids {
        forall v | v in t ensures v.id != s[0].id {
          var j :| 0 <= j < |s[1..]| && s[1..][j] == v;
          assert s[j + 1] == v;
        }
      }
    }
  }

  /** When ids are unique, removing the first match of `id` is the same as
      dropping every vehicle with that id. */
  lemma {:induction false} RemoveFirstIsWithout(s: seq<Vehicle>, id: int)
    requires UniqueIds(s)
    ensures RemoveFirst(s, id) == Without(s, {id})
  {
    if s != [] {
      if s[0].id == id {
        WithoutNoneOf(s[1..], {id});
      } else {
        RemoveFirstIsWithout(s[1..], id);
      }
    }
  }

  /** Dropping ids none of which occurs leaves the list unchanged. */
  lemma {:induction false} WithoutNoneOf(s: seq<Vehicle>, ids: set<int>)
    requires forall i :: 0 <= i < |s| ==> s[i].id !in ids
    ensures Without(s, ids) == s
  {
    if s != [] {
      WithoutNoneOf(s[1..], ids);
    }
  }

  /** Dropping two id sets one after the other drops their union. */
  lemma {:induction false} WithoutTwice(s: seq<Vehicle>, a: set<int>, b: set<int>)
    ensures Without(Without(s, a), b) == Without(s, a + b)
  {
    if s != [] {
      WithoutTwice(s[1..], a, b);
    }
  }

  /** With unique ids, removing the first match of every id of `q` removes
      exactly the vehicles whose ids occur in `q`, keeping the order of the
      rest. */
  lemma {:induction false} RemoveEachIsWithout(s: seq<Vehicle>, q: seq<Vehicle>)
    requires UniqueIds(s)
    ensures RemoveEach(s, q) == Without(s, IdSet(q))
    decreases |q|
  {
    if q == [] {
      assert IdSet(q) == {};
      WithoutNoneOf(s, {});
    } else {
      var id := q[0].id;
      RemoveFirstIsWithout(s, id);
      WithoutKeepsUnique(s, {id});
      RemoveEachIsWithout(Without(s, {id}), q[1..]);
      WithoutTwice(s, {id}, IdSet(q[1..]));
      assert Ids(q) == [id] + Ids(q[1..]);
      assert IdSet(q) == {id} + IdSet(q[1..]);
    }
  }

  /** Whatever the ids, the removal loop keeps every copy of a vehicle whose
      id is not queued. */
  lemma {:induction false} RemoveEachKeepsUnqueued(s: seq<Vehicle>, q: seq<Vehicle>, v: Vehicle)
    requires !HasId(q, v.id)
    ensures multiset(RemoveEach(s, q))[v] == multiset(s)[v]
    decreases |q|
  {
    if q != [] {
      var id := q[0].id;
      assert Ids(q) == [id] + Ids(q[1..]);
      RemoveFirstMultiset(s, id);
      if FirstIndex(s, id) < |s| {
        assert s[FirstIndex(s, id)] != v;
      }
      RemoveEachKeepsUnqueued(RemoveFirst(s, id), q[1..], v);
    }
  }

  /** The emergency filter of a list extended at the tail. */
  lemma {:induction false} EmergenciesAppend(s: seq<Vehicle>, v: Vehicle)
    ensures Emergencies(s + [v]) == Emergencies(s) + (if IsEmergency(v) then [v] else [])
  {
    if s == [] {
      assert s + [v] == [v];
    } else {
      assert (s + [v])[1..] == s[1..] + [v];
      EmergenciesAppend(s[1..], v);
    }
  }

  /** Dropping a set of ids that covers every priority-1 vehicle leaves no
      priority-1 vehicle behind. */
  lemma {:induction false} WithoutCoveringEmergencies(s: seq<Vehicle>, ids: set<int>)
    requires forall i :: 0 <= i < |s| && IsEmergency(s[i]) ==> s[i].id in ids
    ensures Emergencies(Without(s, ids)) == []
  {
    if s != [] {
      WithoutCoveringEmergencies(s[1..], ids);
    }
  }

  /** A list without priority-1 vehicles has an empty emergency filter. */
  lemma {:induction false} NoEmergenciesInList(s: seq<Vehicle>)
    requires forall i :: 0 <= i < |s| ==> !IsEmergency(s[i])
    ensures Emergencies(s) == []
  {
    if s != [] {
      NoEmergenciesInList(s[1..]);
    }
  }

  /** A search for an id that has been dropped finds nothing. */
  lemma SearchMissesDropped(s: seq<Vehicle>, ids: set<int>, id: int)
    requires id in ids
    ensures Search(Without(s, ids), id) == None
  {
  }
}
