/** The manager methods that change the route tables, and motor index migration
    (src/driver_manager_impl.h:480-586; src/driver_manager_dispatch.cc:362-604;
    src/driver_manager_create.cc:101-141; src/driver_manager_destroy.cc:53-57).
 */
module RouteManager {
  import opened RouteTables

  datatype Outcome = Accepted | Refused | Threw

  datatype Failure = Nothing | FirstEmplace | SecondEmplace | Hook

  // ---------------------------------------------------------------- the loops

  /** Builds the route entries of a device, or nothing when a route is published, reserved or repeated. */
  method CollectEntries(routes: map<RouteKey, nat>, reserved: map<RouteKey, Device>, bus: BusKey, canIds: seq<nat>, first: nat)
    returns (collected: Option<seq<RouteEntry>>)
    ensures collected.Some? <==> AllDistinct(Keys(bus, canIds)) && Free(routes, reserved, Keys(bus, canIds))
    ensures collected.Some? ==> collected.value == Entries(Keys(bus, canIds), first)
  {
    var entries: seq<RouteEntry> := [];
    ghost var keys := Keys(bus, canIds);
    for i := 0 to |canIds|
      invariant entries == Entries(keys, first)[..i]
      invariant forall j | 0 <= j < i :: keys[j] !in routes && keys[j] !in reserved
      invariant forall j, k | 0 <= j < k < i :: keys[j] != keys[k]
    {
      var route := RouteKey(bus.adapter, UniqueId(bus.raw, canIds[i]));
      assert route == keys[i];
      assert forall j | 0 <= j < i :: entries[j].key == keys[j];
      if route in routes || route in reserved || exists j :: 0 <= j < |entries| && entries[j].key == route {
        return None;
      }
      entries := entries + [RouteEntry(route, first + i, false)];
    }
    return Some(entries);
  }

  lemma EntriesAreFree(t: Tables, bus: BusKey, canIds: seq<nat>)
    requires Free(t.routes, t.routeReservations, Keys(bus, canIds))
    ensures forall i | 0 <= i < |canIds| :: Entries(Keys(bus, canIds), t.nextRecord)[i].key !in t.routes
  {
    forall i | 0 <= i < |canIds| ensures Entries(Keys(bus, canIds), t.nextRecord)[i].key !in t.routes {
      assert Keys(bus, canIds)[i] !in t.routes;
    }
  }

  /** Inserts the entries one by one; when the insertion numbered `failAt` throws, removes those before it. */
  method InsertAll(routes: map<RouteKey, nat>, entries: seq<RouteEntry>, failAt: Option<nat>)
    returns (inserted: bool, result: map<RouteKey, nat>)
    requires forall i | 0 <= i < |entries| :: entries[i].key !in routes
    ensures inserted <==> (failAt.Some? ==> |entries| <= failAt.value)
    ensures result == if inserted then WithRoutes(routes, entries) else routes
  {
    result := routes;
    for published := 0 to |entries|
      invariant failAt.Some? ==> published <= failAt.value
      invariant result == WithRoutes(routes, entries[..published])
    {
      if failAt == Some(published) {
        WithRoutesKeeps(routes, entries[..published]);
        result := RemoveFirst(routes, result, entries, published);
        return false, result;
      }
      assert entries[..published + 1][..published] == entries[..published];
      result := result[entries[published].key := entries[published].record];
    }
    assert entries[..|entries|] == entries;
    return true, result;
  }

  /** The rollback: erasing the first `count` entries leaves the routes from before the insertions. */
  method RemoveFirst(was: map<RouteKey, nat>, routes: map<RouteKey, nat>, entries: seq<RouteEntry>, count: nat)
    returns (result: map<RouteKey, nat>)
    requires count <= |entries| && forall i | 0 <= i < |entries| :: entries[i].key !in was
    requires forall k | k in was :: k in routes && routes[k] == was[k]
    requires forall k | k in routes :: k in was || HasKey(entries[..count], k)
    ensures result == was
  {
    result := routes;
    for i := 0 to count
      invariant forall k | k in was :: k in result && result[k] == was[k]
      invariant forall k | k in result :: k in was || HasKey(entries[i..count], k)
    {
      assert forall k | HasKey(entries[i..count], k) :: k == entries[i].key || HasKey(entries[i + 1..count], k) by {
        forall k | HasKey(entries[i..count], k) && k != entries[i].key ensures HasKey(entries[i + 1..count], k) {
          var j :| 0 <= j < count - i && entries[i..count][j].key == k;
          assert entries[i + 1..count][j - 1].key == k;
        }
      }
      result := result - {entries[i].key};
    }
  }

  ghost predicate Linked(routes: map<RouteKey, nat>, claims: map<BusKey, nat>, records: map<nat, RouteRecord>, e: RouteEntry) {
    && e.record in records
    && if e.claim then ClaimedBus(e) in claims && claims[ClaimedBus(e)] == e.record
       else e.key in routes && routes[e.key] == e.record
  }

  /** Seals every retired entry and takes those still pointing at its record out of the tables. */
  method SealRoutes(was: map<RouteKey, nat>, wasClaims: map<BusKey, nat>, wasRecords: map<nat, RouteRecord>,
                    retired: seq<RouteEntry>)
    returns (routes: map<RouteKey, nat>, claims: map<BusKey, nat>, records: map<nat, RouteRecord>)
    requires forall i | 0 <= i < |retired| :: Linked(was, wasClaims, wasRecords, retired[i])
    ensures RoutesWithout(was, routes, retired) && ClaimsWithout(wasClaims, claims, retired)
    ensures Sealed(wasRecords, records, retired)
  {
    routes, claims, records := was, wasClaims, wasRecords;
    for i := 0 to |retired|
      invariant RoutesWithout(was, routes, retired[..i]) && ClaimsWithout(wasClaims, claims, retired[..i])
      invariant Sealed(wasRecords, records, retired[..i])
    {
      var entry := retired[i];
      assert Linked(was, wasClaims, wasRecords, entry) && retired[..i + 1] == retired[..i] + [entry];
      SealOne(wasRecords, records, retired[..i], entry);
      records := records[entry.record := records[entry.record].(retiring := true)];
      if entry.claim {
        var bus := ClaimedBus(entry);
        TakeClaim(was, routes, wasClaims, claims, retired[..i], entry);
        if bus in claims && claims[bus] == entry.record {
          claims := claims - {bus};
        }
      } else {
        TakeRoute(was, routes, wasClaims, claims, retired[..i], entry);
        if entry.key in routes && routes[entry.key] == entry.record {
          routes := routes - {entry.key};
        }
      }
    }
    assert retired[..|retired|] == retired;
  }

  // ---------------------------------------------------------------- the manager

  class Manager {
    var t: Tables

    /** Publishes the routes of a device under construction.  `failAt` makes the insertion of that
        index throw. */
    method PublishRoutes(d: Device, bus: Bus, recipe: Recipe, failAt: Option<nat>) returns (outcome: Outcome)
      requires RoutesConsistent(t) && bus in t.busKeys && Int32(t.busKeys[bus].raw)
      modifies this
      ensures RoutesConsistent(t)
      ensures outcome == Refused <==> !MayPublish(old(t), d, old(t).busKeys[bus], recipe)
      ensures outcome == Accepted ==> t == Published(old(t), d, old(t).busKeys[bus], recipe)
      ensures outcome != Accepted ==> t == old(t)
      ensures outcome == Threw ==> failAt.Some? && failAt.value < if recipe.claimsBus then 1 else |recipe.canIds|
    {
      var key := t.busKeys[bus];
      if recipe.claimsBus {
        outcome := PublishClaim(d, key, recipe, failAt);
        return;
      }
      ghost var was := t;
      outcome := PublishExact(d, key, recipe, failAt);
      if outcome == Accepted {
        PublishKeepsConsistent(was, d, key, recipe);
      }
    }

    /** Publishes exact ids. */
    method PublishExact(d: Device, key: BusKey, recipe: Recipe, failAt: Option<nat>) returns (outcome: Outcome)
      requires !recipe.claimsBus
      modifies this
      ensures outcome == Refused <==> !MayPublish(old(t), d, key, recipe)
      ensures outcome == Accepted ==> t == Published(old(t), d, key, recipe)
      ensures outcome != Accepted ==> t == old(t)
      ensures outcome == Threw ==> failAt.Some? && failAt.value < |recipe.canIds|
    {
      var collected := CollectEntries(t.routes, t.routeReservations, key, recipe.canIds, t.nextRecord);
      if collected.None? || d in t.registrations {
        return Refused;
      }
      var was, entries := t, collected.value;
      EntriesAreFree(t, key, recipe.canIds);
      t := t.(registrations := t.registrations[d := Registration(key.adapter, entries)]);
      var inserted, routes := InsertAll(t.routes, entries, failAt);
      if !inserted {
        AddThenRemove(was.registrations, d, t.registrations[d]);
        t := t.(routes := routes, registrations := t.registrations - {d});
        return Threw;
      }
      t := t.(routes := routes, records := t.records + NewRecords(d, t.nextRecord, |entries|),
              nextRecord := t.nextRecord + |entries|);
      return Accepted;
    }

    /** Claims the whole bus. */
    method PublishClaim(d: Device, key: BusKey, recipe: Recipe, failAt: Option<nat>) returns (outcome: Outcome)
      requires RoutesConsistent(t) && recipe.claimsBus && Int32(key.raw)
      modifies this
      ensures RoutesConsistent(t)
      ensures outcome == Refused <==> !MayPublish(old(t), d, key, recipe)
      ensures outcome == Accepted ==> t == Published(old(t), d, key, recipe)
      ensures outcome != Accepted ==> t == old(t)
      ensures outcome == Threw ==> failAt == Some(0)
    {
      if key in t.claims || d in t.registrations {
        return Refused;
      }
      var entry := RouteEntry(RouteKey(key.adapter, UniqueId(key.raw, CLAIM_ROUTE_ID)), t.nextRecord, true);
      t := t.(registrations := t.registrations[d := Registration(key.adapter, [entry])]);
      if failAt == Some(0) {
        AddThenRemove(old(t).registrations, d, t.registrations[d]);
        t := t.(registrations := t.registrations - {d});
        return Threw;
      }
      t := t.(claims := t.claims[key := entry.record],
              records := t.records[entry.record := RouteRecord(d, false)], nextRecord := t.nextRecord + 1);
      assert t == Published(old(t), d, key, recipe);
      ClaimKeepsConsistent(old(t), d, key, recipe);
      return Accepted;
    }

    /** Takes the registration out and seals its routes. */
    method DetachRegistration(d: Device) returns (retired: seq<RouteEntry>)
      requires RoutesConsistent(t)
      modifies this
      ensures RoutesConsistent(t) && Detached(old(t), t, d)
      ensures retired == if d in old(t).registrations then old(t).registrations[d].routes else []
    {
      ghost var was := t;
      if d !in t.registrations {
        NothingToDetach(t, d);
        DetachKeepsConsistent(was, t, d);
        return [];
      }
      retired := t.registrations[d].routes;
      EntriesLinked(t, d);
      var routes, claims, records := SealRoutes(t.routes, t.claims, t.records, retired);
      t := t.(registrations := t.registrations - {d}, routes := routes, claims := claims, records := records);
      DetachComplete(was, t, d);
      DetachKeepsConsistent(was, t, d);
    }

    /** Holds an index for a motor.  `failure` makes an allocation under the locks throw (then nothing
        is held), or the hook that runs after a new reservation (then it is released again). */
    method ReserveMotorIndex(motor: Device, newIdx: int, failure: Failure) returns (held: bool)
      modifies this
      ensures held <==> MayReserve(old(t), motor, newIdx) && (failure.Nothing? || !IsNewReservation(old(t), motor, newIdx))
      ensures t == if held then Reserved(old(t), motor, newIdx) else old(t)
    {
      if motor !in t.deviceKeys || !t.deviceKeys[motor].kind.Motor? || OfDevice(motor) in t.deleting {
        return false;
      }
      var key := t.deviceKeys[motor];
      var newKey := MotorKey(key.bus, newIdx);
      if newKey == key {
        return true;
      }
      if key.bus !in t.busKeys || OfBus(key.bus) in t.deleting || OfAdapter(t.busKeys[key.bus].adapter) in t.deleting
         || newKey in t.devices || newKey in t.pending {
        return false;
      }
      var newRoute := MotorRoute(t.busKeys[key.bus], newIdx);
      if newRoute in t.routes {
        return false;
      }
      if newKey in t.indexReservations {
        return t.indexReservations[newKey].motor == motor;
      }
      if newRoute in t.routeReservations {
        return t.routeReservations[newRoute] == motor;
      }
      if motor !in t.registrations || |t.registrations[motor].routes| != 1 {
        return false;
      }
      held := AddReservation(motor, newIdx, failure);
    }

    method AddReservation(motor: Device, newIdx: int, failure: Failure) returns (held: bool)
      requires MayReserve(t, motor, newIdx) && IsNewReservation(t, motor, newIdx)
      modifies this
      ensures held <==> failure.Nothing?
      ensures t == if held then Reserved(old(t), motor, newIdx) else old(t)
    {
      var bus := t.deviceKeys[motor].bus;
      var newKey, newRoute := MotorKey(bus, newIdx), MotorRoute(t.busKeys[bus], newIdx);
      var prepared := CallbackToPrepare(t, motor, newIdx);
      if failure.FirstEmplace? {
        return false;
      }
      ghost var was := t;
      t := t.(indexReservations := t.indexReservations[newKey := Reservation(motor, prepared)]);
      if failure.SecondEmplace? {
        t := t.(indexReservations := t.indexReservations - {newKey});
        assert t.indexReservations == was.indexReservations;
        return false;
      }
      t := t.(routeReservations := t.routeReservations[newRoute := motor]);
      if failure.Hook? {
        ReleaseUndoesReserve(was, motor, newIdx);
        ReleaseMotorIndexReservation(motor, newIdx);
        return false;
      }
      return true;
    }

    /** Gives up the motor's own reservation, if it holds one. */
    method ReleaseMotorIndexReservation(motor: Device, newIdx: int)
      modifies this
      ensures t == Released(old(t), motor, newIdx)
    {
      if motor !in t.deviceKeys {
        return;
      }
      var bus := t.deviceKeys[motor].bus;
      var newKey := MotorKey(bus, newIdx);
      if newKey !in t.indexReservations || t.indexReservations[newKey].motor != motor {
        return;
      }
      ReleaseRoute(motor, bus, newIdx);
      t := t.(indexReservations := t.indexReservations - {newKey});
    }

    /** Gives up the route of the index, if the bus is known and the route is the motor's. */
    method ReleaseRoute(motor: Device, bus: Bus, newIdx: int)
      modifies this
      ensures t == old(t).(routeReservations := WithoutRoute(old(t), motor, bus, newIdx))
    {
      if bus in t.busKeys {
        var newRoute := MotorRoute(t.busKeys[bus], newIdx);
        if newRoute in t.routeReservations && t.routeReservations[newRoute] == motor {
          t := t.(routeReservations := t.routeReservations - {newRoute});
        }
      }
    }

    /** Moves a motor to another index without allocating. */
    method MigrateMotorIndex(motor: Device, newIdx: int) returns (moved: bool)
      requires Valid(t)
      modifies this
      ensures Valid(t)
      ensures moved <==> MayMigrate(old(t), motor, newIdx)
      ensures t == if moved then Migrated(old(t), motor, newIdx) else old(t)
    {
      if motor !in t.deviceKeys || !t.deviceKeys[motor].kind.Motor? || OfDevice(motor) in t.deleting {
        return false;
      }
      var oldKey := t.deviceKeys[motor];
      var newKey := MotorKey(oldKey.bus, newIdx);
      if oldKey == newKey {
        return true;
      }
      if newKey in t.devices || (newKey in t.indexReservations && t.indexReservations[newKey].motor != motor) {
        return false;
      }
      if oldKey.bus !in t.busKeys || OfBus(oldKey.bus) in t.deleting
         || OfAdapter(t.busKeys[oldKey.bus].adapter) in t.deleting {
        return false;
      }
      var newRoute := MotorRoute(t.busKeys[oldKey.bus], newIdx);
      if newRoute in t.routes || (newRoute in t.routeReservations && t.routeReservations[newRoute] != motor) {
        return false;
      }
      if motor !in t.registrations || |t.registrations[motor].routes| != 1 {
        return false;
      }
      if t.registrations[motor].routes[0].key !in t.routes {
        return false;
      }
      MigrateKeepsValid(t, motor, newIdx);
      MoveMotor(motor, newIdx);
      return true;
    }

    /** Re-keys the motor's device and route, and drops the reservations that were held for it. */
    method MoveMotor(motor: Device, newIdx: int)
      requires MayMigrate(t, motor, newIdx) && t.deviceKeys[motor] != MotorKey(t.deviceKeys[motor].bus, newIdx)
      modifies this
      ensures t == Migrated(old(t), motor, newIdx)
    {
      var oldKey := t.deviceKeys[motor];
      var newKey, newRoute := MotorKey(oldKey.bus, newIdx), MotorRoute(t.busKeys[oldKey.bus], newIdx);
      var entry := t.registrations[motor].routes[0];
      var oldRoute := entry.key;
      var callback := CallbackToInstall(t, motor, newIdx);
      t := t.(routes := (t.routes - {oldRoute})[newRoute := t.routes[oldRoute]],
              devices := (t.devices - {oldKey})[newKey := motor]);
      t := t.(registrations := t.registrations[motor :=
                t.registrations[motor].(routes := [entry.(key := newRoute)])],
              deviceKeys := t.deviceKeys[motor := newKey]);
      t := t.(callbacks := MovedCallbacks(t.callbacks, oldRoute, newRoute));
      if callback.Some? {
        t := t.(installed := t.installed[motor := callback.value]);
      }
      t := t.(motorIdx := t.motorIdx[motor := newIdx % 0x1_0000],
              indexReservations := t.indexReservations - {newKey},
              routeReservations := t.routeReservations - {newRoute});
    }
  }

  // ---------------------------------------------------------------- publishing

  lemma {:induction false} WithRoutesKeeps(routes: map<RouteKey, nat>, entries: seq<RouteEntry>)
    requires forall i | 0 <= i < |entries| :: entries[i].key !in routes
    ensures forall k | k in routes :: WithRoutes(routes, entries)[k] == routes[k]
    decreases |entries|
  {
    if entries != [] {
      WithRoutesKeeps(routes, entries[..|entries| - 1]);
    }
  }

  // ---------------------------------------------------------------- detaching

  function ClaimedBus(e: RouteEntry): BusKey { BusKey(e.key.adapter, RawOf(e.key.uniqueId)) }

  ghost predicate HasRoute(entries: seq<RouteEntry>, k: RouteKey) {
    exists i :: 0 <= i < |entries| && !entries[i].claim && entries[i].key == k
  }

  ghost predicate HasClaim(entries: seq<RouteEntry>, bus: BusKey) {
    exists i :: 0 <= i < |entries| && entries[i].claim && ClaimedBus(entries[i]) == bus
  }

  ghost predicate RoutesWithout(was: map<RouteKey, nat>, now: map<RouteKey, nat>, entries: seq<RouteEntry>) {
    && (forall k :: k in now <==> k in was && !HasRoute(entries, k))
    && (forall k | k in now :: now[k] == was[k])
  }

  ghost predicate ClaimsWithout(was: map<BusKey, nat>, now: map<BusKey, nat>, entries: seq<RouteEntry>) {
    && (forall b :: b in now <==> b in was && !HasClaim(entries, b))
    && (forall b | b in now :: now[b] == was[b])
  }

  ghost predicate Sealed(was: map<nat, RouteRecord>, now: map<nat, RouteRecord>, entries: seq<RouteEntry>) {
    && now.Keys == was.Keys
    && (forall r | r in was :: now[r] == if OwnsRecord(entries, r) then was[r].(retiring := true) else was[r])
  }

  lemma TakeRoute(was: map<RouteKey, nat>, now: map<RouteKey, nat>, wasClaims: map<BusKey, nat>, claims: map<BusKey, nat>,
                  entries: seq<RouteEntry>, e: RouteEntry)
    requires RoutesWithout(was, now, entries) && !e.claim && e.key in was && was[e.key] == e.record
    requires ClaimsWithout(wasClaims, claims, entries)
    ensures RoutesWithout(was, if e.key in now && now[e.key] == e.record then now - {e.key} else now, entries + [e])
    ensures ClaimsWithout(wasClaims, claims, entries + [e])
  {
    forall k ensures HasRoute(entries + [e], k) <==> HasRoute(entries, k) || k == e.key { OneMoreRoute(entries, e, k); }
    forall b ensures HasClaim(entries + [e], b) <==> HasClaim(entries, b) { OneMoreClaim(entries, e, b); }
  }

  lemma TakeClaim(wasRoutes: map<RouteKey, nat>, routes: map<RouteKey, nat>, was: map<BusKey, nat>, now: map<BusKey, nat>,
                  entries: seq<RouteEntry>, e: RouteEntry)
    requires ClaimsWithout(was, now, entries) && e.claim && ClaimedBus(e) in was && was[ClaimedBus(e)] == e.record
    requires RoutesWithout(wasRoutes, routes, entries)
    ensures var b := ClaimedBus(e);
            ClaimsWithout(was, if b in now && now[b] == e.record then now - {b} else now, entries + [e])
    ensures RoutesWithout(wasRoutes, routes, entries + [e])
  {
    forall b ensures HasClaim(entries + [e], b) <==> HasClaim(entries, b) || b == ClaimedBus(e) { OneMoreClaim(entries, e, b); }
    forall k ensures HasRoute(entries + [e], k) <==> HasRoute(entries, k) { OneMoreRoute(entries, e, k); }
  }

  lemma OneMoreRoute(entries: seq<RouteEntry>, e: RouteEntry, k: RouteKey)
    ensures HasRoute(entries + [e], k) <==> HasRoute(entries, k) || (!e.claim && k == e.key)
  {
    if i :| 0 <= i < |entries| && !entries[i].claim && entries[i].key == k { assert (entries + [e])[i].key == k; }
    assert (entries + [e])[|entries|] == e;
  }

  lemma OneMoreClaim(entries: seq<RouteEntry>, e: RouteEntry, b: BusKey)
    ensures HasClaim(entries + [e], b) <==> HasClaim(entries, b) || (e.claim && b == ClaimedBus(e))
  {
    if i :| 0 <= i < |entries| && entries[i].claim && ClaimedBus(entries[i]) == b { assert (entries + [e])[i] == entries[i]; }
    assert (entries + [e])[|entries|] == e;
  }

  lemma SealOne(was: map<nat, RouteRecord>, now: map<nat, RouteRecord>, entries: seq<RouteEntry>, e: RouteEntry)
    requires Sealed(was, now, entries) && e.record in was
    ensures Sealed(was, now[e.record := now[e.record].(retiring := true)], entries + [e])
  {
    forall r ensures OwnsRecord(entries + [e], r) <==> OwnsRecord(entries, r) || r == e.record {
      if i :| 0 <= i < |entries| && entries[i].record == r { assert (entries + [e])[i] == entries[i]; }
      assert (entries + [e])[|entries|] == e;
    }
  }

  lemma EntriesLinked(t: Tables, d: Device)
    requires RoutesConsistent(t) && d in t.registrations
    ensures forall i | 0 <= i < |t.registrations[d].routes| :: Linked(t.routes, t.claims, t.records, t.registrations[d].routes[i])
  {
    assert RegistrationOk(t, d);
    forall i | 0 <= i < |t.registrations[d].routes|
      ensures Linked(t.routes, t.claims, t.records, t.registrations[d].routes[i])
    {
      assert EntryOk(t, d, t.registrations[d].routes[i]);
    }
  }

  /** In consistent tables a device's entries are exactly the routes that lead to its records. */
  lemma EntriesAreOwned(t: Tables, d: Device, k: RouteKey)
    requires RoutesConsistent(t) && d in t.registrations && k in t.routes
    ensures t.routes[k] in t.records
    ensures t.records[t.routes[k]].device == d <==> HasRoute(t.registrations[d].routes, k)
  {
    var all := t.registrations[d].routes;
    assert Owned(t, t.routes[k], k, false) && RegistrationOk(t, d);
    if t.records[t.routes[k]].device == d {
      var j :| 0 <= j < |all| && all[j] == RouteEntry(k, t.routes[k], false);
    }
    if j :| 0 <= j < |all| && !all[j].claim && all[j].key == k {
      assert EntryOk(t, d, all[j]);
    }
  }

  lemma ClaimsAreOwned(t: Tables, d: Device, b: BusKey)
    requires RoutesConsistent(t) && d in t.registrations && b in t.claims
    ensures t.claims[b] in t.records
    ensures t.records[t.claims[b]].device == d <==> HasClaim(t.registrations[d].routes, b)
  {
    var all := t.registrations[d].routes;
    assert ClaimOwned(t, b) && RegistrationOk(t, d);
    var key :| Owned(t, t.claims[b], key, true) && BusKey(key.adapter, RawOf(key.uniqueId)) == b;
    if t.records[t.claims[b]].device == d {
      var j :| 0 <= j < |all| && all[j] == RouteEntry(key, t.claims[b], true);
    }
    if j :| 0 <= j < |all| && all[j].claim && ClaimedBus(all[j]) == b {
      assert EntryOk(t, d, all[j]);
    }
  }

  lemma DetachComplete(was: Tables, t: Tables, d: Device)
    requires RoutesConsistent(was) && d in was.registrations
    requires t == was.(registrations := was.registrations - {d}, routes := t.routes, claims := t.claims, records := t.records)
    requires var all := was.registrations[d].routes;
             && RoutesWithout(was.routes, t.routes, all) && ClaimsWithout(was.claims, t.claims, all)
             && Sealed(was.records, t.records, all)
    ensures Detached(was, t, d)
  {
    var all := was.registrations[d].routes;
    assert RegistrationOk(was, d);
    forall k | k in was.routes
      ensures was.routes[k] in was.records && (was.records[was.routes[k]].device == d <==> HasRoute(all, k))
    { EntriesAreOwned(was, d, k); }
    forall b | b in was.claims
      ensures was.claims[b] in was.records && (was.records[was.claims[b]].device == d <==> HasClaim(all, b))
    { ClaimsAreOwned(was, d, b); }
    forall r | r in was.records && OwnsRecord(all, r) ensures was.records[r].device == d {
      var j :| 0 <= j < |all| && all[j].record == r;
      assert EntryOk(was, d, all[j]);
    }
  }

  /** A device without a registration owns nothing. */
  lemma NothingToDetach(t: Tables, d: Device)
    requires RoutesConsistent(t) && d !in t.registrations
    ensures Detached(t, t, d)
  {
    assert t.registrations - {d} == t.registrations;
    forall k | k in t.routes ensures t.routes[k] in t.records && t.records[t.routes[k]].device != d {
      assert Owned(t, t.routes[k], k, false);
    }
    forall k | k in t.claims ensures t.claims[k] in t.records && t.records[t.claims[k]].device != d {
      assert ClaimOwned(t, k);
    }
  }

  // ---------------------------------------------------------------- reservation

  /** Exactly when an index may be held for a motor: it is its own, it is already held for it, or it is
      free in every table, including the devices under construction. */
  predicate MayReserve(t: Tables, motor: Device, newIdx: int) {
    && motor in t.deviceKeys && t.deviceKeys[motor].kind.Motor? && OfDevice(motor) !in t.deleting
    && var key := t.deviceKeys[motor];
       var newKey := MotorKey(key.bus, newIdx);
       || newKey == key
       || (&& key.bus in t.busKeys && OfBus(key.bus) !in t.deleting
           && OfAdapter(t.busKeys[key.bus].adapter) !in t.deleting
           && newKey !in t.devices && newKey !in t.pending
           && var newRoute := MotorRoute(t.busKeys[key.bus], newIdx);
              && newRoute !in t.routes
              && if newKey in t.indexReservations then t.indexReservations[newKey].motor == motor
                 else if newRoute in t.routeReservations then t.routeReservations[newRoute] == motor
                 else motor in t.registrations && |t.registrations[motor].routes| == 1)
  }

  predicate IsNewReservation(t: Tables, motor: Device, newIdx: int)
    requires MayReserve(t, motor, newIdx)
  {
    var key := t.deviceKeys[motor];
    var newKey := MotorKey(key.bus, newIdx);
    newKey != key && newKey !in t.indexReservations && MotorRoute(t.busKeys[key.bus], newIdx) !in t.routeReservations
  }

  function CallbackToPrepare(t: Tables, motor: Device, newIdx: int): Option<Callback>
    requires MayReserve(t, motor, newIdx) && IsNewReservation(t, motor, newIdx)
  {
    var newRoute := MotorRoute(t.busKeys[t.deviceKeys[motor].bus], newIdx);
    var oldRoute := t.registrations[motor].routes[0].key;
    if newRoute in t.callbacks then Some(t.callbacks[newRoute])
    else if oldRoute in t.callbacks then Some(t.callbacks[oldRoute]) else None
  }

  function Reserved(t: Tables, motor: Device, newIdx: int): Tables
    requires MayReserve(t, motor, newIdx)
  {
    if !IsNewReservation(t, motor, newIdx) then t
    else
      var bus := t.deviceKeys[motor].bus;
      t.(indexReservations := t.indexReservations[MotorKey(bus, newIdx) :=
                                Reservation(motor, CallbackToPrepare(t, motor, newIdx))],
         routeReservations := t.routeReservations[MotorRoute(t.busKeys[bus], newIdx) := motor])
  }

  predicate HoldsIndex(t: Tables, motor: Device, newIdx: int) {
    && motor in t.deviceKeys
    && var newKey := MotorKey(t.deviceKeys[motor].bus, newIdx);
       newKey in t.indexReservations && t.indexReservations[newKey].motor == motor
  }

  function WithoutRoute(t: Tables, motor: Device, bus: Bus, newIdx: int): map<RouteKey, Device> {
    if bus !in t.busKeys then t.routeReservations
    else
      var newRoute := MotorRoute(t.busKeys[bus], newIdx);
      if newRoute in t.routeReservations && t.routeReservations[newRoute] == motor
      then t.routeReservations - {newRoute} else t.routeReservations
  }

  function Released(t: Tables, motor: Device, newIdx: int): (u: Tables)
    ensures u == t.(indexReservations := u.indexReservations, routeReservations := u.routeReservations)
  {
    if !HoldsIndex(t, motor, newIdx) then t
    else
      var bus := t.deviceKeys[motor].bus;
      t.(indexReservations := t.indexReservations - {MotorKey(bus, newIdx)},
         routeReservations := WithoutRoute(t, motor, bus, newIdx))
  }

  /** Releasing a reservation that was newly made restores the tables. */
  lemma ReleaseUndoesReserve(t: Tables, motor: Device, newIdx: int)
    requires MayReserve(t, motor, newIdx) && IsNewReservation(t, motor, newIdx)
    ensures Released(Reserved(t, motor, newIdx), motor, newIdx) == t
  {
    var bus := t.deviceKeys[motor].bus;
    AddThenRemove(t.indexReservations, MotorKey(bus, newIdx), Reservation(motor, CallbackToPrepare(t, motor, newIdx)));
    AddThenRemove(t.routeReservations, MotorRoute(t.busKeys[bus], newIdx), motor);
  }

  lemma AddThenRemove<K, V>(m: map<K, V>, k: K, v: V)
    requires k !in m
    ensures m[k := v] - {k} == m
  {
    assert (m[k := v] - {k}).Keys == m.Keys;
  }

  /** A motor that reserved an index can move to it at once. */
  lemma ReservedMayMigrate(t: Tables, motor: Device, newIdx: int)
    requires Valid(t) && MayReserve(t, motor, newIdx) && IsNewReservation(t, motor, newIdx)
    ensures MayMigrate(Reserved(t, motor, newIdx), motor, newIdx)
    ensures CallbackToInstall(Reserved(t, motor, newIdx), motor, newIdx) == CallbackToPrepare(t, motor, newIdx)
  {
    assert MotorOk(t, motor);
    assert RegistrationOk(t, motor) && EntryOk(t, motor, t.registrations[motor].routes[0]);
  }

  // ---------------------------------------------------------------- migration

  /** Exactly when a migration succeeds; migrating to the current index always does. */
  predicate MayMigrate(t: Tables, motor: Device, newIdx: int) {
    && motor in t.deviceKeys && t.deviceKeys[motor].kind.Motor? && OfDevice(motor) !in t.deleting
    && var oldKey := t.deviceKeys[motor];
       var newKey := MotorKey(oldKey.bus, newIdx);
       || oldKey == newKey
       || (&& newKey !in t.devices
           && (newKey in t.indexReservations ==> t.indexReservations[newKey].motor == motor)
           && oldKey.bus in t.busKeys && OfBus(oldKey.bus) !in t.deleting
           && OfAdapter(t.busKeys[oldKey.bus].adapter) !in t.deleting
           && var newRoute := MotorRoute(t.busKeys[oldKey.bus], newIdx);
              && newRoute !in t.routes
              && (newRoute in t.routeReservations ==> t.routeReservations[newRoute] == motor)
              && motor in t.registrations && |t.registrations[motor].routes| == 1
              && t.registrations[motor].routes[0].key in t.routes)
  }

  /** The callback a migrated motor gets: the one reserved for it, else the target's, else its own. */
  function CallbackToInstall(t: Tables, motor: Device, newIdx: int): Option<Callback>
    requires motor in t.deviceKeys && t.deviceKeys[motor].bus in t.busKeys
    requires motor in t.registrations && |t.registrations[motor].routes| == 1
  {
    var bus := t.deviceKeys[motor].bus;
    var newKey, newRoute := MotorKey(bus, newIdx), MotorRoute(t.busKeys[bus], newIdx);
    var oldRoute := t.registrations[motor].routes[0].key;
    if newKey in t.indexReservations && t.indexReservations[newKey].motor == motor then t.indexReservations[newKey].callback
    else if newRoute in t.callbacks then Some(t.callbacks[newRoute])
    else if oldRoute in t.callbacks then Some(t.callbacks[oldRoute]) else None
  }

  function MovedCallbacks(callbacks: map<RouteKey, Callback>, oldRoute: RouteKey, newRoute: RouteKey): map<RouteKey, Callback> {
    if newRoute in callbacks then callbacks - {oldRoute}
    else if oldRoute in callbacks then (callbacks - {oldRoute})[newRoute := callbacks[oldRoute]]
    else callbacks
  }

  function Migrated(t: Tables, motor: Device, newIdx: int): Tables
    requires MayMigrate(t, motor, newIdx)
  {
    var oldKey := t.deviceKeys[motor];
    var newKey := MotorKey(oldKey.bus, newIdx);
    if oldKey == newKey then t
    else
      var newRoute := MotorRoute(t.busKeys[oldKey.bus], newIdx);
      var entry := t.registrations[motor].routes[0];
      var callback := CallbackToInstall(t, motor, newIdx);
      t.(devices := (t.devices - {oldKey})[newKey := motor], deviceKeys := t.deviceKeys[motor := newKey],
         routes := (t.routes - {entry.key})[newRoute := t.routes[entry.key]],
         registrations := t.registrations[motor := t.registrations[motor].(routes := [entry.(key := newRoute)])],
         callbacks := MovedCallbacks(t.callbacks, entry.key, newRoute),
         installed := if callback.Some? then t.installed[motor := callback.value] else t.installed,
         motorIdx := t.motorIdx[motor := newIdx % 0x1_0000],
         indexReservations := t.indexReservations - {newKey},
         routeReservations := t.routeReservations - {newRoute})
  }

  lemma InverseMoves(devices: map<DeviceKey, Device>, keys: map<Device, DeviceKey>, d: Device, k: DeviceKey)
    requires Inverse(devices, keys) && d in keys && k !in devices
    ensures Inverse((devices - {keys[d]})[k := d], keys[d := k])
  {
    forall x | x in keys && x != d ensures keys[x] != keys[d] && keys[x] != k { assert devices[keys[x]] == x; }
  }

  lemma MigrateRegistrations(t: Tables, motor: Device, newIdx: int)
    requires Valid(t) && MayMigrate(t, motor, newIdx)
    ensures RegistrationsOk(Migrated(t, motor, newIdx))
  {
    var u := Migrated(t, motor, newIdx);
    if u != t {
      assert MotorOk(t, motor);
      assert RegistrationOk(t, motor) && EntryOk(t, motor, t.registrations[motor].routes[0]);
      forall x | x in u.registrations ensures RegistrationOk(u, x) {
        assert RegistrationOk(t, x);
        if x != motor {
          forall i | 0 <= i < |t.registrations[x].routes| ensures EntryOk(u, x, t.registrations[x].routes[i]) {
            assert EntryOk(t, x, t.registrations[x].routes[i]);
          }
        }
      }
    }
  }

  lemma MigrateOwners(t: Tables, motor: Device, newIdx: int)
    requires Valid(t) && MayMigrate(t, motor, newIdx)
    ensures var u := Migrated(t, motor, newIdx); RoutesOwned(u) && ClaimsOwned(u)
  {
    var u := Migrated(t, motor, newIdx);
    if t.deviceKeys[motor] != MotorKey(t.deviceKeys[motor].bus, newIdx) {
      assert MotorOk(t, motor);
      assert RegistrationOk(t, motor) && EntryOk(t, motor, t.registrations[motor].routes[0]);
      var entry := t.registrations[motor].routes[0];
      var newRoute := MotorRoute(t.busKeys[t.deviceKeys[motor].bus], newIdx);
      forall k | k in u.routes ensures Owned(u, u.routes[k], k, false) {
        if k == newRoute {
          assert u.registrations[motor].routes[0] == RouteEntry(newRoute, u.routes[k], false);
        } else {
          assert Owned(t, t.routes[k], k, false);
        }
      }
      ClaimsKept(t, u);
    }
  }

  /** A migration keeps every invariant of the tables. */
  lemma MigrateKeepsValid(t: Tables, motor: Device, newIdx: int)
    requires Valid(t) && MayMigrate(t, motor, newIdx)
    ensures Valid(Migrated(t, motor, newIdx))
  {
    var u := Migrated(t, motor, newIdx);
    if t.deviceKeys[motor] != MotorKey(t.deviceKeys[motor].bus, newIdx) {
      MigrateRegistrations(t, motor, newIdx);
      MigrateOwners(t, motor, newIdx);
      InverseMoves(t.devices, t.deviceKeys, motor, MotorKey(t.deviceKeys[motor].bus, newIdx));
      assert MotorOk(t, motor);
      forall d | d in u.deviceKeys ensures MotorOk(u, d) { assert MotorOk(t, d); }
    }
  }

  /** What a migration moves, and that it moves nothing else: this motor's device key changes, every
      other device keeps its key, and the table of devices does not grow. */
  lemma MigrationMovesOnlyThisDevice(t: Tables, motor: Device, newIdx: int)
    requires Valid(t) && MayMigrate(t, motor, newIdx)
    ensures var u := Migrated(t, motor, newIdx);
            && u.deviceKeys.Keys == t.deviceKeys.Keys && |u.devices| == |t.devices|
            && u.deviceKeys[motor] == MotorKey(t.deviceKeys[motor].bus, newIdx)
            && u.devices[u.deviceKeys[motor]] == motor
            && (forall d | d in t.deviceKeys && d != motor :: u.deviceKeys[d] == t.deviceKeys[d])
            && (forall k | k in t.devices && t.devices[k] != motor :: k in u.devices && u.devices[k] == t.devices[k])
  {
    assert MotorOk(t, motor);
    var oldKey := t.deviceKeys[motor];
    if oldKey != MotorKey(oldKey.bus, newIdx) {
      RekeyKeepsSize(t.devices, oldKey, MotorKey(oldKey.bus, newIdx));
    }
  }

  /** Likewise the motor's one route moves to the id of the new index, and no other route, record or
      claim is touched. */
  lemma MigrationMovesOnlyThisRoute(t: Tables, motor: Device, newIdx: int)
    requires Valid(t) && MayMigrate(t, motor, newIdx) && motor in t.registrations
    ensures t.deviceKeys[motor].bus in t.busKeys
    ensures var u := Migrated(t, motor, newIdx);
            var newRoute := MotorRoute(t.busKeys[t.deviceKeys[motor].bus], newIdx);
            && u.records == t.records && u.claims == t.claims && |u.routes| == |t.routes|
            && newRoute in u.routes && u.routes[newRoute] in t.records
            && t.records[u.routes[newRoute]] == RouteRecord(motor, false)
            && (forall k | k in t.routes && t.routes[k] != u.routes[newRoute] :: k in u.routes && u.routes[k] == t.routes[k])
            && (forall k | k in u.routes && k != newRoute :: k in t.routes && t.routes[k] != u.routes[newRoute])
  {
    var bus := t.deviceKeys[motor].bus;
    assert MotorOk(t, motor);
    assert RegistrationOk(t, motor) && EntryOk(t, motor, t.registrations[motor].routes[0]);
    var oldRoute := t.registrations[motor].routes[0].key;
    var newRoute := MotorRoute(t.busKeys[bus], newIdx);
    forall k | k in t.routes && t.routes[k] == t.routes[oldRoute] ensures k == oldRoute {
      assert Owned(t, t.routes[k], k, false);
    }
    if t.deviceKeys[motor] != MotorKey(bus, newIdx) {
      RekeyKeepsSize(t.routes, oldRoute, newRoute);
    }
  }

  lemma RekeyKeepsSize<K, V>(routes: map<K, V>, from: K, to: K)
    requires from in routes && to !in routes
    ensures |(routes - {from})[to := routes[from]]| == |routes|
  {
    assert routes.Keys == (routes - {from}).Keys + {from};
    assert (routes - {from})[to := routes[from]].Keys == (routes - {from}).Keys + {to};
  }

  /** The status callback follows the motor: a callback waiting at the new id wins over the motor's own,
      none is left at the old id, and nobody else's changes. */
  lemma CallbackFollowsTheMotor(t: Tables, motor: Device, newIdx: int)
    requires Valid(t) && MayMigrate(t, motor, newIdx) && motor in t.registrations
    requires t.deviceKeys[motor] != MotorKey(t.deviceKeys[motor].bus, newIdx)
    ensures t.deviceKeys[motor].bus in t.busKeys && |t.registrations[motor].routes| == 1
    ensures var u := Migrated(t, motor, newIdx);
            var oldRoute, newRoute := t.registrations[motor].routes[0].key, MotorRoute(t.busKeys[t.deviceKeys[motor].bus], newIdx);
            && oldRoute !in u.callbacks && |u.callbacks| <= |t.callbacks|
            && (newRoute in u.callbacks <==> newRoute in t.callbacks || oldRoute in t.callbacks)
            && (newRoute in t.callbacks ==> u.callbacks[newRoute] == t.callbacks[newRoute])
            && (newRoute !in t.callbacks && oldRoute in t.callbacks ==> u.callbacks[newRoute] == t.callbacks[oldRoute])
            && (forall k | k != oldRoute && k != newRoute :: k in u.callbacks <==> k in t.callbacks)
            && (forall k | k in t.callbacks && k != oldRoute && k != newRoute :: u.callbacks[k] == t.callbacks[k])
  {
    assert MotorOk(t, motor);
    assert RegistrationOk(t, motor) && EntryOk(t, motor, t.registrations[motor].routes[0]);
    var oldRoute, newRoute := t.registrations[motor].routes[0].key, MotorRoute(t.busKeys[t.deviceKeys[motor].bus], newIdx);
    assert oldRoute != newRoute;
    if oldRoute in t.callbacks {
      assert t.callbacks.Keys == (t.callbacks - {oldRoute}).Keys + {oldRoute};
      if newRoute !in t.callbacks { RekeyKeepsSize(t.callbacks, oldRoute, newRoute); }
    }
  }

  // ---------------------------------------------------------------- what the motor itself knows

  /** A moved motor carries its new index; every other motor keeps its own. */
  lemma MigratedMotorKnowsItsIndex(t: Tables, motor: Device, newIdx: int)
    requires MayMigrate(t, motor, newIdx) && forall d | d in t.deviceKeys :: Identified(t, d)
    ensures var u := Migrated(t, motor, newIdx);
            && (forall d | d in u.deviceKeys :: Identified(u, d))
            && motor in u.motorIdx && u.motorIdx[motor] == Index16(newIdx)
            && (forall d | d != motor :: (d in u.motorIdx <==> d in t.motorIdx) && (d in t.motorIdx ==> u.motorIdx[d] == t.motorIdx[d]))
  {
    var u := Migrated(t, motor, newIdx);
    assert Identified(t, motor);
    forall d | d in u.deviceKeys ensures Identified(u, d) { assert Identified(t, d); }
  }

  /** The status callback in effect after a move: the one reserved with the index, if it was reserved
      with one; else, unless it was reserved without one, the one now stored under the new id; else the
      old one.  No other motor is affected. */
  lemma InstalledFollows(t: Tables, motor: Device, newIdx: int)
    requires Valid(t) && MayMigrate(t, motor, newIdx) && motor in t.registrations
    requires t.deviceKeys[motor] != MotorKey(t.deviceKeys[motor].bus, newIdx)
    ensures t.deviceKeys[motor].bus in t.busKeys
    ensures var u := Migrated(t, motor, newIdx);
            var newKey := MotorKey(t.deviceKeys[motor].bus, newIdx);
            var newRoute := MotorRoute(t.busKeys[t.deviceKeys[motor].bus], newIdx);
            && (forall d | d != motor ::
                  (d in u.installed <==> d in t.installed) && (d in t.installed ==> u.installed[d] == t.installed[d]))
            && (newKey in t.indexReservations && t.indexReservations[newKey].callback.Some? ==>
                  motor in u.installed && u.installed[motor] == t.indexReservations[newKey].callback.value)
            && (newKey in t.indexReservations && t.indexReservations[newKey].callback.None? ==> u.installed == t.installed)
            && (newKey !in t.indexReservations && newRoute in u.callbacks ==>
                  motor in u.installed && u.installed[motor] == u.callbacks[newRoute])
            && (newKey !in t.indexReservations && newRoute !in u.callbacks ==> u.installed == t.installed)
  {
    CallbackFollowsTheMotor(t, motor, newIdx);
  }

  /** Reserving and then moving installs what is stored under the new id, as moving at once would. */
  lemma ReserveThenMove(t: Tables, motor: Device, newIdx: int)
    requires Valid(t) && MayReserve(t, motor, newIdx) && IsNewReservation(t, motor, newIdx) && motor in t.registrations
    ensures MayMigrate(t, motor, newIdx) && MayMigrate(Reserved(t, motor, newIdx), motor, newIdx)
    ensures Migrated(Reserved(t, motor, newIdx), motor, newIdx) == Migrated(t, motor, newIdx)
    ensures t.deviceKeys[motor].bus in t.busKeys
    ensures var u := Migrated(t, motor, newIdx);
            var newRoute := MotorRoute(t.busKeys[t.deviceKeys[motor].bus], newIdx);
            if newRoute in u.callbacks then motor in u.installed && u.installed[motor] == u.callbacks[newRoute]
            else u.installed == t.installed
  {
    ReservedMayMigrate(t, motor, newIdx);
    InstalledFollows(t, motor, newIdx);
    var bus := t.deviceKeys[motor].bus;
    AddThenRemove(t.indexReservations, MotorKey(bus, newIdx), Reservation(motor, CallbackToPrepare(t, motor, newIdx)));
    AddThenRemove(t.routeReservations, MotorRoute(t.busKeys[bus], newIdx), motor);
    assert t.indexReservations - {MotorKey(bus, newIdx)} == t.indexReservations;
    assert t.routeReservations - {MotorRoute(t.busKeys[bus], newIdx)} == t.routeReservations;
  }

  /** An index that nobody has, holds or is creating can be reserved by any registered motor of a live
      bus. */
  lemma FreeIndexMayBeReserved(t: Tables, motor: Device, newIdx: int)
    requires Valid(t) && motor in t.deviceKeys && motor in t.registrations && t.deviceKeys[motor].kind.Motor?
    requires OfDevice(motor) !in t.deleting && t.deviceKeys[motor].bus in t.busKeys
    requires var bus := t.deviceKeys[motor].bus;
             && OfBus(bus) !in t.deleting && OfAdapter(t.busKeys[bus].adapter) !in t.deleting
             && MotorKey(bus, newIdx) !in t.devices && MotorKey(bus, newIdx) !in t.pending
             && MotorKey(bus, newIdx) !in t.indexReservations
             && MotorRoute(t.busKeys[bus], newIdx) !in t.routes && MotorRoute(t.busKeys[bus], newIdx) !in t.routeReservations
    ensures MayReserve(t, motor, newIdx) && IsNewReservation(t, motor, newIdx)
    ensures HoldsIndex(Reserved(t, motor, newIdx), motor, newIdx)
    ensures MotorRoute(t.busKeys[t.deviceKeys[motor].bus], newIdx) in Reserved(t, motor, newIdx).routeReservations
    ensures Reserved(t, motor, newIdx).routeReservations[MotorRoute(t.busKeys[t.deviceKeys[motor].bus], newIdx)] == motor
  {
    assert MotorOk(t, motor);
    assert t.devices[t.deviceKeys[motor]] == motor;
  }
}
