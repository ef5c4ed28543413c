/** The driver manager's receive routes: who owns which (adapter, unique id), how a registration is
    published all-or-nothing, how it is detached, and when a device key may change
    (src/driver_manager_impl.h:42-51, 132-183, 481-586; src/driver_manager_dispatch.cc:362-604).
    Each public call runs under the manager's locks and is one method.
 */
module RouteTables {

  const WORD: nat := 0x1_0000_0000
  const CLAIM_ROUTE_ID: nat := WORD - 1

  type Adapter = nat
  type Bus = nat
  type Device = nat
  type Callback = nat

  datatype Option<+T> = None | Some(value: T)

  datatype Kind = Motor | Battery | Imu | Pms | GloveEncoder | GloveCalibrator | External

  datatype BusKey = BusKey(adapter: Adapter, raw: int)

  datatype DeviceKey = DeviceKey(bus: Bus, kind: Kind, idx: int, typeToken: nat, configToken: nat)

  datatype RouteKey = RouteKey(adapter: Adapter, uniqueId: nat)

  datatype RouteRecord = RouteRecord(device: Device, retiring: bool)

  datatype RouteEntry = RouteEntry(key: RouteKey, record: nat, claim: bool)

  datatype Registration = Registration(adapter: Adapter, routes: seq<RouteEntry>)

  datatype Reservation = Reservation(motor: Device, callback: Option<Callback>)

  datatype Recipe = Recipe(canIds: seq<nat>, claimsBus: bool)

  datatype Object = OfAdapter(a: Adapter) | OfBus(b: Bus) | OfDevice(d: Device)

  /** `records` are the live route records by identity, the next one being `nextRecord`. */
  datatype Tables = Tables(
    busKeys: map<Bus, BusKey>, devices: map<DeviceKey, Device>, deviceKeys: map<Device, DeviceKey>,
    pending: set<DeviceKey>, deleting: set<Object>,
    registrations: map<Device, Registration>, routes: map<RouteKey, nat>, claims: map<BusKey, nat>,
    records: map<nat, RouteRecord>, nextRecord: nat,
    indexReservations: map<DeviceKey, Reservation>, routeReservations: map<RouteKey, Device>,
    callbacks: map<RouteKey, Callback>, motorIdx: map<Device, int>, installed: map<Device, Callback>)

  // ---------------------------------------------------------------- identifiers

  predicate Int32(x: int) { -0x8000_0000 <= x < 0x8000_0000 }

  /** static_cast<uint32_t> */
  function Unsigned(x: int): nat { x % WORD }

  /** static_cast<int> of a 32-bit word */
  function Signed(w: nat): int { if w < WORD / 2 then w else w - WORD }

  function UniqueId(raw: int, canId: nat): nat { Unsigned(raw) * WORD + canId }

  function RawOf(uniqueId: nat): int { Signed(uniqueId / WORD % WORD) }

  /** Distinct (bus index, CAN id) pairs have distinct ids, and the bus index can be read back. */
  lemma UniqueIdIsInjective(raw: int, canId: nat, raw': int, canId': nat)
    requires Int32(raw) && Int32(raw') && canId < WORD && canId' < WORD
    ensures RawOf(UniqueId(raw, canId)) == raw
    ensures UniqueId(raw, canId) == UniqueId(raw', canId') ==> raw == raw' && canId == canId'
  {
    SplitWord(Unsigned(raw), canId);
    SplitWord(Unsigned(raw'), canId');
  }

  lemma SplitWord(high: nat, low: nat)
    requires high < WORD && low < WORD
    ensures (high * WORD + low) / WORD % WORD == high && (high * WORD + low) % WORD == low
  {
    assert (high * WORD + low) / WORD == high;
  }

  function MotorKey(bus: Bus, idx: int): DeviceKey { DeviceKey(bus, Motor, idx, 0, 0) }

  function MotorRoute(bus: BusKey, idx: int): RouteKey {
    RouteKey(bus.adapter, UniqueId(bus.raw, Unsigned(idx)))
  }

  // ---------------------------------------------------------------- consistency

  ghost predicate EntryOk(t: Tables, d: Device, e: RouteEntry)
    requires d in t.registrations
  {
    && e.record in t.records && t.records[e.record] == RouteRecord(d, false)
    && e.key.adapter == t.registrations[d].adapter
    && if e.claim then
         var k := BusKey(e.key.adapter, RawOf(e.key.uniqueId));
         k in t.claims && t.claims[k] == e.record
       else e.key in t.routes && t.routes[e.key] == e.record
  }

  ghost predicate RegistrationOk(t: Tables, d: Device)
    requires d in t.registrations
  {
    var routes := t.registrations[d].routes;
    && (forall i | 0 <= i < |routes| :: EntryOk(t, d, routes[i]))
    && (forall i, j | 0 <= i < j < |routes| :: routes[i].record != routes[j].record)
  }

  /** The record published under an exact id, or claiming a bus, is an entry of its own device's
      registration. */
  ghost predicate Owned(t: Tables, record: nat, key: RouteKey, claim: bool) {
    && record in t.records && t.records[record].device in t.registrations
    && RouteEntry(key, record, claim) in t.registrations[t.records[record].device].routes
  }

  ghost predicate ClaimOwned(t: Tables, k: BusKey)
    requires k in t.claims
  {
    exists key :: Owned(t, t.claims[k], key, true) && BusKey(key.adapter, RawOf(key.uniqueId)) == k
  }

  ghost predicate RegistrationsOk(t: Tables) {
    forall d | d in t.registrations :: RegistrationOk(t, d)
  }

  ghost predicate RoutesOwned(t: Tables) {
    forall k | k in t.routes :: Owned(t, t.routes[k], k, false)
  }

  ghost predicate ClaimsOwned(t: Tables) {
    forall k | k in t.claims :: ClaimOwned(t, k)
  }

  ghost predicate RoutesConsistent(t: Tables) {
    && RegistrationsOk(t) && RoutesOwned(t) && ClaimsOwned(t)
    && (forall r | r in t.records :: r < t.nextRecord)
    && (forall k | k in t.routeReservations :: k !in t.routes)
  }

  ghost predicate Inverse(devices: map<DeviceKey, Device>, keys: map<Device, DeviceKey>) {
    && (forall k | k in devices :: devices[k] in keys && keys[devices[k]] == k)
    && (forall d | d in keys :: keys[d] in devices && devices[keys[d]] == d)
  }

  /** A registered motor has one exact route, that of its own index. */
  ghost predicate MotorOk(t: Tables, d: Device)
    requires d in t.deviceKeys
  {
    t.deviceKeys[d].kind.Motor? && d in t.registrations ==>
      && t.deviceKeys[d].bus in t.busKeys
      && t.deviceKeys[d] == MotorKey(t.deviceKeys[d].bus, t.deviceKeys[d].idx)
      && |t.registrations[d].routes| == 1 && !t.registrations[d].routes[0].claim
      && t.registrations[d].routes[0].key == MotorRoute(t.busKeys[t.deviceKeys[d].bus], t.deviceKeys[d].idx)
  }

  /** The 16-bit index a motor object carries. */
  function Index16(idx: int): nat { idx % 0x1_0000 }

  /** A motor identifies itself by the index under which the tables know it. */
  ghost predicate Identified(t: Tables, d: Device)
    requires d in t.deviceKeys
  {
    t.deviceKeys[d].kind.Motor? ==> d in t.motorIdx && t.motorIdx[d] == Index16(t.deviceKeys[d].idx)
  }

  ghost predicate Valid(t: Tables) {
    RoutesConsistent(t) && Inverse(t.devices, t.deviceKeys) && forall d | d in t.deviceKeys :: MotorOk(t, d)
  }

  /** Each exact (adapter, unique id) belongs to exactly one entry of one registration. */
  lemma OneOwner(t: Tables, d: Device, i: nat, d': Device, i': nat)
    requires RoutesConsistent(t) && d in t.registrations && d' in t.registrations
    requires i < |t.registrations[d].routes| && i' < |t.registrations[d'].routes|
    requires !t.registrations[d].routes[i].claim && !t.registrations[d'].routes[i'].claim
    requires t.registrations[d].routes[i].key == t.registrations[d'].routes[i'].key
    ensures d == d' && i == i'
  {
    assert RegistrationOk(t, d) && RegistrationOk(t, d');
    assert EntryOk(t, d, t.registrations[d].routes[i]) && EntryOk(t, d', t.registrations[d'].routes[i']);
  }

  // ---------------------------------------------------------------- publishing

  function Keys(bus: BusKey, canIds: seq<nat>): seq<RouteKey> {
    seq(|canIds|, i requires 0 <= i < |canIds| => RouteKey(bus.adapter, UniqueId(bus.raw, canIds[i])))
  }

  predicate AllDistinct<T(==)>(s: seq<T>) {
    forall i, j | 0 <= i < j < |s| :: s[i] != s[j]
  }

  predicate Free(routes: map<RouteKey, nat>, reserved: map<RouteKey, Device>, keys: seq<RouteKey>) {
    forall i | 0 <= i < |keys| :: keys[i] !in routes && keys[i] !in reserved
  }

  /** Exactly when publishing is not refused. */
  predicate MayPublish(t: Tables, d: Device, bus: BusKey, recipe: Recipe) {
    && d !in t.registrations
    && if recipe.claimsBus then bus !in t.claims
       else
         AllDistinct(Keys(bus, recipe.canIds)) && Free(t.routes, t.routeReservations, Keys(bus, recipe.canIds))
  }

  function Entries(keys: seq<RouteKey>, first: nat): seq<RouteEntry> {
    seq(|keys|, i requires 0 <= i < |keys| => RouteEntry(keys[i], first + i, false))
  }

  ghost predicate HasKey(entries: seq<RouteEntry>, k: RouteKey) {
    exists i :: 0 <= i < |entries| && entries[i].key == k
  }

  lemma PrefixKeys(entries: seq<RouteEntry>)
    requires entries != []
    ensures forall k | HasKey(entries[..|entries| - 1], k) :: HasKey(entries, k)
    ensures HasKey(entries, entries[|entries| - 1].key)
  {
    forall k | HasKey(entries[..|entries| - 1], k) ensures HasKey(entries, k) {
      var i :| 0 <= i < |entries| - 1 && entries[..|entries| - 1][i].key == k;
      assert entries[i].key == k;
    }
  }

  function WithRoutes(routes: map<RouteKey, nat>, entries: seq<RouteEntry>): (r: map<RouteKey, nat>)
    ensures forall k | k in routes :: k in r
    ensures forall k | k in r && !HasKey(entries, k) :: k in routes && r[k] == routes[k]
    decreases |entries|
  {
    if entries == [] then routes
    else
      PrefixKeys(entries);
      WithRoutes(routes, entries[..|entries| - 1])[entries[|entries| - 1].key := entries[|entries| - 1].record]
  }

  lemma {:induction false} WithRoutesAt(routes: map<RouteKey, nat>, entries: seq<RouteEntry>, i: nat)
    requires i < |entries| && forall j, k | 0 <= j < k < |entries| :: entries[j].key != entries[k].key
    ensures entries[i].key in WithRoutes(routes, entries) && WithRoutes(routes, entries)[entries[i].key] == entries[i].record
    decreases |entries|
  {
    if i < |entries| - 1 { WithRoutesAt(routes, entries[..|entries| - 1], i); }
  }

  function NewRecords(d: Device, first: nat, count: nat): (r: map<nat, RouteRecord>)
    ensures forall x :: x in r <==> first <= x < first + count
    ensures forall x | x in r :: r[x] == RouteRecord(d, false)
  {
    if count == 0 then map[] else NewRecords(d, first, count - 1)[first + count - 1 := RouteRecord(d, false)]
  }

  /** The tables after publishing. */
  function Published(t: Tables, d: Device, bus: BusKey, recipe: Recipe): (u: Tables)
    ensures u == t.(registrations := u.registrations, routes := u.routes, claims := u.claims, records := u.records,
                    nextRecord := u.nextRecord)
  {
    if recipe.claimsBus then
      var entry := RouteEntry(RouteKey(bus.adapter, UniqueId(bus.raw, CLAIM_ROUTE_ID)), t.nextRecord, true);
      t.(registrations := t.registrations[d := Registration(bus.adapter, [entry])],
         claims := t.claims[bus := t.nextRecord],
         records := t.records[t.nextRecord := RouteRecord(d, false)], nextRecord := t.nextRecord + 1)
    else
      var entries := Entries(Keys(bus, recipe.canIds), t.nextRecord);
      t.(registrations := t.registrations[d := Registration(bus.adapter, entries)],
         routes := WithRoutes(t.routes, entries),
         records := t.records + NewRecords(d, t.nextRecord, |entries|), nextRecord := t.nextRecord + |entries|)
  }

  /** Tables that kept these registrations and records kept their claims' owners. */
  lemma ClaimsKept(t: Tables, u: Tables)
    requires ClaimsOwned(t)
    requires forall k | k in u.claims :: k in t.claims && t.claims[k] == u.claims[k]
    requires forall k, key | k in u.claims && Owned(t, t.claims[k], key, true) :: Owned(u, t.claims[k], key, true)
    ensures ClaimsOwned(u)
  {
    forall k | k in u.claims ensures ClaimOwned(u, k) {
      assert ClaimOwned(t, k);
      var key :| Owned(t, t.claims[k], key, true) && BusKey(key.adapter, RawOf(key.uniqueId)) == k;
      assert Owned(u, u.claims[k], key, true);
    }
  }

  lemma PublishedEntries(t: Tables, d: Device, bus: BusKey, recipe: Recipe)
    requires RoutesConsistent(t) && MayPublish(t, d, bus, recipe) && !recipe.claimsBus
    ensures RegistrationOk(Published(t, d, bus, recipe), d)
  {
    var u := Published(t, d, bus, recipe);
    var entries := Entries(Keys(bus, recipe.canIds), t.nextRecord);
    DistinctEntries(t, bus, recipe);
    forall i | 0 <= i < |entries| ensures EntryOk(u, d, entries[i]) {
      WithRoutesAt(t.routes, entries, i);
      assert t.nextRecord + i in NewRecords(d, t.nextRecord, |entries|);
    }
  }

  lemma DistinctEntries(t: Tables, bus: BusKey, recipe: Recipe)
    requires AllDistinct(Keys(bus, recipe.canIds))
    ensures var entries := Entries(Keys(bus, recipe.canIds), t.nextRecord);
            forall i, j | 0 <= i < j < |entries| :: entries[i].key != entries[j].key
  {
    forall i, j | 0 <= i < j < |recipe.canIds| ensures Keys(bus, recipe.canIds)[i] != Keys(bus, recipe.canIds)[j] {}
  }

  /** Somebody else's registration is untouched by a publication. */
  lemma OthersKept(t: Tables, d: Device, bus: BusKey, recipe: Recipe, x: Device)
    requires RoutesConsistent(t) && MayPublish(t, d, bus, recipe) && !recipe.claimsBus
    requires x in t.registrations
    ensures RegistrationOk(Published(t, d, bus, recipe), x)
  {
    var u := Published(t, d, bus, recipe);
    assert RegistrationOk(t, x);
    forall i | 0 <= i < |t.registrations[x].routes| ensures EntryOk(u, x, t.registrations[x].routes[i]) {
      var e := t.registrations[x].routes[i];
      assert EntryOk(t, x, e);
      assert e.record in t.records && e.record < t.nextRecord;
    }
  }

  lemma PublishRegistrations(t: Tables, d: Device, bus: BusKey, recipe: Recipe)
    requires RoutesConsistent(t) && MayPublish(t, d, bus, recipe) && !recipe.claimsBus
    ensures RegistrationsOk(Published(t, d, bus, recipe))
  {
    var u := Published(t, d, bus, recipe);
    forall x | x in u.registrations ensures RegistrationOk(u, x) {
      if x == d { PublishedEntries(t, d, bus, recipe); } else { OthersKept(t, d, bus, recipe, x); }
    }
  }

  lemma PublishClaims(t: Tables, d: Device, bus: BusKey, recipe: Recipe)
    requires RoutesConsistent(t) && MayPublish(t, d, bus, recipe) && !recipe.claimsBus
    ensures ClaimsOwned(Published(t, d, bus, recipe))
  {
    var u := Published(t, d, bus, recipe);
    forall k, key | k in u.claims && Owned(t, t.claims[k], key, true) ensures Owned(u, t.claims[k], key, true) {
      assert t.claims[k] < t.nextRecord;
    }
    ClaimsKept(t, u);
  }

  lemma PublishKeepsConsistent(t: Tables, d: Device, bus: BusKey, recipe: Recipe)
    requires RoutesConsistent(t) && MayPublish(t, d, bus, recipe) && !recipe.claimsBus
    ensures RoutesConsistent(Published(t, d, bus, recipe))
  {
    var u := Published(t, d, bus, recipe);
    PublishRegistrations(t, d, bus, recipe);
    forall k | k in u.routes ensures Owned(u, u.routes[k], k, false) { RouteOwned(t, d, bus, recipe, k); }
    PublishClaims(t, d, bus, recipe);
    PublishKeepsReservations(t, d, bus, recipe);
  }

  lemma PublishKeepsReservations(t: Tables, d: Device, bus: BusKey, recipe: Recipe)
    requires MayPublish(t, d, bus, recipe) && !recipe.claimsBus
    requires (forall r | r in t.records :: r < t.nextRecord) && (forall k | k in t.routeReservations :: k !in t.routes)
    ensures var u := Published(t, d, bus, recipe);
            (forall r | r in u.records :: r < u.nextRecord) && (forall k | k in u.routeReservations :: k !in u.routes)
  {
    var u := Published(t, d, bus, recipe);
    var entries := Entries(Keys(bus, recipe.canIds), t.nextRecord);
    forall k | HasKey(entries, k) ensures k !in t.routeReservations {
      var i :| 0 <= i < |entries| && entries[i].key == k;
      assert Keys(bus, recipe.canIds)[i] == k;
    }
  }

  lemma RouteOwned(t: Tables, d: Device, bus: BusKey, recipe: Recipe, k: RouteKey)
    requires RoutesConsistent(t) && MayPublish(t, d, bus, recipe) && !recipe.claimsBus
    requires k in Published(t, d, bus, recipe).routes
    ensures var u := Published(t, d, bus, recipe); Owned(u, u.routes[k], k, false)
  {
    var u := Published(t, d, bus, recipe);
    var entries := Entries(Keys(bus, recipe.canIds), t.nextRecord);
    if HasKey(entries, k) {
      var i :| 0 <= i < |entries| && entries[i].key == k;
      DistinctEntries(t, bus, recipe);
      WithRoutesAt(t.routes, entries, i);
      assert t.nextRecord + i in NewRecords(d, t.nextRecord, |entries|);
      assert entries[i] in u.registrations[d].routes;
    } else {
      assert Owned(t, t.routes[k], k, false);
      assert t.routes[k] < t.nextRecord;
    }
  }

  /** The ids of a recipe can be published if they are distinct and neither routed nor reserved. */
  lemma FreeIdsMayPublish(t: Tables, d: Device, bus: BusKey, recipe: Recipe)
    requires d !in t.registrations && !recipe.claimsBus && Int32(bus.raw)
    requires forall i | 0 <= i < |recipe.canIds| :: recipe.canIds[i] < WORD
    requires forall i, j | 0 <= i < j < |recipe.canIds| :: recipe.canIds[i] != recipe.canIds[j]
    requires forall i | 0 <= i < |recipe.canIds| ::
               var k := RouteKey(bus.adapter, UniqueId(bus.raw, recipe.canIds[i])); k !in t.routes && k !in t.routeReservations
    ensures MayPublish(t, d, bus, recipe)
  {
    var keys := Keys(bus, recipe.canIds);
    forall i, j | 0 <= i < j < |keys| ensures keys[i] != keys[j] {
      UniqueIdIsInjective(bus.raw, recipe.canIds[i], bus.raw, recipe.canIds[j]);
    }
    forall i | 0 <= i < |keys| ensures keys[i] !in t.routes && keys[i] !in t.routeReservations {
      assert keys[i] == RouteKey(bus.adapter, UniqueId(bus.raw, recipe.canIds[i]));
    }
  }

  lemma PublishedRoute(t: Tables, d: Device, bus: BusKey, recipe: Recipe, i: nat)
    requires RoutesConsistent(t) && MayPublish(t, d, bus, recipe) && !recipe.claimsBus && i < |recipe.canIds|
    ensures var u, k := Published(t, d, bus, recipe), RouteKey(bus.adapter, UniqueId(bus.raw, recipe.canIds[i]));
            && k in u.routes && u.routes[k] in u.records && u.routes[k] !in t.records
            && u.records[u.routes[k]] == RouteRecord(d, false) && k !in t.routes
  {
    var entries := Entries(Keys(bus, recipe.canIds), t.nextRecord);
    DistinctEntries(t, bus, recipe);
    assert entries[i].key == Keys(bus, recipe.canIds)[i] == RouteKey(bus.adapter, UniqueId(bus.raw, recipe.canIds[i]));
    WithRoutesAt(t.routes, entries, i);
    assert t.nextRecord + i in NewRecords(d, t.nextRecord, |entries|);
  }

  lemma EntryIsARecipes(t: Tables, bus: BusKey, recipe: Recipe, k: RouteKey)
    requires Free(t.routes, t.routeReservations, Keys(bus, recipe.canIds)) && HasKey(Entries(Keys(bus, recipe.canIds), t.nextRecord), k)
    ensures k !in t.routes
    ensures exists i :: 0 <= i < |recipe.canIds| && k == RouteKey(bus.adapter, UniqueId(bus.raw, recipe.canIds[i]))
  {
    var keys := Keys(bus, recipe.canIds);
    var entries := Entries(keys, t.nextRecord);
    var i :| 0 <= i < |entries| && entries[i].key == k;
    assert keys[i] == k == RouteKey(bus.adapter, UniqueId(bus.raw, recipe.canIds[i]));
  }

  /** After publishing, each id of the recipe leads to a fresh record of the device; no other route, and
      no claim, record or registration changes. */
  lemma PublishedRoutes(t: Tables, d: Device, bus: BusKey, recipe: Recipe)
    requires RoutesConsistent(t) && MayPublish(t, d, bus, recipe) && !recipe.claimsBus
    ensures var u := Published(t, d, bus, recipe);
            && (forall i | 0 <= i < |recipe.canIds| ::
                  var k := RouteKey(bus.adapter, UniqueId(bus.raw, recipe.canIds[i]));
                  && k in u.routes && u.routes[k] in u.records && u.routes[k] !in t.records
                  && u.records[u.routes[k]] == RouteRecord(d, false))
            && (forall k | k in u.routes && k !in t.routes ::
                  exists i :: 0 <= i < |recipe.canIds| && k == RouteKey(bus.adapter, UniqueId(bus.raw, recipe.canIds[i])))
            && (forall k | k in t.routes :: k in u.routes && u.routes[k] == t.routes[k])
            && (forall x | x in t.records :: x in u.records && u.records[x] == t.records[x])
            && (forall x :: x in u.registrations <==> x == d || x in t.registrations)
            && (forall x | x in t.registrations :: u.registrations[x] == t.registrations[x])
            && u.claims == t.claims
  {
    var u := Published(t, d, bus, recipe);
    var keys := Keys(bus, recipe.canIds);
    var entries := Entries(keys, t.nextRecord);
    forall i | 0 <= i < |recipe.canIds|
      ensures var k := RouteKey(bus.adapter, UniqueId(bus.raw, recipe.canIds[i]));
              && k in u.routes && u.routes[k] in u.records && u.routes[k] !in t.records
              && u.records[u.routes[k]] == RouteRecord(d, false)
    {
      PublishedRoute(t, d, bus, recipe, i);
    }
    forall k | HasKey(entries, k)
      ensures k !in t.routes
      ensures exists i :: 0 <= i < |recipe.canIds| && k == RouteKey(bus.adapter, UniqueId(bus.raw, recipe.canIds[i]))
    {
      EntryIsARecipes(t, bus, recipe, k);
    }
  }

  /** After a claim, the bus leads to a fresh record of the device and nothing else changes. */
  lemma ClaimedBusIsRouted(t: Tables, d: Device, bus: BusKey, recipe: Recipe)
    requires RoutesConsistent(t) && MayPublish(t, d, bus, recipe) && recipe.claimsBus
    ensures var u := Published(t, d, bus, recipe);
            && bus in u.claims && u.claims[bus] in u.records && u.claims[bus] !in t.records
            && u.records[u.claims[bus]] == RouteRecord(d, false) && bus !in t.claims
            && (forall k | k in u.claims && k != bus :: k in t.claims && u.claims[k] == t.claims[k])
            && (forall k | k in t.claims :: k in u.claims && u.claims[k] == t.claims[k])
            && (forall x | x in t.records :: x in u.records && u.records[x] == t.records[x])
            && (forall x :: x in u.registrations <==> x == d || x in t.registrations)
            && u.routes == t.routes
  {
  }

  lemma ClaimRegistrations(t: Tables, d: Device, bus: BusKey, recipe: Recipe)
    requires RoutesConsistent(t) && MayPublish(t, d, bus, recipe) && recipe.claimsBus && Int32(bus.raw)
    ensures RegistrationsOk(Published(t, d, bus, recipe))
  {
    var u := Published(t, d, bus, recipe);
    UniqueIdIsInjective(bus.raw, CLAIM_ROUTE_ID, bus.raw, CLAIM_ROUTE_ID);
    forall x | x in u.registrations ensures RegistrationOk(u, x) {
      if x != d {
        assert RegistrationOk(t, x);
        forall i | 0 <= i < |t.registrations[x].routes| ensures EntryOk(u, x, t.registrations[x].routes[i]) {
          assert EntryOk(t, x, t.registrations[x].routes[i]);
        }
      }
    }
  }

  lemma ClaimClaims(t: Tables, d: Device, bus: BusKey, recipe: Recipe)
    requires RoutesConsistent(t) && MayPublish(t, d, bus, recipe) && recipe.claimsBus && Int32(bus.raw)
    ensures ClaimsOwned(Published(t, d, bus, recipe))
  {
    var u := Published(t, d, bus, recipe);
    UniqueIdIsInjective(bus.raw, CLAIM_ROUTE_ID, bus.raw, CLAIM_ROUTE_ID);
    assert Owned(u, t.nextRecord, RouteKey(bus.adapter, UniqueId(bus.raw, CLAIM_ROUTE_ID)), true);
    forall k | k in t.claims ensures ClaimOwned(u, k) {
      assert ClaimOwned(t, k);
      var key :| Owned(t, t.claims[k], key, true) && BusKey(key.adapter, RawOf(key.uniqueId)) == k;
      assert Owned(u, u.claims[k], key, true);
    }
  }

  lemma ClaimKeepsConsistent(t: Tables, d: Device, bus: BusKey, recipe: Recipe)
    requires RoutesConsistent(t) && MayPublish(t, d, bus, recipe) && recipe.claimsBus && Int32(bus.raw)
    ensures RoutesConsistent(Published(t, d, bus, recipe))
  {
    var u := Published(t, d, bus, recipe);
    ClaimRegistrations(t, d, bus, recipe);
    ClaimClaims(t, d, bus, recipe);
    forall k | k in u.routes ensures Owned(u, u.routes[k], k, false) { assert Owned(t, t.routes[k], k, false); }
  }

  // ---------------------------------------------------------------- detaching

  /** Everything the device owned is gone from the tables and marked retiring; nothing else moved. */
  ghost predicate Detached(t: Tables, u: Tables, d: Device) {
    && u == t.(registrations := t.registrations - {d}, routes := u.routes, claims := u.claims, records := u.records)
    && (forall k :: k in u.routes <==> k in t.routes && t.routes[k] in t.records && t.records[t.routes[k]].device != d)
    && (forall k | k in u.routes :: u.routes[k] == t.routes[k])
    && (forall k :: k in u.claims <==> k in t.claims && t.claims[k] in t.records && t.records[t.claims[k]].device != d)
    && (forall k | k in u.claims :: u.claims[k] == t.claims[k])
    && u.records.Keys == t.records.Keys
    && (forall r | r in t.records :: u.records[r] ==
          if d in t.registrations && t.records[r].device == d && OwnsRecord(t.registrations[d].routes, r)
          then t.records[r].(retiring := true) else t.records[r])
  }

  ghost predicate OwnsRecord(routes: seq<RouteEntry>, record: nat) {
    exists i :: 0 <= i < |routes| && routes[i].record == record
  }

  lemma DetachRegistrations(t: Tables, u: Tables, d: Device)
    requires RoutesConsistent(t) && Detached(t, u, d)
    ensures RegistrationsOk(u)
  {
    forall x | x in u.registrations ensures RegistrationOk(u, x) {
      assert RegistrationOk(t, x);
      forall i | 0 <= i < |t.registrations[x].routes| ensures EntryOk(u, x, t.registrations[x].routes[i]) {
        assert EntryOk(t, x, t.registrations[x].routes[i]);
      }
    }
  }

  lemma DetachKeepsConsistent(t: Tables, u: Tables, d: Device)
    requires RoutesConsistent(t) && Detached(t, u, d)
    ensures RoutesConsistent(u)
  {
    DetachRegistrations(t, u, d);
    forall k | k in u.routes ensures Owned(u, u.routes[k], k, false) { assert Owned(t, t.routes[k], k, false); }
    ClaimsKept(t, u);
  }
}
