/** Runs of the manager over its device and route tables: creations, destructions, index reservations
    and migrations from any number of threads, one critical section at a time
    (src/driver_manager_create.cc:41-150; src/driver_manager_destroy.cc:17-66;
    src/driver_manager_dispatch.cc:362-604).
 */
module RouteRuns {
  import opened RouteTables
  import opened RouteManager

  /** How far the thread creating a device has come, and how far it has rolled back. */
  datatype Phase = Leading | Constructed(d: Device) | Published(d: Device) | Sealed(d: Device) | Erased

  /** A device being destroyed: the key read at the start, and whether the tables still name it. */
  datatype Dying = Dying(key: DeviceKey, erased: bool)

  datatype State = State(t: Tables, creating: map<DeviceKey, Phase>, dying: map<Device, Dying>)

  datatype Step =
    | Lead(key: DeviceKey) | Construct(key: DeviceKey, d: Device) | Publish(key: DeviceKey, recipe: Recipe)
    | Commit(key: DeviceKey)
    | Seal(key: DeviceKey) | Erase(key: DeviceKey) | GiveUp(key: DeviceKey)
    | BeginDestroy(d: Device) | EraseDestroyed(d: Device) | EndDestroy(d: Device)
    | Reserve(d: Device, idx: int) | Release(d: Device, idx: int) | Migrate(d: Device, idx: int)

  ghost predicate Building(s: State, key: DeviceKey, d: Device) {
    key in s.creating && !s.creating[key].Leading? && !s.creating[key].Erased? && s.creating[key].d == d
  }

  ghost predicate Fresh(s: State, d: Device) {
    && d !in s.t.deviceKeys && d !in s.t.registrations && d !in s.dying && OfDevice(d) !in s.t.deleting
    && forall key | key in s.creating :: !Building(s, key, d)
  }

  predicate ParentAlive(t: Tables, bus: Bus) {
    bus in t.busKeys && OfBus(bus) !in t.deleting && OfAdapter(t.busKeys[bus].adapter) !in t.deleting
  }

  /** CreateMotor routes a motor by its index and uses no tokens. */
  predicate Fits(key: DeviceKey, recipe: Recipe) {
    key.kind.Motor? ==> key == MotorKey(key.bus, key.idx) && !recipe.claimsBus && recipe.canIds == [Unsigned(key.idx)]
  }

  ghost predicate Guard(s: State, step: Step) {
    match step
    case Lead(key) => ParentAlive(s.t, key.bus) && key !in s.t.devices && key !in s.t.pending
    case Construct(key, d) => key in s.creating && s.creating[key].Leading? && Fresh(s, d)
    case Publish(key, recipe) =>
      && key in s.creating && s.creating[key].Constructed? && ParentAlive(s.t, key.bus)
      && Int32(s.t.busKeys[key.bus].raw) && Fits(key, recipe)
      && MayPublish(s.t, s.creating[key].d, s.t.busKeys[key.bus], recipe)
    case Commit(key) => key in s.creating && s.creating[key].Published? && ParentAlive(s.t, key.bus)
    case Seal(key) => key in s.creating && (s.creating[key].Constructed? || s.creating[key].Published?)
    case Erase(key) => key in s.creating && (s.creating[key].Leading? || s.creating[key].Sealed?)
    case GiveUp(key) => key in s.creating && s.creating[key].Erased?
    case BeginDestroy(d) => d in s.t.deviceKeys && OfDevice(d) !in s.t.deleting && d in s.t.registrations
    case EraseDestroyed(d) => d in s.dying && !s.dying[d].erased
    case EndDestroy(d) => d in s.dying && s.dying[d].erased
    case Reserve(d, idx) => MayReserve(s.t, d, idx)
    case Release(d, idx) => true
    case Migrate(d, idx) => MayMigrate(s.t, d, idx)
  }

  /** A committed motor gets the status callback configured for its id, or none. */
  function WithConfigured(t: Tables, d: Device, key: DeviceKey): map<Device, Callback> {
    if key.bus in t.busKeys && MotorRoute(t.busKeys[key.bus], key.idx) in t.callbacks
    then t.installed[d := t.callbacks[MotorRoute(t.busKeys[key.bus], key.idx)]]
    else t.installed - {d}
  }

  /** The step's effect.  Commit emplaces, so a key that is already taken keeps its device. */
  ghost predicate Effect(s: State, step: Step, s': State)
    requires Guard(s, step)
  {
    var t := s.t;
    match step
    case Lead(key) => s' == s.(t := t.(pending := t.pending + {key}), creating := s.creating[key := Leading])
    case Construct(key, d) =>
      s' == s.(t := t.(motorIdx := if key.kind.Motor? then t.motorIdx[d := Index16(key.idx)] else t.motorIdx),
               creating := s.creating[key := Constructed(d)])
    case Publish(key, recipe) =>
      var d := s.creating[key].d;
      s' == s.(t := RouteTables.Published(t, d, t.busKeys[key.bus], recipe), creating := s.creating[key := Phase.Published(d)])
    case Commit(key) =>
      var d := s.creating[key].d;
      s' == s.(t := t.(devices := if key in t.devices then t.devices else t.devices[key := d],
                       deviceKeys := if d in t.deviceKeys then t.deviceKeys else t.deviceKeys[d := key],
                       pending := t.pending - {key},
                       installed := if key.kind.Motor? then WithConfigured(t, d, key) else t.installed),
               creating := s.creating - {key})
    case Seal(key) =>
      && Detached(t, s'.t, s.creating[key].d)
      && s' == s.(t := s'.t, creating := s.creating[key := Phase.Sealed(s.creating[key].d)])
    case Erase(key) =>
      s' == s.(t := t.(devices := t.devices - {key},
                       deviceKeys := if s.creating[key].Sealed? then t.deviceKeys - {s.creating[key].d} else t.deviceKeys),
               creating := s.creating[key := Erased])
    case GiveUp(key) => s' == s.(t := t.(pending := t.pending - {key}), creating := s.creating - {key})
    case BeginDestroy(d) =>
      && Detached(t.(deleting := t.deleting + {OfDevice(d)}), s'.t, d)
      && s' == s.(t := s'.t, dying := s.dying[d := Dying(t.deviceKeys[d], false)])
    case EraseDestroyed(d) =>
      s' == s.(t := t.(devices := t.devices - {s.dying[d].key}, deviceKeys := t.deviceKeys - {d}),
               dying := s.dying[d := Dying(s.dying[d].key, true)])
    case EndDestroy(d) => s' == s.(t := t.(deleting := t.deleting - {OfDevice(d)}), dying := s.dying - {d})
    case Reserve(d, idx) => s' == s.(t := Reserved(t, d, idx))
    case Release(d, idx) => s' == s.(t := Released(t, d, idx))
    case Migrate(d, idx) => s' == s.(t := Migrated(t, d, idx))
  }

  /** A device is under construction at `key`, and a rollback of it would still erase the key. */
  predicate Contested(s: State, key: DeviceKey) {
    key in s.creating && !s.creating[key].Erased?
  }

  /** A migration that does not commit onto the key of a device under construction. */
  ghost predicate AvoidsContested(s: State, step: Step) {
    step.Migrate? && step.d in s.t.deviceKeys ==> !Contested(s, MotorKey(s.t.deviceKeys[step.d].bus, step.idx))
  }

  // ---------------------------------------------------------------- the invariant

  ghost predicate PendingIsFree(s: State) {
    s.t.pending == s.creating.Keys && forall key | Contested(s, key) :: key !in s.t.devices
  }

  /** A device under construction that has published is routed exactly like a committed one. */
  ghost predicate PublishedOk(s: State, key: DeviceKey)
    requires key in s.creating && s.creating[key].Published?
  {
    var d := s.creating[key].d;
    && d in s.t.registrations
    && (key.kind.Motor? ==>
          && key.bus in s.t.busKeys && key == MotorKey(key.bus, key.idx)
          && |s.t.registrations[d].routes| == 1 && !s.t.registrations[d].routes[0].claim
          && s.t.registrations[d].routes[0].key == MotorRoute(s.t.busKeys[key.bus], key.idx))
  }

  ghost predicate BuildingOk(s: State, key: DeviceKey)
    requires key in s.creating
  {
    && (!s.creating[key].Leading? && !s.creating[key].Erased? ==>
          s.creating[key].d !in s.t.deviceKeys && s.creating[key].d !in s.dying)
    && (s.creating[key].Published? ==> PublishedOk(s, key))
    && (s.creating[key].Constructed? || s.creating[key].Sealed? ==> s.creating[key].d !in s.t.registrations)
  }

  ghost predicate OneBuilder(s: State) {
    forall k, k', d | Building(s, k, d) && Building(s, k', d) :: k == k'
  }

  ghost predicate DyingOk(s: State, d: Device)
    requires d in s.dying
  {
    && OfDevice(d) in s.t.deleting && d !in s.t.registrations
    && (!s.dying[d].erased ==> d in s.t.deviceKeys && s.t.deviceKeys[d] == s.dying[d].key)
    && (s.dying[d].erased ==> d !in s.t.deviceKeys)
  }

  ghost predicate Inv(s: State) {
    && Valid(s.t) && PendingIsFree(s) && OneBuilder(s)
    && (forall key | key in s.creating :: BuildingOk(s, key))
    && (forall d | d in s.dying :: DyingOk(s, d))
  }

  // ---------------------------------------------------------------- preservation

  ghost predicate Next(s: State, step: Step, s': State) {
    Guard(s, step) && Effect(s, step, s')
  }

  /** The routes of the device published for `key` stay as they are while other tables change. */
  lemma PublishValid(s: State, step: Step, s': State)
    requires Inv(s) && Next(s, step, s') && step.Publish?
    ensures Valid(s'.t)
    ensures PublishedOk(s', step.key)
    ensures forall d | d in s.t.registrations :: d in s'.t.registrations && s'.t.registrations[d] == s.t.registrations[d]
  {
    var key, recipe := step.key, step.recipe;
    var d, bus := s.creating[key].d, s.t.busKeys[key.bus];
    assert BuildingOk(s, key);
    if recipe.claimsBus {
      ClaimKeepsConsistent(s.t, d, bus, recipe);
    } else {
      PublishKeepsConsistent(s.t, d, bus, recipe);
    }
    forall x | x in s'.t.deviceKeys ensures MotorOk(s'.t, x) { assert MotorOk(s.t, x); }
  }

  lemma DetachValid(t: Tables, u: Tables, d: Device)
    requires Valid(t) && Detached(t, u, d)
    ensures Valid(u)
  {
    DetachKeepsConsistent(t, u, d);
    forall x | x in u.deviceKeys ensures MotorOk(u, x) { assert MotorOk(t, x); }
  }

  lemma SameRoutesValid(t: Tables, u: Tables)
    requires Valid(t) && u == t.(devices := u.devices, deviceKeys := u.deviceKeys, pending := u.pending, deleting := u.deleting,
                                 motorIdx := u.motorIdx, installed := u.installed, indexReservations := u.indexReservations, routeReservations := u.routeReservations)
    requires Inverse(u.devices, u.deviceKeys) && forall d | d in u.deviceKeys :: MotorOk(u, d)
    requires forall k | k in u.routeReservations :: k !in u.routes
    ensures Valid(u)
  {
    forall x | x in u.registrations ensures RegistrationOk(u, x) {
      assert RegistrationOk(t, x);
      forall i | 0 <= i < |t.registrations[x].routes| ensures EntryOk(u, x, t.registrations[x].routes[i]) {
        assert EntryOk(t, x, t.registrations[x].routes[i]);
      }
    }
    forall k | k in u.routes ensures Owned(u, u.routes[k], k, false) { assert Owned(t, t.routes[k], k, false); }
    ClaimsKept(t, u);
  }

  lemma CommitValid(s: State, step: Step, s': State)
    requires Inv(s) && Next(s, step, s') && step.Commit?
    ensures Valid(s'.t)
  {
    assert BuildingOk(s, step.key);
    forall x | x in s'.t.deviceKeys ensures MotorOk(s'.t, x) {
      if x in s.t.deviceKeys { assert MotorOk(s.t, x); }
    }
    SameRoutesValid(s.t, s'.t);
  }

  lemma EraseValid(s: State, step: Step, s': State)
    requires Inv(s) && Next(s, step, s') && (step.Erase? || step.EraseDestroyed?)
    ensures Valid(s'.t)
  {
    if step.Erase? {
      assert BuildingOk(s, step.key);
      assert s'.t.devices == s.t.devices;
      assert s'.t.deviceKeys == s.t.deviceKeys;
    } else {
      assert DyingOk(s, step.d);
    }
    forall x | x in s'.t.deviceKeys ensures MotorOk(s'.t, x) { assert MotorOk(s.t, x); }
    SameRoutesValid(s.t, s'.t);
  }

  lemma BookkeepingValid(s: State, step: Step, s': State)
    requires Valid(s.t) && Next(s, step, s') && (step.Lead? || step.Construct? || step.GiveUp? || step.EndDestroy?)
    ensures Valid(s'.t)
  {
    forall x | x in s'.t.deviceKeys ensures MotorOk(s'.t, x) { assert MotorOk(s.t, x); }
    SameRoutesValid(s.t, s'.t);
  }

  lemma ReservedValid(t: Tables, motor: Device, idx: int)
    requires Valid(t) && MayReserve(t, motor, idx)
    ensures Valid(Reserved(t, motor, idx))
  {
    var u := Reserved(t, motor, idx);
    forall x | x in u.deviceKeys ensures MotorOk(u, x) { assert MotorOk(t, x); }
    SameRoutesValid(t, u);
  }

  lemma ReleasedValid(t: Tables, motor: Device, idx: int)
    requires Valid(t)
    ensures Valid(Released(t, motor, idx))
  {
    var u := Released(t, motor, idx);
    forall x | x in u.deviceKeys ensures MotorOk(u, x) { assert MotorOk(t, x); }
    SameRoutesValid(t, u);
  }

  lemma StepValid(s: State, step: Step, s': State)
    requires Inv(s) && Next(s, step, s')
    ensures Valid(s'.t)
  {
    match step
    case Publish(_, _) => PublishValid(s, step, s');
    case Commit(_) => CommitValid(s, step, s');
    case Seal(key) => DetachValid(s.t, s'.t, s.creating[key].d);
    case BeginDestroy(d) =>
      var t := s.t.(deleting := s.t.deleting + {OfDevice(d)});
      forall x | x in t.deviceKeys ensures MotorOk(t, x) { assert MotorOk(s.t, x); }
      SameRoutesValid(s.t, t);
      DetachValid(t, s'.t, d);
    case Erase(_) => EraseValid(s, step, s');
    case EraseDestroyed(_) => EraseValid(s, step, s');
    case Migrate(d, idx) => MigrateKeepsValid(s.t, d, idx);
    case Reserve(d, idx) => ReservedValid(s.t, d, idx);
    case Release(d, idx) => ReleasedValid(s.t, d, idx);
    case _ => BookkeepingValid(s, step, s');
  }

  lemma MigratePending(t: Tables, motor: Device, idx: int)
    requires MayMigrate(t, motor, idx)
    ensures var u := Migrated(t, motor, idx);
            && u.pending == t.pending && u.devices.Keys <= t.devices.Keys + {MotorKey(t.deviceKeys[motor].bus, idx)}
            && u.deviceKeys.Keys == t.deviceKeys.Keys && u.registrations.Keys == t.registrations.Keys
            && u.busKeys == t.busKeys && u.deleting == t.deleting
            && (forall d | d in t.deviceKeys && d != motor :: u.deviceKeys[d] == t.deviceKeys[d])
            && (forall d | d in t.registrations && d != motor :: u.registrations[d] == t.registrations[d])
  {
  }

  lemma StepPending(s: State, step: Step, s': State)
    requires PendingIsFree(s) && Next(s, step, s') && AvoidsContested(s, step)
    ensures PendingIsFree(s')
  {
    if step.Migrate? {
      MigratePending(s.t, step.d, step.idx);
    } else {
      OtherStepsPending(s, step, s');
    }
  }

  lemma OtherStepsPending(s: State, step: Step, s': State)
    requires PendingIsFree(s) && Next(s, step, s') && !step.Migrate?
    ensures PendingIsFree(s')
  {
  }

  /** The one device a step may change the standing of. */
  function Touched(s: State, step: Step): Option<Device> {
    match step
    case Publish(key, _) => DeviceOf(s, key)
    case Commit(key) => DeviceOf(s, key)
    case Seal(key) => DeviceOf(s, key)
    case Erase(key) => DeviceOf(s, key)
    case BeginDestroy(d) => Some(d)
    case EraseDestroyed(d) => Some(d)
    case EndDestroy(d) => Some(d)
    case Migrate(d, _) => Some(d)
    case _ => None
  }

  function DeviceOf(s: State, key: DeviceKey): Option<Device> {
    if key !in s.creating || s.creating[key].Leading? || s.creating[key].Erased? then None else Some(s.creating[key].d)
  }

  ghost predicate SameStanding(s: State, s': State, x: Device) {
    && (x in s'.t.registrations <==> x in s.t.registrations)
    && (x in s.t.registrations ==> s'.t.registrations[x] == s.t.registrations[x])
    && (x in s'.t.deviceKeys <==> x in s.t.deviceKeys)
    && (x in s.t.deviceKeys ==> s'.t.deviceKeys[x] == s.t.deviceKeys[x])
    && (x in s'.dying <==> x in s.dying)
    && (x in s.dying ==> s'.dying[x] == s.dying[x])
    && (OfDevice(x) in s'.t.deleting <==> OfDevice(x) in s.t.deleting)
  }

  lemma StepFrame(s: State, step: Step, s': State, x: Device)
    requires Next(s, step, s') && Touched(s, step) != Some(x)
    ensures SameStanding(s, s', x)
  {
    if step.Migrate? {
      MigratePending(s.t, step.d, step.idx);
    } else if step.Publish? {
      PublishFrame(s, step, s', x);
    }
  }

  lemma PublishFrame(s: State, step: Step, s': State, x: Device)
    requires Next(s, step, s') && step.Publish? && Touched(s, step) != Some(x)
    ensures SameStanding(s, s', x)
  {
  }

  predicate OwnStep(step: Step, key: DeviceKey) {
    (step.Lead? || step.Construct? || step.Publish? || step.Commit? || step.Seal? || step.Erase? || step.GiveUp?) && step.key == key
  }

  lemma StepCreating(s: State, step: Step, s': State, key: DeviceKey)
    requires Next(s, step, s') && !OwnStep(step, key)
    ensures key in s'.creating <==> key in s.creating
    ensures key in s.creating ==> s'.creating[key] == s.creating[key]
    ensures s'.t.busKeys == s.t.busKeys
  {
  }

  lemma OwnBuilding(s: State, step: Step, s': State, key: DeviceKey)
    requires Next(s, step, s') && key in s'.creating && OwnStep(step, key)
    requires key in s.creating ==> BuildingOk(s, key)
    requires step.Publish? ==> s'.creating[key].Published? && PublishedOk(s', key)
    ensures BuildingOk(s', key)
  {
  }

  /** A step that does not touch the device being built keeps it as it is. */
  lemma OtherBuilding(s: State, s': State, key: DeviceKey)
    requires key in s.creating && key in s'.creating && s'.creating[key] == s.creating[key] && s'.t.busKeys == s.t.busKeys
    requires BuildingOk(s, key)
    requires forall d | Building(s, key, d) :: SameStanding(s, s', d)
    ensures BuildingOk(s', key)
  {
    if !s.creating[key].Leading? && !s.creating[key].Erased? {
      assert Building(s, key, s.creating[key].d);
    }
  }

  lemma TouchesNoOther(s: State, step: Step, key: DeviceKey, d: Device)
    requires Inv(s) && Guard(s, step) && !OwnStep(step, key) && Building(s, key, d)
    ensures Touched(s, step) != Some(d)
  {
    assert BuildingOk(s, key);
    if step.Publish? || step.Commit? || step.Seal? || step.Erase? {
      assert Touched(s, step) == Some(d) ==> Building(s, step.key, d);
    }
    if step.EraseDestroyed? { assert DyingOk(s, step.d); }
  }

  lemma StepBuilding(s: State, step: Step, s': State, key: DeviceKey)
    requires Inv(s) && Next(s, step, s') && key in s'.creating
    ensures BuildingOk(s', key)
  {
    if OwnStep(step, key) {
      if step.Publish? { PublishValid(s, step, s'); }
      OwnBuilding(s, step, s', key);
    } else {
      StepCreating(s, step, s', key);
      forall d | Building(s, key, d) ensures SameStanding(s, s', d) {
        TouchesNoOther(s, step, key, d);
        StepFrame(s, step, s', d);
      }
      OtherBuilding(s, s', key);
    }
  }

  lemma StepBuilders(s: State, step: Step, s': State)
    requires OneBuilder(s) && Next(s, step, s')
    ensures OneBuilder(s')
  {
    forall k, k', d | Building(s', k, d) && Building(s', k', d) ensures k == k' {
      BuildingBefore(s, step, s', k, d);
      BuildingBefore(s, step, s', k', d);
    }
  }

  lemma BuildingBefore(s: State, step: Step, s': State, key: DeviceKey, d: Device)
    requires Next(s, step, s') && Building(s', key, d)
    ensures if step.Construct? && step.d == d then key == step.key else Building(s, key, d)
  {
    assert step.Construct? ==> forall k | k in s.creating :: !Building(s, k, step.d);
    if !OwnStep(step, key) { StepCreating(s, step, s', key); }
  }

  lemma StepDying(s: State, step: Step, s': State, d: Device)
    requires Inv(s) && Next(s, step, s') && d in s'.dying
    ensures DyingOk(s', d)
  {
    if Touched(s, step) != Some(d) {
      StepFrame(s, step, s', d);
      assert DyingOk(s, d);
    } else if d in s.dying {
      assert DyingOk(s, d);
      BuiltNotDying(s, step, d);
      DyingStep(s, step, s', d);
    } else {
      BuiltNotDying(s, step, d);
      DyingStep(s, step, s', d);
    }
  }

  lemma BuiltNotDying(s: State, step: Step, d: Device)
    requires Inv(s) && Guard(s, step) && Touched(s, step) == Some(d)
    ensures step.Publish? || step.Commit? || step.Erase? || step.Seal? ==> d !in s.dying
  {
    if step.Publish? || step.Commit? || step.Erase? || step.Seal? { assert BuildingOk(s, step.key); }
  }

  lemma DyingStep(s: State, step: Step, s': State, d: Device)
    requires Next(s, step, s') && d in s'.dying && Touched(s, step) == Some(d)
    requires d in s.dying ==> DyingOk(s, d)
    requires step.Publish? || step.Commit? || step.Erase? || step.Seal? ==> d !in s.dying
    ensures DyingOk(s', d)
  {
  }

  lemma StepInv(s: State, step: Step, s': State)
    requires Inv(s) && Next(s, step, s') && AvoidsContested(s, step)
    ensures Inv(s')
  {
    StepValid(s, step, s');
    StepPending(s, step, s');
    StepBuilders(s, step, s');
    forall key | key in s'.creating ensures BuildingOk(s', key) { StepBuilding(s, step, s', key); }
    forall d | d in s'.dying ensures DyingOk(s', d) { StepDying(s, step, s', d); }
  }

  // ---------------------------------------------------------------- theorems

  ghost predicate Initial(s: State) {
    && Valid(s.t) && s.t.pending == {} && s.creating == map[] && s.dying == map[]
    && forall d | d in s.t.deviceKeys :: Identified(s.t, d)
  }

  ghost predicate StepAt(run: seq<State>, steps: seq<Step>, i: nat)
    requires |run| == |steps| + 1 && i < |steps|
  {
    Next(run[i], steps[i], run[i + 1])
  }

  /** A run, or a continuation of one. */
  ghost predicate Path(run: seq<State>, steps: seq<Step>) {
    |run| == |steps| + 1 && forall i: nat | i < |steps| :: StepAt(run, steps, i)
  }

  ghost predicate Run(run: seq<State>, steps: seq<Step>) {
    Path(run, steps) && Initial(run[0])
  }

  /** No migration commits onto a key under construction. */
  ghost predicate Uncontested(run: seq<State>, steps: seq<Step>)
    requires |run| == |steps| + 1
  {
    forall i: nat | i < |steps| :: AvoidsAt(run, steps, i)
  }

  lemma PathStep(run: seq<State>, steps: seq<Step>, i: nat)
    requires Path(run, steps) && Uncontested(run, steps) && i < |steps|
    ensures StepAt(run, steps, i) && AvoidsAt(run, steps, i)
  {
  }

  lemma {:induction false} PathInv(run: seq<State>, steps: seq<Step>, n: nat)
    requires Path(run, steps) && n <= |steps| && Inv(run[0]) && Uncontested(run, steps)
    ensures Inv(run[n])
  {
    if n > 0 {
      PathInv(run, steps, n - 1);
      PathStep(run, steps, n - 1);
      StepInvAt(run, steps, n - 1);
    }
  }

  /** Over every run in which no migration commits onto a key under construction, the tables stay
      consistent and `devices` and `device_keys` stay inverse. */
  lemma RunInv(run: seq<State>, steps: seq<Step>, n: nat)
    requires Run(run, steps) && n <= |steps| && Uncontested(run, steps)
    ensures Inv(run[n])
  {
    InitialInv(run[0]);
    PathInv(run, steps, n);
  }

  lemma InitialInv(s: State)
    requires Initial(s)
    ensures Inv(s)
  {
  }

  ghost predicate AvoidsAt(run: seq<State>, steps: seq<Step>, i: nat)
    requires |run| == |steps| + 1 && i < |steps|
  {
    AvoidsContested(run[i], steps[i])
  }

  lemma StepInvAt(run: seq<State>, steps: seq<Step>, i: nat)
    requires |run| == |steps| + 1 && i < |steps| && StepAt(run, steps, i) && AvoidsAt(run, steps, i) && Inv(run[i])
    ensures Inv(run[i + 1])
  {
    StepInv(run[i], steps[i], run[i + 1]);
  }

  lemma Extend(run: seq<State>, steps: seq<Step>, step: Step, s': State) returns (run': seq<State>, steps': seq<Step>)
    requires Path(run, steps) && Next(run[|steps|], step, s')
    ensures Path(run', steps') && |steps'| == |steps| + 1 && run'[0] == run[0] && run'[|steps'|] == s'
    ensures Uncontested(run, steps) && !step.Migrate? ==> Uncontested(run', steps')
  {
    run', steps' := run + [s'], steps + [step];
    forall i: nat | i < |steps'| ensures StepAt(run', steps', i) {
      if i < |steps| { assert StepAt(run, steps, i); }
    }
    if Uncontested(run, steps) && !step.Migrate? {
      forall i: nat | i < |steps'| ensures AvoidsAt(run', steps', i) {
        if i < |steps| { assert AvoidsAt(run, steps, i); }
      }
    }
  }

  /** Every motor, committed or under construction, carries the index of its key. */
  ghost predicate IndexInv(s: State) {
    && (forall d | d in s.t.deviceKeys :: Identified(s.t, d))
    && (forall key, d | Building(s, key, d) && key.kind.Motor? :: d in s.t.motorIdx && s.t.motorIdx[d] == Index16(key.idx))
  }

  lemma StepIndices(s: State, step: Step, s': State)
    requires Inv(s) && IndexInv(s) && Next(s, step, s')
    ensures IndexInv(s')
  {
    if step.Migrate? {
      MigratedMotorKnowsItsIndex(s.t, step.d, step.idx);
      forall key, d | Building(s', key, d) && key.kind.Motor? ensures d in s'.t.motorIdx && s'.t.motorIdx[d] == Index16(key.idx) {
        assert Building(s, key, d) && BuildingOk(s, key);
      }
    } else {
      forall key, d | Building(s', key, d) && key.kind.Motor? ensures d in s'.t.motorIdx && s'.t.motorIdx[d] == Index16(key.idx) {
        BuildingBefore(s, step, s', key, d);
        SameIndex(s, step, s', d);
      }
      forall d | d in s'.t.deviceKeys ensures Identified(s'.t, d) {
        KeyBefore(s, step, s', d);
        SameIndex(s, step, s', d);
      }
    }
  }

  lemma SameIndex(s: State, step: Step, s': State, d: Device)
    requires Next(s, step, s') && !step.Migrate?
    ensures step.Construct? && step.d == d && step.key.kind.Motor? ==>
              d in s'.t.motorIdx && s'.t.motorIdx[d] == Index16(step.key.idx)
    ensures !(step.Construct? && step.d == d) ==>
              (d in s'.t.motorIdx <==> d in s.t.motorIdx) && (d in s.t.motorIdx ==> s'.t.motorIdx[d] == s.t.motorIdx[d])
  {
  }

  lemma KeyBefore(s: State, step: Step, s': State, d: Device)
    requires Next(s, step, s') && !step.Migrate? && d in s'.t.deviceKeys
    ensures if d in s.t.deviceKeys then s'.t.deviceKeys[d] == s.t.deviceKeys[d] && !(step.Construct? && step.d == d)
            else step.Commit? && Building(s, step.key, d) && s'.t.deviceKeys[d] == step.key
  {
  }

  /** In every run each motor of the tables carries the index under which they know it, across creation,
      migration and destruction. */
  lemma {:induction false} MotorsKnowTheirIndex(run: seq<State>, steps: seq<Step>, n: nat)
    requires Run(run, steps) && n <= |steps| && Uncontested(run, steps)
    ensures IndexInv(run[n])
  {
    if n > 0 {
      MotorsKnowTheirIndex(run, steps, n - 1);
      RunInv(run, steps, n - 1);
      assert StepAt(run, steps, n - 1);
      StepIndices(run[n - 1], steps[n - 1], run[n]);
    }
  }

  /** Committing a motor makes it the device of its key, with the callback configured for its id. */
  lemma CommitRegisters(s: State, key: DeviceKey, s': State)
    requires Inv(s) && Next(s, Commit(key), s')
    ensures var d := s.creating[key].d;
            && key in s'.t.devices && s'.t.devices[key] == d && d in s'.t.deviceKeys && s'.t.deviceKeys[d] == key
            && d in s'.t.registrations && key !in s'.t.pending
    ensures key.kind.Motor? ==> key.bus in s'.t.busKeys
    ensures key.kind.Motor? ==>
              var d, route := s.creating[key].d, MotorRoute(s'.t.busKeys[key.bus], key.idx);
              && (route in s'.t.callbacks <==> d in s'.t.installed)
              && (route in s'.t.callbacks ==> s'.t.installed[d] == s'.t.callbacks[route])
              && route in s'.t.routes && s'.t.routes[route] in s'.t.records && s'.t.records[s'.t.routes[route]].device == d
  {
    assert BuildingOk(s, key) && Contested(s, key);
    var d := s.creating[key].d;
    if key.kind.Motor? {
      assert PublishedOk(s, key) && RegistrationOk(s.t, d) && EntryOk(s.t, d, s.t.registrations[d].routes[0]);
    }
  }

  /** No table mentions the device: no key, no registration, no route or claim. */
  ghost predicate Forgotten(t: Tables, d: Device) {
    && d !in t.deviceKeys && d !in t.registrations && (forall k | k in t.devices :: t.devices[k] != d)
    && (forall k | k in t.routes :: t.routes[k] in t.records && t.records[t.routes[k]].device != d)
    && (forall k | k in t.claims :: t.claims[k] in t.records && t.records[t.claims[k]].device != d)
  }

  lemma UnregisteredIsForgotten(t: Tables, d: Device)
    requires Valid(t) && d !in t.deviceKeys && d !in t.registrations
    ensures Forgotten(t, d)
  {
    forall k | k in t.routes ensures t.routes[k] in t.records && t.records[t.routes[k]].device != d { assert Owned(t, t.routes[k], k, false); }
    forall k | k in t.claims ensures t.claims[k] in t.records && t.records[t.claims[k]].device != d {
      assert ClaimOwned(t, k);
      var key :| Owned(t, t.claims[k], key, true) && BusKey(key.adapter, RawOf(key.uniqueId)) == k;
    }
  }

  /** A destruction that ends, and the rollback of a creation, leave no trace of the device. */
  lemma NothingIsLeft(s: State, step: Step, s': State, d: Device)
    requires Inv(s) && Next(s, step, s')
    requires step == EndDestroy(d) || (step.Erase? && Building(s, step.key, d))
    ensures Forgotten(s'.t, d)
    ensures step.EndDestroy? ==> d !in s'.dying && OfDevice(d) !in s'.t.deleting
    ensures step.Erase? ==> step.key !in s'.t.devices
  {
    StepValid(s, step, s');
    if step.EndDestroy? { assert DyingOk(s, d); } else { assert BuildingOk(s, step.key); }
    UnregisteredIsForgotten(s'.t, d);
  }

  /** A rollback keeps the maps inverse if and only if nobody has moved onto the key meanwhile. */
  lemma RollbackKeepsInverseExactlyWhen(s: State, key: DeviceKey, s': State)
    requires Inverse(s.t.devices, s.t.deviceKeys) && Next(s, Erase(key), s')
    requires s.creating[key].Sealed? ==> s.creating[key].d !in s.t.deviceKeys
    ensures Inverse(s'.t.devices, s'.t.deviceKeys) <==> key !in s.t.devices
  {
    if key !in s.t.devices {
      assert s'.t.devices == s.t.devices && s'.t.deviceKeys == s.t.deviceKeys;
    } else {
      var d := s.t.devices[key];
      assert d in s'.t.deviceKeys && s'.t.deviceKeys[d] == key && key !in s'.t.devices;
    }
  }

  /** A device that was never published, or is unpublished already, has nothing to detach. */
  lemma NothingToDetach(t: Tables, d: Device)
    requires Valid(t) && d !in t.registrations
    ensures Detached(t, t, d)
  {
  }

  /** A motor key whose creation has published cannot be migrated to: its route is taken. */
  lemma PublishedBlocksMigration(s: State, motor: Device, idx: int)
    requires Inv(s) && motor in s.t.deviceKeys
    requires var key := MotorKey(s.t.deviceKeys[motor].bus, idx); key in s.creating && s.creating[key].Published?
    ensures !Guard(s, Migrate(motor, idx))
  {
    var key := MotorKey(s.t.deviceKeys[motor].bus, idx);
    assert BuildingOk(s, key) && PublishedOk(s, key);
    var d := s.creating[key].d;
    assert RegistrationOk(s.t, d) && EntryOk(s.t, d, s.t.registrations[d].routes[0]);
    assert Contested(s, key) && s.t.devices[s.t.deviceKeys[motor]] == motor;
  }

  /** Once a motor has moved onto a contested key, the creation's rollback erases its entry. */
  lemma ContestedMoveIsErased(s: State, motor: Device, idx: int, s': State) returns (run: seq<State>, steps: seq<Step>)
    requires Inv(s) && Next(s, Migrate(motor, idx), s') && Contested(s, MotorKey(s.t.deviceKeys[motor].bus, idx))
    ensures Path(run, steps) && run[0] == s' && Uncontested(run, steps)
    ensures !Inverse(run[|steps|].t.devices, run[|steps|].t.deviceKeys)
  {
    var key := MotorKey(s.t.deviceKeys[motor].bus, idx);
    assert BuildingOk(s, key);
    MigrateKeepsValid(s.t, motor, idx);
    MigratePending(s.t, motor, idx);
    TakenByTheMove(s, motor, idx);
    run, steps := [s'], [];
    if s.creating[key].Published? {
      PublishedBlocksMigration(s, motor, idx);
    } else if s.creating[key].Constructed? {
      var d := s.creating[key].d;
      NothingToDetach(s'.t, d);
      run, steps := Extend(run, steps, Seal(key), s'.(creating := s'.creating[key := Phase.Sealed(d)]));
      run, steps := EraseTaken(run, steps, key);
    } else {
      run, steps := EraseTaken(run, steps, key);
    }
  }

  lemma TakenByTheMove(s: State, motor: Device, idx: int)
    requires Inv(s) && Guard(s, Migrate(motor, idx)) && Contested(s, MotorKey(s.t.deviceKeys[motor].bus, idx))
    ensures MotorKey(s.t.deviceKeys[motor].bus, idx) in Migrated(s.t, motor, idx).devices
  {
    assert s.t.devices[s.t.deviceKeys[motor]] == motor;
  }

  lemma EraseTaken(run: seq<State>, steps: seq<Step>, key: DeviceKey) returns (run': seq<State>, steps': seq<Step>)
    requires Path(run, steps) && Uncontested(run, steps) && Guard(run[|steps|], Erase(key))
    requires var s := run[|steps|]; Inverse(s.t.devices, s.t.deviceKeys) && key in s.t.devices
    requires var s := run[|steps|]; s.creating[key].Sealed? ==> s.creating[key].d !in s.t.deviceKeys
    ensures Path(run', steps') && run'[0] == run[0] && Uncontested(run', steps')
    ensures !Inverse(run'[|steps'|].t.devices, run'[|steps'|].t.deviceKeys)
  {
    var s := run[|steps|];
    var t := s.t.(devices := s.t.devices - {key},
                  deviceKeys := if s.creating[key].Sealed? then s.t.deviceKeys - {s.creating[key].d} else s.t.deviceKeys);
    var s' := s.(t := t, creating := s.creating[key := Erased]);
    RollbackKeepsInverseExactlyWhen(s, key, s');
    run', steps' := Extend(run, steps, Erase(key), s');
  }

  /** The restriction is exact: a migration onto a key that is not under construction leaves `devices`
      and `device_keys` inverse however the run goes on; after one onto a key under construction they
      need not stay so. */
  lemma MigrationIsSafeExactlyWhen(s: State, motor: Device, idx: int, s': State)
    requires Inv(s) && Next(s, Migrate(motor, idx), s')
    ensures !Contested(s, MotorKey(s.t.deviceKeys[motor].bus, idx)) <==>
            forall run: seq<State>, steps: seq<Step> | Path(run, steps) && run[0] == s' && Uncontested(run, steps)
              :: Inverse(run[|steps|].t.devices, run[|steps|].t.deviceKeys)
  {
    if Contested(s, MotorKey(s.t.deviceKeys[motor].bus, idx)) {
      var run, steps := ContestedMoveIsErased(s, motor, idx, s');
    } else {
      StepInv(s, Migrate(motor, idx), s');
      forall run: seq<State>, steps: seq<Step> | Path(run, steps) && run[0] == s' && Uncontested(run, steps)
        ensures Inverse(run[|steps|].t.devices, run[|steps|].t.deviceKeys)
      {
        PathInv(run, steps, |steps|);
      }
    }
  }

  /** A reserved id is never published, and it stays reserved until its own motor releases it or moves. */
  lemma ReservationHolds(s: State, step: Step, s': State, route: RouteKey)
    requires Inv(s) && Next(s, step, s') && route in s.t.routeReservations
    ensures route !in s.t.routes
    ensures route in s'.t.routeReservations || step.Release? || step.Migrate?
    ensures route in s'.t.routeReservations ==> s'.t.routeReservations[route] == s.t.routeReservations[route] && route !in s'.t.routes
    ensures route !in s'.t.routeReservations ==>
              && step.d == s.t.routeReservations[route] && step.d in s.t.deviceKeys
              && s.t.deviceKeys[step.d].bus in s.t.busKeys
              && route == MotorRoute(s.t.busKeys[s.t.deviceKeys[step.d].bus], step.idx)
              && (route in s'.t.routes ==> step.Migrate? && s'.t.routes[route] in s'.t.records
                                           && s'.t.records[s'.t.routes[route]].device == step.d)
  {
    StepValid(s, step, s');
    if step.Migrate? {
      MigrationFreesOneReservation(s.t, step.d, step.idx, route);
    } else {
      OtherStepsKeepReservations(s, step, s', route);
    }
  }

  lemma OtherStepsKeepReservations(s: State, step: Step, s': State, route: RouteKey)
    requires Next(s, step, s') && route in s.t.routeReservations && !step.Migrate?
    ensures route in s'.t.routeReservations || step.Release?
    ensures route in s'.t.routeReservations ==> s'.t.routeReservations[route] == s.t.routeReservations[route]
    ensures route !in s'.t.routeReservations ==>
              && step.d == s.t.routeReservations[route] && step.d in s.t.deviceKeys
              && s.t.deviceKeys[step.d].bus in s.t.busKeys
              && route == MotorRoute(s.t.busKeys[s.t.deviceKeys[step.d].bus], step.idx)
              && s'.t.routes == s.t.routes
  {
  }

  lemma MigrationFreesOneReservation(t: Tables, motor: Device, idx: int, route: RouteKey)
    requires Valid(t) && MayMigrate(t, motor, idx) && route in t.routeReservations
    ensures var u := Migrated(t, motor, idx);
            && (route in u.routeReservations ==> u.routeReservations[route] == t.routeReservations[route])
            && (route !in u.routeReservations ==>
                  && motor == t.routeReservations[route] && t.deviceKeys[motor].bus in t.busKeys
                  && route == MotorRoute(t.busKeys[t.deviceKeys[motor].bus], idx)
                  && (route in u.routes ==> u.routes[route] in u.records && u.records[u.routes[route]].device == motor))
  {
    if motor in t.registrations {
      MigrationMovesOnlyThisRoute(t, motor, idx);
    }
  }

  // ---------------------------------------------------------------- a run that breaks the inverse

  const KEY0 := MotorKey(1, 0)
  const KEY1 := MotorKey(1, 1)

  function OneMotor(): Tables {
    var route := MotorRoute(BusKey(7, 0), 0);
    Tables(map[1 := BusKey(7, 0)], map[KEY0 := 5], map[5 := KEY0], {}, {},
           map[5 := Registration(7, [RouteEntry(route, 0, false)])], map[route := 0], map[],
           map[0 := RouteRecord(5, false)], 1, map[], map[], map[], map[5 := 0], map[])
  }

  function Alone(): State { State(OneMotor(), map[], map[]) }

  function Holding(): State
    requires MayReserve(OneMotor(), 5, 1)
  {
    Alone().(t := Reserved(OneMotor(), 5, 1))
  }

  function Challenged(): State
    requires MayReserve(OneMotor(), 5, 1)
  {
    Holding().(t := Holding().t.(pending := {KEY1}), creating := map[KEY1 := Leading])
  }

  function Moved(): State
    requires MayReserve(OneMotor(), 5, 1) && MayMigrate(Challenged().t, 5, 1)
  {
    Challenged().(t := Migrated(Challenged().t, 5, 1))
  }

  function RolledBack(): State
    requires MayReserve(OneMotor(), 5, 1) && MayMigrate(Challenged().t, 5, 1)
  {
    Moved().(t := Moved().t.(devices := Moved().t.devices - {KEY1}), creating := map[KEY1 := Erased])
  }

  lemma MotorHolds()
    ensures Valid(OneMotor()) && MayReserve(OneMotor(), 5, 1) && Next(Alone(), Reserve(5, 1), Holding()) && Valid(Holding().t)
  {
    OneMotorValid();
    ReservedValid(OneMotor(), 5, 1);
  }

  lemma CreationContests()
    requires MayReserve(OneMotor(), 5, 1) && Valid(Holding().t)
    ensures Next(Holding(), Lead(KEY1), Challenged()) && Valid(Challenged().t)
  {
    BookkeepingValid(Holding(), Lead(KEY1), Challenged());
  }

  lemma MotorMoves()
    requires MayReserve(OneMotor(), 5, 1) && Valid(Challenged().t)
    ensures MayMigrate(Challenged().t, 5, 1) && Next(Challenged(), Migrate(5, 1), Moved()) && Valid(Moved().t)
    ensures KEY1 in Moved().t.devices && Moved().creating == map[KEY1 := Leading]
  {
    MigrateKeepsValid(Challenged().t, 5, 1);
  }

  lemma CreationRollsBack()
    requires MayReserve(OneMotor(), 5, 1) && MayMigrate(Challenged().t, 5, 1) && Valid(Moved().t)
    requires KEY1 in Moved().t.devices && Moved().creating == map[KEY1 := Leading]
    ensures Next(Moved(), Erase(KEY1), RolledBack())
    ensures !Inverse(RolledBack().t.devices, RolledBack().t.deviceKeys)
  {
    assert map[KEY1 := Leading][KEY1 := Erased] == map[KEY1 := Erased];
    RollbackKeepsInverseExactlyWhen(Moved(), KEY1, RolledBack());
  }

  /** Motor 5 reserves index 1, another thread starts to create the motor with index 1, motor 5 moves
      there, and the creation fails, rolls back and erases motor 5's entry. */
  lemma RollbackErasesAMovedMotor() returns (run: seq<State>, steps: seq<Step>)
    ensures Run(run, steps)
    ensures !Inverse(run[|steps|].t.devices, run[|steps|].t.deviceKeys)
  {
    MotorHolds();
    CreationContests();
    MotorMoves();
    CreationRollsBack();
    run, steps := [Alone()], [];
    run, steps := Extend(run, steps, Reserve(5, 1), Holding());
    run, steps := Extend(run, steps, Lead(KEY1), Challenged());
    run, steps := Extend(run, steps, Migrate(5, 1), Moved());
    run, steps := Extend(run, steps, Erase(KEY1), RolledBack());
  }

  lemma OneMotorValid()
    ensures Valid(OneMotor())
  {
    var t := OneMotor();
    var route := MotorRoute(BusKey(7, 0), 0);
    assert t.registrations[5].routes[0] == RouteEntry(route, 0, false);
    assert EntryOk(t, 5, t.registrations[5].routes[0]);
    assert RegistrationOk(t, 5);
    assert Owned(t, 0, route, false);
  }
}
