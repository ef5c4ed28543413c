/** The WASM runtime store: the methods over its tables, and what holds over whole runs of them
    (src/wasm/wasm_runtime.cc:44-103, 105-158, 160-298, 300-372, 388-416, 433-474).
 */
module WasmRuntime {
  import opened WasmStore

  // ---------------------------------------------------------------- the loops

  /** Extracts the nodes of the listed handles. */
  method ExtractAll<V>(m: map<Handle, V>, handles: seq<Handle>) returns (rest: map<Handle, V>, removed: map<Handle, V>)
    ensures rest == m - Members(handles)
    ensures removed.Keys == m.Keys * Members(handles) && forall h | h in removed :: removed[h] == m[h]
  {
    rest, removed := m, map[];
    for i := 0 to |handles|
      invariant forall h :: h in rest <==> h in m && h !in handles[..i]
      invariant forall h | h in rest :: rest[h] == m[h]
      invariant forall h :: h in removed <==> h in m && h in handles[..i]
      invariant forall h | h in removed :: removed[h] == m[h]
    {
      var h := handles[i];
      assert handles[..i + 1] == handles[..i] + [h];
      if h in rest {
        removed := removed[h := rest[h]];
        rest := rest - {h};
      }
    }
    assert handles[..|handles|] == handles;
  }

  /** Puts the extracted nodes back. */
  method RestoreAll<V>(rest: map<Handle, V>, removed: map<Handle, V>) returns (m: map<Handle, V>)
    requires rest.Keys !! removed.Keys
    ensures m == rest + removed
  {
    m := rest;
    var left := removed.Keys;
    while left != {}
      invariant left <= removed.Keys
      invariant forall h :: h in m <==> h in rest || (h in removed && h !in left)
      invariant forall h | h in rest :: m[h] == rest[h]
      invariant forall h | h in removed && h !in left :: m[h] == removed[h]
      decreases |left|
    {
      var h :| h in left;
      m := m[h := removed[h]];
      left := left - {h};
    }
  }

  /** The tables when the deletions in `done` have been polled. */
  ghost predicate PartlyPolled(s: Store, ready: set<Adapter>, done: set<Adapter>, u: Store) {
    && (forall a :: a in u.pending <==> a in s.pending && !(a in done && Leaves(s, ready, a)))
    && (forall a | a in u.pending ::
          u.pending[a] == if a in done && !s.pending[a].exhausted then Retried(s.pending[a]) else s.pending[a])
    && u == s.(pending := u.pending, reserved := s.reserved - LeavingNames(s, ready * done),
               leases := s.leases - Leaving(s, ready * done), adapters := s.adapters - LeavingHandles(s, ready * done),
               manager := s.manager - LeavingNames(s, ready * done))
  }

  lemma OneMoreLeaving(s: Store, ready: set<Adapter>, done: set<Adapter>, a: Adapter)
    requires a in s.pending
    ensures var was, now := ready * done, ready * (done + {a});
            if Leaves(s, ready, a) then
              && LeavingHandles(s, now) == LeavingHandles(s, was) + {s.pending[a].handle}
              && LeavingNames(s, now) == LeavingNames(s, was) + {s.pending[a].name}
              && Leaving(s, now) == Leaving(s, was) + {a}
            else
              && LeavingHandles(s, now) == LeavingHandles(s, was) && LeavingNames(s, now) == LeavingNames(s, was)
              && Leaving(s, now) == Leaving(s, was)
  {
    var was, now := ready * done, ready * (done + {a});
    assert forall b :: Leaves(s, now, b) <==> Leaves(s, was, b) || (b == a && Leaves(s, ready, a));
  }

  lemma MinusBoth<K, V>(m: map<K, V>, x: set<K>, k: K)
    ensures m - (x + {k}) == m - x - {k}
  {
  }

  /** One poll that leaves the deletion pending, or is the end of it. */
  lemma PolledOne(s: Store, ready: set<Adapter>, done: set<Adapter>, u: Store, a: Adapter)
    requires PartlyPolled(s, ready, done, u) && a in s.pending && a !in done
    ensures a in u.pending && u.pending[a] == s.pending[a]
    ensures s.pending[a].exhausted ==> PartlyPolled(s, ready, done + {a}, u)
    ensures !s.pending[a].exhausted && a !in ready ==>
              PartlyPolled(s, ready, done + {a}, u.(pending := u.pending[a := Retried(s.pending[a])]))
    ensures Leaves(s, ready, a) ==>
              var p := s.pending[a];
              PartlyPolled(s, ready, done + {a},
                           u.(pending := u.pending - {a}, reserved := u.reserved - {p.name}, leases := u.leases - {a},
                              adapters := u.adapters - {p.handle}, manager := u.manager - {p.name}))
  {
    OneMoreLeaving(s, ready, done, a);
    MinusBoth(s.leases, Leaving(s, ready * done), a);
    MinusBoth(s.adapters, LeavingHandles(s, ready * done), s.pending[a].handle);
    MinusBoth(s.manager, LeavingNames(s, ready * done), s.pending[a].name);
  }

  lemma AllPolled(s: Store, ready: set<Adapter>, u: Store)
    requires PartlyPolled(s, ready, s.pending.Keys, u)
    ensures u == Polled(s, ready)
  {
    assert forall a :: Leaves(s, ready * s.pending.Keys, a) <==> Leaves(s, ready, a);
    assert LeavingHandles(s, ready * s.pending.Keys) == LeavingHandles(s, ready);
    assert LeavingNames(s, ready * s.pending.Keys) == LeavingNames(s, ready);
    assert Leaving(s, ready * s.pending.Keys) == Leaving(s, ready);
    assert u.pending == Polled(s, ready).pending;
  }

  ghost predicate SomeRetry(s: Store, ready: set<Adapter>, done: set<Adapter>) {
    exists a :: a in done && NeedsRetry(s, ready, a)
  }

  ghost predicate SomeDelay(s: Store, ready: set<Adapter>, done: set<Adapter>, delay: nat) {
    exists a :: a in done && NeedsRetry(s, ready, a) && delay == Retried(s.pending[a]).delay
  }

  /** `delay` is the shortest of the delays after which a deletion in `done` is to be tried again. */
  ghost predicate ShortestDelay(s: Store, ready: set<Adapter>, done: set<Adapter>, retry: bool, delay: nat) {
    && (retry <==> SomeRetry(s, ready, done))
    && (forall a | a in done && NeedsRetry(s, ready, a) :: delay <= Retried(s.pending[a]).delay)
    && (if retry then SomeDelay(s, ready, done, delay) else delay == MAX_DELAY)
  }

  function Min(a: nat, b: nat): nat { if a < b then a else b }

  lemma OneMoreDelay(s: Store, ready: set<Adapter>, done: set<Adapter>, retry: bool, delay: nat, a: Adapter)
    requires ShortestDelay(s, ready, done, retry, delay) && a in s.pending
    ensures if NeedsRetry(s, ready, a) then
              ShortestDelay(s, ready, done + {a}, true, Min(delay, Retried(s.pending[a]).delay))
            else ShortestDelay(s, ready, done + {a}, retry, delay)
  {
    if SomeDelay(s, ready, done, delay) {
      var b :| b in done && NeedsRetry(s, ready, b) && delay == Retried(s.pending[b]).delay;
      assert b in done + {a};
    }
    if SomeRetry(s, ready, done) {
      var b :| b in done && NeedsRetry(s, ready, b);
      assert b in done + {a};
    }
    if NeedsRetry(s, ready, a) {
      assert a in done + {a};
      assert SomeRetry(s, ready, done + {a});
    }
  }

  /** One attempt at one pending deletion. */
  method PollOne(ghost s: Store, ready: set<Adapter>, ghost done: set<Adapter>, u: Store, a: Adapter, retry: bool, delay: nat)
    returns (u': Store, retry': bool, delay': nat)
    requires a in s.pending && a !in done
    requires PartlyPolled(s, ready, done, u) && ShortestDelay(s, ready, done, retry, delay)
    ensures PartlyPolled(s, ready, done + {a}, u') && ShortestDelay(s, ready, done + {a}, retry', delay')
  {
    PolledOne(s, ready, done, u, a);
    OneMoreDelay(s, ready, done, retry, delay, a);
    u', retry', delay' := u, retry, delay;
    var p := u.pending[a];
    if !p.exhausted {
      if a !in ready {
        u' := u.(pending := u.pending[a := Retried(p)]);
        if !Retried(p).exhausted {
          retry', delay' := true, Min(delay, Retried(p).delay);
        }
      } else {
        u' := u.(pending := u.pending - {a}, reserved := u.reserved - {p.name}, leases := u.leases - {a},
                 adapters := u.adapters - {p.handle}, manager := u.manager - {p.name});
      }
    }
  }

  lemma NothingPolled(s: Store, ready: set<Adapter>)
    ensures PartlyPolled(s, ready, {}, s) && ShortestDelay(s, ready, {}, false, MAX_DELAY)
  {
    assert LeavingNames(s, ready * {}) == {} && LeavingHandles(s, ready * {}) == {} && Leaving(s, ready * {}) == {};
    assert s.leases - {} == s.leases && s.adapters - {} == s.adapters && s.manager - {} == s.manager;
  }

  /** One attempt at every pending deletion that has not given up. */
  method PollAll(s: Store, ready: set<Adapter>) returns (u: Store, retry: bool, delay: nat)
    ensures u == Polled(s, ready) && ShortestDelay(s, ready, s.pending.Keys, retry, delay)
  {
    u, retry, delay := s, false, MAX_DELAY;
    NothingPolled(s, ready);
    var left := s.pending.Keys;
    ghost var done: set<Adapter> := {};
    while left != {}
      invariant left !! done && left + done == s.pending.Keys
      invariant PartlyPolled(s, ready, done, u) && ShortestDelay(s, ready, done, retry, delay)
      decreases |left|
    {
      var a :| a in left;
      left := left - {a};
      u, retry, delay := PollOne(s, ready, done, u, a, retry, delay);
      done := done + {a};
    }
    assert done == s.pending.Keys;
    AllPolled(s, ready, u);
  }

  lemma AddThenRemove<K, V>(m: map<K, V>, k: K, v: V)
    requires k !in m
    ensures m[k := v] - {k} == m
  {
    assert (m[k := v] - {k}).Keys == m.Keys;
  }

  /** Taking nodes out and putting them back gives the map from before. */
  lemma Rejoin<V>(m: map<Handle, V>, handles: set<Handle>, removed: map<Handle, V>)
    requires removed.Keys == m.Keys * handles && forall h | h in removed :: removed[h] == m[h]
    ensures (m - handles) + removed == m
  {
    assert ((m - handles) + removed).Keys == m.Keys;
  }

  /** An adapter handle in the middle of its disposal. */
  function Marked(s: Store, h: Handle): Store
    requires h in s.adapters
  {
    WithoutChildren(s, h).(adapters := s.adapters[h := s.adapters[h].(disposing := true)])
  }

  // ---------------------------------------------------------------- the store

  class RuntimeStore {
    var next: Handle
    var adapters: map<Handle, AdapterEntry>
    var buses: map<Handle, BusEntry>
    var motors: map<Handle, MotorEntry>
    var leases: map<Adapter, nat>
    var pending: map<Adapter, Pending>
    var reserved: set<Name>
    var creating: Option<Creation>
    var manager: map<Name, Adapter>

    ghost function View(): Store
      reads this
    {
      Store(next, adapters, buses, motors, leases, pending, reserved, creating, manager)
    }

    constructor ()
      ensures View() == Empty() && Inv(View())
    {
      next, adapters, buses, motors, leases := 1, map[], map[], map[], map[];
      pending, reserved, creating, manager := map[], {}, None, map[];
    }

    /** A fresh handle, or nothing when the handle space is used up. */
    method AllocateHandle() returns (handle: Option<Handle>)
      modifies `next
      ensures handle == if old(next) == MAX_HANDLE then None else Some(old(next))
      ensures next == if handle.Some? then old(next) + 1 else old(next)
    {
      if next == MAX_HANDLE {
        return None;
      }
      handle := Some(next);
      next := next + 1;
    }

    method CreateAdapter(typeIsEmpty: bool, name: Name, made: Made) returns (code: Code, handle: Handle)
      requires Inv(View()) && ManagerAnswers(View(), name, made)
      modifies this
      ensures View() == if typeIsEmpty then old(View()) else Created(old(View()), name, false, made)
      ensures code == if typeIsEmpty then InvalidArgument else CreateCode(old(View()), name, false, made)
      ensures code.Success? ==> handle == old(next)
    {
      NullIsUnleased(View());
      NextIsNew(View());
      if typeIsEmpty {
        return InvalidArgument, 0;
      }
      code, handle := Create(name, false, made);
    }

    method CreateFakeAdapter(name: Name, made: Made) returns (code: Code, handle: Handle)
      requires Inv(View()) && ManagerAnswers(View(), name, made)
      modifies this
      ensures View() == Created(old(View()), name, true, made)
      ensures code == CreateCode(old(View()), name, true, made)
      ensures code.Success? ==> handle == old(next)
    {
      NullIsUnleased(View());
      NextIsNew(View());
      code, handle := Create(name, true, made);
    }

    /** What both share: the entry and a lease node for the null adapter are set up before the manager is
        asked, and taken back when it does not give a usable adapter. */
    method Create(name: Name, fake: bool, made: Made) returns (code: Code, handle: Handle)
      requires NULL !in leases && next !in adapters
      modifies this
      ensures View() == Created(old(View()), name, fake, made)
      ensures code == CreateCode(old(View()), name, fake, made)
      ensures code.Success? ==> handle == old(next)
    {
      if name in reserved {
        return Disposed, 0;
      }
      var slot := AllocateHandle();
      if slot.None? {
        return Threw, 0;
      }
      handle := slot.value;
      adapters := adapters[handle := AdapterEntry(NULL, fake, name, map[], [], [], false, false)];
      leases := leases[NULL := 0];
      if made.Returns? {
        manager := manager[name := made.adapter];
      }
      if !made.Returns? || (fake && !made.isFake) {
        AddThenRemove(old(adapters), handle, adapters[handle]);
        AddThenRemove(old(leases), NULL, 0);
        RollBackReservation(handle);
        return if made.Throws? then Threw else if made.Null? && !fake then OperationFailed else WrongAdapterType, 0;
      }
      AddThenRemove(old(leases), NULL, 0);
      CompleteCreation(handle, made.adapter);
      return Success, handle;
    }

    method CompleteCreation(handle: Handle, adapter: Adapter)
      requires NULL in leases && handle in adapters
      modifies `leases, `adapters
      ensures adapters == old(adapters)[handle := old(adapters)[handle].(adapter := adapter, valid := true)]
      ensures var was := old(leases) - {NULL};
              leases == was[adapter := if adapter in was then was[adapter] + 1 else 1]
    {
      TakeLease(adapter);
      adapters := adapters[handle := adapters[handle].(adapter := adapter, valid := true)];
    }

    method RollBackReservation(handle: Handle)
      modifies `leases, `adapters
      ensures leases == old(leases) - {NULL} && adapters == old(adapters) - {handle}
    {
      leases, adapters := leases - {NULL}, adapters - {handle};
    }

    /** Turns the reserved node into the adapter's first lease, or adds one to those it has. */
    method TakeLease(adapter: Adapter)
      requires NULL in leases
      modifies `leases
      ensures var was := old(leases) - {NULL};
              leases == was[adapter := if adapter in was then was[adapter] + 1 else 1]
    {
      var rest := leases - {NULL};
      if adapter !in rest {
        leases := rest[adapter := 1];
      } else {
        leases := rest[adapter := rest[adapter] + 1];
      }
    }

    method GetBus(h: Handle, raw: Option<int>) returns (code: Code, handle: Handle)
      modifies this
      ensures View() == WithBus(old(View()), h, raw) && code == BusCode(old(View()), h, raw)
      ensures code.Success? ==> handle == BusHandle(old(View()), h, raw)
    {
      if h !in adapters || !adapters[h].valid {
        return InvalidHandle, 0;
      }
      if raw.None? {
        return OperationFailed, 0;
      }
      var e := adapters[h];
      if raw.value in e.busByRaw {
        return Success, e.busByRaw[raw.value];
      }
      var slot := AllocateHandle();
      if slot.None? {
        return Threw, 0;
      }
      handle := slot.value;
      buses := buses[handle := BusEntry(h, raw.value, map[])];
      adapters := adapters[h := e.(busByRaw := e.busByRaw[raw.value := handle], buses := e.buses + [handle])];
      return Success, handle;
    }

    /** Returns the motor's handle, or starts creating it; `existing` is set in the first case. */
    method StartGetMotor(b: Handle, idx: int) returns (code: Code, existing: Option<Handle>)
      modifies `creating
      ensures code == MotorCode(old(View()), b, idx)
      ensures View() == if BeginsMotor(old(View()), b, idx) then old(View()).(creating := Some(Creation(b, idx))) else old(View())
      ensures existing == if ResolvesBus(old(View()), b) && idx in buses[b].motorByIdx then Some(buses[b].motorByIdx[idx]) else None
    {
      if b !in buses || buses[b].owner !in adapters || !adapters[buses[b].owner].valid {
        return InvalidHandle, None;
      }
      if idx in buses[b].motorByIdx {
        return Success, Some(buses[b].motorByIdx[idx]);
      }
      if creating.Some? {
        return OperationFailed, None;
      }
      creating := Some(Creation(b, idx));
      return Success, None;
    }

    /** The rest of the call, once the bus has answered. */
    method FinishGetMotor(made: bool) returns (code: Code, handle: Handle)
      requires creating.Some? && ResolvesBus(View(), creating.value.bus)
      modifies this
      ensures View() == WithMotor(old(View()), made) && code == FinishCode(old(View()), made)
      ensures code.Success? ==> handle == old(next)
    {
      var c := creating.value;
      creating := None;
      if !made {
        return OperationFailed, 0;
      }
      var slot := AllocateHandle();
      if slot.None? {
        return Threw, 0;
      }
      handle := slot.value;
      var bus := buses[c.bus];
      motors := motors[handle := MotorEntry(bus.owner, c.bus, c.idx)];
      buses := buses[c.bus := bus.(motorByIdx := bus.motorByIdx[c.idx := handle])];
      if bus.owner in adapters && adapters[bus.owner].valid {
        var e := adapters[bus.owner];
        adapters := adapters[bus.owner := e.(motors := e.motors + [handle])];
      }
      return Success, handle;
    }

    /** `drained` says whether the adapter's motors have no waiters left, `destroyed` whether the manager
        destroys it, `ready` which pending deletions a poll can complete. */
    method DisposeAdapter(h: Handle, drained: bool, destroyed: bool, ready: set<Adapter>) returns (code: Code)
      modifies this
      ensures View() == AfterDispose(old(View()), h, drained, destroyed, ready)
      ensures code == DisposeCode(old(View()), h, drained, destroyed)
    {
      if h in adapters && !adapters[h].valid && adapters[h].disposing {
        var a := adapters[h].adapter;
        if a !in pending || pending[a].handle != h {
          return InvalidHandle;
        }
        if !pending[a].exhausted {
          return Success;
        }
        pending := pending[a := pending[a].(exhausted := false, retries := 0, delay := 1)];
        var wait := Poll(ready);
        return Success;
      }
      if h !in adapters || !adapters[h].valid || adapters[h].disposing {
        return InvalidHandle;
      }
      code := DisposeValid(h, drained, destroyed);
    }

    method DisposeValid(h: Handle, drained: bool, destroyed: bool) returns (code: Code)
      requires h in adapters && adapters[h].valid && !adapters[h].disposing
      modifies this
      ensures View() == Dropped(old(View()), h, drained, destroyed)
      ensures code == DisposeCode(old(View()), h, drained, destroyed)
    {
      if creating.Some? && creating.value.bus in buses && buses[creating.value.bus].owner in adapters
         && adapters[buses[creating.value.bus].owner].adapter == adapters[h].adapter {
        return OperationFailed;
      }
      ghost var was := View();
      var e := adapters[h];
      var removedMotors, removedBuses := ExtractChildren(h);
      code := DisposeChildless(h, e, drained, destroyed);
      if code.Success? {
        SettledForgets(WithoutChildren(was, h), h, e, drained);
      } else {
        RestoreChildren(was, h, e, removedMotors, removedBuses);
      }
    }

    /** Marks the entry and takes its children out of the tables. */
    method ExtractChildren(h: Handle) returns (removedMotors: map<Handle, MotorEntry>, removedBuses: map<Handle, BusEntry>)
      requires h in adapters
      modifies this
      ensures View() == Marked(old(View()), h)
      ensures removedMotors.Keys == old(motors).Keys * Members(old(adapters)[h].motors)
      ensures forall m | m in removedMotors :: removedMotors[m] == old(motors)[m]
      ensures removedBuses.Keys == old(buses).Keys * Members(old(adapters)[h].buses)
      ensures forall b | b in removedBuses :: removedBuses[b] == old(buses)[b]
    {
      var e := adapters[h];
      adapters := adapters[h := e.(disposing := true)];
      motors, removedMotors := ExtractAll(motors, e.motors);
      buses, removedBuses := ExtractAll(buses, e.buses);
    }

    /** Undoes the extraction. */
    method RestoreChildren(ghost was: Store, h: Handle, e: AdapterEntry, removedMotors: map<Handle, MotorEntry>,
                           removedBuses: map<Handle, BusEntry>)
      requires h in was.adapters && e == was.adapters[h] && View() == Marked(was, h)
      requires removedMotors.Keys == was.motors.Keys * Members(e.motors) && forall m | m in removedMotors :: removedMotors[m] == was.motors[m]
      requires removedBuses.Keys == was.buses.Keys * Members(e.buses) && forall b | b in removedBuses :: removedBuses[b] == was.buses[b]
      modifies this
      ensures View() == was
    {
      motors := RestoreAll(motors, removedMotors);
      buses := RestoreAll(buses, removedBuses);
      adapters := adapters[h := e];
      Rejoin(was.motors, Members(e.motors), removedMotors);
      Rejoin(was.buses, Members(e.buses), removedBuses);
      assert adapters == was.adapters;
    }

    /** The disposal once the children have been extracted; on failure only those, and the mark on the
        entry, remain to be restored. */
    method DisposeChildless(h: Handle, e: AdapterEntry, drained: bool, destroyed: bool) returns (code: Code)
      requires h in adapters && adapters[h] == e.(disposing := true)
      modifies this
      ensures code == if e.adapter !in old(leases) || old(leases)[e.adapter] == 0 then InternalError
                      else if old(leases)[e.adapter] > 1 then Success
                      else if !drained then if e.adapter !in old(pending) then Success else InternalError
                      else if destroyed then Success else OperationFailed
      ensures View() == if code.Success? then Settled(old(View()), h, e, drained) else old(View())
    {
      if e.adapter !in leases || leases[e.adapter] == 0 {
        return InternalError;
      }
      if leases[e.adapter] > 1 {
        leases := leases[e.adapter := leases[e.adapter] - 1];
        adapters := adapters - {h};
        return Success;
      }
      if !drained {
        var begun := BeginPendingAdapterDeletion(h);
        return if begun then Success else InternalError;
      }
      if !destroyed {
        return OperationFailed;
      }
      manager := manager - {e.name};
      leases, adapters := leases - {e.adapter}, adapters - {h};
      return Success;
    }

    method BeginPendingAdapterDeletion(h: Handle) returns (begun: bool)
      modifies this
      ensures begun <==> && h in old(adapters) && old(adapters)[h].adapter !in old(pending)
                         && old(adapters)[h].adapter in old(leases) && old(leases)[old(adapters)[h].adapter] == 1
      ensures !begun ==> View() == old(View())
      ensures begun ==>
                var e := old(adapters)[h];
                View() == old(View()).(pending := old(pending)[e.adapter := FirstTry(e, h)], reserved := old(reserved) + {e.name},
                                       adapters := old(adapters)[h := e.(valid := false, disposing := true)])
    {
      if h !in adapters || adapters[h].adapter in pending {
        return false;
      }
      var e := adapters[h];
      if e.adapter !in leases || leases[e.adapter] != 1 {
        return false;
      }
      pending := pending[e.adapter := Pending(h, e.name, 0, 1, false)];
      reserved := reserved + {e.name};
      adapters := adapters[h := e.(valid := false, disposing := true)];
      return true;
    }

    /** The next delay in milliseconds, or 0 when nothing needs another attempt. */
    method Poll(ready: set<Adapter>) returns (wait: nat)
      modifies this
      ensures View() == Polled(old(View()), ready)
      ensures SomeRetry(old(View()), ready, old(pending).Keys) ==> ShortestDelay(old(View()), ready, old(pending).Keys, true, wait)
      ensures !SomeRetry(old(View()), ready, old(pending).Keys) ==> wait == 0
    {
      var u, retry, delay := PollAll(Store(next, adapters, buses, motors, leases, pending, reserved, creating, manager), ready);
      pending, reserved, leases, adapters, manager := u.pending, u.reserved, u.leases, u.adapters, u.manager;
      wait := if retry then delay else 0;
    }
  }

  /** The mark on the entry being disposed of does not outlive the disposal. */
  lemma SettledForgets(rest: Store, h: Handle, e: AdapterEntry, drained: bool)
    requires h in rest.adapters && e.adapter in rest.leases && rest.leases[e.adapter] > 0
    ensures Settled(rest.(adapters := rest.adapters[h := e.(disposing := true)]), h, e, drained) == Settled(rest, h, e, drained)
  {
    assert rest.adapters[h := e.(disposing := true)] - {h} == rest.adapters - {h};
  }
}
