/** When each call of the WASM store succeeds, and what exactly it has then done
    (src/wasm/wasm_runtime.cc:51-103, 105-158, 160-298, 333-372, 388-416, 433-474).
 */
module WasmOutcomes {
  import opened WasmStore

  /** Some adapter of this interface name is waiting to be deleted. */
  ghost predicate AwaitsDeletion(s: Store, name: Name) {
    exists a :: a in s.pending && s.pending[a].name == name
  }

  lemma ReservedNames(s: Store, name: Name)
    requires Inv(s)
    ensures name in s.reserved <==> AwaitsDeletion(s, name)
  {
    forall a | a in s.pending ensures s.pending[a].name in s.reserved { assert PendingOk(s, a); }
    if name in s.reserved { assert ReservedOk(s, name); }
  }

  /** Creating succeeds exactly when no deletion of that interface is pending, a handle is left and the
      manager answers with an adapter, a fake one if a fake one was asked for. */
  lemma CreateOutcome(s: Store, name: Name, fake: bool, made: Made)
    requires Inv(s) && ManagerAnswers(s, name, made)
    ensures var code := CreateCode(s, name, fake, made);
            && (code.Disposed? <==> AwaitsDeletion(s, name))
            && (code.Success? <==>
                  !AwaitsDeletion(s, name) && s.next < MAX_HANDLE && made.Returns? && (fake ==> made.isFake))
            && (!AwaitsDeletion(s, name) && s.next < MAX_HANDLE && !made.Throws? && !code.Success? ==>
                  code == if fake then WrongAdapterType else OperationFailed)
  {
    ReservedNames(s, name);
  }

  /** A created handle is one more of its adapter, and of no other; a failure adds none. */
  lemma CreateAddsOneHandle(s: Store, name: Name, fake: bool, made: Made, a: Adapter)
    requires s.next !in s.adapters
    ensures var u := Created(s, name, fake, made);
            HandlesOf(u.adapters, a) ==
            HandlesOf(s.adapters, a) + if CreateCode(s, name, fake, made).Success? && a == made.adapter then {s.next} else {}
    ensures Created(s, name, fake, made).buses == s.buses && Created(s, name, fake, made).motors == s.motors
    ensures !CreateCode(s, name, fake, made).Success? ==>
              Created(s, name, fake, made).adapters == s.adapters && Created(s, name, fake, made).leases == s.leases
  {
  }

  /** Getting a bus succeeds exactly for a live adapter handle whose adapter has the bus, as long as a
      handle is left for a bus not seen before; a failure changes nothing, and a success nothing but the
      bus's own entries. */
  lemma BusOutcome(s: Store, h: Handle, raw: Option<int>)
    requires Inv(s)
    ensures var code := BusCode(s, h, raw);
            && (code.InvalidHandle? <==> !(h in s.adapters && s.adapters[h].valid))
            && (h in s.adapters && s.adapters[h].valid ==>
                  && (code.OperationFailed? <==> raw.None?)
                  && (code.Success? <==> raw.Some? && (s.next < MAX_HANDLE || raw.value in s.adapters[h].busByRaw)))
  {
  }

  lemma BusFrame(s: Store, h: Handle, raw: Option<int>, x: Handle)
    requires s.next !in s.buses
    ensures var u := WithBus(s, h, raw);
            && (!BusCode(s, h, raw).Success? ==> u == s)
            && u.motors == s.motors && u.leases == s.leases && u.manager == s.manager && u.pending == s.pending
            && (x in s.adapters && x != h ==> x in u.adapters && u.adapters[x] == s.adapters[x])
            && (x in s.buses ==> x in u.buses && u.buses[x] == s.buses[x])
  {
  }

  /** A motor known to the bus is found under the handle it already has. */
  lemma KnownMotor(s: Store, b: Handle, idx: int)
    requires Inv(s) && b in s.buses && idx in s.buses[b].motorByIdx
    ensures var m := s.buses[b].motorByIdx[idx];
            MotorCode(s, b, idx).Success? && !BeginsMotor(s, b, idx) && ResolvesMotor(s, m) && s.motors[m].bus == b && s.motors[m].idx == idx
  {
    assert BusOk(s, b);
  }

  /** Any other motor of a live bus can be created unless one is being created already; it gets a handle
      if the bus makes it and one is left, and otherwise nothing is changed. */
  lemma MotorOutcome(s: Store, b: Handle, idx: int)
    requires Inv(s)
    ensures MotorCode(s, b, idx).InvalidHandle? <==> b !in s.buses
    ensures b in s.buses && idx !in s.buses[b].motorByIdx ==>
              && (BeginsMotor(s, b, idx) <==> s.creating.None?)
              && (MotorCode(s, b, idx) == if s.creating.None? then Success else OperationFailed)
  {
    if b in s.buses { assert BusOk(s, b); }
  }

  lemma MotorFinish(s: Store, b: Handle, idx: int, made: bool)
    requires BeginsMotor(s, b, idx) && s.next <= MAX_HANDLE
    ensures var t := s.(creating := Some(Creation(b, idx)));
            && (FinishCode(t, made).Success? <==> made && s.next < MAX_HANDLE)
            && ResolvesBus(t, b)
            && WithMotor(t, made).creating == None
            && (!FinishCode(t, made).Success? ==> WithMotor(t, made) == s)
            && (FinishCode(t, made).Success? ==> WithMotor(t, made).motors.Keys == s.motors.Keys + {s.next})
  {
  }

  /** Every other handle stays as it is. */
  lemma MotorFrame(s: Store, made: bool, x: Handle)
    requires s.creating.Some? && ResolvesBus(s, s.creating.value.bus) && s.next !in s.motors
    ensures var u, c := WithMotor(s, made), s.creating.value;
            && u.leases == s.leases && u.manager == s.manager && u.pending == s.pending && u.reserved == s.reserved
            && (x in s.motors ==> x in u.motors && u.motors[x] == s.motors[x])
            && (x in s.buses && x != c.bus ==> x in u.buses && u.buses[x] == s.buses[x])
            && (x in s.adapters && x != s.buses[c.bus].owner ==> x in u.adapters && u.adapters[x] == s.adapters[x])
            && (forall i | i in s.buses[c.bus].motorByIdx && i != c.idx ::
                  i in u.buses[c.bus].motorByIdx && u.buses[c.bus].motorByIdx[i] == s.buses[c.bus].motorByIdx[i])
  {
  }

  /** The handles of an adapter that has this one are at least it alone. */
  lemma HandleCount(s: Store, h: Handle)
    requires Inv(s) && h in s.adapters
    ensures var a := s.adapters[h].adapter;
            a in s.leases && h in HandlesOf(s.adapters, a) && (s.leases[a] == 1 <==> HandlesOf(s.adapters, a) == {h})
  {
    var a := s.adapters[h].adapter;
    assert EntryOk(s, h) && LeaseOk(s, a);
    if s.leases[a] == 1 { LastHandle(s, h); }
  }

  /** A handle that is not the last of its adapter can always be disposed of, unless a motor is being
      created on the adapter: just this handle goes, and the adapter lives on. */
  lemma DisposeOneOfSeveral(s: Store, h: Handle, drained: bool, destroyed: bool)
    requires Inv(s) && ResolvesAdapter(s, h) && CreatingFor(s) != Some(s.adapters[h].adapter)
    requires HandlesOf(s.adapters, s.adapters[h].adapter) != {h}
    ensures DisposeCode(s, h, drained, destroyed).Success?
    ensures var u, a := Dropped(s, h, drained, destroyed), s.adapters[h].adapter;
            && u.adapters == s.adapters - {h} && HandlesOf(u.adapters, a) == HandlesOf(s.adapters, a) - {h}
            && u.manager == s.manager && u.pending == s.pending && u.reserved == s.reserved
  {
    HandleCount(s, h);
    LastFacts(s, h);
    Several(s, h);
    OneOfSeveralDropped(s, h, drained, destroyed);
  }

  lemma Several(s: Store, h: Handle)
    requires Inv(s) && h in s.adapters && HandlesOf(s.adapters, s.adapters[h].adapter) != {h}
    ensures s.adapters[h].adapter in s.leases && s.leases[s.adapters[h].adapter] > 1
  {
    HandleCount(s, h);
    assert LeaseOk(s, s.adapters[h].adapter);
  }

  lemma OneOfSeveralDropped(s: Store, h: Handle, drained: bool, destroyed: bool)
    requires ResolvesAdapter(s, h) && CreatingFor(s) != Some(s.adapters[h].adapter) && !s.adapters[h].disposing
    requires s.adapters[h].adapter in s.leases && s.leases[s.adapters[h].adapter] > 1
    ensures DisposeCode(s, h, drained, destroyed).Success?
    ensures var u, a := Dropped(s, h, drained, destroyed), s.adapters[h].adapter;
            && u.adapters == s.adapters - {h} && HandlesOf(u.adapters, a) == HandlesOf(s.adapters, a) - {h}
            && u.manager == s.manager && u.pending == s.pending && u.reserved == s.reserved
  {
    assert HandlesOf(s.adapters - {h}, s.adapters[h].adapter) == HandlesOf(s.adapters, s.adapters[h].adapter) - {h};
  }

  /** The last handle: the adapter is destroyed and forgotten if its waiters have drained and the manager
      destroys it, its deletion becomes pending if they have not, and nothing changes if the manager
      refuses. */
  lemma DisposeTheLast(s: Store, h: Handle, drained: bool, destroyed: bool)
    requires Inv(s) && ResolvesAdapter(s, h) && CreatingFor(s) != Some(s.adapters[h].adapter)
    requires HandlesOf(s.adapters, s.adapters[h].adapter) == {h}
    ensures var e := s.adapters[h]; e.name in s.manager && s.manager[e.name] == e.adapter
    ensures var u, e := Dropped(s, h, drained, destroyed), s.adapters[h];
            if drained && destroyed then
              && DisposeCode(s, h, drained, destroyed).Success?
              && u.manager == s.manager - {e.name} && u.leases == s.leases - {e.adapter} && u.pending == s.pending
              && u.adapters == s.adapters - {h}
            else if drained then DisposeCode(s, h, drained, destroyed).OperationFailed? && u == s
            else
              && DisposeCode(s, h, drained, destroyed).Success?
              && u.adapters == s.adapters[h := e.(valid := false, disposing := true)]
              && u.pending == s.pending[e.adapter := FirstTry(e, h)]
              && u.reserved == s.reserved + {e.name} && u.manager == s.manager && u.leases == s.leases
  {
    HandleCount(s, h);
    LastFacts(s, h);
    LastDropped(s, h, drained, destroyed);
  }

  lemma LastFacts(s: Store, h: Handle)
    requires Inv(s) && ResolvesAdapter(s, h)
    ensures var e := s.adapters[h];
            !e.disposing && e.adapter !in s.pending && e.name in s.manager && s.manager[e.name] == e.adapter
  {
    assert EntryOk(s, h);
  }

  lemma LastDropped(s: Store, h: Handle, drained: bool, destroyed: bool)
    requires ResolvesAdapter(s, h) && CreatingFor(s) != Some(s.adapters[h].adapter)
    requires s.adapters[h].adapter in s.leases && s.leases[s.adapters[h].adapter] == 1
    requires !s.adapters[h].disposing && s.adapters[h].adapter !in s.pending
    ensures var u, e := Dropped(s, h, drained, destroyed), s.adapters[h];
            if drained && destroyed then
              && DisposeCode(s, h, drained, destroyed).Success?
              && u.manager == s.manager - {e.name} && u.leases == s.leases - {e.adapter} && u.pending == s.pending
              && u.adapters == s.adapters - {h}
            else if drained then DisposeCode(s, h, drained, destroyed).OperationFailed? && u == s
            else
              && DisposeCode(s, h, drained, destroyed).Success?
              && u.adapters == s.adapters[h := e.(valid := false, disposing := true)]
              && u.pending == s.pending[e.adapter := FirstTry(e, h)]
              && u.reserved == s.reserved + {e.name} && u.manager == s.manager && u.leases == s.leases
  {
  }

  /** The other outcomes: a motor being created on the adapter makes it fail, an unknown handle is
      refused, and a handle already awaiting its disposal is accepted. */
  lemma DisposeOtherwise(s: Store, h: Handle, drained: bool, destroyed: bool)
    requires Inv(s)
    ensures ResolvesAdapter(s, h) && CreatingFor(s) == Some(s.adapters[h].adapter) ==>
              DisposeCode(s, h, drained, destroyed).OperationFailed? && Dropped(s, h, drained, destroyed) == s
    ensures h !in s.adapters ==> DisposeCode(s, h, drained, destroyed).InvalidHandle? && Dropped(s, h, drained, destroyed) == s
    ensures h in s.adapters && !ResolvesAdapter(s, h) ==> AwaitsDisposal(s, h) && DisposeCode(s, h, drained, destroyed).Success?
  {
    if h in s.adapters { assert EntryOk(s, h); }
  }

  /** Disposing once more of a handle awaiting its disposal does nothing while attempts go on; when they
      have been given up it makes one attempt and starts counting afresh. */
  lemma DisposeAgain(s: Store, h: Handle, drained: bool, destroyed: bool, ready: set<Adapter>)
    requires Inv(s) && AwaitsDisposal(s, h)
    ensures s.adapters[h].adapter in s.pending
    ensures var u, a := AfterDispose(s, h, drained, destroyed, ready), s.adapters[h].adapter;
            if !s.pending[a].exhausted then u == s
            else if a in ready then a !in u.pending && a !in u.leases && h !in u.adapters && s.pending[a].name !in u.manager
            else a in u.pending && u.pending[a] == s.pending[a].(exhausted := false, retries := 1, delay := 2)
  {
    assert EntryOk(s, h);
    var a := s.adapters[h].adapter;
    if s.pending[a].exhausted {
      RevivedInv(s, h);
      if a in ready { PollCompletes(Revived(s, h), ready, a); } else { PollKeeps(Revived(s, h), ready, a); }
    }
  }

  /** A poll carries out every pending deletion that is ready and has not been given up. */
  lemma PollCompletes(s: Store, ready: set<Adapter>, a: Adapter)
    requires Inv(s) && a in s.pending && !s.pending[a].exhausted && a in ready
    ensures var u, p := Polled(s, ready), s.pending[a];
            && a !in u.pending && a !in u.leases && p.handle !in u.adapters && p.name !in u.manager && p.name !in u.reserved
            && HandlesOf(u.adapters, a) == {}
  {
    assert PendingOk(s, a) && Leaves(s, ready, a);
    var u, p := Polled(s, ready), s.pending[a];
    assert a in Leaving(s, ready) && p.handle in LeavingHandles(s, ready) && p.name in LeavingNames(s, ready);
    HandleCount(s, p.handle);
    assert HandlesOf(u.adapters, a) <= HandlesOf(s.adapters, a) - {p.handle};
  }

  lemma LeavingIsOther(s: Store, ready: set<Adapter>, a: Adapter, b: Adapter)
    requires Inv(s) && !(a in s.pending && !s.pending[a].exhausted && a in ready) && b in s.pending && Leaves(s, ready, b)
    ensures b != a && s.pending[b].handle in s.adapters && s.adapters[s.pending[b].handle].adapter == b
    ensures s.pending[b].name in s.manager && s.manager[s.pending[b].name] == b
  {
    assert PendingOk(s, b) && EntryOk(s, s.pending[b].handle);
  }

  /** And no other: an adapter whose deletion is not pending, or not ready, or given up, stays. */
  lemma PollKeeps(s: Store, ready: set<Adapter>, a: Adapter)
    requires Inv(s) && a in s.leases && !(a in s.pending && !s.pending[a].exhausted && a in ready)
    ensures var u := Polled(s, ready);
            && a in u.leases && u.leases[a] == s.leases[a] && HandlesOf(u.adapters, a) == HandlesOf(s.adapters, a)
            && (a in u.pending <==> a in s.pending)
            && (a in s.pending ==> u.pending[a] == if s.pending[a].exhausted then s.pending[a] else Retried(s.pending[a]))
            && (forall n | n in s.manager && s.manager[n] == a :: n in u.manager && u.manager[n] == a)
  {
    forall b | b in s.pending && Leaves(s, ready, b)
      ensures b != a && s.pending[b].handle in s.adapters && s.adapters[s.pending[b].handle].adapter == b
      ensures s.pending[b].name in s.manager && s.manager[s.pending[b].name] == b
    {
      LeavingIsOther(s, ready, a, b);
    }
    StaysThroughPoll(s, ready, a);
  }

  lemma StaysThroughPoll(s: Store, ready: set<Adapter>, a: Adapter)
    requires a in s.leases && !Leaves(s, ready, a)
    requires forall b | b in s.pending && Leaves(s, ready, b) ::
               && b != a && s.pending[b].handle in s.adapters && s.adapters[s.pending[b].handle].adapter == b
               && s.pending[b].name in s.manager && s.manager[s.pending[b].name] == b
    ensures var u := Polled(s, ready);
            && a in u.leases && u.leases[a] == s.leases[a] && HandlesOf(u.adapters, a) == HandlesOf(s.adapters, a)
            && (a in u.pending <==> a in s.pending)
            && (a in s.pending ==> u.pending[a] == if s.pending[a].exhausted then s.pending[a] else Retried(s.pending[a]))
            && (forall n | n in s.manager && s.manager[n] == a :: n in u.manager && u.manager[n] == a)
  {
    assert HandlesOf(Polled(s, ready).adapters, a) == HandlesOf(s.adapters, a);
  }
}
