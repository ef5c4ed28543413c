/** The WASM handle store as values: its tables, what each operation does to them, and the invariant
    every operation keeps (src/wasm/wasm_runtime.cc:44-103, 105-158, 160-298, 300-372, 388-416, 433-474,
    540-572; src/wasm/wasm_runtime.h:72-118, 164-192).  `manager` is the driver manager's table of
    registered adapters, which only the store changes here.
 */
module WasmStore {

  type Handle = nat
  type Adapter = nat
  type Name = string

  const NULL: Adapter := 0
  const MAX_HANDLE: nat := 0xFFFF_FFFF
  const MAX_RETRIES: nat := 64
  const MAX_DELAY: nat := 64

  datatype Option<+T> = None | Some(value: T)

  datatype Code = Success | InvalidArgument | InvalidHandle | Disposed | WrongAdapterType | OperationFailed | InternalError | Threw

  datatype AdapterEntry = AdapterEntry(
    adapter: Adapter, fake: bool, name: Name, busByRaw: map<int, Handle>, buses: seq<Handle>, motors: seq<Handle>,
    disposing: bool, valid: bool)

  datatype BusEntry = BusEntry(owner: Handle, raw: int, motorByIdx: map<int, Handle>)

  datatype MotorEntry = MotorEntry(owner: Handle, bus: Handle, idx: int)

  datatype Pending = Pending(handle: Handle, name: Name, retries: nat, delay: nat, exhausted: bool)

  /** A motor being created, for the bus handle and index it was asked for. */
  datatype Creation = Creation(bus: Handle, idx: int)

  datatype Store = Store(
    next: Handle, adapters: map<Handle, AdapterEntry>, buses: map<Handle, BusEntry>, motors: map<Handle, MotorEntry>,
    leases: map<Adapter, nat>, pending: map<Adapter, Pending>, reserved: set<Name>,
    creating: Option<Creation>, manager: map<Name, Adapter>)

  /** What the manager does with a request for an adapter. */
  datatype Made = Throws | Null | Returns(adapter: Adapter, isFake: bool)

  // ---------------------------------------------------------------- resolving

  predicate ResolvesAdapter(s: Store, h: Handle) {
    h in s.adapters && s.adapters[h].valid
  }

  predicate ResolvesBus(s: Store, h: Handle) {
    h in s.buses && ResolvesAdapter(s, s.buses[h].owner)
  }

  predicate ResolvesMotor(s: Store, h: Handle) {
    h in s.motors && ResolvesBus(s, s.motors[h].bus)
  }

  /** The adapter a motor is being created on. */
  function CreatingFor(s: Store): Option<Adapter> {
    if s.creating.None? || s.creating.value.bus !in s.buses || s.buses[s.creating.value.bus].owner !in s.adapters then None
    else Some(s.adapters[s.buses[s.creating.value.bus].owner].adapter)
  }

  // ---------------------------------------------------------------- creating

  /** A new adapter is none of the registered ones; a registered one is returned under its own name. */
  predicate ManagerAnswers(s: Store, name: Name, made: Made) {
    made.Returns? ==>
      if name in s.manager then made.adapter == s.manager[name]
      else made.adapter != NULL && forall n | n in s.manager :: s.manager[n] != made.adapter
  }

  function NewEntry(made: Made, fake: bool, name: Name): AdapterEntry
    requires made.Returns?
  {
    AdapterEntry(made.adapter, fake, name, map[], [], [], false, true)
  }

  /** The outcome of creating an adapter, real or fake, whose type was not empty. */
  function CreateCode(s: Store, name: Name, fake: bool, made: Made): Code {
    if name in s.reserved then Disposed
    else if s.next == MAX_HANDLE then Threw
    else match made
         case Throws => Threw
         case Null => if fake then WrongAdapterType else OperationFailed
         case Returns(_, isFake) => if fake && !isFake then WrongAdapterType else Success
  }

  function Created(s: Store, name: Name, fake: bool, made: Made): Store {
    if name in s.reserved || s.next == MAX_HANDLE then s
    else if !made.Returns? then s.(next := s.next + 1)
    else if fake && !made.isFake then s.(next := s.next + 1, manager := s.manager[name := made.adapter])
    else
      s.(next := s.next + 1, manager := s.manager[name := made.adapter],
         adapters := s.adapters[s.next := NewEntry(made, fake, name)],
         leases := s.leases[made.adapter := if made.adapter in s.leases then s.leases[made.adapter] + 1 else 1])
  }

  function BusCode(s: Store, h: Handle, raw: Option<int>): Code {
    if !ResolvesAdapter(s, h) then InvalidHandle
    else if raw.None? then OperationFailed
    else if raw.value !in s.adapters[h].busByRaw && s.next == MAX_HANDLE then Threw
    else Success
  }

  function BusHandle(s: Store, h: Handle, raw: Option<int>): Handle
    requires BusCode(s, h, raw).Success?
  {
    if raw.value in s.adapters[h].busByRaw then s.adapters[h].busByRaw[raw.value] else s.next
  }

  function WithBus(s: Store, h: Handle, raw: Option<int>): Store {
    if !BusCode(s, h, raw).Success? || raw.value in s.adapters[h].busByRaw then s
    else
      var e := s.adapters[h];
      s.(next := s.next + 1, buses := s.buses[s.next := BusEntry(h, raw.value, map[])],
         adapters := s.adapters[h := e.(busByRaw := e.busByRaw[raw.value := s.next], buses := e.buses + [s.next])])
  }

  /** The first half of getting a motor: an existing handle is returned, otherwise the creation begins
      unless another one is in progress. */
  function MotorCode(s: Store, b: Handle, idx: int): Code {
    if !ResolvesBus(s, b) then InvalidHandle
    else if idx in s.buses[b].motorByIdx then Success
    else if s.creating.Some? then OperationFailed else Success
  }

  predicate BeginsMotor(s: Store, b: Handle, idx: int) {
    ResolvesBus(s, b) && idx !in s.buses[b].motorByIdx && s.creating.None?
  }

  /** The second half, once the bus has answered. */
  function FinishCode(s: Store, made: bool): Code {
    if !made then OperationFailed else if s.next == MAX_HANDLE then Threw else Success
  }

  function WithMotor(s: Store, made: bool): Store
    requires s.creating.Some? && ResolvesBus(s, s.creating.value.bus)
  {
    if !FinishCode(s, made).Success? then s.(creating := None)
    else
      var c := s.creating.value;
      var b := s.buses[c.bus];
      var e := s.adapters[b.owner];
      s.(next := s.next + 1, creating := None, motors := s.motors[s.next := MotorEntry(b.owner, c.bus, c.idx)],
         buses := s.buses[c.bus := b.(motorByIdx := b.motorByIdx[c.idx := s.next])],
         adapters := s.adapters[b.owner := e.(motors := e.motors + [s.next])])
  }

  // ---------------------------------------------------------------- disposing

  function Members(hs: seq<Handle>): set<Handle> {
    set h | h in hs
  }

  /** The store without the children of an adapter handle. */
  function WithoutChildren(s: Store, h: Handle): Store
    requires h in s.adapters
  {
    s.(buses := s.buses - Members(s.adapters[h].buses), motors := s.motors - Members(s.adapters[h].motors))
  }

  predicate AwaitsDisposal(s: Store, h: Handle) {
    h in s.adapters && !s.adapters[h].valid && s.adapters[h].disposing
  }

  /** A valid handle, not yet being disposed of, whose adapter has no motor creation in progress. */
  predicate MayDispose(s: Store, h: Handle) {
    && h in s.adapters && s.adapters[h].valid && !s.adapters[h].disposing
    && CreatingFor(s) != Some(s.adapters[h].adapter)
  }

  predicate MayBegin(s: Store, h: Handle) {
    h in s.adapters && s.adapters[h].adapter !in s.pending
  }

  function DisposeCode(s: Store, h: Handle, drained: bool, destroyed: bool): Code {
    if AwaitsDisposal(s, h) then
      if s.adapters[h].adapter in s.pending && s.pending[s.adapters[h].adapter].handle == h then Success else InvalidHandle
    else if !ResolvesAdapter(s, h) || s.adapters[h].disposing then InvalidHandle
    else if !MayDispose(s, h) then OperationFailed
    else
      var a := s.adapters[h].adapter;
      if a !in s.leases || s.leases[a] == 0 then InternalError
      else if s.leases[a] > 1 then Success
      else if !drained then if MayBegin(s, h) then Success else InternalError
      else if destroyed then Success else OperationFailed
  }

  function FirstTry(e: AdapterEntry, h: Handle): Pending { Pending(h, e.name, 0, 1, false) }

  /** What a successful disposal does once the children are gone: it gives back one lease of several,
      starts a pending deletion, or ends the last lease with the adapter. */
  function Settled(rest: Store, h: Handle, e: AdapterEntry, drained: bool): Store
    requires e.adapter in rest.leases && rest.leases[e.adapter] > 0
  {
    if rest.leases[e.adapter] > 1 then
      rest.(leases := rest.leases[e.adapter := rest.leases[e.adapter] - 1], adapters := rest.adapters - {h})
    else if !drained then
      rest.(pending := rest.pending[e.adapter := FirstTry(e, h)], reserved := rest.reserved + {e.name},
            adapters := rest.adapters[h := e.(valid := false, disposing := true)])
    else
      rest.(leases := rest.leases - {e.adapter}, adapters := rest.adapters - {h}, manager := rest.manager - {e.name})
  }

  /** The disposal of a handle that is not already awaiting one. */
  function Dropped(s: Store, h: Handle, drained: bool, destroyed: bool): Store {
    if AwaitsDisposal(s, h) || !DisposeCode(s, h, drained, destroyed).Success? then s
    else Settled(WithoutChildren(s, h), h, s.adapters[h], drained)
  }

  // ---------------------------------------------------------------- polling

  /** A failed attempt: the 64th exhausts the entry, an earlier one doubles the delay up to 64. */
  function Retried(p: Pending): Pending {
    if p.retries + 1 >= MAX_RETRIES then p.(retries := p.retries + 1, exhausted := true)
    else p.(retries := p.retries + 1, delay := if 2 * p.delay < MAX_DELAY then 2 * p.delay else MAX_DELAY)
  }

  /** `ready` are the adapters whose waiters have drained and which the manager then destroys. */
  predicate Leaves(s: Store, ready: set<Adapter>, a: Adapter) {
    a in s.pending && !s.pending[a].exhausted && a in ready
  }

  predicate NeedsRetry(s: Store, ready: set<Adapter>, a: Adapter) {
    a in s.pending && !s.pending[a].exhausted && a !in ready && !Retried(s.pending[a]).exhausted
  }

  function Leaving(s: Store, ready: set<Adapter>): set<Adapter> {
    set a | a in s.pending && Leaves(s, ready, a)
  }

  function LeavingHandles(s: Store, ready: set<Adapter>): set<Handle> {
    set a | a in s.pending && Leaves(s, ready, a) :: s.pending[a].handle
  }

  function LeavingNames(s: Store, ready: set<Adapter>): set<Name> {
    set a | a in s.pending && Leaves(s, ready, a) :: s.pending[a].name
  }

  function Polled(s: Store, ready: set<Adapter>): Store {
    s.(pending := (map a | a in s.pending && !Leaves(s, ready, a) ::
                     if s.pending[a].exhausted then s.pending[a] else Retried(s.pending[a])),
       reserved := s.reserved - LeavingNames(s, ready), leases := s.leases - Leaving(s, ready),
       adapters := s.adapters - LeavingHandles(s, ready), manager := s.manager - LeavingNames(s, ready))
  }

  /** Disposing again of a handle whose deletion gave up starts its attempts afresh. */
  function Revived(s: Store, h: Handle): Store
    requires h in s.adapters && s.adapters[h].adapter in s.pending
  {
    var a := s.adapters[h].adapter;
    s.(pending := s.pending[a := s.pending[a].(exhausted := false, retries := 0, delay := 1)])
  }

  predicate Revives(s: Store, h: Handle) {
    && AwaitsDisposal(s, h) && s.adapters[h].adapter in s.pending
    && s.pending[s.adapters[h].adapter].handle == h && s.pending[s.adapters[h].adapter].exhausted
  }

  function AfterDispose(s: Store, h: Handle, drained: bool, destroyed: bool, ready: set<Adapter>): Store {
    if Revives(s, h) then Polled(Revived(s, h), ready) else Dropped(s, h, drained, destroyed)
  }

  // ---------------------------------------------------------------- the invariant

  ghost function HandlesOf(adapters: map<Handle, AdapterEntry>, a: Adapter): set<Handle> {
    set h | h in adapters && adapters[h].adapter == a
  }

  ghost predicate LeaseOk(s: Store, a: Adapter)
    requires a in s.leases
  {
    s.leases[a] == |HandlesOf(s.adapters, a)| && s.leases[a] > 0
  }

  ghost predicate EntryOk(s: Store, h: Handle)
    requires h in s.adapters
  {
    var e := s.adapters[h];
    && h < s.next && e.adapter in s.leases && e.name in s.manager && s.manager[e.name] == e.adapter
    && (forall b | b in e.buses :: b < s.next && (b in s.buses ==> s.buses[b].owner == h))
    && (forall m | m in e.motors :: m < s.next && (m in s.motors ==> s.motors[m].owner == h))
    && if e.valid then
         && !e.disposing && e.adapter !in s.pending
         && forall r | r in e.busByRaw :: e.busByRaw[r] in s.buses && s.buses[e.busByRaw[r]].owner == h && s.buses[e.busByRaw[r]].raw == r
       else e.disposing && e.adapter in s.pending && s.pending[e.adapter].handle == h
  }

  ghost predicate BusOk(s: Store, b: Handle)
    requires b in s.buses
  {
    var e := s.buses[b];
    && b < s.next && ResolvesAdapter(s, e.owner) && b in s.adapters[e.owner].buses
    && forall i | i in e.motorByIdx ::
         e.motorByIdx[i] in s.motors && s.motors[e.motorByIdx[i]].bus == b && s.motors[e.motorByIdx[i]].idx == i
  }

  ghost predicate MotorOk(s: Store, m: Handle)
    requires m in s.motors
  {
    var e := s.motors[m];
    && m < s.next && ResolvesAdapter(s, e.owner) && m in s.adapters[e.owner].motors
    && e.bus in s.buses && s.buses[e.bus].owner == e.owner
  }

  ghost predicate PendingOk(s: Store, a: Adapter)
    requires a in s.pending
  {
    var p := s.pending[a];
    && p.handle in s.adapters && s.adapters[p.handle].adapter == a && !s.adapters[p.handle].valid
    && s.adapters[p.handle].name == p.name && p.name in s.reserved
    && a in s.leases && s.leases[a] == 1 && p.delay > 0
  }

  ghost predicate ReservedOk(s: Store, n: Name) {
    n in s.manager && s.manager[n] in s.pending && s.pending[s.manager[n]].name == n
  }

  ghost predicate ManagerOk(s: Store) {
    && (forall n | n in s.manager :: s.manager[n] != NULL)
    && forall n, n' | n in s.manager && n' in s.manager && s.manager[n] == s.manager[n'] :: n == n'
  }

  ghost predicate CreatingOk(s: Store) {
    s.creating.Some? ==> ResolvesBus(s, s.creating.value.bus) && s.creating.value.idx !in s.buses[s.creating.value.bus].motorByIdx
  }

  ghost predicate Inv(s: Store) {
    && 1 <= s.next <= MAX_HANDLE && ManagerOk(s) && CreatingOk(s)
    && (forall a | a in s.leases :: LeaseOk(s, a))
    && (forall h | h in s.adapters :: EntryOk(s, h))
    && (forall b | b in s.buses :: BusOk(s, b))
    && (forall m | m in s.motors :: MotorOk(s, m))
    && (forall a | a in s.pending :: PendingOk(s, a))
    && (forall n | n in s.reserved :: ReservedOk(s, n))
  }

  /** Between calls no lease is kept for the null adapter. */
  lemma NullIsUnleased(s: Store)
    requires Inv(s)
    ensures NULL !in s.leases
  {
    forall h | h in s.adapters ensures s.adapters[h].adapter != NULL { assert EntryOk(s, h); }
    assert HandlesOf(s.adapters, NULL) == {};
  }

  function Empty(): Store { Store(1, map[], map[], map[], map[], map[], {}, None, map[]) }

  // ---------------------------------------------------------------- creating keeps the invariant

  lemma AddHandle(adapters: map<Handle, AdapterEntry>, h: Handle, e: AdapterEntry, a: Adapter)
    requires h !in adapters
    ensures |HandlesOf(adapters[h := e], a)| == |HandlesOf(adapters, a)| + if e.adapter == a then 1 else 0
  {
    assert HandlesOf(adapters[h := e], a) == HandlesOf(adapters, a) + if e.adapter == a then {h} else {};
  }

  lemma RemoveHandle(adapters: map<Handle, AdapterEntry>, h: Handle, a: Adapter)
    requires h in adapters
    ensures |HandlesOf(adapters - {h}, a)| == |HandlesOf(adapters, a)| - if adapters[h].adapter == a then 1 else 0
  {
    assert HandlesOf(adapters, a) == HandlesOf(adapters - {h}, a) + if adapters[h].adapter == a then {h} else {};
  }

  lemma SameHandles(was: map<Handle, AdapterEntry>, now: map<Handle, AdapterEntry>, a: Adapter)
    requires was.Keys == now.Keys && forall h | h in was :: was[h].adapter == now[h].adapter
    ensures HandlesOf(was, a) == HandlesOf(now, a)
  {
  }

  lemma PendingFacts(s: Store, a: Adapter)
    requires Inv(s) && a in s.pending
    ensures var p := s.pending[a];
            && p.handle in s.adapters && s.adapters[p.handle].adapter == a && !s.adapters[p.handle].valid
            && a in s.leases && s.leases[a] == 1 && p.name in s.manager && s.manager[p.name] == a && p.name in s.reserved
  {
    assert PendingOk(s, a) && EntryOk(s, s.pending[a].handle);
  }

  /** A leased adapter is registered under some name. */
  lemma LeasedName(s: Store, a: Adapter) returns (n: Name)
    requires Inv(s) && a in s.leases
    ensures n in s.manager && s.manager[n] == a
  {
    assert LeaseOk(s, a);
    var h :| h in HandlesOf(s.adapters, a);
    assert EntryOk(s, h);
    n := s.adapters[h].name;
  }

  /** An adapter with a pending deletion is not one the manager can return for an unreserved name. */
  lemma ReturnedIsNotPending(s: Store, name: Name, made: Made)
    requires Inv(s) && ManagerAnswers(s, name, made) && made.Returns? && name !in s.reserved
    ensures made.adapter !in s.pending
    ensures made.adapter in s.leases ==> name in s.manager
  {
    if made.adapter in s.pending { PendingFacts(s, made.adapter); }
    if made.adapter in s.leases { var n := LeasedName(s, made.adapter); }
  }

  lemma CreatedManager(s: Store, name: Name, fake: bool, made: Made)
    requires ManagerOk(s) && ManagerAnswers(s, name, made)
    ensures ManagerOk(Created(s, name, fake, made))
    ensures forall n | n in s.manager :: n in Created(s, name, fake, made).manager && Created(s, name, fake, made).manager[n] == s.manager[n]
  {
  }

  lemma CreatedEntry(s: Store, name: Name, fake: bool, made: Made, h: Handle)
    requires Inv(s) && ManagerAnswers(s, name, made) && h in Created(s, name, fake, made).adapters
    ensures EntryOk(Created(s, name, fake, made), h)
  {
    CreatedManager(s, name, fake, made);
    if h in s.adapters {
      assert EntryOk(s, h);
      OldEntry(s, name, fake, made, h);
    } else {
      ReturnedIsNotPending(s, name, made);
      NewestEntry(s, name, fake, made, h);
    }
  }

  lemma NewestEntry(s: Store, name: Name, fake: bool, made: Made, h: Handle)
    requires h in Created(s, name, fake, made).adapters && h !in s.adapters && made.Returns? && made.adapter !in s.pending
    ensures EntryOk(Created(s, name, fake, made), h)
  {
  }

  lemma OldEntry(s: Store, name: Name, fake: bool, made: Made, h: Handle)
    requires h in s.adapters && EntryOk(s, h)
    requires forall n | n in s.manager :: n in Created(s, name, fake, made).manager && Created(s, name, fake, made).manager[n] == s.manager[n]
    ensures EntryOk(Created(s, name, fake, made), h)
  {
  }

  lemma UnleasedIsUnheld(s: Store, a: Adapter)
    requires a !in s.leases && forall h | h in s.adapters :: EntryOk(s, h)
    ensures HandlesOf(s.adapters, a) == {}
  {
    forall h | h in s.adapters ensures s.adapters[h].adapter != a { assert EntryOk(s, h); }
  }

  lemma NextIsNew(s: Store)
    requires forall h | h in s.adapters :: EntryOk(s, h)
    ensures s.next !in s.adapters
  {
    forall h | h in s.adapters ensures h != s.next { assert EntryOk(s, h); }
  }

  lemma CreatedLease(s: Store, name: Name, fake: bool, made: Made, a: Adapter)
    requires Inv(s) && a in Created(s, name, fake, made).leases
    ensures LeaseOk(Created(s, name, fake, made), a)
  {
    NextIsNew(s);
    if a in s.leases { assert LeaseOk(s, a); } else { UnleasedIsUnheld(s, a); }
    OneMoreLease(s, name, fake, made, a);
  }

  lemma OneMoreLease(s: Store, name: Name, fake: bool, made: Made, a: Adapter)
    requires a in Created(s, name, fake, made).leases && s.next !in s.adapters
    requires if a in s.leases then LeaseOk(s, a) else HandlesOf(s.adapters, a) == {}
    ensures LeaseOk(Created(s, name, fake, made), a)
  {
    if made.Returns? { AddHandle(s.adapters, s.next, NewEntry(made, fake, name), a); }
  }

  lemma CreatedPending(s: Store, name: Name, fake: bool, made: Made, a: Adapter)
    requires Inv(s) && ManagerAnswers(s, name, made) && a in s.pending
    ensures a in Created(s, name, fake, made).pending && PendingOk(Created(s, name, fake, made), a)
  {
    assert PendingOk(s, a);
    if made.Returns? && name !in s.reserved { ReturnedIsNotPending(s, name, made); }
    NextIsNew(s);
    OldPending(s, name, fake, made, a);
  }

  lemma OldPending(s: Store, name: Name, fake: bool, made: Made, a: Adapter)
    requires a in s.pending && PendingOk(s, a) && s.next !in s.adapters
    requires made.Returns? && name !in s.reserved ==> made.adapter != a
    ensures a in Created(s, name, fake, made).pending && PendingOk(Created(s, name, fake, made), a)
  {
  }

  lemma CreatedInv(s: Store, name: Name, fake: bool, made: Made)
    requires Inv(s) && ManagerAnswers(s, name, made)
    ensures Inv(Created(s, name, fake, made))
  {
    var u := Created(s, name, fake, made);
    CreatedManager(s, name, fake, made);
    forall h | h in u.adapters ensures EntryOk(u, h) { CreatedEntry(s, name, fake, made, h); }
    forall a | a in u.leases ensures LeaseOk(u, a) { CreatedLease(s, name, fake, made, a); }
    forall a | a in u.pending ensures PendingOk(u, a) { CreatedPending(s, name, fake, made, a); }
    forall n | n in u.reserved ensures ReservedOk(u, n) { assert ReservedOk(s, n); }
    CreatedChildren(s, name, fake, made);
  }

  lemma CreatedChildren(s: Store, name: Name, fake: bool, made: Made)
    requires Inv(s)
    ensures var u := Created(s, name, fake, made);
            && u.buses == s.buses && u.motors == s.motors && CreatingOk(u)
            && (forall b | b in u.buses :: BusOk(u, b)) && (forall m | m in u.motors :: MotorOk(u, m))
  {
    NextIsNew(s);
    CreatedFrame(s, name, fake, made);
    SameChildren(s, Created(s, name, fake, made));
  }

  lemma CreatedFrame(s: Store, name: Name, fake: bool, made: Made)
    requires s.next !in s.adapters
    ensures var u := Created(s, name, fake, made);
            && u.buses == s.buses && u.motors == s.motors && s.next <= u.next && u.creating == s.creating
            && forall h | h in s.adapters :: h in u.adapters && u.adapters[h] == s.adapters[h]
  {
  }

  /** Adapters keep who they are, and nothing about leases or deletions changes. */
  ghost predicate SameDeletions(s: Store, u: Store) {
    && u.adapters.Keys == s.adapters.Keys && u.leases == s.leases && u.pending == s.pending && u.reserved == s.reserved
    && u.manager == s.manager
    && forall h | h in s.adapters :: u.adapters[h].adapter == s.adapters[h].adapter && u.adapters[h].valid == s.adapters[h].valid
                                     && u.adapters[h].name == s.adapters[h].name
  }

  lemma DeletionsKept(s: Store, u: Store)
    requires Inv(s) && SameDeletions(s, u)
    ensures ManagerOk(u)
    ensures forall a | a in u.leases :: LeaseOk(u, a)
    ensures forall a | a in u.pending :: PendingOk(u, a)
    ensures forall n | n in u.reserved :: ReservedOk(u, n)
  {
    forall a | a in u.leases ensures LeaseOk(u, a) { assert LeaseOk(s, a); SameHandles(s.adapters, u.adapters, a); }
    forall a | a in u.pending ensures PendingOk(u, a) { assert PendingOk(s, a); }
    forall n | n in u.reserved ensures ReservedOk(u, n) { assert ReservedOk(s, n); }
  }

  lemma WithBusEntry(s: Store, h: Handle, raw: Option<int>, x: Handle)
    requires x in s.adapters && EntryOk(s, x) && s.next !in s.buses
    ensures x in WithBus(s, h, raw).adapters && EntryOk(WithBus(s, h, raw), x)
  {
  }

  lemma WithBusBus(s: Store, h: Handle, raw: Option<int>, b: Handle)
    requires b in WithBus(s, h, raw).buses && (b in s.buses ==> BusOk(s, b))
    ensures BusOk(WithBus(s, h, raw), b)
  {
  }

  lemma WithBusMotor(s: Store, h: Handle, raw: Option<int>, m: Handle)
    requires m in s.motors && MotorOk(s, m) && s.next !in s.buses
    ensures m in WithBus(s, h, raw).motors && MotorOk(WithBus(s, h, raw), m)
  {
  }

  lemma WithBusShape(s: Store, h: Handle, raw: Option<int>)
    requires 1 <= s.next <= MAX_HANDLE && CreatingOk(s) && s.next !in s.buses
    ensures var u := WithBus(s, h, raw); SameDeletions(s, u) && CreatingOk(u) && 1 <= u.next <= MAX_HANDLE
  {
  }

  lemma WithBusInv(s: Store, h: Handle, raw: Option<int>)
    requires Inv(s)
    ensures Inv(WithBus(s, h, raw))
  {
    var u := WithBus(s, h, raw);
    NextIsFree(s);
    WithBusShape(s, h, raw);
    DeletionsKept(s, u);
    forall x | x in u.adapters ensures EntryOk(u, x) { WithBusEntry(s, h, raw, x); }
    forall b | b in u.buses ensures BusOk(u, b) { WithBusBus(s, h, raw, b); }
    forall m | m in u.motors ensures MotorOk(u, m) { WithBusMotor(s, h, raw, m); }
  }

  lemma NextIsFree(s: Store)
    requires Inv(s)
    ensures s.next !in s.buses && s.next !in s.motors
  {
    forall b | b in s.buses ensures b != s.next { assert BusOk(s, b); }
    forall m | m in s.motors ensures m != s.next { assert MotorOk(s, m); }
  }

  lemma BeginMotorInv(s: Store, b: Handle, idx: int)
    requires Inv(s) && BeginsMotor(s, b, idx)
    ensures Inv(s.(creating := Some(Creation(b, idx))))
  {
    SameTablesInv(s, Some(Creation(b, idx)));
  }

  lemma SameTablesInv(s: Store, creating: Option<Creation>)
    requires Inv(s) && CreatingOk(s.(creating := creating))
    ensures Inv(s.(creating := creating))
  {
    var u := s.(creating := creating);
    forall x | x in u.adapters ensures EntryOk(u, x) { assert EntryOk(s, x); }
    forall b | b in u.buses ensures BusOk(u, b) { assert BusOk(s, b); }
    forall m | m in u.motors ensures MotorOk(u, m) { assert MotorOk(s, m); }
    forall a | a in u.leases ensures LeaseOk(u, a) { assert LeaseOk(s, a); }
    forall a | a in u.pending ensures PendingOk(u, a) { assert PendingOk(s, a); }
    forall n | n in u.reserved ensures ReservedOk(u, n) { assert ReservedOk(s, n); }
  }

  lemma WithMotorEntry(s: Store, x: Handle)
    requires s.creating.Some? && ResolvesBus(s, s.creating.value.bus) && x in s.adapters && EntryOk(s, x) && s.next !in s.motors
    ensures x in WithMotor(s, true).adapters && EntryOk(WithMotor(s, true), x)
  {
  }

  lemma WithMotorBus(s: Store, b: Handle)
    requires CreatingOk(s) && s.creating.Some? && b in s.buses && BusOk(s, b) && s.next !in s.motors
    ensures b in WithMotor(s, true).buses && BusOk(WithMotor(s, true), b)
  {
    var u := WithMotor(s, true);
    assert u.buses[b].owner == s.buses[b].owner;
    assert b in s.adapters[s.buses[b].owner].buses;
  }

  lemma WithMotorMotor(s: Store, m: Handle)
    requires CreatingOk(s) && s.creating.Some? && m in WithMotor(s, true).motors
    requires m in s.motors ==> MotorOk(s, m)
    ensures MotorOk(WithMotor(s, true), m)
  {
  }

  lemma WithMotorShape(s: Store)
    requires CreatingOk(s) && s.creating.Some? && 1 <= s.next < MAX_HANDLE
    ensures var u := WithMotor(s, true);
            SameDeletions(s, u) && CreatingOk(u) && 1 <= u.next <= MAX_HANDLE && u.buses.Keys == s.buses.Keys
  {
  }

  lemma WithMotorInv(s: Store, made: bool)
    requires Inv(s) && s.creating.Some?
    ensures ResolvesBus(s, s.creating.value.bus) && Inv(WithMotor(s, made))
  {
    var u := WithMotor(s, made);
    if !FinishCode(s, made).Success? {
      SameTablesInv(s, None);
    } else {
      NextIsFree(s);
      WithMotorShape(s);
      DeletionsKept(s, u);
      forall x | x in u.adapters ensures EntryOk(u, x) { WithMotorEntry(s, x); }
      forall b | b in u.buses ensures BusOk(u, b) { WithMotorBus(s, b); }
      forall m | m in u.motors ensures MotorOk(u, m) { WithMotorMotor(s, m); }
    }
  }

  // ---------------------------------------------------------------- disposing keeps the invariant

  /** Dropping a handle's children drops exactly the buses and motors it owns. */
  lemma ChildrenAreOwned(s: Store, h: Handle)
    requires Inv(s) && h in s.adapters
    ensures forall b | b in s.buses :: b in s.adapters[h].buses <==> s.buses[b].owner == h
    ensures forall m | m in s.motors :: m in s.adapters[h].motors <==> s.motors[m].owner == h
  {
    assert EntryOk(s, h);
    forall b | b in s.buses ensures b in s.adapters[h].buses <==> s.buses[b].owner == h { assert BusOk(s, b); }
    forall m | m in s.motors ensures m in s.adapters[h].motors <==> s.motors[m].owner == h { assert MotorOk(s, m); }
  }

  /** What a successful disposal of `h` does to the handle tables. */
  ghost predicate Drops(s: Store, u: Store, h: Handle) {
    && MayDispose(s, h) && u.next == s.next && u.creating == s.creating
    && u.buses == s.buses - Members(s.adapters[h].buses) && u.motors == s.motors - Members(s.adapters[h].motors)
    && (forall x | x in s.adapters && x != h :: x in u.adapters && u.adapters[x] == s.adapters[x])
    && (forall x | x in u.adapters :: x in s.adapters)
  }

  lemma DropsHandle(s: Store, h: Handle, drained: bool, destroyed: bool)
    ensures var u := Dropped(s, h, drained, destroyed); u == s || Drops(s, u, h)
  {
  }

  lemma BusSurvives(s: Store, u: Store, h: Handle, b: Handle)
    requires Drops(s, u, h) && b in u.buses && BusOk(s, b) && EntryOk(s, h)
    requires forall i | i in s.buses[b].motorByIdx :: s.buses[b].motorByIdx[i] in s.motors && MotorOk(s, s.buses[b].motorByIdx[i])
    ensures BusOk(u, b)
  {
    assert s.buses[b].owner != h;
  }

  lemma MotorSurvives(s: Store, u: Store, h: Handle, m: Handle)
    requires Drops(s, u, h) && m in u.motors && MotorOk(s, m) && BusOk(s, s.motors[m].bus) && EntryOk(s, h)
    ensures MotorOk(u, m)
  {
    assert s.motors[m].owner != h;
  }

  lemma CreationSurvives(s: Store, u: Store, h: Handle)
    requires Drops(s, u, h) && CreatingOk(s) && EntryOk(s, h)
    ensures CreatingOk(u)
  {
    if s.creating.Some? {
      var b := s.creating.value.bus;
      assert s.buses[b].owner != h;
      assert b !in s.adapters[h].buses;
    }
  }

  lemma DroppedChildren(s: Store, h: Handle, drained: bool, destroyed: bool)
    requires Inv(s)
    ensures var u := Dropped(s, h, drained, destroyed);
            && CreatingOk(u)
            && (forall b | b in u.buses :: BusOk(u, b)) && (forall m | m in u.motors :: MotorOk(u, m))
  {
    var u := Dropped(s, h, drained, destroyed);
    DropsHandle(s, h, drained, destroyed);
    if u != s {
      assert EntryOk(s, h);
      CreationSurvives(s, u, h);
      forall b | b in u.buses ensures BusOk(u, b) {
        assert BusOk(s, b);
        BusSurvives(s, u, h, b);
      }
      forall m | m in u.motors ensures MotorOk(u, m) {
        assert MotorOk(s, m);
        MotorSurvives(s, u, h, m);
      }
    }
  }

  lemma OnlyHandle(s: Store, h: Handle, x: Handle)
    requires Inv(s) && h in s.adapters && x in s.adapters && s.adapters[x].adapter == s.adapters[h].adapter
    requires s.adapters[h].adapter in s.leases && s.leases[s.adapters[h].adapter] == 1
    ensures x == h
  {
    var a := s.adapters[h].adapter;
    assert LeaseOk(s, a);
    if x != h {
      assert {x, h} <= HandlesOf(s.adapters, a);
      assert |{x, h}| == 2;
      SubsetSize({x, h}, HandlesOf(s.adapters, a));
    }
  }

  lemma {:induction false} SubsetSize<T>(a: set<T>, b: set<T>)
    requires a <= b
    ensures |a| <= |b|
  {
    if a != {} {
      var x :| x in a;
      SubsetSize(a - {x}, b - {x});
    }
  }

  /** An entry that stays, whose adapter's standing does not change. */
  lemma EntrySurvives(s: Store, u: Store, h: Handle, x: Handle)
    requires Drops(s, u, h) && x in s.adapters && x != h && EntryOk(s, x) && EntryOk(s, h)
    requires var a := s.adapters[x].adapter;
             && a in u.leases && s.adapters[x].name in u.manager && u.manager[s.adapters[x].name] == a
             && (a in u.pending <==> a in s.pending)
             && (a in s.pending ==> u.pending[a] == s.pending[a])
    ensures x in u.adapters && EntryOk(u, x)
  {
    var e := s.adapters[x];
    if e.valid {
      forall r | r in e.busByRaw ensures e.busByRaw[r] in u.buses { assert e.busByRaw[r] !in s.adapters[h].buses; }
    }
  }

  /** What a successful disposal does to the adapter's lease, in its three forms. */
  predicate LeaseReturned(s: Store, h: Handle, u: Store) {
    && h in s.adapters && h !in u.adapters
    && s.adapters[h].adapter in s.leases && s.leases[s.adapters[h].adapter] > 1
    && u.leases == s.leases[s.adapters[h].adapter := s.leases[s.adapters[h].adapter] - 1]
    && u.pending == s.pending && u.manager == s.manager && u.reserved == s.reserved
  }

  predicate DeletionBegun(s: Store, h: Handle, u: Store) {
    && h in s.adapters && s.adapters[h].adapter in s.leases && s.leases[s.adapters[h].adapter] == 1
    && h in u.adapters && u.adapters[h] == s.adapters[h].(valid := false, disposing := true)
    && s.adapters[h].adapter !in s.pending && u.leases == s.leases && u.manager == s.manager
    && u.pending == s.pending[s.adapters[h].adapter := FirstTry(s.adapters[h], h)] && u.reserved == s.reserved + {s.adapters[h].name}
  }

  predicate AdapterDestroyed(s: Store, h: Handle, u: Store) {
    && h in s.adapters && s.adapters[h].adapter in s.leases && s.leases[s.adapters[h].adapter] == 1
    && h !in u.adapters && u.leases == s.leases - {s.adapters[h].adapter} && u.manager == s.manager - {s.adapters[h].name}
    && u.pending == s.pending && u.reserved == s.reserved
  }

  lemma DropForms(s: Store, h: Handle, drained: bool, destroyed: bool)
    ensures var u := Dropped(s, h, drained, destroyed);
            u == s || (h in s.adapters && (LeaseReturned(s, h, u) || DeletionBegun(s, h, u) || AdapterDestroyed(s, h, u)))
  {
  }

  lemma DroppedEntry(s: Store, h: Handle, drained: bool, destroyed: bool, x: Handle)
    requires Inv(s) && x in Dropped(s, h, drained, destroyed).adapters
    ensures EntryOk(Dropped(s, h, drained, destroyed), x)
  {
    var u := Dropped(s, h, drained, destroyed);
    DropsHandle(s, h, drained, destroyed);
    DropForms(s, h, drained, destroyed);
    assert EntryOk(s, x);
    if u != s {
      assert EntryOk(s, h);
      if x != h {
        if !LeaseReturned(s, h, u) && s.adapters[x].adapter == s.adapters[h].adapter { OnlyHandle(s, h, x); }
        StandingSurvives(s, u, h, x);
        EntrySurvives(s, u, h, x);
      } else {
        BegunEntry(s, u, h);
      }
    }
  }

  lemma StandingSurvives(s: Store, u: Store, h: Handle, x: Handle)
    requires h in s.adapters && x in s.adapters && EntryOk(s, x) && EntryOk(s, h) && ManagerOk(s)
    requires LeaseReturned(s, h, u) || DeletionBegun(s, h, u) || AdapterDestroyed(s, h, u)
    requires !LeaseReturned(s, h, u) ==> s.adapters[x].adapter != s.adapters[h].adapter
    ensures var a := s.adapters[x].adapter;
            && a in u.leases && s.adapters[x].name in u.manager && u.manager[s.adapters[x].name] == a
            && (a in u.pending <==> a in s.pending)
            && (a in s.pending ==> u.pending[a] == s.pending[a])
  {
  }

  lemma BegunEntry(s: Store, u: Store, h: Handle)
    requires Drops(s, u, h) && DeletionBegun(s, h, u) && EntryOk(s, h)
    ensures EntryOk(u, h)
  {
  }

  lemma DroppedLease(s: Store, h: Handle, drained: bool, destroyed: bool, a: Adapter)
    requires Inv(s) && a in Dropped(s, h, drained, destroyed).leases
    ensures LeaseOk(Dropped(s, h, drained, destroyed), a)
  {
    var u := Dropped(s, h, drained, destroyed);
    DropsHandle(s, h, drained, destroyed);
    DropForms(s, h, drained, destroyed);
    assert LeaseOk(s, a);
    if u != s { LeaseSurvives(s, u, h, a); }
  }

  lemma LeaseSurvives(s: Store, u: Store, h: Handle, a: Adapter)
    requires Drops(s, u, h) && a in u.leases && a in s.leases && LeaseOk(s, a)
    requires LeaseReturned(s, h, u) || DeletionBegun(s, h, u) || AdapterDestroyed(s, h, u)
    ensures LeaseOk(u, a)
  {
    RemoveHandle(s.adapters, h, a);
    if DeletionBegun(s, h, u) {
      SameHandles(s.adapters, u.adapters, a);
    } else {
      assert u.adapters == s.adapters - {h};
    }
  }

  lemma DroppedPending(s: Store, h: Handle, drained: bool, destroyed: bool)
    requires Inv(s)
    ensures var u := Dropped(s, h, drained, destroyed);
            && ManagerOk(u)
            && (forall a | a in u.pending :: PendingOk(u, a)) && (forall n | n in u.reserved :: ReservedOk(u, n))
  {
    var u := Dropped(s, h, drained, destroyed);
    DropsHandle(s, h, drained, destroyed);
    DropForms(s, h, drained, destroyed);
    if u != s {
      assert EntryOk(s, h);
      forall a | a in u.pending ensures PendingOk(u, a) {
        if a in s.pending { assert PendingOk(s, a); }
        PendingSurvives(s, u, h, a);
      }
      forall n | n in u.reserved ensures ReservedOk(u, n) {
        if n in s.reserved { assert ReservedOk(s, n); }
        ReservedSurvives(s, u, h, n);
      }
    }
  }

  lemma PendingSurvives(s: Store, u: Store, h: Handle, a: Adapter)
    requires Drops(s, u, h) && EntryOk(s, h) && a in u.pending && (a in s.pending ==> PendingOk(s, a))
    requires LeaseReturned(s, h, u) || DeletionBegun(s, h, u) || AdapterDestroyed(s, h, u)
    ensures PendingOk(u, a)
  {
  }

  lemma ReservedSurvives(s: Store, u: Store, h: Handle, n: Name)
    requires Drops(s, u, h) && EntryOk(s, h) && n in u.reserved && (n in s.reserved ==> ReservedOk(s, n))
    requires LeaseReturned(s, h, u) || DeletionBegun(s, h, u) || AdapterDestroyed(s, h, u)
    ensures ReservedOk(u, n)
  {
  }

  lemma DroppedInv(s: Store, h: Handle, drained: bool, destroyed: bool)
    requires Inv(s)
    ensures Inv(Dropped(s, h, drained, destroyed))
  {
    var u := Dropped(s, h, drained, destroyed);
    DroppedChildren(s, h, drained, destroyed);
    DroppedPending(s, h, drained, destroyed);
    forall x | x in u.adapters ensures EntryOk(u, x) { DroppedEntry(s, h, drained, destroyed, x); }
    forall a | a in u.leases ensures LeaseOk(u, a) { DroppedLease(s, h, drained, destroyed, a); }
  }

  // ---------------------------------------------------------------- polling keeps the invariant

  ghost predicate PollShape(s: Store, ready: set<Adapter>, u: Store) {
    && u.next == s.next && u.buses == s.buses && u.motors == s.motors && u.creating == s.creating
    && (forall x :: x in u.adapters <==> x in s.adapters && !Leaves(s, ready, s.adapters[x].adapter))
    && (forall x | x in u.adapters :: u.adapters[x] == s.adapters[x])
    && (forall n :: n in u.manager <==> n in s.manager && !Leaves(s, ready, s.manager[n]))
    && (forall n | n in u.manager :: u.manager[n] == s.manager[n])
    && (forall n :: n in u.reserved <==> n in s.reserved && n in s.manager && !Leaves(s, ready, s.manager[n]))
    && (forall a :: a in u.leases <==> a in s.leases && !Leaves(s, ready, a))
    && (forall a | a in u.leases :: u.leases[a] == s.leases[a])
    && (forall a :: a in u.pending <==> a in s.pending && !Leaves(s, ready, a))
    && (forall a | a in u.pending :: u.pending[a].handle == s.pending[a].handle && u.pending[a].name == s.pending[a].name
                                  && (s.pending[a].delay > 0 ==> u.pending[a].delay > 0))
  }

  /** The adapters that leave take their one handle and their one name with them. */
  lemma LeavingHandle(s: Store, ready: set<Adapter>, x: Handle)
    requires Inv(s) && x in s.adapters
    ensures x in LeavingHandles(s, ready) <==> Leaves(s, ready, s.adapters[x].adapter)
  {
    var a := s.adapters[x].adapter;
    if Leaves(s, ready, a) {
      PendingFacts(s, a);
      OnlyHandle(s, s.pending[a].handle, x);
    }
    forall b | Leaves(s, ready, b) && s.pending[b].handle == x ensures b == a { PendingFacts(s, b); }
  }

  lemma LeavingName(s: Store, ready: set<Adapter>, n: Name)
    requires Inv(s) && n in s.manager
    ensures n in LeavingNames(s, ready) <==> Leaves(s, ready, s.manager[n])
  {
    forall b | Leaves(s, ready, b) && s.pending[b].name == n ensures b == s.manager[n] { PendingFacts(s, b); }
    if Leaves(s, ready, s.manager[n]) { PendingFacts(s, s.manager[n]); }
  }

  lemma PolledShape(s: Store, ready: set<Adapter>)
    requires Inv(s)
    ensures PollShape(s, ready, Polled(s, ready))
  {
    forall x | x in s.adapters ensures x in LeavingHandles(s, ready) <==> Leaves(s, ready, s.adapters[x].adapter) {
      LeavingHandle(s, ready, x);
    }
    forall n | n in s.manager ensures n in LeavingNames(s, ready) <==> Leaves(s, ready, s.manager[n]) {
      LeavingName(s, ready, n);
    }
    forall n | n in s.reserved ensures n in s.manager { assert ReservedOk(s, n); }
    ShapeOf(s, ready);
  }

  lemma ShapeOf(s: Store, ready: set<Adapter>)
    requires forall x | x in s.adapters :: x in LeavingHandles(s, ready) <==> Leaves(s, ready, s.adapters[x].adapter)
    requires forall n | n in s.manager :: n in LeavingNames(s, ready) <==> Leaves(s, ready, s.manager[n])
    requires forall n | n in s.reserved :: n in s.manager
    ensures PollShape(s, ready, Polled(s, ready))
  {
  }

  lemma PolledEntry(s: Store, ready: set<Adapter>, u: Store, x: Handle)
    requires PollShape(s, ready, u) && x in u.adapters && EntryOk(s, x)
    ensures EntryOk(u, x)
  {
  }

  lemma PolledBus(s: Store, ready: set<Adapter>, u: Store, b: Handle)
    requires PollShape(s, ready, u) && b in s.buses && BusOk(s, b) && EntryOk(s, s.buses[b].owner)
    ensures BusOk(u, b)
  {
  }

  lemma PolledMotor(s: Store, ready: set<Adapter>, u: Store, m: Handle)
    requires PollShape(s, ready, u) && m in s.motors && MotorOk(s, m) && EntryOk(s, s.motors[m].owner)
    ensures MotorOk(u, m)
  {
  }

  lemma PolledLease(s: Store, ready: set<Adapter>, u: Store, a: Adapter)
    requires PollShape(s, ready, u) && a in u.leases && LeaseOk(s, a)
    ensures LeaseOk(u, a)
  {
    assert HandlesOf(u.adapters, a) == HandlesOf(s.adapters, a);
  }

  lemma PolledPending(s: Store, ready: set<Adapter>, u: Store, a: Adapter)
    requires PollShape(s, ready, u) && a in u.pending && PendingOk(s, a) && EntryOk(s, s.pending[a].handle)
    ensures PendingOk(u, a)
  {
  }

  lemma PolledHandles(s: Store, ready: set<Adapter>, u: Store)
    requires Inv(s) && PollShape(s, ready, u)
    ensures forall x | x in u.adapters :: EntryOk(u, x)
    ensures forall b | b in u.buses :: BusOk(u, b)
    ensures forall m | m in u.motors :: MotorOk(u, m)
  {
    forall x | x in u.adapters ensures EntryOk(u, x) { assert EntryOk(s, x); PolledEntry(s, ready, u, x); }
    forall b | b in u.buses ensures BusOk(u, b) { assert BusOk(s, b); PolledBus(s, ready, u, b); }
    forall m | m in u.motors ensures MotorOk(u, m) { assert MotorOk(s, m); PolledMotor(s, ready, u, m); }
  }

  lemma PolledInv(s: Store, ready: set<Adapter>)
    requires Inv(s)
    ensures Inv(Polled(s, ready))
  {
    var u := Polled(s, ready);
    PolledShape(s, ready);
    PolledHandles(s, ready, u);
    PolledDeletions(s, ready, u);
    PolledCreating(s, ready, u);
  }

  lemma PolledDeletions(s: Store, ready: set<Adapter>, u: Store)
    requires Inv(s) && PollShape(s, ready, u)
    ensures forall a | a in u.leases :: LeaseOk(u, a)
    ensures forall a | a in u.pending :: PendingOk(u, a)
    ensures forall n | n in u.reserved :: ReservedOk(u, n)
  {
    forall a | a in u.leases ensures LeaseOk(u, a) { assert LeaseOk(s, a); PolledLease(s, ready, u, a); }
    forall a | a in u.pending ensures PendingOk(u, a) { assert PendingOk(s, a); PolledPending(s, ready, u, a); }
    forall n | n in u.reserved ensures ReservedOk(u, n) { assert ReservedOk(s, n); }
  }

  lemma PolledCreating(s: Store, ready: set<Adapter>, u: Store)
    requires PollShape(s, ready, u) && CreatingOk(s) && ManagerOk(s) && forall x | x in s.adapters :: EntryOk(s, x)
    ensures CreatingOk(u) && ManagerOk(u)
  {
    if s.creating.Some? {
      var owner := s.buses[s.creating.value.bus].owner;
      assert EntryOk(s, owner);
    }
  }

  lemma RevivedEntry(s: Store, h: Handle, x: Handle)
    requires h in s.adapters && s.adapters[h].adapter in s.pending && x in s.adapters && EntryOk(s, x)
    ensures EntryOk(Revived(s, h), x)
  {
  }

  lemma RevivedPending(s: Store, h: Handle, a: Adapter)
    requires h in s.adapters && s.adapters[h].adapter in s.pending && a in s.pending && PendingOk(s, a)
    ensures a in Revived(s, h).pending && PendingOk(Revived(s, h), a)
  {
  }

  lemma RevivedInv(s: Store, h: Handle)
    requires Inv(s) && h in s.adapters && s.adapters[h].adapter in s.pending
    ensures Inv(Revived(s, h))
  {
    var u := Revived(s, h);
    SameChildren(s, u);
    forall x | x in u.adapters ensures EntryOk(u, x) { RevivedEntry(s, h, x); }
    forall a | a in u.leases ensures LeaseOk(u, a) { assert LeaseOk(s, a); }
    forall a | a in u.pending ensures PendingOk(u, a) { RevivedPending(s, h, a); }
    forall n | n in u.reserved ensures ReservedOk(u, n) { assert ReservedOk(s, n); }
  }

  /** Buses and motors stay in order when nothing but leases and deletions changes. */
  lemma SameChildren(s: Store, u: Store)
    requires u.buses == s.buses && u.motors == s.motors && s.next <= u.next && u.creating == s.creating
    requires forall h | h in s.adapters :: h in u.adapters && u.adapters[h] == s.adapters[h]
    requires CreatingOk(s) && (forall b | b in s.buses :: BusOk(s, b)) && (forall m | m in s.motors :: MotorOk(s, m))
    ensures CreatingOk(u) && (forall b | b in u.buses :: BusOk(u, b)) && (forall m | m in u.motors :: MotorOk(u, m))
  {
    forall b | b in u.buses ensures BusOk(u, b) { assert BusOk(s, b); }
    forall m | m in u.motors ensures MotorOk(u, m) { assert MotorOk(s, m); }
  }

  lemma AfterDisposeInv(s: Store, h: Handle, drained: bool, destroyed: bool, ready: set<Adapter>)
    requires Inv(s)
    ensures Inv(AfterDispose(s, h, drained, destroyed, ready))
  {
    if Revives(s, h) {
      RevivedInv(s, h);
      PolledInv(Revived(s, h), ready);
    } else {
      DroppedInv(s, h, drained, destroyed);
    }
  }

  // ---------------------------------------------------------------- what callers rely on

  /** The new handle resolves to the adapter registered under the name, and no other handle changes. */
  lemma CreatedHandleIsRight(s: Store, name: Name, fake: bool, made: Made, h: Handle)
    requires Inv(s) && ManagerAnswers(s, name, made) && CreateCode(s, name, fake, made).Success?
    ensures var u := Created(s, name, fake, made);
            && s.next !in s.adapters && ResolvesAdapter(u, s.next) && name in u.manager
            && u.adapters[s.next].adapter == u.manager[name] == made.adapter && u.adapters[s.next].fake == fake
            && (h != s.next ==> (h in u.adapters <==> h in s.adapters))
            && (h in s.adapters ==> u.adapters[h] == s.adapters[h])
  {
    NextIsNew(s);
  }

  /** A bus handle resolves, belongs to the adapter handle and names the raw index; asking again gives
      the same handle and changes nothing. */
  lemma BusHandleIsRight(s: Store, h: Handle, raw: Option<int>)
    requires Inv(s) && BusCode(s, h, raw).Success?
    ensures var u, b := WithBus(s, h, raw), BusHandle(s, h, raw);
            && ResolvesBus(u, b) && u.buses[b].owner == h && u.buses[b].raw == raw.value
            && BusCode(u, h, raw).Success? && BusHandle(u, h, raw) == b && WithBus(u, h, raw) == u
  {
    assert EntryOk(s, h);
    var u, r := WithBus(s, h, raw), raw.value;
    if r in s.adapters[h].busByRaw {
      assert u == s;
      assert s.buses[s.adapters[h].busByRaw[r]].owner == h;
    } else {
      assert u.buses[s.next] == BusEntry(h, r, map[]);
      assert h in u.adapters && u.adapters[h].valid && r in u.adapters[h].busByRaw && u.adapters[h].busByRaw[r] == s.next;
    }
  }

  /** A finished creation yields a motor handle that resolves to the bus and index asked for; asking
      again finds it. */
  lemma MotorHandleIsRight(s: Store)
    requires Inv(s) && s.creating.Some? && FinishCode(s, true).Success?
    ensures ResolvesBus(s, s.creating.value.bus)
    ensures var u, c := WithMotor(s, true), s.creating.value;
            && s.next !in s.motors && ResolvesMotor(u, s.next) && u.motors[s.next].bus == c.bus && u.motors[s.next].idx == c.idx
            && MotorCode(u, c.bus, c.idx).Success? && !BeginsMotor(u, c.bus, c.idx)
            && u.buses[c.bus].motorByIdx[c.idx] == s.next
  {
    NextIsFree(s);
  }

  /** The codes for missing leases and for a second pending deletion are never returned. */
  lemma NoInternalError(s: Store, h: Handle, drained: bool, destroyed: bool)
    requires Inv(s)
    ensures !DisposeCode(s, h, drained, destroyed).InternalError?
    ensures AwaitsDisposal(s, h) ==> DisposeCode(s, h, drained, destroyed).Success?
  {
    if h in s.adapters {
      assert EntryOk(s, h);
      assert LeaseOk(s, s.adapters[h].adapter);
    }
  }

  /** Disposing destroys the adapter only with its last handle; with others left it lives on. */
  lemma DestroyedWithItsLastHandle(s: Store, h: Handle, drained: bool, destroyed: bool, n: Name)
    requires Inv(s) && n in s.manager && n !in Dropped(s, h, drained, destroyed).manager
    ensures h in s.adapters && s.adapters[h].adapter == s.manager[n]
    ensures HandlesOf(s.adapters, s.manager[n]) == {h}
    ensures HandlesOf(Dropped(s, h, drained, destroyed).adapters, s.manager[n]) == {}
  {
    DropForms(s, h, drained, destroyed);
    assert EntryOk(s, h);
    LastHandle(s, h);
    DropsHandle(s, h, drained, destroyed);
  }

  lemma LastHandle(s: Store, h: Handle)
    requires Inv(s) && h in s.adapters && s.adapters[h].adapter in s.leases && s.leases[s.adapters[h].adapter] == 1
    ensures HandlesOf(s.adapters, s.adapters[h].adapter) == {h}
  {
    forall x | x in HandlesOf(s.adapters, s.adapters[h].adapter) ensures x == h { OnlyHandle(s, h, x); }
  }

  /** While a deletion is pending its interface name is refused, so its lease stays at one. */
  lemma PendingLeaseStaysOne(s: Store, name: Name, fake: bool, made: Made, a: Adapter)
    requires Inv(s) && ManagerAnswers(s, name, made) && a in s.pending
    ensures s.leases[a] == 1 && s.pending[a].name in s.reserved
    ensures name == s.pending[a].name ==> CreateCode(s, name, fake, made).Disposed? && Created(s, name, fake, made) == s
    ensures a in Created(s, name, fake, made).pending && a in Created(s, name, fake, made).leases
            && Created(s, name, fake, made).leases[a] == 1
  {
    assert PendingOk(s, a);
    CreatedPending(s, name, fake, made, a);
  }

  /** Every live child handle resolves, and the handles of a disposed adapter resolve no longer. */
  lemma ChildrenResolve(s: Store, b: Handle, m: Handle)
    requires Inv(s)
    ensures b in s.buses <==> ResolvesBus(s, b)
    ensures m in s.motors <==> ResolvesMotor(s, m)
  {
    if b in s.buses { assert BusOk(s, b); }
    if m in s.motors { assert MotorOk(s, m) && BusOk(s, s.motors[m].bus); }
  }

  lemma DisposedChildrenAreGone(s: Store, h: Handle, drained: bool, destroyed: bool, b: Handle, m: Handle)
    requires Inv(s) && DisposeCode(s, h, drained, destroyed).Success? && !AwaitsDisposal(s, h)
    ensures var u := Dropped(s, h, drained, destroyed);
            && !ResolvesAdapter(u, h)
            && (b in s.buses && s.buses[b].owner == h ==> b !in u.buses)
            && (b in s.buses && s.buses[b].owner != h ==> b in u.buses && u.buses[b] == s.buses[b])
            && (m in s.motors && s.motors[m].owner == h ==> m !in u.motors)
            && (m in s.motors && s.motors[m].owner != h ==> m in u.motors && u.motors[m] == s.motors[m])
  {
    ChildrenAreOwned(s, h);
  }

  /** After `n` failed polls. */
  function FailedPolls(p: Pending, n: nat): Pending {
    if n == 0 then p else if FailedPolls(p, n - 1).exhausted then FailedPolls(p, n - 1) else Retried(FailedPolls(p, n - 1))
  }

  function Doubled(n: nat): nat { if n == 0 then 1 else 2 * Doubled(n - 1) }

  lemma {:induction false} FailedPollsAt(e: AdapterEntry, h: Handle, n: nat)
    ensures var p := FailedPolls(FirstTry(e, h), n);
            && (p.exhausted <==> n >= MAX_RETRIES)
            && p.retries == (if n < MAX_RETRIES then n else MAX_RETRIES)
            && (n < MAX_RETRIES ==> p.delay == if n <= 6 then Doubled(n) else MAX_DELAY)
  {
    if n > 0 {
      FailedPollsAt(e, h, n - 1);
      assert Doubled(6) == 64;
    }
  }

  /** A poll that cannot destroy the adapter is one failed attempt. */
  lemma PollRetries(s: Store, ready: set<Adapter>, a: Adapter)
    requires a in s.pending && (a in ready ==> s.pending[a].exhausted)
    ensures a in Polled(s, ready).pending && Polled(s, ready).pending[a] == FailedPolls(s.pending[a], 1)
  {
    assert FailedPolls(s.pending[a], 0) == s.pending[a];
  }

  /** After one poll for each element of `polls`. */
  function PolledAll(s: Store, polls: seq<set<Adapter>>): Store
    decreases |polls|
  {
    if polls == [] then s else Polled(PolledAll(s, polls[..|polls| - 1]), polls[|polls| - 1])
  }

  lemma {:induction false} PollsRetry(s: Store, a: Adapter, e: AdapterEntry, h: Handle, polls: seq<set<Adapter>>)
    requires a in s.pending && s.pending[a] == FirstTry(e, h)
    requires forall i | 0 <= i < |polls| && i < MAX_RETRIES :: a !in polls[i]
    ensures a in PolledAll(s, polls).pending && PolledAll(s, polls).pending[a] == FailedPolls(FirstTry(e, h), |polls|)
    decreases |polls|
  {
    if polls != [] {
      var n := |polls| - 1;
      var t := PolledAll(s, polls[..n]);
      PollsRetry(s, a, e, h, polls[..n]);
      FailedPollsAt(e, h, n);
      PollRetries(t, polls[n], a);
      assert FailedPolls(t.pending[a], 0) == t.pending[a];
    }
  }

  lemma {:induction false} PollsInv(s: Store, polls: seq<set<Adapter>>)
    requires Inv(s)
    ensures Inv(PolledAll(s, polls))
    decreases |polls|
  {
    if polls != [] {
      PollsInv(s, polls[..|polls| - 1]);
      PolledInv(PolledAll(s, polls[..|polls| - 1]), polls[|polls| - 1]);
    }
  }

  /** A deletion that cannot be carried out is tried 64 times, at delays 2, 4, ..., 64, 64, ..., and then
      rests, even if it could be carried out by then; its interface name and its lease stay taken. */
  lemma DeletionGivesUp(s: Store, a: Adapter, e: AdapterEntry, h: Handle, polls: seq<set<Adapter>>)
    requires Inv(s) && a in s.pending && s.pending[a] == FirstTry(e, h)
    requires forall i | 0 <= i < |polls| && i < MAX_RETRIES :: a !in polls[i]
    ensures var u, n := PolledAll(s, polls), |polls|;
            && a in u.pending
            && (u.pending[a].exhausted <==> n >= MAX_RETRIES)
            && u.pending[a].retries == (if n < MAX_RETRIES then n else MAX_RETRIES)
            && (n < MAX_RETRIES ==> u.pending[a].delay == if n <= 6 then Doubled(n) else MAX_DELAY)
            && u.pending[a].name in u.reserved && a in u.leases && u.leases[a] == 1
  {
    PollsRetry(s, a, e, h, polls);
    FailedPollsAt(e, h, |polls|);
    PollsInv(s, polls);
    assert PendingOk(PolledAll(s, polls), a);
  }
}
