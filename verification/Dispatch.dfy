/** Receive dispatch against destruction in one adapter's route domain: any number of threads look up
    an exact route, the claiming route or, for the shared id 0x7FF, every route of the bus; raise
    `in_flight` under the lock, run the callback outside it, and lower `in_flight` again, while devices
    are published, migrated, detached, drained and destroyed
    (src/driver_manager_dispatch.cc:10-40, 253-335; src/driver_manager_impl.h:558-613;
    src/driver_manager_destroy.cc:45-59).  A device number denotes one object for ever.
 */
module Dispatch {
  import opened RouteTables

  const SYSTEM_ID: nat := 0x7FF

  datatype Record = Record(device: Device, callback: bool, retiring: bool, inFlight: int)

  /** What a dispatch does when its queue of routes is served. */
  datatype After = ThenClaim(raw: int) | ThenReturn(hit: bool)

  /** A dispatch: about to look up the claiming route, holding admissions to the queued routes, running
      the callback of the first of them, or returned. */
  datatype Pc = AtClaim(raw: int) | Holding(queue: seq<nat>, after: After) | Running(queue: seq<nat>, after: After) | Returned(hit: bool)

  /** A destruction draining its entries in order. */
  datatype Drain = Drain(entries: seq<nat>, done: nat)

  datatype State = State(
    routes: map<nat, nat>, claims: map<int, nat>, records: map<nat, Record>,
    registrations: map<Device, seq<nat>>, drains: map<Device, Drain>, alive: set<Device>, used: set<Device>,
    pcs: map<nat, Pc>)

  datatype Step =
    | Publish(d: Device, added: map<nat, nat>, entries: seq<nat>, callback: bool)
    | PublishClaim(d: Device, raw: int, record: nat, callback: bool)
    | Rekey(from: nat, to: nat)
    | Detach(d: Device) | DrainNext(d: Device) | Destroy(d: Device)
    | LookUp(a: nat, raw: int, canId: nat) | Broadcast(a: nat, raw: int, order: seq<nat>) | LookUpClaim(a: nat)
    | StartCallback(a: nat) | FinishCallback(a: nat)

  predicate Eligible(s: State, r: nat) {
    r in s.records && !s.records[r].retiring && s.records[r].callback
  }

  predicate OnBus(uniqueId: nat, raw: int) {
    uniqueId / WORD % WORD == Unsigned(raw)
  }

  /** The routes a broadcast takes, in the table's iteration order, whatever that is. */
  ghost predicate SystemRoutes(s: State, raw: int, order: seq<nat>) {
    && AllDistinct(order)
    && (forall r | r in order :: Eligible(s, r) && exists k :: k in s.routes && OnBus(k, raw) && s.routes[k] == r)
    && (forall k | k in s.routes && OnBus(k, raw) && Eligible(s, s.routes[k]) :: s.routes[k] in order)
  }

  function Queue(pc: Pc): seq<nat> {
    if pc.Holding? || pc.Running? then pc.queue else []
  }

  function Serve(queue: seq<nat>, after: After): Pc {
    if queue != [] then Holding(queue, after)
    else match after
         case ThenClaim(raw) => AtClaim(raw)
         case ThenReturn(hit) => Returned(hit)
  }

  ghost predicate Enabled(s: State, step: Step) {
    match step
    case Publish(d, added, entries, _) =>
      && d !in s.used && AllDistinct(entries) && (forall r | r in entries :: r !in s.records)
      && (forall k | k in added :: k !in s.routes && added[k] in entries)
      && (forall k, k' | k in added && k' in added && added[k] == added[k'] :: k == k')
    case PublishClaim(d, raw, record, _) => d !in s.used && raw !in s.claims && record !in s.records
    case Rekey(from, to) => from in s.routes && to !in s.routes
    case Detach(d) => d in s.registrations
    case DrainNext(d) =>
      && d in s.drains && s.drains[d].done < |s.drains[d].entries|
      && s.drains[d].entries[s.drains[d].done] in s.records
      && s.records[s.drains[d].entries[s.drains[d].done]].inFlight == 0
    case Destroy(d) => d in s.drains && s.drains[d].done == |s.drains[d].entries|
    case LookUp(a, raw, canId) => a !in s.pcs && canId != SYSTEM_ID
    case Broadcast(a, raw, order) => a !in s.pcs && SystemRoutes(s, raw, order)
    case LookUpClaim(a) => a in s.pcs && s.pcs[a].AtClaim?
    case StartCallback(a) => a in s.pcs && s.pcs[a].Holding?
    case FinishCallback(a) => a in s.pcs && s.pcs[a].Running? && s.pcs[a].queue != [] && s.pcs[a].queue[0] in s.records
  }

  function Add(records: map<nat, Record>, r: nat, n: int): map<nat, Record>
    requires r in records
  {
    records[r := records[r].(inFlight := records[r].inFlight + n)]
  }

  /** Thread `a` admitted to the routes of `queue`, all of them in one critical section. */
  function Admit(s: State, a: nat, queue: seq<nat>, after: After): State {
    s.(records := map r | r in s.records ::
         if r in queue then s.records[r].(inFlight := s.records[r].inFlight + 1) else s.records[r],
       pcs := s.pcs[a := Serve(queue, after)])
  }

  ghost function Do(s: State, step: Step): State
    requires Enabled(s, step)
  {
    match step
    case Publish(d, added, entries, callback) =>
      s.(routes := s.routes + added,
         records := s.records + map r | r in entries :: Record(d, callback, false, 0),
         registrations := s.registrations[d := entries], alive := s.alive + {d}, used := s.used + {d})
    case PublishClaim(d, raw, record, callback) =>
      s.(claims := s.claims[raw := record], records := s.records[record := Record(d, callback, false, 0)],
         registrations := s.registrations[d := [record]], alive := s.alive + {d}, used := s.used + {d})
    case Rekey(from, to) => s.(routes := (s.routes - {from})[to := s.routes[from]])
    case Detach(d) =>
      var entries := s.registrations[d];
      s.(records := (map r | r in s.records ::
                       if r in entries then s.records[r].(retiring := true) else s.records[r]),
         routes := (map k | k in s.routes && s.routes[k] !in entries :: s.routes[k]),
         claims := (map k | k in s.claims && s.claims[k] !in entries :: s.claims[k]),
         registrations := s.registrations - {d}, drains := s.drains[d := Drain(entries, 0)])
    case DrainNext(d) => s.(drains := s.drains[d := s.drains[d].(done := s.drains[d].done + 1)])
    case Destroy(d) => s.(alive := s.alive - {d}, drains := s.drains - {d})
    case LookUp(a, raw, canId) =>
      var k := UniqueId(raw, canId);
      if k in s.routes && Eligible(s, s.routes[k]) then Admit(s, a, [s.routes[k]], ThenReturn(true))
      else s.(pcs := s.pcs[a := AtClaim(raw)])
    case Broadcast(a, raw, order) => Admit(s, a, order, ThenClaim(raw))
    case LookUpClaim(a) =>
      var raw := s.pcs[a].raw;
      if raw in s.claims && Eligible(s, s.claims[raw]) then Admit(s, a, [s.claims[raw]], ThenReturn(false))
      else s.(pcs := s.pcs[a := Returned(false)])
    case StartCallback(a) => s.(pcs := s.pcs[a := Running(s.pcs[a].queue, s.pcs[a].after)])
    case FinishCallback(a) =>
      s.(records := Add(s.records, s.pcs[a].queue[0], -1), pcs := s.pcs[a := Serve(s.pcs[a].queue[1..], s.pcs[a].after)])
  }

  // ---------------------------------------------------------------- the invariant

  /** The threads admitted to a route. */
  ghost function Holders(pcs: map<nat, Pc>, r: nat): set<nat> {
    set a | a in pcs && r in Queue(pcs[a])
  }

  ghost predicate CountsOk(s: State) {
    forall r | r in s.records :: s.records[r].inFlight == |Holders(s.pcs, r)|
  }

  ghost predicate QueueOk(s: State, pc: Pc) {
    && AllDistinct(Queue(pc)) && (forall r | r in Queue(pc) :: r in s.records)
    && (pc.Holding? || pc.Running? ==> pc.queue != [])
  }

  ghost predicate QueuesOk(s: State) {
    forall a | a in s.pcs :: QueueOk(s, s.pcs[a])
  }

  ghost predicate TablesOk(s: State) {
    && (forall k | k in s.routes :: s.routes[k] in s.records && !s.records[s.routes[k]].retiring)
    && (forall k | k in s.claims :: s.claims[k] in s.records && !s.records[s.claims[k]].retiring)
    && (forall k, k' | k in s.routes && k' in s.routes && s.routes[k] == s.routes[k'] :: k == k')
  }

  ghost predicate DevicesOk(s: State) {
    && s.alive <= s.used
    && (forall d | d in s.registrations :: d in s.alive && d !in s.drains
          && forall r | r in s.registrations[d] :: r in s.records && s.records[r].device == d)
    && (forall d | d in s.drains :: d in s.alive && s.drains[d].done <= |s.drains[d].entries|
          && forall r | r in s.drains[d].entries :: r in s.records && s.records[r].device == d)
  }

  /** A record is owned by a registration, or by a draining destruction, or is done with. */
  ghost predicate RecordOk(s: State, r: nat)
    requires r in s.records
  {
    var record := s.records[r];
    || (!record.retiring && record.device in s.registrations && r in s.registrations[record.device])
    || (record.retiring && record.device in s.drains && r in s.drains[record.device].entries)
    || (record.retiring && record.inFlight == 0)
  }

  ghost predicate DrainedOk(s: State, d: Device)
    requires d in s.drains && s.drains[d].done <= |s.drains[d].entries|
  {
    forall i | 0 <= i < s.drains[d].done ::
      var r := s.drains[d].entries[i];
      r in s.records && s.records[r].retiring && s.records[r].inFlight == 0
  }

  ghost predicate Inv(s: State) {
    && CountsOk(s) && QueuesOk(s) && TablesOk(s) && DevicesOk(s)
    && (forall r | r in s.records :: RecordOk(s, r))
    && (forall d | d in s.drains :: DrainedOk(s, d))
  }

  // ---------------------------------------------------------------- admissions

  ghost predicate Admissible(s: State, queue: seq<nat>) {
    AllDistinct(queue) && forall r | r in queue :: Eligible(s, r)
  }

  /** Serving a queue makes the thread a holder of exactly the queued records. */
  lemma HoldersAfter(pcs: map<nat, Pc>, a: nat, pc: Pc, r: nat)
    requires a in pcs ==> r !in Queue(pcs[a])
    ensures |Holders(pcs[a := pc], r)| == |Holders(pcs, r)| + if r in Queue(pc) then 1 else 0
  {
    assert Holders(pcs[a := pc], r) == Holders(pcs, r) + if r in Queue(pc) then {a} else {};
  }

  lemma AdmitRecord(s: State, a: nat, queue: seq<nat>, after: After, r: nat)
    requires r in s.records && s.records[r].inFlight == |Holders(s.pcs, r)| && (a in s.pcs ==> Queue(s.pcs[a]) == [])
    requires RecordOk(s, r) && (r in queue ==> Eligible(s, r))
    ensures var t := Admit(s, a, queue, after);
            r in t.records && t.records[r].inFlight == |Holders(t.pcs, r)| && RecordOk(t, r)
  {
    HoldersAfter(s.pcs, a, Serve(queue, after), r);
    assert Queue(Serve(queue, after)) == queue;
  }

  lemma AdmitDrained(s: State, a: nat, queue: seq<nat>, after: After, d: Device)
    requires d in s.drains && s.drains[d].done <= |s.drains[d].entries| && DrainedOk(s, d) && Admissible(s, queue)
    ensures DrainedOk(Admit(s, a, queue, after), d)
  {
  }

  lemma AdmitTables(s: State, a: nat, queue: seq<nat>, after: After)
    requires TablesOk(s) && DevicesOk(s) && QueuesOk(s) && Admissible(s, queue)
    ensures var t := Admit(s, a, queue, after); TablesOk(t) && DevicesOk(t) && QueuesOk(t)
  {
    var t := Admit(s, a, queue, after);
    forall b | b in t.pcs ensures QueueOk(t, t.pcs[b]) {
      if b != a { assert QueueOk(s, s.pcs[b]); }
    }
  }

  lemma AdmitInv(s: State, a: nat, queue: seq<nat>, after: After)
    requires Inv(s) && Admissible(s, queue) && (a in s.pcs ==> Queue(s.pcs[a]) == [])
    ensures Inv(Admit(s, a, queue, after))
  {
    var t := Admit(s, a, queue, after);
    AdmitTables(s, a, queue, after);
    forall r | r in t.records ensures t.records[r].inFlight == |Holders(t.pcs, r)| && RecordOk(t, r) {
      AdmitRecord(s, a, queue, after, r);
    }
    forall d | d in t.drains ensures DrainedOk(t, d) { AdmitDrained(s, a, queue, after, d); }
  }

  /** A thread whose queue does not change. */
  lemma QuietInv(s: State, a: nat, pc: Pc)
    requires Inv(s) && QueueOk(s, pc) && Queue(pc) == (if a in s.pcs then Queue(s.pcs[a]) else [])
    ensures Inv(s.(pcs := s.pcs[a := pc]))
  {
    var t := s.(pcs := s.pcs[a := pc]);
    forall r | r in t.records ensures t.records[r].inFlight == |Holders(t.pcs, r)| && RecordOk(t, r) {
      assert Holders(t.pcs, r) == Holders(s.pcs, r);
      assert RecordOk(s, r);
    }
    forall d | d in t.drains ensures DrainedOk(t, d) { assert DrainedOk(s, d); }
    forall b | b in t.pcs ensures QueueOk(t, t.pcs[b]) {
      if b != a { assert QueueOk(s, s.pcs[b]); }
    }
  }

  lemma FinishCounts(s: State, a: nat)
    requires CountsOk(s) && Enabled(s, FinishCallback(a)) && AllDistinct(s.pcs[a].queue)
    ensures CountsOk(Do(s, FinishCallback(a)))
  {
    var t := Do(s, FinishCallback(a));
    var queue := s.pcs[a].queue;
    forall r | r in t.records ensures t.records[r].inFlight == |Holders(t.pcs, r)| {
      if r == queue[0] {
        assert Holders(t.pcs, r) == Holders(s.pcs, r) - {a};
      } else {
        assert r in queue <==> r in queue[1..];
        assert Holders(t.pcs, r) == Holders(s.pcs, r);
      }
    }
  }

  lemma FinishDrained(s: State, a: nat, d: Device)
    requires CountsOk(s) && Enabled(s, FinishCallback(a)) && d in s.drains && s.drains[d].done <= |s.drains[d].entries|
    requires DrainedOk(s, d)
    ensures DrainedOk(Do(s, FinishCallback(a)), d)
  {
    var head := s.pcs[a].queue[0];
    assert a in Holders(s.pcs, head);
    forall i | 0 <= i < s.drains[d].done ensures s.drains[d].entries[i] != head {
      assert Holders(s.pcs, s.drains[d].entries[i]) == {};
    }
  }

  lemma FinishRecord(s: State, a: nat, r: nat)
    requires CountsOk(s) && Enabled(s, FinishCallback(a)) && r in s.records && RecordOk(s, r)
    ensures RecordOk(Do(s, FinishCallback(a)), r)
  {
    assert r == s.pcs[a].queue[0] ==> a in Holders(s.pcs, r);
  }

  lemma FinishQueues(s: State, a: nat)
    requires QueuesOk(s) && TablesOk(s) && DevicesOk(s) && Enabled(s, FinishCallback(a))
    ensures var t := Do(s, FinishCallback(a)); QueuesOk(t) && TablesOk(t) && DevicesOk(t)
  {
    var t := Do(s, FinishCallback(a));
    assert QueueOk(s, s.pcs[a]);
    forall b | b in t.pcs ensures QueueOk(t, t.pcs[b]) {
      if b != a { assert QueueOk(s, s.pcs[b]); }
    }
  }

  lemma FinishInv(s: State, a: nat)
    requires Inv(s) && Enabled(s, FinishCallback(a))
    ensures Inv(Do(s, FinishCallback(a)))
  {
    var t := Do(s, FinishCallback(a));
    assert QueueOk(s, s.pcs[a]);
    FinishCounts(s, a);
    FinishQueues(s, a);
    forall r | r in t.records ensures RecordOk(t, r) { FinishRecord(s, a, r); }
    forall d | d in t.drains ensures DrainedOk(t, d) { FinishDrained(s, a, d); }
  }

  // ---------------------------------------------------------------- publishing and destroying

  lemma NewRecordsUnheld(s: State, r: nat)
    requires QueuesOk(s) && r !in s.records
    ensures Holders(s.pcs, r) == {}
  {
    forall a | a in s.pcs ensures r !in Queue(s.pcs[a]) { assert QueueOk(s, s.pcs[a]); }
  }

  lemma PublishRecords(s: State, step: Step)
    requires CountsOk(s) && QueuesOk(s) && DevicesOk(s) && Enabled(s, step) && (step.Publish? || step.PublishClaim?)
    requires forall r | r in s.records :: RecordOk(s, r)
    ensures var t := Do(s, step); CountsOk(t) && forall r | r in t.records :: RecordOk(t, r)
  {
    var t := Do(s, step);
    forall r | r in t.records ensures t.records[r].inFlight == |Holders(t.pcs, r)| && RecordOk(t, r) {
      if r in s.records { assert RecordOk(s, r); } else { NewRecordsUnheld(s, r); }
    }
  }

  lemma PublishInv(s: State, step: Step)
    requires Inv(s) && Enabled(s, step) && (step.Publish? || step.PublishClaim?)
    ensures Inv(Do(s, step))
  {
    PublishRecords(s, step);
    PublishDevices(s, step);
    PublishTables(s, step);
    PublishOthers(s, step);
  }

  lemma PublishDevices(s: State, step: Step)
    requires DevicesOk(s) && Enabled(s, step) && (step.Publish? || step.PublishClaim?)
    ensures DevicesOk(Do(s, step))
  {
  }

  lemma PublishTables(s: State, step: Step)
    requires TablesOk(s) && Enabled(s, step) && (step.Publish? || step.PublishClaim?)
    ensures TablesOk(Do(s, step))
  {
  }

  lemma PublishOthers(s: State, step: Step)
    requires QueuesOk(s) && DevicesOk(s) && Enabled(s, step) && (step.Publish? || step.PublishClaim?)
    requires forall d | d in s.drains :: DrainedOk(s, d)
    ensures var t := Do(s, step);
            QueuesOk(t) && forall d | d in t.drains :: d in s.drains && t.drains[d] == s.drains[d] && DrainedOk(t, d)
  {
    var t := Do(s, step);
    forall b | b in t.pcs ensures QueueOk(t, t.pcs[b]) { assert QueueOk(s, s.pcs[b]); }
    forall d | d in t.drains ensures DrainedOk(t, d) { assert DrainedOk(s, d); }
  }

  lemma DetachRecords(s: State, d: Device)
    requires CountsOk(s) && DevicesOk(s) && Enabled(s, Detach(d)) && forall r | r in s.records :: RecordOk(s, r)
    ensures var t := Do(s, Detach(d)); CountsOk(t) && forall r | r in t.records :: RecordOk(t, r)
  {
    var t := Do(s, Detach(d));
    forall r | r in t.records ensures RecordOk(t, r) { assert RecordOk(s, r); }
  }

  lemma DetachDrains(s: State, d: Device)
    requires DevicesOk(s) && Enabled(s, Detach(d)) && forall x | x in s.drains :: DrainedOk(s, x)
    ensures var t := Do(s, Detach(d)); DevicesOk(t) && forall x | x in t.drains :: DrainedOk(t, x)
  {
    var t := Do(s, Detach(d));
    forall x | x in t.drains ensures DrainedOk(t, x) {
      if x != d { assert DrainedOk(s, x); }
    }
  }

  lemma DetachTables(s: State, d: Device)
    requires TablesOk(s) && QueuesOk(s) && Enabled(s, Detach(d))
    ensures var t := Do(s, Detach(d)); TablesOk(t) && QueuesOk(t)
  {
    var t := Do(s, Detach(d));
    forall b | b in t.pcs ensures QueueOk(t, t.pcs[b]) { assert QueueOk(s, s.pcs[b]); }
  }

  lemma DetachInv(s: State, d: Device)
    requires Inv(s) && Enabled(s, Detach(d))
    ensures Inv(Do(s, Detach(d)))
  {
    DetachRecords(s, d);
    DetachDrains(s, d);
    DetachTables(s, d);
  }

  lemma DrainPasses(s: State, d: Device)
    requires DevicesOk(s) && Enabled(s, DrainNext(d)) && DrainedOk(s, d)
    requires forall r | r in s.records :: RecordOk(s, r)
    ensures DrainedOk(Do(s, DrainNext(d)), d)
  {
    var r := s.drains[d].entries[s.drains[d].done];
    assert r in s.drains[d].entries && RecordOk(s, r);
  }

  lemma DrainInv(s: State, d: Device)
    requires Inv(s) && Enabled(s, DrainNext(d))
    ensures Inv(Do(s, DrainNext(d)))
  {
    var t := Do(s, DrainNext(d));
    forall r | r in t.records ensures RecordOk(t, r) { assert RecordOk(s, r); }
    forall b | b in t.pcs ensures QueueOk(t, t.pcs[b]) { assert QueueOk(s, s.pcs[b]); }
    forall x | x in t.drains ensures DrainedOk(t, x) {
      assert DrainedOk(s, x);
      if x == d { DrainPasses(s, d); }
    }
  }

  lemma DestroyInv(s: State, d: Device)
    requires Inv(s) && Enabled(s, Destroy(d))
    ensures Inv(Do(s, Destroy(d)))
  {
    var t := Do(s, Destroy(d));
    assert DrainedOk(s, d);
    forall r | r in t.records ensures RecordOk(t, r) { assert RecordOk(s, r); }
    forall b | b in t.pcs ensures QueueOk(t, t.pcs[b]) { assert QueueOk(s, s.pcs[b]); }
    forall x | x in t.drains ensures DrainedOk(t, x) { assert DrainedOk(s, x); }
  }

  lemma RekeyInv(s: State, from: nat, to: nat)
    requires Inv(s) && Enabled(s, Rekey(from, to))
    ensures Inv(Do(s, Rekey(from, to)))
  {
    var t := Do(s, Rekey(from, to));
    forall r | r in t.records ensures RecordOk(t, r) { assert RecordOk(s, r); }
    forall b | b in t.pcs ensures QueueOk(t, t.pcs[b]) { assert QueueOk(s, s.pcs[b]); }
    forall x | x in t.drains ensures DrainedOk(t, x) { assert DrainedOk(s, x); }
  }

  lemma LookUpInv(s: State, a: nat, raw: int, canId: nat)
    requires Inv(s) && Enabled(s, LookUp(a, raw, canId))
    ensures Inv(Do(s, LookUp(a, raw, canId)))
  {
    var k := UniqueId(raw, canId);
    if k in s.routes && Eligible(s, s.routes[k]) { AdmitInv(s, a, [s.routes[k]], ThenReturn(true)); }
    else { QuietInv(s, a, AtClaim(raw)); }
  }

  lemma LookUpClaimInv(s: State, a: nat)
    requires Inv(s) && Enabled(s, LookUpClaim(a))
    ensures Inv(Do(s, LookUpClaim(a)))
  {
    var raw := s.pcs[a].raw;
    if raw in s.claims && Eligible(s, s.claims[raw]) { AdmitInv(s, a, [s.claims[raw]], ThenReturn(false)); }
    else { QuietInv(s, a, Returned(false)); }
  }

  lemma StepInv(s: State, step: Step)
    requires Inv(s) && Enabled(s, step)
    ensures Inv(Do(s, step))
  {
    match step
    case Publish(_, _, _, _) => PublishInv(s, step);
    case PublishClaim(_, _, _, _) => PublishInv(s, step);
    case Rekey(from, to) => RekeyInv(s, from, to);
    case Detach(d) => DetachInv(s, d);
    case DrainNext(d) => DrainInv(s, d);
    case Destroy(d) => DestroyInv(s, d);
    case LookUp(a, raw, canId) => LookUpInv(s, a, raw, canId);
    case Broadcast(a, raw, order) => AdmitInv(s, a, order, ThenClaim(raw));
    case LookUpClaim(a) => LookUpClaimInv(s, a);
    case StartCallback(a) =>
      assert QueueOk(s, s.pcs[a]);
      QuietInv(s, a, Running(s.pcs[a].queue, s.pcs[a].after));
    case FinishCallback(a) => FinishInv(s, a);
  }

  // ---------------------------------------------------------------- theorems

  ghost predicate Initial(s: State) {
    s == State(map[], map[], map[], map[], map[], {}, {}, map[])
  }

  ghost predicate StepAt(run: seq<State>, steps: seq<Step>, i: nat)
    requires |run| == |steps| + 1 && i < |steps|
  {
    Enabled(run[i], steps[i]) && run[i + 1] == Do(run[i], steps[i])
  }

  ghost predicate Run(run: seq<State>, steps: seq<Step>) {
    |run| == |steps| + 1 && Initial(run[0]) && forall i: nat | i < |steps| :: StepAt(run, steps, i)
  }

  lemma InitialInv(s: State)
    requires Initial(s)
    ensures Inv(s)
  {
  }

  lemma {:induction false} RunInv(run: seq<State>, steps: seq<Step>, n: nat)
    requires Run(run, steps) && n <= |steps|
    ensures Inv(run[n])
  {
    if n == 0 {
      InitialInv(run[0]);
    } else {
      RunInv(run, steps, n - 1);
      assert StepAt(run, steps, n - 1);
      StepInv(run[n - 1], steps[n - 1]);
    }
  }

  /** In every run, no callback is running, or waiting to run, on a destroyed device. */
  lemma NoCallbackOnADestroyedDevice(run: seq<State>, steps: seq<Step>, n: nat, a: nat, r: nat)
    requires Run(run, steps) && n <= |steps| && a in run[n].pcs && r in Queue(run[n].pcs[a])
    ensures r in run[n].records && run[n].records[r].device in run[n].alive
  {
    RunInv(run, steps, n);
    var s := run[n];
    assert QueueOk(s, s.pcs[a]);
    assert RecordOk(s, r) && a in Holders(s.pcs, r);
  }

  /** `in_flight` counts exactly the threads between admission and decrement. */
  lemma InFlightIsExact(run: seq<State>, steps: seq<Step>, n: nat, r: nat)
    requires Run(run, steps) && n <= |steps| && r in run[n].records
    ensures run[n].records[r].inFlight == |Holders(run[n].pcs, r)|
  {
    RunInv(run, steps, n);
  }

  /** Nobody is newly admitted to a retiring record, and it stays retiring. */
  lemma RetiringAdmitsNobody(s: State, step: Step, r: nat)
    requires Enabled(s, step) && r in s.records && s.records[r].retiring
    ensures var t := Do(s, step);
            r in t.records && t.records[r].retiring && Holders(t.pcs, r) <= Holders(s.pcs, r)
  {
    if step.LookUp? || step.LookUpClaim? || step.Broadcast? { LookUpAdmits(s, step, r); }
  }

  lemma LookUpAdmits(s: State, step: Step, r: nat)
    requires Enabled(s, step) && (step.LookUp? || step.LookUpClaim? || step.Broadcast?)
    requires r in s.records && !Eligible(s, r)
    ensures var t := Do(s, step);
            r in t.records && t.records[r] == s.records[r] && Holders(t.pcs, r) <= Holders(s.pcs, r)
  {
    match step
    case LookUp(a, raw, canId) =>
      var k := UniqueId(raw, canId);
      if k in s.routes && Eligible(s, s.routes[k]) { AdmitOthers(s, a, [s.routes[k]], ThenReturn(true), r); }
    case Broadcast(a, raw, order) => AdmitOthers(s, a, order, ThenClaim(raw), r);
    case LookUpClaim(a) =>
      var raw := s.pcs[a].raw;
      if raw in s.claims && Eligible(s, s.claims[raw]) { AdmitOthers(s, a, [s.claims[raw]], ThenReturn(false), r); }
  }

  lemma AdmitOthers(s: State, a: nat, queue: seq<nat>, after: After, r: nat)
    requires r in s.records && r !in queue
    ensures var t := Admit(s, a, queue, after);
            r in t.records && t.records[r] == s.records[r] && Holders(t.pcs, r) <= Holders(s.pcs, r)
  {
  }

  /** Every holder of a record at `n` that was retiring at `m` was already admitted at `m`. */
  lemma {:induction false} RetiringOnlyEmpties(run: seq<State>, steps: seq<Step>, m: nat, n: nat, r: nat)
    requires Run(run, steps) && m <= n <= |steps| && r in run[m].records && run[m].records[r].retiring
    ensures r in run[n].records && run[n].records[r].retiring && Holders(run[n].pcs, r) <= Holders(run[m].pcs, r)
    decreases n
  {
    if n > m {
      RetiringOnlyEmpties(run, steps, m, n - 1, r);
      assert StepAt(run, steps, n - 1);
      RetiringAdmitsNobody(run[n - 1], steps[n - 1], r);
    }
  }

  /** Once the drain of a device has passed all its entries, no thread holds any of its records, then or
      later. */
  lemma AfterDrainNothingRuns(run: seq<State>, steps: seq<Step>, m: nat, n: nat, d: Device, r: nat)
    requires Run(run, steps) && m <= n <= |steps| && Enabled(run[m], Destroy(d))
    requires r in run[m].records && run[m].records[r].device == d
    ensures Holders(run[n].pcs, r) == {}
  {
    RunInv(run, steps, m);
    var s := run[m];
    assert RecordOk(s, r) && DrainedOk(s, d);
    RetiringOnlyEmpties(run, steps, m, n, r);
  }

  /** The lookups' own test for a retiring record never fires: sealing and unpublishing are one step. */
  lemma PublishedIsNotRetiring(run: seq<State>, steps: seq<Step>, n: nat)
    requires Run(run, steps) && n <= |steps|
    ensures forall k | k in run[n].routes :: run[n].routes[k] in run[n].records && !run[n].records[run[n].routes[k]].retiring
    ensures forall k | k in run[n].claims :: run[n].claims[k] in run[n].records && !run[n].records[run[n].claims[k]].retiring
  {
    RunInv(run, steps, n);
  }

  // ---------------------------------------------------------------- which callbacks a frame reaches

  /** A dispatch that is serving its queue stays where it is, starts the callback of the first route, or
      is done with it and goes on; one that looks for the claimer is admitted to it if it is eligible. */
  lemma CourseStep(s: State, step: Step, a: nat)
    requires Enabled(s, step) && a in s.pcs
    ensures a in Do(s, step).pcs
    ensures var pc, pc' := s.pcs[a], Do(s, step).pcs[a];
            match pc
            case Returned(_) => pc' == pc
            case Holding(queue, after) => pc' == pc || pc' == Running(queue, after)
            case Running(queue, after) => pc' == pc || (queue != [] && pc' == Serve(queue[1..], after))
            case AtClaim(raw) =>
              if step != LookUpClaim(a) then pc' == pc
              else if raw in s.claims && Eligible(s, s.claims[raw]) then pc' == Holding([s.claims[raw]], ThenReturn(false))
              else pc' == Returned(false)
  {
  }

  /** At some moment from `b` to `n` the thread ran the callback of the first route of `queue`. */
  ghost predicate Ran(run: seq<State>, b: nat, n: nat, a: nat, queue: seq<nat>, after: After) {
    exists j: nat :: b <= j <= n && j < |run| && RunsAt(run[j], a, queue, after)
  }

  ghost predicate RunsAt(s: State, a: nat, queue: seq<nat>, after: After) {
    a in s.pcs && s.pcs[a] == Running(queue, after)
  }

  ghost predicate At(s: State, a: nat, pc: Pc) {
    a in s.pcs && s.pcs[a] == pc
  }

  /** Thread `a` began to serve `queue` at `b`; at `n` it has run the callbacks of its first `i` routes,
      in order, and is at the next one, or has run them all by `p` and gone on. */
  ghost predicate Served(run: seq<State>, b: nat, n: nat, a: nat, queue: seq<nat>, after: After, i: nat, p: nat)
    requires n < |run|
  {
    && i <= |queue| && a in run[n].pcs
    && (forall j: nat | j < i :: Ran(run, b, n, a, queue[j..], after))
    && (if i < |queue| then run[n].pcs[a] == Holding(queue[i..], after) || run[n].pcs[a] == Running(queue[i..], after)
        else b <= p <= n && At(run[p], a, Serve([], after)))
  }

  lemma RanLonger(run: seq<State>, b: nat, n: nat, a: nat, queue: seq<nat>, after: After)
    requires Ran(run, b, n, a, queue, after)
    ensures Ran(run, b, n + 1, a, queue, after)
  {
    var j: nat :| b <= j <= n && j < |run| && RunsAt(run[j], a, queue, after);
    assert b <= j <= n + 1 && RunsAt(run[j], a, queue, after);
  }

  lemma {:induction false} ServesInOrder(run: seq<State>, steps: seq<Step>, b: nat, n: nat, a: nat, queue: seq<nat>, after: After)
    returns (i: nat, p: nat)
    requires Run(run, steps) && b <= n <= |steps| && At(run[b], a, Serve(queue, after))
    ensures Served(run, b, n, a, queue, after, i, p)
    decreases n
  {
    if n == b {
      i, p := 0, b;
      assert queue[0..] == queue;
    } else {
      i, p := ServesInOrder(run, steps, b, n - 1, a, queue, after);
      assert StepAt(run, steps, n - 1);
      CourseStep(run[n - 1], steps[n - 1], a);
      forall j: nat | j < i ensures Ran(run, b, n, a, queue[j..], after) { RanLonger(run, b, n - 1, a, queue[j..], after); }
      if i < |queue| && run[n - 1].pcs[a].Running? && run[n].pcs[a] != run[n - 1].pcs[a] {
        assert RunsAt(run[n - 1], a, queue[i..], after) && queue[i..][1..] == queue[i + 1..];
        i, p := i + 1, n;
        if i == |queue| { assert queue[i..] == []; }
      }
    }
  }

  lemma {:induction false} ReturnedStays(run: seq<State>, steps: seq<Step>, p: nat, n: nat, a: nat, hit: bool)
    requires Run(run, steps) && p <= n <= |steps| && At(run[p], a, Returned(hit))
    ensures At(run[n], a, Returned(hit))
    decreases n
  {
    if n > p {
      ReturnedStays(run, steps, p, n - 1, a, hit);
      assert StepAt(run, steps, n - 1);
      CourseStep(run[n - 1], steps[n - 1], a);
    }
  }

  /** The claiming route, if it is eligible when the dispatch looks for it in step `j`, is served next. */
  ghost predicate ClaimSought(run: seq<State>, steps: seq<Step>, p: nat, n: nat, a: nat, raw: int, j: nat)
    requires |run| == |steps| + 1
  {
    && p <= j < n <= |steps| && steps[j] == LookUpClaim(a)
    && At(run[j + 1], a, if raw in run[j].claims && Eligible(run[j], run[j].claims[raw])
                         then Holding([run[j].claims[raw]], ThenReturn(false)) else Returned(false))
  }

  lemma {:induction false} SeeksTheClaim(run: seq<State>, steps: seq<Step>, p: nat, n: nat, a: nat, raw: int) returns (j: nat)
    requires Run(run, steps) && p <= n <= |steps| && At(run[p], a, AtClaim(raw))
    ensures At(run[n], a, AtClaim(raw)) || ClaimSought(run, steps, p, n, a, raw, j)
    decreases n
  {
    j := p;
    if n > p {
      j := SeeksTheClaim(run, steps, p, n - 1, a, raw);
      assert StepAt(run, steps, n - 1);
      if At(run[n - 1], a, AtClaim(raw)) {
        CourseStep(run[n - 1], steps[n - 1], a);
        if steps[n - 1] == LookUpClaim(a) { j := n - 1; }
      }
    }
  }

  /** A record keeps its key, its device and its callback as long as its device is not detached and the key
      is not moved. */
  ghost predicate Routes(s: State, k: nat, r: nat, d: Device) {
    k in s.routes && s.routes[k] == r && Eligible(s, r) && s.records[r].device == d
  }

  ghost predicate Claims(s: State, raw: int, r: nat, d: Device) {
    raw in s.claims && s.claims[raw] == r && Eligible(s, r) && s.records[r].device == d
  }

  /** Only the detach of its own device makes a record ineligible. */
  lemma EligibleStep(s: State, step: Step, r: nat)
    requires DevicesOk(s) && Enabled(s, step) && Eligible(s, r) && step != Detach(s.records[r].device)
    ensures Eligible(Do(s, step), r) && Do(s, step).records[r].device == s.records[r].device
    ensures step.Detach? ==> step.d in s.registrations && r !in s.registrations[step.d]
  {
  }

  lemma RoutesStep(s: State, step: Step, k: nat, r: nat, d: Device)
    requires DevicesOk(s) && Enabled(s, step) && Routes(s, k, r, d) && step != Detach(d) && !(step.Rekey? && step.from == k)
    ensures Routes(Do(s, step), k, r, d)
  {
    EligibleStep(s, step, r);
  }

  lemma ClaimsStep(s: State, step: Step, raw: int, r: nat, d: Device)
    requires DevicesOk(s) && Enabled(s, step) && Claims(s, raw, r, d) && step != Detach(d)
    ensures Claims(Do(s, step), raw, r, d)
  {
    EligibleStep(s, step, r);
  }

  /** From step `m` on, neither a detach of `d` nor a move away from `k`. */
  ghost predicate Untouched(steps: seq<Step>, m: nat, n: nat, k: nat, d: Device) {
    forall j | m <= j < n && j < |steps| :: steps[j] != Detach(d) && !(steps[j].Rekey? && steps[j].from == k)
  }

  lemma {:induction false} RouteStays(run: seq<State>, steps: seq<Step>, m: nat, n: nat, k: nat, r: nat, d: Device)
    requires Run(run, steps) && m <= n <= |steps| && Routes(run[m], k, r, d) && Untouched(steps, m, n, k, d)
    ensures Routes(run[n], k, r, d)
    decreases n
  {
    if n > m {
      RouteStays(run, steps, m, n - 1, k, r, d);
      RunInv(run, steps, n - 1);
      assert StepAt(run, steps, n - 1);
      RoutesStep(run[n - 1], steps[n - 1], k, r, d);
    }
  }

  lemma {:induction false} ClaimStays(run: seq<State>, steps: seq<Step>, m: nat, n: nat, raw: int, r: nat, d: Device)
    requires Run(run, steps) && m <= n <= |steps| && Claims(run[m], raw, r, d)
    requires forall j | m <= j < n :: steps[j] != Detach(d)
    ensures Claims(run[n], raw, r, d)
    decreases n
  {
    if n > m {
      ClaimStays(run, steps, m, n - 1, raw, r, d);
      RunInv(run, steps, n - 1);
      assert StepAt(run, steps, n - 1);
      ClaimsStep(run[n - 1], steps[n - 1], raw, r, d);
    }
  }

  /** In step `m` device `d` published record `r`, with a callback, under key `k`; or the motor `d` that
      had `r` under another key moved to `k`. */
  ghost predicate PutsUnder(run: seq<State>, steps: seq<Step>, m: nat, k: nat, r: nat, d: Device)
    requires |run| == |steps| + 1 && m < |steps|
  {
    match steps[m]
    case Publish(x, added, entries, callback) => x == d && callback && k in added && added[k] == r
    case Rekey(from, to) => to == k && Routes(run[m], from, r, d)
    case _ => false
  }

  lemma PutRoutes(run: seq<State>, steps: seq<Step>, m: nat, k: nat, r: nat, d: Device)
    requires Run(run, steps) && m < |steps| && PutsUnder(run, steps, m, k, r, d)
    ensures Routes(run[m + 1], k, r, d)
  {
    RunInv(run, steps, m);
    assert StepAt(run, steps, m);
  }

  /** A frame reaches the device that published its id: the dispatch is admitted to that one record,
      holds no other, has run its callback when it returns, and returns true. */
  lemma FrameReachesItsOwner(run: seq<State>, steps: seq<Step>, m: nat, b: nat, n: nat,
                             a: nat, raw: int, canId: nat, r: nat, d: Device)
    requires Run(run, steps) && m < b < n <= |steps| && steps[b] == LookUp(a, raw, canId)
    requires PutsUnder(run, steps, m, UniqueId(raw, canId), r, d) && Untouched(steps, m + 1, b, UniqueId(raw, canId), d)
    ensures a !in run[b].pcs && At(run[b + 1], a, Holding([r], ThenReturn(true)))
    ensures r in run[b + 1].records && run[b + 1].records[r].device == d
    ensures forall x :: Holders(run[b + 1].pcs, x) == Holders(run[b].pcs, x) + if x == r then {a} else {}
    ensures a in run[n].pcs && Queue(run[n].pcs[a]) <= [r]
    ensures run[n].pcs[a].Returned? ==> run[n].pcs[a].hit && Ran(run, b, n, a, [r], ThenReturn(true))
  {
    var k := UniqueId(raw, canId);
    PutRoutes(run, steps, m, k, r, d);
    RouteStays(run, steps, m + 1, b, k, r, d);
    assert StepAt(run, steps, b);
    forall x ensures Holders(run[b + 1].pcs, x) == Holders(run[b].pcs, x) + if x == r then {a} else {} {
      assert run[b + 1].pcs == run[b].pcs[a := Holding([r], ThenReturn(true))];
    }
    OneRouteServed(run, steps, b + 1, n, a, r, true);
    if Ran(run, b + 1, n, a, [r], ThenReturn(true)) { RanEarlier(run, b, n, a, [r], ThenReturn(true)); }
  }

  lemma RanEarlier(run: seq<State>, b: nat, n: nat, a: nat, queue: seq<nat>, after: After)
    requires Ran(run, b + 1, n, a, queue, after)
    ensures Ran(run, b, n, a, queue, after)
  {
    var j: nat :| b + 1 <= j <= n && j < |run| && RunsAt(run[j], a, queue, after);
    assert b <= j && RunsAt(run[j], a, queue, after);
  }

  lemma OneRouteServed(run: seq<State>, steps: seq<Step>, b: nat, n: nat, a: nat, r: nat, hit: bool)
    requires Run(run, steps) && b <= n <= |steps| && At(run[b], a, Holding([r], ThenReturn(hit)))
    ensures a in run[n].pcs
    ensures run[n].pcs[a] in {Holding([r], ThenReturn(hit)), Running([r], ThenReturn(hit)), Returned(hit)}
    ensures run[n].pcs[a].Returned? ==> Ran(run, b, n, a, [r], ThenReturn(hit))
  {
    var i, p := ServesInOrder(run, steps, b, n, a, [r], ThenReturn(hit));
    assert [r][0..] == [r];
    if i == 1 { ReturnedStays(run, steps, p, n, a, hit); }
  }

  /** The one frame a dispatch may be serving after looking for the claimer. */
  ghost predicate ClaimerServed(run: seq<State>, steps: seq<Step>, p: nat, n: nat, a: nat, raw: int, j: nat)
    requires |run| == |steps| + 1
  {
    && ClaimSought(run, steps, p, n, a, raw, j) && a in run[n].pcs
    && if raw in run[j].claims && Eligible(run[j], run[j].claims[raw])
       then var c := run[j].claims[raw];
            && run[n].pcs[a] in {Holding([c], ThenReturn(false)), Running([c], ThenReturn(false)), Returned(false)}
            && (run[n].pcs[a].Returned? ==> Ran(run, p, n, a, [c], ThenReturn(false)))
       else run[n].pcs[a] == Returned(false)
  }

  lemma {:induction false} RanFrom(run: seq<State>, b: nat, c: nat, n: nat, a: nat, queue: seq<nat>, after: After)
    requires b <= c && Ran(run, c, n, a, queue, after)
    ensures Ran(run, b, n, a, queue, after)
  {
    var j: nat :| c <= j <= n && j < |run| && RunsAt(run[j], a, queue, after);
    assert b <= j && RunsAt(run[j], a, queue, after);
  }

  /** A dispatch that has come to the claimer is admitted to the one eligible when it looks, to nobody if
      there is none, and returns false. */
  lemma ClaimerIsServed(run: seq<State>, steps: seq<Step>, p: nat, n: nat, a: nat, raw: int) returns (j: nat)
    requires Run(run, steps) && p <= n <= |steps| && At(run[p], a, AtClaim(raw))
    ensures At(run[n], a, AtClaim(raw)) || ClaimerServed(run, steps, p, n, a, raw, j)
  {
    j := SeeksTheClaim(run, steps, p, n, a, raw);
    if !At(run[n], a, AtClaim(raw)) {
      if raw in run[j].claims && Eligible(run[j], run[j].claims[raw]) {
        var c := run[j].claims[raw];
        OneRouteServed(run, steps, j + 1, n, a, c, false);
        if run[n].pcs[a].Returned? { RanFrom(run, p, j + 1, n, a, [c], ThenReturn(false)); }
      } else {
        ReturnedStays(run, steps, j + 1, n, a, false);
      }
    }
  }

  /** A frame whose id has no eligible route is left to the claimer of its bus, and the dispatch returns
      false. */
  lemma UnroutedFrameGoesToTheClaimer(run: seq<State>, steps: seq<Step>, b: nat, n: nat, a: nat, raw: int, canId: nat)
    returns (j: nat)
    requires Run(run, steps) && b < n <= |steps| && steps[b] == LookUp(a, raw, canId)
    requires forall r, d :: !Routes(run[b], UniqueId(raw, canId), r, d)
    ensures run[b + 1].records == run[b].records && At(run[b + 1], a, AtClaim(raw))
    ensures At(run[n], a, AtClaim(raw)) || ClaimerServed(run, steps, b + 1, n, a, raw, j)
  {
    assert StepAt(run, steps, b);
    var k := UniqueId(raw, canId);
    if k in run[b].routes && Eligible(run[b], run[b].routes[k]) {
      assert Routes(run[b], k, run[b].routes[k], run[b].records[run[b].routes[k]].device);
    }
    j := ClaimerIsServed(run, steps, b + 1, n, a, raw);
  }

  /** The claimer found is the device that claimed the bus and has not been detached since. */
  lemma ClaimerIsTheClaimant(run: seq<State>, steps: seq<Step>, m: nat, p: nat, n: nat, a: nat, raw: int, j: nat, r: nat, d: Device)
    requires Run(run, steps) && m < j && ClaimSought(run, steps, p, n, a, raw, j)
    requires steps[m] == PublishClaim(d, raw, r, true) && forall i | m < i < j :: steps[i] != Detach(d)
    ensures At(run[j + 1], a, Holding([r], ThenReturn(false)))
    ensures r in run[j + 1].records && run[j + 1].records[r].device == d
  {
    RunInv(run, steps, m);
    assert StepAt(run, steps, m);
    ClaimStays(run, steps, m + 1, j, raw, r, d);
    assert StepAt(run, steps, j);
  }

  /** A system frame reaches every eligible route of its bus, one after the other, then the claimer, and
      the dispatch returns false. */
  lemma BroadcastReachesAll(run: seq<State>, steps: seq<Step>, b: nat, n: nat, a: nat, raw: int, order: seq<nat>)
    returns (i: nat, p: nat, j: nat)
    requires Run(run, steps) && b < n <= |steps| && steps[b] == Broadcast(a, raw, order)
    ensures SystemRoutes(run[b], raw, order)
    ensures Served(run, b + 1, n, a, order, ThenClaim(raw), i, p)
    ensures i == |order| ==> At(run[n], a, AtClaim(raw)) || ClaimerServed(run, steps, p, n, a, raw, j)
    ensures run[n].pcs[a].Returned? ==>
              && !run[n].pcs[a].hit
              && forall q: nat | q < |order| :: Ran(run, b + 1, n, a, order[q..], ThenClaim(raw))
  {
    assert StepAt(run, steps, b);
    i, p := ServesInOrder(run, steps, b + 1, n, a, order, ThenClaim(raw));
    j := 0;
    if i == |order| { j := ClaimerIsServed(run, steps, p, n, a, raw); }
  }

  /** A dispatch waits for nobody. */
  lemma DispatchIsNotBlocked(run: seq<State>, steps: seq<Step>, n: nat, a: nat)
    requires Run(run, steps) && n <= |steps| && a in run[n].pcs && !run[n].pcs[a].Returned?
    ensures Enabled(run[n], LookUpClaim(a)) || Enabled(run[n], StartCallback(a)) || Enabled(run[n], FinishCallback(a))
  {
    RunInv(run, steps, n);
    assert QueueOk(run[n], run[n].pcs[a]);
  }

  // ---------------------------------------------------------------- what destruction achieves

  /** A destruction waits only for dispatches inside the record it has come to. */
  lemma DrainWaitsForHoldersOnly(run: seq<State>, steps: seq<Step>, n: nat, d: Device)
    requires Run(run, steps) && n <= |steps| && d in run[n].drains
    ensures var s := run[n];
            || Enabled(s, Destroy(d)) || Enabled(s, DrainNext(d))
            || (exists r :: r in s.records && s.records[r].device == d && Holders(s.pcs, r) != {})
  {
    RunInv(run, steps, n);
    var s := run[n];
    if !Enabled(s, Destroy(d)) {
      var r := s.drains[d].entries[s.drains[d].done];
      assert r in s.drains[d].entries;
      assert r in s.records && s.records[r].device == d;
    }
  }

  ghost predicate Sealed(s: State, d: Device) {
    d in s.used && d !in s.registrations && forall r | r in s.records && s.records[r].device == d :: s.records[r].retiring
  }

  lemma SealedStep(s: State, step: Step, d: Device)
    requires DevicesOk(s) && Enabled(s, step) && Sealed(s, d)
    ensures Sealed(Do(s, step), d)
  {
  }

  lemma DetachSeals(s: State, d: Device)
    requires Inv(s) && Enabled(s, Detach(d))
    ensures Sealed(Do(s, Detach(d)), d)
  {
    forall r | r in s.records && s.records[r].device == d ensures s.records[r].retiring || r in s.registrations[d] {
      assert RecordOk(s, r);
    }
  }

  /** From the detach on every record of the device is retiring, so nobody is admitted to it any more and
      nothing in the tables leads to it. */
  lemma {:induction false} DetachedIsUnreachable(run: seq<State>, steps: seq<Step>, m: nat, n: nat, d: Device)
    requires Run(run, steps) && m < n <= |steps| && steps[m] == Detach(d)
    ensures Sealed(run[n], d)
    ensures forall k | k in run[n].routes :: run[n].routes[k] in run[n].records && run[n].records[run[n].routes[k]].device != d
    ensures forall k | k in run[n].claims :: run[n].claims[k] in run[n].records && run[n].records[run[n].claims[k]].device != d
  {
    RunInv(run, steps, n - 1);
    assert StepAt(run, steps, n - 1);
    if n == m + 1 {
      DetachSeals(run[m], d);
    } else {
      DetachedIsUnreachable(run, steps, m, n - 1, d);
      SealedStep(run[n - 1], steps[n - 1], d);
    }
    RunInv(run, steps, n);
  }

  /** A broadcast serves every eligible route of its bus exactly once: the loop over the table. */
  method CollectSystemRoutes(s: State, raw: int) returns (order: seq<nat>)
    requires forall k, k' | k in s.routes && k' in s.routes && s.routes[k] == s.routes[k'] :: k == k'
    ensures SystemRoutes(s, raw, order)
  {
    order := [];
    var left := s.routes.Keys;
    while left != {}
      invariant left <= s.routes.Keys
      invariant AllDistinct(order)
      invariant forall r | r in order :: Eligible(s, r) && exists k :: k in s.routes && k !in left && OnBus(k, raw) && s.routes[k] == r
      invariant forall k | k in s.routes && k !in left && OnBus(k, raw) && Eligible(s, s.routes[k]) :: s.routes[k] in order
      decreases |left|
    {
      var k :| k in left;
      left := left - {k};
      if OnBus(k, raw) && Eligible(s, s.routes[k]) {
        order := order + [s.routes[k]];
      }
    }
  }
}
