/** Whole runs of the WASM store's operations: the invariant holds throughout, no handle is issued
    twice, and an adapter is destroyed only with its last handle
    (src/wasm/wasm_runtime.cc:44-103, 105-158, 160-298, 300-372, 388-416, 433-474).
 */
module WasmRuns {
  import opened WasmStore

  datatype Op =
    | Create(name: Name, fake: bool, made: Made)
    | GetBus(h: Handle, raw: Option<int>)
    | StartMotor(b: Handle, idx: int) | FinishMotor(found: bool)
    | Dispose(h: Handle, drained: bool, destroyed: bool, ready: set<Adapter>)
    | Poll(ready: set<Adapter>)

  predicate Enabled(s: Store, op: Op) {
    match op
    case Create(name, _, made) => ManagerAnswers(s, name, made)
    case FinishMotor(_) => s.creating.Some? && ResolvesBus(s, s.creating.value.bus)
    case _ => true
  }

  function Apply(s: Store, op: Op): Store
    requires Enabled(s, op)
  {
    match op
    case Create(name, fake, made) => Created(s, name, fake, made)
    case GetBus(h, raw) => WithBus(s, h, raw)
    case StartMotor(b, idx) => if BeginsMotor(s, b, idx) then s.(creating := Some(Creation(b, idx))) else s
    case FinishMotor(found) => WithMotor(s, found)
    case Dispose(h, drained, destroyed, ready) => AfterDispose(s, h, drained, destroyed, ready)
    case Poll(ready) => Polled(s, ready)
  }

  /** The new handle an operation returns, if it returns one. */
  function Issued(s: Store, op: Op): Option<Handle>
    requires Enabled(s, op)
  {
    match op
    case Create(name, fake, made) => if CreateCode(s, name, fake, made).Success? then Some(s.next) else None
    case GetBus(h, raw) =>
      if BusCode(s, h, raw).Success? && raw.value !in s.adapters[h].busByRaw then Some(s.next) else None
    case FinishMotor(found) => if FinishCode(s, found).Success? then Some(s.next) else None
    case _ => None
  }

  lemma StepInv(s: Store, op: Op)
    requires Inv(s) && Enabled(s, op)
    ensures Inv(Apply(s, op))
  {
    match op
    case Create(name, fake, made) => CreatedInv(s, name, fake, made);
    case GetBus(h, raw) => WithBusInv(s, h, raw);
    case StartMotor(b, idx) => if BeginsMotor(s, b, idx) { BeginMotorInv(s, b, idx); }
    case FinishMotor(found) => WithMotorInv(s, found);
    case Dispose(h, drained, destroyed, ready) => AfterDisposeInv(s, h, drained, destroyed, ready);
    case Poll(ready) => PolledInv(s, ready);
  }

  ghost predicate StepAt(run: seq<Store>, ops: seq<Op>, i: nat)
    requires |run| == |ops| + 1 && i < |ops|
  {
    Enabled(run[i], ops[i]) && run[i + 1] == Apply(run[i], ops[i])
  }

  ghost predicate Run(run: seq<Store>, ops: seq<Op>) {
    |run| == |ops| + 1 && run[0] == Empty() && forall i: nat | i < |ops| :: StepAt(run, ops, i)
  }

  lemma {:induction false} RunInv(run: seq<Store>, ops: seq<Op>, n: nat)
    requires Run(run, ops) && n <= |ops|
    ensures Inv(run[n])
  {
    if n > 0 {
      RunInv(run, ops, n - 1);
      assert StepAt(run, ops, n - 1);
      StepInv(run[n - 1], ops[n - 1]);
    }
  }

  lemma StepHandles(s: Store, op: Op)
    requires Enabled(s, op)
    ensures s.next <= Apply(s, op).next
    ensures Issued(s, op).Some? ==> Issued(s, op).value == s.next && Apply(s, op).next == s.next + 1
  {
  }

  lemma {:induction false} HandlesGrow(run: seq<Store>, ops: seq<Op>, i: nat, j: nat)
    requires Run(run, ops) && i <= j <= |ops|
    ensures run[i].next <= run[j].next
    decreases j
  {
    if i < j {
      HandlesGrow(run, ops, i, j - 1);
      assert StepAt(run, ops, j - 1);
      StepHandles(run[j - 1], ops[j - 1]);
    }
  }

  /** No handle value is issued twice. */
  lemma NoHandleTwice(run: seq<Store>, ops: seq<Op>, i: nat, j: nat)
    requires Run(run, ops) && i < j < |ops| && StepAt(run, ops, i) && StepAt(run, ops, j)
    requires Issued(run[i], ops[i]).Some? && Issued(run[j], ops[j]).Some?
    ensures Issued(run[i], ops[i]).value < Issued(run[j], ops[j]).value < MAX_HANDLE
  {
    StepHandles(run[i], ops[i]);
    HandlesGrow(run, ops, i + 1, j);
    StepHandles(run[j], ops[j]);
    RunInv(run, ops, j);
    assert run[j].next != MAX_HANDLE;
  }

  /** A poll completes a deletion together with the adapter's one remaining handle. */
  lemma PollDestroysLast(s: Store, ready: set<Adapter>, n: Name)
    requires Inv(s) && n in s.manager && n !in Polled(s, ready).manager
    ensures |HandlesOf(s.adapters, s.manager[n])| == 1
    ensures HandlesOf(Polled(s, ready).adapters, s.manager[n]) == {}
  {
    PolledShape(s, ready);
    var a := s.manager[n];
    PendingFacts(s, a);
    assert LeaseOk(s, a);
  }

  /** Whatever the operation, the manager's adapter is destroyed only when its last handle goes. */
  lemma DestroyedOnlyWithItsLastHandle(run: seq<Store>, ops: seq<Op>, i: nat, n: Name)
    requires Run(run, ops) && i < |ops| && n in run[i].manager && n !in run[i + 1].manager
    ensures |HandlesOf(run[i].adapters, run[i].manager[n])| == 1
    ensures HandlesOf(run[i + 1].adapters, run[i].manager[n]) == {}
  {
    RunInv(run, ops, i);
    assert StepAt(run, ops, i);
    match ops[i]
    case Dispose(h, drained, destroyed, ready) =>
      if Revives(run[i], h) {
        RevivedInv(run[i], h);
        PollDestroysLast(Revived(run[i], h), ready, n);
      } else {
        DestroyedWithItsLastHandle(run[i], h, drained, destroyed, n);
      }
    case Poll(ready) => PollDestroysLast(run[i], ready, n);
    case Create(name, fake, made) => CreatedManager(run[i], name, fake, made);
    case _ =>
  }

  /** At every moment the lease count is the number of handles, and it is one while a deletion is pending. */
  lemma LeasesCountHandles(run: seq<Store>, ops: seq<Op>, n: nat, a: Adapter)
    requires Run(run, ops) && n <= |ops|
    ensures a in run[n].leases <==> HandlesOf(run[n].adapters, a) != {}
    ensures a in run[n].leases ==> run[n].leases[a] == |HandlesOf(run[n].adapters, a)|
    ensures a in run[n].pending ==> a in run[n].leases && run[n].leases[a] == 1
  {
    RunInv(run, ops, n);
    var s := run[n];
    if a in s.leases { assert LeaseOk(s, a); } else { UnleasedIsUnheld(s, a); }
    if a in s.pending { assert PendingOk(s, a); }
  }
}
