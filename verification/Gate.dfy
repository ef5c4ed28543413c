/** The retire-and-drain reference count of `OperationGate` (src/operation_gate.h:36-90): a 32-bit
    word whose top bit says "retiring" and whose other bits count admitted operations, driven by any
    number of actors through compare-and-swap, fetch_sub and fetch_or, plus the mutex and condition
    variable of `WaitForDrain`.  An operation is over at the fetch_sub in `Leave`.
 */
module Gate {
  import opened GateWord

  /** Program counters.  Entering and leaving: `Trying` before its exchange, `Admitted`, `MustNotify`
      after dropping the last admission of a retired gate, `Notifying` with the mutex held.  Draining:
      `Checking` and, once the word is loaded, `Deciding` with the mutex held, `Asleep`, `Awake`.
      `zero` is whether the loaded count was zero; `late` waiters began after `Retire`. */
  datatype Pc =
    | Trying(expected: nat) | Refused | Admitted | MustNotify | Notifying | Left | Terminated
    | Checking(late: bool) | Deciding(late: bool, zero: bool) | Asleep(late: bool) | Awake(late: bool) | Drained(late: bool)

  datatype Lock = Free | HeldBy(actor: nat)

  datatype State = State(word: nat, pcs: map<nat, Pc>, inside: set<nat>, lock: Lock)

  datatype Step =
    | Load(a: nat) | Exchange(a: nat, spurious: bool) | Leave(a: nat) | LockToNotify(a: nat) | NotifyAll(a: nat)
    | Retire
    | StartWait(a: nat) | LoadCount(a: nat) | Decide(a: nat) | WakeSpuriously(a: nat) | Relock(a: nat)

  predicate At(s: State, a: nat, pc: Pc) {
    a in s.pcs && s.pcs[a] == pc
  }

  function Goto(s: State, a: nat, pc: Pc): State {
    s.(pcs := s.pcs[a := pc])
  }

  /** What `TryEnter` does with a word it has just seen. */
  function Seen(s: State, a: nat): State {
    Goto(s, a, if Admits(s.word) then Trying(s.word) else Refused)
  }

  function Woken(pc: Pc): Pc {
    if pc.Asleep? then Awake(pc.late) else pc
  }

  predicate Enabled(s: State, step: Step) {
    match step
    case Load(a) => a !in s.pcs
    case Exchange(a, _) => a in s.pcs && s.pcs[a].Trying?
    case Leave(a) => At(s, a, Admitted)
    case LockToNotify(a) => At(s, a, MustNotify) && s.lock.Free?
    case NotifyAll(a) => At(s, a, Notifying)
    case Retire => true
    case StartWait(a) => a !in s.pcs && s.lock.Free?
    case LoadCount(a) => a in s.pcs && s.pcs[a].Checking?
    case Decide(a) => a in s.pcs && s.pcs[a].Deciding?
    case WakeSpuriously(a) => a in s.pcs && s.pcs[a].Asleep?
    case Relock(a) => a in s.pcs && s.pcs[a].Awake? && s.lock.Free?
  }

  function Do(s: State, step: Step): State
    requires Enabled(s, step)
  {
    match step
    case Load(a) => Seen(s, a)
    case Exchange(a, spurious) =>
      if spurious || s.word != s.pcs[a].expected then Seen(s, a)
      else Goto(s, a, Admitted).(word := s.word + 1, inside := s.inside + {a})
    case Leave(a) =>
      var pc :=
        if Count(s.word) == 0 then Terminated
        else if Retired(s.word) && Count(s.word) == 1 then MustNotify else Left;
      Goto(s, a, pc).(word := Decremented(s.word), inside := s.inside - {a})
    case LockToNotify(a) => Goto(s, a, Notifying).(lock := HeldBy(a))
    case NotifyAll(a) =>
      s.(pcs := (map b | b in s.pcs :: if b == a then Left else Woken(s.pcs[b])), lock := Free)
    case Retire => s.(word := WithRetiring(s.word))
    case StartWait(a) => Goto(s, a, Checking(Retired(s.word))).(lock := HeldBy(a))
    case LoadCount(a) => Goto(s, a, Deciding(s.pcs[a].late, Count(s.word) == 0))
    case Decide(a) => Goto(s, a, if s.pcs[a].zero then Drained(s.pcs[a].late) else Asleep(s.pcs[a].late)).(lock := Free)
    case WakeSpuriously(a) => Goto(s, a, Awake(s.pcs[a].late))
    case Relock(a) => Goto(s, a, Checking(s.pcs[a].late)).(lock := HeldBy(a))
  }

  ghost predicate HoldsLock(pc: Pc) { pc.Notifying? || pc.Checking? || pc.Deciding? }

  ghost predicate Waits(pc: Pc) { pc.Checking? || pc.Deciding? || pc.Asleep? || pc.Awake? || pc.Drained? }

  /** About to sleep, or asleep, because the count was not zero. */
  ghost predicate Sleepy(pc: Pc) { pc == Asleep(true) || pc == Deciding(true, false) }

  /** Has seen a zero count that can only stay zero. */
  ghost predicate SawTheEnd(pc: Pc) { pc == Drained(true) || pc == Deciding(true, true) }

  ghost predicate NotifierPending(s: State) {
    exists n :: n in s.pcs && (s.pcs[n].MustNotify? || s.pcs[n].Notifying?)
  }

  ghost predicate Inv(s: State) {
    && s.word < 2 * RETIRING && Count(s.word) == |s.inside|
    && (forall a :: a in s.inside <==> At(s, a, Admitted))
    && (forall a | a in s.pcs :: s.pcs[a] != Terminated)
    && (forall a | a in s.pcs && s.pcs[a].Trying? :: s.pcs[a].expected < 2 * RETIRING && Admits(s.pcs[a].expected))
    && (forall a | a in s.pcs && HoldsLock(s.pcs[a]) :: s.lock == HeldBy(a))
    && (s.lock.HeldBy? ==> s.lock.actor in s.pcs && HoldsLock(s.pcs[s.lock.actor]))
    && (forall a | a in s.pcs && Waits(s.pcs[a]) && s.pcs[a].late :: Retired(s.word))
    && (forall a | a in s.pcs && SawTheEnd(s.pcs[a]) :: Count(s.word) == 0)
    && (forall a | a in s.pcs && Sleepy(s.pcs[a]) && Count(s.word) == 0 :: NotifierPending(s))
  }

  lemma PendingKept(s: State, t: State)
    requires NotifierPending(s)
    requires forall n | n in s.pcs && (s.pcs[n].MustNotify? || s.pcs[n].Notifying?) ::
               n in t.pcs && (t.pcs[n].MustNotify? || t.pcs[n].Notifying?)
    ensures NotifierPending(t)
  {
    var n :| n in s.pcs && (s.pcs[n].MustNotify? || s.pcs[n].Notifying?);
    assert n in t.pcs && (t.pcs[n].MustNotify? || t.pcs[n].Notifying?);
  }

  /** A word was seen but not changed. */
  lemma SeenInv(s: State, a: nat)
    requires Inv(s) && (a !in s.pcs || s.pcs[a].Trying?)
    ensures Inv(Seen(s, a))
  {
    var t := Seen(s, a);
    if NotifierPending(s) { PendingKept(s, t); }
  }

  lemma AdmitInv(s: State, a: nat)
    requires Inv(s) && a in s.pcs && s.pcs[a].Trying? && s.word == s.pcs[a].expected
    ensures Inv(Do(s, Exchange(a, false)))
  {
    WordArithmetic(s.word);
    var t := Do(s, Exchange(a, false));
    assert a !in s.inside;
    if NotifierPending(s) { PendingKept(s, t); }
  }

  lemma LeaveInv(s: State, a: nat)
    requires Inv(s) && Enabled(s, Leave(a))
    ensures Inv(Do(s, Leave(a)))
  {
    WordArithmetic(s.word);
    var t := Do(s, Leave(a));
    assert a in s.inside;
    if Count(t.word) == 0 && Retired(s.word) {
      assert t.pcs[a].MustNotify?;
    }
  }

  lemma LockToNotifyInv(s: State, a: nat)
    requires Inv(s) && Enabled(s, LockToNotify(a))
    ensures Inv(Do(s, LockToNotify(a)))
  {
    PendingKept(s, Do(s, LockToNotify(a)));
  }

  lemma NotifyInv(s: State, a: nat)
    requires Inv(s) && Enabled(s, NotifyAll(a))
    ensures Inv(Do(s, NotifyAll(a)))
  {
    var t := Do(s, NotifyAll(a));
    forall b | b in t.pcs ensures !Sleepy(t.pcs[b]) {
      assert s.pcs[b].Deciding? ==> s.lock == HeldBy(b);
    }
  }

  lemma RetireInv(s: State)
    requires Inv(s)
    ensures Inv(Do(s, Retire))
  {
    WordArithmetic(s.word);
    if NotifierPending(s) { PendingKept(s, Do(s, Retire)); }
  }

  lemma LockedInv(s: State, step: Step)
    requires Inv(s) && Enabled(s, step) && (step.StartWait? || step.Relock?)
    ensures Inv(Do(s, step))
  {
    if NotifierPending(s) { PendingKept(s, Do(s, step)); }
  }

  lemma WaiterInv(s: State, step: Step)
    requires Inv(s) && Enabled(s, step) && (step.LoadCount? || step.Decide? || step.WakeSpuriously?)
    ensures Inv(Do(s, step))
  {
    if NotifierPending(s) { PendingKept(s, Do(s, step)); }
  }

  lemma StepInv(s: State, step: Step)
    requires Inv(s) && Enabled(s, step)
    ensures Inv(Do(s, step))
  {
    match step
    case Load(a) => SeenInv(s, a);
    case Exchange(a, spurious) =>
      if spurious || s.word != s.pcs[a].expected { SeenInv(s, a); } else { AdmitInv(s, a); }
    case Leave(a) => LeaveInv(s, a);
    case LockToNotify(a) => LockToNotifyInv(s, a);
    case NotifyAll(a) => NotifyInv(s, a);
    case Retire => RetireInv(s);
    case StartWait(_) => LockedInv(s, step);
    case Relock(_) => LockedInv(s, step);
    case _ => WaiterInv(s, step);
  }

  ghost predicate Run(states: seq<State>, steps: seq<Step>) {
    && |states| == |steps| + 1 && states[0] == State(0, map[], {}, Free)
    && forall k | 0 <= k < |steps| :: StepAt(states, steps, k)
  }

  ghost predicate StepAt(states: seq<State>, steps: seq<Step>, k: nat)
    requires k < |steps| && |states| == |steps| + 1
  {
    Enabled(states[k], steps[k]) && states[k + 1] == Do(states[k], steps[k])
  }

  lemma {:induction false} RunInv(states: seq<State>, steps: seq<Step>, k: nat)
    requires Run(states, steps) && k < |states|
    ensures Inv(states[k])
  {
    if k > 0 {
      RunInv(states, steps, k - 1);
      assert StepAt(states, steps, k - 1);
      StepInv(states[k - 1], steps[k - 1]);
    }
  }

  /** In every run the low bits count exactly the operations that have entered and not yet left, the
      retiring bit never changes by a carry or borrow, and `Leave` never terminates the process. */
  lemma CountIsExact(states: seq<State>, steps: seq<Step>, k: nat)
    requires Run(states, steps) && k < |states|
    ensures var s := states[k];
            && Count(s.word) == |s.inside| && (forall a :: a in s.inside <==> At(s, a, Admitted))
            && (forall a | a in s.pcs :: s.pcs[a] != Terminated)
            && s.word == |s.inside| + (if Retired(s.word) then RETIRING else 0)
  {
    RunInv(states, steps, k);
    WordArithmetic(states[k].word);
  }

  /** Once retired, always retired: no operation is admitted any more and the count never rises. */
  lemma {:induction false} RetiredIsFinal(states: seq<State>, steps: seq<Step>, j: nat, k: nat)
    requires Run(states, steps) && j <= k < |states| && Retired(states[j].word)
    ensures Retired(states[k].word) && states[k].inside <= states[j].inside
    ensures Count(states[k].word) <= Count(states[j].word)
  {
    RunInv(states, steps, k);
    if j < k {
      RetiredIsFinal(states, steps, j, k - 1);
      RunInv(states, steps, k - 1);
      assert StepAt(states, steps, k - 1);
      WordArithmetic(states[k - 1].word);
    }
  }

  /** From a call of `Retire` on, the gate is retired and only those inside at the call can still be. */
  lemma RetireTakesEffect(states: seq<State>, steps: seq<Step>, j: nat, k: nat)
    requires Run(states, steps) && j < k < |states| && steps[j] == Retire
    ensures Retired(states[k].word) && states[k].inside <= states[j].inside
  {
    assert StepAt(states, steps, j);
    RunInv(states, steps, j);
    WordArithmetic(states[j].word);
    RetiredIsFinal(states, steps, j + 1, k);
  }

  /** `WaitForDrain` does not return early: when a waiter that began after `Retire` has returned, nobody
      is inside, then or ever after. */
  lemma DrainedMeansIdle(states: seq<State>, steps: seq<Step>, j: nat, k: nat, w: nat)
    requires Run(states, steps) && j <= k < |states| && At(states[j], w, Drained(true))
    ensures Retired(states[k].word) && Count(states[k].word) == 0 && states[k].inside == {}
  {
    RunInv(states, steps, j);
    RetiredIsFinal(states, steps, j, k);
    RunInv(states, steps, k);
  }

  /** A waiter that began before `Retire` returns only when it has seen a zero count too. */
  lemma DrainedSawZero(states: seq<State>, steps: seq<Step>, k: nat, w: nat) returns (j: nat)
    requires Run(states, steps) && k < |states| && w in states[k].pcs
    requires states[k].pcs[w].Drained? || (states[k].pcs[w].Deciding? && states[k].pcs[w].zero)
    ensures j < k && steps[j] == LoadCount(w) && Count(states[j].word) == 0
  {
    if k == 0 {
      assert false;
    } else {
      assert StepAt(states, steps, k - 1);
      j := k - 1;
      if steps[k - 1] != LoadCount(w) { j := DrainedSawZero(states, steps, k - 1, w); }
    }
  }

  // ---------------------------------------------------------------- entering

  /** An attempt of `a` to enter, begun in step `b` and not yet over before `k`. */
  ghost predicate Attempt(states: seq<State>, steps: seq<Step>, a: nat, b: nat, k: nat)
    requires |states| == |steps| + 1
  {
    && b < k < |states| && steps[b] == Load(a)
    && forall j | b < j < k :: a in states[j].pcs && states[j].pcs[a].Trying?
  }

  lemma EnterStep(s: State, step: Step, a: nat)
    requires Enabled(s, step) && a in s.pcs && s.pcs[a].Trying? && Admits(s.pcs[a].expected)
    ensures var t := Do(s, step);
            && a in t.pcs
            && (t.pcs[a] == s.pcs[a] || t.pcs[a] == Admitted || t.pcs[a] == Trying(s.word) || t.pcs[a] == Refused)
            && (t.pcs[a] == Refused ==> !Admits(s.word))
            && (t.pcs[a] == Admitted ==> Admits(s.word) && t.word == s.word + 1 && t.inside == s.inside + {a})
  {
    if !(step.Exchange? && step.a == a) { OthersKeepTrying(s, step, a); }
  }

  lemma OthersKeepTrying(s: State, step: Step, a: nat)
    requires Enabled(s, step) && a in s.pcs && s.pcs[a].Trying? && !(step.Exchange? && step.a == a)
    ensures a in Do(s, step).pcs && Do(s, step).pcs[a] == s.pcs[a]
  {
  }

  /** `TryEnter` is refused only if the gate was retired, or full, at the moment it last looked; and it
      succeeds only by an exchange on a word that admits. */
  lemma RefusedOnlyWhenClosed(states: seq<State>, steps: seq<Step>, a: nat, b: nat, k: nat)
    requires Run(states, steps) && Attempt(states, steps, a, b, k)
    ensures a in states[k].pcs && (states[k].pcs[a].Trying? || states[k].pcs[a] == Admitted || states[k].pcs[a] == Refused)
    ensures states[k].pcs[a] == Refused ==> !Admits(states[k - 1].word)
    ensures states[k].pcs[a] == Admitted ==>
              Admits(states[k - 1].word) && states[k].word == states[k - 1].word + 1 && states[k].inside == states[k - 1].inside + {a}
  {
    RunInv(states, steps, k - 1);
    assert StepAt(states, steps, k - 1);
    if k > b + 1 { EnterStep(states[k - 1], steps[k - 1], a); }
  }

  /** An exchange admits exactly when the word is still the one it expects and does not fail spuriously;
      otherwise the attempt goes on with the word now seen, unless that is closed. */
  lemma ExchangeAdmits(s: State, a: nat, spurious: bool)
    requires Inv(s) && Enabled(s, Exchange(a, spurious))
    ensures var t := Do(s, Exchange(a, spurious));
            && a in t.pcs
            && (t.pcs[a] == Admitted <==> !spurious && s.word == s.pcs[a].expected)
            && (t.pcs[a] != Admitted ==> t.word == s.word && t.pcs[a] == if Admits(s.word) then Trying(s.word) else Refused)
  {
  }

  // ---------------------------------------------------------------- no lost wake-up

  /** A continuation of a run. */
  ghost predicate Path(states: seq<State>, steps: seq<Step>) {
    |states| == |steps| + 1 && forall k: nat | k < |steps| :: StepAt(states, steps, k)
  }

  lemma Extend(states: seq<State>, steps: seq<Step>, step: Step) returns (states': seq<State>, steps': seq<Step>)
    requires Path(states, steps) && Inv(states[|steps|]) && Enabled(states[|steps|], step)
    ensures Path(states', steps') && steps' == steps + [step] && states'[0] == states[0]
    ensures states'[|steps'|] == Do(states[|steps|], step) && Inv(states'[|steps'|])
  {
    StepInv(states[|steps|], step);
    states', steps' := states + [Do(states[|steps|], step)], steps + [step];
    forall k: nat | k < |steps'| ensures StepAt(states', steps', k) {
      if k < |steps| { assert StepAt(states, steps, k); }
    }
  }

  /** Nobody wakes up without having been notified. */
  ghost predicate NoSpuriousWakeUp(steps: seq<Step>) {
    forall k | 0 <= k < |steps| :: !steps[k].WakeSpuriously?
  }

  /** In every run, as long as a waiter that began after `Retire` sleeps, or has decided to sleep, on a
      zero count, a notifier has still to come. */
  lemma SleeperHasANotifier(run: seq<State>, ran: seq<Step>, n: nat, w: nat)
    requires Run(run, ran) && n < |run| && w in run[n].pcs && Sleepy(run[n].pcs[w]) && Count(run[n].word) == 0
    ensures NotifierPending(run[n])
  {
    RunInv(run, ran, n);
  }

  /** Whoever holds the mutex can give it up within two steps of its own, which leave the count as it
      is. */
  lemma MutexIsReleased(s: State, w: nat) returns (states: seq<State>, steps: seq<Step>)
    requires Inv(s) && At(s, w, Asleep(true)) && Count(s.word) == 0 && Retired(s.word)
    ensures Path(states, steps) && |steps| <= 2 && states[0] == s && NoSpuriousWakeUp(steps)
    ensures var t := states[|steps|];
            Inv(t) && t.word == s.word && t.lock.Free? && (At(t, w, Asleep(true)) || At(t, w, Awake(true)))
  {
    states, steps := [s], [];
    if s.lock.HeldBy? {
      var h := s.lock.actor;
      if s.pcs[h].Notifying? {
        states, steps := Extend(states, steps, NotifyAll(h));
      } else {
        if s.pcs[h].Checking? { states, steps := Extend(states, steps, LoadCount(h)); }
        states, steps := Extend(states, steps, Decide(h));
      }
    }
  }

  /** In every run, a waiter that began after `Retire` and sleeps on a zero count is woken by a
      notification: the steps that still have to happen wait for nobody else, and are at most four. */
  lemma SleeperIsWoken(run: seq<State>, ran: seq<Step>, n: nat, w: nat) returns (states: seq<State>, steps: seq<Step>)
    requires Run(run, ran) && n < |run| && At(run[n], w, Asleep(true)) && Count(run[n].word) == 0
    ensures Path(states, steps) && |steps| <= 4 && states[0] == run[n] && NoSpuriousWakeUp(steps)
    ensures Inv(states[|steps|]) && At(states[|steps|], w, Awake(true)) && states[|steps|].word == run[n].word
    ensures states[|steps|].lock.Free?
  {
    RunInv(run, ran, n);
    states, steps := MutexIsReleased(run[n], w);
    var t := states[|steps|];
    if At(t, w, Asleep(true)) {
      assert NotifierPending(t);
      var leaver :| leaver in t.pcs && (t.pcs[leaver].MustNotify? || t.pcs[leaver].Notifying?);
      states, steps := Extend(states, steps, LockToNotify(leaver));
      states, steps := Extend(states, steps, NotifyAll(leaver));
    }
  }

  /** Hence `WaitForDrain` can finish: three more steps of the waiter itself end it. */
  lemma WaiterFinishes(run: seq<State>, ran: seq<Step>, n: nat, w: nat) returns (states: seq<State>, steps: seq<Step>)
    requires Run(run, ran) && n < |run| && At(run[n], w, Asleep(true)) && Count(run[n].word) == 0
    ensures Path(states, steps) && |steps| <= 7 && states[0] == run[n] && NoSpuriousWakeUp(steps)
    ensures At(states[|steps|], w, Drained(true))
  {
    states, steps := SleeperIsWoken(run, ran, n, w);
    states, steps := Extend(states, steps, Relock(w));
    states, steps := Extend(states, steps, LoadCount(w));
    states, steps := Extend(states, steps, Decide(w));
  }

  /** The window the notifier's mutex closes: a waiter that has loaded a non-zero count and not yet gone
      to sleep cannot be overtaken by the notification. */
  lemma NotificationWaitsForTheDecision(run: seq<State>, ran: seq<Step>, n: nat, w: nat, leaver: nat)
    requires Run(run, ran) && n < |run| && w in run[n].pcs && run[n].pcs[w].Deciding?
    ensures !Enabled(run[n], LockToNotify(leaver)) && !Enabled(run[n], NotifyAll(leaver))
    ensures run[n].pcs[w] == Deciding(true, false) && Count(run[n].word) == 0 ==>
              exists m :: At(run[n], m, MustNotify)
  {
    RunInv(run, ran, n);
    var s := run[n];
    if Sleepy(s.pcs[w]) && Count(s.word) == 0 {
      var m :| m in s.pcs && (s.pcs[m].MustNotify? || s.pcs[m].Notifying?);
      assert At(s, m, MustNotify);
    }
  }
}
