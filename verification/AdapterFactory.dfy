/** `CreateAdapterWithFactory` under any number of callers and destroyers: a caller returns the
    registered adapter, waits for one being destroyed, follows a creation in progress or leads one
    (src/driver_manager.cc:153-255; src/driver_manager_impl.h:206-233;
    src/driver_manager_destroy.cc:327-430).  An adapter number denotes one object for ever.
 */
module AdapterFactory {

  type Name = nat
  type Adapter = nat
  type CallerId = nat

  datatype Option<+T> = None | Some(value: T)

  /** A pending creation: the waiters' result and error, valid once complete. */
  datatype Publication = Publication(name: Name, leader: CallerId, complete: bool, result: Option<Adapter>, error: bool)

  /** `at` is the moment at which the returned adapter was seen, or made, registered. */
  datatype Pc =
    | LookingUp | AwaitingDeletion(doomed: Adapter) | Following(pub: nat)
    | Leading(pub: nat) | Made(pub: nat, adapter: Adapter)
    | Updating(adapter: Adapter, at: nat) | Returned(adapter: Adapter, at: nat) | ReturnedNull | Threw

  datatype Caller = Caller(name: Name, update: bool, start: nat)

  datatype Death = Death(name: Name, erased: bool)

  /** `log` is the history of `adapters`, one entry per moment. */
  datatype State = State(
    adapters: map<Name, Adapter>, names: map<Adapter, Name>, deaths: map<Adapter, Death>,
    pending: map<Name, nat>, pubs: map<nat, Publication>, callers: map<CallerId, Caller>, pcs: map<CallerId, Pc>,
    made: map<Adapter, CallerId>, log: seq<map<Name, Adapter>>)

  datatype Step =
    | Call(c: CallerId, name: Name, update: bool)
    | LookUp(c: CallerId, pub: nat, enters: bool) | DeletionOver(c: CallerId) | PublicationOver(c: CallerId)
    | FactoryReturns(c: CallerId, adapter: Adapter) | Register(c: CallerId) | Fail(c: CallerId)
    | EndUpdate(c: CallerId, throws: bool)
    | BeginDestroy(a: Adapter) | EraseDestroyed(a: Adapter) | EndDestroy(a: Adapter)

  predicate Enabled(s: State, step: Step) {
    match step
    case Call(c, _, _) => c !in s.callers
    case LookUp(c, pub, _) => c in s.callers && c in s.pcs && s.pcs[c].LookingUp? && pub !in s.pubs
    case DeletionOver(c) =>
      && c in s.callers && c in s.pcs && s.pcs[c].AwaitingDeletion?
      && var name, doomed := s.callers[c].name, s.pcs[c].doomed;
         name !in s.adapters || s.adapters[name] != doomed || doomed !in s.deaths
    case PublicationOver(c) => c in s.pcs && s.pcs[c].Following? && s.pcs[c].pub in s.pubs && s.pubs[s.pcs[c].pub].complete
    case FactoryReturns(c, a) => c in s.pcs && s.pcs[c].Leading? && a !in s.made
    case Register(c) => c in s.callers && c in s.pcs && s.pcs[c].Made? && s.pcs[c].pub in s.pubs
    case Fail(c) => c in s.callers && c in s.pcs && (s.pcs[c].Leading? || s.pcs[c].Made?) && s.pcs[c].pub in s.pubs
    case EndUpdate(c, _) => c in s.pcs && s.pcs[c].Updating?
    case BeginDestroy(a) => a in s.names && a !in s.deaths
    case EraseDestroyed(a) =>
      a in s.deaths && !s.deaths[a].erased && forall c | c in s.pcs :: !(s.pcs[c].Updating? && s.pcs[c].adapter == a)
    case EndDestroy(a) => a in s.deaths && s.deaths[a].erased
  }

  predicate BecomesLeader(s: State, name: Name) {
    name !in s.adapters && name !in s.pending
  }

  /** Where one pass of the caller's loop leads. */
  function Sees(s: State, caller: Caller, pub: nat, enters: bool): Pc {
    var name := caller.name;
    if name in s.adapters then
      var found := s.adapters[name];
      if found in s.deaths then AwaitingDeletion(found)
      else if !caller.update then Returned(found, |s.log|)
      else if enters then Updating(found, |s.log|) else Threw
    else if name in s.pending then Following(s.pending[name])
    else Leading(pub)
  }

  /** Where a follower goes on when the creation it waited for is over. */
  function Followed(p: Publication): Pc {
    if p.error then Threw else if p.result.Some? then LookingUp else ReturnedNull
  }

  /** A step's effect on everything but the history.  Emplacing does not replace what is there. */
  function Act(s: State, step: Step): State
    requires Enabled(s, step)
  {
    match step
    case Call(c, name, update) =>
      s.(callers := s.callers[c := Caller(name, update, |s.log|)], pcs := s.pcs[c := LookingUp])
    case LookUp(c, pub, enters) =>
      var name := s.callers[c].name;
      s.(pcs := s.pcs[c := Sees(s, s.callers[c], pub, enters)],
         pending := if BecomesLeader(s, name) then s.pending[name := pub] else s.pending,
         pubs := if BecomesLeader(s, name) then s.pubs[pub := Publication(name, c, false, None, false)] else s.pubs)
    case DeletionOver(c) => s.(pcs := s.pcs[c := LookingUp])
    case PublicationOver(c) => s.(pcs := s.pcs[c := Followed(s.pubs[s.pcs[c].pub])])
    case FactoryReturns(c, a) => s.(pcs := s.pcs[c := Made(s.pcs[c].pub, a)], made := s.made[a := c])
    case Register(c) =>
      var name, a, pub := s.callers[c].name, s.pcs[c].adapter, s.pcs[c].pub;
      s.(pcs := s.pcs[c := Returned(a, |s.log|)],
         adapters := if name in s.adapters then s.adapters else s.adapters[name := a],
         names := if a in s.names then s.names else s.names[a := name], pending := s.pending - {name},
         pubs := s.pubs[pub := s.pubs[pub].(complete := true, result := Some(a))])
    case Fail(c) =>
      s.(pcs := s.pcs[c := Threw], pending := s.pending - {s.callers[c].name},
         pubs := s.pubs[s.pcs[c].pub := s.pubs[s.pcs[c].pub].(complete := true, error := true)])
    case EndUpdate(c, throws) =>
      s.(pcs := s.pcs[c := if throws then Threw else Returned(s.pcs[c].adapter, s.pcs[c].at)])
    case BeginDestroy(a) => s.(deaths := s.deaths[a := Death(s.names[a], false)])
    case EraseDestroyed(a) =>
      s.(adapters := s.adapters - {s.deaths[a].name}, names := s.names - {a}, deaths := s.deaths[a := s.deaths[a].(erased := true)])
    case EndDestroy(a) => s.(deaths := s.deaths - {a})
  }

  /** Every step adds the adapters it leaves to the history. */
  function Do(s: State, step: Step): State
    requires Enabled(s, step)
  {
    var t := Act(s, step);
    t.(log := s.log + [t.adapters])
  }

  // ---------------------------------------------------------------- the invariant

  ghost predicate Inverse(adapters: map<Name, Adapter>, names: map<Adapter, Name>) {
    && (forall n | n in adapters :: adapters[n] in names && names[adapters[n]] == n)
    && (forall a | a in names :: names[a] in adapters && adapters[names[a]] == a)
  }

  ghost predicate Registered(s: State, name: Name, a: Adapter, start: nat, at: nat) {
    start <= at < |s.log| && name in s.log[at] && s.log[at][name] == a
  }

  /** The leader of a pending publication is still making the adapter. */
  ghost predicate PendingOk(s: State, name: Name)
    requires name in s.pending
  {
    var pub := s.pending[name];
    && name !in s.adapters && pub in s.pubs && !s.pubs[pub].complete && s.pubs[pub].name == name
    && s.pubs[pub].leader in s.callers && s.pubs[pub].leader in s.pcs
    && (s.pcs[s.pubs[pub].leader].Leading? || s.pcs[s.pubs[pub].leader].Made?)
    && s.pcs[s.pubs[pub].leader].pub == pub
  }

  ghost predicate PublicationOk(p: Publication) {
    (p.complete ==> (p.error <==> p.result.None?)) && (!p.complete ==> p.result.None? && !p.error)
  }

  ghost predicate Leads(s: State, c: CallerId, name: Name, pub: nat) {
    && pub in s.pubs && s.pubs[pub].leader == c && s.pubs[pub].name == name
    && name in s.pending && s.pending[name] == pub
  }

  ghost predicate CallerOk(s: State, c: CallerId)
    requires c in s.callers
  {
    var caller := s.callers[c];
    && caller.start < |s.log| && c in s.pcs
    && match s.pcs[c]
       case Following(pub) => pub in s.pubs
       case Leading(pub) => Leads(s, c, caller.name, pub)
       case Made(pub, a) =>
         && Leads(s, c, caller.name, pub)
         && a in s.made && s.made[a] == c && a !in s.names && a !in s.deaths
       case Updating(a, at) => a in s.names && s.names[a] == caller.name && Registered(s, caller.name, a, caller.start, at)
       case Returned(a, at) => Registered(s, caller.name, a, caller.start, at)
       case ReturnedNull => false
       case _ => true
  }

  ghost predicate DeathOk(s: State, a: Adapter)
    requires a in s.deaths
  {
    a in s.made && (if s.deaths[a].erased then a !in s.names else a in s.names && s.names[a] == s.deaths[a].name)
  }

  ghost predicate LogOk(s: State) {
    |s.log| > 0 && s.log[|s.log| - 1] == s.adapters
  }

  ghost predicate Inv(s: State) {
    && Inverse(s.adapters, s.names) && LogOk(s) && MadeOk(s)
    && (forall n | n in s.pending :: PendingOk(s, n))
    && (forall p | p in s.pubs :: PublicationOk(s.pubs[p]))
    && s.pcs.Keys == s.callers.Keys && (forall c | c in s.callers :: CallerOk(s, c))
    && (forall a | a in s.deaths :: DeathOk(s, a))
  }

  // ---------------------------------------------------------------- preservation

  ghost predicate MadeOk(s: State) {
    (forall a | a in s.names :: a in s.made) && (forall a | a in s.deaths :: a in s.made)
  }

  lemma StepTables(s: State, step: Step)
    requires Enabled(s, step) && Inverse(s.adapters, s.names)
    requires step.Register? ==> CallerOk(s, step.c) && PendingOk(s, s.callers[step.c].name)
    requires step.EraseDestroyed? ==> DeathOk(s, step.a)
    ensures Inverse(Do(s, step).adapters, Do(s, step).names)
  {
    if !step.Register? && !step.EraseDestroyed? { OtherTables(s, step); }
  }

  lemma OtherTables(s: State, step: Step)
    requires Enabled(s, step) && !step.Register? && !step.EraseDestroyed?
    ensures Do(s, step).adapters == s.adapters && Do(s, step).names == s.names
  {
  }

  lemma StepMade(s: State, step: Step)
    requires Enabled(s, step) && MadeOk(s) && (step.Register? ==> CallerOk(s, step.c))
    ensures MadeOk(Do(s, step))
  {
    var t := Do(s, step);
    assert s.made.Keys <= t.made.Keys;
    assert t.names.Keys <= s.names.Keys + (if step.Register? then {s.pcs[step.c].adapter} else {});
  }

  lemma NameStaysFree(s: State, step: Step, name: Name, leader: CallerId, pub: nat)
    requires Enabled(s, step) && name !in s.adapters && Leads(s, leader, name, pub)
    requires step.Register? ==> step.c != leader && CallerOk(s, step.c)
    ensures name !in Do(s, step).adapters
  {
  }

  lemma PublicationStaysOpen(s: State, step: Step, leader: CallerId, name: Name, pub: nat)
    requires Enabled(s, step) && Leads(s, leader, name, pub) && !s.pubs[pub].complete
    requires step.Register? || step.Fail? ==> step.c != leader && CallerOk(s, step.c)
    ensures pub in Do(s, step).pubs && Do(s, step).pubs[pub] == s.pubs[pub]
  {
  }

  /** A name that stays pending, while others step or its leader's factory returns. */
  lemma StillPending(s: State, step: Step, name: Name)
    requires Enabled(s, step) && name in s.pending && PendingOk(s, name) && CallerOk(s, s.pubs[s.pending[name]].leader)
    requires step.Register? || step.Fail? ==> CallerOk(s, step.c) && s.pubs[s.pending[name]].leader != step.c
    ensures name in Do(s, step).pending && PendingOk(Do(s, step), name)
  {
    var pub := s.pending[name];
    var leader := s.pubs[pub].leader;
    NameStaysFree(s, step, name, leader, pub);
    PublicationStaysOpen(s, step, leader, name, pub);
    if NotBy(step, leader) {
      StillThere(s, step, leader);
      StillLeads(s, step, leader, name, pub);
    } else {
      assert step.FactoryReturns?;
    }
  }

  lemma StepPending(s: State, step: Step, name: Name)
    requires Enabled(s, step) && name in Do(s, step).pending
    requires name in s.pending ==> PendingOk(s, name) && CallerOk(s, s.pubs[s.pending[name]].leader)
    requires step.Register? || step.Fail? ==> CallerOk(s, step.c)
    ensures PendingOk(Do(s, step), name)
  {
    if name in s.pending {
      StillPending(s, step, name);
    } else {
      assert step.LookUp?;
    }
  }

  lemma StepPublication(s: State, step: Step, p: nat)
    requires Enabled(s, step) && p in Do(s, step).pubs
    requires p in s.pubs ==> PublicationOk(s.pubs[p])
    requires step.Register? || step.Fail? ==> CallerOk(s, step.c) && PendingOk(s, s.callers[step.c].name)
    ensures PublicationOk(Do(s, step).pubs[p])
  {
  }

  /** A caller's step of its own. */
  lemma OwnStep(s: State, step: Step, c: CallerId)
    requires Enabled(s, step) && c in Do(s, step).callers
    requires !NotBy(step, c) && MadeOk(s) && Inverse(s.adapters, s.names)
    requires c in s.callers ==>
               CallerOk(s, c) && (s.callers[c].name in s.pending ==> PendingOk(s, s.callers[c].name))
    requires step.PublicationOver? ==> c in s.callers && PublicationOk(s.pubs[s.pcs[c].pub])
    ensures CallerOk(Do(s, step), c)
  {
  }

  predicate NotBy(step: Step, c: CallerId) {
    step.BeginDestroy? || step.EraseDestroyed? || step.EndDestroy? || step.c != c
  }

  lemma StillLeads(s: State, step: Step, c: CallerId, name: Name, pub: nat)
    requires Enabled(s, step) && NotBy(step, c) && Leads(s, c, name, pub)
    requires step.Register? || step.Fail? ==> CallerOk(s, step.c)
    ensures Leads(Do(s, step), c, name, pub)
  {
  }

  lemma StillUnregistered(s: State, step: Step, c: CallerId, a: Adapter)
    requires Enabled(s, step) && NotBy(step, c) && a in s.made && s.made[a] == c && a !in s.names && a !in s.deaths
    requires step.Register? ==> CallerOk(s, step.c)
    ensures var t := Do(s, step); a in t.made && t.made[a] == c && a !in t.names && a !in t.deaths
  {
  }

  lemma StillUpdating(s: State, step: Step, c: CallerId, name: Name)
    requires Enabled(s, step) && c in s.pcs && s.pcs[c].Updating? && NotBy(step, c)
    requires var a := s.pcs[c].adapter; a in s.names && s.names[a] == name
    ensures var a := s.pcs[c].adapter; a in Do(s, step).names && Do(s, step).names[a] == name
  {
  }

  lemma StillThere(s: State, step: Step, c: CallerId)
    requires Enabled(s, step) && c in s.callers && c in s.pcs && NotBy(step, c)
    ensures c in Do(s, step).callers && Do(s, step).callers[c] == s.callers[c]
    ensures c in Do(s, step).pcs && Do(s, step).pcs[c] == s.pcs[c]
  {
  }

  lemma LogGrows(s: State, step: Step)
    requires Enabled(s, step)
    ensures s.pubs.Keys <= Do(s, step).pubs.Keys && Act(s, step).log == s.log
    ensures var t := Do(s, step); |t.log| == |s.log| + 1 && forall i | 0 <= i < |s.log| :: t.log[i] == s.log[i]
  {
  }

  lemma OtherStep(s: State, step: Step, c: CallerId)
    requires Enabled(s, step) && c in s.callers && CallerOk(s, c) && NotBy(step, c)
    requires step.Register? || step.Fail? ==> CallerOk(s, step.c)
    ensures c in Do(s, step).callers && CallerOk(Do(s, step), c)
  {
    StillThere(s, step, c);
    LogGrows(s, step);
    match s.pcs[c]
    case Leading(pub) => StillLeads(s, step, c, s.callers[c].name, pub);
    case Made(pub, a) =>
      StillLeads(s, step, c, s.callers[c].name, pub);
      StillUnregistered(s, step, c, a);
    case Updating(_, _) => StillUpdating(s, step, c, s.callers[c].name);
    case _ =>
  }

  lemma StepDeath(s: State, step: Step, a: Adapter)
    requires Enabled(s, step) && a in Do(s, step).deaths
    requires a in s.deaths ==> DeathOk(s, a)
    requires step.BeginDestroy? ==> step.a in s.made
    requires step.Register? ==> CallerOk(s, step.c)
    ensures DeathOk(Do(s, step), a)
  {
  }

  lemma StepInv(s: State, step: Step)
    requires Inv(s) && Enabled(s, step)
    ensures Inv(Do(s, step))
  {
    var t := Do(s, step);
    StepMaps(s, step);
    StepPublications(s, step);
    forall c | c in t.callers ensures CallerOk(t, c) { StepCaller(s, step, c); }
    forall a | a in t.deaths ensures DeathOk(t, a) {
      if step.Register? { assert CallerOk(s, step.c); }
      StepDeath(s, step, a);
    }
  }

  lemma StepPublications(s: State, step: Step)
    requires Inv(s) && Enabled(s, step)
    ensures var t := Do(s, step);
            (forall n | n in t.pending :: PendingOk(t, n)) && (forall p | p in t.pubs :: PublicationOk(t.pubs[p]))
  {
    var t := Do(s, step);
    if step.Register? || step.Fail? { assert CallerOk(s, step.c) && PendingOk(s, s.callers[step.c].name); }
    forall n | n in t.pending ensures PendingOk(t, n) {
      if n in s.pending { assert PendingOk(s, n) && CallerOk(s, s.pubs[s.pending[n]].leader); }
      StepPending(s, step, n);
    }
    forall p | p in t.pubs ensures PublicationOk(t.pubs[p]) { StepPublication(s, step, p); }
  }

  lemma StepMaps(s: State, step: Step)
    requires Inv(s) && Enabled(s, step)
    ensures var t := Do(s, step);
            Inverse(t.adapters, t.names) && LogOk(t) && MadeOk(t) && t.pcs.Keys == t.callers.Keys
  {
    if step.Register? || step.Fail? { assert CallerOk(s, step.c) && PendingOk(s, s.callers[step.c].name); }
    if step.EraseDestroyed? { assert DeathOk(s, step.a); }
    StepTables(s, step);
    StepMade(s, step);
  }

  lemma StepCaller(s: State, step: Step, c: CallerId)
    requires Inv(s) && Enabled(s, step) && c in Do(s, step).callers
    ensures CallerOk(Do(s, step), c)
  {
    if c in s.callers { assert CallerOk(s, c); }
    if step.Register? || step.Fail? { assert CallerOk(s, step.c); }
    if NotBy(step, c) {
      OtherStep(s, step, c);
    } else {
      OwnStep(s, step, c);
    }
  }

  // ---------------------------------------------------------------- theorems

  ghost predicate Initial(s: State) {
    s == State(map[], map[], map[], map[], map[], map[], map[], map[], [map[]])
  }

  ghost predicate StepAt(run: seq<State>, steps: seq<Step>, i: nat)
    requires |run| == |steps| + 1 && i < |steps|
  {
    Enabled(run[i], steps[i]) && run[i + 1] == Do(run[i], steps[i])
  }

  ghost predicate Run(run: seq<State>, steps: seq<Step>) {
    |run| == |steps| + 1 && Initial(run[0]) && forall i: nat | i < |steps| :: StepAt(run, steps, i)
  }

  lemma {:induction false} RunInv(run: seq<State>, steps: seq<Step>, n: nat)
    requires Run(run, steps) && n <= |steps|
    ensures Inv(run[n])
  {
    if n > 0 {
      RunInv(run, steps, n - 1);
      assert StepAt(run, steps, n - 1);
      StepInv(run[n - 1], steps[n - 1]);
    }
  }

  lemma {:induction false} LogIsTheHistory(run: seq<State>, steps: seq<Step>, n: nat, i: nat)
    requires Run(run, steps) && i <= n <= |steps|
    ensures |run[n].log| == n + 1 && run[n].log[i] == run[i].adapters
    decreases n
  {
    if n > 0 {
      assert StepAt(run, steps, n - 1);
      LogIsTheHistory(run, steps, n - 1, if i < n then i else n - 1);
    }
  }

  /** A caller that returned normally returned the adapter that was registered under the name at some
      moment of the run between its call and its return. */
  lemma ReturnsARegisteredAdapter(run: seq<State>, steps: seq<Step>, n: nat, c: CallerId) returns (at: nat)
    requires Run(run, steps) && n <= |steps| && c in run[n].pcs && c in run[n].callers && run[n].pcs[c].Returned?
    ensures run[n].callers[c].start <= at <= n
    ensures run[n].callers[c].name in run[at].adapters
    ensures run[at].adapters[run[n].callers[c].name] == run[n].pcs[c].adapter
  {
    RunInv(run, steps, n);
    assert CallerOk(run[n], c);
    at := run[n].pcs[c].at;
    LogIsTheHistory(run, steps, n, n);
    LogIsTheHistory(run, steps, n, at);
  }

  /** A call's start is the moment at which it was made. */
  lemma CallStartsNow(run: seq<State>, steps: seq<Step>, n: nat)
    requires Run(run, steps) && n < |steps| && steps[n].Call?
    ensures steps[n].c in run[n + 1].callers && run[n + 1].callers[steps[n].c].start == n + 1
  {
    assert StepAt(run, steps, n);
    LogIsTheHistory(run, steps, n, n);
  }

  /** For each name at most one caller is running, or has just run, a factory. */
  lemma OneFactoryPerName(run: seq<State>, steps: seq<Step>, n: nat, c: CallerId, d: CallerId)
    requires Run(run, steps) && n <= |steps| && c in run[n].callers && d in run[n].callers && c in run[n].pcs && d in run[n].pcs
    requires run[n].callers[c].name == run[n].callers[d].name
    requires run[n].pcs[c].Leading? || run[n].pcs[c].Made?
    requires run[n].pcs[d].Leading? || run[n].pcs[d].Made?
    ensures c == d
  {
    RunInv(run, steps, n);
    assert CallerOk(run[n], c) && CallerOk(run[n], d);
  }

  /** No follower ever returns the null result of a publication. */
  lemma NeverReturnsNull(run: seq<State>, steps: seq<Step>, n: nat, c: CallerId)
    requires Run(run, steps) && n <= |steps| && c in run[n].pcs
    ensures !run[n].pcs[c].ReturnedNull?
  {
    RunInv(run, steps, n);
    assert CallerOk(run[n], c);
  }

  /** The two tables are inverse throughout, and an adapter being updated is still registered. */
  lemma TablesStayInverse(run: seq<State>, steps: seq<Step>, n: nat)
    requires Run(run, steps) && n <= |steps|
    ensures Inverse(run[n].adapters, run[n].names)
    ensures forall c | c in run[n].pcs && run[n].pcs[c].Updating? ::
              run[n].pcs[c].adapter in run[n].names
  {
    RunInv(run, steps, n);
    forall c | c in run[n].pcs && run[n].pcs[c].Updating?
      ensures run[n].pcs[c].adapter in run[n].names
    {
      assert CallerOk(run[n], c);
    }
  }

  // ---------------------------------------------------------------- what a caller gets, and why

  /** One pass of the loop: the caller leads exactly when the name is neither registered nor being
      created, and a registered adapter that nobody is destroying is returned at once, or updated. */
  lemma LookUpOutcome(s: State, step: Step)
    requires Enabled(s, step) && step.LookUp?
    ensures step.c in Do(s, step).pcs
    ensures var name, pc, t := s.callers[step.c].name, Do(s, step).pcs[step.c], Do(s, step);
            && (pc.Leading? <==> name !in s.adapters && name !in s.pending)
            && (pc.Leading? ==> Leads(t, step.c, name, pc.pub) && !t.pubs[pc.pub].complete)
            && (pc.Following? <==> name !in s.adapters && name in s.pending)
            && (pc.AwaitingDeletion? <==> name in s.adapters && s.adapters[name] in s.deaths)
            && (name in s.adapters && s.adapters[name] !in s.deaths ==>
                  && (!s.callers[step.c].update ==> pc.Returned? && pc.adapter == s.adapters[name])
                  && (s.callers[step.c].update && step.enters ==> pc.Updating? && pc.adapter == s.adapters[name]))
  {
  }

  /** The ends of the waits: after a deletion, or a creation that succeeded, the caller looks again; after
      one that failed it throws; after its update it returns the adapter it updated. */
  lemma WaitsEnd(s: State, step: Step)
    requires Inv(s) && Enabled(s, step) && (step.DeletionOver? || step.PublicationOver? || step.EndUpdate?)
    ensures step.c in s.pcs && step.c in Do(s, step).pcs
    ensures var pc, pc' := s.pcs[step.c], Do(s, step).pcs[step.c];
            && (step.DeletionOver? ==> pc' == LookingUp)
            && (step.PublicationOver? ==> pc.Following? && pc.pub in s.pubs && pc' == if s.pubs[pc.pub].error then Threw else LookingUp)
            && (step.EndUpdate? ==> pc.Updating? && pc.adapter in s.names)
            && (step.EndUpdate? ==> if step.throws then pc'.Threw? else pc'.Returned? && pc'.adapter == pc.adapter)
  {
    assert step.c in s.callers && CallerOk(s, step.c);
  }

  /** An adapter is dying from the moment its destruction begins until it ends, and is taken out of both
      tables in between, which frees its name; nothing else takes one out. */
  lemma DestructionHolds(s: State, step: Step, a: Adapter, name: Name)
    requires Inv(s) && Enabled(s, step)
    ensures var t := Do(s, step);
            && (a in t.deaths <==> step == BeginDestroy(a) || (a in s.deaths && step != EndDestroy(a)))
            && (step == EraseDestroyed(a) ==> a in s.names && s.names[a] !in t.adapters && a !in t.names && t.deaths[a].erased)
            && (a in s.names && step != EraseDestroyed(a) ==> a in t.names && t.names[a] == s.names[a])
            && (name in s.adapters && step != EraseDestroyed(s.adapters[name]) ==> name in t.adapters && t.adapters[name] == s.adapters[name])
  {
    if step.EraseDestroyed? { assert DeathOk(s, step.a); }
    TablesHold(s, step, a, name);
  }

  lemma TablesHold(s: State, step: Step, a: Adapter, name: Name)
    requires Enabled(s, step) && Inverse(s.adapters, s.names) && (step.EraseDestroyed? ==> DeathOk(s, step.a))
    ensures var t := Do(s, step);
            && (a in t.deaths <==> step == BeginDestroy(a) || (a in s.deaths && step != EndDestroy(a)))
            && (step == EraseDestroyed(a) ==> a in s.names && s.names[a] !in t.adapters && a !in t.names && t.deaths[a].erased)
            && (a in s.names && step != EraseDestroyed(a) ==> a in t.names && t.names[a] == s.names[a])
            && (name in s.adapters && step != EraseDestroyed(s.adapters[name]) ==> name in t.adapters && t.adapters[name] == s.adapters[name])
  {
  }

  /** A leader that registers returns the adapter its own factory made, and it is the registered one. */
  lemma LeaderReturnsItsOwn(run: seq<State>, steps: seq<Step>, n: nat, c: CallerId)
    requires Run(run, steps) && n < |steps| && steps[n] == Register(c)
    ensures c in run[n].callers && c in run[n].pcs && run[n].pcs[c].Made? && c in run[n + 1].pcs && run[n + 1].pcs[c].Returned?
    ensures var a, name := run[n].pcs[c].adapter, run[n].callers[c].name;
            && run[n + 1].pcs[c].adapter == a && a in run[n].made && run[n].made[a] == c
            && name in run[n + 1].adapters && run[n + 1].adapters[name] == a && name !in run[n + 1].pending
  {
    RunInv(run, steps, n);
    assert StepAt(run, steps, n);
    assert CallerOk(run[n], c) && PendingOk(run[n], run[n].callers[c].name);
  }

  /** What makes a caller throw: its own factory or registration, its own update, the gate of an adapter
      that has begun to retire, or the failure of the creation it waited for. */
  ghost predicate Reason(s: State, step: Step, c: CallerId) {
    match step
    case Fail(d) => d == c
    case EndUpdate(d, throws) => d == c && throws
    case LookUp(d, _, enters) =>
      d == c && !enters && c in s.callers && s.callers[c].update && s.callers[c].name in s.adapters
    case PublicationOver(d) =>
      d == c && c in s.pcs && s.pcs[c].Following? && s.pcs[c].pub in s.pubs && s.pubs[s.pcs[c].pub].error
    case _ => false
  }

  lemma {:induction false} ThrowsForAReason(run: seq<State>, steps: seq<Step>, n: nat, c: CallerId) returns (j: nat)
    requires Run(run, steps) && n <= |steps| && c in run[n].pcs && run[n].pcs[c].Threw?
    ensures j < n && Reason(run[j], steps[j], c)
  {
    assert n > 0;
    assert StepAt(run, steps, n - 1);
    RunInv(run, steps, n - 1);
    if c in run[n - 1].pcs && run[n - 1].pcs[c].Threw? {
      j := ThrowsForAReason(run, steps, n - 1, c);
    } else {
      j := n - 1;
      ThrewNow(run[j], steps[j], c);
    }
  }

  lemma ThrewNow(s: State, step: Step, c: CallerId)
    requires Enabled(s, step) && c in Do(s, step).pcs && Do(s, step).pcs[c].Threw? && !(c in s.pcs && s.pcs[c].Threw?)
    ensures Reason(s, step, c)
  {
  }

  /** A publication fails only because its leader did. */
  lemma {:induction false} ErrorsComeFromLeaders(run: seq<State>, steps: seq<Step>, n: nat, p: nat) returns (j: nat)
    requires Run(run, steps) && n <= |steps| && p in run[n].pubs && run[n].pubs[p].error
    ensures j < n && steps[j] == Fail(run[n].pubs[p].leader)
  {
    assert n > 0;
    assert StepAt(run, steps, n - 1);
    RunInv(run, steps, n - 1);
    if p in run[n - 1].pubs && run[n - 1].pubs[p].error {
      j := ErrorsComeFromLeaders(run, steps, n - 1, p);
      PublicationKeepsLeader(run[n - 1], steps[n - 1], p);
    } else {
      j := n - 1;
      FailedNow(run[j], steps[j], p);
    }
  }

  lemma PublicationKeepsLeader(s: State, step: Step, p: nat)
    requires Enabled(s, step) && p in s.pubs
    ensures p in Do(s, step).pubs && Do(s, step).pubs[p].leader == s.pubs[p].leader && Do(s, step).pubs[p].name == s.pubs[p].name
  {
  }

  lemma FailedNow(s: State, step: Step, p: nat)
    requires Inv(s) && Enabled(s, step) && p in Do(s, step).pubs && Do(s, step).pubs[p].error && !(p in s.pubs && s.pubs[p].error)
    ensures step == Fail(Do(s, step).pubs[p].leader)
  {
    if step.Fail? { assert CallerOk(s, step.c); }
  }

  // ---------------------------------------------------------------- nobody waits for ever

  /** A publication that is not complete is the pending one of its name. */
  ghost predicate OpenIsPending(s: State) {
    forall p | p in s.pubs && !s.pubs[p].complete :: s.pubs[p].name in s.pending && s.pending[s.pubs[p].name] == p
  }

  lemma StepOpen(s: State, step: Step)
    requires Inv(s) && Enabled(s, step) && OpenIsPending(s)
    ensures OpenIsPending(Do(s, step))
  {
    var t := Do(s, step);
    if step.Register? || step.Fail? { assert CallerOk(s, step.c); }
    forall p | p in t.pubs && !t.pubs[p].complete ensures t.pubs[p].name in t.pending && t.pending[t.pubs[p].name] == p {
      if p in s.pubs { PublicationKeepsLeader(s, step, p); }
    }
  }

  lemma {:induction false} RunOpen(run: seq<State>, steps: seq<Step>, n: nat)
    requires Run(run, steps) && n <= |steps|
    ensures OpenIsPending(run[n])
  {
    if n > 0 {
      RunOpen(run, steps, n - 1);
      RunInv(run, steps, n - 1);
      assert StepAt(run, steps, n - 1);
      StepOpen(run[n - 1], steps[n - 1]);
    }
  }

  lemma {:induction false} FreshPublication(ids: set<nat>) returns (x: nat)
    ensures x !in ids && forall y | y in ids :: y < x
    decreases |ids|
  {
    if ids == {} {
      x := 0;
    } else {
      var y :| y in ids;
      var z := FreshPublication(ids - {y});
      x := if z <= y then y + 1 else z;
      assert forall w | w in ids :: w == y || w in ids - {y};
    }
  }

  ghost predicate Busy(s: State, c: CallerId) {
    c in s.pcs && !s.pcs[c].Returned? && !s.pcs[c].Threw?
  }

  lemma DestructionMoves(s: State, a: Adapter) returns (step: Step)
    requires Inv(s) && a in s.deaths
    ensures Enabled(s, step) && !step.Call? && !step.BeginDestroy?
  {
    if s.deaths[a].erased {
      step := EndDestroy(a);
    } else if c :| c in s.pcs && s.pcs[c].Updating? && s.pcs[c].adapter == a {
      step := EndUpdate(c, false);
    } else {
      step := EraseDestroyed(a);
    }
  }

  lemma CallerMoves(s: State, c: CallerId) returns (step: Step)
    requires Inv(s) && OpenIsPending(s) && Busy(s, c)
    ensures Enabled(s, step) && !step.Call? && !step.BeginDestroy?
  {
    assert CallerOk(s, c);
    match s.pcs[c]
    case LookingUp =>
      var pub := FreshPublication(s.pubs.Keys);
      step := LookUp(c, pub, true);
    case AwaitingDeletion(doomed) =>
      if doomed in s.deaths { step := DestructionMoves(s, doomed); } else { step := DeletionOver(c); }
    case Following(pub) =>
      if s.pubs[pub].complete {
        step := PublicationOver(c);
      } else {
        assert PendingOk(s, s.pubs[pub].name);
        step := Fail(s.pubs[pub].leader);
      }
    case Leading(_) => step := Fail(c);
    case Made(_, _) => step := Register(c);
    case Updating(_, _) => step := EndUpdate(c, false);
    case _ =>
  }

  /** As long as a call or a destruction is unfinished, some step of one already begun is possible: a
      follower always has a leader still at work, and one waiting for a deletion a destroyer. */
  lemma NoDeadlock(run: seq<State>, steps: seq<Step>, n: nat) returns (step: Step)
    requires Run(run, steps) && n <= |steps| && (run[n].deaths != map[] || exists c :: Busy(run[n], c))
    ensures Enabled(run[n], step) && !step.Call? && !step.BeginDestroy?
  {
    RunInv(run, steps, n);
    RunOpen(run, steps, n);
    if c :| Busy(run[n], c) {
      step := CallerMoves(run[n], c);
    } else {
      var a :| a in run[n].deaths;
      step := DestructionMoves(run[n], a);
    }
  }

  /** An adapter that has been taken out of the tables never comes back. */
  ghost predicate Out(s: State, a: Adapter) {
    a in s.made && a !in s.names && forall c | c in s.pcs && s.pcs[c].Made? :: s.pcs[c].adapter != a
  }

  lemma OutStep(s: State, step: Step, a: Adapter)
    requires Enabled(s, step) && Out(s, a)
    ensures Out(Do(s, step), a)
  {
  }

  lemma ErasedIsOut(s: State, a: Adapter)
    requires Inv(s) && Enabled(s, EraseDestroyed(a))
    ensures Out(Do(s, EraseDestroyed(a)), a)
  {
    assert DeathOk(s, a);
    forall c | c in s.pcs && s.pcs[c].Made? ensures s.pcs[c].adapter != a { assert CallerOk(s, c); }
  }

  lemma {:induction false} ErasedStaysOut(run: seq<State>, steps: seq<Step>, m: nat, n: nat, a: Adapter)
    requires Run(run, steps) && m < n <= |steps| && steps[m] == EraseDestroyed(a)
    ensures Out(run[n], a) && forall name | name in run[n].adapters :: run[n].adapters[name] != a
  {
    assert StepAt(run, steps, n - 1);
    if n == m + 1 {
      RunInv(run, steps, m);
      ErasedIsOut(run[m], a);
    } else {
      ErasedStaysOut(run, steps, m, n - 1, a);
      OutStep(run[n - 1], steps[n - 1], a);
    }
    RunInv(run, steps, n);
  }
}
