/** The manager's object tree: devices under buses under adapters, created and destroyed by any number
    of threads.  A creation counts itself on all its ancestors; a destruction seals the object, waits
    for the counted creations, then for every child to be unregistered and destroyed, and only then
    unregisters and frees the object.  The same protocol serves all three levels.  `CreateBus` alone
    can also take back a bus it has already published, when initialising it throws
    (src/driver_manager_impl.h:328-356, 401-429; src/driver_manager_create.cc:20-150, 153-270;
    src/driver_manager_destroy.cc:9-66, 235-308, 327-430).  An id denotes one object for ever.
 */
module ObjectTree {

  type Id = nat

  datatype Option<+T> = None | Some(value: T)

  datatype Level = Adapter | Bus | Device

  /** What never changes about an object: its level, its parent and the thread that constructed it. */
  datatype Node = Node(level: Level, parent: Option<Id>, maker: Option<nat>)

  /** `Routed` is for devices whose receive routes are published.  `Published` and `Retracted` are for
      buses, between their publication and the end of their initialisation, or of its rollback. */
  datatype Phase = Leading | Built(id: Id) | Routed(id: Id) | Published(id: Id) | Retracted(id: Id) | Settled

  /** A creation under `parent`, and the ancestors it is counted on. */
  datatype Maker = Maker(parent: Id, holds: set<Id>, phase: Phase)

  /** How far a destruction has come. */
  datatype Stage = Begun | CreationsDone | ChildrenDone | Erased | Freed

  /** `deaths.Keys` is the manager's `deleting` set. */
  datatype State = State(
    nodes: map<Id, Node>, registered: set<Id>, live: set<Id>, deaths: map<Id, Stage>,
    counts: map<Id, nat>, makers: map<nat, Maker>)

  datatype Step =
    | RegisterAdapter(x: Id)
    | Lead(t: nat, parent: Id) | LeadFails(t: nat, parent: Id)
    | Build(t: nat, x: Id) | PublishRoutes(t: nat) | Commit(t: nat) | Abandon(t: nat) | EndCount(t: nat, parent: Id)
    | Initialize(t: nat) | Retract(t: nat) | FreeRetracted(t: nat)
    | Begin(x: Id) | NoCreations(x: Id) | NoChildren(x: Id) | Erase(x: Id) | Free(x: Id) | End(x: Id)

  predicate IsChild(s: State, c: Id, x: Id) {
    c in s.nodes && s.nodes[c].parent == Some(x)
  }

  /** The object and, if it has one, its parent. */
  function Above(s: State, x: Id): set<Id> {
    {x} + if x in s.nodes && s.nodes[x].parent.Some? then {s.nodes[x].parent.value} else {}
  }

  predicate Alive(s: State, parent: Id) {
    parent in s.registered && forall a | a in Above(s, parent) :: a !in s.deaths
  }

  /** The object is constructed but not yet in the tables. */
  predicate Builds(m: Maker) {
    m.phase.Built? || m.phase.Routed?
  }

  predicate Enabled(s: State, step: Step) {
    match step
    case RegisterAdapter(x) => x !in s.nodes
    case Lead(t, p) => t !in s.makers && Alive(s, p) && p in s.nodes && !s.nodes[p].level.Device?
    case LeadFails(t, p) => t !in s.makers && Alive(s, p) && p in s.nodes && s.nodes[p].level.Bus?
    case Build(t, x) => t in s.makers && s.makers[t].phase.Leading? && x !in s.nodes && s.makers[t].parent in s.nodes
    case PublishRoutes(t) =>
      && t in s.makers && s.makers[t].phase.Built? && s.makers[t].phase.id in s.nodes
      && s.nodes[s.makers[t].phase.id].level.Device? && Alive(s, s.makers[t].parent)
    case Commit(t) =>
      && t in s.makers && Builds(s.makers[t]) && s.makers[t].phase.id in s.nodes
      && (s.nodes[s.makers[t].phase.id].level.Device? <==> s.makers[t].phase.Routed?)
      && forall a | a in Above(s, s.makers[t].parent) :: a !in s.deaths
    case Abandon(t) => t in s.makers && (s.makers[t].phase.Leading? || Builds(s.makers[t]))
    case EndCount(t, p) =>
      && t in s.makers && s.makers[t].phase.Settled? && p in s.makers[t].holds
      && (p != s.makers[t].parent ==> s.makers[t].parent !in s.makers[t].holds)
    case Initialize(t) => t in s.makers && s.makers[t].phase.Published?
    case Retract(t) => t in s.makers && s.makers[t].phase.Published?
    case FreeRetracted(t) => t in s.makers && s.makers[t].phase.Retracted?
    case Begin(x) => x in s.registered && x !in s.deaths
    case NoCreations(x) => x in s.deaths && s.deaths[x].Begun? && x !in s.counts
    case NoChildren(x) =>
      && x in s.deaths && s.deaths[x].CreationsDone?
      && (forall c | c in s.registered :: !IsChild(s, c, x)) && (forall c | c in s.deaths :: !IsChild(s, c, x))
    case Erase(x) => x in s.deaths && s.deaths[x].ChildrenDone?
    case Free(x) => x in s.deaths && s.deaths[x].Erased?
    case End(x) => x in s.deaths && s.deaths[x].Freed?
  }

  function Tally(counts: map<Id, nat>, x: Id): nat {
    if x in counts then counts[x] else 0
  }

  function Raise(counts: map<Id, nat>, xs: set<Id>): map<Id, nat> {
    map x | x in counts.Keys + xs :: Tally(counts, x) + if x in xs then 1 else 0
  }

  function Lower(counts: map<Id, nat>, x: Id): map<Id, nat> {
    if x !in counts then counts else if counts[x] <= 1 then counts - {x} else counts[x := counts[x] - 1]
  }

  function Do(s: State, step: Step): State
    requires Enabled(s, step)
  {
    match step
    case RegisterAdapter(x) =>
      s.(nodes := s.nodes[x := Node(Adapter, None, None)], registered := s.registered + {x}, live := s.live + {x})
    case Lead(t, p) =>
      s.(counts := Raise(s.counts, Above(s, p)), makers := s.makers[t := Maker(p, Above(s, p), Leading)])
    case LeadFails(t, p) =>
      s.(counts := Raise(s.counts, {p}), makers := s.makers[t := Maker(p, {p}, Settled)])
    case Build(t, x) =>
      var p := s.makers[t].parent;
      var level := if s.nodes[p].level.Adapter? then Bus else Device;
      s.(nodes := s.nodes[x := Node(level, Some(p), Some(t))], live := s.live + {x},
         makers := s.makers[t := s.makers[t].(phase := Built(x))])
    case PublishRoutes(t) => s.(makers := s.makers[t := s.makers[t].(phase := Routed(s.makers[t].phase.id))])
    case Commit(t) =>
      var x := s.makers[t].phase.id;
      s.(registered := s.registered + {x},
         makers := s.makers[t := s.makers[t].(phase := if s.nodes[x].level.Bus? then Published(x) else Settled)])
    case Abandon(t) =>
      s.(live := if Builds(s.makers[t]) then s.live - {s.makers[t].phase.id} else s.live,
         makers := s.makers[t := s.makers[t].(phase := Settled)])
    case EndCount(t, p) =>
      s.(counts := Lower(s.counts, p), makers := s.makers[t := s.makers[t].(holds := s.makers[t].holds - {p})])
    case Initialize(t) => s.(makers := s.makers[t := s.makers[t].(phase := Settled)])
    case Retract(t) =>
      s.(registered := s.registered - {s.makers[t].phase.id},
         makers := s.makers[t := s.makers[t].(phase := Retracted(s.makers[t].phase.id))])
    case FreeRetracted(t) =>
      s.(live := s.live - {s.makers[t].phase.id}, makers := s.makers[t := s.makers[t].(phase := Settled)])
    case Begin(x) => s.(deaths := s.deaths[x := Begun])
    case NoCreations(x) => s.(deaths := s.deaths[x := CreationsDone])
    case NoChildren(x) => s.(deaths := s.deaths[x := ChildrenDone])
    case Erase(x) => s.(registered := s.registered - {x}, deaths := s.deaths[x := Erased])
    case Free(x) => s.(live := s.live - {x}, deaths := s.deaths[x := Freed])
    case End(x) => s.(deaths := s.deaths - {x})
  }

  // ---------------------------------------------------------------- retraction

  /** A creation under `x` that has neither committed nor given up its device. */
  ghost predicate MakesUnder(s: State, t: nat, x: Id) {
    t in s.makers && s.makers[t].parent == x && (s.makers[t].phase.Leading? || Builds(s.makers[t]))
  }

  /** When a published bus may be taken back: it is registered and nobody is destroying it, it has no
      registered device, none whose destruction has still to free it, and none under construction.
      This is about the state.  The manager's tables do not quite show it, since they keep a device that
      is being destroyed or rolled back until after it is freed: see `UncountedIsClear` for what they do
      show. */
  ghost predicate Clear(s: State, x: Id) {
    && x in s.registered && x !in s.deaths
    && (forall c | c in s.registered :: !IsChild(s, c, x))
    && (forall c | c in s.deaths && !s.deaths[c].Freed? :: !IsChild(s, c, x))
    && (forall t | t in s.makers :: !MakesUnder(s, t, x))
  }

  ghost predicate ClearStep(s: State, step: Step) {
    step.Retract? && Enabled(s, step) ==> Clear(s, s.makers[step.t].phase.id)
  }

  // ---------------------------------------------------------------- the invariant

  ghost function Holders(makers: map<nat, Maker>, x: Id): set<nat> {
    set t | t in makers && x in makers[t].holds
  }

  ghost predicate CountOk(s: State, x: Id) {
    Tally(s.counts, x) == |Holders(s.makers, x)| && (x in s.counts ==> s.counts[x] > 0)
  }

  ghost predicate CountsOk(s: State) {
    forall x: Id :: CountOk(s, x)
  }

  ghost predicate MakerOk(s: State, t: nat)
    requires t in s.makers
  {
    var m := s.makers[t];
    && (!m.phase.Settled? ==>
          && m.parent in s.registered && m.parent in s.nodes && !s.nodes[m.parent].level.Device?
          && m.holds == Above(s, m.parent))
    && (!m.phase.Settled? && !m.phase.Leading? ==>
          m.phase.id in s.nodes && s.nodes[m.phase.id].parent == Some(m.parent) && s.nodes[m.phase.id].maker == Some(t))
    && (Builds(m) || m.phase.Retracted? ==>
          m.phase.id in s.live && m.phase.id !in s.registered && m.phase.id !in s.deaths)
    && (m.phase.Published? || m.phase.Retracted? ==> s.nodes[m.phase.id].level.Bus?)
  }

  ghost predicate NodeOk(s: State, x: Id)
    requires x in s.nodes
  {
    match s.nodes[x].level
    case Adapter => s.nodes[x].parent == None
    case Bus => s.nodes[x].parent.Some? && s.nodes[x].parent.value in s.nodes && s.nodes[s.nodes[x].parent.value].level.Adapter?
    case Device => s.nodes[x].parent.Some? && s.nodes[x].parent.value in s.nodes && s.nodes[s.nodes[x].parent.value].level.Bus?
  }

  ghost predicate RegisteredOk(s: State, x: Id) {
    && x in s.nodes && x in s.live
    && (s.nodes[x].parent.Some? ==> s.nodes[x].parent.value in s.registered)
  }

  ghost predicate DeathOk(s: State, x: Id)
    requires x in s.deaths
  {
    && x in s.nodes
    && (!s.deaths[x].Freed? ==> x in s.live && (s.nodes[x].parent.Some? ==> s.nodes[x].parent.value in s.registered))
    && (x in s.registered <==> !s.deaths[x].Erased? && !s.deaths[x].Freed?)
    && (!s.deaths[x].Begun? ==> x !in s.counts)
  }

  /** Past the wait for children there are none. */
  ghost predicate Childless(s: State, x: Id) {
    (forall c | c in s.registered :: !IsChild(s, c, x)) && (forall c | c in s.deaths :: !IsChild(s, c, x))
  }

  ghost predicate LiveOk(s: State, x: Id) {
    && x in s.nodes
    && (|| x in s.registered
        || (x in s.deaths && s.deaths[x].Erased?)
        || (s.nodes[x].maker.Some? && s.nodes[x].maker.value in s.makers
            && s.makers[s.nodes[x].maker.value].phase in {Built(x), Routed(x), Retracted(x)}))
  }

  ghost predicate Structure(s: State) {
    && (forall x | x in s.nodes :: NodeOk(s, x))
    && (forall x | x in s.registered :: RegisteredOk(s, x))
    && (forall x | x in s.deaths :: DeathOk(s, x))
    && (forall x | x in s.deaths && (s.deaths[x].ChildrenDone? || s.deaths[x].Erased? || s.deaths[x].Freed?) :: Childless(s, x))
  }

  ghost predicate Inv(s: State) {
    && CountsOk(s) && Structure(s)
    && (forall t | t in s.makers :: MakerOk(s, t))
    && (forall x | x in s.live :: LiveOk(s, x))
  }

  // ---------------------------------------------------------------- preservation: the counts

  lemma RaiseCounts(s: State, t: nat, m: Maker, x: Id)
    requires CountOk(s, x) && t !in s.makers
    ensures CountOk(s.(counts := Raise(s.counts, m.holds), makers := s.makers[t := m]), x)
  {
    var u := s.(counts := Raise(s.counts, m.holds), makers := s.makers[t := m]);
    assert Holders(u.makers, x) == Holders(s.makers, x) + (if x in m.holds then {t} else {});
  }

  lemma LowerCounts(s: State, t: nat, p: Id, x: Id)
    requires CountOk(s, x) && t in s.makers && p in s.makers[t].holds
    ensures CountOk(s.(counts := Lower(s.counts, p), makers := s.makers[t := s.makers[t].(holds := s.makers[t].holds - {p})]), x)
  {
    var u := s.(counts := Lower(s.counts, p), makers := s.makers[t := s.makers[t].(holds := s.makers[t].holds - {p})]);
    if x == p {
      assert t in Holders(s.makers, x);
      assert Holders(u.makers, x) == Holders(s.makers, x) - {t};
    } else {
      assert Holders(u.makers, x) == Holders(s.makers, x);
    }
  }

  lemma SameCounts(s: State, u: State, x: Id)
    requires CountOk(s, x) && u.counts == s.counts && u.makers.Keys == s.makers.Keys
    requires forall t | t in s.makers :: u.makers[t].holds == s.makers[t].holds
    ensures CountOk(u, x)
  {
    assert Holders(u.makers, x) == Holders(s.makers, x);
  }

  lemma StepCount(s: State, step: Step, x: Id)
    requires CountOk(s, x) && Enabled(s, step)
    ensures CountOk(Do(s, step), x)
  {
    match step
    case Lead(t, p) => RaiseCounts(s, t, Maker(p, Above(s, p), Leading), x);
    case LeadFails(t, p) => RaiseCounts(s, t, Maker(p, {p}, Settled), x);
    case EndCount(t, p) => LowerCounts(s, t, p, x);
    case _ => UncountedStep(s, step); SameCounts(s, Do(s, step), x);
  }

  /** The other steps move no count. */
  lemma UncountedStep(s: State, step: Step)
    requires Enabled(s, step) && !step.Lead? && !step.LeadFails? && !step.EndCount?
    ensures var u := Do(s, step); u.counts == s.counts && u.makers.Keys == s.makers.Keys
    ensures var u := Do(s, step); forall t | t in s.makers :: t in u.makers && u.makers[t].holds == s.makers[t].holds
  {
  }

  /** An object without a count has no creation in progress below it. */
  lemma UncountedIsUnheld(s: State, x: Id, t: nat)
    requires CountOk(s, x) && x !in s.counts && t in s.makers
    ensures x !in s.makers[t].holds
  {
    assert Holders(s.makers, x) == {};
    assert x in s.makers[t].holds ==> t in Holders(s.makers, x);
  }

  // ---------------------------------------------------------------- preservation: the structure

  lemma StepNodes(s: State, step: Step, x: Id)
    requires Enabled(s, step) && x in Do(s, step).nodes
    requires forall y | y in s.nodes :: NodeOk(s, y)
    requires step.Build? ==> MakerOk(s, step.t)
    ensures NodeOk(Do(s, step), x)
  {
    if x in s.nodes { assert NodeOk(s, x); }
  }

  /** What a step of a creation needs to know about it. */
  ghost predicate MakerKnown(s: State, step: Step) {
    step.Build? || step.PublishRoutes? || step.Commit? || step.Abandon? || step.EndCount? || step.Initialize? || step.Retract? || step.FreeRetracted? ==>
      step.t in s.makers && MakerOk(s, step.t)
  }

  /** Nobody registered has its parent erased or retracted under it. */
  lemma StepRegistered(s: State, step: Step, x: Id)
    requires Enabled(s, step) && x in Do(s, step).registered && MakerKnown(s, step) && ClearStep(s, step)
    requires x in s.registered ==> RegisteredOk(s, x)
    requires step.Erase? ==> Childless(s, step.x)
    requires step.Free? ==> DeathOk(s, step.x)
    ensures RegisteredOk(Do(s, step), x)
  {
  }

  /** Nothing is counted on an object whose destruction has passed the wait for creations. */
  lemma StepDeath(s: State, step: Step, x: Id)
    requires Enabled(s, step) && x in Do(s, step).deaths && MakerKnown(s, step) && ClearStep(s, step)
    requires x in s.deaths ==> DeathOk(s, x)
    requires step.Begin? ==> RegisteredOk(s, step.x)
    requires step.Erase? ==> Childless(s, step.x)
    ensures DeathOk(Do(s, step), x)
  {
    if step.Lead? || step.LeadFails? || step.EndCount? { CountsOfTheDying(s, step, x); }
  }

  lemma CountsOfTheDying(s: State, step: Step, x: Id)
    requires Enabled(s, step) && (step.Lead? || step.LeadFails? || step.EndCount?) && x in s.deaths
    ensures x in Do(s, step).counts ==> x in s.counts
  {
  }

  lemma StepChildless(s: State, step: Step, x: Id)
    requires Enabled(s, step) && x in s.deaths && !s.deaths[x].Begun? && Childless(s, x)
    requires step.Commit? ==> MakerOk(s, step.t) && s.makers[step.t].parent != x
    requires forall y | y in s.registered + s.deaths.Keys :: y in s.nodes
    ensures Childless(Do(s, step), x)
  {
  }

  lemma StepStructure(s: State, step: Step)
    requires Inv(s) && Enabled(s, step) && ClearStep(s, step)
    ensures Structure(Do(s, step))
  {
    var u := Do(s, step);
    assert MakerKnown(s, step);
    if step.Erase? || step.Free? { assert DeathOk(s, step.x) && Childless(s, step.x); }
    forall x | x in u.nodes ensures NodeOk(u, x) { StepNodes(s, step, x); }
    forall x | x in u.registered ensures RegisteredOk(u, x) { StepRegistered(s, step, x); }
    forall x | x in u.deaths ensures DeathOk(u, x) { StepDeath(s, step, x); }
    forall x | x in u.deaths && (u.deaths[x].ChildrenDone? || u.deaths[x].Erased? || u.deaths[x].Freed?)
      ensures Childless(u, x)
    {
      if !(step.NoChildren? && step.x == x) { StillChildless(s, step, x); }
    }
  }

  lemma StillChildless(s: State, step: Step, x: Id)
    requires Inv(s) && Enabled(s, step) && !(step.NoChildren? && step.x == x)
    requires x in Do(s, step).deaths && var stage := Do(s, step).deaths[x]; stage.ChildrenDone? || stage.Erased? || stage.Freed?
    ensures Childless(Do(s, step), x)
  {
    assert x in s.deaths && (s.deaths[x].ChildrenDone? || s.deaths[x].Erased? || s.deaths[x].Freed?);
    assert DeathOk(s, x) && CountOk(s, x);
    if step.Commit? {
      UncountedIsUnheld(s, x, step.t);
      assert MakerOk(s, step.t);
    }
    StepChildless(s, step, x);
  }

  // ---------------------------------------------------------------- preservation: creations and lives

  lemma StepMaker(s: State, step: Step, t: nat)
    requires Inv(s) && Enabled(s, step) && ClearStep(s, step) && t in Do(s, step).makers
    ensures MakerOk(Do(s, step), t)
  {
    if t in s.makers {
      assert MakerOk(s, t) && MakerKnown(s, step);
      if step.Erase? {
        assert DeathOk(s, step.x) && CountOk(s, step.x);
        UncountedIsUnheld(s, step.x, t);
      }
      if step.Retract? && !s.makers[t].phase.Settled? { RetractedIsNoParent(s, step.t, t); }
      KeepMaker(s, step, t);
    } else {
      assert step.Lead? || step.LeadFails?;
    }
  }

  /** No creation in progress is under a bus that is being taken back. */
  lemma RetractedIsNoParent(s: State, r: nat, t: nat)
    requires Inv(s) && Enabled(s, Retract(r)) && Clear(s, s.makers[r].phase.id)
    requires t in s.makers && !s.makers[t].phase.Settled?
    ensures s.makers[t].parent != s.makers[r].phase.id
  {
    assert MakerOk(s, r) && MakerOk(s, t);
    var x := s.makers[r].phase.id;
    if s.makers[t].phase.Published? || s.makers[t].phase.Retracted? {
      assert NodeOk(s, s.makers[t].phase.id);
    } else {
      assert !MakesUnder(s, t, x);
    }
  }

  lemma KeepMaker(s: State, step: Step, t: nat)
    requires Enabled(s, step) && t in s.makers && MakerOk(s, t) && MakerKnown(s, step)
    requires step.Erase? ==> step.x !in s.makers[t].holds
    requires step.Retract? && !s.makers[t].phase.Settled? ==> s.makers[t].parent != s.makers[step.t].phase.id
    requires step.Free? ==> step.x in s.deaths
    requires forall x | x in s.registered + s.deaths.Keys :: x in s.nodes
    requires step.Retract? && step.t == t ==> Clear(s, s.makers[t].phase.id) && s.makers[t].phase.id in s.live
    ensures MakerOk(Do(s, step), t)
  {
    var u := Do(s, step);
    var p := s.makers[t].parent;
    if p in s.nodes { assert Above(u, p) == Above(s, p); }
  }

  lemma StepLive(s: State, step: Step, x: Id)
    requires Enabled(s, step) && x in Do(s, step).live && MakerKnown(s, step) && ClearStep(s, step)
    requires x in s.live ==> LiveOk(s, x)
    ensures LiveOk(Do(s, step), x)
  {
  }

  lemma StepInv(s: State, step: Step)
    requires Inv(s) && Enabled(s, step) && ClearStep(s, step)
    ensures Inv(Do(s, step))
  {
    var u := Do(s, step);
    forall x: Id ensures CountOk(u, x) { assert CountOk(s, x); StepCount(s, step, x); }
    StepStructure(s, step);
    forall t | t in u.makers ensures MakerOk(u, t) { StepMaker(s, step, t); }
    assert MakerKnown(s, step);
    forall x | x in u.live ensures LiveOk(u, x) { StepLive(s, step, x); }
  }

  // ---------------------------------------------------------------- theorems

  ghost predicate Initial(s: State) {
    s == State(map[], {}, {}, map[], map[], map[])
  }

  ghost predicate StepAt(run: seq<State>, steps: seq<Step>, i: nat)
    requires |run| == |steps| + 1 && i < |steps|
  {
    Enabled(run[i], steps[i]) && run[i + 1] == Do(run[i], steps[i])
  }

  /** A run, or a continuation of one. */
  ghost predicate Path(run: seq<State>, steps: seq<Step>) {
    |run| == |steps| + 1 && forall i: nat | i < |steps| :: StepAt(run, steps, i)
  }

  ghost predicate ClearAt(run: seq<State>, steps: seq<Step>, i: nat)
    requires |run| == |steps| + 1 && i < |steps|
  {
    ClearStep(run[i], steps[i])
  }

  /** From step `from` on, buses are taken back only when that is clear. */
  ghost predicate ClearFrom(run: seq<State>, steps: seq<Step>, from: nat)
    requires |run| == |steps| + 1
  {
    forall i: nat | from <= i < |steps| :: ClearAt(run, steps, i)
  }

  /** A whole run whose retractions are clear. */
  ghost predicate Run(run: seq<State>, steps: seq<Step>) {
    Path(run, steps) && Initial(run[0]) && ClearFrom(run, steps, 0)
  }

  lemma InitialInv(s: State)
    requires Initial(s)
    ensures Inv(s)
  {
    forall x: Id ensures CountOk(s, x) { assert Holders(s.makers, x) == {}; }
  }

  lemma {:induction false} PathInv(run: seq<State>, steps: seq<Step>, from: nat, n: nat)
    requires Path(run, steps) && from <= n <= |steps| && Inv(run[from]) && ClearFrom(run, steps, from)
    ensures Inv(run[n])
    decreases n
  {
    if n > from {
      PathInv(run, steps, from, n - 1);
      assert StepAt(run, steps, n - 1) && ClearAt(run, steps, n - 1);
      StepInv(run[n - 1], steps[n - 1]);
    }
  }

  lemma RunInv(run: seq<State>, steps: seq<Step>, n: nat)
    requires Run(run, steps) && n <= |steps|
    ensures Inv(run[n])
  {
    InitialInv(run[0]);
    PathInv(run, steps, 0, n);
  }

  /** The parent of a live object is still registered. */
  lemma LiveChild(s: State, c: Id, x: Id)
    requires Inv(s) && c in s.live && IsChild(s, c, x)
    ensures x in s.registered
  {
    assert LiveOk(s, c);
    if c in s.registered {
      assert RegisteredOk(s, c);
    } else if c in s.deaths && s.deaths[c].Erased? {
      assert DeathOk(s, c);
    } else {
      assert MakerOk(s, s.nodes[c].maker.value);
    }
  }

  /** In every run no object outlives its parent: a live device's bus and a live bus's adapter are live. */
  lemma NoOrphans(run: seq<State>, steps: seq<Step>, n: nat, x: Id)
    requires Run(run, steps) && n <= |steps| && x in run[n].live
    ensures x in run[n].nodes
    ensures run[n].nodes[x].parent.Some? ==> run[n].nodes[x].parent.value in run[n].live
  {
    RunInv(run, steps, n);
    var s := run[n];
    assert LiveOk(s, x);
    if s.nodes[x].parent.Some? {
      LiveChild(s, x, s.nodes[x].parent.value);
      assert RegisteredOk(s, s.nodes[x].parent.value);
    }
  }

  /** Whether the step frees `x`, at the end of its destruction or of its retraction. */
  ghost predicate Frees(s: State, step: Step, x: Id) {
    || step == Free(x)
    || (step.FreeRetracted? && step.t in s.makers && s.makers[step.t].phase == Retracted(x))
  }

  /** An object is freed, once, only when nothing under it is registered or live, and nothing under it
      has still to be freed by a destruction. */
  lemma FreedOnlyWhenEmpty(run: seq<State>, steps: seq<Step>, n: nat, step: Step, x: Id, c: Id)
    requires Run(run, steps) && n <= |steps| && Enabled(run[n], step) && Frees(run[n], step, x)
    ensures x in run[n].live && x !in Do(run[n], step).live
    ensures IsChild(run[n], c, x) ==>
              c !in run[n].registered && c !in run[n].live && (c in run[n].deaths ==> step.FreeRetracted? && run[n].deaths[c].Freed?)
  {
    RunInv(run, steps, n);
    var s := run[n];
    assert (c in s.registered ==> RegisteredOk(s, c)) && (c in s.deaths ==> DeathOk(s, c));
    if step.Free? {
      assert DeathOk(s, x) && Childless(s, x);
    } else {
      assert MakerOk(s, step.t);
    }
    if IsChild(s, c, x) && c in s.live { LiveChild(s, c, x); }
  }

  /** Likewise no creation below it, at any depth, is in progress. */
  lemma FreedOnlyWhenUncreated(run: seq<State>, steps: seq<Step>, n: nat, step: Step, x: Id, t: nat)
    requires Run(run, steps) && n <= |steps| && Enabled(run[n], step) && Frees(run[n], step, x)
    requires t in run[n].makers && !run[n].makers[t].phase.Settled?
    ensures x !in Above(run[n], run[n].makers[t].parent)
  {
    RunInv(run, steps, n);
    var s := run[n];
    var p := s.makers[t].parent;
    assert MakerOk(s, t) && RegisteredOk(s, p);
    if step.Free? { assert DeathOk(s, x); } else { assert MakerOk(s, step.t); }
  }

  // ---------------------------------------------------------------- what creation and destruction achieve

  /** A commit registers the object it constructed, under its parent. */
  lemma CommitRegisters(run: seq<State>, steps: seq<Step>, n: nat, t: nat)
    requires Run(run, steps) && n < |steps| && steps[n] == Commit(t)
    ensures t in run[n].makers && Builds(run[n].makers[t])
    ensures var m, s := run[n].makers[t], run[n + 1];
            var x := m.phase.id;
            x !in run[n].registered && x in s.registered && x in s.live && IsChild(s, x, m.parent) && m.parent in s.registered
  {
    assert StepAt(run, steps, n);
    RunInv(run, steps, n);
    assert MakerOk(run[n], t);
  }

  ghost predicate Unregisters(s: State, step: Step, x: Id) {
    step == Erase(x) || (step.Retract? && step.t in s.makers && s.makers[step.t].phase == Published(x))
  }

  /** A registered object stays registered, and live, until its own destruction erases it, or its own
      creator takes it back. */
  lemma StaysRegistered(run: seq<State>, steps: seq<Step>, n: nat, x: Id)
    requires Run(run, steps) && n < |steps| && x in run[n].registered && !Unregisters(run[n], steps[n], x)
    ensures x in run[n + 1].registered && x in run[n + 1].live
  {
    assert StepAt(run, steps, n);
    RunInv(run, steps, n + 1);
    assert steps[n].Retract? ==> run[n].makers[steps[n].t].phase.Published?;
    assert x in run[n + 1].registered;
    assert RegisteredOk(run[n + 1], x);
  }

  /** What a creation gave up, or a destruction freed, is gone for good. */
  lemma {:induction false} GoneForever(run: seq<State>, steps: seq<Step>, m: nat, n: nat, x: Id)
    requires Run(run, steps) && m <= n <= |steps| && x in run[m].nodes && x !in run[m].live
    ensures x in run[n].nodes && x !in run[n].live && x !in run[n].registered
    decreases n
  {
    if n > m {
      GoneForever(run, steps, m, n - 1, x);
      assert StepAt(run, steps, n - 1);
      StaysGone(run[n - 1], steps[n - 1], x);
    }
    RunInv(run, steps, n);
    assert x in run[n].registered ==> RegisteredOk(run[n], x);
  }

  lemma StaysGone(s: State, step: Step, x: Id)
    requires Enabled(s, step) && x in s.nodes && x !in s.live
    ensures x in Do(s, step).nodes && x !in Do(s, step).live
  {
  }

  /** A destruction that has ended leaves its object neither registered nor live, ever again. */
  lemma DestroyedIsGone(run: seq<State>, steps: seq<Step>, m: nat, n: nat, step: Step, x: Id)
    requires Run(run, steps) && m < n <= |steps| && steps[m] == step && (Frees(run[m], step, x) || step == End(x))
    ensures x !in run[n].live && x !in run[n].registered
  {
    RunInv(run, steps, m);
    assert StepAt(run, steps, m);
    if step.FreeRetracted? {
      assert MakerOk(run[m], step.t);
    } else {
      assert DeathOk(run[m], x);
      if step.End? { FreedIsNotLive(run[m], x); }
    }
    GoneForever(run, steps, m + 1, n, x);
  }

  lemma FreedIsNotLive(s: State, x: Id)
    requires Inv(s) && x in s.deaths && s.deaths[x].Freed?
    ensures x !in s.live
  {
    forall t | t in s.makers
      ensures Builds(s.makers[t]) || s.makers[t].phase.Retracted? ==> s.makers[t].phase.id !in s.deaths
    {
      assert MakerOk(s, t);
    }
    assert DeathOk(s, x) && (x in s.live ==> LiveOk(s, x));
  }

  /** The counts are exact: each object counts the creations that have not given up their hold on it,
      and a creation in progress holds its parent and its parent's parent. */
  lemma CreationsAreCounted(run: seq<State>, steps: seq<Step>, n: nat, x: Id, t: nat)
    requires Run(run, steps) && n <= |steps|
    ensures Tally(run[n].counts, x) == |Holders(run[n].makers, x)|
    ensures t in run[n].makers && !run[n].makers[t].phase.Settled? ==> run[n].makers[t].holds == Above(run[n], run[n].makers[t].parent)
  {
    RunInv(run, steps, n);
    assert CountOk(run[n], x);
    if t in run[n].makers { assert MakerOk(run[n], t); }
  }

  // ---------------------------------------------------------------- nobody waits for ever

  /** A creation that still holds a count. */
  ghost predicate Busy(s: State, t: nat) {
    t in s.makers && (!s.makers[t].phase.Settled? || s.makers[t].holds != {})
  }

  /** Steps that finish something begun, or begin the destruction of a child of a dying object. */
  ghost predicate Finishes(s: State, step: Step) {
    match step
    case RegisterAdapter(_) => false
    case Lead(_, _) => false
    case LeadFails(_, _) => false
    case Begin(c) => exists x :: x in s.deaths && IsChild(s, c, x)
    case _ => true
  }

  lemma BusyCreationMoves(s: State, t: nat) returns (step: Step)
    requires Inv(s) && Busy(s, t)
    ensures Enabled(s, step) && Finishes(s, step)
  {
    var m := s.makers[t];
    assert MakerOk(s, t);
    match m.phase
    case Leading => step := Abandon(t);
    case Built(_) => step := Abandon(t);
    case Routed(_) => step := Abandon(t);
    case Published(_) => step := Initialize(t);
    case Retracted(_) => step := FreeRetracted(t);
    case Settled =>
      var p :| p in m.holds;
      step := EndCount(t, if m.parent in m.holds then m.parent else p);
  }

  function Rank(level: Level): nat {
    match level
    case Adapter => 2
    case Bus => 1
    case Device => 0
  }

  lemma UncountedWithoutBusy(s: State, x: Id)
    requires Inv(s) && forall t :: !Busy(s, t)
    ensures x !in s.counts
  {
    assert CountOk(s, x) && Holders(s.makers, x) == {} by {
      forall t | t in s.makers ensures x !in s.makers[t].holds { assert !Busy(s, t); }
    }
  }

  /** With no creation in progress, a destruction can move, or one below it can. */
  lemma {:induction false} DestructionMoves(s: State, x: Id) returns (step: Step)
    requires Inv(s) && (forall t :: !Busy(s, t)) && x in s.deaths && x in s.nodes
    ensures Enabled(s, step) && Finishes(s, step)
    decreases Rank(s.nodes[x].level)
  {
    UncountedWithoutBusy(s, x);
    match s.deaths[x]
    case Begun => step := NoCreations(x);
    case CreationsDone =>
      if c :| c in s.deaths && IsChild(s, c, x) {
        assert NodeOk(s, c) && NodeOk(s, x);
        step := DestructionMoves(s, c);
      } else if c :| c in s.registered && IsChild(s, c, x) {
        step := Begin(c);
      } else {
        step := NoChildren(x);
      }
    case ChildrenDone => step := Erase(x);
    case Erased => step := Free(x);
    case Freed => step := End(x);
  }

  /** In every run, as long as a creation or a destruction is unfinished, somebody can take a step that
      finishes something, without anything new being asked for: nobody waits for ever. */
  lemma NoDeadlock(run: seq<State>, steps: seq<Step>, n: nat) returns (step: Step)
    requires Run(run, steps) && n <= |steps| && (run[n].deaths != map[] || exists t :: Busy(run[n], t))
    ensures Enabled(run[n], step) && Finishes(run[n], step)
  {
    RunInv(run, steps, n);
    var s := run[n];
    if t :| Busy(s, t) {
      step := BusyCreationMoves(s, t);
    } else {
      var x :| x in s.deaths;
      assert DeathOk(s, x);
      step := DestructionMoves(s, x);
    }
  }

  /** The steps a creation has left, at most. */
  function StepsLeft(m: Maker): nat {
    |m.holds| + match m.phase
                case Leading => 5
                case Built(_) => 4
                case Routed(_) => 3
                case Published(_) => 2
                case Retracted(_) => 1
                case Settled => 0
  }

  predicate OfCreation(step: Step, t: nat) {
    || (step.Build? && step.t == t) || step == PublishRoutes(t) || step == Commit(t) || step == Abandon(t)
    || (step.EndCount? && step.t == t) || step == Initialize(t) || step == Retract(t) || step == FreeRetracted(t)
  }

  /** Every step of a creation leaves it less to do, and nobody else's step gives it more: it takes at
      most seven. */
  lemma CreationAdvances(s: State, step: Step, t: nat)
    requires Enabled(s, step) && t in s.makers
    ensures t in Do(s, step).makers && StepsLeft(Do(s, step).makers[t]) <= StepsLeft(s.makers[t])
    ensures OfCreation(step, t) ==> StepsLeft(Do(s, step).makers[t]) < StepsLeft(s.makers[t])
  {
    if OfCreation(step, t) { OwnAdvance(s, step, t); } else { OthersAreLeft(s, step, t); }
  }

  lemma OthersAreLeft(s: State, step: Step, t: nat)
    requires Enabled(s, step) && t in s.makers && !OfCreation(step, t)
    ensures t in Do(s, step).makers && Do(s, step).makers[t] == s.makers[t]
  {
  }

  lemma OwnAdvance(s: State, step: Step, t: nat)
    requires Enabled(s, step) && t in s.makers && OfCreation(step, t)
    ensures t in Do(s, step).makers && StepsLeft(Do(s, step).makers[t]) < StepsLeft(s.makers[t])
  {
    var m, m' := s.makers[t], Do(s, step).makers[t];
    if step.EndCount? {
      assert m'.holds == m.holds - {step.parent} && m'.phase == m.phase;
    } else {
      assert m'.holds == m.holds;
    }
  }

  function StageRank(stage: Stage): nat {
    match stage
    case Begun => 0
    case CreationsDone => 1
    case ChildrenDone => 2
    case Erased => 3
    case Freed => 4
  }

  /** A destruction begins at the first stage, each of its own steps takes it to the next, its last ends
      it, and no other step touches it. */
  lemma DestructionAdvances(s: State, step: Step, x: Id)
    requires Enabled(s, step)
    ensures step == Begin(x) ==> x !in s.deaths && x in Do(s, step).deaths && Do(s, step).deaths[x] == Begun
    ensures x in s.deaths ==>
              if step == End(x) then x !in Do(s, step).deaths
              else
                && x in Do(s, step).deaths
                && StageRank(Do(s, step).deaths[x]) == StageRank(s.deaths[x])
                     + if step in {NoCreations(x), NoChildren(x), Erase(x), Free(x)} then 1 else 0
  {
  }

  /** While an object is being destroyed no creation is begun, routed or committed under it, nor under
      its children. */
  lemma DyingAdmitsNobody(s: State, x: Id, t: nat, p: Id)
    requires x in s.deaths && (p == x || IsChild(s, p, x))
    ensures !Enabled(s, Lead(t, p)) && !Enabled(s, LeadFails(t, p))
    ensures t in s.makers && s.makers[t].parent == p ==> !Enabled(s, PublishRoutes(t)) && !Enabled(s, Commit(t))
  {
    assert x in Above(s, p);
  }

  // ---------------------------------------------------------------- when a bus may be taken back

  /** Memory has gone wrong, or must: a live object has no live parent, or a thread is on its way to
      free an object that is free already. */
  ghost predicate Corrupt(s: State) {
    || (exists c :: c in s.live && c in s.nodes && s.nodes[c].parent.Some? && s.nodes[c].parent.value !in s.live)
    || (exists x :: x in s.deaths && !s.deaths[x].Freed? && x !in s.live)
    || (exists t :: t in s.makers && s.makers[t].phase.Retracted? && s.makers[t].phase.id !in s.live)
  }

  lemma InvIsNotCorrupt(s: State)
    requires Inv(s)
    ensures !Corrupt(s)
  {
    forall c | c in s.live && c in s.nodes && s.nodes[c].parent.Some? ensures s.nodes[c].parent.value in s.live {
      LiveChild(s, c, s.nodes[c].parent.value);
      assert RegisteredOk(s, s.nodes[c].parent.value);
    }
    forall x | x in s.deaths && !s.deaths[x].Freed? ensures x in s.live { assert DeathOk(s, x); }
    forall t | t in s.makers && s.makers[t].phase.Retracted? ensures s.makers[t].phase.id in s.live { assert MakerOk(s, t); }
  }

  lemma {:induction false} FreshId(ids: set<Id>) returns (x: Id)
    ensures x !in ids && forall y | y in ids :: y < x
    decreases |ids|
  {
    if ids == {} {
      x := 0;
    } else {
      var y :| y in ids;
      var z := FreshId(ids - {y});
      x := if z <= y then y + 1 else z;
      assert forall w | w in ids :: w == y || w in ids - {y};
    }
  }

  lemma Extend(run: seq<State>, steps: seq<Step>, step: Step) returns (run': seq<State>, steps': seq<Step>)
    requires Path(run, steps) && Enabled(run[|steps|], step)
    ensures Path(run', steps') && |steps'| == |steps| + 1 && run'[|steps'|] == Do(run[|steps|], step)
    ensures run'[..|run|] == run && steps'[..|steps|] == steps && steps'[|steps|] == step
  {
    run', steps' := run + [Do(run[|steps|], step)], steps + [step];
    forall i: nat | i < |steps'| ensures StepAt(run', steps', i) {
      if i < |steps| { assert StepAt(run, steps, i); }
    }
  }

  /** Taking a bus back and freeing it, and nothing else. */
  lemma TakeBack(s: State, t: nat) returns (run: seq<State>, steps: seq<Step>)
    requires Enabled(s, Retract(t))
    ensures Path(run, steps) && steps == [Retract(t), FreeRetracted(t)] && run[0] == s
    ensures run[1] == Do(s, Retract(t)) && run[2] == Do(run[1], FreeRetracted(t))
  {
    run, steps := [s], [];
    run, steps := Extend(run, steps, Retract(t));
    run, steps := Extend(run, steps, FreeRetracted(t));
  }

  /** A retraction that is not clear can be continued, within two more steps, to a corrupt state. */
  lemma UnclearRetractionCorrupts(s: State, t: nat) returns (run: seq<State>, steps: seq<Step>)
    requires Inv(s) && Enabled(s, Retract(t)) && !Clear(s, s.makers[t].phase.id)
    ensures Path(run, steps) && 1 <= |steps| <= 3 && run[0] == s && steps[0] == Retract(t)
    ensures ClearFrom(run, steps, 1) && Corrupt(run[|steps|])
  {
    var x := s.makers[t].phase.id;
    assert MakerOk(s, t);
    if x !in s.live {
      run, steps := Extend([s], [], Retract(t));
      assert run[1].makers[t].phase == Retracted(x);
    } else {
      run, steps := TakeBack(s, t);
      if x in s.registered && x !in s.deaths {
        run, steps := UnclearChildren(s, t, run, steps);
      } else {
        DyingOrGone(s, t, x);
        assert x in run[2].deaths && !run[2].deaths[x].Freed? && x !in run[2].live;
      }
    }
  }

  /** A live bus that is published but not registered, or already dying, has a destruction under way. */
  lemma DyingOrGone(s: State, t: nat, x: Id)
    requires Inv(s) && t in s.makers && s.makers[t].phase == Published(x) && x in s.live
    requires x !in s.registered || x in s.deaths
    ensures x in s.deaths && !s.deaths[x].Freed?
  {
    assert LiveOk(s, x) && MakerOk(s, t);
    if x in s.deaths { assert DeathOk(s, x); }
  }

  lemma UnclearChildren(s: State, t: nat, taken: seq<State>, took: seq<Step>) returns (run: seq<State>, steps: seq<Step>)
    requires Inv(s) && Enabled(s, Retract(t)) && !Clear(s, s.makers[t].phase.id)
    requires s.makers[t].phase.id in s.registered && s.makers[t].phase.id !in s.deaths
    requires Path(taken, took) && took == [Retract(t), FreeRetracted(t)] && taken[0] == s
    requires taken[1] == Do(s, Retract(t)) && taken[2] == Do(taken[1], FreeRetracted(t))
    ensures Path(run, steps) && 1 <= |steps| <= 3 && run[0] == s && steps[0] == Retract(t)
    ensures ClearFrom(run, steps, 1) && Corrupt(run[|steps|])
  {
    var x, u := s.makers[t].phase.id, taken[2];
    run, steps := taken, took;
    assert MakerOk(s, t) && NodeOk(s, x);
    if c :| c in s.registered && IsChild(s, c, x) {
      assert RegisteredOk(s, c);
      assert c in u.live && u.nodes[c].parent.value !in u.live;
    } else if c :| c in s.deaths && !s.deaths[c].Freed? && IsChild(s, c, x) {
      assert DeathOk(s, c);
      assert c in u.live && u.nodes[c].parent.value !in u.live;
    } else {
      var m :| m in s.makers && MakesUnder(s, m, x);
      assert MakerOk(s, m) && m != t;
      if Builds(s.makers[m]) {
        var c := s.makers[m].phase.id;
        assert c in u.live && u.nodes[c].parent.value !in u.live;
      } else {
        run, steps := BuildsAnOrphan(taken, took, m);
      }
    }
  }

  /** A creation that is still to construct its object does so under a parent no longer live. */
  lemma BuildsAnOrphan(taken: seq<State>, took: seq<Step>, m: nat) returns (run: seq<State>, steps: seq<Step>)
    requires Path(taken, took) && |took| == 2 && took[1].FreeRetracted?
    requires var u := taken[2]; m in u.makers && u.makers[m].phase.Leading? && u.makers[m].parent in u.nodes && u.makers[m].parent !in u.live
    ensures Path(run, steps) && |steps| == 3 && run[..3] == taken && steps[..2] == took && ClearFrom(run, steps, 1)
    ensures Corrupt(run[3])
  {
    var u := taken[2];
    var c := FreshId(u.nodes.Keys + {u.makers[m].parent});
    run, steps := Extend(taken, took, Build(m, c));
    assert steps[1] == took[1];
    var v := run[3];
    assert c in v.live && v.nodes[c].parent == Some(u.makers[m].parent) && u.makers[m].parent !in v.live;
  }

  /** The condition is exact: a bus is taken back in the clear if and only if, however the run goes on,
      nothing is ever corrupt. */
  lemma RetractionIsSafeExactlyWhen(s: State, t: nat)
    requires Inv(s) && Enabled(s, Retract(t))
    ensures Clear(s, s.makers[t].phase.id) <==>
            forall run, steps |
              && Path(run, steps) && |steps| > 0 && run[0] == s && steps[0] == Retract(t) && ClearFrom(run, steps, 1)
              :: !Corrupt(run[|steps|])
  {
    if Clear(s, s.makers[t].phase.id) {
      forall run, steps |
        && Path(run, steps) && |steps| > 0 && run[0] == s && steps[0] == Retract(t) && ClearFrom(run, steps, 1)
        ensures !Corrupt(run[|steps|])
      {
        assert StepAt(run, steps, 0);
        StepInv(s, Retract(t));
        PathInv(run, steps, 1, |steps|);
        InvIsNotCorrupt(run[|steps|]);
      }
    } else {
      var run, steps := UnclearRetractionCorrupts(s, t);
    }
  }

  /** What the rollback could test with the counts alone is enough: no creation counted on the bus, no
      device of it registered or being deleted, and nobody deleting the bus. */
  lemma UncountedIsClear(s: State, x: Id)
    requires Inv(s) && x in s.registered && x !in s.deaths && x !in s.counts
    requires forall c | c in s.registered + s.deaths.Keys :: !IsChild(s, c, x)
    ensures Clear(s, x)
  {
    forall t | t in s.makers ensures !MakesUnder(s, t, x) {
      assert MakerOk(s, t) && CountOk(s, x);
      UncountedIsUnheld(s, x, t);
    }
  }

  /** But not exact: a creation that has failed is counted a little longer than it can do harm. */
  lemma CountedMayBeClear() returns (run: seq<State>, steps: seq<Step>)
    ensures Run(run, steps)
    ensures var s := run[|steps|]; Enabled(s, Retract(1)) && s.makers[1].phase == Published(1) && 1 in s.counts && Clear(s, 1)
  {
    run, steps := PublishedBus();
    run, steps := Extend(run, steps, LeadFails(2, 1));
  }

  lemma PublishedBus() returns (run: seq<State>, steps: seq<Step>)
    ensures Run(run, steps) && (forall i | 0 <= i < |steps| :: !steps[i].Retract?)
    ensures run[|steps|] == State(map[0 := Node(Adapter, None, None), 1 := Node(Bus, Some(0), Some(1))], {0, 1}, {0, 1}, map[],
                                  map[0 := 1], map[1 := Maker(0, {0}, Published(1))])
  {
    run, steps := [State(map[], {}, {}, map[], map[], map[])], [];
    run, steps := Extend(run, steps, RegisterAdapter(0));
    run, steps := Extend(run, steps, Lead(1, 0));
    assert Above(run[1], 0) == {0} && Raise(map[], {0}) == map[0 := 1];
    run, steps := Extend(run, steps, Build(1, 1));
    run, steps := Extend(run, steps, Commit(1));
  }

  /** Bus 1 is published, and thread 2 is counted on it. */
  lemma CountedBus() returns (run: seq<State>, steps: seq<Step>)
    ensures Path(run, steps) && Initial(run[0])
    ensures var s := run[|steps|];
            && s.nodes == map[0 := Node(Adapter, None, None), 1 := Node(Bus, Some(0), Some(1))]
            && s.registered == {0, 1} && s.live == {0, 1} && s.deaths == map[]
            && s.makers == map[1 := Maker(0, {0}, Published(1)), 2 := Maker(1, {1, 0}, Leading)]
  {
    run, steps := PublishedBus();
    assert Above(run[|steps|], 1) == {1, 0};
    run, steps := Extend(run, steps, Lead(2, 1));
  }

  lemma RoutedDevice() returns (run: seq<State>, steps: seq<Step>)
    ensures Path(run, steps) && Initial(run[0])
    ensures var s := run[|steps|];
            && 2 in s.nodes && s.nodes[2] == Node(Device, Some(1), Some(2)) && 2 in s.live && s.deaths == map[]
            && s.makers == map[1 := Maker(0, {0}, Published(1)), 2 := Maker(1, {1, 0}, Routed(2))]
  {
    run, steps := CountedBus();
    run, steps := Extend(run, steps, Build(2, 2));
    run, steps := Extend(run, steps, PublishRoutes(2));
  }

  /** The code takes the bus back unconditionally.  Here thread 2 is about to construct a device under
      bus 1 when thread 1 takes it back, and constructs one on a freed bus.  It cannot publish its routes
      any more, so it will have to give this device up. */
  lemma RetractionOrphansADevice() returns (run: seq<State>, steps: seq<Step>)
    ensures Path(run, steps) && Initial(run[0])
    ensures var s := run[|steps|];
            && 2 in s.live && 2 in s.nodes && s.nodes[2] == Node(Device, Some(1), Some(2)) && 1 !in s.live
            && !Enabled(s, PublishRoutes(2)) && !Enabled(s, Commit(2))
  {
    run, steps := CountedBus();
    run, steps := Extend(run, steps, Retract(1));
    run, steps := Extend(run, steps, FreeRetracted(1));
    run, steps := Extend(run, steps, Build(2, 2));
  }

  /** If it has published its routes before, it even registers the device on the freed bus. */
  lemma RetractionOrphansARegisteredDevice() returns (run: seq<State>, steps: seq<Step>)
    ensures Path(run, steps) && Initial(run[0])
    ensures var s := run[|steps|];
            && 2 in s.registered && 2 in s.live && IsChild(s, 2, 1)
            && 1 !in s.live && (forall t | t in s.makers :: s.makers[t].phase.Settled?)
  {
    run, steps := RoutedDevice();
    run, steps := Extend(run, steps, Retract(1));
    run, steps := Extend(run, steps, FreeRetracted(1));
    run, steps := Extend(run, steps, Commit(2));
  }
}
