/** Nested public operations: each thread keeps a stack of `DeviceOperation` frames, and a frame whose
    gate is already on the stack gives its admission back at once.  The gate words are those of
    `OperationGate`; an adapter update is admitted directly, without a frame
    (src/driver_manager.cc:49-89, 186-212).
 */
module DeviceOperation {
  import opened GateWord

  type GateId = nat

  datatype Option<+T> = None | Some(value: T)

  datatype Frame = Frame(gate: GateId, owns: bool)

  datatype Outcome = Constructed(leaves: bool) | Empty | Threw

  predicate Active(frames: seq<Frame>, gate: GateId) {
    exists i :: 0 <= i < |frames| && frames[i].gate == gate
  }

  function Pushed(frames: seq<Frame>, gate: GateId): seq<Frame> {
    frames + [Frame(gate, !Active(frames, gate))]
  }

  /** One thread's list of live operations, outermost first. */
  class Thread {
    var frames: seq<Frame>

    constructor ()
      ensures frames == []
    {
      frames := [];
    }

    /** The constructor of an operation whose gate has been entered, or was refused. */
    method Construct(gate: Option<GateId>, required: bool) returns (outcome: Outcome)
      modifies this
      ensures gate.None? ==> frames == old(frames) && outcome == if required then Threw else Empty
      ensures gate.Some? ==> frames == Pushed(old(frames), gate.value)
      ensures gate.Some? ==> outcome == Constructed(Active(old(frames), gate.value))
    {
      if gate.None? {
        return if required then Threw else Empty;
      }
      var active := |frames|;
      while active > 0
        invariant 0 <= active <= |frames| && frames == old(frames)
        invariant forall i | active <= i < |frames| :: frames[i].gate != gate.value
      {
        active := active - 1;
        if frames[active].gate == gate.value {
          frames := frames + [Frame(gate.value, false)];
          return Constructed(true);
        }
      }
      frames := frames + [Frame(gate.value, true)];
      return Constructed(false);
    }

    /** The destructor of the innermost operation, and the gate it leaves. */
    method Destruct() returns (leaves: Option<GateId>)
      requires frames != []
      modifies this
      ensures frames == old(frames)[..|old(frames)| - 1]
      ensures var top := old(frames)[|old(frames)| - 1]; leaves == if top.owns then Some(top.gate) else None
    {
      var top := frames[|frames| - 1];
      frames := frames[..|frames| - 1];
      return if top.owns then Some(top.gate) else None;
    }
  }

  // ---------------------------------------------------------------- all threads

  /** `entering` are the threads between a successful `TryEnter` and the constructor, `updates` the
      adapter updates in progress. */
  datatype State = State(
    words: map<GateId, nat>, stacks: map<nat, seq<Frame>>, entering: map<nat, GateId>, updates: map<nat, GateId>)

  datatype Step =
    | Register(g: GateId) | Retire(g: GateId) | StartThread(t: nat)
    | TryEnter(t: nat, g: GateId) | Construct(t: nat) | Destruct(t: nat)
    | BeginUpdate(u: nat, g: GateId) | EndUpdate(u: nat)

  predicate Enabled(s: State, step: Step) {
    match step
    case Register(g) => g !in s.words
    case Retire(g) => g in s.words
    case StartThread(t) => t !in s.stacks
    case TryEnter(t, g) => t in s.stacks && t !in s.entering && g in s.words && Admits(s.words[g])
    case Construct(t) => t in s.stacks && t in s.entering && s.entering[t] in s.words
    case Destruct(t) =>
      && t in s.stacks && t !in s.entering && s.stacks[t] != []
      && s.stacks[t][|s.stacks[t]| - 1].gate in s.words
    case BeginUpdate(u, g) => u !in s.updates && g in s.words && Admits(s.words[g])
    case EndUpdate(u) => u in s.updates && s.updates[u] in s.words
  }

  function Enter(words: map<GateId, nat>, g: GateId): map<GateId, nat>
    requires g in words
  {
    words[g := words[g] + 1]
  }

  function Leave(words: map<GateId, nat>, g: GateId): map<GateId, nat>
    requires g in words
  {
    words[g := Decremented(words[g])]
  }

  function Do(s: State, step: Step): State
    requires Enabled(s, step)
  {
    match step
    case Register(g) => s.(words := s.words[g := 0])
    case Retire(g) => s.(words := s.words[g := WithRetiring(s.words[g])])
    case StartThread(t) => s.(stacks := s.stacks[t := []])
    case TryEnter(t, g) => s.(words := Enter(s.words, g), entering := s.entering[t := g])
    case Construct(t) =>
      var g := s.entering[t];
      s.(words := if Active(s.stacks[t], g) then Leave(s.words, g) else s.words,
         stacks := s.stacks[t := Pushed(s.stacks[t], g)], entering := s.entering - {t})
    case Destruct(t) =>
      var rest, top := s.stacks[t][..|s.stacks[t]| - 1], s.stacks[t][|s.stacks[t]| - 1];
      s.(words := if top.owns then Leave(s.words, top.gate) else s.words, stacks := s.stacks[t := rest])
    case BeginUpdate(u, g) => s.(words := Enter(s.words, g), updates := s.updates[u := g])
    case EndUpdate(u) => s.(words := Leave(s.words, s.updates[u]), updates := s.updates - {u})
  }

  // ---------------------------------------------------------------- the invariant

  ghost function Inside(stacks: map<nat, seq<Frame>>, g: GateId): set<nat> {
    set t | t in stacks && Active(stacks[t], g)
  }

  ghost function On(m: map<nat, GateId>, g: GateId): set<nat> {
    set t | t in m && m[t] == g
  }

  ghost predicate CountOk(s: State, g: GateId)
    requires g in s.words
  {
    && s.words[g] < 2 * RETIRING
    && Count(s.words[g]) == |Inside(s.stacks, g)| + |On(s.entering, g)| + |On(s.updates, g)|
  }

  /** A frame owns the admission exactly when it is the outermost one of its gate. */
  ghost predicate FrameOk(frames: seq<Frame>, i: nat)
    requires i < |frames|
  {
    frames[i].owns <==> !Active(frames[..i], frames[i].gate)
  }

  ghost predicate StackOk(s: State, frames: seq<Frame>) {
    forall i: nat | i < |frames| :: FrameOk(frames, i) && frames[i].gate in s.words
  }

  ghost predicate Inv(s: State) {
    && (forall g | g in s.words :: CountOk(s, g))
    && (forall t | t in s.stacks :: StackOk(s, s.stacks[t]))
    && (forall t | t in s.entering :: t in s.stacks && s.entering[t] in s.words)
    && (forall u | u in s.updates :: s.updates[u] in s.words)
  }

  lemma PushedStack(s: State, frames: seq<Frame>, g: GateId)
    requires StackOk(s, frames) && g in s.words
    ensures StackOk(s, Pushed(frames, g))
    ensures forall h :: Active(Pushed(frames, g), h) <==> Active(frames, h) || h == g
  {
    var all := Pushed(frames, g);
    forall i: nat | i < |all| ensures FrameOk(all, i) && all[i].gate in s.words {
      if i < |frames| {
        assert FrameOk(frames, i) && all[..i] == frames[..i];
      } else {
        assert all[..i] == frames;
      }
    }
    forall h ensures Active(all, h) <==> Active(frames, h) || h == g {
      if i :| 0 <= i < |frames| && frames[i].gate == h { assert all[i].gate == h; }
      assert all[|frames|].gate == g;
    }
  }

  lemma PoppedStack(s: State, frames: seq<Frame>)
    requires StackOk(s, frames) && frames != []
    ensures var rest, top := frames[..|frames| - 1], frames[|frames| - 1];
            && StackOk(s, rest)
            && (forall h :: Active(frames, h) <==> Active(rest, h) || h == top.gate)
            && (top.owns <==> !Active(rest, top.gate))
  {
    var rest, top := frames[..|frames| - 1], frames[|frames| - 1];
    assert FrameOk(frames, |frames| - 1);
    forall i: nat | i < |rest| ensures FrameOk(rest, i) && rest[i].gate in s.words {
      assert FrameOk(frames, i) && rest[..i] == frames[..i];
    }
    forall h ensures Active(frames, h) <==> Active(rest, h) || h == top.gate {
      if i :| 0 <= i < |rest| && rest[i].gate == h { assert frames[i].gate == h; }
    }
  }

  lemma SetOn(m: map<nat, GateId>, t: nat, g: GateId, h: GateId)
    requires t !in m
    ensures |On(m[t := g], h)| == |On(m, h)| + if h == g then 1 else 0
  {
    assert On(m[t := g], h) == if h == g then On(m, h) + {t} else On(m, h);
  }

  lemma RemoveOn(m: map<nat, GateId>, t: nat, h: GateId)
    requires t in m
    ensures |On(m, h)| == |On(m - {t}, h)| + if h == m[t] then 1 else 0
  {
    assert On(m, h) == if h == m[t] then On(m - {t}, h) + {t} else On(m - {t}, h);
  }

  lemma SetInside(stacks: map<nat, seq<Frame>>, t: nat, frames: seq<Frame>, g: GateId)
    requires t in stacks
    ensures |Inside(stacks[t := frames], g)| + (if Active(stacks[t], g) then 1 else 0)
            == |Inside(stacks, g)| + (if Active(frames, g) then 1 else 0)
  {
    var others := Inside(stacks, g) - {t};
    assert Inside(stacks, g) == if Active(stacks[t], g) then others + {t} else others;
    assert Inside(stacks[t := frames], g) == if Active(frames, g) then others + {t} else others;
  }

  lemma ConstructCount(s: State, t: nat, g: GateId)
    requires Enabled(s, Construct(t)) && g in s.words && CountOk(s, g) && StackOk(s, s.stacks[t])
    ensures CountOk(Do(s, Construct(t)), g)
  {
    PushedStack(s, s.stacks[t], s.entering[t]);
    SetInside(s.stacks, t, Pushed(s.stacks[t], s.entering[t]), g);
    RemoveOn(s.entering, t, g);
    LeaveCount(s.words[g]);
  }

  lemma EnterCount(word: nat)
    requires word < 2 * RETIRING && Admits(word)
    ensures word + 1 < 2 * RETIRING && Count(word + 1) == Count(word) + 1
  {
    WordArithmetic(word);
  }

  lemma LeaveCount(word: nat)
    requires word < 2 * RETIRING
    ensures Count(word) > 0 ==> Decremented(word) < 2 * RETIRING && Count(Decremented(word)) == Count(word) - 1
  {
    WordArithmetic(word);
  }

  lemma DestructCount(s: State, t: nat, g: GateId)
    requires Enabled(s, Destruct(t)) && g in s.words && CountOk(s, g) && StackOk(s, s.stacks[t])
    ensures CountOk(Do(s, Destruct(t)), g)
  {
    LeaveCount(s.words[g]);
    PoppedStack(s, s.stacks[t]);
    SetInside(s.stacks, t, s.stacks[t][..|s.stacks[t]| - 1], g);
  }

  lemma StepCount(s: State, step: Step, g: GateId)
    requires Inv(s) && Enabled(s, step) && g in Do(s, step).words
    ensures CountOk(Do(s, step), g)
  {
    match step
    case Register(_) =>
      if g == step.g { NewGateIsUnused(s, g); } else { assert CountOk(s, g); }
    case Construct(t) =>
      assert CountOk(s, g) && StackOk(s, s.stacks[t]);
      ConstructCount(s, t, g);
    case Destruct(t) =>
      assert CountOk(s, g) && StackOk(s, s.stacks[t]);
      DestructCount(s, t, g);
    case _ =>
      assert CountOk(s, g);
      OtherCount(s, step, g);
  }

  lemma OtherCount(s: State, step: Step, g: GateId)
    requires Enabled(s, step) && !step.Register? && !step.Construct? && !step.Destruct? && g in s.words && CountOk(s, g)
    ensures CountOk(Do(s, step), g)
  {
    match step
    case StartThread(t) => assert Inside(s.stacks[t := []], g) == Inside(s.stacks, g);
    case TryEnter(t, h) =>
      SetOn(s.entering, t, h, g);
      if g == h { EnterCount(s.words[g]); }
    case BeginUpdate(x, h) =>
      SetOn(s.updates, x, h, g);
      if g == h { EnterCount(s.words[g]); }
    case EndUpdate(x) =>
      RemoveOn(s.updates, x, g);
      LeaveCount(s.words[g]);
    case Retire(_) => WordArithmetic(s.words[g]);
  }

  lemma NewGateIsUnused(s: State, g: GateId)
    requires Inv(s) && g !in s.words
    ensures Inside(s.stacks, g) == {} && On(s.entering, g) == {} && On(s.updates, g) == {}
  {
    forall t | t in s.stacks ensures !Active(s.stacks[t], g) { assert StackOk(s, s.stacks[t]); }
  }

  lemma StepStack(s: State, step: Step, t: nat)
    requires Inv(s) && Enabled(s, step) && t in Do(s, step).stacks
    ensures StackOk(Do(s, step), Do(s, step).stacks[t])
  {
    var u := Do(s, step);
    if t in s.stacks { assert StackOk(s, s.stacks[t]); }
    match step
    case Construct(x) => PushedStack(s, s.stacks[x], s.entering[x]);
    case Destruct(x) => assert StackOk(s, s.stacks[x]); PoppedStack(s, s.stacks[x]);
    case _ =>
  }

  lemma StepInv(s: State, step: Step)
    requires Inv(s) && Enabled(s, step)
    ensures Inv(Do(s, step))
  {
    var u := Do(s, step);
    forall g | g in u.words ensures CountOk(u, g) { StepCount(s, step, g); }
    forall t | t in u.stacks ensures StackOk(u, u.stacks[t]) { StepStack(s, step, t); }
  }

  // ---------------------------------------------------------------- theorems

  ghost predicate Initial(s: State) {
    s == State(map[], map[], map[], map[])
  }

  ghost predicate StepAt(run: seq<State>, steps: seq<Step>, i: nat)
    requires |run| == |steps| + 1 && i < |steps|
  {
    Enabled(run[i], steps[i]) && run[i + 1] == Do(run[i], steps[i])
  }

  ghost predicate Run(run: seq<State>, steps: seq<Step>) {
    |run| == |steps| + 1 && Initial(run[0]) && forall i: nat | i < |steps| :: StepAt(run, steps, i)
  }

  lemma {:induction false} RunInv(run: seq<State>, steps: seq<Step>, n: nat)
    requires Run(run, steps) && n <= |steps|
    ensures Inv(run[n])
  {
    if n > 0 {
      RunInv(run, steps, n - 1);
      assert StepAt(run, steps, n - 1);
      StepInv(run[n - 1], steps[n - 1]);
    }
  }

  /** In a settled state of any run a gate counts each thread inside it once, however deep it nests,
      plus the adapter updates. */
  lemma SettledCount(run: seq<State>, steps: seq<Step>, n: nat, g: GateId)
    requires Run(run, steps) && n <= |steps| && g in run[n].words && run[n].entering == map[]
    ensures Count(run[n].words[g]) == |Inside(run[n].stacks, g)| + |On(run[n].updates, g)|
  {
    RunInv(run, steps, n);
    assert CountOk(run[n], g) && On(run[n].entering, g) == {};
  }

  /** Of a thread's frames on a gate exactly one owns the admission, the outermost. */
  lemma OneOwningFrame(run: seq<State>, steps: seq<Step>, n: nat, t: nat, i: nat, j: nat)
    requires Run(run, steps) && n <= |steps| && t in run[n].stacks && i < |run[n].stacks[t]| && j < |run[n].stacks[t]|
    requires run[n].stacks[t][i].gate == run[n].stacks[t][j].gate && run[n].stacks[t][i].owns
    ensures i <= j
    ensures run[n].stacks[t][j].owns ==> i == j
  {
    var frames := run[n].stacks[t];
    if j < i { EarlierIsActive(frames, i, j); }
    if i < j { EarlierIsActive(frames, j, i); }
    RunInv(run, steps, n);
    assert StackOk(run[n], frames);
    assert FrameOk(frames, i) && FrameOk(frames, j);
  }

  lemma EarlierIsActive(frames: seq<Frame>, i: nat, j: nat)
    requires j < i < |frames| && frames[j].gate == frames[i].gate
    ensures Active(frames[..i], frames[i].gate)
  {
    assert frames[..i][j].gate == frames[i].gate;
  }

  /** Ending a frame gives the admission back exactly when no frame of that gate is left on the thread. */
  lemma ReleasedWithTheOutermostFrame(run: seq<State>, steps: seq<Step>, n: nat, g: GateId)
    requires Run(run, steps) && n < |steps| && steps[n].Destruct? && g in run[n].words
    ensures g in run[n + 1].words && steps[n].t in run[n].stacks && steps[n].t in run[n + 1].stacks
    ensures Count(run[n + 1].words[g]) == Count(run[n].words[g])
              - if Active(run[n].stacks[steps[n].t], g) && !Active(run[n + 1].stacks[steps[n].t], g) then 1 else 0
  {
    RunInv(run, steps, n);
    assert StepAt(run, steps, n);
    var s, t := run[n], steps[n].t;
    StepInv(s, steps[n]);
    assert CountOk(s, g) && CountOk(run[n + 1], g);
    SetInside(s.stacks, t, s.stacks[t][..|s.stacks[t]| - 1], g);
    PoppedStack(s, s.stacks[t]);
  }

  /** Beginning a frame puts it on top of the thread's stack.  The admission just taken is given back
      exactly when the thread was inside the gate already; no other gate, and no other thread, is
      concerned. */
  lemma TakenWithTheOutermostFrame(run: seq<State>, steps: seq<Step>, n: nat, t: nat, g: GateId)
    requires Run(run, steps) && n < |steps| && steps[n] == Construct(t) && g in run[n].words
    ensures t in run[n].stacks && t in run[n + 1].stacks && t in run[n].entering && g in run[n + 1].words
    ensures var frames, frames', h := run[n].stacks[t], run[n + 1].stacks[t], run[n].entering[t];
            && |frames'| == |frames| + 1 && frames'[..|frames|] == frames && frames'[|frames|].gate == h
            && (frames'[|frames|].owns <==> forall i | 0 <= i < |frames| :: frames[i].gate != h)
            && Count(run[n + 1].words[g]) == Count(run[n].words[g])
                 - (if g == h && exists i :: 0 <= i < |frames| && frames[i].gate == h then 1 else 0)
    ensures t !in run[n + 1].entering
    ensures forall u | u in run[n].stacks && u != t :: u in run[n + 1].stacks && run[n + 1].stacks[u] == run[n].stacks[u]
  {
    RunInv(run, steps, n);
    assert StepAt(run, steps, n);
    assert CountOk(run[n], g);
    assert t in On(run[n].entering, run[n].entering[t]);
    LeaveCount(run[n].words[g]);
  }

  /** A frame can always end, and an entered gate can always be put on the stack. */
  lemma OperationIsNotBlocked(run: seq<State>, steps: seq<Step>, n: nat, t: nat)
    requires Run(run, steps) && n <= |steps| && t in run[n].stacks
    ensures t in run[n].entering ==> Enabled(run[n], Construct(t))
    ensures t !in run[n].entering && run[n].stacks[t] != [] ==> Enabled(run[n], Destruct(t))
  {
    RunInv(run, steps, n);
    assert StackOk(run[n], run[n].stacks[t]);
    if run[n].stacks[t] != [] { assert FrameOk(run[n].stacks[t], |run[n].stacks[t]| - 1); }
  }

  /** A gate whose count is zero has no frame on any thread. */
  lemma ZeroMeansIdle(run: seq<State>, steps: seq<Step>, n: nat, g: GateId, t: nat)
    requires Run(run, steps) && n <= |steps| && g in run[n].words && Count(run[n].words[g]) == 0 && t in run[n].stacks
    ensures !Active(run[n].stacks[t], g)
  {
    if Active(run[n].stacks[t], g) { ActiveIsInside(run[n].stacks, t, g); }
    RunInv(run, steps, n);
    assert CountOk(run[n], g);
  }

  lemma ActiveIsInside(stacks: map<nat, seq<Frame>>, t: nat, g: GateId)
    requires t in stacks && Active(stacks[t], g)
    ensures |Inside(stacks, g)| > 0
  {
    assert t in Inside(stacks, g);
  }
}
