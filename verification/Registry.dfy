/** `BasicOperationRegistry` (src/operation_gate.h:139-248, 329-405) under every interleaving of one
    reader per hazard slot, serialised writers and any number of admitted operations.  Snapshots and
    entries live at addresses that may be reused once freed.  One atomic access, or one step of a
    writer's scan, per step; `Snapshot::Find` only touches immutable data and is one step (its probe
    loop is in SnapshotTable).
 */
module Registry {
  import opened GateWord

  type Address = nat
  type Key = nat

  datatype Option<+T> = None | Some(value: T)

  datatype Entry = Entry(key: Key, born: nat, word: nat, registered: bool, reclaimable: bool)

  /** One lookup of `TryEnterDetailed`; `Validated` and later hold a validated hazard on `snapshot`. */
  datatype Reader =
    | Idle
    | Loading(key: Key)
    | Loaded(key: Key, seen: Address)
    | Marked(key: Key, seen: Address)
    | Validated(key: Key, snapshot: Address)
    | Found(key: Key, snapshot: Address, entry: Address)
    | Entering(key: Key, snapshot: Address, entry: Address)
    | Exchanging(key: Key, snapshot: Address, entry: Address, expected: nat)
    | Clearing(admitted: Option<Address>, snapshot: Address)

  /** The writer that holds `writer_mutex_`. */
  datatype Writer =
    | NoWriter
    | RetiringGate(entry: Address)
    | Marking(key: Key, left: set<Address>)
    | Scanning(previous: Address, slot: nat)
    | Erasing

  datatype State = State(
    entries: map<Address, Entry>, snapshots: map<Address, set<Address>>, current: Address,
    hazards: seq<Option<Address>>, readers: seq<Reader>, writer: Writer,
    admitted: multiset<Address>, births: nat)

  datatype Step =
    | Begin(i: nat, key: Key) | Load(i: nat) | Mark(i: nat) | Validate(i: nat) | Find(i: nat, found: Option<Address>)
    | TestRegistered(i: nat) | LoadGate(i: nat) | Exchange(i: nat, spurious: bool) | Clear(i: nat)
    | Leave(entry: Address)
    | Register(key: Key, entry: Address, snapshot: Address)
    | Retire(entry: Address) | RetireGate
    | StartReclaim(key: Key) | MarkEntry(entry: Address) | PublishReclaim(snapshot: Address) | AbandonReclaim
    | Scan | FreePrevious | Erase

  // ---------------------------------------------------------------- steps

  predicate Reading(s: State, i: nat) {
    i < |s.readers| == |s.hazards|
  }

  function Registered(entries: map<Address, Entry>): set<Address> {
    set e | e in entries && entries[e].registered
  }

  /** The entry `Retire` finds: the latest one of its key. */
  predicate LatestOfKey(s: State, entry: Address) {
    entry in s.entries
    && forall e | e in s.entries && s.entries[e].key == s.entries[entry].key :: s.entries[e].born <= s.entries[entry].born
  }

  predicate Enabled(s: State, step: Step) {
    match step
    case Begin(i, _) => Reading(s, i) && s.readers[i].Idle?
    case Load(i) => Reading(s, i) && s.readers[i].Loading?
    case Mark(i) => Reading(s, i) && s.readers[i].Loaded?
    case Validate(i) => Reading(s, i) && s.readers[i].Marked?
    case Find(i, found) =>
      Reading(s, i) && s.readers[i].Validated? && s.readers[i].snapshot in s.snapshots
      && var reachable := s.snapshots[s.readers[i].snapshot];
         (forall e | e in reachable :: e in s.entries)
         && (if found.Some? then found.value in reachable && s.entries[found.value].key == s.readers[i].key
             else forall e | e in reachable :: s.entries[e].key != s.readers[i].key)
    case TestRegistered(i) => Reading(s, i) && s.readers[i].Found? && s.readers[i].entry in s.entries
    case LoadGate(i) => Reading(s, i) && s.readers[i].Entering? && s.readers[i].entry in s.entries
    case Exchange(i, _) => Reading(s, i) && s.readers[i].Exchanging? && s.readers[i].entry in s.entries
    case Clear(i) => Reading(s, i) && s.readers[i].Clearing?
    case Leave(e) => e in s.admitted && e in s.entries
    case Register(key, e, a) =>
      s.writer.NoWriter? && e !in s.entries && a !in s.snapshots
      && forall other | other in s.entries && s.entries[other].registered :: s.entries[other].key != key
    case Retire(e) => s.writer.NoWriter? && LatestOfKey(s, e)
    case RetireGate => s.writer.RetiringGate? && s.writer.entry in s.entries
    case StartReclaim(_) => s.writer.NoWriter?
    case MarkEntry(e) => s.writer.Marking? && e in s.writer.left && e in s.entries
    case PublishReclaim(a) => s.writer.Marking? && s.writer.left == {} && a !in s.snapshots
    case AbandonReclaim => s.writer.Marking?
    case Scan => s.writer.Scanning? && s.writer.slot < |s.hazards|
    case FreePrevious => s.writer.Scanning? && s.writer.slot >= |s.hazards|
    case Erase => s.writer.Erasing?
  }

  function Goto(s: State, i: nat, r: Reader): State
    requires i < |s.readers|
  {
    s.(readers := s.readers[i := r])
  }

  function SeenWord(s: State, i: nat, key: Key, snapshot: Address, entry: Address): State
    requires i < |s.readers| && entry in s.entries
  {
    var word := s.entries[entry].word;
    Goto(s, i, if Admits(word) then Exchanging(key, snapshot, entry, word) else Clearing(None, snapshot))
  }

  /** Builds a snapshot of the registered entries at `a` and exchanges `current_`. */
  function Publish(s: State, a: Address): State {
    s.(snapshots := s.snapshots[a := Registered(s.entries)], current := a, writer := Scanning(s.current, 0))
  }

  function Do(s: State, step: Step): State
    requires Enabled(s, step)
  {
    match step
    case Begin(i, key) => Goto(s, i, Loading(key))
    case Load(i) => Goto(s, i, Loaded(s.readers[i].key, s.current))
    case Mark(i) =>
      Goto(s, i, Marked(s.readers[i].key, s.readers[i].seen)).(hazards := s.hazards[i := Some(s.readers[i].seen)])
    case Validate(i) =>
      Goto(s, i, if s.current == s.readers[i].seen then Validated(s.readers[i].key, s.current)
                 else Loading(s.readers[i].key))
    case Find(i, found) =>
      Goto(s, i, if found.Some? then Found(s.readers[i].key, s.readers[i].snapshot, found.value) else Clearing(None, s.readers[i].snapshot))
    case TestRegistered(i) =>
      var r := s.readers[i];
      Goto(s, i, if s.entries[r.entry].registered then Entering(r.key, r.snapshot, r.entry) else Clearing(None, r.snapshot))
    case LoadGate(i) => SeenWord(s, i, s.readers[i].key, s.readers[i].snapshot, s.readers[i].entry)
    case Exchange(i, spurious) =>
      var r := s.readers[i];
      if spurious || s.entries[r.entry].word != r.expected then SeenWord(s, i, r.key, r.snapshot, r.entry)
      else Goto(s, i, Clearing(Some(r.entry), r.snapshot))
           .(entries := s.entries[r.entry := s.entries[r.entry].(word := r.expected + 1)],
             admitted := s.admitted[r.entry := s.admitted[r.entry] + 1])
    case Clear(i) => Goto(s, i, Idle).(hazards := s.hazards[i := None])
    case Leave(e) =>
      s.(entries := s.entries[e := s.entries[e].(word := Decremented(s.entries[e].word))],
         admitted := s.admitted[e := s.admitted[e] - 1])
    case Register(key, e, a) =>
      Publish(s.(entries := s.entries[e := Entry(key, s.births, 0, true, false)], births := s.births + 1), a)
    case Retire(e) =>
      if s.entries[e].registered
      then s.(entries := s.entries[e := s.entries[e].(registered := false)], writer := RetiringGate(e))
      else s
    case RetireGate =>
      var e := s.writer.entry;
      s.(entries := s.entries[e := s.entries[e].(word := WithRetiring(s.entries[e].word))], writer := NoWriter)
    case StartReclaim(key) => s.(writer := Marking(key, s.entries.Keys))
    case MarkEntry(e) =>
      var entry := s.entries[e];
      var done := entry.key == s.writer.key && !entry.registered && Count(entry.word) == 0;
      s.(entries := if done then s.entries[e := entry.(reclaimable := true)] else s.entries,
         writer := s.writer.(left := s.writer.left - {e}))
    case PublishReclaim(a) => Publish(s, a)
    case AbandonReclaim => s.(writer := NoWriter)
    case Scan =>
      if s.hazards[s.writer.slot] == Some(s.writer.previous) then s
      else s.(writer := s.writer.(slot := s.writer.slot + 1))
    case FreePrevious => s.(snapshots := s.snapshots - {s.writer.previous}, writer := Erasing)
    case Erase =>
      s.(entries := map e | e in s.entries && !s.entries[e].reclaimable :: s.entries[e], writer := NoWriter)
  }

  // ---------------------------------------------------------------- invariant

  /** The snapshot on which a reader holds a validated hazard. */
  function Protects(r: Reader): Option<Address> {
    match r
    case Validated(_, a) => Some(a)
    case Found(_, a, _) => Some(a)
    case Entering(_, a, _) => Some(a)
    case Exchanging(_, a, _, _) => Some(a)
    case Clearing(_, a) => Some(a)
    case _ => None
  }

  function EntryOf(r: Reader): Option<Address> {
    match r
    case Found(_, _, e) => Some(e)
    case Entering(_, _, e) => Some(e)
    case Exchanging(_, _, e, _) => Some(e)
    case _ => None
  }

  ghost predicate ReaderInv(s: State, i: nat)
    requires Reading(s, i)
  {
    var r := s.readers[i];
    && (r.Marked? ==> s.hazards[i] == Some(r.seen))
    && (r.Exchanging? ==> r.expected < 2 * RETIRING && Admits(r.expected))
    && (Protects(r).Some? ==>
          var a := Protects(r).value;
          && s.hazards[i] == Some(a)
          && (a == s.current || (s.writer.Scanning? && s.writer.previous == a && i >= s.writer.slot))
          && a in s.snapshots
          && (EntryOf(r).Some? ==> EntryOf(r).value in s.snapshots[a]))
  }

  ghost predicate SnapshotsInv(s: State) {
    && s.current in s.snapshots
    && (if s.writer.Scanning? then s.writer.previous != s.current && s.snapshots.Keys == {s.current, s.writer.previous}
        else s.snapshots.Keys == {s.current})
    && (forall a, e | a in s.snapshots && e in s.snapshots[a] :: e in s.entries)
    && (s.writer.Scanning? || s.writer.Erasing? ==>
          forall e | e in s.snapshots[s.current] :: s.entries[e].registered)
  }

  ghost predicate EntryInv(s: State, e: Address)
    requires e in s.entries
  {
    var entry := s.entries[e];
    && entry.word < 2 * RETIRING && Count(entry.word) == s.admitted[e]
    && (!entry.registered ==> Retired(entry.word) || s.writer == RetiringGate(e))
    && (entry.reclaimable ==> !entry.registered && Retired(entry.word) && Count(entry.word) == 0)
  }

  ghost predicate Inv(s: State) {
    && |s.readers| == |s.hazards|
    && (forall i | 0 <= i < |s.readers| :: ReaderInv(s, i))
    && SnapshotsInv(s)
    && (forall e | e in s.entries :: EntryInv(s, e))
    && (forall e | e in s.admitted :: e in s.entries)
  }

  ghost predicate Init(s: State) {
    && s.entries == map[] && s.snapshots == map[s.current := {}] && s.writer == NoWriter
    && s.admitted == multiset{} && |s.readers| == |s.hazards|
    && (forall i | 0 <= i < |s.readers| :: s.readers[i] == Idle && s.hazards[i] == None)
  }

  lemma LookupInv(s: State, step: Step)
    requires Inv(s) && Enabled(s, step)
    requires step.Begin? || step.Load? || step.Mark? || step.Validate? || step.Find? || step.TestRegistered?
             || step.Clear?
    ensures Inv(Do(s, step))
  {
    var t := Do(s, step);
    forall i | 0 <= i < |t.readers| ensures ReaderInv(t, i) {
      assert ReaderInv(s, i);
    }
    forall e | e in t.entries ensures EntryInv(t, e) {
      assert EntryInv(s, e);
    }
  }

  lemma SeenWordInv(s: State, i: nat)
    requires Inv(s) && Reading(s, i)
    requires s.readers[i].Entering? || s.readers[i].Exchanging?
    requires s.readers[i].entry in s.entries
    ensures Inv(SeenWord(s, i, s.readers[i].key, s.readers[i].snapshot, s.readers[i].entry))
  {
    var r := s.readers[i];
    var t := SeenWord(s, i, r.key, r.snapshot, r.entry);
    assert EntryInv(s, r.entry);
    forall j | 0 <= j < |t.readers| ensures ReaderInv(t, j) {
      assert ReaderInv(s, j) && ReaderInv(s, i);
    }
    forall e | e in t.entries ensures EntryInv(t, e) { assert EntryInv(s, e); }
  }

  lemma AdmitInv(s: State, i: nat)
    requires Inv(s) && Reading(s, i) && s.readers[i].Exchanging? && s.readers[i].entry in s.entries
    requires s.entries[s.readers[i].entry].word == s.readers[i].expected
    ensures Inv(Do(s, Exchange(i, false)))
  {
    var t := Do(s, Exchange(i, false));
    var x := s.readers[i].entry;
    assert ReaderInv(s, i) && EntryInv(s, x);
    WordArithmetic(s.entries[x].word);
    forall j | 0 <= j < |t.readers| ensures ReaderInv(t, j) { assert ReaderInv(s, j); }
    forall e | e in t.entries ensures EntryInv(t, e) { assert EntryInv(s, e); }
  }

  lemma LeaveInv(s: State, x: Address)
    requires Inv(s) && Enabled(s, Leave(x))
    ensures Inv(Do(s, Leave(x)))
  {
    var t := Do(s, Leave(x));
    assert EntryInv(s, x);
    WordArithmetic(s.entries[x].word);
    forall j | 0 <= j < |t.readers| ensures ReaderInv(t, j) { assert ReaderInv(s, j); }
    forall e | e in t.entries ensures EntryInv(t, e) { assert EntryInv(s, e); }
  }

  /** Publishing: whoever was protected by the old snapshot still is, now by the scan. */
  lemma PublishInv(s: State, a: Address)
    requires Inv(s) && !s.writer.Scanning? && !s.writer.RetiringGate? && a !in s.snapshots
    ensures Inv(Publish(s, a))
  {
    var t := Publish(s, a);
    forall j | 0 <= j < |t.readers| ensures ReaderInv(t, j) { assert ReaderInv(s, j); }
    forall e | e in t.entries ensures EntryInv(t, e) { assert EntryInv(s, e); }
  }

  lemma RegisterInv(s: State, key: Key, x: Address, a: Address)
    requires Inv(s) && Enabled(s, Register(key, x, a))
    ensures Inv(Do(s, Register(key, x, a)))
  {
    var m := s.(entries := s.entries[x := Entry(key, s.births, 0, true, false)], births := s.births + 1);
    forall j | 0 <= j < |m.readers| ensures ReaderInv(m, j) { assert ReaderInv(s, j); }
    forall e | e in m.entries ensures EntryInv(m, e) {
      if e != x { assert EntryInv(s, e); }
    }
    PublishInv(m, a);
  }

  lemma FlagsInv(s: State, step: Step)
    requires Inv(s) && Enabled(s, step)
    requires step.Retire? || step.RetireGate? || step.StartReclaim? || step.MarkEntry? || step.AbandonReclaim?
    ensures Inv(Do(s, step))
  {
    var t := Do(s, step);
    if step.RetireGate? { WordArithmetic(s.entries[s.writer.entry].word); assert EntryInv(s, s.writer.entry); }
    forall j | 0 <= j < |t.readers| ensures ReaderInv(t, j) { assert ReaderInv(s, j); }
    forall e | e in t.entries ensures EntryInv(t, e) { assert EntryInv(s, e); }
  }

  lemma ScanInv(s: State)
    requires Inv(s) && Enabled(s, Scan)
    ensures Inv(Do(s, Scan))
  {
    var t := Do(s, Scan);
    forall j | 0 <= j < |t.readers| ensures ReaderInv(t, j) { assert ReaderInv(s, j); }
    forall e | e in t.entries ensures EntryInv(t, e) { assert EntryInv(s, e); }
  }

  lemma FreeInv(s: State)
    requires Inv(s) && Enabled(s, FreePrevious)
    ensures Inv(Do(s, FreePrevious))
  {
    var t := Do(s, FreePrevious);
    forall j | 0 <= j < |t.readers| ensures ReaderInv(t, j) { assert ReaderInv(s, j); }
    forall e | e in t.entries ensures EntryInv(t, e) { assert EntryInv(s, e); }
  }

  lemma EraseInv(s: State)
    requires Inv(s) && Enabled(s, Erase)
    ensures Inv(Do(s, Erase))
  {
    var t := Do(s, Erase);
    forall e | e in s.snapshots[s.current] ensures e in t.entries { assert EntryInv(s, e); }
    forall j | 0 <= j < |t.readers| ensures ReaderInv(t, j) { assert ReaderInv(s, j); }
    forall e | e in t.entries ensures EntryInv(t, e) { assert EntryInv(s, e); }
    forall e | e in t.admitted ensures e in t.entries { assert EntryInv(s, e); }
  }

  lemma StepInv(s: State, step: Step)
    requires Inv(s) && Enabled(s, step)
    ensures Inv(Do(s, step))
  {
    match step
    case LoadGate(i) => SeenWordInv(s, i);
    case Exchange(i, spurious) =>
      if spurious || s.entries[s.readers[i].entry].word != s.readers[i].expected { SeenWordInv(s, i); } else { AdmitInv(s, i); }
    case Leave(e) => LeaveInv(s, e);
    case Register(key, e, a) => RegisterInv(s, key, e, a);
    case PublishReclaim(a) => PublishInv(s, a);
    case Scan => ScanInv(s);
    case FreePrevious => FreeInv(s);
    case Erase => EraseInv(s);
    case Retire(_) => FlagsInv(s, step);
    case RetireGate => FlagsInv(s, step);
    case StartReclaim(_) => FlagsInv(s, step);
    case MarkEntry(_) => FlagsInv(s, step);
    case AbandonReclaim => FlagsInv(s, step);
    case _ => LookupInv(s, step);
  }

  // ---------------------------------------------------------------- nothing is missing

  /** Every registered entry is in the current snapshot, its gate is open, and no snapshot holds two
      entries of one key. */
  ghost predicate Complete(s: State) {
    && s.current in s.snapshots
    && (forall e | e in s.entries && s.entries[e].registered :: e in s.snapshots[s.current] && !Retired(s.entries[e].word))
    && (forall a | a in s.snapshots :: DistinctKeys(s.entries, s.snapshots[a]))
    && (s.writer.RetiringGate? && s.writer.entry in s.entries ==> !s.entries[s.writer.entry].registered)
  }

  ghost predicate DistinctKeys(entries: map<Address, Entry>, es: set<Address>) {
    forall e, e' | e in es && e' in es && e in entries && e' in entries && entries[e].key == entries[e'].key :: e == e'
  }

  lemma OpenEntry(s: State, step: Step, e: Address)
    requires Inv(s) && Complete(s) && Enabled(s, step)
    requires !step.Register? && !step.PublishReclaim? && !step.FreePrevious? && !step.Erase?
    requires e in Do(s, step).entries && Do(s, step).entries[e].registered
    ensures e in s.entries && s.entries[e].registered && e in s.snapshots[s.current] && !Retired(Do(s, step).entries[e].word)
  {
    if step.Exchange? || step.Leave? {
      OpenEntryWord(s, step, e);
    } else {
      assert EntryInv(s, e) && s.entries[e].registered;
    }
  }

  lemma OpenEntryWord(s: State, step: Step, e: Address)
    requires Inv(s) && Enabled(s, step) && (step.Exchange? || step.Leave?) && e in s.entries && !Retired(s.entries[e].word)
    ensures e in Do(s, step).entries && !Retired(Do(s, step).entries[e].word)
  {
    assert EntryInv(s, e);
    WordArithmetic(s.entries[e].word);
    if step.Exchange? { assert ReaderInv(s, step.i); }
  }

  lemma SameKeys(s: State, step: Step, e: Address)
    requires Enabled(s, step) && e in s.entries && e in Do(s, step).entries && !step.Register?
    ensures Do(s, step).entries[e].key == s.entries[e].key
  {
  }

  lemma SameTables(s: State, step: Step)
    requires Enabled(s, step) && !step.Register? && !step.PublishReclaim? && !step.FreePrevious? && !step.Erase?
    ensures var t := Do(s, step);
            && t.snapshots == s.snapshots && t.current == s.current && t.entries.Keys == s.entries.Keys
            && (forall e | e in s.entries :: t.entries[e].key == s.entries[e].key)
  {
  }

  /** The gate a writer is retiring belongs to an entry already unregistered. */
  lemma RetiringIsUnregistered(s: State, step: Step)
    requires Complete(s) && Enabled(s, step) && !step.Register? && !step.PublishReclaim? && !step.FreePrevious? && !step.Erase?
    ensures var t := Do(s, step); t.writer.RetiringGate? && t.writer.entry in t.entries ==> !t.entries[t.writer.entry].registered
  {
  }

  lemma CompleteLookup(s: State, step: Step)
    requires Inv(s) && Complete(s) && Enabled(s, step)
    requires !step.Register? && !step.PublishReclaim? && !step.FreePrevious? && !step.Erase?
    ensures Complete(Do(s, step))
  {
    var t := Do(s, step);
    SameTables(s, step);
    RetiringIsUnregistered(s, step);
    forall e | e in t.entries && t.entries[e].registered ensures e in t.snapshots[t.current] && !Retired(t.entries[e].word) {
      OpenEntry(s, step, e);
    }
    forall a | a in t.snapshots ensures DistinctKeys(t.entries, t.snapshots[a]) {
      DistinctKept(s.entries, t.entries, s.snapshots[a]);
    }
  }

  lemma DistinctKept(entries: map<Address, Entry>, entries': map<Address, Entry>, es: set<Address>)
    requires DistinctKeys(entries, es) && entries'.Keys == entries.Keys
    requires forall e | e in entries :: entries'[e].key == entries[e].key
    ensures DistinctKeys(entries', es)
  {
  }

  lemma CompletePublish(s: State, step: Step)
    requires Inv(s) && Complete(s) && Enabled(s, step) && (step.Register? || step.PublishReclaim?)
    ensures Complete(Do(s, step))
  {
    var t := Do(s, step);
    assert DistinctKeys(s.entries, s.snapshots[s.current]);
    forall a | a in t.snapshots ensures DistinctKeys(t.entries, t.snapshots[a]) {
      if a in s.snapshots && a != t.current { assert DistinctKeys(s.entries, s.snapshots[a]); }
    }
    forall e | e in t.entries && t.entries[e].registered ensures !Retired(t.entries[e].word) {
      assert e in s.entries ==> t.entries[e] == s.entries[e];
    }
  }

  lemma CompleteErase(s: State, step: Step)
    requires Inv(s) && Complete(s) && Enabled(s, step) && (step.FreePrevious? || step.Erase?)
    ensures Complete(Do(s, step))
  {
    var t := Do(s, step);
    forall a | a in t.snapshots ensures DistinctKeys(t.entries, t.snapshots[a]) {
      assert DistinctKeys(s.entries, s.snapshots[a]);
    }
  }

  /** Every step of the writers keeps the current snapshot complete. */
  lemma StepComplete(s: State, step: Step)
    requires Inv(s) && Complete(s) && Enabled(s, step)
    ensures Complete(Do(s, step))
  {
    match step
    case Register(_, _, _) => CompletePublish(s, step);
    case PublishReclaim(_) => CompletePublish(s, step);
    case FreePrevious => CompleteErase(s, step);
    case Erase => CompleteErase(s, step);
    case _ => CompleteLookup(s, step);
  }

  // ---------------------------------------------------------------- theorems

  ghost predicate Run(states: seq<State>, steps: seq<Step>) {
    && |states| == |steps| + 1 && Init(states[0])
    && forall k | 0 <= k < |steps| :: StepAt(states, steps, k)
  }

  ghost predicate StepAt(states: seq<State>, steps: seq<Step>, k: nat)
    requires k < |steps| && |states| == |steps| + 1
  {
    Enabled(states[k], steps[k]) && states[k + 1] == Do(states[k], steps[k])
  }

  lemma {:induction false} RunInv(states: seq<State>, steps: seq<Step>, k: nat)
    requires Run(states, steps) && k < |states|
    ensures Inv(states[k]) && Complete(states[k])
  {
    if k > 0 {
      RunInv(states, steps, k - 1);
      assert StepAt(states, steps, k - 1);
      StepInv(states[k - 1], steps[k - 1]);
      StepComplete(states[k - 1], steps[k - 1]);
    }
  }

  /** Main result.  In every run, as long as a reader's hazard on a snapshot is validated and not yet
      cleared, that snapshot is allocated, and so is every entry reachable from it. */
  lemma ProtectedMemoryIsLive(states: seq<State>, steps: seq<Step>, k: nat, i: nat)
    requires Run(states, steps) && k < |states|
    requires Reading(states[k], i) && Protects(states[k].readers[i]).Some?
    ensures var s := states[k];
            var a := Protects(s.readers[i]).value;
            && a in s.snapshots
            && (forall e | e in s.snapshots[a] :: e in s.entries)
            && (EntryOf(s.readers[i]).Some? ==> EntryOf(s.readers[i]).value in s.entries)
  {
    RunInv(states, steps, k);
    assert ReaderInv(states[k], i);
  }

  /** The snapshot is the same object throughout: no step frees it or puts another one at its
      address while the reader is protected by it. */
  lemma ProtectedSnapshotIsStable(s: State, step: Step, i: nat)
    requires Inv(s) && Enabled(s, step) && Reading(s, i) && Protects(s.readers[i]).Some?
    ensures var a := Protects(s.readers[i]).value;
            a in s.snapshots && a in Do(s, step).snapshots && Do(s, step).snapshots[a] == s.snapshots[a]
  {
    assert ReaderInv(s, i);
  }

  /** An erased entry has no operation that was admitted and has not yet decremented, and no reader
      can still reach it; every admitted operation's entry is allocated. */
  lemma ErasedEntriesAreIdle(states: seq<State>, steps: seq<Step>, k: nat, e: Address)
    requires Run(states, steps) && k < |steps|
    ensures e in states[k].admitted ==> e in states[k].entries
    ensures e in states[k].entries && e !in states[k + 1].entries ==>
              && states[k].admitted[e] == 0 && Retired(states[k].entries[e].word)
              && forall i | 0 <= i < |states[k].readers| :: Reading(states[k], i) && EntryOf(states[k].readers[i]) != Some(e)
  {
    RunInv(states, steps, k);
    assert StepAt(states, steps, k);
    var s := states[k];
    if e in s.entries && e !in states[k + 1].entries {
      assert EntryInv(s, e);
      forall i | 0 <= i < |s.readers| ensures Reading(s, i) && EntryOf(s.readers[i]) != Some(e) {
        assert ReaderInv(s, i);
      }
    }
  }

  /** Once an entry's gate is retired nobody is admitted to it any more. */
  lemma RetiredEntryAdmitsNobody(s: State, step: Step, e: Address)
    requires Inv(s) && Enabled(s, step) && e in s.entries && Retired(s.entries[e].word)
    ensures Do(s, step).admitted[e] <= s.admitted[e]
    ensures e in Do(s, step).entries ==> Retired(Do(s, step).entries[e].word)
  {
    assert EntryInv(s, e);
    WordArithmetic(s.entries[e].word);
    if step.Exchange? {
      assert ReaderInv(s, step.i);
      assert EntryInv(s, s.readers[step.i].entry);
    }
  }

  // ---------------------------------------------------------------- what a lookup answers

  /** A registered entry of the key whose gate admits. */
  ghost predicate Open(s: State, key: Key, e: Address) {
    e in s.entries && s.entries[e].key == key && s.entries[e].registered && Admits(s.entries[e].word)
  }

  ghost predicate Available(s: State, key: Key) {
    exists e :: Open(s, key, e)
  }

  ghost predicate Pending(s: State, i: nat) {
    Reading(s, i) && !s.readers[i].Idle? && !s.readers[i].Clearing?
  }

  /** A lookup of `key` by reader `i` that starts in step `b` and has its answer in state `k`. */
  ghost predicate Lookup(states: seq<State>, steps: seq<Step>, i: nat, key: Key, b: nat, k: nat)
    requires |states| == |steps| + 1
  {
    && b + 1 < k < |states| && steps[b] == Begin(i, key)
    && (forall j | b < j < k :: Pending(states[j], i))
    && Reading(states[k], i) && states[k].readers[i].Clearing?
  }

  lemma LookupGoesOn(states: seq<State>, steps: seq<Step>, i: nat, key: Key, b: nat, k: nat, j: nat)
    requires |states| == |steps| + 1 && Lookup(states, steps, i, key, b, k) && b <= j < k
    ensures j > b ==> Pending(states[j], i)
    ensures j + 1 < k ==> Pending(states[j + 1], i)
  {
  }

  lemma LookupStep(states: seq<State>, steps: seq<Step>, i: nat, key: Key, b: nat, k: nat, j: nat)
    requires Run(states, steps) && Lookup(states, steps, i, key, b, k) && b <= j < k
    ensures Inv(states[j]) && Complete(states[j]) && Enabled(states[j], steps[j]) && states[j + 1] == Do(states[j], steps[j])
    ensures Reading(states[j], i) && Reading(states[j + 1], i) && !states[j].readers[i].Clearing?
    ensures j == b ==> states[j + 1].readers[i] == Loading(key)
  {
    LookupGoesOn(states, steps, i, key, b, k, j);
    RunInv(states, steps, j);
    assert StepAt(states, steps, j);
  }

  /** How far a lookup of `key` has come that is to end with an admission to `e`. */
  ghost predicate OnTheWay(s: State, i: nat, key: Key, e: Address)
    requires Reading(s, i)
  {
    match s.readers[i]
    case Idle => false
    case Loading(k) => k == key
    case Loaded(k, _) => k == key
    case Marked(k, _) => k == key
    case Validated(k, a) => k == key && a in s.snapshots && e in s.snapshots[a]
    case Found(k, _, x) => k == key && x == e
    case Entering(k, _, x) => k == key && x == e
    case Exchanging(k, _, x, _) => k == key && x == e
    case Clearing(admitted, _) => admitted == Some(e)
  }

  /** The step reader `i` takes next. */
  ghost predicate OwnStep(step: Step, i: nat) {
    || step == Load(i) || step == Mark(i) || step == Validate(i) || (step.Find? && step.i == i) || step == TestRegistered(i)
    || step == LoadGate(i) || (step.Exchange? && step.i == i) || step == Clear(i)
  }

  lemma OthersLeaveReader(s: State, step: Step, i: nat)
    requires Enabled(s, step) && Reading(s, i) && !s.readers[i].Idle? && !OwnStep(step, i)
    ensures Reading(Do(s, step), i) && Do(s, step).readers[i] == s.readers[i]
  {
  }

  lemma OnTheWayOther(s: State, step: Step, i: nat, key: Key, e: Address)
    requires Inv(s) && Enabled(s, step) && Reading(s, i) && OnTheWay(s, i, key, e) && !OwnStep(step, i)
    ensures Reading(Do(s, step), i) && OnTheWay(Do(s, step), i, key, e)
  {
    OthersLeaveReader(s, step, i);
    if Protects(s.readers[i]).Some? { ProtectedSnapshotIsStable(s, step, i); }
  }

  lemma OnTheWayOwn(s: State, step: Step, i: nat, key: Key, e: Address)
    requires Inv(s) && Complete(s) && Enabled(s, step) && Reading(s, i) && OnTheWay(s, i, key, e) && Open(s, key, e)
    requires !s.readers[i].Clearing? && OwnStep(step, i)
    ensures Reading(Do(s, step), i) && OnTheWay(Do(s, step), i, key, e)
  {
    assert ReaderInv(s, i);
    if step.Find? { assert DistinctKeys(s.entries, s.snapshots[s.readers[i].snapshot]); }
  }

  lemma OnTheWayStep(s: State, step: Step, i: nat, key: Key, e: Address)
    requires Inv(s) && Complete(s) && Enabled(s, step) && Reading(s, i) && OnTheWay(s, i, key, e) && Open(s, key, e)
    requires !s.readers[i].Clearing?
    ensures Reading(Do(s, step), i) && OnTheWay(Do(s, step), i, key, e)
  {
    if OwnStep(step, i) { OnTheWayOwn(s, step, i, key, e); } else { OnTheWayOther(s, step, i, key, e); }
  }

  lemma OnTheWayNext(states: seq<State>, steps: seq<Step>, i: nat, key: Key, b: nat, k: nat, j: nat, e: Address)
    requires Run(states, steps) && Lookup(states, steps, i, key, b, k) && b <= j < k && Open(states[j], key, e)
    requires j > b ==> Reading(states[j], i) && OnTheWay(states[j], i, key, e)
    ensures Reading(states[j + 1], i) && OnTheWay(states[j + 1], i, key, e)
  {
    LookupStep(states, steps, i, key, b, k, j);
    if j > b { OnTheWayStep(states[j], steps[j], i, key, e); }
  }

  lemma {:induction false} OnTheWayAlong(states: seq<State>, steps: seq<Step>, i: nat, key: Key, b: nat, k: nat, j: nat, e: Address)
    requires Run(states, steps) && Lookup(states, steps, i, key, b, k) && b < j <= k
    requires forall m | b <= m < k :: Open(states[m], key, e)
    ensures Reading(states[j], i) && OnTheWay(states[j], i, key, e)
  {
    if j > b + 1 { OnTheWayAlong(states, steps, i, key, b, k, j - 1, e); }
    assert Open(states[j - 1], key, e);
    OnTheWayNext(states, steps, i, key, b, k, j - 1, e);
  }

  /** While an entry of the key stays registered and its gate admits, a lookup ends with an admission to
      just that entry. */
  lemma LookupEnters(states: seq<State>, steps: seq<Step>, i: nat, key: Key, b: nat, k: nat, e: Address)
    requires Run(states, steps) && Lookup(states, steps, i, key, b, k)
    requires forall m | b <= m < k :: Open(states[m], key, e)
    ensures Reading(states[k], i) && states[k].readers[i].Clearing? && states[k].readers[i].admitted == Some(e)
  {
    OnTheWayAlong(states, steps, i, key, b, k, k, e);
  }

  /** No two entries of a key are ever registered together, nor one right after the other. */
  lemma SameEntry(s: State, step: Step, key: Key, e: Address, e': Address)
    requires Inv(s) && Complete(s) && Enabled(s, step) && Open(s, key, e) && Open(Do(s, step), key, e')
    ensures e == e'
  {
    assert DistinctKeys(s.entries, s.snapshots[s.current]);
  }

  lemma {:induction false} OpenThroughout(states: seq<State>, steps: seq<Step>, key: Key, b: nat, k: nat, e: Address)
    requires Run(states, steps) && b <= k < |states| && Open(states[b], key, e)
    requires forall m | b <= m <= k :: Available(states[m], key)
    ensures Open(states[k], key, e)
    decreases k
  {
    if b < k {
      OpenThroughout(states, steps, key, b, k - 1, e);
      RunInv(states, steps, k - 1);
      assert StepAt(states, steps, k - 1);
      assert Available(states[k], key);
      var x :| Open(states[k], key, x);
      SameEntry(states[k - 1], steps[k - 1], key, e, x);
    }
  }

  /** A lookup is refused only if at some moment of it the key had no registered entry, or its gate
      did not admit. */
  lemma RefusedLookupHasAReason(states: seq<State>, steps: seq<Step>, i: nat, key: Key, b: nat, k: nat)
    requires Run(states, steps) && Lookup(states, steps, i, key, b, k)
    requires Reading(states[k], i) && states[k].readers[i].admitted == None
    ensures exists m :: b <= m < k && !Available(states[m], key)
  {
    if forall m | b <= m < k :: Available(states[m], key) {
      assert Available(states[b], key);
      var e :| Open(states[b], key, e);
      forall m | b <= m < k ensures Open(states[m], key, e) { OpenThroughout(states, steps, key, b, m, e); }
      LookupEnters(states, steps, i, key, b, k, e);
    }
  }

  /** What an answered lookup has looked at: entries of its key. */
  ghost predicate OfKey(s: State, i: nat, key: Key)
    requires Reading(s, i)
  {
    match s.readers[i]
    case Idle => false
    case Loading(k) => k == key
    case Loaded(k, _) => k == key
    case Marked(k, _) => k == key
    case Validated(k, _) => k == key
    case Found(k, _, x) => k == key && x in s.entries && s.entries[x].key == key
    case Entering(k, _, x) => k == key && x in s.entries && s.entries[x].key == key
    case Exchanging(k, _, x, _) => k == key && x in s.entries && s.entries[x].key == key
    case Clearing(_, _) => true
  }

  lemma OfKeyStep(s: State, step: Step, i: nat, key: Key)
    requires Inv(s) && Enabled(s, step) && Reading(s, i) && OfKey(s, i, key) && !s.readers[i].Clearing?
    ensures Reading(Do(s, step), i) && OfKey(Do(s, step), i, key)
  {
    if EntryOf(s.readers[i]).Some? { ReachedStays(s, step, i); }
    if OwnStep(step, i) { OfKeyOwn(s, step, i, key); } else { OthersLeaveReader(s, step, i); }
  }

  lemma OfKeyOwn(s: State, step: Step, i: nat, key: Key)
    requires Inv(s) && Enabled(s, step) && Reading(s, i) && OfKey(s, i, key) && !s.readers[i].Clearing? && OwnStep(step, i)
    ensures Reading(Do(s, step), i) && OfKey(Do(s, step), i, key)
  {
    assert ReaderInv(s, i);
  }

  lemma ReachedStays(s: State, step: Step, i: nat)
    requires Inv(s) && Enabled(s, step) && Reading(s, i) && EntryOf(s.readers[i]).Some?
    ensures var x := EntryOf(s.readers[i]).value;
            x in s.entries && x in Do(s, step).entries && Do(s, step).entries[x].key == s.entries[x].key
  {
    assert ReaderInv(s, i);
    var x := EntryOf(s.readers[i]).value;
    assert EntryInv(s, x);
    if !step.Erase? && !step.Register? { SameKeys(s, step, x); }
  }

  lemma OfKeyNext(states: seq<State>, steps: seq<Step>, i: nat, key: Key, b: nat, k: nat, j: nat)
    requires Run(states, steps) && Lookup(states, steps, i, key, b, k) && b <= j < k
    requires j > b ==> Reading(states[j], i) && OfKey(states[j], i, key)
    ensures Reading(states[j + 1], i) && OfKey(states[j + 1], i, key)
  {
    LookupStep(states, steps, i, key, b, k, j);
    if j > b { OfKeyStep(states[j], steps[j], i, key); }
  }

  lemma {:induction false} OfKeyAlong(states: seq<State>, steps: seq<Step>, i: nat, key: Key, b: nat, k: nat, j: nat)
    requires Run(states, steps) && Lookup(states, steps, i, key, b, k) && b < j <= k
    ensures Reading(states[j], i) && OfKey(states[j], i, key)
  {
    if j > b + 1 { OfKeyAlong(states, steps, i, key, b, k, j - 1); }
    OfKeyNext(states, steps, i, key, b, k, j - 1);
  }

  lemma OnlyExchangesAdmit(s: State, step: Step, i: nat)
    requires Enabled(s, step) && Reading(s, i) && !s.readers[i].Idle? && !s.readers[i].Clearing?
    requires var t := Do(s, step); Reading(t, i) && t.readers[i].Clearing? && t.readers[i].admitted.Some?
    ensures step == Exchange(i, false)
  {
    if !OwnStep(step, i) { OthersLeaveReader(s, step, i); }
  }

  lemma AdmittingStep(s: State, step: Step, i: nat, key: Key)
    requires Inv(s) && Enabled(s, step) && Reading(s, i) && OfKey(s, i, key) && step == Exchange(i, false)
    requires var t := Do(s, step); Reading(t, i) && t.readers[i].Clearing? && t.readers[i].admitted.Some?
    ensures var t := Do(s, step);
            var e := t.readers[i].admitted.value;
            && e in s.entries && s.entries[e].key == key && Admits(s.entries[e].word)
            && e in t.entries && t.entries[e].word == s.entries[e].word + 1 && t.admitted == s.admitted + multiset{e}
  {
    assert ReaderInv(s, i);
  }

  /** A lookup that succeeds has admitted one operation, in its last step, to an entry of its key whose
      gate admitted at that moment. */
  lemma AdmittedToItsKey(states: seq<State>, steps: seq<Step>, i: nat, key: Key, b: nat, k: nat)
    requires Run(states, steps) && Lookup(states, steps, i, key, b, k)
    requires Reading(states[k], i) && states[k].readers[i].admitted.Some?
    ensures var e, s, t := states[k].readers[i].admitted.value, states[k - 1], states[k];
            && e in s.entries && s.entries[e].key == key && Admits(s.entries[e].word)
            && e in t.entries && t.entries[e].word == s.entries[e].word + 1 && t.admitted == s.admitted + multiset{e}
  {
    OfKeyAlong(states, steps, i, key, b, k, k - 1);
    AdmittedNow(states, steps, i, key, b, k);
  }

  lemma AdmittedNow(states: seq<State>, steps: seq<Step>, i: nat, key: Key, b: nat, k: nat)
    requires Run(states, steps) && Lookup(states, steps, i, key, b, k) && Reading(states[k - 1], i) && OfKey(states[k - 1], i, key)
    requires Reading(states[k], i) && states[k].readers[i].admitted.Some?
    ensures var e, s, t := states[k].readers[i].admitted.value, states[k - 1], states[k];
            && e in s.entries && s.entries[e].key == key && Admits(s.entries[e].word)
            && e in t.entries && t.entries[e].word == s.entries[e].word + 1 && t.admitted == s.admitted + multiset{e}
  {
    LookupStep(states, steps, i, key, b, k, k - 1);
    OnlyExchangesAdmit(states[k - 1], steps[k - 1], i);
    AdmittingStep(states[k - 1], steps[k - 1], i, key);
  }

  /** A lookup never waits for anybody. */
  lemma LookupIsNotBlocked(states: seq<State>, steps: seq<Step>, k: nat, i: nat) returns (step: Step)
    requires Run(states, steps) && k < |states| && Reading(states[k], i) && !states[k].readers[i].Idle?
    ensures OwnStep(step, i) && Enabled(states[k], step)
  {
    RunInv(states, steps, k);
    var s := states[k];
    assert ReaderInv(s, i);
    match s.readers[i]
    case Idle =>
    case Loading(_) => step := Load(i);
    case Loaded(_, _) => step := Mark(i);
    case Marked(_, _) => step := Validate(i);
    case Validated(key, a) =>
      if e :| e in s.snapshots[a] && s.entries[e].key == key { step := Find(i, Some(e)); } else { step := Find(i, None); }
    case Found(_, _, _) => step := TestRegistered(i);
    case Entering(_, _, _) => step := LoadGate(i);
    case Exchanging(_, _, _, _) => step := Exchange(i, false);
    case Clearing(_, _) => step := Clear(i);
  }

  // ---------------------------------------------------------------- what the writers achieve

  /** After `Retire` nobody finds the entry registered, and once the writer has left, its gate is
      retired. */
  lemma {:induction false} RetireTakesEffect(states: seq<State>, steps: seq<Step>, j: nat, k: nat, e: Address)
    requires Run(states, steps) && j < k < |states| && steps[j] == Retire(e)
    requires forall m | j <= m <= k :: e in states[m].entries
    ensures !states[k].entries[e].registered && (states[k].writer != RetiringGate(e) ==> Retired(states[k].entries[e].word))
    ensures states[k].entries[e].key == states[j].entries[e].key
  {
    assert StepAt(states, steps, k - 1);
    if k > j + 1 {
      RetireTakesEffect(states, steps, j, k - 1, e);
      StaysUnregistered(states[k - 1], steps[k - 1], e);
    }
    RunInv(states, steps, k);
    assert EntryInv(states[k], e);
  }

  lemma StaysUnregistered(s: State, step: Step, e: Address)
    requires Enabled(s, step) && e in s.entries && !s.entries[e].registered && e in Do(s, step).entries
    ensures !Do(s, step).entries[e].registered && Do(s, step).entries[e].key == s.entries[e].key
  {
  }

  /** An entry that is unregistered and idle when the reclaiming writer starts is marked by the time it
      publishes. */
  ghost predicate ToBeMarked(s: State, key: Key, e: Address) {
    e in s.entries && s.entries[e].key == key && !s.entries[e].registered && Retired(s.entries[e].word) && Count(s.entries[e].word) == 0
  }

  ghost predicate MarkingReaches(s: State, key: Key, e: Address) {
    && ToBeMarked(s, key, e)
    && (s.writer.Marking? ==> s.writer.key == key && (e in s.writer.left || s.entries[e].reclaimable))
    && (s.writer.Scanning? || s.writer.Erasing? ==> s.entries[e].reclaimable)
    && (s.writer.Marking? || s.writer.Scanning? || s.writer.Erasing?)
  }

  lemma MarkingStep(s: State, step: Step, key: Key, e: Address)
    requires Inv(s) && Enabled(s, step) && MarkingReaches(s, key, e) && !step.AbandonReclaim?
    ensures (step.Erase? && e !in Do(s, step).entries) || MarkingReaches(Do(s, step), key, e)
  {
    assert EntryInv(s, e);
    WordArithmetic(s.entries[e].word);
    if step.Exchange? { assert ReaderInv(s, step.i); }
  }

  ghost predicate GoesOn(s: State, step: Step) {
    !s.writer.NoWriter? && !step.AbandonReclaim?
  }

  lemma MarkingBegins(s: State, key: Key, e: Address)
    requires Enabled(s, StartReclaim(key)) && ToBeMarked(s, key, e)
    ensures MarkingReaches(Do(s, StartReclaim(key)), key, e)
  {
  }

  /** `ReclaimRetired`, unless it fails to allocate, takes out every entry of its key that was retired
      and idle when it began. */
  lemma {:induction false} ReclaimTakesIdleEntries(states: seq<State>, steps: seq<Step>, j: nat, k: nat, key: Key, e: Address)
    requires Run(states, steps) && j < k < |states| && steps[j] == StartReclaim(key) && ToBeMarked(states[j], key, e)
    requires forall m | j < m < k :: GoesOn(states[m], steps[m])
    ensures if states[k].writer.NoWriter? then e !in states[k].entries else MarkingReaches(states[k], key, e)
  {
    if k > j + 1 {
      ReclaimTakesIdleEntries(states, steps, j, k - 1, key, e);
      assert GoesOn(states[k - 1], steps[k - 1]);
      MarkingNext(states, steps, k - 1, key, e);
    } else {
      assert StepAt(states, steps, j);
      MarkingBegins(states[j], key, e);
    }
  }

  lemma MarkingNext(states: seq<State>, steps: seq<Step>, k: nat, key: Key, e: Address)
    requires Run(states, steps) && k < |steps| && MarkingReaches(states[k], key, e) && GoesOn(states[k], steps[k])
    ensures if states[k + 1].writer.NoWriter? then e !in states[k + 1].entries else MarkingReaches(states[k + 1], key, e)
  {
    RunInv(states, steps, k);
    assert StepAt(states, steps, k);
    MarkingStep(states[k], steps[k], key, e);
    MarkingEnds(states[k], steps[k], key, e);
  }

  lemma MarkingEnds(s: State, step: Step, key: Key, e: Address)
    requires Enabled(s, step) && !step.AbandonReclaim? && MarkingReaches(s, key, e)
    ensures Do(s, step).writer.NoWriter? <==> step.Erase?
  {
  }

  /** A reader that is not looking anything up has no hazard set. */
  ghost predicate IdleIsClear(s: State) {
    |s.readers| == |s.hazards| && forall i | 0 <= i < |s.readers| && s.readers[i].Idle? :: s.hazards[i] == None
  }

  lemma IdleStep(s: State, step: Step)
    requires Enabled(s, step) && IdleIsClear(s)
    ensures IdleIsClear(Do(s, step))
  {
  }

  lemma {:induction false} RunIdle(states: seq<State>, steps: seq<Step>, k: nat)
    requires Run(states, steps) && k < |states|
    ensures IdleIsClear(states[k])
  {
    if k > 0 {
      RunIdle(states, steps, k - 1);
      assert StepAt(states, steps, k - 1);
      IdleStep(states[k - 1], steps[k - 1]);
    }
  }

  function WriterLeft(s: State): nat {
    match s.writer
    case NoWriter => 0
    case RetiringGate(_) => 1
    case Erasing => 1
    case Scanning(_, slot) => 2 + if slot < |s.hazards| then |s.hazards| - slot else 0
    case Marking(_, left) => 3 + |s.hazards| + |left|
  }

  lemma {:induction false} FreshAddress(used: set<Address>) returns (x: Address)
    ensures x !in used && forall y | y in used :: y < x
    decreases |used|
  {
    if used == {} {
      x := 0;
    } else {
      var y :| y in used;
      var z := FreshAddress(used - {y});
      x := if z <= y then y + 1 else z;
      assert forall w | w in used :: w == y || w in used - {y};
    }
  }

  lemma MarkedEntriesExist(s: State, step: Step)
    requires Inv(s) && Enabled(s, step) && (s.writer.Marking? ==> s.writer.left <= s.entries.Keys)
    requires s.writer.RetiringGate? ==> s.writer.entry in s.entries
    ensures Do(s, step).writer.Marking? ==> Do(s, step).writer.left <= Do(s, step).entries.Keys
    ensures Do(s, step).writer.RetiringGate? ==> Do(s, step).writer.entry in Do(s, step).entries
  {
  }

  lemma {:induction false} RunMarked(states: seq<State>, steps: seq<Step>, k: nat)
    requires Run(states, steps) && k < |states|
    ensures states[k].writer.Marking? ==> states[k].writer.left <= states[k].entries.Keys
    ensures states[k].writer.RetiringGate? ==> states[k].writer.entry in states[k].entries
  {
    if k > 0 {
      RunMarked(states, steps, k - 1);
      RunInv(states, steps, k - 1);
      assert StepAt(states, steps, k - 1);
      MarkedEntriesExist(states[k - 1], steps[k - 1]);
    }
  }

  /** A writer can always take a step that leaves it less to do, unless a lookup in progress still has its
      hazard on the snapshot to be freed. */
  lemma WriterWaitsForReadersOnly(states: seq<State>, steps: seq<Step>, k: nat) returns (step: Step)
    requires Run(states, steps) && k < |states| && !states[k].writer.NoWriter?
    requires var s := states[k];
             s.writer.Scanning? && s.writer.slot < |s.hazards| && s.hazards[s.writer.slot] == Some(s.writer.previous) ==>
               Reading(s, s.writer.slot) && s.readers[s.writer.slot].Idle?
    ensures Enabled(states[k], step) && WriterLeft(Do(states[k], step)) < WriterLeft(states[k])
  {
    RunIdle(states, steps, k);
    RunMarked(states, steps, k);
    var s := states[k];
    match s.writer
    case NoWriter =>
    case RetiringGate(_) => step := RetireGate;
    case Erasing => step := Erase;
    case Scanning(_, slot) => step := if slot < |s.hazards| then Scan else FreePrevious;
    case Marking(_, left) =>
      if left == {} {
        var a := FreshAddress(s.snapshots.Keys);
        step := PublishReclaim(a);
      } else {
        var e :| e in left;
        step := MarkEntry(e);
      }
  }

  /** Nobody else's entry is taken out. */
  lemma OnlyRetiredEntriesGo(states: seq<State>, steps: seq<Step>, k: nat, e: Address)
    requires Run(states, steps) && k < |steps| && e in states[k].entries && states[k].entries[e].registered
    ensures e in states[k + 1].entries && states[k + 1].entries[e].key == states[k].entries[e].key
    ensures !states[k + 1].entries[e].registered ==> steps[k] == Retire(e)
  {
    RunInv(states, steps, k);
    assert StepAt(states, steps, k);
    assert EntryInv(states[k], e);
  }
}
