/** What `Port` promises over whole runs: delivered messages are intact and in order, nothing is
    lost silently, `Push` is wait-free and `Pop` needs at most two more passes once the producer is frozen
    (include/utils/port.h:346-352, 381-471).
 */
module PortTheorems {
  import opened TripleCell
  import opened PortProtocol

  ghost predicate IsRun(run: seq<Port>, steps: seq<Step>) {
    && |run| == |steps| + 1 && Init(run[0])
    && forall k | 0 <= k < |steps| :: StepAt(run, steps, k)
  }

  ghost predicate StepAt(run: seq<Port>, steps: seq<Step>, k: nat)
    requires k < |steps| && |run| == |steps| + 1
  {
    Next(run[k], steps[k], run[k + 1])
  }

  lemma {:induction false} RunInv(run: seq<Port>, steps: seq<Step>, k: nat)
    requires IsRun(run, steps) && k < |run|
    ensures PortProtocol.Inv(run[k])
  {
    if k == 0 {
      InitInv(run[0]);
    } else {
      RunInv(run, steps, k - 1);
      assert StepAt(run, steps, k - 1);
      NextInv(run[k - 1], steps[k - 1], run[k]);
    }
  }

  ghost predicate HeldCellKept(r: Reg, r': Reg) {
    r.reader.Holding? ==>
      r.reader.held < |r.cells| && r.reader.held < |r'.cells| && r'.cells[r.reader.held] == r.cells[r.reader.held]
  }

  lemma AdvanceKeepsHeldCell(r: Reg, width: nat, number: nat, payload: seq<nat>)
    requires TripleCell.Inv(r, width)
    ensures HeldCellKept(r, Advance(r, number, payload))
  {
  }

  lemma ConsumerKeepsCells(s: Port, i: nat)
    requires Shape(s) && !s.consumer.Idle? && i < s.len
    ensures var t := ConsumerStep(s);
            |t.slots| == s.len && t.slots[i].cells == s.slots[i].cells && t.head.cells == s.head.cells
  {
  }

  lemma ProducerKeepsHeldCells(s: Port, i: nat)
    requires Shape(s) && !s.producer.Quiet? && i < s.len && SlotInv(s, i) && HeadInv(s)
    ensures var t := ProducerStep(s);
            |t.slots| == s.len && HeldCellKept(s.slots[i], t.slots[i]) && HeldCellKept(s.head, t.head)
  {
    AdvanceKeepsHeldCell(s.slots[i], s.width, s.produced + 1, s.producer.message);
    AdvanceKeepsHeldCell(s.head, 0, s.produced + 1, []);
  }

  /** While a validated hazard protects a cell, no step of anyone writes a word of that cell. */
  lemma HeldCellsAreNotWritten(s: Port, step: Step, t: Port, i: nat)
    requires PortProtocol.Inv(s) && Next(s, step, t) && i < s.len
    ensures i < |t.slots| && HeldCellKept(s.slots[i], t.slots[i])
    ensures HeldCellKept(s.head, t.head)
  {
    assert SlotInv(s, i);
    if step.Produce? {
      ProducerKeepsHeldCells(s, i);
    } else if step.Consume? {
      ConsumerKeepsCells(s, i);
    }
  }

  /** Positions only grow, and what was pushed under a number stays that message. */
  lemma NeverBackwards(s: Port, step: Step, t: Port)
    requires PortProtocol.Inv(s) && Next(s, step, t)
    ensures s.position <= t.position && s.produced <= t.produced && s.pushed <= t.pushed && s.log <= t.log
  {
    if step.Consume? && s.consumer.ReadingHead? && HeadReadDone(s) {
      HeadReadIsGenuine(s);
    }
  }

  // ---------------------------------------------------------------- who discards

  /** A call of `Clear` from its start in step `j0` up to step `j`. */
  ghost predicate ClearCall(run: seq<Port>, steps: seq<Step>, j0: nat, j: nat)
    requires |run| == |steps| + 1
  {
    && j0 < j < |steps| && steps[j0] == Start(Clear)
    && forall i | j0 < i <= j :: run[i].consumer == ReadingHead(Clear)
  }

  /** That call moves over `m` in step `j`, its last. */
  ghost predicate ClearPasses(run: seq<Port>, steps: seq<Step>, j0: nat, j: nat, m: nat)
    requires |run| == |steps| + 1
  {
    && ClearCall(run, steps, j0, j) && steps[j] == Consume
    && run[j + 1].consumer.Idle? && run[j].position <= m < run[j + 1].position
  }

  ghost predicate PassedByClear(run: seq<Port>, steps: seq<Step>, k: nat, m: nat)
    requires |run| == |steps| + 1
  {
    exists j0: nat, j: nat :: j < k && ClearPasses(run, steps, j0, j, m)
  }

  /** `Clear` ends right behind the head it read, discards exactly the numbers up to it and reports them. */
  lemma ClearDiscards(s: Port, t: Port)
    requires PortProtocol.Inv(s) && Next(s, Consume, t) && s.consumer == ReadingHead(Clear) && HeadReadDone(s)
    ensures s.head.reader.held < |s.head.values|
    ensures var head := s.head.values[s.head.reader.held].number;
            && t.consumer.Idle? && t.position == head + 1 && s.position <= head + 1
            && (forall m: nat :: m in t.cleared <==> m in s.cleared || s.position <= m <= head)
            && t.log == s.log + [Discarded(s.position, head)]
  {
    HeadReadIsGenuine(s);
    HeadReadShowsPublished(s);
  }

  lemma ClearedStep(s: Port, step: Step, t: Port, m: nat)
    requires PortProtocol.Inv(s) && Next(s, step, t) && m in t.cleared && m !in s.cleared
    ensures step.Consume? && s.consumer == ReadingHead(Clear) && t.consumer.Idle? && s.position <= m < t.position
  {
    if step.Consume? && s.consumer == ReadingHead(Clear) && HeadReadDone(s) { ClearDiscards(s, t); }
  }

  /** Whoever is in a `Clear` has called it. */
  lemma {:induction false} ClearWasCalled(run: seq<Port>, steps: seq<Step>, j: nat) returns (j0: nat)
    requires IsRun(run, steps) && j < |steps| && run[j].consumer == ReadingHead(Clear)
    ensures ClearCall(run, steps, j0, j)
  {
    if j == 0 {
      assert false;
    } else {
      assert StepAt(run, steps, j - 1);
      ConsumerCameFrom(run[j - 1], steps[j - 1], run[j]);
      if steps[j - 1] == Start(Clear) {
        j0 := j - 1;
      } else {
        j0 := ClearWasCalled(run, steps, j - 1);
      }
    }
  }

  lemma ConsumerCameFrom(s: Port, step: Step, t: Port)
    requires Next(s, step, t) && t.consumer == ReadingHead(Clear)
    ensures step == Start(Clear) || s.consumer == ReadingHead(Clear)
  {
  }

  /** Only a call of `Clear` that passes over a number discards it. */
  lemma {:induction false} ClearedByClear(run: seq<Port>, steps: seq<Step>, k: nat, m: nat)
    requires IsRun(run, steps) && k < |run| && m in run[k].cleared
    ensures PassedByClear(run, steps, k, m)
  {
    if k > 0 {
      assert StepAt(run, steps, k - 1);
      if m in run[k - 1].cleared {
        ClearedByClear(run, steps, k - 1, m);
        var j0: nat, j: nat :| j < k - 1 && ClearPasses(run, steps, j0, j, m);
        assert j < k && ClearPasses(run, steps, j0, j, m);
      } else {
        RunInv(run, steps, k - 1);
        ClearedStep(run[k - 1], steps[k - 1], run[k], m);
        var j0 := ClearWasCalled(run, steps, k - 1);
        assert ClearPasses(run, steps, j0, k - 1, m);
      }
    }
  }

  // ---------------------------------------------------------------- main results

  /** Main result.  In every reachable state: each delivered message is the one pushed under its
      number; numbers are strictly increasing; every number behind the consumer was delivered,
      passed over by a call of `Clear`, or overwritten by a push at least `Len` later that is already in
      its slot; the consumer is never more than one ahead of the head, and the head shows every
      completed push. */
  lemma EveryRunDelivers(run: seq<Port>, steps: seq<Step>, k: nat)
    requires IsRun(run, steps) && k < |run|
    ensures var s := run[k];
            && (forall i | 0 <= i < |s.log| && s.log[i].Popped? ::
                  1 <= s.log[i].number <= |s.pushed| && s.log[i].message == s.pushed[s.log[i].number - 1])
            && (forall i, j | 0 <= i < j < |s.log| && s.log[i].Popped? && s.log[j].Popped? ::
                  s.log[i].number < s.log[j].number)
            && (forall m | 1 <= m < s.position ::
                  Delivered(s, m) || PassedByClear(run, steps, k, m) || m + s.len <= InSlots(s))
            && 1 <= s.position <= s.produced + 1
            && |s.pushed| == s.produced + (if s.producer.Quiet? then 0 else 1)
  {
    RunInv(run, steps, k);
    var s := run[k];
    forall i | 0 <= i < |s.log| ensures SoundOutcome(s, s.log[i]) {}
    forall m | 1 <= m < s.position ensures Delivered(s, m) || PassedByClear(run, steps, k, m) || m + s.len <= InSlots(s) {
      if m in s.cleared { ClearedByClear(run, steps, k, m); }
    }
  }

  ghost predicate InCall(s: Port, op: Operation) {
    s.consumer == ReadingHead(op) || (op.Pop? && s.consumer.ReadingSlot?)
  }

  ghost predicate Answers(op: Operation, o: Outcome) {
    match op
    case Pop => o.Popped? || o.Nothing?
    case Empty => o.Answered?
    case Clear => o.Discarded?
  }

  /** Every call ends with one answer, of its own kind, and answers at no other time. */
  lemma CallStep(s: Port, step: Step, t: Port, op: Operation)
    requires PortProtocol.Inv(s) && Next(s, step, t) && InCall(s, op) && !step.Start?
    ensures if t.consumer.Idle? then |t.log| == |s.log| + 1 && t.log[..|s.log|] == s.log && Answers(op, t.log[|s.log|])
            else t.log == s.log && InCall(t, op)
  {
    if step.Consume? {
      if s.consumer.ReadingHead? {
        if HeadReadDone(s) { HeadReadIsGenuine(s); }
      } else {
        var j := SlotOf(s.len, s.position);
        assert SlotInv(s, j);
        if SlotReadDone(s) && s.slots[j].reader.Holding? { SlotReadIsGenuine(s, j); }
      }
    }
  }

  /** A call in progress since its start in step `j`. */
  lemma {:induction false} CallAnswers(run: seq<Port>, steps: seq<Step>, j: nat, k: nat)
    requires IsRun(run, steps) && j < k < |run| && steps[j].Start?
    requires forall i | j < i < k :: !run[i].consumer.Idle?
    ensures if run[k].consumer.Idle? then run[j].log < run[k].log && |run[k].log| == |run[j].log| + 1 && Answers(steps[j].op, run[k].log[|run[j].log|])
            else run[k].log == run[j].log && InCall(run[k], steps[j].op)
  {
    RunInv(run, steps, k - 1);
    assert StepAt(run, steps, k - 1);
    if k > j + 1 {
      CallAnswers(run, steps, j, k - 1);
      CallStep(run[k - 1], steps[k - 1], run[k], steps[j].op);
    }
  }

  /** The head a call has read is not older than `n`. */
  ghost predicate ReadsFrom(s: Port, n: nat) {
    && n <= s.produced
    && (s.head.reader.Holding? ==> s.head.reader.held < |s.head.values| && s.head.values[s.head.reader.held].number >= n)
  }

  lemma ReadsFromStep(s: Port, step: Step, t: Port, n: nat)
    requires PortProtocol.Inv(s) && Next(s, step, t) && ReadsFrom(s, n)
    ensures ReadsFrom(t, n)
  {
  }

  lemma {:induction false} ReadsFromStart(run: seq<Port>, steps: seq<Step>, j: nat, k: nat)
    requires IsRun(run, steps) && j < k < |run| && steps[j].Start?
    ensures ReadsFrom(run[k], run[j].produced)
  {
    RunInv(run, steps, k - 1);
    assert StepAt(run, steps, k - 1);
    if k == j + 1 {
      assert run[j].head.reader.Away?;
    } else {
      ReadsFromStart(run, steps, j, k - 1);
      ReadsFromStep(run[k - 1], steps[k - 1], run[k], run[j].produced);
    }
  }

  /** A call sees every push completed before it: if `Pop` or `Empty` answers from head `h`, or `Clear`
      discards up to it, `h` is not below the head at any earlier start of the call. */
  lemma AnswersAreFresh(run: seq<Port>, steps: seq<Step>, j: nat, k: nat)
    requires IsRun(run, steps) && j < k < |steps| && steps[j].Start? && |run[k + 1].log| > |run[k].log|
    ensures match run[k + 1].log[|run[k].log|]
            case Nothing(head, position) => run[j].produced <= head < position == run[k].position
            case Answered(empty, head, position) => run[j].produced <= head && position == run[k].position && (empty <==> head < position)
            case Discarded(first, last) => run[j].produced <= last && first == run[k].position && last + 1 == run[k + 1].position
            case Popped(number, _) => number == run[k].position
            case GaveUp => false
  {
    RunInv(run, steps, k);
    assert StepAt(run, steps, k);
    ReadsFromStart(run, steps, j, k);
    LoggedAnswer(run[k], steps[k], run[k + 1], run[j].produced);
  }

  lemma LoggedAnswer(s: Port, step: Step, t: Port, n: nat)
    requires PortProtocol.Inv(s) && Next(s, step, t) && ReadsFrom(s, n) && |t.log| > |s.log|
    ensures match t.log[|s.log|]
            case Nothing(head, position) => n <= head < position == s.position
            case Answered(empty, head, position) => n <= head && position == s.position && (empty <==> head < position)
            case Discarded(first, last) => n <= last && first == s.position && last + 1 == t.position
            case Popped(number, _) => number == s.position
            case GaveUp => false
  {
    if s.consumer.ReadingHead? {
      HeadReadIsGenuine(s);
      HeadReadShowsPublished(s);
    } else {
      var j := SlotOf(s.len, s.position);
      assert SlotInv(s, j);
      SlotReadIsGenuine(s, j);
    }
  }

  /** `Pop` answers empty only if the head it read is behind its position; its other empty exit and
      the torn-metadata branch are dead code. */
  lemma EmptyMeansEmpty(run: seq<Port>, steps: seq<Step>, k: nat)
    requires IsRun(run, steps) && k < |run|
    ensures var s := run[k];
            && (forall i | 0 <= i < |s.log| :: s.log[i] != GaveUp
                  && (s.log[i].Nothing? ==> s.log[i].head < s.log[i].position))
            && (s.head.reader.Holding? && |s.head.reader.got| >= 4 ==> Consistent(s.head.reader.got, 3))
            && |s.slots| == s.len
            && (forall i | 0 <= i < s.len && s.slots[i].reader.Holding? && |s.slots[i].reader.got| >= 5 ::
                  && Consistent(s.slots[i].reader.got, 4)
                  && s.slots[i].reader.got[3] == s.slots[i].reader.held
                  && Number(s.slots[i].reader.got) >= s.position)
  {
    RunInv(run, steps, k);
    var s := run[k];
    forall i | 0 <= i < |s.log| ensures SoundOutcome(s, s.log[i]) {}
    if s.head.reader.Holding? && |s.head.reader.got| >= 4 { HeadReadIsGenuine(s); }
    forall i | 0 <= i < s.len && s.slots[i].reader.Holding? && |s.slots[i].reader.got| >= 5
      ensures Consistent(s.slots[i].reader.got, 4)
              && s.slots[i].reader.got[3] == s.slots[i].reader.held && Number(s.slots[i].reader.got) >= s.position
    {
      SlotReadIsGenuine(s, i);
    }
  }

  // ---------------------------------------------------------------- wait-free Push

  function WriterLeft(r: Reg, atRest: nat): int {
    if r.writer.Resting? then atRest
    else |Script(r.kind, r.writer.target)| - r.writer.done + 1
  }

  /** Atomic accesses and payload words left in the current `Push`: 7 + width for the slot, 6 for
      the head. */
  function PushLeft(s: Port): int
    requires Shape(s)
  {
    match s.producer
    case Quiet => 0
    case WritingSlot(_) => WriterLeft(s.slots[SlotOf(s.len, s.produced + 1)], s.width + 7) + 6
    case WritingHead(_) => WriterLeft(s.head, 6)
  }

  lemma AdvanceLeft(r: Reg, width: nat, number: nat, payload: seq<nat>, atRest: nat)
    requires TripleCell.Inv(r, width) && |payload| == width
    requires atRest == (if r.kind.SlotCells? then width + 7 else 6)
    ensures WriterLeft(r, atRest) > 0
    ensures !CanPublish(r) ==> WriterLeft(Advance(r, number, payload), atRest) == WriterLeft(r, atRest) - 1
    ensures CanPublish(r) ==> WriterLeft(r, atRest) == 1 && Advance(r, number, payload).writer.Resting?
  {
  }

  lemma ProduceLeft(s: Port, t: Port)
    requires PortProtocol.Inv(s) && Next(s, Produce, t) && Shape(t)
    ensures PushLeft(s) > 0 && PushLeft(t) == PushLeft(s) - 1
  {
    var j := SlotOf(s.len, s.produced + 1);
    assert SlotInv(s, j);
    if s.producer.WritingSlot? {
      AdvanceLeft(s.slots[j], s.width, s.produced + 1, s.producer.message, s.width + 7);
    } else {
      AdvanceLeft(s.head, 0, s.produced + 1, [], 6);
    }
  }

  lemma ConsumerKeepsWriters(s: Port, i: nat)
    requires Shape(s) && !s.consumer.Idle? && i < s.len
    ensures var t := ConsumerStep(s);
            && |t.slots| == s.len && t.producer == s.producer && t.produced == s.produced && t.width == s.width
            && t.slots[i].writer == s.slots[i].writer && t.slots[i].kind == s.slots[i].kind
            && t.head.writer == s.head.writer && t.head.kind == s.head.kind && t.len == s.len
  {
  }

  lemma PushIsWaitFree(s: Port, step: Step, t: Port)
    requires PortProtocol.Inv(s) && Next(s, step, t)
    ensures Shape(t)
    ensures step.StartPush? ==> PushLeft(t) == s.width + 13
    ensures step.Produce? ==> PushLeft(s) > 0 && PushLeft(t) == PushLeft(s) - 1
    ensures step.Start? || step.Consume? ==> PushLeft(t) == PushLeft(s)
  {
    NextInv(s, step, t);
    ShapeFromInv(t);
    match step
    case StartPush(_) => assert SlotInv(s, SlotOf(s.len, s.produced + 1));
    case Produce => ProduceLeft(s, t);
    case Start(_) =>
    case Consume => ConsumerKeepsWriters(s, SlotOf(s.len, s.produced + 1));
  }

  // ---------------------------------------------------------------- Pop against a frozen producer

  /** With the producer frozen, an index that was loaded is still the published one. */
  ghost predicate Undisturbed(r: Reg) {
    match r.reader
    case Away => true
    case Loaded(c) => c == r.published
    case Marked(c) => c == r.published
    case Missed => false
    case Holding(c, _) => c == r.published
  }

  /** With the producer frozen since before pass `base + 1` read the head, the consumer is in that
      pass or the next, and the next finds its message. */
  ghost predicate SoloInv(s: Port, base: int)
    requires Shape(s)
  {
    && base + 1 <= s.passes <= base + 2 && Undisturbed(s.head)
    && (s.consumer.ReadingHead? ==> s.consumer.op.Pop?)
    && (s.consumer.ReadingSlot? ==>
          s.consumer.head == s.produced && Undisturbed(s.slots[SlotOf(s.len, s.position)]))
    && (s.passes == base + 2 ==> s.position + s.len > InSlots(s))
  }

  function ReaderLeft(r: Reader, loads: nat): int {
    match r
    case Away => loads + 4
    case Loaded(_) => loads + 3
    case Marked(_) => loads + 2
    case Missed => loads + 5
    case Holding(_, got) => loads + 1 - |got|
  }

  /** Bound on the consumer's remaining steps. */
  function PopLeft(s: Port, base: int): int
    requires Shape(s)
  {
    (if s.passes == base + 1 then s.width + 17 else 0) +
    match s.consumer
    case Idle => 0
    case ReadingHead(_) => ReaderLeft(s.head.reader, 4) + s.width + 9
    case ReadingSlot(_) => ReaderLeft(s.slots[SlotOf(s.len, s.position)].reader, s.width + 5)
  }

  lemma SoloHeadDone(s: Port, t: Port, base: int)
    requires PortProtocol.Inv(s) && Next(s, Consume, t) && Shape(t) && SoloInv(s, base) && HeadReadDone(s)
    ensures SoloInv(t, base) && 0 <= PopLeft(t, base) < PopLeft(s, base)
  {
    HeadReadIsGenuine(s);
    HeadReadShowsPublished(s);
    GotBound(s.head, 0);
    var j := SlotOf(t.len, t.position);
    assert SlotInv(s, j);
    assert t == HeadKnown(s.(head := Release(s.head)), s.produced);
  }

  lemma SoloHeadAccess(s: Port, t: Port, base: int)
    requires Shape(s) && HeadInv(s) && PositionInv(s) && SoloInv(s, base)
    requires s.consumer.ReadingHead? && !HeadReadDone(s) && t == HeadStep(s) && Shape(t)
    ensures SoloInv(t, base) && PopLeft(t, base) == PopLeft(s, base) - 1
  {
    HeadAccess(s);
  }

  lemma SoloHeadStep(s: Port, t: Port, base: int)
    requires PortProtocol.Inv(s) && Next(s, Consume, t) && SoloInv(s, base) && s.consumer.ReadingHead?
    ensures Shape(t) && SoloInv(t, base) && 0 <= PopLeft(t, base) < PopLeft(s, base)
  {
    NextInv(s, Consume, t);
    ShapeFromInv(t);
    if HeadReadDone(s) {
      SoloHeadDone(s, t, base);
    } else {
      SoloHeadAccess(s, t, base);
      if t.head.reader.Holding? { GotBound(t.head, 0); }
    }
  }

  lemma HeadReadShowsPublished(s: Port)
    requires PortProtocol.Inv(s) && HeadReadDone(s)
    ensures Number(s.head.reader.got) == s.head.values[s.head.reader.held].number
  {
    var got, v := s.head.reader.got, s.head.values[s.head.reader.held];
    assert got[1] == Image(HeadCells, v)[ReadIndex(HeadCells, 1)];
    assert got[2] == Image(HeadCells, v)[ReadIndex(HeadCells, 2)];
    assert v.number == v.number % WORD + v.number / WORD * WORD;
  }

  /** A reader never loads more words than the order prescribes. */
  lemma GotBound(r: Reg, width: nat)
    requires TripleCell.Inv(r, width) && r.reader.Holding?
    ensures |r.reader.got| <= (if r.kind.SlotCells? then 5 + width else 4)
  {
    if r.reader.got != [] {
      assert ReadIndex(r.kind, |r.reader.got| - 1) < |Image(r.kind, r.values[r.reader.held])|;
    }
  }

  lemma SoloSlotDone(s: Port, t: Port, base: int)
    requires PortProtocol.Inv(s) && Next(s, Consume, t) && Shape(t) && SoloInv(s, base)
    requires s.consumer.ReadingSlot? && SlotReadDone(s)
    ensures SoloInv(t, base) && 0 <= PopLeft(t, base) < PopLeft(s, base)
  {
    var j := SlotOf(s.len, s.position);
    SlotReadIsGenuine(s, j);
    assert SlotInv(s, j);
    var n := Number(s.slots[j].reader.got);
    if n != s.position {
      assert Genuine(s, j, s.slots[j].values[s.slots[j].reader.held]);
      SameSlot(s.len, s.position, n);
    }
  }

  lemma SoloSlotAccess(s: Port, t: Port, base: int)
    requires Shape(s) && PositionInv(s) && SoloInv(s, base) && s.consumer.ReadingSlot?
    requires SlotInv(s, SlotOf(s.len, s.position)) && !SlotReadDone(s) && t == SlotStep(s) && Shape(t)
    ensures SoloInv(t, base) && PopLeft(t, base) == PopLeft(s, base) - 1
  {
    SlotAccess(s, SlotOf(s.len, s.position));
  }

  lemma SlotReaderBound(s: Port)
    requires PortProtocol.Inv(s) && s.consumer.ReadingSlot?
    ensures var r := s.slots[SlotOf(s.len, s.position)].reader;
            r.Holding? ==> |r.got| <= 5 + s.width
  {
    var j := SlotOf(s.len, s.position);
    assert SlotInv(s, j);
    if s.slots[j].reader.Holding? { GotBound(s.slots[j], s.width); }
  }

  lemma SoloSlotStep(s: Port, t: Port, base: int)
    requires PortProtocol.Inv(s) && Next(s, Consume, t) && SoloInv(s, base) && s.consumer.ReadingSlot?
    ensures Shape(t) && SoloInv(t, base) && 0 <= PopLeft(t, base) < PopLeft(s, base)
  {
    NextInv(s, Consume, t);
    ShapeFromInv(t);
    if SlotReadDone(s) {
      SoloSlotDone(s, t, base);
    } else {
      assert SlotInv(s, SlotOf(s.len, s.position));
      SoloSlotAccess(s, t, base);
      SlotAccess(s, SlotOf(s.len, s.position));
      SlotReaderBound(t);
    }
  }

  ghost predicate ConsumesAt(solo: seq<Port>, k: nat)
    requires k + 1 < |solo|
  {
    Next(solo[k], Consume, solo[k + 1])
  }

  lemma SoloStep(s: Port, t: Port, base: int)
    requires PortProtocol.Inv(s) && Next(s, Consume, t) && SoloInv(s, base)
    ensures PortProtocol.Inv(t) && Shape(t) && SoloInv(t, base) && 0 <= PopLeft(t, base) < PopLeft(s, base)
  {
    NextInv(s, Consume, t);
    if s.consumer.ReadingHead? { SoloHeadStep(s, t, base); } else { SoloSlotStep(s, t, base); }
  }

  lemma {:induction false} SoloBound(solo: seq<Port>, base: int, k: nat)
    requires |solo| > 0 && PortProtocol.Inv(solo[0]) && k < |solo|
    requires Shape(solo[0]) && SoloInv(solo[0], base)
    requires forall k | 0 <= k < |solo| - 1 :: ConsumesAt(solo, k)
    requires PopLeft(solo[0], base) >= 0
    ensures PortProtocol.Inv(solo[k]) && Shape(solo[k]) && SoloInv(solo[k], base)
    ensures 0 <= PopLeft(solo[k], base) <= PopLeft(solo[0], base) - k
  {
    if k > 0 {
      SoloBound(solo, base, k - 1);
      assert ConsumesAt(solo, k - 1);
      SoloStep(solo[k - 1], solo[k], base);
    }
  }

  // ---------------------------------------------------------------- frozen in the middle of a Pop

  ghost predicate PopUnderWay(s: Port) {
    s.consumer == ReadingHead(Pop) || s.consumer.ReadingSlot?
  }

  /** The consumer may hold something the producer replaced before it was frozen: an index of the
      head, the head's number, or an index of a slot. */
  ghost predicate Stale(s: Port) {
    s.consumer.ReadingSlot? || (s.consumer == ReadingHead(Pop) && !Undisturbed(s.head))
  }

  /** The head has yet to be read, or is being read, in its final state. */
  ghost predicate Settled(s: Port) {
    s.consumer == ReadingHead(Pop) && Undisturbed(s.head)
  }

  /** Bound on the steps until nothing stale is left, or `Pop` has returned. */
  function StaleLeft(s: Port): int
    requires Shape(s)
  {
    match s.consumer
    case Idle => 0
    case ReadingHead(_) => (
      match s.head.reader
      case Away => 0
      case Loaded(_) => 3
      case Marked(_) => 2
      case Missed => 1
      case Holding(_, got) => s.width + 14 - |got|
      )
    case ReadingSlot(_) => (
      match s.slots[SlotOf(s.len, s.position)].reader
      case Away => s.width + 9
      case Loaded(_) => s.width + 8
      case Marked(_) => s.width + 7
      case Missed => 1
      case Holding(_, got) => s.width + 6 - |got|
      )
  }

  lemma StaleLeftBounds(s: Port)
    requires PortProtocol.Inv(s) && Shape(s) && Stale(s)
    ensures 1 <= StaleLeft(s) <= s.width + 14
  {
    if s.consumer.ReadingSlot? {
      SlotReaderBound(s);
    } else if s.head.reader.Holding? {
      GotBound(s.head, 0);
    }
  }

  /** A stale read of the head ends in a fresh one, in an empty answer, or at a slot. */
  lemma StaleHeadStep(s: Port, t: Port)
    requires PortProtocol.Inv(s) && Next(s, Consume, t) && s.consumer == ReadingHead(Pop) && !Undisturbed(s.head) && Shape(t)
    ensures t.width == s.width && t.passes == s.passes
    ensures t.consumer.Idle? || Settled(t) || (Stale(t) && StaleLeft(t) < StaleLeft(s))
  {
    if HeadReadDone(s) {
      HeadReadIsGenuine(s);
      GotBound(s.head, 0);
      var n := Number(s.head.reader.got);
      assert t == HeadKnown(s.(head := Release(s.head)), n);
      if t.consumer.ReadingSlot? { assert SlotInv(s, SlotOf(t.len, t.position)); }
    }
  }

  /** A stale look at a slot delivers, or sends the consumer back to the head. */
  lemma StaleSlotStep(s: Port, t: Port)
    requires PortProtocol.Inv(s) && Next(s, Consume, t) && s.consumer.ReadingSlot? && Shape(t)
    ensures t.width == s.width
    ensures || t.consumer.Idle? || (Settled(t) && t.passes == s.passes + 1)
            || (Stale(t) && t.passes == s.passes && StaleLeft(t) < StaleLeft(s))
  {
    if SlotReadDone(s) {
      StaleSlotDone(s);
    } else {
      StaleSlotAccess(s);
    }
  }

  lemma StaleSlotDone(s: Port)
    requires PortProtocol.Inv(s) && Shape(s) && s.consumer.ReadingSlot? && SlotReadDone(s)
    ensures var t := SlotStep(s);
            t.width == s.width && (t.consumer.Idle? || (Settled(t) && t.passes == s.passes + 1))
  {
  }

  lemma StaleSlotAccess(s: Port)
    requires PortProtocol.Inv(s) && Shape(s) && s.consumer.ReadingSlot? && !SlotReadDone(s)
    ensures var t := SlotStep(s);
            && t.width == s.width && t.passes == s.passes && t.consumer == s.consumer && t.position == s.position
            && Shape(t) && t.len == s.len && StaleLeft(t) < StaleLeft(s)
  {
    var j := SlotOf(s.len, s.position);
    assert SlotInv(s, j);
    SlotAccess(s, j);
  }

  lemma StaleStep(s: Port, t: Port)
    requires PortProtocol.Inv(s) && Next(s, Consume, t) && Stale(s)
    ensures PortProtocol.Inv(t) && Shape(t) && t.width == s.width
    ensures t.consumer.Idle? ==> t.passes <= s.passes
    ensures || t.consumer.Idle? || (Settled(t) && t.passes <= s.passes + 1)
            || (Stale(t) && t.passes == s.passes && StaleLeft(t) < StaleLeft(s))
  {
    NextInv(s, Consume, t);
    ShapeFromInv(t);
    if s.consumer.ReadingHead? { StaleHeadStep(s, t); } else { StaleSlotStep(s, t); }
  }

  /** From any reachable state with a `Pop` under way, freeze the producer at whatever step it has come
      to: every consumer-only run takes at most two further passes and 3 * (width + 16) steps (one
      further pass and 2 * (width + 17) steps if the consumer is about to read the head), and it can
      always continue until `Pop` has returned. */
  lemma PopFinishesWithProducerFrozen(solo: seq<Port>)
    requires |solo| > 0 && PortProtocol.Inv(solo[0]) && PopUnderWay(solo[0])
    requires forall k | 0 <= k < |solo| - 1 :: ConsumesAt(solo, k)
    ensures |solo| - 1 <= 3 * (solo[0].width + 16) && solo[|solo| - 1].passes <= solo[0].passes + 2
    ensures solo[0].consumer == ReadingHead(Pop) && solo[0].head.reader.Away? ==>
              |solo| - 1 <= 2 * (solo[0].width + 17) && solo[|solo| - 1].passes <= solo[0].passes + 1
    ensures var last := solo[|solo| - 1]; last.consumer.Idle? || (Shape(last) && Next(last, Consume, ConsumerStep(last)))
  {
    ShapeFromInv(solo[0]);
    if Stale(solo[0]) {
      StaleLeftBounds(solo[0]);
      StaleBound(solo);
    } else {
      SettledBound(solo);
    }
  }

  /** From a fresh read of the head on: this pass and at most one more. */
  lemma SettledBound(solo: seq<Port>)
    requires |solo| > 0 && PortProtocol.Inv(solo[0]) && Settled(solo[0])
    requires forall k | 0 <= k < |solo| - 1 :: ConsumesAt(solo, k)
    ensures |solo| - 1 <= 2 * (solo[0].width + 17) && solo[|solo| - 1].passes <= solo[0].passes + 1
    ensures var last := solo[|solo| - 1]; last.consumer.Idle? || (Shape(last) && Next(last, Consume, ConsumerStep(last)))
  {
    ShapeFromInv(solo[0]);
    if solo[0].head.reader.Holding? { GotBound(solo[0].head, 0); }
    SoloBound(solo, solo[0].passes - 1, |solo| - 1);
  }

  lemma {:induction false} StaleBound(solo: seq<Port>)
    requires |solo| > 0 && PortProtocol.Inv(solo[0]) && Shape(solo[0]) && Stale(solo[0])
    requires forall k | 0 <= k < |solo| - 1 :: ConsumesAt(solo, k)
    ensures |solo| - 1 <= StaleLeft(solo[0]) + 2 * (solo[0].width + 17) && solo[|solo| - 1].passes <= solo[0].passes + 2
    ensures var last := solo[|solo| - 1]; last.consumer.Idle? || (Shape(last) && Next(last, Consume, ConsumerStep(last)))
    decreases |solo|
  {
    StaleLeftBounds(solo[0]);
    if |solo| > 1 {
      assert ConsumesAt(solo, 0) && (|solo| > 2 ==> ConsumesAt(solo, 1));
      StaleStep(solo[0], solo[1]);
      var rest := solo[1..];
      forall k | 0 <= k < |rest| - 1 ensures ConsumesAt(rest, k) { assert ConsumesAt(solo, k + 1); }
      assert rest[|rest| - 1] == solo[|solo| - 1];
      if Stale(solo[1]) {
        StaleBound(rest);
      } else if Settled(solo[1]) {
        SettledBound(rest);
      }
    }
  }
}
