/** The overwriting single-producer single-consumer ring `Port` under every interleaving
    (include/utils/port.h:358-538).  `Len` slots and the head are TripleCell registers; one producer
    runs `Push`, one consumer runs `Pop`, `Empty` and `Clear`, one atomic access per step.
    `pushed`, `cleared`, `passes` and `log` are history variables.
 */
module PortProtocol {
  import opened Arith
  import opened TripleCell

  datatype Operation = Pop | Empty | Clear

  datatype Producer = Quiet | WritingSlot(message: seq<nat>) | WritingHead(message: seq<nat>)

  /** `ReadingSlot(head)` looks for `position` after having read `head`. */
  datatype Consumer = Idle | ReadingHead(op: Operation) | ReadingSlot(head: nat)

  datatype Outcome =
    | Popped(number: nat, message: seq<nat>)
    | Nothing(head: nat, position: nat)
    | GaveUp
    | Answered(empty: bool, head: nat, position: nat)
    | Discarded(first: nat, last: nat)

  datatype Port = Port(
    len: nat, width: nat, slots: seq<Reg>, head: Reg,
    producer: Producer, produced: nat, pushed: seq<seq<nat>>,
    consumer: Consumer, position: nat, passes: nat, cleared: set<nat>, log: seq<Outcome>)

  datatype Step = StartPush(message: seq<nat>) | Produce | Start(op: Operation) | Consume

  // ---------------------------------------------------------------- steps

  ghost predicate Init(s: Port) {
    && s.len > 2 && |s.slots| == s.len
    && (forall i | 0 <= i < s.len :: s.slots[i] == Initial(SlotCells, s.width))
    && s.head == Initial(HeadCells, 0)
    && s.producer == Quiet && s.produced == 0 && s.pushed == []
    && s.consumer == Idle && s.position == 1 && s.cleared == {} && s.log == []
  }

  predicate Shape(s: Port) {
    && s.len > 2 && |s.slots| == s.len && s.position >= 1
    && (forall i | 0 <= i < s.len :: RegShape(s.slots[i]))
    && RegShape(s.head)
  }

  predicate RegShape(r: Reg) {
    |r.cells| == CELL_COUNT == |r.values| && r.published < CELL_COUNT
  }

  /** Index of the slot of a number. */
  function SlotOf(len: nat, number: nat): (i: nat)
    requires len > 0 && number > 0
    ensures i < len && i < number
  {
    (number - 1) % len
  }

  function Advance(r: Reg, number: nat, payload: seq<nat>): Reg
    requires RegShape(r)
  {
    if r.writer.Resting? then BeginWrite(r, number, payload)
    else if CanStore(r) then StoreWord(r)
    else if CanPublish(r) then Publish(r)
    else r
  }

  function ProducerStep(s: Port): Port
    requires Shape(s) && !s.producer.Quiet?
  {
    var number := s.produced + 1;
    if s.producer.WritingSlot? then
      var i := SlotOf(s.len, number);
      var t := s.(slots := s.slots[i := Advance(s.slots[i], number, s.producer.message)]);
      if CanPublish(s.slots[i]) then t.(producer := WritingHead(s.producer.message)) else t
    else
      var t := s.(head := Advance(s.head, number, []));
      if CanPublish(s.head) then t.(producer := Quiet, produced := number) else t
  }

  /** The metadata a reader has loaded: consistent if the version was even and unchanged. */
  predicate Consistent(got: seq<nat>, last: nat) {
    last < |got| && got[0] % 2 == 0 && got[0] == got[last]
  }

  function Number(got: seq<nat>): nat
    requires |got| >= 3
  {
    got[1] + got[2] * WORD
  }

  function Oldest(head: nat, len: nat): nat {
    if head > len then head - len + 1 else 1
  }

  function Max(a: nat, b: nat): nat {
    if a < b then b else a
  }

  function HeadStep(s: Port): Port
    requires Shape(s) && s.consumer.ReadingHead?
  {
    match s.head.reader
    case Away => s.(head := Load(s.head))
    case Loaded(_) => s.(head := Mark(s.head))
    case Marked(_) => s.(head := Check(s.head))
    case Missed => s.(head := Release(s.head))
    case Holding(_, got) =>
      if |got| < 4 then
        if CanRead(s.head, ReadIndex(HeadCells, |got|)) then s.(head := ReadWord(s.head, ReadIndex(HeadCells, |got|))) else s
      else if !Consistent(got, 3) then s.(head := Release(s.head))
      else HeadKnown(s.(head := Release(s.head)), Number(got))
  }

  function Between(first: nat, last: nat): (r: set<nat>)
    ensures forall m {:trigger m in r} :: m in r <==> first <= m <= last
    decreases last
  {
    if first > last then {} else if last == 0 then {0} else Between(first, last - 1) + {last}
  }

  /** What `Pop`, `Empty` and `Clear` do with the head they read. */
  function HeadKnown(s: Port, head: nat): Port
    requires s.consumer.ReadingHead?
  {
    match s.consumer.op
    case Empty => s.(consumer := Idle, log := s.log + [Answered(s.position > head, head, s.position)])
    case Clear => s.(consumer := Idle, position := head + 1,
                     cleared := s.cleared + Between(s.position, head),
                     log := s.log + [Discarded(s.position, head)])
    case Pop =>
      if s.position > head then s.(consumer := Idle, log := s.log + [Nothing(head, s.position)])
      else s.(consumer := ReadingSlot(head), position := Max(s.position, Oldest(head, s.len)))
  }

  function SlotStep(s: Port): Port
    requires Shape(s) && s.consumer.ReadingSlot?
  {
    var i := SlotOf(s.len, s.position);
    var r := s.slots[i];
    match r.reader
    case Away => s.(slots := s.slots[i := Load(r)])
    case Loaded(_) => s.(slots := s.slots[i := Mark(r)])
    case Marked(_) => s.(slots := s.slots[i := Check(r)])
    case Missed => Retry(s.(slots := s.slots[i := Release(r)]), s.position)
    case Holding(c, got) =>
      var released := s.(slots := s.slots[i := Release(r)]);
      if |got| < 5 then ReadMore(s, i)
      else if !Consistent(got, 4) || got[3] != c then Retry(released, s.position)
      else if Number(got) != s.position then
        if Number(got) > s.position then Retry(released, Number(got))
        else released.(consumer := Idle, log := s.log + [GaveUp])
      else if |got| < 5 + s.width then ReadMore(s, i)
      else released.(consumer := Idle, position := s.position + 1,
                     log := s.log + [Popped(s.position, got[5..])])
  }

  function ReadMore(s: Port, i: nat): Port
    requires i < |s.slots| && s.slots[i].reader.Holding?
  {
    var r := s.slots[i];
    var index := ReadIndex(SlotCells, |r.reader.got|);
    if CanRead(r, index) then s.(slots := s.slots[i := ReadWord(r, index)]) else s
  }

  /** Back to the top of `Pop`'s loop after seeing number `resync` in the slot. */
  function Retry(s: Port, resync: nat): Port {
    s.(consumer := ReadingHead(Pop), passes := s.passes + 1,
       position := if resync > s.position then Max(s.position, Oldest(resync, s.len)) else s.position)
  }

  function ConsumerStep(s: Port): Port
    requires Shape(s) && !s.consumer.Idle?
  {
    if s.consumer.ReadingHead? then HeadStep(s) else SlotStep(s)
  }

  ghost predicate Next(s: Port, step: Step, t: Port) {
    Shape(s) &&
    match step
    case StartPush(message) =>
      && s.producer.Quiet? && |message| == s.width
      && t == s.(producer := WritingSlot(message), pushed := s.pushed + [message])
    case Produce => !s.producer.Quiet? && t == ProducerStep(s)
    case Start(op) => s.consumer.Idle? && t == s.(consumer := ReadingHead(op), passes := 1)
    case Consume => !s.consumer.Idle? && t == ConsumerStep(s)
  }

  // ---------------------------------------------------------------- invariant

  /** Pushes already published in their slot; the head may lag by one. */
  function InSlots(s: Port): nat {
    s.produced + (if s.producer.WritingHead? then 1 else 0)
  }

  /** `v` is the latest number up to `n` that lives in slot `i`, or 0. */
  ghost predicate IsLatest(len: nat, i: nat, n: nat, v: nat)
    requires len > 0
  {
    if v == 0 then n <= i else v <= n < v + len && SlotOf(len, v) == i
  }

  ghost predicate Genuine(s: Port, i: nat, v: Value)
    requires s.len > 0
  {
    v.number > 0 ==>
      v.number <= InSlots(s) && SlotOf(s.len, v.number) == i
      && v.number <= |s.pushed| && v.payload == s.pushed[v.number - 1]
  }

  ghost predicate SlotInv(s: Port, i: nat)
    requires s.len > 0 && s.position > 0 && i < |s.slots|
  {
    var r := s.slots[i];
    && r.kind == SlotCells && TripleCell.Inv(r, s.width)
    && IsLatest(s.len, i, InSlots(s), r.values[r.published].number)
    && (forall c | 0 <= c < CELL_COUNT :: Genuine(s, i, r.values[c]))
    && (r.writer.Filling? ==>
          && s.producer.WritingSlot? && i == SlotOf(s.len, s.produced + 1)
          && r.writer.target.number == s.produced + 1 && r.writer.target.payload == s.producer.message)
    && (!r.reader.Away? ==> s.consumer.ReadingSlot? && i == SlotOf(s.len, s.position))
    && (r.reader.Holding? ==> r.values[r.reader.held].number >= s.position)
  }

  ghost predicate SlotsInv(s: Port) {
    s.len > 0 && s.position > 0 && |s.slots| == s.len && forall i | 0 <= i < s.len :: SlotInv(s, i)
  }

  ghost predicate HeadInv(s: Port) {
    var r := s.head;
    && r.kind == HeadCells && TripleCell.Inv(r, 0)
    && r.values[r.published].number == s.produced
    && (forall c | 0 <= c < CELL_COUNT :: r.values[c].number <= s.produced)
    && (r.writer.Filling? ==> s.producer.WritingHead? && r.writer.target.number == s.produced + 1)
    && (!r.reader.Away? ==> s.consumer.ReadingHead?)
    && (r.reader.Holding? ==> r.values[r.reader.held].number + 1 >= s.position)
  }

  ghost predicate PushedInv(s: Port) {
    && |s.pushed| == s.produced + (if s.producer.Quiet? then 0 else 1)
    && (forall k | 0 <= k < |s.pushed| :: |s.pushed[k]| == s.width)
    && (!s.producer.Quiet? ==> s.pushed[s.produced] == s.producer.message)
  }

  ghost predicate PositionInv(s: Port) {
    && 1 <= s.position <= s.produced + 1
    && (s.consumer.ReadingSlot? ==>
          s.position <= s.consumer.head <= s.produced && s.consumer.head < s.position + s.len)
  }

  ghost predicate Delivered(s: Port, m: nat) {
    exists k :: 0 <= k < |s.log| && s.log[k].Popped? && s.log[k].number == m
  }

  /** Every number behind the consumer was delivered, cleared, or overwritten in its slot. */
  ghost predicate Accounted(s: Port) {
    forall m | 1 <= m < s.position :: Delivered(s, m) || m in s.cleared || m + s.len <= InSlots(s)
  }

  ghost predicate SoundOutcome(s: Port, o: Outcome) {
    match o
    case Popped(m, message) => 1 <= m < s.position && m <= |s.pushed| && message == s.pushed[m - 1]
    case Nothing(head, position) => head < position
    case GaveUp => false
    case Answered(empty, head, position) => empty <==> head < position
    case Discarded(first, last) => first <= last + 1 <= s.position
  }

  ghost predicate LogInv(s: Port) {
    && (forall k | 0 <= k < |s.log| :: SoundOutcome(s, s.log[k]))
    && (forall j, k | 0 <= j < k < |s.log| ::
          s.log[j].Popped? && s.log[k].Popped? ==> s.log[j].number < s.log[k].number)
  }

  ghost predicate Inv(s: Port) {
    s.len > 2 && PositionInv(s) && SlotsInv(s) && HeadInv(s) && PushedInv(s) && Accounted(s) && LogInv(s)
  }

  // ---------------------------------------------------------------- arithmetic of slots

  lemma SameSlot(len: nat, a: nat, b: nat)
    requires len > 0 && 0 < a < b && SlotOf(len, a) == SlotOf(len, b)
    ensures a + len <= b
  {
    CongruentGap(len, a - 1, b - 1);
  }

  /** The latest number of a slot after one more push. */
  lemma LatestStep(len: nat, i: nat, n: nat, v: nat)
    requires len > 0 && i < len && IsLatest(len, i, n, v)
    ensures i == SlotOf(len, n + 1) ==> IsLatest(len, i, n + 1, n + 1)
    ensures i != SlotOf(len, n + 1) ==> IsLatest(len, i, n + 1, v)
  {
    if i != SlotOf(len, n + 1) {
      if v == 0 {
        if n < len { UniqueRemainder(len, 0, n, n); }
      } else {
        AddModulus(len, v - 1);
      }
    }
  }

  /** The slot of an already published number never shows an older one. */
  lemma LatestCovers(len: nat, n: nat, v: nat, target: nat)
    requires len > 0 && 0 < target <= n && IsLatest(len, SlotOf(len, target), n, v)
    ensures v >= target
  {
    if 0 < v < target { SameSlot(len, v, target); }
  }

  // ---------------------------------------------------------------- preservation

  lemma InitInv(s: Port)
    requires Init(s)
    ensures Inv(s)
  {
    InitialInv(SlotCells, s.width);
    InitialInv(HeadCells, 0);
  }

  lemma ShapeFromInv(s: Port)
    requires Inv(s)
    ensures Shape(s)
  {
    forall i | 0 <= i < s.len ensures RegShape(s.slots[i]) { assert SlotInv(s, i); }
  }

  lemma StartPushInv(s: Port, message: seq<nat>, t: Port)
    requires Inv(s) && Next(s, StartPush(message), t)
    ensures Inv(t)
  {
    forall i | 0 <= i < t.len ensures SlotInv(t, i) { assert SlotInv(s, i); }
    forall m | 1 <= m < t.position && Delivered(s, m) ensures Delivered(t, m) {}
  }

  lemma StartInv(s: Port, op: Operation, t: Port)
    requires Inv(s) && Next(s, Start(op), t)
    ensures Inv(t)
  {
    SlotsKept(s, t);
    LogKept(s, t);
  }

  /** The slot being written, before its index is published: `SlotInv` reads only these parts. */
  lemma FillSlot(s: Port, r: Reg, j: nat)
    requires s.len > 0 && s.position > 0 && j < |s.slots| && SlotInv(s, j)
    requires TripleCell.Inv(r, s.width)
    requires r == s.slots[j].(cells := r.cells, writer := r.writer)
    requires r.writer.Filling?
             && s.producer.WritingSlot? && j == SlotOf(s.len, s.produced + 1)
             && r.writer.target.number == s.produced + 1 && r.writer.target.payload == s.producer.message
    ensures SlotInv(s.(slots := s.slots[j := r]), j)
  {
    var t := s.(slots := s.slots[j := r]);
    forall c | 0 <= c < CELL_COUNT ensures Genuine(t, j, t.slots[j].values[c]) {
      assert Genuine(s, j, s.slots[j].values[c]);
    }
  }

  lemma BeginSlot(s: Port, j: nat)
    requires s.len > 0 && s.position > 0 && j < |s.slots| && SlotInv(s, j)
    requires s.producer.WritingSlot? && j == SlotOf(s.len, s.produced + 1) && |s.producer.message| == s.width
    requires s.slots[j].writer.Resting?
    ensures SlotInv(s.(slots := s.slots[j := BeginWrite(s.slots[j], s.produced + 1, s.producer.message)]), j)
  {
    BeginWriteInv(s.slots[j], s.width, s.produced + 1, s.producer.message);
    FillSlot(s, BeginWrite(s.slots[j], s.produced + 1, s.producer.message), j);
  }

  lemma StoreSlot(s: Port, j: nat)
    requires s.len > 0 && s.position > 0 && j < |s.slots| && SlotInv(s, j)
    requires CanStore(s.slots[j])
    ensures SlotInv(s.(slots := s.slots[j := StoreWord(s.slots[j])]), j)
  {
    StoreWordInv(s.slots[j], s.width);
    FillSlot(s, StoreWord(s.slots[j]), j);
  }

  /** The index is published: the slot now shows the new number. */
  lemma PublishSlot(s: Port, t: Port, j: nat)
    requires s.len > 0 && s.position > 0 && j < |s.slots| && SlotInv(s, j)
    requires s.producer.WritingSlot? && j == SlotOf(s.len, s.produced + 1)
    requires |s.pushed| == s.produced + 1 && s.pushed[s.produced] == s.producer.message
    requires CanPublish(s.slots[j])
    requires t == s.(slots := s.slots[j := Publish(s.slots[j])], producer := WritingHead(s.producer.message))
    ensures SlotInv(t, j)
  {
    var r := s.slots[j];
    LatestStep(s.len, j, s.produced, r.values[r.published].number);
    PublishInv(r, s.width);
    forall c | 0 <= c < CELL_COUNT ensures Genuine(t, j, t.slots[j].values[c]) {
      assert Genuine(s, j, r.values[c]);
    }
  }

  lemma OtherSlot(s: Port, t: Port, i: nat)
    requires s.len > 0 && s.position > 0 && i < |s.slots| && SlotInv(s, i)
    requires s.producer.WritingSlot? && i < s.len && i != SlotOf(s.len, s.produced + 1)
    requires t == s.(slots := t.slots) || t == s.(slots := t.slots, producer := WritingHead(s.producer.message))
    requires i < |t.slots| && t.slots[i] == s.slots[i]
    ensures SlotInv(t, i)
  {
    LatestStep(s.len, i, s.produced, s.slots[i].values[s.slots[i].published].number);
    forall c | 0 <= c < CELL_COUNT ensures Genuine(t, i, t.slots[i].values[c]) {
      assert Genuine(s, i, s.slots[i].values[c]);
    }
  }

  lemma ProduceAnySlot(s: Port, i: nat)
    requires SlotsInv(s) && PushedInv(s) && Shape(s) && s.producer.WritingSlot? && i < s.len
    ensures SlotInv(ProducerStep(s), i)
  {
    var j := SlotOf(s.len, s.produced + 1);
    var t := ProducerStep(s);
    assert SlotInv(s, i);
    if i != j { OtherSlot(s, t, i); } else { ProduceOwnSlot(s); }
  }

  lemma ProduceOwnSlot(s: Port)
    requires Shape(s) && PushedInv(s) && s.producer.WritingSlot? && SlotInv(s, SlotOf(s.len, s.produced + 1))
    ensures SlotInv(ProducerStep(s), SlotOf(s.len, s.produced + 1))
  {
    var j := SlotOf(s.len, s.produced + 1);
    OwnSlotForm(s, j);
    if CanPublish(s.slots[j]) {
      PublishSlot(s, ProducerStep(s), j);
    } else if s.slots[j].writer.Resting? {
      BeginSlot(s, j);
    } else {
      StoreSlot(s, j);
    }
  }

  /** The three things the producer can do to its slot. */
  lemma OwnSlotForm(s: Port, j: nat)
    requires Shape(s) && PushedInv(s) && s.producer.WritingSlot? && j == SlotOf(s.len, s.produced + 1) && SlotInv(s, j)
    ensures var r := s.slots[j];
            ProducerStep(s) ==
            if CanPublish(r) then s.(slots := s.slots[j := Publish(r)], producer := WritingHead(s.producer.message))
            else if r.writer.Resting? then s.(slots := s.slots[j := BeginWrite(r, s.produced + 1, s.producer.message)])
            else if CanStore(r) then s.(slots := s.slots[j := StoreWord(r)]) else s
    ensures CanPublish(s.slots[j]) || s.slots[j].writer.Resting? || CanStore(s.slots[j])
    ensures |s.producer.message| == s.width
  {
    assert |s.pushed[s.produced]| == s.width;
  }

  /** Everything but the slot arrays. */
  lemma ProduceSlotRest(s: Port, t: Port)
    requires HeadInv(s) && PositionInv(s) && PushedInv(s) && Accounted(s) && LogInv(s)
    requires s.producer.WritingSlot?
    requires t == s.(slots := t.slots) || t == s.(slots := t.slots, producer := WritingHead(s.producer.message))
    ensures HeadInv(t) && PositionInv(t) && PushedInv(t) && Accounted(t) && LogInv(t)
  {
    LogKept(s, t);
  }

  lemma ProduceSlotInv(s: Port, t: Port)
    requires Inv(s) && Next(s, Produce, t) && s.producer.WritingSlot?
    ensures Inv(t)
  {
    forall i | 0 <= i < t.len ensures SlotInv(t, i) { ProduceAnySlot(s, i); }
    ProduceSlotRest(s, t);
  }

  lemma ProduceHead(s: Port)
    requires HeadInv(s) && PushedInv(s) && PositionInv(s) && Shape(s) && s.producer.WritingHead?
    ensures HeadInv(ProducerStep(s)) && PushedInv(ProducerStep(s)) && PositionInv(ProducerStep(s))
    ensures InSlots(ProducerStep(s)) == InSlots(s)
  {
    var r := s.head;
    if r.writer.Resting? {
      BeginWriteInv(r, 0, s.produced + 1, []);
    } else if CanStore(r) {
      StoreWordInv(r, 0);
    } else {
      PublishInv(r, 0);
    }
  }

  lemma ProduceHeadInv(s: Port, t: Port)
    requires Inv(s) && Next(s, Produce, t) && s.producer.WritingHead?
    ensures Inv(t)
  {
    ProduceHead(s);
    forall i | 0 <= i < t.len ensures SlotInv(t, i) {
      assert SlotInv(s, i);
      SlotElsewhereHead(s, t, i);
    }
    LogKept(s, t);
  }

  /** The head publication does not change what the slots hold. */
  lemma SlotElsewhereHead(s: Port, t: Port, i: nat)
    requires s.len > 0 && s.position > 0 && i < |s.slots| && SlotInv(s, i) && s.producer.WritingHead?
    requires t == s.(head := t.head, producer := t.producer, produced := t.produced)
    requires InSlots(t) == InSlots(s) && !t.producer.WritingSlot?
    ensures SlotInv(t, i)
  {
    forall c | 0 <= c < CELL_COUNT ensures Genuine(t, i, t.slots[i].values[c]) {
      assert Genuine(s, i, s.slots[i].values[c]);
    }
  }

  /** Log entries stay sound and numbers stay accounted for while nothing moves backwards. */
  lemma LogKept(s: Port, t: Port)
    requires Accounted(s) && LogInv(s)
    requires t.log == s.log && t.position == s.position && t.len == s.len && s.cleared <= t.cleared
    requires s.pushed <= t.pushed && InSlots(s) <= InSlots(t)
    ensures Accounted(t) && LogInv(t)
  {
    forall m | Delivered(s, m) ensures Delivered(t, m) {}
    forall k | 0 <= k < |t.log| ensures SoundOutcome(t, t.log[k]) { assert SoundOutcome(s, s.log[k]); }
  }

  /** The same when the position advances over overwritten numbers and one outcome is logged. */
  lemma LogExtended(s: Port, t: Port, o: Outcome)
    requires Accounted(s) && LogInv(s)
    requires t.log == s.log + [o] && t.position >= s.position && t.len == s.len && s.cleared <= t.cleared
    requires t.pushed == s.pushed && InSlots(s) == InSlots(t)
    requires SoundOutcome(t, o) && (o.Popped? ==> o.number >= s.position)
    requires forall m | s.position <= m < t.position ::
               (o.Popped? && o.number == m) || m in t.cleared || m + t.len <= InSlots(t)
    ensures Accounted(t) && LogInv(t)
  {
    assert t.log[|s.log|] == o;
    forall m | Delivered(s, m) ensures Delivered(t, m) {
      var k :| 0 <= k < |s.log| && s.log[k].Popped? && s.log[k].number == m;
      assert t.log[k] == s.log[k];
    }
    forall k | 0 <= k < |t.log| ensures SoundOutcome(t, t.log[k]) {
      if k < |s.log| { assert SoundOutcome(s, s.log[k]); }
    }
    forall k | 0 <= k < |s.log| && s.log[k].Popped? ensures s.log[k].number < s.position {
      assert SoundOutcome(s, s.log[k]);
    }
  }
  /** A completed head read is never torn and returns the number of the held cell. */
  lemma HeadReadIsGenuine(s: Port)
    requires Inv(s) && s.head.reader.Holding? && |s.head.reader.got| >= 4
    ensures Consistent(s.head.reader.got, 3)
    ensures s.position <= Number(s.head.reader.got) + 1 <= s.produced + 1
  {
    var got, v := s.head.reader.got, s.head.values[s.head.reader.held];
    assert got[0] == Image(HeadCells, v)[ReadIndex(HeadCells, 0)];
    assert got[1] == Image(HeadCells, v)[ReadIndex(HeadCells, 1)];
    assert got[2] == Image(HeadCells, v)[ReadIndex(HeadCells, 2)];
    assert got[3] == Image(HeadCells, v)[ReadIndex(HeadCells, 3)];
    assert v.number == v.number % WORD + v.number / WORD * WORD;
  }

  /** A slot read is never torn, names its own cell, and never shows a number below the target. */
  lemma SlotReadIsGenuine(s: Port, i: nat)
    requires Inv(s) && i < s.len && s.slots[i].reader.Holding? && |s.slots[i].reader.got| >= 5
    ensures var got := s.slots[i].reader.got;
            && s.slots[i].reader.held < |s.slots[i].values|
            && Consistent(got, 4) && got[3] == s.slots[i].reader.held
            && Number(got) >= s.position && Number(got) == s.slots[i].values[s.slots[i].reader.held].number
    ensures |s.slots[i].reader.got| <= 5 + s.width && Number(s.slots[i].reader.got) <= InSlots(s)
    ensures |s.slots[i].reader.got| == 5 + s.width && Number(s.slots[i].reader.got) == s.position
            ==> s.position <= |s.pushed| && s.slots[i].reader.got[5..] == s.pushed[s.position - 1]
  {
    assert SlotInv(s, i);
    var got, v := s.slots[i].reader.got, s.slots[i].values[s.slots[i].reader.held];
    var image := Image(SlotCells, v);
    assert got[0] == image[ReadIndex(SlotCells, 0)] && got[1] == image[ReadIndex(SlotCells, 1)]
           && got[2] == image[ReadIndex(SlotCells, 2)] && got[3] == image[ReadIndex(SlotCells, 3)]
           && got[4] == image[ReadIndex(SlotCells, 4)];
    assert v.number == v.number % WORD + v.number / WORD * WORD;
    assert Genuine(s, i, v);
    assert ReadIndex(SlotCells, |got| - 1) < |image|;
    if |got| == 5 + s.width {
      forall k | 0 <= k < s.width ensures got[5..][k] == v.payload[k] {
        assert got[5 + k] == image[ReadIndex(SlotCells, 5 + k)];
      }
      assert got[5..] == v.payload;
    }
  }

  predicate HeadReadDone(s: Port) {
    s.consumer.ReadingHead? && s.head.reader.Holding? && |s.head.reader.got| >= 4
  }

  /** While the consumer is not at a slot, no slot depends on the consumer. */
  lemma SlotsKept(s: Port, t: Port)
    requires SlotsInv(s) && !s.consumer.ReadingSlot? && t.position > 0
    requires t == s.(head := t.head, consumer := t.consumer, position := t.position,
                     passes := t.passes, cleared := t.cleared, log := t.log)
    ensures SlotsInv(t)
  {
    forall i | 0 <= i < t.len ensures SlotInv(t, i) {
      assert SlotInv(s, i);
      forall c | 0 <= c < CELL_COUNT ensures Genuine(t, i, t.slots[i].values[c]) {
        assert Genuine(s, i, s.slots[i].values[c]);
      }
    }
  }

  lemma HeadAccess(s: Port)
    requires HeadInv(s) && PositionInv(s) && Shape(s) && s.consumer.ReadingHead? && !HeadReadDone(s)
    ensures HeadStep(s) == s.(head := HeadStep(s).head) && HeadInv(HeadStep(s))
  {
    ReaderStepsInv(s.head, 0);
    if s.head.reader.Holding? { ReadWordInv(s.head, 0); }
  }

  lemma HeadAccessInv(s: Port, t: Port)
    requires Inv(s) && Next(s, Consume, t) && s.consumer.ReadingHead? && !HeadReadDone(s)
    ensures Inv(t)
  {
    HeadAccess(s);
    SlotsKept(s, t);
    LogKept(s, t);
  }

  lemma HeadReleased(s: Port, t: Port)
    requires HeadInv(s) && t.head == Release(s.head) && t.produced == s.produced && t.producer == s.producer
    ensures HeadInv(t)
  {
    ReaderStepsInv(s.head, 0);
  }

  lemma HeadDoneInv(s: Port, t: Port)
    requires Inv(s) && Next(s, Consume, t) && HeadReadDone(s)
    ensures Inv(t)
  {
    HeadReadIsGenuine(s);
    var head := Number(s.head.reader.got);
    assert t == HeadKnown(s.(head := Release(s.head)), head);
    HeadReleased(s, t);
    SlotsKept(s, t);
    HeadKnownLog(s, t, head);
  }

  lemma HeadKnownLog(s: Port, t: Port, head: nat)
    requires Accounted(s) && LogInv(s) && PositionInv(s) && s.len > 0 && s.consumer.ReadingHead?
    requires s.position <= head + 1 <= s.produced + 1
    requires t == HeadKnown(s.(head := t.head), head)
    ensures Accounted(t) && LogInv(t) && PositionInv(t)
  {
    if |t.log| > |s.log| {
      LogExtended(s, t, t.log[|s.log|]);
    } else {
      Skipped(s, t);
    }
  }

  /** The consumer moved over numbers whose slots were already overwritten. */
  lemma Skipped(s: Port, t: Port)
    requires Accounted(s) && LogInv(s)
    requires t.log == s.log && t.position >= s.position && t.len == s.len && s.cleared == t.cleared
    requires t.pushed == s.pushed && InSlots(s) == InSlots(t)
    requires t.position > s.position ==> t.position - 1 + t.len <= InSlots(t)
    ensures Accounted(t) && LogInv(t)
  {
    forall m | Delivered(s, m) ensures Delivered(t, m) {}
    forall k | 0 <= k < |t.log| ensures SoundOutcome(t, t.log[k]) { assert SoundOutcome(s, s.log[k]); }
  }

  /** A reader step on the slot keeps the slot's invariant. */
  lemma ReadSlot(s: Port, r: Reg, i: nat)
    requires s.len > 0 && s.position > 0 && i < |s.slots| && SlotInv(s, i)
    requires s.consumer.ReadingSlot? && i == SlotOf(s.len, s.position)
    requires r == s.slots[i].(hazard := r.hazard, reader := r.reader) && TripleCell.Inv(r, s.width)
    requires r.reader.Holding? ==> r.values[r.reader.held].number >= s.position
    ensures SlotInv(s.(slots := s.slots[i := r]), i)
  {
    var t := s.(slots := s.slots[i := r]);
    forall c | 0 <= c < CELL_COUNT ensures Genuine(t, i, t.slots[i].values[c]) {
      assert Genuine(s, i, s.slots[i].values[c]);
    }
  }

  predicate SlotReadDone(s: Port)
    requires Shape(s)
  {
    s.consumer.ReadingSlot? &&
    var r := s.slots[SlotOf(s.len, s.position)].reader;
    r.Missed? ||
    (r.Holding? && |r.got| >= 5
     && (!Consistent(r.got, 4) || r.got[3] != r.held || Number(r.got) != s.position || |r.got| >= 5 + s.width))
  }

  lemma SlotAccess(s: Port, j: nat)
    requires Shape(s) && j < s.len && SlotInv(s, j) && PositionInv(s)
    requires s.consumer.ReadingSlot? && j == SlotOf(s.len, s.position) && !SlotReadDone(s)
    ensures var t := SlotStep(s);
            t == s.(slots := s.slots[j := t.slots[j]]) && SlotInv(t, j)
  {
    var r, t := s.slots[j], SlotStep(s);
    ReaderStepsInv(r, s.width);
    LatestCovers(s.len, InSlots(s), r.values[r.published].number, s.position);
    if r.reader.Holding? {
      ReadWordInv(r, s.width);
      assert t == ReadMore(s, j);
    }
    ReadSlot(s, t.slots[j], j);
  }

  /** Another slot does not see the consumer. */
  lemma SlotElsewhere(s: Port, t: Port, i: nat)
    requires s.len > 0 && s.position > 0 && i < |s.slots| && SlotInv(s, i)
    requires t.len == s.len && t.width == s.width && t.producer == s.producer && t.produced == s.produced
    requires t.pushed == s.pushed && t.position > 0 && i < |t.slots| && t.slots[i] == s.slots[i]
    requires s.slots[i].reader.Away?
    ensures SlotInv(t, i)
  {
    forall c | 0 <= c < CELL_COUNT ensures Genuine(t, i, t.slots[i].values[c]) {
      assert Genuine(s, i, s.slots[i].values[c]);
    }
  }

  lemma SlotAccessInv(s: Port, t: Port)
    requires Inv(s) && Next(s, Consume, t) && s.consumer.ReadingSlot? && !SlotReadDone(s)
    ensures Inv(t)
  {
    var j := SlotOf(s.len, s.position);
    assert SlotInv(s, j);
    SlotAccess(s, j);
    forall i | 0 <= i < t.len ensures SlotInv(t, i) {
      assert SlotInv(s, i);
      if i != j { SlotElsewhere(s, t, i); }
    }
    LogKept(s, t);
  }

  /** The slot is released; `t` is the state in which `Pop` decides. */
  lemma SlotReleased(s: Port, t: Port, i: nat)
    requires s.len > 0 && s.position > 0 && i < |s.slots| && SlotInv(s, i)
    requires t.len == s.len && t.width == s.width && t.producer == s.producer && t.produced == s.produced
    requires t.pushed == s.pushed && t.position > 0 && i < |t.slots| && t.slots[i] == Release(s.slots[i])
    ensures SlotInv(t, i)
  {
    ReaderStepsInv(s.slots[i], s.width);
    forall c | 0 <= c < CELL_COUNT ensures Genuine(t, i, t.slots[i].values[c]) {
      assert Genuine(s, i, s.slots[i].values[c]);
    }
  }

  lemma ReleaseSlots(s: Port, t: Port)
    requires SlotsInv(s) && s.consumer.ReadingSlot? && t.position > 0
    requires var j := SlotOf(s.len, s.position);
             t == s.(slots := s.slots[j := Release(s.slots[j])], consumer := t.consumer,
                     position := t.position, passes := t.passes, log := t.log)
    ensures SlotsInv(t)
  {
    var j := SlotOf(s.len, s.position);
    forall i | 0 <= i < t.len ensures SlotInv(t, i) {
      assert SlotInv(s, i);
      if i == j { SlotReleased(s, t, i); } else { SlotElsewhere(s, t, i); }
    }
  }

  /** The slot moved on between the hazard store and its validation. */
  lemma SlotMissedInv(s: Port, t: Port)
    requires Inv(s) && Next(s, Consume, t) && s.consumer.ReadingSlot?
    requires s.slots[SlotOf(s.len, s.position)].reader.Missed?
    ensures Inv(t)
  {
    ReleaseSlots(s, t);
    Skipped(s, t);
  }

  /** The slot shows a newer number: `Pop` moves on and retries. */
  lemma SlotOverwrittenInv(s: Port, t: Port)
    requires Inv(s) && Next(s, Consume, t) && s.consumer.ReadingSlot?
    requires var r := s.slots[SlotOf(s.len, s.position)].reader;
             r.Holding? && |r.got| >= 5 && Number(r.got) != s.position
    ensures Inv(t)
  {
    var j := SlotOf(s.len, s.position);
    SlotReadIsGenuine(s, j);
    ReleaseSlots(s, t);
    Skipped(s, t);
  }

  /** The slot shows the target and the whole payload was copied under the hazard. */
  lemma SlotDeliveredInv(s: Port, t: Port)
    requires Inv(s) && Next(s, Consume, t) && s.consumer.ReadingSlot?
    requires var r := s.slots[SlotOf(s.len, s.position)].reader;
             r.Holding? && |r.got| >= 5 + s.width && Number(r.got) == s.position
    ensures Inv(t)
    ensures t.log == s.log + [Popped(s.position, s.pushed[s.position - 1])]
  {
    var j := SlotOf(s.len, s.position);
    SlotReadIsGenuine(s, j);
    ReleaseSlots(s, t);
    LogExtended(s, t, Popped(s.position, s.slots[j].reader.got[5..]));
  }

  lemma SlotDoneInv(s: Port, t: Port)
    requires Inv(s) && Next(s, Consume, t) && s.consumer.ReadingSlot? && SlotReadDone(s)
    ensures Inv(t)
  {
    var j := SlotOf(s.len, s.position);
    if s.slots[j].reader.Missed? {
      SlotMissedInv(s, t);
    } else {
      SlotReadIsGenuine(s, j);
      if Number(s.slots[j].reader.got) != s.position {
        SlotOverwrittenInv(s, t);
      } else {
        SlotDeliveredInv(s, t);
      }
    }
  }

  lemma NextInv(s: Port, step: Step, t: Port)
    requires Inv(s) && Next(s, step, t)
    ensures Inv(t)
  {
    match step
    case StartPush(message) => StartPushInv(s, message, t);
    case Produce => if s.producer.WritingSlot? { ProduceSlotInv(s, t); } else { ProduceHeadInv(s, t); }
    case Start(op) => StartInv(s, op, t);
    case Consume =>
      if s.consumer.ReadingHead? {
        if HeadReadDone(s) { HeadDoneInv(s, t); } else { HeadAccessInv(s, t); }
      } else {
        if SlotReadDone(s) { SlotDoneInv(s, t); } else { SlotAccessInv(s, t); }
      }
  }
}
