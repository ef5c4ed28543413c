/** Soft-synchronised sending: per-device channels and a bulk queue per bus, drained by commits and
    mode changes (src/adapter/base_adapter.cc:143-191, 207-285; src/bus/bus.cc:456-472).  Submits,
    commits and mode changes hold the adapter's submit mutex throughout, so each is one step.
    `CreateBus` is two: it publishes the bus, outside sync mode, and later gives it the adapter's
    default mode without draining it (src/driver_manager_create.cc:219-248); anybody may use the bus
    in between.
 */
module SoftSync {
  import opened PortQueue

  const CHANNEL_CAPACITY: nat := 10

  datatype Origin = Bulk | Immediate | Channel(c: nat)

  /** One outgoing frame with its provenance: `index` counts the submissions of that origin. */
  datatype Item = Item(bus: nat, origin: Origin, index: nat, frame: seq<nat>)

  /** History of one channel: everything submitted, and the submission counts at which it was
      flushed (0 stands for its creation), the latest of which is `last`. */
  datatype Ledger = Ledger(submitted: seq<Item>, flushes: set<nat>, last: nat)

  /** `ready` once `InitializeBusSyncMode` has run.  `bulkSubmitted` and `immediates` are histories. */
  datatype BusState = BusState(
    ready: bool, sync: bool, channels: seq<seq<Item>>, bulk: seq<Item>,
    ledgers: seq<Ledger>, bulkSubmitted: seq<Item>, immediates: seq<Item>)

  datatype Adapter = Adapter(buses: seq<BusState>, defaultSync: bool, out: seq<Item>)

  // ---------------------------------------------------------------- operations

  function Concat(channels: seq<seq<Item>>): seq<Item> {
    if channels == [] then [] else Concat(channels[..|channels| - 1]) + channels[|channels| - 1]
  }

  /** Everything queued on a bus: channel by channel, then the bulk queue. */
  function Pending(b: BusState): seq<Item> {
    Concat(b.channels) + b.bulk
  }

  function FlushLedger(l: Ledger): Ledger {
    l.(flushes := l.flushes + {|l.submitted|}, last := |l.submitted|)
  }

  function Drained(b: BusState): BusState {
    b.(channels := seq(|b.channels|, _ => []), bulk := [],
       ledgers := seq(|b.ledgers|, c requires 0 <= c < |b.ledgers| => FlushLedger(b.ledgers[c])))
  }

  function AddChannel(b: BusState): BusState {
    b.(channels := b.channels + [[]], ledgers := b.ledgers + [Ledger([], {0}, 0)])
  }

  function ChannelItem(b: BusState, bus: nat, c: nat, frame: seq<nat>): Item
    requires c < |b.ledgers|
  {
    Item(bus, Channel(c), |b.ledgers[c].submitted|, frame)
  }

  function LogSubmission(l: Ledger, item: Item, flushed: bool): Ledger {
    var after := l.(submitted := l.submitted + [item]);
    if flushed then FlushLedger(after) else after
  }

  /** A device message is queued in its channel, or handed over at once outside sync mode. */
  function SubmitDevice(b: BusState, bus: nat, c: nat, frame: seq<nat>): (BusState, seq<Item>)
    requires c < |b.channels| == |b.ledgers|
  {
    var item := ChannelItem(b, bus, c, frame);
    var logged := b.(ledgers := b.ledgers[c := LogSubmission(b.ledgers[c], item, !b.sync)]);
    if b.sync then (logged.(channels := b.channels[c := Newest(b.channels[c] + [item], CHANNEL_CAPACITY)]), [])
    else (logged, [item])
  }

  function BulkItems(bus: nat, origin: Origin, first: nat, frames: seq<seq<nat>>): seq<Item> {
    seq(|frames|, i requires 0 <= i < |frames| => Item(bus, origin, first + i, frames[i]))
  }

  function SubmitBulk(b: BusState, bus: nat, frames: seq<seq<nat>>, immediate: bool): (BusState, seq<Item>) {
    if immediate then
      var items := BulkItems(bus, Immediate, |b.immediates|, frames);
      (b.(immediates := b.immediates + items), items)
    else
      var items := BulkItems(bus, Bulk, |b.bulkSubmitted|, frames);
      var logged := b.(bulkSubmitted := b.bulkSubmitted + items);
      if b.sync then (logged.(bulk := b.bulk + items), []) else (logged, items)
  }

  /** `Bus::Commit`: enters sync mode and hands over everything queued. */
  function CommitBus(b: BusState): (BusState, seq<Item>) {
    (Drained(b).(sync := true), Pending(b))
  }

  /** A bus inside `Adapter::Commit`: only a bus already in sync mode is drained. */
  function CommitKnown(b: BusState): (BusState, seq<Item>) {
    if b.sync then CommitBus(b) else (b.(sync := true), [])
  }

  /** `SetSyncMode` of one bus: leaving sync mode hands over everything queued. */
  function SetMode(b: BusState, enabled: bool): (BusState, seq<Item>) {
    if !enabled && b.sync then (Drained(b).(sync := false), Pending(b)) else (b.(sync := enabled), [])
  }

  /** `InitializeBusSyncMode`: the default mode is set and nothing is drained. */
  function Initialized(b: BusState, defaultSync: bool): BusState {
    b.(ready := true, sync := defaultSync)
  }

  datatype Step =
    | PublishBus
    | InitializeMode(bus: nat)
    | NewChannel(bus: nat)
    | Device(bus: nat, c: nat, frame: seq<nat>)
    | BulkMessages(bus: nat, frames: seq<seq<nat>>, immediate: bool)
    | OneCommit(bus: nat)
    | OneMode(bus: nat, enabled: bool)
    | CommitAll(order: seq<nat>)
    | ModeAll(enabled: bool, order: seq<nat>)

  predicate Enabled(a: Adapter, step: Step) {
    match step
    case PublishBus => true
    case InitializeMode(b) => b < |a.buses| && !a.buses[b].ready
    case NewChannel(b) => b < |a.buses|
    case Device(b, c, _) => b < |a.buses| && c < |a.buses[b].channels| == |a.buses[b].ledgers|
    case BulkMessages(b, _, _) => b < |a.buses|
    case OneCommit(b) => b < |a.buses|
    case OneMode(b, _) => b < |a.buses|
    case CommitAll(order) => forall i | 0 <= i < |order| :: order[i] < |a.buses|
    case ModeAll(_, order) => forall i | 0 <= i < |order| :: order[i] < |a.buses|
  }

  function Put(a: Adapter, bus: nat, r: (BusState, seq<Item>)): Adapter
    requires bus < |a.buses|
  {
    a.(buses := a.buses[bus := r.0], out := a.out + r.1)
  }

  /** Runs over the buses of the snapshot whose operation could be acquired, in any order; the
      batches are concatenated and sent together. */
  function CommitEach(a: Adapter, order: seq<nat>): (r: Adapter)
    requires forall i | 0 <= i < |order| :: order[i] < |a.buses|
    ensures |r.buses| == |a.buses|
    decreases |order|
  {
    if order == [] then a
    else
      var before := CommitEach(a, order[..|order| - 1]);
      Put(before, order[|order| - 1], CommitKnown(before.buses[order[|order| - 1]]))
  }

  function ModeEach(a: Adapter, enabled: bool, order: seq<nat>): (r: Adapter)
    requires forall i | 0 <= i < |order| :: order[i] < |a.buses|
    ensures |r.buses| == |a.buses|
    decreases |order|
  {
    if order == [] then a
    else
      var before := ModeEach(a, enabled, order[..|order| - 1]);
      Put(before, order[|order| - 1], SetMode(before.buses[order[|order| - 1]], enabled))
  }

  function Do(a: Adapter, step: Step): Adapter
    requires Enabled(a, step)
  {
    match step
    case PublishBus => a.(buses := a.buses + [BusState(false, false, [], [], [], [], [])])
    case InitializeMode(b) => Put(a, b, (Initialized(a.buses[b], a.defaultSync), []))
    case NewChannel(b) => Put(a, b, (AddChannel(a.buses[b]), []))
    case Device(b, c, frame) => Put(a, b, SubmitDevice(a.buses[b], b, c, frame))
    case BulkMessages(b, frames, immediate) => Put(a, b, SubmitBulk(a.buses[b], b, frames, immediate))
    case OneCommit(b) => Put(a, b, CommitBus(a.buses[b]))
    case OneMode(b, enabled) => Put(a, b, SetMode(a.buses[b], enabled))
    case CommitAll(order) => CommitEach(a.(defaultSync := true), order)
    case ModeAll(enabled, order) => ModeEach(a.(defaultSync := enabled), enabled, order)
  }

  // ---------------------------------------------------------------- what was handed over

  /** The items of one origin among those handed over, in order. */
  function From(out: seq<Item>, bus: nat, origin: Origin): seq<Item> {
    if out == [] then []
    else
      var rest := From(out[..|out| - 1], bus, origin);
      var last := out[|out| - 1];
      if last.bus == bus && last.origin == origin then rest + [last] else rest
  }

  lemma {:induction false} FromConcat(x: seq<Item>, y: seq<Item>, bus: nat, origin: Origin)
    ensures From(x + y, bus, origin) == From(x, bus, origin) + From(y, bus, origin)
    decreases |y|
  {
    if y == [] {
      assert x + y == x;
    } else {
      FromConcat(x, y[..|y| - 1], bus, origin);
      assert (x + y)[..|x + y| - 1] == x + y[..|y| - 1];
    }
  }

  ghost predicate AllFrom(items: seq<Item>, bus: nat, origin: Origin) {
    forall i | 0 <= i < |items| :: items[i].bus == bus && items[i].origin == origin
  }

  lemma {:induction false} FromUniform(items: seq<Item>, bus: nat, origin: Origin, bus': nat, origin': Origin)
    requires AllFrom(items, bus, origin)
    ensures From(items, bus', origin') == if bus == bus' && origin == origin' then items else []
    decreases |items|
  {
    if items != [] {
      FromUniform(items[..|items| - 1], bus, origin, bus', origin');
      assert items == items[..|items| - 1] + [items[|items| - 1]];
    }
  }

  lemma {:induction false} FromChannels(channels: seq<seq<Item>>, bus: nat, bus': nat, origin': Origin)
    requires forall c | 0 <= c < |channels| :: AllFrom(channels[c], bus, Channel(c))
    ensures From(Concat(channels), bus', origin') ==
            if bus == bus' && origin'.Channel? && origin'.c < |channels| then channels[origin'.c] else []
    decreases |channels|
  {
    if channels != [] {
      var front, last := channels[..|channels| - 1], channels[|channels| - 1];
      FromChannels(front, bus, bus', origin');
      FromConcat(Concat(front), last, bus', origin');
      FromUniform(last, bus, Channel(|front|), bus', origin');
    }
  }

  // ---------------------------------------------------------------- invariant

  /** Displaced: ten later submissions arrived before the next flush. */
  ghost predicate Displaced(l: Ledger, k: nat) {
    k + CHANNEL_CAPACITY < |l.submitted|
    && forall f | f in l.flushes :: !(k < f <= k + CHANNEL_CAPACITY)
  }

  ghost predicate Increasing(items: seq<Item>) {
    forall i, j | 0 <= i < j < |items| :: items[i].index < items[j].index
  }

  ghost predicate HasIndex(items: seq<Item>, k: nat) {
    exists i :: 0 <= i < |items| && items[i].index == k
  }

  /** A channel against its history: the queue holds the newest messages since the latest flush, at
      most ten; what was handed over before it is in submission order, without duplicates, and
      misses exactly the displaced messages. */
  ghost predicate ChannelInv(l: Ledger, queue: seq<Item>, handed: seq<Item>) {
    var n, f := |l.submitted|, l.last;
    && f in l.flushes && f <= n && (forall g | g in l.flushes :: g <= f)
    && (forall k | 0 <= k < n :: l.submitted[k].index == k)
    && |queue| == (if n - f < CHANNEL_CAPACITY then n - f else CHANNEL_CAPACITY)
    && queue == l.submitted[n - |queue|..]
    && Increasing(handed)
    && (forall i | 0 <= i < |handed| :: handed[i].index < f && handed[i] == l.submitted[handed[i].index])
    && (forall k | 0 <= k < f :: HasIndex(handed, k) <==> !Displaced(l, k))
  }

  ghost predicate ChannelOk(l: Ledger, queue: seq<Item>, bus: nat, c: nat, out: seq<Item>) {
    ChannelInv(l, queue, From(out, bus, Channel(c))) && AllFrom(queue, bus, Channel(c))
  }

  ghost predicate BusInv(b: BusState, bus: nat, out: seq<Item>) {
    && |b.channels| == |b.ledgers|
    && (forall c | 0 <= c < |b.channels| :: ChannelOk(b.ledgers[c], b.channels[c], bus, c, out))
    && AllFrom(b.bulk, bus, Bulk)
    && From(out, bus, Bulk) + b.bulk == b.bulkSubmitted
    && (forall i | 0 <= i < |b.bulkSubmitted| :: b.bulkSubmitted[i].index == i)
    && From(out, bus, Immediate) == b.immediates
    && (!b.sync ==> b.bulk == [] && forall c | 0 <= c < |b.channels| :: b.channels[c] == [])
  }

  ghost predicate Inv(a: Adapter) {
    && (forall b | 0 <= b < |a.buses| :: BusInv(a.buses[b], b, a.out))
    && (forall i | 0 <= i < |a.out| :: KnownOrigin(a, a.out[i]))
  }

  /** Nothing is handed over for a bus or channel that does not exist yet. */
  ghost predicate KnownOrigin(a: Adapter, item: Item) {
    item.bus < |a.buses|
    && (item.origin.Channel? ==> item.origin.c < |a.buses[item.bus].channels|)
  }

  lemma Enqueue(l: Ledger, queue: seq<Item>, handed: seq<Item>, item: Item)
    requires ChannelInv(l, queue, handed) && item.index == |l.submitted|
    ensures ChannelInv(LogSubmission(l, item, false), Newest(queue + [item], CHANNEL_CAPACITY), handed)
  {
    var l', queue' := LogSubmission(l, item, false), Newest(queue + [item], CHANNEL_CAPACITY);
    assert queue' == l'.submitted[|l'.submitted| - |queue'|..];
    forall k | 0 <= k < l.last ensures Displaced(l', k) <==> Displaced(l, k) {
      if l.last <= k + CHANNEL_CAPACITY { assert l.last in l.flushes && l.last in l'.flushes; }
    }
  }

  /** A queue holds consecutive submissions ending with the latest. */
  lemma QueueIndices(l: Ledger, queue: seq<Item>, handed: seq<Item>)
    requires ChannelInv(l, queue, handed)
    ensures forall i | 0 <= i < |queue| :: queue[i].index == |l.submitted| - |queue| + i
    ensures forall k | 0 <= k < |l.submitted| ::
              HasIndex(handed + queue, k) <==> (if k < l.last then HasIndex(handed, k) else k >= |l.submitted| - |queue|)
  {
    var n := |l.submitted|;
    forall i | 0 <= i < |queue| ensures queue[i].index == n - |queue| + i {
      assert queue[i] == l.submitted[n - |queue| + i];
    }
    forall k | 0 <= k < n
      ensures HasIndex(handed + queue, k) <==> (if k < l.last then HasIndex(handed, k) else k >= n - |queue|)
    {
      if k >= n - |queue| {
        assert (handed + queue)[|handed| + k - (n - |queue|)].index == k;
      } else if HasIndex(handed, k) {
        var i :| 0 <= i < |handed| && handed[i].index == k;
        assert (handed + queue)[i].index == k;
      }
    }
  }

  lemma Flush(l: Ledger, queue: seq<Item>, handed: seq<Item>)
    requires ChannelInv(l, queue, handed)
    ensures ChannelInv(FlushLedger(l), [], handed + queue)
  {
    var l', n := FlushLedger(l), |l.submitted|;
    QueueIndices(l, queue, handed);
    assert n in l'.flushes && l.last in l'.flushes;
    forall k | 0 <= k < n ensures HasIndex(handed + queue, k) <==> !Displaced(l', k) {
      if k < l.last { assert Displaced(l', k) <==> Displaced(l, k); }
    }
  }

  lemma DirectSubmission(l: Ledger, handed: seq<Item>, item: Item)
    requires ChannelInv(l, [], handed) && item.index == |l.submitted|
    ensures ChannelInv(LogSubmission(l, item, true), [], handed + [item])
  {
    Enqueue(l, [], handed, item);
    assert Newest([] + [item], CHANNEL_CAPACITY) == [item];
    Flush(LogSubmission(l, item, false), [item], handed);
  }

  // ---------------------------------------------------------------- one bus

  ghost predicate AllOfBus(items: seq<Item>, bus: nat) {
    forall i | 0 <= i < |items| :: items[i].bus == bus
  }

  lemma {:induction false} FromOtherBus(items: seq<Item>, bus: nat, bus': nat, origin: Origin)
    requires AllOfBus(items, bus') && bus != bus'
    ensures From(items, bus, origin) == []
    decreases |items|
  {
    if items != [] { FromOtherBus(items[..|items| - 1], bus, bus', origin); }
  }

  lemma FromUnaffected(out: seq<Item>, items: seq<Item>, bus: nat, bus': nat, origin: Origin)
    requires AllOfBus(items, bus') && bus != bus'
    ensures From(out + items, bus, origin) == From(out, bus, origin)
  {
    FromConcat(out, items, bus, origin);
    FromOtherBus(items, bus, bus', origin);
    assert From(out, bus, origin) + [] == From(out, bus, origin);
  }

  lemma OtherBusKept(b: BusState, bus: nat, out: seq<Item>, items: seq<Item>, bus': nat)
    requires BusInv(b, bus, out) && AllOfBus(items, bus') && bus != bus'
    ensures BusInv(b, bus, out + items)
  {
    forall c | 0 <= c < |b.channels| ensures ChannelOk(b.ledgers[c], b.channels[c], bus, c, out + items) {
      assert ChannelOk(b.ledgers[c], b.channels[c], bus, c, out);
      FromUnaffected(out, items, bus, bus', Channel(c));
    }
    FromUnaffected(out, items, bus, bus', Bulk);
    FromUnaffected(out, items, bus, bus', Immediate);
  }

  lemma {:induction false} ConcatOfBus(channels: seq<seq<Item>>, bus: nat)
    requires forall c | 0 <= c < |channels| :: AllFrom(channels[c], bus, Channel(c))
    ensures forall i | 0 <= i < |Concat(channels)| ::
              var item := Concat(channels)[i];
              item.bus == bus && item.origin.Channel? && item.origin.c < |channels|
    decreases |channels|
  {
    if channels != [] { ConcatOfBus(channels[..|channels| - 1], bus); }
  }

  /** What a step hands over belongs to the bus and to a channel it has. */
  ghost predicate OwnItems(b: BusState, bus: nat, items: seq<Item>) {
    forall i | 0 <= i < |items| ::
      items[i].bus == bus && (items[i].origin.Channel? ==> items[i].origin.c < |b.channels|)
  }

  lemma FromPending(b: BusState, bus: nat, out: seq<Item>, origin: Origin)
    requires BusInv(b, bus, out)
    ensures From(out + Pending(b), bus, origin) ==
            From(out, bus, origin) + (if origin.Bulk? then b.bulk
                                      else if origin.Channel? && origin.c < |b.channels| then b.channels[origin.c]
                                      else [])
  {
    forall c | 0 <= c < |b.channels| ensures AllFrom(b.channels[c], bus, Channel(c)) {
      assert ChannelOk(b.ledgers[c], b.channels[c], bus, c, out);
    }
    FromConcat(out, Pending(b), bus, origin);
    FromQueued(b.channels, b.bulk, bus, origin);
  }

  lemma FromQueued(channels: seq<seq<Item>>, bulk: seq<Item>, bus: nat, origin: Origin)
    requires forall c | 0 <= c < |channels| :: AllFrom(channels[c], bus, Channel(c))
    requires AllFrom(bulk, bus, Bulk)
    ensures From(Concat(channels) + bulk, bus, origin) ==
            if origin.Bulk? then bulk
            else if origin.Channel? && origin.c < |channels| then channels[origin.c] else []
  {
    FromConcat(Concat(channels), bulk, bus, origin);
    FromChannels(channels, bus, bus, origin);
    FromUniform(bulk, bus, Bulk, bus, origin);
  }

  lemma PendingIsOwn(b: BusState, bus: nat, out: seq<Item>)
    requires BusInv(b, bus, out)
    ensures OwnItems(b, bus, Pending(b))
  {
    forall c | 0 <= c < |b.channels| ensures AllFrom(b.channels[c], bus, Channel(c)) {
      assert ChannelOk(b.ledgers[c], b.channels[c], bus, c, out);
    }
    ConcatOfBus(b.channels, bus);
  }

  lemma DrainedChannel(b: BusState, bus: nat, out: seq<Item>, c: nat)
    requires BusInv(b, bus, out) && c < |b.channels|
    ensures ChannelOk(Drained(b).ledgers[c], Drained(b).channels[c], bus, c, out + Pending(b))
  {
    assert ChannelOk(b.ledgers[c], b.channels[c], bus, c, out);
    FromPending(b, bus, out, Channel(c));
    Flush(b.ledgers[c], b.channels[c], From(out, bus, Channel(c)));
  }

  /** Handing over everything queued keeps the accounts, in and out of sync mode. */
  lemma DrainKeeps(b: BusState, bus: nat, out: seq<Item>, sync: bool)
    requires BusInv(b, bus, out)
    ensures BusInv(Drained(b).(sync := sync), bus, out + Pending(b)) && OwnItems(b, bus, Pending(b))
  {
    var t := Drained(b).(sync := sync);
    forall c | 0 <= c < |t.channels| ensures ChannelOk(t.ledgers[c], t.channels[c], bus, c, out + Pending(b)) {
      DrainedChannel(b, bus, out, c);
      assert ChannelOk(Drained(b).ledgers[c], Drained(b).channels[c], bus, c, out + Pending(b));
    }
    FromPending(b, bus, out, Bulk);
    FromPending(b, bus, out, Immediate);
    assert From(out, bus, Immediate) + [] == From(out, bus, Immediate);
    PendingIsOwn(b, bus, out);
  }

  lemma FromAppended(out: seq<Item>, items: seq<Item>, bus: nat, origin: Origin, origin': Origin)
    requires AllFrom(items, bus, origin)
    ensures From(out + items, bus, origin') ==
            if origin == origin' then From(out, bus, origin') + items else From(out, bus, origin')
  {
    FromConcat(out, items, bus, origin');
    FromUniform(items, bus, origin, bus, origin');
  }

  lemma NewestAllFrom(queue: seq<Item>, item: Item, bus: nat, origin: Origin, n: nat)
    requires AllFrom(queue, bus, origin) && item.bus == bus && item.origin == origin
    ensures AllFrom(Newest(queue + [item], n), bus, origin)
  {
  }

  lemma QueuedOk(l: Ledger, queue: seq<Item>, bus: nat, c: nat, out: seq<Item>, item: Item)
    requires ChannelOk(l, queue, bus, c, out)
    requires item.index == |l.submitted| && item.bus == bus && item.origin == Channel(c)
    ensures ChannelOk(LogSubmission(l, item, false), Newest(queue + [item], CHANNEL_CAPACITY), bus, c, out)
  {
    Enqueue(l, queue, From(out, bus, Channel(c)), item);
    NewestAllFrom(queue, item, bus, Channel(c), CHANNEL_CAPACITY);
  }

  lemma DirectOk(l: Ledger, bus: nat, c: nat, out: seq<Item>, item: Item)
    requires ChannelOk(l, [], bus, c, out)
    requires item.index == |l.submitted| && item.bus == bus && item.origin == Channel(c)
    ensures ChannelOk(LogSubmission(l, item, true), [], bus, c, out + [item])
  {
    FromAppended(out, [item], bus, Channel(c), Channel(c));
    DirectSubmission(l, From(out, bus, Channel(c)), item);
  }

  lemma DeviceChannel(b: BusState, bus: nat, out: seq<Item>, c: nat, frame: seq<nat>)
    requires BusInv(b, bus, out) && c < |b.channels|
    ensures var r := SubmitDevice(b, bus, c, frame);
            ChannelOk(r.0.ledgers[c], r.0.channels[c], bus, c, out + r.1)
  {
    var item := ChannelItem(b, bus, c, frame);
    assert ChannelOk(b.ledgers[c], b.channels[c], bus, c, out);
    if b.sync {
      QueuedOk(b.ledgers[c], b.channels[c], bus, c, out, item);
      assert out + [] == out;
    } else {
      DirectOk(b.ledgers[c], bus, c, out, item);
    }
  }

  lemma DeviceKeeps(b: BusState, bus: nat, out: seq<Item>, c: nat, frame: seq<nat>)
    requires BusInv(b, bus, out) && c < |b.channels|
    ensures var r := SubmitDevice(b, bus, c, frame);
            BusInv(r.0, bus, out + r.1) && OwnItems(b, bus, r.1) && |r.0.channels| == |b.channels|
  {
    var r := SubmitDevice(b, bus, c, frame);
    forall c' | 0 <= c' < |b.channels| ensures ChannelOk(r.0.ledgers[c'], r.0.channels[c'], bus, c', out + r.1) {
      if c' == c {
        DeviceChannel(b, bus, out, c, frame);
      } else {
        assert ChannelOk(b.ledgers[c'], b.channels[c'], bus, c', out);
        FromAppended(out, r.1, bus, Channel(c), Channel(c'));
      }
    }
    FromAppended(out, r.1, bus, Channel(c), Bulk);
    FromAppended(out, r.1, bus, Channel(c), Immediate);
  }

  /** Handing over messages that belong to no channel leaves the channels alone. */
  lemma ChannelsUnaffected(b: BusState, bus: nat, out: seq<Item>, items: seq<Item>, origin: Origin)
    requires BusInv(b, bus, out) && AllFrom(items, bus, origin) && !origin.Channel?
    ensures forall c | 0 <= c < |b.channels| :: ChannelOk(b.ledgers[c], b.channels[c], bus, c, out + items)
  {
    forall c | 0 <= c < |b.channels| ensures ChannelOk(b.ledgers[c], b.channels[c], bus, c, out + items) {
      assert ChannelOk(b.ledgers[c], b.channels[c], bus, c, out);
      FromAppended(out, items, bus, origin, Channel(c));
    }
  }

  lemma BulkQueued(b: BusState, bus: nat, out: seq<Item>, items: seq<Item>)
    requires BusInv(b, bus, out) && b.sync && AllFrom(items, bus, Bulk)
    requires forall i | 0 <= i < |items| :: items[i].index == |b.bulkSubmitted| + i
    ensures BusInv(b.(bulk := b.bulk + items, bulkSubmitted := b.bulkSubmitted + items), bus, out)
  {
    assert From(out, bus, Bulk) + (b.bulk + items) == (From(out, bus, Bulk) + b.bulk) + items;
  }

  lemma BulkDirect(b: BusState, bus: nat, out: seq<Item>, items: seq<Item>)
    requires BusInv(b, bus, out) && !b.sync && AllFrom(items, bus, Bulk)
    requires forall i | 0 <= i < |items| :: items[i].index == |b.bulkSubmitted| + i
    ensures BusInv(b.(bulkSubmitted := b.bulkSubmitted + items), bus, out + items)
  {
    ChannelsUnaffected(b, bus, out, items, Bulk);
    FromAppended(out, items, bus, Bulk, Bulk);
    FromAppended(out, items, bus, Bulk, Immediate);
    NothingQueuedAppends(From(out, bus, Bulk), items, b.bulk);
  }

  lemma NothingQueuedAppends(handed: seq<Item>, items: seq<Item>, queue: seq<Item>)
    requires queue == []
    ensures (handed + items) + queue == (handed + queue) + items
  {
  }

  lemma ImmediateSent(b: BusState, bus: nat, out: seq<Item>, items: seq<Item>)
    requires BusInv(b, bus, out) && AllFrom(items, bus, Immediate)
    ensures BusInv(b.(immediates := b.immediates + items), bus, out + items)
  {
    ChannelsUnaffected(b, bus, out, items, Immediate);
    FromAppended(out, items, bus, Immediate, Bulk);
    FromAppended(out, items, bus, Immediate, Immediate);
  }

  lemma BulkKeeps(b: BusState, bus: nat, out: seq<Item>, frames: seq<seq<nat>>, immediate: bool)
    requires BusInv(b, bus, out)
    ensures var r := SubmitBulk(b, bus, frames, immediate);
            BusInv(r.0, bus, out + r.1) && OwnItems(b, bus, r.1) && |r.0.channels| == |b.channels|
  {
    if immediate {
      ImmediateSent(b, bus, out, BulkItems(bus, Immediate, |b.immediates|, frames));
    } else {
      var items := BulkItems(bus, Bulk, |b.bulkSubmitted|, frames);
      if b.sync {
        BulkQueued(b, bus, out, items);
        assert out + [] == out;
      } else {
        BulkDirect(b, bus, out, items);
      }
    }
  }

  lemma {:induction false} FromUnknown(a: Adapter, out: seq<Item>, bus: nat, origin: Origin)
    requires forall i | 0 <= i < |out| :: KnownOrigin(a, out[i])
    requires bus >= |a.buses| || (origin.Channel? && origin.c >= |a.buses[bus].channels|)
    ensures From(out, bus, origin) == []
    decreases |out|
  {
    if out != [] { FromUnknown(a, out[..|out| - 1], bus, origin); }
  }

  // ---------------------------------------------------------------- the adapter

  /** One bus moves by a step that keeps its own accounts. */
  lemma PutKeeps(a: Adapter, bus: nat, r: (BusState, seq<Item>))
    requires Inv(a) && bus < |a.buses|
    requires BusInv(r.0, bus, a.out + r.1) && OwnItems(a.buses[bus], bus, r.1)
    requires |r.0.channels| >= |a.buses[bus].channels|
    ensures Inv(Put(a, bus, r))
  {
    var t := Put(a, bus, r);
    forall b | 0 <= b < |t.buses| ensures BusInv(t.buses[b], b, t.out) {
      if b != bus { OtherBusKept(a.buses[b], b, a.out, r.1, bus); }
    }
    forall i | 0 <= i < |t.out| ensures KnownOrigin(t, t.out[i]) {
      if i < |a.out| { assert KnownOrigin(a, a.out[i]); }
    }
  }

  lemma CommitKnownKeeps(a: Adapter, bus: nat)
    requires Inv(a) && bus < |a.buses|
    ensures Inv(Put(a, bus, CommitBus(a.buses[bus]))) && Inv(Put(a, bus, CommitKnown(a.buses[bus])))
  {
    DrainKeeps(a.buses[bus], bus, a.out, true);
    PutKeeps(a, bus, CommitBus(a.buses[bus]));
    assert a.out + [] == a.out;
    PutKeeps(a, bus, CommitKnown(a.buses[bus]));
  }

  lemma SetModeKeeps(a: Adapter, bus: nat, enabled: bool)
    requires Inv(a) && bus < |a.buses|
    ensures Inv(Put(a, bus, SetMode(a.buses[bus], enabled)))
  {
    DrainKeeps(a.buses[bus], bus, a.out, false);
    assert a.out + [] == a.out;
    PutKeeps(a, bus, SetMode(a.buses[bus], enabled));
  }

  lemma {:induction false} CommitEachKeeps(a: Adapter, order: seq<nat>)
    requires Inv(a) && forall i | 0 <= i < |order| :: order[i] < |a.buses|
    ensures Inv(CommitEach(a, order))
    decreases |order|
  {
    if order != [] {
      CommitEachKeeps(a, order[..|order| - 1]);
      CommitKnownKeeps(CommitEach(a, order[..|order| - 1]), order[|order| - 1]);
    }
  }

  lemma {:induction false} ModeEachKeeps(a: Adapter, enabled: bool, order: seq<nat>)
    requires Inv(a) && forall i | 0 <= i < |order| :: order[i] < |a.buses|
    ensures Inv(ModeEach(a, enabled, order))
    decreases |order|
  {
    if order != [] {
      ModeEachKeeps(a, enabled, order[..|order| - 1]);
      SetModeKeeps(ModeEach(a, enabled, order[..|order| - 1]), order[|order| - 1], enabled);
    }
  }

  /** Whether initialising a published bus leaves nothing queued outside sync mode: what
      `InitializeBusSyncMode` could test under the locks it holds. */
  predicate InitializesCleanly(a: Adapter, bus: nat)
    requires bus < |a.buses|
  {
    a.defaultSync || Pending(a.buses[bus]) == []
  }

  predicate Clean(a: Adapter, step: Step) {
    step.InitializeMode? && step.bus < |a.buses| ==> InitializesCleanly(a, step.bus)
  }

  lemma {:induction false} NothingPending(channels: seq<seq<Item>>, c: nat)
    requires Concat(channels) == [] && c < |channels|
    ensures channels[c] == []
    decreases |channels|
  {
    if c < |channels| - 1 { NothingPending(channels[..|channels| - 1], c); }
  }

  lemma InitializedChannels(b: BusState, bus: nat, out: seq<Item>, defaultSync: bool)
    requires BusInv(b, bus, out) && (defaultSync || Pending(b) == [])
    ensures BusInv(Initialized(b, defaultSync), bus, out)
  {
    forall c | 0 <= c < |b.channels| && !defaultSync ensures b.channels[c] == [] { NothingPending(b.channels, c); }
  }

  lemma InitializeKeeps(a: Adapter, bus: nat)
    requires Inv(a) && Enabled(a, InitializeMode(bus)) && InitializesCleanly(a, bus)
    ensures Inv(Do(a, InitializeMode(bus)))
  {
    InitializedChannels(a.buses[bus], bus, a.out, a.defaultSync);
    assert a.out + [] == a.out;
    PutKeeps(a, bus, (Initialized(a.buses[bus], a.defaultSync), []));
  }

  lemma PublishKeeps(a: Adapter)
    requires Inv(a)
    ensures Inv(Do(a, PublishBus))
  {
    var t := Do(a, PublishBus);
    FromUnknown(a, a.out, |a.buses|, Bulk);
    FromUnknown(a, a.out, |a.buses|, Immediate);
    forall i | 0 <= i < |t.out| ensures KnownOrigin(t, t.out[i]) { assert KnownOrigin(a, a.out[i]); }
  }

  lemma EmptyChannel(bus: nat, c: nat, out: seq<Item>)
    requires From(out, bus, Channel(c)) == []
    ensures ChannelOk(Ledger([], {0}, 0), [], bus, c, out)
  {
  }

  lemma FreshChannelAt(b: BusState, c: nat)
    requires |b.channels| == |b.ledgers| && c <= |b.channels|
    ensures AddChannel(b).ledgers[c] == if c < |b.channels| then b.ledgers[c] else Ledger([], {0}, 0)
    ensures AddChannel(b).channels[c] == if c < |b.channels| then b.channels[c] else []
  {
  }

  lemma FreshChannelOk(b: BusState, bus: nat, out: seq<Item>, c: nat)
    requires |b.channels| == |b.ledgers| && c <= |b.channels| && From(out, bus, Channel(|b.channels|)) == []
    requires c < |b.channels| ==> ChannelOk(b.ledgers[c], b.channels[c], bus, c, out)
    ensures ChannelOk(AddChannel(b).ledgers[c], AddChannel(b).channels[c], bus, c, out)
  {
    FreshChannelAt(b, c);
    EmptyChannel(bus, |b.channels|, out);
  }

  lemma FreshChannel(b: BusState, bus: nat, out: seq<Item>)
    requires BusInv(b, bus, out) && From(out, bus, Channel(|b.channels|)) == []
    ensures BusInv(AddChannel(b), bus, out)
  {
    var t := AddChannel(b);
    forall c | 0 <= c < |t.channels|
      ensures ChannelOk(t.ledgers[c], t.channels[c], bus, c, out) && (!b.sync ==> t.channels[c] == [])
    {
      FreshChannelOk(b, bus, out, c);
      FreshChannelAt(b, c);
    }
  }

  lemma NewChannelKeeps(a: Adapter, bus: nat)
    requires Inv(a) && bus < |a.buses|
    ensures Inv(Do(a, NewChannel(bus)))
  {
    FromUnknown(a, a.out, bus, Channel(|a.buses[bus].channels|));
    FreshChannel(a.buses[bus], bus, a.out);
    assert a.out + [] == a.out;
    PutKeeps(a, bus, (AddChannel(a.buses[bus]), []));
  }

  lemma StepKeeps(a: Adapter, step: Step)
    requires Inv(a) && Enabled(a, step) && Clean(a, step)
    ensures Inv(Do(a, step))
  {
    match step
    case PublishBus => PublishKeeps(a);
    case InitializeMode(b) => InitializeKeeps(a, b);
    case NewChannel(b) => NewChannelKeeps(a, b);
    case Device(b, c, frame) =>
      DeviceKeeps(a.buses[b], b, a.out, c, frame);
      PutKeeps(a, b, SubmitDevice(a.buses[b], b, c, frame));
    case BulkMessages(b, frames, immediate) =>
      BulkKeeps(a.buses[b], b, a.out, frames, immediate);
      PutKeeps(a, b, SubmitBulk(a.buses[b], b, frames, immediate));
    case OneCommit(b) => CommitKnownKeeps(a, b);
    case OneMode(b, enabled) => SetModeKeeps(a, b, enabled);
    case CommitAll(order) => CommitEachKeeps(a.(defaultSync := true), order);
    case ModeAll(enabled, order) => ModeEachKeeps(a.(defaultSync := enabled), enabled, order);
  }

  // ---------------------------------------------------------------- runs

  ghost predicate StepAt(states: seq<Adapter>, steps: seq<Step>, k: nat)
    requires k < |steps| && |states| == |steps| + 1
  {
    Enabled(states[k], steps[k]) && states[k + 1] == Do(states[k], steps[k])
  }

  /** A run, or a continuation of one. */
  ghost predicate Path(states: seq<Adapter>, steps: seq<Step>) {
    |states| == |steps| + 1 && forall k: nat | k < |steps| :: StepAt(states, steps, k)
  }

  /** From step `from` on every initialisation is clean. */
  ghost predicate CleanFrom(states: seq<Adapter>, steps: seq<Step>, from: nat)
    requires |states| == |steps| + 1
  {
    forall k: nat | from <= k < |steps| :: CleanAt(states, steps, k)
  }

  ghost predicate CleanAt(states: seq<Adapter>, steps: seq<Step>, k: nat)
    requires k < |steps| && |states| == |steps| + 1
  {
    Clean(states[k], steps[k])
  }

  ghost predicate Start(a: Adapter) {
    a.buses == [] && a.out == []
  }

  lemma {:induction false} PathInv(states: seq<Adapter>, steps: seq<Step>, from: nat, k: nat)
    requires Path(states, steps) && from <= k < |states| && Inv(states[from]) && CleanFrom(states, steps, from)
    ensures Inv(states[k])
    decreases k
  {
    if k > from {
      PathInv(states, steps, from, k - 1);
      assert StepAt(states, steps, k - 1) && CleanAt(states, steps, k - 1);
      StepKeeps(states[k - 1], steps[k - 1]);
    }
  }

  // ---------------------------------------------------------------- the calls

  function Frames(items: seq<Item>): seq<seq<nat>> {
    seq(|items|, i requires 0 <= i < |items| => items[i].frame)
  }

  /** What a call submits. */
  function Given(step: Step, bus: nat, origin: Origin): seq<seq<nat>> {
    match step
    case Device(b, c, frame) => if b == bus && origin == Channel(c) then [frame] else []
    case BulkMessages(b, frames, immediate) =>
      if b == bus && origin == (if immediate then Immediate else Bulk) then frames else []
    case _ => []
  }

  /** Everything submitted by the calls so far, in order. */
  function Calls(steps: seq<Step>, bus: nat, origin: Origin): seq<seq<nat>> {
    if steps == [] then []
    else Calls(steps[..|steps| - 1], bus, origin) + Given(steps[|steps| - 1], bus, origin)
  }

  function History(a: Adapter, bus: nat, origin: Origin): seq<Item> {
    if bus >= |a.buses| then []
    else match origin
         case Bulk => a.buses[bus].bulkSubmitted
         case Immediate => a.buses[bus].immediates
         case Channel(c) => if c < |a.buses[bus].ledgers| then a.buses[bus].ledgers[c].submitted else []
  }

  lemma FramesConcat(x: seq<Item>, y: seq<Item>)
    ensures Frames(x + y) == Frames(x) + Frames(y)
  {
  }

  lemma DrainedHistory(a: Adapter, bus: nat, b: nat, sync: bool, origin: Origin, out: seq<Item>)
    requires b < |a.buses|
    ensures History(Put(a, b, (Drained(a.buses[b]).(sync := sync), out)), bus, origin) == History(a, bus, origin)
    ensures History(Put(a, b, (a.buses[b].(sync := sync), out)), bus, origin) == History(a, bus, origin)
  {
  }

  lemma {:induction false} CommitHistory(a: Adapter, order: seq<nat>, bus: nat, origin: Origin)
    requires forall i | 0 <= i < |order| :: order[i] < |a.buses|
    ensures History(CommitEach(a, order), bus, origin) == History(a, bus, origin)
    decreases |order|
  {
    if order != [] {
      var b := order[|order| - 1];
      var before := CommitEach(a, order[..|order| - 1]);
      CommitHistory(a, order[..|order| - 1], bus, origin);
      DrainedHistory(before, bus, b, true, origin, CommitKnown(before.buses[b]).1);
    }
  }

  lemma {:induction false} ModeHistory(a: Adapter, enabled: bool, order: seq<nat>, bus: nat, origin: Origin)
    requires forall i | 0 <= i < |order| :: order[i] < |a.buses|
    ensures History(ModeEach(a, enabled, order), bus, origin) == History(a, bus, origin)
    decreases |order|
  {
    if order != [] {
      var b := order[|order| - 1];
      var before := ModeEach(a, enabled, order[..|order| - 1]);
      ModeHistory(a, enabled, order[..|order| - 1], bus, origin);
      DrainedHistory(before, bus, b, enabled, origin, SetMode(before.buses[b], enabled).1);
    }
  }

  lemma DeviceHistory(a: Adapter, b: nat, c: nat, frame: seq<nat>, bus: nat, origin: Origin)
    requires Enabled(a, Device(b, c, frame))
    ensures Frames(History(Do(a, Device(b, c, frame)), bus, origin)) ==
            Frames(History(a, bus, origin)) + Given(Device(b, c, frame), bus, origin)
  {
    FramesConcat(History(a, bus, origin), [ChannelItem(a.buses[b], b, c, frame)]);
  }

  lemma BulkHistory(a: Adapter, b: nat, frames: seq<seq<nat>>, immediate: bool, bus: nat, origin: Origin)
    requires b < |a.buses|
    ensures var step := BulkMessages(b, frames, immediate);
            Frames(History(Do(a, step), bus, origin)) == Frames(History(a, bus, origin)) + Given(step, bus, origin)
  {
    var items := if immediate then BulkItems(b, Immediate, |a.buses[b].immediates|, frames)
                 else BulkItems(b, Bulk, |a.buses[b].bulkSubmitted|, frames);
    FramesConcat(History(a, bus, origin), items);
    assert Frames(items) == frames;
  }

  lemma HistoryStep(a: Adapter, step: Step, bus: nat, origin: Origin)
    requires Enabled(a, step)
    ensures Frames(History(Do(a, step), bus, origin)) == Frames(History(a, bus, origin)) + Given(step, bus, origin)
  {
    match step
    case CommitAll(order) => CommitHistory(a.(defaultSync := true), order, bus, origin);
    case ModeAll(enabled, order) => ModeHistory(a.(defaultSync := enabled), enabled, order, bus, origin);
    case OneCommit(b) => DrainedHistory(a, bus, b, true, origin, Pending(a.buses[b]));
    case OneMode(b, enabled) => DrainedHistory(a, bus, b, enabled, origin, SetMode(a.buses[b], enabled).1);
    case Device(b, c, frame) => DeviceHistory(a, b, c, frame, bus, origin);
    case BulkMessages(b, frames, immediate) => BulkHistory(a, b, frames, immediate, bus, origin);
    case _ =>
  }

  /** The histories are exactly the frames of the calls made. */
  lemma {:induction false} HistoriesAreTheCalls(states: seq<Adapter>, steps: seq<Step>, k: nat, bus: nat, origin: Origin)
    requires Path(states, steps) && Start(states[0]) && k < |states|
    ensures Frames(History(states[k], bus, origin)) == Calls(steps[..k], bus, origin)
  {
    if k > 0 {
      HistoriesAreTheCalls(states, steps, k - 1, bus, origin);
      assert StepAt(states, steps, k - 1) && steps[..k][..k - 1] == steps[..k - 1];
      HistoryStep(states[k - 1], steps[k - 1], bus, origin);
    }
  }

  /** What was handed over, followed by what is queued, is in submission order: all of it for the bulk
      messages, without repetition for each channel. */
  ghost predicate InOrder(a: Adapter, bus: nat)
    requires bus < |a.buses|
  {
    var b := a.buses[bus];
    && From(a.out, bus, Bulk) + b.bulk == b.bulkSubmitted
    && From(a.out, bus, Immediate) == b.immediates
    && forall c | 0 <= c < |b.channels| :: Increasing(From(a.out, bus, Channel(c)) + b.channels[c])
  }

  ghost predicate AllInOrder(a: Adapter) {
    forall bus | 0 <= bus < |a.buses| :: InOrder(a, bus)
  }

  /** Main result, for any sequence of submits, commits, mode changes and bus creations whose
      initialisations are clean: everything is in order; per channel, what was handed over and then
      queued is genuine and misses a message exactly if ten later ones were submitted before the next
      flush; a bus outside sync mode has nothing queued. */
  lemma Conservation(states: seq<Adapter>, steps: seq<Step>, k: nat, bus: nat)
    requires Path(states, steps) && Start(states[0]) && CleanFrom(states, steps, 0)
    requires k < |states| && bus < |states[k].buses|
    ensures InOrder(states[k], bus)
    ensures var a := states[k];
            var b := a.buses[bus];
            && |b.channels| == |b.ledgers|
            && (!b.sync ==> Pending(b) == [])
            && forall c | 0 <= c < |b.channels| ::
                 var seen := From(a.out, bus, Channel(c)) + b.channels[c];
                 && (forall i | 0 <= i < |seen| ::
                       seen[i].index < |b.ledgers[c].submitted| && seen[i] == b.ledgers[c].submitted[seen[i].index])
                 && forall m | 0 <= m < |b.ledgers[c].submitted| ::
                      HasIndex(seen, m) <==> !Displaced(b.ledgers[c], m)
  {
    PathInv(states, steps, 0, k);
    var a := states[k];
    var b := a.buses[bus];
    assert BusInv(b, bus, a.out);
    if !b.sync { ConcatEmpty(b.channels); }
    forall c | 0 <= c < |b.channels|
      ensures var seen := From(a.out, bus, Channel(c)) + b.channels[c];
                 && Increasing(seen)
                 && (forall i | 0 <= i < |seen| ::
                       seen[i].index < |b.ledgers[c].submitted| && seen[i] == b.ledgers[c].submitted[seen[i].index])
                 && forall m | 0 <= m < |b.ledgers[c].submitted| ::
                      HasIndex(seen, m) <==> !Displaced(b.ledgers[c], m)
    {
      assert ChannelOk(b.ledgers[c], b.channels[c], bus, c, a.out);
      ChannelSeen(b.ledgers[c], b.channels[c], From(a.out, bus, Channel(c)));
    }
  }

  /** And nothing is submitted but by the calls: bulk messages handed over and then queued are those of the
      calls, in order, immediate ones are handed over in either mode, and a channel's history is what its
      device submitted. */
  lemma CallsAreConserved(states: seq<Adapter>, steps: seq<Step>, k: nat, bus: nat)
    requires Path(states, steps) && Start(states[0]) && CleanFrom(states, steps, 0)
    requires k < |states| && bus < |states[k].buses|
    ensures var a, calls := states[k], steps[..k];
            && Frames(From(a.out, bus, Bulk) + a.buses[bus].bulk) == Calls(calls, bus, Bulk)
            && Frames(From(a.out, bus, Immediate)) == Calls(calls, bus, Immediate)
            && forall c | 0 <= c < |a.buses[bus].ledgers| :: Frames(a.buses[bus].ledgers[c].submitted) == Calls(calls, bus, Channel(c))
  {
    var b := states[k].buses[bus];
    PathInv(states, steps, 0, k);
    assert BusInv(b, bus, states[k].out);
    HistoriesAreTheCalls(states, steps, k, bus, Bulk);
    HistoriesAreTheCalls(states, steps, k, bus, Immediate);
    forall c | 0 <= c < |b.ledgers| ensures Frames(b.ledgers[c].submitted) == Calls(steps[..k], bus, Channel(c)) {
      HistoriesAreTheCalls(states, steps, k, bus, Channel(c));
    }
  }

  // ---------------------------------------------------------------- what commits and mode changes achieve

  /** Everything that was queued on the bus has been handed over, origin by origin. */
  ghost predicate HandedOver(a: Adapter, t: Adapter, bus: nat)
    requires bus < |a.buses| == |t.buses|
  {
    var b, u := a.buses[bus], t.buses[bus];
    && |u.channels| == |b.channels|
    && (forall c | 0 <= c < |b.channels| ::
          u.channels[c] == [] && From(t.out, bus, Channel(c)) == From(a.out, bus, Channel(c)) + b.channels[c])
    && u.bulk == [] && From(t.out, bus, Bulk) == From(a.out, bus, Bulk) + b.bulk
    && From(t.out, bus, Immediate) == From(a.out, bus, Immediate)
  }

  /** The bus, and what was handed over for it, are as before, but for its mode. */
  ghost predicate Untouched(a: Adapter, t: Adapter, bus: nat, sync: bool)
    requires bus < |a.buses| == |t.buses|
  {
    t.buses[bus] == a.buses[bus].(sync := sync) && forall origin :: From(t.out, bus, origin) == From(a.out, bus, origin)
  }

  lemma DrainHandsOver(a: Adapter, bus: nat, sync: bool)
    requires Inv(a) && bus < |a.buses|
    ensures var t := Put(a, bus, (Drained(a.buses[bus]).(sync := sync), Pending(a.buses[bus]))); HandedOver(a, t, bus)
  {
    var b := a.buses[bus];
    forall c | 0 <= c < |b.channels|
      ensures From(a.out + Pending(b), bus, Channel(c)) == From(a.out, bus, Channel(c)) + b.channels[c]
    {
      FromPending(b, bus, a.out, Channel(c));
    }
    FromPending(b, bus, a.out, Bulk);
    FromPending(b, bus, a.out, Immediate);
  }

  lemma ModeSwitch(a: Adapter, bus: nat, sync: bool)
    requires bus < |a.buses|
    ensures Untouched(a, Put(a, bus, (a.buses[bus].(sync := sync), [])), bus, sync)
  {
    assert a.out + [] == a.out;
  }

  /** A step on one bus does not concern another. */
  lemma OtherBusUntouched(a: Adapter, b: nat, r: (BusState, seq<Item>), bus: nat)
    requires b < |a.buses| && bus < |a.buses| && b != bus && AllOfBus(r.1, b)
    ensures Untouched(a, Put(a, b, r), bus, a.buses[bus].sync)
  {
    forall origin ensures From(a.out + r.1, bus, origin) == From(a.out, bus, origin) {
      FromUnaffected(a.out, r.1, bus, b, origin);
    }
  }

  /** A commit or mode change of one bus: the mode is as asked, a commit or leaving sync mode hands over
      everything queued, and no other bus is concerned. */
  lemma OneBusReached(a: Adapter, step: Step, bus: nat)
    requires Inv(a) && Enabled(a, step) && (step.OneCommit? || step.OneMode?) && bus < |a.buses|
    ensures |Do(a, step).buses| == |a.buses|
    ensures var t := Do(a, step);
            if bus != step.bus then Untouched(a, t, bus, a.buses[bus].sync)
            else
              && t.buses[bus].sync == (step.OneCommit? || step.enabled)
              && (if step.OneCommit? || !step.enabled then HandedOver(a, t, bus) else Untouched(a, t, bus, true))
  {
    var b := a.buses[step.bus];
    PendingIsOwn(b, step.bus, a.out);
    if bus != step.bus {
      OtherBusUntouched(a, step.bus, if step.OneCommit? then CommitBus(b) else SetMode(b, step.enabled), bus);
    } else {
      DrainHandsOver(a, bus, step.OneCommit? || step.enabled);
      ModeSwitch(a, bus, step.OneCommit? || step.enabled);
      if !b.sync { NothingQueued(a, Do(a, step), bus); }
    }
  }

  /** A bus with nothing queued has handed over everything as it is. */
  lemma NothingQueued(a: Adapter, t: Adapter, bus: nat)
    requires Inv(a) && bus < |a.buses| == |t.buses| && !a.buses[bus].sync
    ensures forall sync | Untouched(a, t, bus, sync) :: HandedOver(a, t, bus)
  {
    assert BusInv(a.buses[bus], bus, a.out);
  }

  /** The adapter's own commit: every listed bus ends in sync mode with nothing queued, the others are
      left alone. */
  lemma {:induction false} CommitReaches(a: Adapter, order: seq<nat>, bus: nat)
    requires Inv(a) && bus < |a.buses| && forall i | 0 <= i < |order| :: order[i] < |a.buses|
    ensures var t := CommitEach(a, order);
            if bus in order then t.buses[bus].sync && HandedOver(a, t, bus) else Untouched(a, t, bus, a.buses[bus].sync)
    decreases |order|
  {
    if order != [] {
      var front, b := order[..|order| - 1], order[|order| - 1];
      var before := CommitEach(a, front);
      var t := CommitEach(a, order);
      CommitReaches(a, front, bus);
      CommitEachKeeps(a, front);
      CommitReached(before, b, bus);
      if b == bus && bus !in front {
        Compose(a, before, t, bus);
      }
    }
  }

  lemma CommitReached(a: Adapter, b: nat, bus: nat)
    requires Inv(a) && bus < |a.buses| && b < |a.buses|
    ensures var t := Put(a, b, CommitKnown(a.buses[b]));
            if b == bus then t.buses[bus].sync && HandedOver(a, t, bus) else Untouched(a, t, bus, a.buses[bus].sync)
  {
    var t := Put(a, b, CommitKnown(a.buses[b]));
    PendingIsOwn(a.buses[b], b, a.out);
    if b != bus {
      OtherBusUntouched(a, b, CommitKnown(a.buses[b]), bus);
    } else if a.buses[b].sync {
      DrainHandsOver(a, bus, true);
    } else {
      ModeSwitch(a, bus, true);
      NothingQueued(a, t, bus);
    }
  }

  lemma Compose(a: Adapter, m: Adapter, t: Adapter, bus: nat)
    requires bus < |a.buses| == |m.buses| == |t.buses|
    requires Untouched(a, m, bus, a.buses[bus].sync) && HandedOver(m, t, bus)
    ensures HandedOver(a, t, bus)
  {
  }

  lemma ModeReached(a: Adapter, b: nat, enabled: bool, bus: nat)
    requires Inv(a) && bus < |a.buses| && b < |a.buses|
    ensures var t := Put(a, b, SetMode(a.buses[b], enabled));
            if b != bus then Untouched(a, t, bus, a.buses[bus].sync)
            else if enabled then Untouched(a, t, bus, true) else !t.buses[bus].sync && HandedOver(a, t, bus)
  {
    OneBusReached(a, OneMode(b, enabled), bus);
  }

  /** The adapter's own mode change: every listed bus ends in that mode, and has handed over everything
      if the mode is off; the others are left alone. */
  lemma {:induction false} ModeReaches(a: Adapter, enabled: bool, order: seq<nat>, bus: nat)
    requires Inv(a) && bus < |a.buses| && forall i | 0 <= i < |order| :: order[i] < |a.buses|
    ensures var t := ModeEach(a, enabled, order);
            if bus !in order then Untouched(a, t, bus, a.buses[bus].sync)
            else if enabled then Untouched(a, t, bus, true) else !t.buses[bus].sync && HandedOver(a, t, bus)
    decreases |order|
  {
    if order != [] {
      var front, b := order[..|order| - 1], order[|order| - 1];
      var before := ModeEach(a, enabled, front);
      ModeReaches(a, enabled, front, bus);
      ModeEachKeeps(a, enabled, front);
      ModeReached(before, b, enabled, bus);
      if b == bus && bus !in front && !enabled { Compose(a, before, ModeEach(a, enabled, order), bus); }
    }
  }

  /** The two adapter-wide calls also set the default mode. */
  lemma AllBusesReached(a: Adapter, step: Step, bus: nat)
    requires Inv(a) && Enabled(a, step) && (step.CommitAll? || step.ModeAll?) && bus < |a.buses|
    ensures |Do(a, step).buses| == |a.buses|
    ensures var t, on := Do(a, step), step.CommitAll? || step.enabled;
            && t.defaultSync == on
            && (if bus !in step.order then Untouched(a, t, bus, a.buses[bus].sync)
                else t.buses[bus].sync == on && if step.CommitAll? || !on then HandedOver(a, t, bus) else Untouched(a, t, bus, true))
  {
    match step
    case CommitAll(order) =>
      CommitReaches(a.(defaultSync := true), order, bus);
      CommitDefault(a.(defaultSync := true), order);
    case ModeAll(enabled, order) =>
      ModeReaches(a.(defaultSync := enabled), enabled, order, bus);
      ModeDefault(a.(defaultSync := enabled), enabled, order);
  }

  lemma {:induction false} CommitDefault(a: Adapter, order: seq<nat>)
    requires forall i | 0 <= i < |order| :: order[i] < |a.buses|
    ensures CommitEach(a, order).defaultSync == a.defaultSync
    decreases |order|
  {
    if order != [] { CommitDefault(a, order[..|order| - 1]); }
  }

  lemma {:induction false} ModeDefault(a: Adapter, enabled: bool, order: seq<nat>)
    requires forall i | 0 <= i < |order| :: order[i] < |a.buses|
    ensures ModeEach(a, enabled, order).defaultSync == a.defaultSync
    decreases |order|
  {
    if order != [] { ModeDefault(a, enabled, order[..|order| - 1]); }
  }

  /** A published bus starts outside sync mode with no channel, takes the adapter's default mode when it is
      initialised, and a new channel is empty; none of this hands anything over or concerns another bus. */
  lemma SetupReaches(a: Adapter, step: Step, bus: nat)
    requires Enabled(a, step) && (step.PublishBus? || step.InitializeMode? || step.NewChannel?)
    ensures var t := Do(a, step);
            && t.out == a.out && t.defaultSync == a.defaultSync
            && (step.PublishBus? ==> |t.buses| == |a.buses| + 1 && var u := t.buses[|a.buses|];
                                       !u.ready && !u.sync && u.channels == [] && u.bulk == [] && Enabled(t, InitializeMode(|a.buses|)))
            && (step.InitializeMode? ==> t.buses[step.bus] == a.buses[step.bus].(ready := true, sync := a.defaultSync))
            && (step.NewChannel? ==> var b, u := a.buses[step.bus], t.buses[step.bus];
                                       u.channels == b.channels + [[]] && u.bulk == b.bulk && u.sync == b.sync)
            && (bus < |a.buses| && (step.PublishBus? || bus != step.bus) ==> bus < |t.buses| && t.buses[bus] == a.buses[bus])
  {
    assert a.out + [] == a.out;
  }

  /** Immediate messages go out at once in either mode and leave every queue as it was. */
  lemma ImmediateIsSentAtOnce(a: Adapter, bus: nat, frames: seq<seq<nat>>)
    requires Inv(a) && bus < |a.buses|
    ensures var t := Do(a, BulkMessages(bus, frames, true));
            && |t.buses| == |a.buses| && t.buses[bus].channels == a.buses[bus].channels && t.buses[bus].bulk == a.buses[bus].bulk
            && t.buses[bus].sync == a.buses[bus].sync
            && Frames(From(t.out, bus, Immediate)) == Frames(From(a.out, bus, Immediate)) + frames
            && forall origin | origin != Immediate :: From(t.out, bus, origin) == From(a.out, bus, origin)
  {
    var items := BulkItems(bus, Immediate, |a.buses[bus].immediates|, frames);
    forall origin ensures From(a.out + items, bus, origin) == From(a.out, bus, origin) + if origin == Immediate then items else [] {
      FromAppended(a.out, items, bus, Immediate, origin);
      assert From(a.out, bus, origin) + [] == From(a.out, bus, origin);
    }
    FramesConcat(From(a.out, bus, Immediate), items);
    assert Frames(items) == frames;
  }

  // ---------------------------------------------------------------- initialising a bus in use

  lemma InvIsInOrder(a: Adapter)
    requires Inv(a)
    ensures AllInOrder(a)
  {
    forall bus | 0 <= bus < |a.buses| ensures InOrder(a, bus) {
      var b := a.buses[bus];
      assert BusInv(b, bus, a.out);
      forall c | 0 <= c < |b.channels| ensures Increasing(From(a.out, bus, Channel(c)) + b.channels[c]) {
        assert ChannelOk(b.ledgers[c], b.channels[c], bus, c, a.out);
        ChannelSeen(b.ledgers[c], b.channels[c], From(a.out, bus, Channel(c)));
      }
    }
  }

  /** Bulk messages submitted outside sync mode overtake those still queued. */
  lemma BulkOvertakes(a: Adapter, bus: nat)
    requires bus < |a.buses| && !a.buses[bus].sync && a.buses[bus].bulk != [] && InOrder(a, bus)
    requires forall i | 0 <= i < |a.buses[bus].bulkSubmitted| :: a.buses[bus].bulkSubmitted[i].index == i
    ensures bus < |Do(a, BulkMessages(bus, [[]], false)).buses| && !InOrder(Do(a, BulkMessages(bus, [[]], false)), bus)
  {
    var b, t := a.buses[bus], Do(a, BulkMessages(bus, [[]], false));
    var handed, items := From(a.out, bus, Bulk), BulkItems(bus, Bulk, |b.bulkSubmitted|, [[]]);
    FromAppended(a.out, items, bus, Bulk, Bulk);
    assert (handed + items + b.bulk)[|handed|] == items[0];
    assert (b.bulkSubmitted + items)[|handed|] == b.bulkSubmitted[|handed|] && |handed| < |b.bulkSubmitted|;
  }

  /** So do device messages. */
  lemma DeviceOvertakes(a: Adapter, bus: nat, c: nat)
    requires bus < |a.buses| && !a.buses[bus].sync && c < |a.buses[bus].channels| == |a.buses[bus].ledgers|
    requires a.buses[bus].channels[c] != []
    requires ChannelOk(a.buses[bus].ledgers[c], a.buses[bus].channels[c], bus, c, a.out)
    ensures bus < |Do(a, Device(bus, c, [])).buses| && !InOrder(Do(a, Device(bus, c, [])), bus)
  {
    var b, t := a.buses[bus], Do(a, Device(bus, c, []));
    var item, queue := ChannelItem(b, bus, c, []), b.channels[c];
    var handed := From(a.out, bus, Channel(c));
    FromAppended(a.out, [item], bus, Channel(c), Channel(c));
    QueueIndices(b.ledgers[c], queue, handed);
    OlderBehind(handed, item, queue);
    assert From(t.out, bus, Channel(c)) == handed + [item] && t.buses[bus].channels[c] == queue;
  }

  lemma OlderBehind(handed: seq<Item>, item: Item, queue: seq<Item>)
    requires queue != [] && queue[0].index < item.index
    ensures !Increasing(handed + [item] + queue)
  {
    var seen := handed + [item] + queue;
    assert seen[|handed|] == item && seen[|handed| + 1] == queue[0];
  }

  lemma {:induction false} SomethingPending(channels: seq<seq<Item>>) returns (c: nat)
    requires Concat(channels) != []
    ensures c < |channels| && channels[c] != []
    decreases |channels|
  {
    c := |channels| - 1;
    if channels[c] == [] { c := SomethingPending(channels[..c]); }
  }

  /** One more submission after an unclean initialisation is out of order. */
  lemma UncleanInitializationReorders(a: Adapter, bus: nat) returns (states: seq<Adapter>, steps: seq<Step>)
    requires Inv(a) && Enabled(a, InitializeMode(bus)) && !InitializesCleanly(a, bus)
    ensures Path(states, steps) && |steps| == 2 && states[0] == a && steps[0] == InitializeMode(bus)
    ensures CleanFrom(states, steps, 1) && !AllInOrder(states[2])
  {
    var b, t := a.buses[bus], Do(a, InitializeMode(bus));
    assert a.out + [] == a.out;
    assert BusInv(b, bus, a.out);
    InvIsInOrder(a);
    assert InOrder(a, bus) && InOrder(t, bus);
    var step;
    if b.bulk != [] {
      step := BulkMessages(bus, [[]], false);
      BulkOvertakes(t, bus);
    } else {
      var c := SomethingPending(b.channels);
      assert ChannelOk(b.ledgers[c], b.channels[c], bus, c, a.out);
      step := Device(bus, c, []);
      DeviceOvertakes(t, bus, c);
    }
    states, steps := [a, t, Do(t, step)], [InitializeMode(bus), step];
    assert StepAt(states, steps, 0) && StepAt(states, steps, 1) && CleanAt(states, steps, 1);
  }

  /** The condition is exact: a bus is initialised cleanly if and only if everything stays in order
      however the run goes on. */
  lemma InitializationIsSafeExactlyWhen(a: Adapter, bus: nat)
    requires Inv(a) && Enabled(a, InitializeMode(bus))
    ensures InitializesCleanly(a, bus) <==>
            forall states, steps |
              && Path(states, steps) && |steps| > 0 && states[0] == a && steps[0] == InitializeMode(bus)
              && CleanFrom(states, steps, 1) :: AllInOrder(states[|steps|])
  {
    if InitializesCleanly(a, bus) {
      forall states, steps |
        && Path(states, steps) && |steps| > 0 && states[0] == a && steps[0] == InitializeMode(bus)
        && CleanFrom(states, steps, 1)
        ensures AllInOrder(states[|steps|])
      {
        assert StepAt(states, steps, 0);
        InitializeKeeps(a, bus);
        PathInv(states, steps, 1, |steps|);
        InvIsInOrder(states[|steps|]);
      }
    } else {
      var states, steps := UncleanInitializationReorders(a, bus);
    }
  }

  /** It does happen: bus 0 is published, another caller turns its sync mode on and submits a message,
      the creator initialises it with the default mode, off, and the next message overtakes. */
  lemma InitializationReordersBulk() returns (states: seq<Adapter>, steps: seq<Step>)
    ensures Path(states, steps) && Start(states[0])
    ensures !AllInOrder(states[|steps|])
  {
    var a0 := Adapter([], false, []);
    var a1 := Do(a0, PublishBus);
    var a2 := Do(a1, OneMode(0, true));
    var a3 := Do(a2, BulkMessages(0, [[1]], false));
    PublishKeeps(a0);
    SetModeKeeps(a1, 0, true);
    StepKeeps(a2, BulkMessages(0, [[1]], false));
    assert a3.buses[0].bulk == BulkItems(0, Bulk, 0, [[1]]) && |a3.buses[0].bulk| == 1;
    var rest, last := UncleanInitializationReorders(a3, 0);
    states, steps := [a0, a1, a2] + rest, [PublishBus, OneMode(0, true), BulkMessages(0, [[1]], false)] + last;
    forall k: nat | k < |steps| ensures StepAt(states, steps, k) {
      if k >= 3 { assert StepAt(rest, last, k - 3); }
    }
  }

  lemma {:induction false} ConcatEmpty(channels: seq<seq<Item>>)
    requires forall c | 0 <= c < |channels| :: channels[c] == []
    ensures Concat(channels) == []
    decreases |channels|
  {
    if channels != [] { ConcatEmpty(channels[..|channels| - 1]); }
  }

  lemma ChannelSeen(l: Ledger, queue: seq<Item>, handed: seq<Item>)
    requires ChannelInv(l, queue, handed)
    ensures var seen := handed + queue;
            && Increasing(seen)
            && (forall i | 0 <= i < |seen| ::
                  seen[i].index < |l.submitted| && seen[i] == l.submitted[seen[i].index])
            && forall m | 0 <= m < |l.submitted| :: HasIndex(seen, m) <==> !Displaced(l, m)
  {
    QueueIndices(l, queue, handed);
  }
}
