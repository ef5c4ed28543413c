/** The mutable buses and adapter behind SoftSync: channels are `Port<10>` objects, drained by the
    nested loops of src/bus/bus.cc:456-472 under the calls of src/adapter/base_adapter.cc:143-285.
    `model` is the SoftSync value of a bus with its history, kept up to date by every method; it only
    supplies the provenance of a message, never a decision.
 */
module SoftSyncBus {
  import opened PortQueue
  import opened SoftSync

  /** Pops until the channel is empty or ten messages were taken, which is always enough. */
  method TakeAll(port: Port<Item>) returns (taken: seq<Item>)
    requires port.Valid() && port.len == CHANNEL_CAPACITY
    modifies port, port.slots
    ensures port.Valid() && port.Contents() == [] && taken == old(port.Contents())
  {
    taken := [];
    ghost var queue := port.Contents();
    var count, more := 0, true;
    while count < 10 && more
      invariant count == |taken| <= |queue| && taken == queue[..count]
      invariant port.Valid() && port.Contents() == queue[count..]
      invariant !more ==> count == |queue|
      decreases 10 - count, more
    {
      var message := port.Pop();
      if message.None? {
        more := false;
      } else {
        taken := taken + [message.value];
        count := count + 1;
      }
    }
  }

  class Bus {
    const idx: nat
    var sync: bool
    var channels: seq<Port<Item>>
    var bulk: seq<Item>
    var model: BusState

    ghost function Footprint(): set<object>
      reads this
    {
      {this} + Ports()
    }

    ghost function Ports(): set<object>
      reads this
    {
      (set c | 0 <= c < |channels| :: channels[c]) + (set c | 0 <= c < |channels| :: channels[c].slots)
    }

    ghost predicate Separate()
      reads this
    {
      && (forall c, d | 0 <= c < d < |channels| :: channels[c] != channels[d] && channels[c].slots != channels[d].slots)
    }

    ghost predicate Matches(c: nat, queue: seq<Item>)
      requires c < |channels|
      reads this, channels[c], channels[c].slots
    {
      channels[c].Valid() && channels[c].len == CHANNEL_CAPACITY && channels[c].Contents() == queue
    }

    /** The channels hold these queues and share nothing. */
    ghost predicate Holds(queues: seq<seq<Item>>)
      reads this, Ports()
    {
      Separate() && |queues| == |channels| && forall c | 0 <= c < |channels| :: Matches(c, queues[c])
    }

    ghost predicate Valid()
      reads Footprint()
    {
      && Holds(model.channels) && |model.ledgers| == |channels|
      && model.sync == sync && model.bulk == bulk
    }

    /** A bus is created outside sync mode. */
    constructor (idx: nat)
      ensures Valid() && fresh(Footprint()) && this.idx == idx
      ensures model == BusState(false, false, [], [], [], [], [])
    {
      this.idx, sync, channels, bulk := idx, false, [], [];
      model := BusState(false, false, [], [], [], [], []);
    }

    /** Gives the bus the adapter's default mode; nothing is drained. */
    method InitializeSyncMode(defaultSync: bool)
      requires Valid()
      modifies this
      ensures Valid() && channels == old(channels)
      ensures model == Initialized(old(model), defaultSync)
    {
      sync := defaultSync;
      model := Initialized(model, defaultSync);
    }

    /** Registers one more device channel. */
    method MakeDeviceWriter() returns (c: nat)
      requires Valid()
      modifies this
      ensures Valid() && fresh(Footprint() - old(Footprint()))
      ensures c == |old(channels)| && model == AddChannel(old(model))
    {
      c := |channels|;
      var port := new Port<Item>(CHANNEL_CAPACITY);
      channels := channels + [port];
      model := AddChannel(model);
    }

    method DrainChannel(i: nat, ghost queues: seq<seq<Item>>) returns (taken: seq<Item>)
      requires Holds(queues) && i < |channels|
      modifies channels[i], channels[i].slots
      ensures Holds(queues[i := []]) && taken == queues[i]
    {
      assert Matches(i, queues[i]);
      taken := TakeAll(channels[i]);
      ghost var after := queues[i := []];
      forall c | 0 <= c < |channels| ensures Matches(c, after[c]) {
        if c != i { assert old(Matches(c, queues[c])); }
      }
    }

    /** The first `i` channels are empty, the others untouched. */
    ghost function Emptied(queues: seq<seq<Item>>, i: nat): seq<seq<Item>>
      requires i <= |queues|
    {
      seq(i, _ => []) + queues[i..]
    }

    /** Takes up to ten messages from each channel, in registration order. */
    method DrainChannels(ghost queues: seq<seq<Item>>) returns (messages: seq<Item>)
      requires Holds(queues)
      modifies Ports()
      ensures Holds(Emptied(queues, |queues|)) && messages == Concat(queues)
    {
      messages := [];
      for i := 0 to |channels|
        invariant Holds(Emptied(queues, i)) && messages == Concat(queues[..i])
      {
        var taken := DrainChannel(i, Emptied(queues, i));
        assert Emptied(queues, i)[i := []] == Emptied(queues, i + 1);
        assert queues[..i + 1][..i] == queues[..i];
        messages := messages + taken;
      }
      assert queues[..|channels|] == queues;
    }

    /** Takes everything queued: the channels, then the bulk queue. */
    method DrainOutgoing() returns (messages: seq<Item>)
      requires Valid()
      modifies Footprint()
      ensures Valid() && channels == old(channels)
      ensures messages == Pending(old(model)) && model == Drained(old(model))
    {
      messages := DrainChannels(model.channels);
      assert Emptied(model.channels, |model.channels|) == Drained(model).channels;
      messages := messages + bulk;
      bulk := [];
      model := Drained(model);
    }

    method SubmitDeviceMessage(c: nat, frame: seq<nat>) returns (sent: seq<Item>)
      requires Valid() && c < |channels|
      modifies Footprint()
      ensures Valid() && channels == old(channels)
      ensures (model, sent) == SubmitDevice(old(model), idx, c, frame)
    {
      ghost var queues := model.channels;
      var item := ChannelItem(model, idx, c, frame);
      sent := [];
      if sync {
        assert Matches(c, queues[c]);
        channels[c].Push(item);
        ghost var after := queues[c := Newest(queues[c] + [item], CHANNEL_CAPACITY)];
        forall d | 0 <= d < |channels| ensures Matches(d, after[d]) {
          if d != c { assert old(Matches(d, queues[d])); }
        }
      } else {
        sent := [item];
      }
      model := SubmitDevice(model, idx, c, frame).0;
    }

    method SubmitMessages(frames: seq<seq<nat>>, immediate: bool) returns (sent: seq<Item>)
      requires Valid()
      modifies this
      ensures Valid() && channels == old(channels)
      ensures (model, sent) == SubmitBulk(old(model), idx, frames, immediate)
    {
      sent := [];
      var items := BulkItems(idx, if immediate then Immediate else Bulk,
                             if immediate then |model.immediates| else |model.bulkSubmitted|, frames);
      if sync && !immediate {
        bulk := bulk + items;
      } else {
        sent := items;
      }
      model := SubmitBulk(model, idx, frames, immediate).0;
    }

    method Commit() returns (sent: seq<Item>)
      requires Valid()
      modifies Footprint()
      ensures Valid() && channels == old(channels)
      ensures (model, sent) == CommitBus(old(model))
    {
      sent := DrainOutgoing();
      sync := true;
      model := model.(sync := true);
    }

    /** The body of `Adapter::Commit`'s loop: note the old mode, enter sync mode, drain if it was
        already on. */
    method CommitIfSynchronized() returns (sent: seq<Item>)
      requires Valid()
      modifies Footprint()
      ensures Valid() && channels == old(channels)
      ensures (model, sent) == CommitKnown(old(model))
    {
      var wasSynchronized := sync;
      sync := true;
      model := model.(sync := true);
      sent := [];
      if wasSynchronized {
        sent := DrainOutgoing();
      }
    }

    method SetSyncMode(enabled: bool) returns (sent: seq<Item>)
      requires Valid()
      modifies Footprint()
      ensures Valid() && channels == old(channels)
      ensures (model, sent) == SetMode(old(model), enabled)
    {
      var wasSynchronized := sync;
      sync := enabled;
      model := model.(sync := enabled);
      sent := [];
      if !enabled && wasSynchronized {
        sent := DrainOutgoing();
      }
    }
  }

  // ---------------------------------------------------------------- the adapter

  /** Everything the buses own. */
  ghost function Owned(buses: seq<Bus>): set<object>
    reads buses
  {
    set b, o | 0 <= b < |buses| && o in buses[b].Footprint() :: o
  }

  ghost function Models(buses: seq<Bus>): seq<BusState>
    reads buses
  {
    seq(|buses|, b requires 0 <= b < |buses| reads buses => buses[b].model)
  }

  /** The buses are valid and share nothing. */
  ghost predicate AllValid(buses: seq<Bus>)
    reads buses, Owned(buses)
  {
    && (forall b, c | 0 <= b < c < |buses| :: buses[b].Footprint() !! buses[c].Footprint())
    && forall b | 0 <= b < |buses| :: buses[b].Valid() && buses[b].idx == b
  }

  /** One pass of `Commit`'s loop. */
  method CommitOne(buses: seq<Bus>, i: nat) returns (batch: seq<Item>)
    requires AllValid(buses) && i < |buses|
    modifies buses[i].Footprint()
    ensures AllValid(buses) && Owned(buses) == old(Owned(buses))
    ensures Models(buses) == old(Models(buses))[i := CommitKnown(old(Models(buses))[i]).0]
    ensures batch == CommitKnown(old(Models(buses))[i]).1
  {
    ghost var models := Models(buses);
    batch := buses[i].CommitIfSynchronized();
    forall b | 0 <= b < |buses|
      ensures buses[b].Footprint() == old(buses[b].Footprint()) && buses[b].Valid()
      ensures b != i ==> buses[b].model == models[b]
    {
      if b != i { assert old(buses[b].Footprint() !! buses[i].Footprint()); }
    }
  }

  /** One pass of `SetSyncMode`'s loop. */
  method SetOne(buses: seq<Bus>, i: nat, enabled: bool) returns (batch: seq<Item>)
    requires AllValid(buses) && i < |buses|
    modifies buses[i].Footprint()
    ensures AllValid(buses) && Owned(buses) == old(Owned(buses))
    ensures Models(buses) == old(Models(buses))[i := SetMode(old(Models(buses))[i], enabled).0]
    ensures batch == SetMode(old(Models(buses))[i], enabled).1
  {
    ghost var models := Models(buses);
    batch := buses[i].SetSyncMode(enabled);
    forall b | 0 <= b < |buses|
      ensures buses[b].Footprint() == old(buses[b].Footprint()) && buses[b].Valid()
      ensures b != i ==> buses[b].model == models[b]
    {
      if b != i { assert old(buses[b].Footprint() !! buses[i].Footprint()); }
    }
  }

  /** A value of the adapter whose buses have these models. */
  ghost predicate Reached(a: Adapter, models: seq<BusState>, defaultSync: bool, out: seq<Item>) {
    a == Adapter(models, defaultSync, out)
  }

  lemma PutReached(before: Adapter, bus: nat, r: (BusState, seq<Item>), models: seq<BusState>, defaultSync: bool,
                   out: seq<Item>, messages: seq<Item>)
    requires bus < |before.buses| && Reached(before, models, defaultSync, out + messages)
    ensures Reached(Put(before, bus, r), models[bus := r.0], defaultSync, out + (messages + r.1))
  {
    assert out + (messages + r.1) == (out + messages) + r.1;
  }

  lemma OneMoreCommit(start: Adapter, order: seq<nat>, i: nat, models: seq<BusState>, messages: seq<Item>)
    requires i < |order| && forall k | 0 <= k < |order| :: order[k] < |start.buses|
    requires Reached(CommitEach(start, order[..i]), models, start.defaultSync, start.out + messages)
    ensures var r := CommitKnown(models[order[i]]);
            Reached(CommitEach(start, order[..i + 1]), models[order[i] := r.0], start.defaultSync, start.out + (messages + r.1))
  {
    assert order[..i + 1][..i] == order[..i];
    PutReached(CommitEach(start, order[..i]), order[i], CommitKnown(models[order[i]]), models, start.defaultSync, start.out, messages);
  }

  lemma OneMoreMode(start: Adapter, enabled: bool, order: seq<nat>, i: nat, models: seq<BusState>, messages: seq<Item>)
    requires i < |order| && forall k | 0 <= k < |order| :: order[k] < |start.buses|
    requires Reached(ModeEach(start, enabled, order[..i]), models, start.defaultSync, start.out + messages)
    ensures var r := SetMode(models[order[i]], enabled);
            Reached(ModeEach(start, enabled, order[..i + 1]), models[order[i] := r.0], start.defaultSync, start.out + (messages + r.1))
  {
    assert order[..i + 1][..i] == order[..i];
    PutReached(ModeEach(start, enabled, order[..i]), order[i], SetMode(models[order[i]], enabled), models, start.defaultSync,
               start.out, messages);
  }

  /** The loop of `Adapter::Commit`: the batches are accumulated in iteration order. */
  method CommitEvery(buses: seq<Bus>, order: seq<nat>, ghost start: Adapter) returns (messages: seq<Item>)
    requires AllValid(buses) && Models(buses) == start.buses
    requires forall i | 0 <= i < |order| :: order[i] < |buses|
    modifies Owned(buses)
    ensures AllValid(buses) && Owned(buses) == old(Owned(buses))
    ensures Reached(CommitEach(start, order), Models(buses), start.defaultSync, start.out + messages)
  {
    messages := [];
    for i := 0 to |order|
      invariant AllValid(buses) && Owned(buses) == old(Owned(buses))
      invariant Reached(CommitEach(start, order[..i]), Models(buses), start.defaultSync, start.out + messages)
    {
      OneMoreCommit(start, order, i, Models(buses), messages);
      var batch := CommitOne(buses, order[i]);
      messages := messages + batch;
    }
    assert order[..|order|] == order;
  }

  /** The loop of `Adapter::SetSyncMode`. */
  method SetEvery(buses: seq<Bus>, enabled: bool, order: seq<nat>, ghost start: Adapter) returns (messages: seq<Item>)
    requires AllValid(buses) && Models(buses) == start.buses
    requires forall i | 0 <= i < |order| :: order[i] < |buses|
    modifies Owned(buses)
    ensures AllValid(buses) && Owned(buses) == old(Owned(buses))
    ensures Reached(ModeEach(start, enabled, order), Models(buses), start.defaultSync, start.out + messages)
  {
    messages := [];
    for i := 0 to |order|
      invariant AllValid(buses) && Owned(buses) == old(Owned(buses))
      invariant Reached(ModeEach(start, enabled, order[..i]), Models(buses), start.defaultSync, start.out + messages)
    {
      OneMoreMode(start, enabled, order, i, Models(buses), messages);
      var batch := SetOne(buses, order[i], enabled);
      messages := messages + batch;
    }
    assert order[..|order|] == order;
  }

  /** `buses` are the buses the manager knows for the adapter. */
  class BaseAdapter {
    const buses: seq<Bus>
    var defaultSync: bool
    var out: seq<Item>

    /** The value the adapter stands for. */
    ghost function View(): Adapter
      reads this, buses
    {
      Adapter(Models(buses), defaultSync, out)
    }

    constructor (buses: seq<Bus>, defaultSync: bool)
      ensures this.buses == buses && View() == Adapter(Models(buses), defaultSync, [])
    {
      this.buses, this.defaultSync, out := buses, defaultSync, [];
    }

    /** `order` lists the known buses whose operation could be acquired, in iteration order. */
    method Commit(order: seq<nat>)
      requires AllValid(buses) && this !in Owned(buses) && forall i | 0 <= i < |order| :: order[i] < |buses|
      modifies this, Owned(buses)
      ensures AllValid(buses) && Owned(buses) == old(Owned(buses))
      ensures View() == CommitEach(old(View()).(defaultSync := true), order)
    {
      ghost var start := View().(defaultSync := true);
      var messages := CommitEvery(buses, order, start);
      Finish(true, messages);
    }

    method SetSyncMode(enabled: bool, order: seq<nat>)
      requires AllValid(buses) && this !in Owned(buses) && forall i | 0 <= i < |order| :: order[i] < |buses|
      modifies this, Owned(buses)
      ensures AllValid(buses) && Owned(buses) == old(Owned(buses))
      ensures View() == ModeEach(old(View()).(defaultSync := enabled), enabled, order)
    {
      ghost var start := View().(defaultSync := enabled);
      var messages := SetEvery(buses, enabled, order, start);
      Finish(enabled, messages);
    }

    /** Records the default mode and sends the accumulated messages as one batch. */
    method Finish(defaultSync: bool, messages: seq<Item>)
      requires AllValid(buses) && this !in Owned(buses)
      modifies `defaultSync, `out
      ensures AllValid(buses) && Owned(buses) == old(Owned(buses)) && Models(buses) == old(Models(buses))
      ensures this.defaultSync == defaultSync && out == old(out) + messages
    {
      this.defaultSync := defaultSync;
      out := out + messages;
    }
  }
}
