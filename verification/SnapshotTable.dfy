/** The open-addressing table inside a registry snapshot (src/operation_gate.h:277-327): built once
    by linear probing from the registered entries, then only read.  `& (capacity - 1)` is written as
    a remainder, the capacity being 8 times a power of two; the hash is any function of the key.
 */
module SnapshotTable {

  datatype Key = Key(object_: nat, kind: nat)

  datatype Entry = Entry(key: Key, registered: bool, id: nat)

  datatype Option<+T> = None | Some(value: T)

  /** `Register` refuses a key that is already registered. */
  ghost predicate DistinctKeys(entries: seq<Entry>) {
    forall i, j | 0 <= i < j < |entries| && entries[i].registered && entries[j].registered ::
      entries[i].key != entries[j].key
  }

  function CountRegistered(entries: seq<Entry>): nat {
    if entries == [] then 0
    else CountRegistered(entries[..|entries| - 1]) + (if entries[|entries| - 1].registered then 1 else 0)
  }

  lemma {:induction false} CountPrefix(entries: seq<Entry>, n: nat)
    requires n <= |entries|
    ensures CountRegistered(entries[..n]) <= CountRegistered(entries)
    decreases |entries|
  {
    if n < |entries| {
      assert entries[..|entries| - 1][..n] == entries[..n];
      CountPrefix(entries[..|entries| - 1], n);
    } else {
      assert entries[..n] == entries;
    }
  }

  ghost predicate Registered(entries: seq<Entry>, e: Entry) {
    e.registered && e in entries
  }

  function Indices(n: nat): (r: set<nat>)
    ensures |r| == n && forall i: nat :: i in r <==> i < n
  {
    if n == 0 then {} else Indices(n - 1) + {n - 1}
  }

  lemma SubsetSize(a: set<nat>, b: set<nat>)
    requires a <= b
    ensures |a| <= |b|
  {
    assert b == a + (b - a);
  }

  /** Probing visits every slot once per lap, so a table that is not full has a free slot ahead. */
  lemma LapCoversAll(capacity: nat, start: nat, i: nat) returns (p: nat)
    requires start < capacity && i < capacity
    ensures p < capacity && (start + p) % capacity == i
  {
    p := if i >= start then i - start else i + capacity - start;
  }

  type Table = seq<Option<Entry>>

  function Slot(hash: Key -> nat, capacity: nat, key: Key, probe: nat): (i: nat)
    requires capacity > 0
    ensures i < capacity
  {
    (hash(key) % capacity + probe) % capacity
  }

  /** `e` sits `probe` slots after its start with no empty slot before it. */
  ghost predicate PlacedAt(hash: Key -> nat, t: Table, e: Entry, probe: nat) {
    && probe < |t| && t[Slot(hash, |t|, e.key, probe)] == Some(e)
    && forall q | 0 <= q < probe :: t[Slot(hash, |t|, e.key, q)].Some?
  }

  ghost predicate Placed(hash: Key -> nat, t: Table, maxProbe: nat, e: Entry) {
    exists probe: nat :: probe <= maxProbe && PlacedAt(hash, t, e, probe)
  }

  /** The table holds exactly these registered entries. */
  ghost predicate Represents(hash: Key -> nat, t: Table, maxProbe: nat, entries: seq<Entry>) {
    && |t| > 0
    && (forall i | 0 <= i < |t| && t[i].Some? :: Registered(entries, t[i].value))
    && (forall e | Registered(entries, e) :: Placed(hash, t, maxProbe, e))
  }

  ghost function Occupied(t: Table): set<nat> {
    set i: nat | i < |t| && t[i].Some?
  }

  /** Not every slot of a lap is taken while some slot is free. */
  lemma FullLap(hash: Key -> nat, t: Table, key: Key)
    requires |Occupied(t)| < |t|
    ensures exists q :: 0 <= q < |t| && t[Slot(hash, |t|, key, q)].None?
  {
    if forall q | 0 <= q < |t| :: t[Slot(hash, |t|, key, q)].Some? {
      forall i | i in Indices(|t|) ensures i in Occupied(t) {
        var p := LapCoversAll(|t|, hash(key) % |t|, i);
        assert t[Slot(hash, |t|, key, p)].Some?;
      }
      SubsetSize(Indices(|t|), Occupied(t));
    }
  }

  function Max(a: nat, b: nat): nat { if a < b then b else a }

  /** Filling the first free slot of a new entry's probe sequence disturbs nobody else's. */
  lemma InsertKeeps(hash: Key -> nat, t: Table, maxProbe: nat, entries: seq<Entry>, e: Entry, probe: nat)
    requires Represents(hash, t, maxProbe, entries) && e.registered && probe < |t|
    requires t[Slot(hash, |t|, e.key, probe)].None?
    requires forall q | 0 <= q < probe :: t[Slot(hash, |t|, e.key, q)].Some?
    ensures var i := Slot(hash, |t|, e.key, probe);
            && Represents(hash, t[i := Some(e)], Max(maxProbe, probe), entries + [e])
            && |Occupied(t[i := Some(e)])| == |Occupied(t)| + 1
  {
    var i := Slot(hash, |t|, e.key, probe);
    var u := t[i := Some(e)];
    assert Occupied(u) == Occupied(t) + {i};
    forall j | 0 <= j < |u| && u[j].Some? ensures Registered(entries + [e], u[j].value) {
      if j != i { assert Registered(entries, t[j].value); }
    }
    forall x | Registered(entries + [e], x) ensures Placed(hash, u, Max(maxProbe, probe), x) {
      if x in entries {
        assert Placed(hash, t, maxProbe, x);
        var p: nat :| p <= maxProbe && PlacedAt(hash, t, x, p);
        assert PlacedAt(hash, u, x, p);
      } else {
        assert x == e && PlacedAt(hash, u, e, probe);
      }
    }
  }

  /** An entry of this key lies neither beyond an empty slot nor beyond `maxProbe`. */
  lemma NotPast(hash: Key -> nat, t: Table, maxProbe: nat, entries: seq<Entry>, key: Key, probe: nat)
    requires Represents(hash, t, maxProbe, entries)
    requires forall q | 0 <= q < probe ::
               t[Slot(hash, |t|, key, q)].Some? && t[Slot(hash, |t|, key, q)].value.key != key
    requires probe > maxProbe || t[Slot(hash, |t|, key, probe)].None?
    ensures forall e | Registered(entries, e) :: e.key != key
  {
    forall e | Registered(entries, e) ensures e.key != key {
      assert Placed(hash, t, maxProbe, e);
      var p: nat :| p <= maxProbe && PlacedAt(hash, t, e, p);
    }
  }

  /** With distinct keys the answer of `Find` is unique, so the table and the plain map of registered entries agree. */
  lemma FoundEntryIsUnique(entries: seq<Entry>, a: Entry, b: Entry)
    requires DistinctKeys(entries) && Registered(entries, a) && Registered(entries, b) && a.key == b.key
    ensures a == b
  {
    var i :| 0 <= i < |entries| && entries[i] == a;
    var j :| 0 <= j < |entries| && entries[j] == b;
    if i < j || j < i { assert entries[i].key == entries[j].key; }
  }

  class Snapshot {
    const hash: Key -> nat
    const slots: array<Option<Entry>>
    var maxProbe: nat

    /** At most half of the slots are used. */
    ghost predicate Valid(entries: seq<Entry>)
      reads this, slots
    {
      Represents(hash, slots[..], maxProbe, entries) && 2 * |Occupied(slots[..])| <= slots.Length
    }

    constructor (hash: Key -> nat, entries: seq<Entry>)
      ensures Valid(entries) && fresh(slots) && this.hash == hash
    {
      var active := 0;
      for i := 0 to |entries|
        invariant active == CountRegistered(entries[..i])
      {
        assert entries[..i + 1][..i] == entries[..i];
        if entries[i].registered {
          active := active + 1;
        }
      }
      assert entries[..|entries|] == entries;
      var capacity := 8;
      while capacity < active * 2
        invariant capacity > 0
        decreases active * 2 - capacity
      {
        capacity := capacity * 2;
      }
      this.hash := hash;
      slots := new Option<Entry>[capacity](_ => None);
      maxProbe := 0;
      new;
      assert Occupied(slots[..]) == {};
      for i := 0 to |entries|
        invariant Represents(hash, slots[..], maxProbe, entries[..i])
        invariant |Occupied(slots[..])| == CountRegistered(entries[..i])
      {
        assert entries[..i + 1] == entries[..i] + [entries[i]];
        CountPrefix(entries, i + 1);
        CountPrefix(entries, i);
        if entries[i].registered {
          Insert(entries[i], entries[..i]);
        } else {
          assert forall e :: Registered(entries[..i + 1], e) <==> Registered(entries[..i], e);
        }
      }
    }

    /** Puts a new entry into the first free slot after its start. */
    method Insert(e: Entry, ghost before: seq<Entry>)
      requires Represents(hash, slots[..], maxProbe, before) && e.registered
      requires |Occupied(slots[..])| < slots.Length
      modifies this`maxProbe, slots
      ensures Represents(hash, slots[..], maxProbe, before + [e])
      ensures |Occupied(slots[..])| == old(|Occupied(slots[..])|) + 1
    {
      FullLap(hash, slots[..], e.key);
      var probe := 0;
      while slots[Slot(hash, slots.Length, e.key, probe)].Some?
        invariant probe < slots.Length
        invariant forall q | 0 <= q < probe :: slots[..][Slot(hash, slots.Length, e.key, q)].Some?
        decreases slots.Length - probe
      {
        probe := probe + 1;
      }
      ghost var t := slots[..];
      InsertKeeps(hash, t, maxProbe, before, e, probe);
      var i := Slot(hash, slots.Length, e.key, probe);
      slots[i] := Some(e);
      maxProbe := Max(maxProbe, probe);
      assert slots[..] == t[i := Some(e)];
    }

    /** The entry registered under the key, or none. */
    method Find(key: Key, ghost entries: seq<Entry>) returns (found: Option<Entry>)
      requires Valid(entries)
      ensures found.Some? <==> exists e :: Registered(entries, e) && e.key == key
      ensures found.Some? ==> Registered(entries, found.value) && found.value.key == key
      ensures DistinctKeys(entries) ==>
                forall e | Registered(entries, e) && e.key == key :: found == Some(e)
    {
      ghost var t := slots[..];
      var probe := 0;
      while probe <= maxProbe
        invariant 0 <= probe <= maxProbe + 1
        invariant forall q | 0 <= q < probe ::
                    t[Slot(hash, |t|, key, q)].Some? && t[Slot(hash, |t|, key, q)].value.key != key
      {
        var entry := slots[Slot(hash, slots.Length, key, probe)];
        if entry.None? {
          NotPast(hash, t, maxProbe, entries, key, probe);
          return None;
        }
        if entry.value.key == key {
          assert Registered(entries, t[Slot(hash, |t|, key, probe)].value);
          if DistinctKeys(entries) {
            forall e | Registered(entries, e) && e.key == key ensures entry == Some(e) {
              FoundEntryIsUnique(entries, e, entry.value);
            }
          }
          return entry;
        }
        probe := probe + 1;
      }
      NotPast(hash, t, maxProbe, entries, key, probe);
      return None;
    }
  }
}
