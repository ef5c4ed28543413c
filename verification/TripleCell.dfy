/** The three-cell publication protocol shared by every Port slot and by the Port head
    (include/utils/port.h:200-344, 388-418, 505-538).

    One writer fills a cell word by word and then publishes its index; one reader loads the
    index, stores it as a hazard, re-checks the index and only then reads the cell word by word.
    Every atomic access, and every payload word copied, is one step, so the two sides interleave
    arbitrarily.  A cell is a sequence of words:

      0 version   1 low half of the number   2 high half of the number
      3 cell index (slots only)              4.. payload words (slots only)
 */
module TripleCell {

  const CELL_COUNT: nat := 3
  const NO_HAZARD: nat := CELL_COUNT
  const WORD: nat := 0x1_0000_0000

  datatype Kind = SlotCells | HeadCells

  /** What one completed publication leaves in a cell. */
  datatype Value = Value(number: nat, payload: seq<nat>, cell: nat, version: nat)

  datatype Store = Store(index: nat, word: nat)

  /** `next` is being filled: `done` stores of `Script(kind, target)` have been performed on a cell
      that held the words `base`. */
  datatype Writer = Resting | Filling(next: nat, done: nat, target: Value, base: seq<nat>)

  /** Program counter of the reader inside one read attempt. */
  datatype Reader =
    | Away
    | Loaded(seen: nat)
    | Marked(seen: nat)
    | Missed
    | Holding(held: nat, got: seq<nat>)

  /** `values` records, per cell, the last completed publication: a history variable, except that
      `values[c].version` is the writer's private copy of the cell's version word. */
  datatype Reg = Reg(kind: Kind, cells: seq<seq<nat>>, values: seq<Value>,
                     hazard: nat, published: nat, writer: Writer, reader: Reader)

  // ---------------------------------------------------------------- layout

  function Image(kind: Kind, v: Value): seq<nat> {
    [v.version, v.number % WORD, v.number / WORD]
    + (if kind.SlotCells? then [v.cell] + v.payload else [])
  }

  function Size(kind: Kind, width: nat): nat {
    if kind.SlotCells? then 4 + width else 3
  }

  function PayloadStores(payload: seq<nat>): seq<Store> {
    seq(|payload|, i requires 0 <= i < |payload| => Store(4 + i, payload[i]))
  }

  /** The stores of one publication in program order: payload, odd version, number, cell, even
      version. */
  function Script(kind: Kind, v: Value): seq<Store> {
    (if kind.SlotCells? then PayloadStores(v.payload) else [])
    + [Store(0, (v.version + WORD - 1) % WORD), Store(1, v.number % WORD), Store(2, v.number / WORD)]
    + (if kind.SlotCells? then [Store(3, v.cell)] else [])
    + [Store(0, v.version)]
  }

  /** Word indices in the order the reader loads them; the payload follows only on a match. */
  function MetadataOrder(kind: Kind): seq<nat> {
    if kind.SlotCells? then [0, 1, 2, 3, 0] else [0, 1, 2, 0]
  }

  function Write(words: seq<nat>, st: Store): seq<nat> {
    if st.index < |words| then words[st.index := st.word] else words
  }

  function WriteAll(words: seq<nat>, stores: seq<Store>): (r: seq<nat>)
    ensures |r| == |words|
    decreases |stores|
  {
    if stores == [] then words
    else Write(WriteAll(words, stores[..|stores| - 1]), stores[|stores| - 1])
  }

  /** The last store to a word decides it. */
  lemma {:induction false} WriteAllAt(words: seq<nat>, stores: seq<Store>, k: nat)
    requires k < |stores| && stores[k].index < |words|
    requires forall j :: k < j < |stores| ==> stores[j].index != stores[k].index
    ensures WriteAll(words, stores)[stores[k].index] == stores[k].word
    decreases |stores|
  {
    var front := stores[..|stores| - 1];
    if k < |front| {
      assert front[k] == stores[k];
      WriteAllAt(words, front, k);
      assert stores[|stores| - 1].index != stores[k].index;
    }
  }

  /** Position in the script of the last store to word `i`. */
  function LastStore(kind: Kind, v: Value, i: nat): nat
    requires i < Size(kind, |v.payload|)
  {
    var p := if kind.SlotCells? then |v.payload| else 0;
    if i == 0 then |Script(kind, v)| - 1 else if i <= 3 then p + i else i - 4
  }

  lemma LastStoreWritesImage(kind: Kind, v: Value, i: nat)
    requires i < Size(kind, |v.payload|)
    ensures var script, k := Script(kind, v), LastStore(kind, v, i);
            && |Image(kind, v)| == Size(kind, |v.payload|)
            && k < |script| && script[k] == Store(i, Image(kind, v)[i])
            && forall j :: k < j < |script| ==> script[j].index != i
  {
  }

  /** Performing the whole script turns any old cell contents into the image of the new value. */
  lemma ScriptWritesImage(kind: Kind, v: Value, base: seq<nat>)
    requires |base| == Size(kind, |v.payload|)
    ensures WriteAll(base, Script(kind, v)) == Image(kind, v)
  {
    forall i | 0 <= i < |base|
      ensures |Image(kind, v)| == |base| && WriteAll(base, Script(kind, v))[i] == Image(kind, v)[i]
    {
      LastStoreWritesImage(kind, v, i);
      WriteAllAt(base, Script(kind, v), LastStore(kind, v, i));
    }
  }

  // ---------------------------------------------------------------- steps

  function Initial(kind: Kind, width: nat): Reg {
    var v := Value(0, seq(if kind.SlotCells? then width else 0, _ => 0), 0, 0);
    Reg(kind, [Image(kind, v), Image(kind, v), Image(kind, v)], [v, v, v], NO_HAZARD, 0, Resting, Away)
  }

  /** The third cell: neither the active one nor the one under hazard. */
  function Choose(active: nat, hazard: nat): (next: nat)
    requires active < CELL_COUNT
    ensures next < CELL_COUNT && next != active && next != hazard
  {
    var candidate := (active + 1) % CELL_COUNT;
    if candidate == hazard then (candidate + 1) % CELL_COUNT else candidate
  }

  /** Loads the hazard and picks the cell; the rest is private to the writer. */
  function BeginWrite(r: Reg, number: nat, payload: seq<nat>): Reg
    requires r.published < CELL_COUNT == |r.cells| == |r.values|
  {
    var next := Choose(r.published, r.hazard);
    var version := (r.values[next].version + 2) % WORD;
    r.(writer := Filling(next, 0, Value(number, payload, next, version), r.cells[next]))
  }

  predicate CanStore(r: Reg) {
    r.writer.Filling? && r.writer.done < |Script(r.kind, r.writer.target)|
    && r.writer.next < |r.cells|
  }

  function StoreWord(r: Reg): Reg
    requires CanStore(r)
  {
    var next := r.writer.next;
    var st := Script(r.kind, r.writer.target)[r.writer.done];
    r.(cells := r.cells[next := Write(r.cells[next], st)],
       writer := r.writer.(done := r.writer.done + 1))
  }

  predicate CanPublish(r: Reg) {
    r.writer.Filling? && r.writer.done == |Script(r.kind, r.writer.target)|
    && r.writer.next < |r.values|
  }

  function Publish(r: Reg): Reg
    requires CanPublish(r)
  {
    r.(published := r.writer.next, values := r.values[r.writer.next := r.writer.target],
       writer := Resting)
  }

  function Load(r: Reg): Reg {
    r.(reader := Loaded(r.published))
  }

  function Mark(r: Reg): Reg
    requires r.reader.Loaded?
  {
    r.(hazard := r.reader.seen, reader := Marked(r.reader.seen))
  }

  function Check(r: Reg): Reg
    requires r.reader.Marked?
  {
    r.(reader := if r.published != r.reader.seen then Missed else Holding(r.reader.seen, []))
  }

  predicate CanRead(r: Reg, index: nat) {
    r.reader.Holding? && r.reader.held < |r.cells| && index < |r.cells[r.reader.held]|
  }

  function ReadWord(r: Reg, index: nat): Reg
    requires CanRead(r, index)
  {
    r.(reader := r.reader.(got := r.reader.got + [r.cells[r.reader.held][index]]))
  }

  /** Clears the hazard, after a missed check as well as after a read. */
  function Release(r: Reg): Reg {
    r.(hazard := NO_HAZARD, reader := Away)
  }

  // ---------------------------------------------------------------- invariant

  ghost predicate WellFormedValue(kind: Kind, v: Value, width: nat) {
    |v.payload| == width && v.version % 2 == 0 && v.version < WORD
  }

  /** Word index of the j-th load of a slot or head read. */
  function ReadIndex(kind: Kind, j: nat): nat {
    if j < |MetadataOrder(kind)| then MetadataOrder(kind)[j] else j - |MetadataOrder(kind)| + 4
  }

  ghost predicate Inv(r: Reg, width: nat) {
    && |r.cells| == CELL_COUNT == |r.values|
    && r.published < CELL_COUNT
    && (forall c | 0 <= c < CELL_COUNT ::
          |r.cells[c]| == Size(r.kind, width) && WellFormedValue(r.kind, r.values[c], width))
    && r.values[r.published].cell == r.published
    && (forall c | 0 <= c < CELL_COUNT ::
          !(r.writer.Filling? && r.writer.next == c) ==> r.cells[c] == Image(r.kind, r.values[c]))
    && WriterInv(r, width)
    && ReaderInv(r)
  }

  ghost predicate WriterInv(r: Reg, width: nat)
    requires |r.cells| == CELL_COUNT
  {
    r.writer.Filling? ==>
      && r.writer.next < CELL_COUNT && r.writer.next != r.published
      && r.writer.target.cell == r.writer.next
      && WellFormedValue(r.kind, r.writer.target, width)
      && |r.writer.base| == Size(r.kind, width)
      && r.writer.done <= |Script(r.kind, r.writer.target)|
      && r.cells[r.writer.next] == WriteAll(r.writer.base, Script(r.kind, r.writer.target)[..r.writer.done])
  }

  /** A validated hazard names a complete cell that the writer is not filling, and every word
      already loaded is a word of that cell's value. */
  ghost predicate ReaderInv(r: Reg)
    requires |r.values| == CELL_COUNT
  {
    match r.reader
    case Away => true
    case Loaded(c) => c < CELL_COUNT
    case Marked(c) => c < CELL_COUNT && r.hazard == c
    case Missed => true
    case Holding(c, got) =>
      && c < CELL_COUNT && r.hazard == c && r.values[c].cell == c
      && (r.writer.Filling? ==> r.writer.next != c)
      && (forall j | 0 <= j < |got| ::
            ReadIndex(r.kind, j) < |Image(r.kind, r.values[c])|
            && got[j] == Image(r.kind, r.values[c])[ReadIndex(r.kind, j)])
  }

  lemma InitialInv(kind: Kind, width: nat)
    ensures Inv(Initial(kind, width), if kind.SlotCells? then width else 0)
  {
    var r := Initial(kind, width);
    assert |Image(kind, r.values[0])| == Size(kind, if kind.SlotCells? then width else 0);
  }

  lemma BeginWriteInv(r: Reg, width: nat, number: nat, payload: seq<nat>)
    requires Inv(r, width) && r.writer.Resting? && |payload| == width
    ensures Inv(BeginWrite(r, number, payload), width)
  {
    var next := Choose(r.published, r.hazard);
    assert (r.values[next].version + 2) % WORD % 2 == 0;
  }

  lemma StoreWordInv(r: Reg, width: nat)
    requires Inv(r, width) && CanStore(r)
    ensures Inv(StoreWord(r), width)
  {
    var script, done := Script(r.kind, r.writer.target), r.writer.done;
    assert script[..done + 1][..done] == script[..done];
  }

  lemma PublishInv(r: Reg, width: nat)
    requires Inv(r, width) && CanPublish(r)
    requires r.kind.HeadCells? ==> width == 0
    ensures Inv(Publish(r), width)
  {
    var script := Script(r.kind, r.writer.target);
    assert script[..|script|] == script;
    ScriptWritesImage(r.kind, r.writer.target, r.writer.base);
  }

  lemma ReaderStepsInv(r: Reg, width: nat)
    requires Inv(r, width)
    ensures Inv(Load(r), width)
    ensures r.reader.Loaded? ==> Inv(Mark(r), width)
    ensures r.reader.Marked? ==> Inv(Check(r), width)
    ensures Inv(Release(r), width)
  {
  }

  lemma ReadWordInv(r: Reg, width: nat)
    requires Inv(r, width) && r.reader.Holding?
    requires CanRead(r, ReadIndex(r.kind, |r.reader.got|))
    ensures Inv(ReadWord(r, ReadIndex(r.kind, |r.reader.got|)), width)
  {
    var c, got := r.reader.held, r.reader.got;
    var t := ReadWord(r, ReadIndex(r.kind, |got|));
    assert r.cells[c] == Image(r.kind, r.values[c]);
    assert t == r.(reader := t.reader);
    assert ReaderInv(t) by {
      forall j | 0 <= j < |t.reader.got|
        ensures ReadIndex(r.kind, j) < |Image(r.kind, r.values[c])|
                && t.reader.got[j] == Image(r.kind, r.values[c])[ReadIndex(r.kind, j)]
      {
        if j < |got| { assert t.reader.got[j] == got[j]; }
      }
    }
  }
}
