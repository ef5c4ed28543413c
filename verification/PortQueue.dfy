/** `Port` used from one thread at a time, as `Bus` does under its mutex: a queue of capacity `Len`
    that drops its oldest message when full (include/utils/port.h:358-548).
 */
module PortQueue {
  import TripleCell
  import opened PortProtocol

  datatype Option<+T> = None | Some(value: T)

  datatype Meta = Meta(version: nat, number: nat, cell: nat)

  datatype Slot<Message> =
    Slot(payloads: seq<Message>, meta: seq<Meta>, hazard: nat, active: nat)

  datatype Head = Head(meta: seq<Meta>, hazard: nat, active: nat)

  /** The last `n` elements of a queue. */
  function Newest<T>(q: seq<T>, n: nat): seq<T> {
    if |q| > n then q[|q| - n..] else q
  }

  /** The metadata a publication leaves: the version advances by two, modulo 2^32. */
  function Prepared(old_: Meta, number: nat, cell: nat): Meta {
    Meta((old_.version + 2) % TripleCell.WORD, number, cell)
  }

  predicate ValidMeta(meta: seq<Meta>) {
    |meta| == TripleCell.CELL_COUNT && forall c | 0 <= c < |meta| :: meta[c].version % 2 == 0
  }

  predicate ValidSlot<Message>(s: Slot<Message>) {
    && ValidMeta(s.meta) && |s.payloads| == TripleCell.CELL_COUNT
    && s.hazard == TripleCell.NO_HAZARD && s.active < TripleCell.CELL_COUNT
  }

  /** The slot publishes `number` with its message. */
  ghost predicate Holds<Message>(s: Slot<Message>, number: nat, message: Message) {
    && ValidSlot(s) && s.meta[s.active].number == number && s.meta[s.active].cell == s.active
    && s.payloads[s.active] == message
  }

  /** The last `len` numbers are all in their slots. */
  ghost predicate Window<Message>(slots: seq<Slot<Message>>, sent: seq<Message>) {
    && |slots| > 2
    && (forall i | 0 <= i < |slots| :: ValidSlot(slots[i]))
    && (forall n | Oldest(|sent|, |slots|) <= n <= |sent| :: Holds(slots[SlotOf(|slots|, n)], n, sent[n - 1]))
  }

  function Published<Message>(s: Slot<Message>, number: nat, message: Message): Slot<Message>
    requires ValidSlot(s)
  {
    var next := TripleCell.Choose(s.active, s.hazard);
    Slot(s.payloads[next := message], s.meta[next := Prepared(s.meta[next], number, next)], s.hazard, next)
  }

  lemma WindowAfterPush<Message>(slots: seq<Slot<Message>>, sent: seq<Message>, message: Message)
    requires Window(slots, sent)
    ensures var i := SlotOf(|slots|, |sent| + 1);
            Window(slots[i := Published(slots[i], |sent| + 1, message)], sent + [message])
  {
    var len, number := |slots|, |sent| + 1;
    var i := SlotOf(len, number);
    var s := Published(slots[i], number, message);
    assert Holds(s, number, message);
    forall n | Oldest(number, len) <= n <= number
      ensures Holds(slots[i := s][SlotOf(len, n)], n, (sent + [message])[n - 1])
    {
      if n < number {
        assert Holds(slots[SlotOf(len, n)], n, sent[n - 1]);
        if SlotOf(len, n) == i { SameSlot(len, n, number); }
      }
    }
  }

  /** What is left of everything sent, for a consumer waiting for `position`. */
  function Retained<Message>(sent: seq<Message>, len: nat, position: nat): (r: seq<Message>)
    requires 1 <= position <= |sent| + 1 && len > 0
  {
    sent[Max(position, Oldest(|sent|, len)) - 1..]
  }

  lemma RetainedAfterPush<Message>(sent: seq<Message>, len: nat, position: nat, message: Message)
    requires 1 <= position <= |sent| + 1 && len > 0
    ensures Retained(sent + [message], len, position) == Newest(Retained(sent, len, position) + [message], len)
  {
    var before, after := Retained(sent, len, position), Retained(sent + [message], len, position);
    assert after == (sent + [message])[|sent| + 1 - |after|..];
    assert before + [message] == (sent + [message])[|sent| - |before|..];
  }

  predicate ValidHead(h: Head) {
    ValidMeta(h.meta) && h.hazard == TripleCell.NO_HAZARD && h.active < TripleCell.CELL_COUNT
  }

  function PublishedHead(h: Head, number: nat): (r: Head)
    requires ValidHead(h)
    ensures ValidHead(r) && r.meta[r.active].number == number
  {
    var next := TripleCell.Choose(h.active, h.hazard);
    Head(h.meta[next := Prepared(h.meta[next], number, next)], h.hazard, next)
  }

  class Port<Message(0)> {
    const len: nat
    const slots: array<Slot<Message>>
    var head: Head
    var produced: nat
    var position: nat
    ghost var sent: seq<Message>

    ghost predicate Valid()
      reads this, slots
    {
      && slots.Length == len && Window(slots[..], sent)
      && ValidHead(head) && head.meta[head.active].number == produced == |sent|
      && 1 <= position <= produced + 1
    }

    /** The unread messages still retained, oldest first. */
    ghost function Contents(): (r: seq<Message>)
      reads this, slots
      requires Valid()
      ensures |r| <= len
    {
      Retained(sent, len, position)
    }

    constructor (len: nat)
      requires len > 2
      ensures Valid() && fresh(slots) && this.len == len && Contents() == []
    {
      var none := Meta(0, 0, 0);
      var payload: Message := *;
      this.len := len;
      slots := new Slot<Message>[len](_ => Slot([payload, payload, payload], [none, none, none], TripleCell.NO_HAZARD, 0));
      head := Head([none, none, none], TripleCell.NO_HAZARD, 0);
      produced, position, sent := 0, 1, [];
    }

    method Push(message: Message)
      requires Valid()
      modifies this`head, this`produced, this`sent, slots
      ensures Valid() && Contents() == Newest(old(Contents()) + [message], len)
    {
      var number := produced + 1;
      var i := SlotOf(len, number);
      ghost var before := slots[..];
      slots[i] := Published(slots[i], number, message);
      head := PublishedHead(head, number);
      produced := number;
      WindowAfterPush(before, sent, message);
      RetainedAfterPush(sent, len, position, message);
      assert slots[..] == before[i := Published(before[i], number, message)];
      sent := sent + [message];
    }

    /** The number last published in the head. */
    method ReadHead() returns (number: nat)
      requires Valid()
      modifies this`head
      ensures number == produced && head == old(head)
    {
      var cell := head.active;
      head := head.(hazard := cell);
      number := head.meta[cell].number;
      head := head.(hazard := TripleCell.NO_HAZARD);
    }

    /** The message published under `target`, or what to do instead: retry if the slot already
        shows a newer number, which is then `resync`. */
    method ReadTarget(i: nat, target: nat) returns (message: Option<Message>, retry: bool, resync: nat)
      requires Valid() && i < len
      modifies slots
      ensures slots[..] == old(slots[..])
      ensures var s := slots[i];
              var m := s.meta[s.active];
              if m.cell != s.active then message.None? && retry && resync == target
              else if m.number == target then message == Some(s.payloads[s.active]) && !retry
              else message.None? && retry == (m.number > target) && resync == m.number
    {
      resync := target;
      var active := slots[i].active;
      slots[i] := slots[i].(hazard := active);
      var m := slots[i].meta[active];
      if m.version % 2 != 0 || m.cell != active {
        slots[i] := slots[i].(hazard := TripleCell.NO_HAZARD);
        return None, true, target;
      }
      if m.number != target {
        slots[i] := slots[i].(hazard := TripleCell.NO_HAZARD);
        return None, m.number > target, m.number;
      }
      message := Some(slots[i].payloads[active]);
      slots[i] := slots[i].(hazard := TripleCell.NO_HAZARD);
      retry := false;
    }

    /** Takes the oldest retained message.  With nobody pushing meanwhile the first pass of the
        retry loop always returns. */
    method Pop() returns (message: Option<Message>)
      requires Valid()
      modifies this`head, this`position, slots
      ensures Valid()
      ensures old(Contents()) == [] ==> message == None && Contents() == []
      ensures old(Contents()) != [] ==>
                message == Some(old(Contents())[0]) && Contents() == old(Contents())[1..]
    {
      var number := ReadHead();
      if position > number {
        return None;
      }
      position := Max(position, Oldest(number, len));
      ghost var i := SlotOf(len, position);
      assert Holds(slots[..][i], position, sent[position - 1]);
      var retry, resync;
      message, retry, resync := ReadTarget(SlotOf(len, position), position);
      position := position + 1;
    }

    method Empty() returns (empty: bool)
      requires Valid()
      modifies this`head
      ensures Valid() && Contents() == old(Contents()) && (empty <==> Contents() == [])
    {
      var number := ReadHead();
      empty := position > number;
    }

    method Clear()
      requires Valid()
      modifies this`head, this`position
      ensures Valid() && Contents() == []
    {
      var number := ReadHead();
      position := number + 1;
    }
  }
}
