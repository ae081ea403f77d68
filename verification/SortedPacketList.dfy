/** The singly linked list of out-of-order packets, sorted by circular sequence number. */
module SortedPacketList {
  import opened SeqNo
  import opened Receiver

  const NONE := -1

  class Entry {
    var value: int
    var packet: Payload
    var next: Entry?

    constructor (value: int, packet: Payload)
      ensures this.value == value && this.packet == packet && next == null
    {
      this.value := value;
      this.packet := packet;
      next := null;
    }
  }

  function Packets(es: seq<Entry>): seq<Packet>
    reads es
  {
    seq(|es|, i requires 0 <= i < |es| reads es => Packet(es[i].value, es[i].packet))
  }

  class List {
    var length: nat
    var head: Entry?
    ghost var spine: seq<Entry>

    /** The objects that make up the list. */
    ghost function Repr(): set<object>
      reads this
    {
      {this as object} + (set e: Entry | e in spine)
    }

    ghost predicate Valid()
      reads Repr()
    {
      && length == |spine|
      && (forall i, j :: 0 <= i < j < |spine| ==> spine[i] != spine[j])
      && head == (if spine == [] then null else spine[0])
      && (forall i {:trigger spine[i].next} :: 0 <= i < |spine| ==>
            spine[i].next == if i + 1 < |spine| then spine[i + 1] else null)
    }

    ghost function Contents(): (ps: seq<Packet>)
      reads Repr()
      ensures |ps| == |spine|
    {
      Packets(spine)
    }

    constructor ()
      ensures Valid() && Contents() == [] && fresh(Repr())
    {
      length, head, spine := 0, null, [];
    }

    /** Returns `value` if a packet with that number is in the list, and NONE otherwise. */
    method Find(value: int) returns (r: int)
      requires Valid()
      ensures r == if Has(Contents(), value) then value else NONE
    {
      var entry := head;
      ghost var i := 0;
      while entry != null
        invariant 0 <= i <= |spine|
        invariant entry == if i < |spine| then spine[i] else null
        invariant forall j :: 0 <= j < i ==> Contents()[j].num != value
        decreases |spine| - i
      {
        if entry.value == value {
          assert Contents()[i].num == value;
          return entry.value;
        }
        entry := entry.next;
        i := i + 1;
      }
      return NONE;
    }

    /** Puts `entry` before the head. */
    method LinkHead(entry: Entry)
      requires Valid() && entry !in spine
      modifies this, entry
      ensures Valid() && spine == [entry] + old(spine)
      ensures Contents() == [old(Packet(entry.value, entry.packet))] + old(Contents())
    {
      ghost var s := spine;
      entry.next := head;
      head := entry;
      length := length + 1;
      spine := [entry] + s;
      forall j | 0 <= j < |spine| ensures spine[j].next == if j + 1 < |spine| then spine[j + 1] else null {
        if j > 0 { assert spine[j] == s[j - 1] && s[j - 1].next == if j < |s| then s[j] else null; }
      }
      assert Contents() == [old(Packet(entry.value, entry.packet))] + old(Contents());
    }

    /** Puts `entry` right after `prev`. */
    method LinkAfter(prev: Entry, entry: Entry, ghost i: nat)
      requires Valid() && i < |spine| && prev == spine[i] && entry !in spine
      modifies this, prev, entry
      ensures Valid() && spine == old(spine)[..i + 1] + [entry] + old(spine)[i + 1..]
      ensures Contents() ==
              old(Contents())[..i + 1] + [old(Packet(entry.value, entry.packet))] + old(Contents())[i + 1..]
    {
      ghost var s, before, p := spine, Contents(), Packet(entry.value, entry.packet);
      assert prev.next == if i + 1 < |s| then s[i + 1] else null;
      entry.next := prev.next;
      prev.next := entry;
      length := length + 1;
      spine := s[..i + 1] + [entry] + s[i + 1..];
      forall j | 0 <= j < |spine| ensures spine[j].next == if j + 1 < |spine| then spine[j + 1] else null {
        if j <= i {
          assert spine[j] == s[j];
          if j < i { assert s[j].next == s[j + 1]; }
        } else if j > i + 1 {
          assert spine[j] == s[j - 1] && s[j - 1].next == if j < |s| then s[j] else null;
        }
      }
      ghost var after := before[..i + 1] + [p] + before[i + 1..];
      forall j | 0 <= j < |spine| ensures Contents()[j] == after[j] {
        if j != i + 1 { assert spine[j] == s[if j <= i then j else j - 1]; }
      }
      assert Contents() == after;
    }

    /** Walks to the last entry that `value` does not precede, knowing that the head is one. */
    method FindPlace(value: int, ghost p: Packet) returns (entry: Entry, ghost i: nat)
      requires Valid() && spine != [] && !Precedes(value, spine[0].value) && p.num == value
      ensures i < |spine| && entry == spine[i]
      ensures InsertSorted(Wire, Contents(), p) == Contents()[..i + 1] + [p] + Contents()[i + 1..]
    {
      entry, i := head, 0;
      while entry.next != null
        invariant i < |spine| && entry == spine[i]
        invariant forall j :: 0 <= j <= i ==> !Precedes(value, Contents()[j].num)
        decreases |spine| - i
      {
        assert Contents()[i + 1].num == entry.next.value;
        if Precedes(value, entry.next.value) {
          break;
        }
        entry := entry.next;
        i := i + 1;
      }
      InsertSortedAt(Contents(), p, i + 1);
    }

    /** Inserts a packet before the first one that it precedes, unless its number is there. */
    method Add(value: int, packet: Payload)
      requires Valid() && value >= 0
      modifies Repr()
      ensures Valid() && fresh(Repr() - old(Repr()))
      ensures Contents() == InsertPacket(Wire, old(Contents()), Packet(value, packet))
    {
      var found := Find(value);
      if found >= 0 {
        return;
      }
      var newEntry := new Entry(value, packet);
      if length == 0 || Precedes(newEntry.value, head.value) {
        LinkHead(newEntry);
      } else {
        var entry, i := FindPlace(newEntry.value, Packet(value, packet));
        LinkAfter(entry, newEntry, i);
      }
    }

    /** The number of the first packet, or NONE. */
    method GetFirstValue() returns (r: int)
      requires Valid()
      ensures r == if Contents() == [] then NONE else Contents()[0].num
    {
      if length == 0 {
        return NONE;
      }
      return head.value;
    }

    /** Takes the first packet out; of an empty list, nothing. */
    method DeleteFirstPacket() returns (value: int, packet: Payload)
      requires Valid()
      modifies this
      ensures Valid() && Repr() <= old(Repr())
      ensures old(Contents()) == [] ==> Contents() == [] && value == 0 && packet == []
      ensures old(Contents()) != [] ==>
                && old(Contents())[0] == Packet(value, packet)
                && Contents() == old(Contents())[1..]
    {
      if length == 0 {
        return 0, [];
      }
      ghost var s := spine;
      assert spine[0].next == if 1 < |spine| then spine[1] else null;
      value, packet := head.value, head.packet;
      head := head.next;
      length := length - 1;
      spine := s[1..];
      forall j | 0 <= j < |spine| ensures spine[j].next == if j + 1 < |spine| then spine[j + 1] else null {
        assert spine[j] == s[j + 1];
      }
      assert Contents() == old(Contents())[1..];
    }

    /** Takes the first packet out, for delivery or to be dropped. */
    method TakeHead() returns (p: Packet)
      requires Valid() && Contents() != []
      modifies this
      ensures Valid() && length < old(length) && Repr() <= old(Repr())
      ensures p == old(Contents())[0] && Contents() == old(Contents())[1..]
    {
      var seqno, packet := DeleteFirstPacket();
      p := Packet(seqno, packet);
    }
  }

  lemma {:induction false} InsertSortedAt(ps: seq<Packet>, p: Packet, i: nat)
    requires i <= |ps| && forall j :: 0 <= j < i ==> !Wire.Precedes(p.num, ps[j].num)
    requires i < |ps| ==> Wire.Precedes(p.num, ps[i].num)
    ensures InsertSorted(Wire, ps, p) == ps[..i] + [p] + ps[i..]
  {
    if i > 0 {
      assert !Wire.Precedes(p.num, ps[0].num);
      InsertSortedAt(ps[1..], p, i - 1);
      assert ps[..i] + [p] + ps[i..] == [ps[0]] + (ps[1..][..i - 1] + [p] + ps[1..][i - 1..]);
    }
  }

  lemma {:induction false} InsertSortedWithin(ps: seq<Packet>, p: Packet)
    ensures forall q :: q in InsertSorted(Wire, ps, p) ==> q in ps || q == p
  {
    if ps != [] && !Wire.Precedes(p.num, ps[0].num) {
      InsertSortedWithin(ps[1..], p);
    }
  }
}
