/** The singly linked list with head, tail and length that holds missing sequence numbers. */
module U16List {
  import opened Receiver

  const NOT_FOUND := 0xffff

  class Entry {
    var value: int
    var next: Entry?

    constructor (value: int)
      ensures this.value == value && next == null
    {
      this.value := value;
      next := null;
    }
  }

  /** No number is in the list twice, and none is mistaken for the not-found mark. */
  predicate Distinct(l: seq<int>) {
    (forall i, j :: 0 <= i < j < |l| ==> l[i] != l[j]) && NOT_FOUND !in l
  }

  function Values(es: seq<Entry>): seq<int>
    reads es
  {
    seq(|es|, i requires 0 <= i < |es| reads es => es[i].value)
  }

  class List {
    var length: nat
    var head: Entry?
    var tail: Entry?
    ghost var spine: seq<Entry>

    /** The objects that make up the list. */
    ghost function Repr(): set<object>
      reads this
    {
      {this as object} + (set e: Entry | e in spine)
    }

    /** The entries from the head on are those of `spine`; the tail is the last of them, except
        that it may be stale in an empty list. */
    ghost predicate Valid()
      reads Repr()
    {
      && length == |spine|
      && (forall i, j :: 0 <= i < j < |spine| ==> spine[i] != spine[j])
      && head == (if spine == [] then null else spine[0])
      && (forall i {:trigger spine[i].next} :: 0 <= i < |spine| ==> spine[i].next == if i + 1 < |spine| then spine[i + 1] else null)
      && (spine != [] ==> tail == spine[|spine| - 1])
    }

    ghost function Contents(): (l: seq<int>)
      reads Repr()
      ensures |l| == |spine|
    {
      Values(spine)
    }

    constructor ()
      ensures Valid() && Contents() == [] && fresh(Repr())
    {
      head, tail, length, spine := null, null, 0, [];
    }

    /** Takes the first entry, which the head has left, off the spine. */
    ghost method DropFirst()
      requires spine != []
      requires forall i, j :: 0 <= i < j < |spine| ==> spine[i] != spine[j]
      requires forall i {:trigger spine[i].next} :: 0 <= i < |spine| ==> spine[i].next == if i + 1 < |spine| then spine[i + 1] else null
      modifies this`spine
      ensures spine == old(spine)[1..]
      ensures forall i, j :: 0 <= i < j < |spine| ==> spine[i] != spine[j]
      ensures forall i {:trigger spine[i].next} :: 0 <= i < |spine| ==> spine[i].next == if i + 1 < |spine| then spine[i + 1] else null
    {
      ghost var s := spine;
      spine := spine[1..];
      forall i | 0 <= i < |spine| ensures spine[i].next == if i + 1 < |spine| then spine[i + 1] else null {
        assert spine[i] == s[i + 1];
      }
    }

    /** Returns `x` if it is in the list, and the not-found mark otherwise. */
    method Find(x: int) returns (r: int)
      requires Valid()
      ensures r == if x in Contents() then x else NOT_FOUND
    {
      var entry := head;
      ghost var i := 0;
      while entry != null
        invariant 0 <= i <= |spine|
        invariant entry == if i < |spine| then spine[i] else null
        invariant forall j :: 0 <= j < i ==> Contents()[j] != x
        decreases |spine| - i
      {
        if entry.value == x {
          assert Contents()[i] == x;
          return entry.value;
        }
        entry := entry.next;
        i := i + 1;
      }
      return NOT_FOUND;
    }

    /** Appends `x` unless it is there already.  The not-found mark is never found, so it is appended
        every time. */
    method Add(x: int)
      requires Valid()
      modifies Repr()
      ensures Valid() && fresh(Repr() - old(Repr()))
      ensures Contents() == if x == NOT_FOUND then old(Contents()) + [x] else Insert(old(Contents()), x)
    {
      var found := Find(x);
      if found == NOT_FOUND {
        var entry := new Entry(x);
        if length == 0 {
          head := entry;
          tail := entry;
        } else {
          tail.next := entry;
          tail := entry;
        }
        length := length + 1;
        spine := spine + [entry];
        assert Contents() == old(Contents()) + [x];
      }
    }

    /** Takes the first entry out. */
    method UnlinkHead()
      requires Valid() && spine != []
      modifies this
      ensures Valid() && spine == old(spine)[1..]
      ensures Contents() == old(Contents())[1..]
    {
      var entry := head;
      assert spine[0].next == if 1 < |spine| then spine[1] else null;
      head := entry.next;
      length := length - 1;
      if tail == entry {
        tail := null;
      }
      DropFirst();
    }

    /** Takes `entry`, which follows `prev`, out. */
    method UnlinkAfter(prev: Entry, entry: Entry, ghost i: nat)
      requires Valid() && 0 < i < |spine| && prev == spine[i - 1] && entry == spine[i]
      modifies this, prev
      ensures Valid() && spine == old(spine)[..i] + old(spine)[i + 1..]
      ensures prev.value == old(prev.value)
    {
      ghost var s := spine;
      assert entry.next == if i + 1 < |s| then s[i + 1] else null;
      prev.next := entry.next;
      length := length - 1;
      if tail == entry {
        tail := prev;
      }
      spine := s[..i] + s[i + 1..];
      forall j | 0 <= j < |spine| ensures spine[j].next == if j + 1 < |spine| then spine[j + 1] else null {
        assert spine[j] == s[if j < i then j else j + 1];
        if j != i - 1 { assert spine[j] != prev; }
      }
    }

    /** Removes `x` wherever it sits, and returns it, or returns the not-found mark. */
    method Remove(x: int) returns (r: int)
      requires Valid()
      modifies Repr()
      ensures Valid() && Repr() <= old(Repr())
      ensures Contents() == Delete(old(Contents()), x)
      ensures r == if x in old(Contents()) then x else NOT_FOUND
    {
      if length == 0 {
        return NOT_FOUND;
      }
      var entry := head;
      if entry.value == x {
        assert Contents()[0] == x;
        UnlinkHead();
        return x;
      }
      var prev := head;
      entry := head.next;
      ghost var i, before := 1, Contents();
      while entry != null
        invariant 1 <= i <= |spine| && prev == spine[i - 1]
        invariant entry == if i < |spine| then spine[i] else null
        invariant forall j :: 0 <= j < i ==> before[j] != x
        invariant spine == old(spine) && Valid() && Contents() == before
        decreases |spine| - i
      {
        if entry.value == x {
          assert before[i] == x;
          DeleteAt(before, x, i);
          UnlinkAfter(prev, entry, i);
          assert Contents() == before[..i] + before[i + 1..];
          return x;
        }
        prev := prev.next;
        entry := entry.next;
        i := i + 1;
      }
      DeleteAbsent(before, x);
      return NOT_FOUND;
    }

    /** Removes the first number and returns it, or returns the not-found mark.  The tail is left
        behind when the list becomes empty. */
    method RemoveFirst() returns (r: int)
      requires Valid()
      modifies this
      ensures Valid() && Repr() <= old(Repr()) && tail == old(tail)
      ensures r == (if old(Contents()) == [] then NOT_FOUND else old(Contents())[0])
      ensures Contents() == (if old(Contents()) == [] then [] else old(Contents())[1..])
    {
      if length == 0 {
        return NOT_FOUND;
      }
      r := head.value;
      assert spine[0].next == if 1 < |spine| then spine[1] else null;
      head := head.next;
      length := length - 1;
      DropFirst();
      assert Contents() == old(Contents())[1..];
    }

    /** The `i`th number, counting from 1, or the not-found mark past the end. */
    method GetIth(i: nat) returns (r: int)
      requires Valid() && 1 <= i
      ensures r == if i <= |Contents()| then Contents()[i - 1] else NOT_FOUND
    {
      var entry := head;
      if length < i {
        return NOT_FOUND;
      }
      var j := 1;
      while j < i
        invariant 1 <= j <= i && entry == spine[j - 1]
      {
        entry := entry.next;
        j := j + 1;
      }
      return entry.value;
    }

    method IsEmpty() returns (b: bool)
      requires Valid()
      ensures b <==> Contents() == []
    {
      b := length == 0;
    }
  }

  // ---------------------------------------------------------------------------
  // The list as a sequence
  // ---------------------------------------------------------------------------

  lemma {:induction false} DeleteAt(l: seq<int>, x: int, i: nat)
    requires i < |l| && l[i] == x && forall j :: 0 <= j < i ==> l[j] != x
    ensures Delete(l, x) == l[..i] + l[i + 1..]
  {
    if i > 0 {
      assert l[0] != x;
      DeleteAt(l[1..], x, i - 1);
      assert l[..i] + l[i + 1..] == [l[0]] + (l[1..][..i - 1] + l[1..][i..]);
    }
  }

  lemma {:induction false} DeleteAbsent(l: seq<int>, x: int)
    requires x !in l
    ensures Delete(l, x) == l
  {
    if l != [] {
      assert l[0] in l && l == [l[0]] + l[1..];
      DeleteAbsent(l[1..], x);
    }
  }

  lemma InsertKeepsDistinct(l: seq<int>, x: int)
    requires Distinct(l) && x != NOT_FOUND
    ensures Distinct(Insert(l, x))
  {
    if x !in l {
      var l' := l + [x];
      forall i, j | 0 <= i < j < |l'| ensures l'[i] != l'[j] {
        assert l[i] in l;
      }
    }
  }

  /** The list without its entry `i`. */
  lemma WithoutAt(l: seq<int>, i: nat)
    requires Distinct(l) && i < |l|
    ensures var d := l[..i] + l[i + 1..];
            Distinct(d) && l[i] !in d && forall y :: y != l[i] ==> (y in d <==> y in l)
  {
    var d := l[..i] + l[i + 1..];
    assert forall j :: 0 <= j < |d| ==> d[j] == l[if j < i then j else j + 1];
    forall y | y in l && y != l[i] ensures y in d {
      var j :| 0 <= j < |l| && l[j] == y;
      assert d[if j < i then j else j - 1] == y;
    }
  }

  /** In a list without duplicates, deletion removes the number altogether and nothing else,
      and keeps the order. */
  lemma DeleteKeepsDistinct(l: seq<int>, x: int)
    requires Distinct(l)
    ensures Distinct(Delete(l, x)) && x !in Delete(l, x)
    ensures forall y :: y != x ==> (y in Delete(l, x) <==> y in l)
  {
    if x in l {
      var i :| 0 <= i < |l| && l[i] == x;
      DeleteAt(l, x, i);
      WithoutAt(l, i);
    } else {
      DeleteAbsent(l, x);
    }
  }
}
