/** The transaction ids in use, and the assignment of new ones. */
module TidList {

  const MIN_TID := 1
  const MAX_TID := 50000
  const U16 := 65536

  datatype Kind = Task | Close | Null | Other

  datatype Entry = Entry(tid: int, addr: int, kind: Kind, fd: int)

  predicate InUse(es: seq<Entry>, tid: int) {
    exists i :: 0 <= i < |es| && es[i].tid == tid
  }

  /** An id that may be assigned. */
  predicate Free(es: seq<Entry>, tid: int) {
    MIN_TID <= tid <= MAX_TID && !InUse(es, tid)
  }

  /** `r` is the next free id from `counter` on: the least one not below the counter, or, if there
      is none up to the greatest id, the least one of all. */
  ghost predicate IsNext(es: seq<Entry>, counter: int, r: int) {
    && Free(es, r)
    && ((counter <= r && forall f :: counter <= f < r ==> !Free(es, f)) ||
        ((forall f :: counter <= f ==> !Free(es, f)) && forall f :: f < r ==> !Free(es, f)))
  }

  /** There is only one such id, so an assignment is determined by the ids in use; it lies between
      1 and 50000 and belongs to no entry. */
  lemma NextIsUnique(es: seq<Entry>, counter: int, r1: int, r2: int)
    requires IsNext(es, counter, r1) && IsNext(es, counter, r2)
    ensures r1 == r2 && 1 <= r1 <= 50000 && forall e :: e in es ==> e.tid != r1
  {
  }

  // ---------------------------------------------------------------------------
  // The list as a value
  // ---------------------------------------------------------------------------

  predicate Distinct(es: seq<Entry>) {
    forall i, j :: 0 <= i < j < |es| ==> es[i].tid != es[j].tid
  }

  function AddEntry(es: seq<Entry>, e: Entry): seq<Entry> {
    if InUse(es, e.tid) then es else [e] + es
  }

  function RemoveTid(es: seq<Entry>, tid: int): seq<Entry> {
    if es == [] then []
    else if es[0].tid == tid then es[1..]
    else [es[0]] + RemoveTid(es[1..], tid)
  }

  /** The entries that end with the client that holds them. */
  predicate EndsWith(e: Entry, fd: int) {
    e.fd == fd && (e.kind == Task || e.kind == Close)
  }

  function CloseClient(es: seq<Entry>, fd: int): seq<Entry> {
    if es == [] then []
    else if EndsWith(es[0], fd) then CloseClient(es[1..], fd)
    else [es[0]] + CloseClient(es[1..], fd)
  }

  datatype Event = Added(e: Entry) | Removed(tid: int) | Disconnected(fd: int)

  function Step(es: seq<Entry>, ev: Event): seq<Entry> {
    match ev
    case Added(e) => AddEntry(es, e)
    case Removed(tid) => RemoveTid(es, tid)
    case Disconnected(fd) => CloseClient(es, fd)
  }

  lemma {:induction false} RemoveMembers(es: seq<Entry>, tid: int)
    requires Distinct(es)
    ensures Distinct(RemoveTid(es, tid))
    ensures forall e :: e in RemoveTid(es, tid) <==> e in es && e.tid != tid
  {
    if es != [] {
      var rest := es[1..];
      assert es == [es[0]] + rest;
      assert forall i :: 0 <= i < |rest| ==> rest[i] == es[i + 1];
      if es[0].tid != tid {
        RemoveMembers(rest, tid);
        ConsDistinct(es[0], RemoveTid(rest, tid));
      }
    }
  }

  lemma ConsDistinct(e: Entry, es: seq<Entry>)
    requires Distinct(es) && forall x :: x in es ==> x.tid != e.tid
    ensures Distinct([e] + es)
  {
    var l := [e] + es;
    forall i, j | 0 <= i < j < |l| ensures l[i].tid != l[j].tid {
      assert l[j] == es[j - 1] && es[j - 1] in es;
      if i > 0 { assert l[i] == es[i - 1]; }
    }
  }

  lemma {:induction false} CloseMembers(es: seq<Entry>, fd: int)
    ensures forall e :: e in CloseClient(es, fd) <==>
              e in es && !(e.fd == fd && (e.kind == Task || e.kind == Close))
    ensures Distinct(es) ==> Distinct(CloseClient(es, fd))
  {
    if es != [] {
      var rest := es[1..];
      assert es == [es[0]] + rest;
      CloseMembers(rest, fd);
      if Distinct(es) {
        assert forall i :: 0 <= i < |rest| ==> rest[i] == es[i + 1];
        if !EndsWith(es[0], fd) { ConsDistinct(es[0], CloseClient(rest, fd)); }
      }
    }
  }

  /** An entry whose id is not in use is added, and is then in use; any other changes nothing. */
  lemma AddMembers(es: seq<Entry>, e: Entry)
    ensures InUse(AddEntry(es, e), e.tid)
    ensures forall x :: x in AddEntry(es, e) <==> x in es || (x == e && !InUse(es, e.tid))
    ensures |AddEntry(es, e)| == |es| + if InUse(es, e.tid) then 0 else 1
  {
    if !InUse(es, e.tid) { assert ([e] + es)[0] == e; }
  }

  /** No id is ever live twice. */
  lemma StepKeepsDistinct(es: seq<Entry>, ev: Event)
    requires Distinct(es)
    ensures Distinct(Step(es, ev))
  {
    match ev
    case Added(e) =>
      if !InUse(es, e.tid) {
        forall x | x in es ensures x.tid != e.tid {}
        ConsDistinct(e, es);
      }
    case Removed(tid) => RemoveMembers(es, tid);
    case Disconnected(fd) => CloseMembers(es, fd);
  }

  function Run(evs: seq<Event>): seq<Entry> {
    if evs == [] then [] else Step(Run(evs[..|evs| - 1]), evs[|evs| - 1])
  }

  lemma {:induction false} RunDistinct(evs: seq<Event>)
    ensures Distinct(Run(evs))
  {
    if evs != [] {
      RunDistinct(evs[..|evs| - 1]);
      StepKeepsDistinct(Run(evs[..|evs| - 1]), evs[|evs| - 1]);
    }
  }

  // ---------------------------------------------------------------------------
  // The list in place
  // ---------------------------------------------------------------------------

  class Tids {
    var myTID: int
    var tids: seq<Entry>
    var numTids: int

    ghost predicate Valid()
      reads this
    {
      0 <= myTID < U16 && numTids == |tids| && Distinct(tids)
    }

    constructor (stored: int)
      requires 0 <= stored < U16
      ensures Valid() && tids == [] && myTID == stored
    {
      myTID, tids, numTids := stored, [], 0;
    }

    /** The position of the entry with the given id, or -1. */
    method Find(tid: int) returns (t: int)
      ensures -1 <= t < |tids|
      ensures t == -1 <==> !InUse(tids, tid)
      ensures t >= 0 ==> tids[t].tid == tid && forall i :: 0 <= i < t ==> tids[i].tid != tid
    {
      t := 0;
      while t < |tids|
        invariant 0 <= t <= |tids| && forall i :: 0 <= i < t ==> tids[i].tid != tid
      {
        if tids[t].tid == tid {
          return;
        }
        t := t + 1;
      }
      t := -1;
    }

    /** The next candidate.  The counter wraps around at 16 bits; beyond the greatest id every
        count stands for the least. */
    method NextCandidate() returns (tid: int)
      requires 0 <= myTID < U16
      modifies this`myTID
      ensures tid == (if old(myTID) > MAX_TID then MIN_TID else old(myTID))
      ensures myTID == (old(myTID) + 1) % U16
    {
      tid := myTID;
      myTID := (myTID + 1) % U16;
      if tid > MAX_TID {
        tid := MIN_TID;
      }
    }

    /** Assigns the id that is asked for, if it may be, and otherwise the next free one.  It
        comes to an end, whatever the 16-bit counter is, if there is a free id at all. */
    method AssignNewTid(requested: int, ghost some: int) returns (tid: int)
      requires Valid() && Free(tids, some)
      modifies this`myTID
      ensures Valid() && Free(tids, tid)
      ensures if Free(tids, requested) then tid == requested else IsNext(tids, old(myTID), tid)
      ensures myTID == if tid == MAX_TID then MIN_TID else tid + 1
    {
      ghost var start, count, begun, wrapped := myTID, myTID, false, false;
      tid := requested;
      while true
        invariant 0 <= myTID < U16 && 0 <= count < U16
        invariant if begun then myTID == (count + 1) % U16 && tid == (if count > MAX_TID then MIN_TID else count)
                  else tid == requested && myTID == start && count == start && !wrapped
        invariant begun ==> !Free(tids, requested)
        invariant !wrapped ==> start <= count && forall f :: start <= f < count ==> !Free(tids, f)
        invariant wrapped ==> (forall f :: start <= f ==> !Free(tids, f)) && forall f :: f < count ==> !Free(tids, f)
        decreases !begun, !wrapped, U16 - count
      {
        var t := Find(tid);
        if tid != 0 && tid >= MIN_TID && tid <= MAX_TID && t == -1 {
          break;
        }
        if begun {
          assert !Free(tids, tid);
          assert wrapped ==> count < some;
          if count + 1 == U16 {
            wrapped, count := true, 0;
          } else {
            count := count + 1;
          }
        }
        tid := NextCandidate();
        begun := true;
      }
      myTID := tid + 1;
      if myTID > MAX_TID {
        myTID := MIN_TID;
      }
    }

    /** Puts an entry in front, unless its id is in the list already. */
    method AddTid(e: Entry)
      requires Valid()
      modifies this`tids, this`numTids
      ensures Valid() && tids == Step(old(tids), Added(e))
    {
      StepKeepsDistinct(tids, Added(e));
      var t := Find(e.tid);
      if t == -1 {
        tids := [e] + tids;
        numTids := numTids + 1;
      }
    }

    /** Takes the entry at position `t` out. */
    method Unlink(t: nat)
      requires t < |tids|
      modifies this`tids, this`numTids
      ensures tids == old(tids)[..t] + old(tids)[t + 1..] && numTids == old(numTids) - 1
    {
      tids := tids[..t] + tids[t + 1..];
      numTids := numTids - 1;
    }

    method RemoveTidNow(tid: int)
      requires Valid()
      modifies this`tids, this`numTids
      ensures Valid() && tids == Step(old(tids), Removed(tid))
    {
      StepKeepsDistinct(tids, Removed(tid));
      var t := Find(tid);
      if t >= 0 {
        RemoveAt(tids, tid, t);
        Unlink(t);
      } else {
        RemoveAbsent(tids, tid);
      }
    }

    /** Ends everything that a client holds, in one pass over the list. */
    method CloseAllForClient(fd: int)
      requires Valid()
      modifies this`tids, this`numTids
      ensures Valid() && tids == Step(old(tids), Disconnected(fd))
    {
      StepKeepsDistinct(tids, Disconnected(fd));
      ghost var goal := CloseClient(tids, fd);
      var t := 0;
      assert tids[..0] + CloseClient(tids[0..], fd) == goal by { assert tids[0..] == tids; }
      while t < |tids|
        invariant 0 <= t <= |tids| && numTids == |tids|
        invariant tids[..t] + CloseClient(tids[t..], fd) == goal
        decreases |tids| - t
      {
        CloseNext(tids, t, fd);
        if tids[t].fd == fd && (tids[t].kind == Task || tids[t].kind == Close) {
          Unlink(t);
        } else {
          t := t + 1;
        }
      }
      assert tids[..t] == tids && tids + [] == tids;
    }
  }

  /** One step of that pass. */
  lemma CloseNext(es: seq<Entry>, t: nat, fd: int)
    requires t < |es|
    ensures EndsWith(es[t], fd) ==>
              var fs := es[..t] + es[t + 1..];
              fs[..t] == es[..t] && CloseClient(fs[t..], fd) == CloseClient(es[t..], fd)
    ensures !EndsWith(es[t], fd) ==>
              es[..t + 1] + CloseClient(es[t + 1..], fd) == es[..t] + CloseClient(es[t..], fd)
  {
    var fs := es[..t] + es[t + 1..];
    assert es[t..][0] == es[t] && es[t..][1..] == es[t + 1..];
    assert fs[..t] == es[..t] && fs[t..] == es[t + 1..];
    assert es[..t + 1] == es[..t] + [es[t]];
  }

  lemma {:induction false} RemoveAt(es: seq<Entry>, tid: int, t: nat)
    requires t < |es| && es[t].tid == tid && forall i :: 0 <= i < t ==> es[i].tid != tid
    ensures RemoveTid(es, tid) == es[..t] + es[t + 1..]
  {
    if t > 0 {
      assert es[0].tid != tid;
      RemoveAt(es[1..], tid, t - 1);
      assert es[..t] + es[t + 1..] == [es[0]] + (es[1..][..t - 1] + es[1..][t..]);
    }
  }

  lemma {:induction false} RemoveAbsent(es: seq<Entry>, tid: int)
    requires !InUse(es, tid)
    ensures RemoveTid(es, tid) == es
  {
    if es != [] {
      assert es[0].tid != tid;
      forall i | 0 <= i < |es[1..]| ensures es[1..][i].tid != tid { assert es[1..][i] == es[i + 1]; }
      RemoveAbsent(es[1..], tid);
    }
  }
}
