/** The books a connection keeps about what it has not got, in the true numbering: the list of
      missing numbers, against the counters and the buffer. */
module Ledger {
  import opened SeqNo
  import opened Receiver
  import opened InOrder

  predicate Ascending(l: seq<int>) {
    forall i, j :: 0 <= i < j < |l| ==> l[i] < l[j]
  }

  /** Every number from `next` to `last` is accounted for: it is buffered, listed as missing,
      so far behind that it has been given up, or one of `others`. */
  ghost predicate Covered(next: int, last: int, missing: seq<int>, plist: seq<Packet>, others: set<int>) {
    forall n :: next <= n <= last && n !in others ==> n in missing || Has(plist, n) || n + VALID_RANGE <= last
  }

  /** The missing list is in order and behind `last`; so are the buffer and `next`. */
  ghost predicate Bounded(next: int, last: int, missing: seq<int>, plist: seq<Packet>) {
    && Ascending(missing) && (forall n :: n in missing ==> 0 < n < last)
    && (forall p :: p in plist ==> p.num <= last)
    && next <= last + 1
  }

  // ---------------------------------------------------------------------------
  // Gaps found
  // ---------------------------------------------------------------------------

  /** Gap detection finds every number strictly between `last` and `s`, in order. */
  lemma {:induction false} DetectIsRange(s: int, last: int)
    requires 1 <= s && 0 <= last
    ensures var d := Detect(Unbounded, s, last);
            && |d| == (if s > last + 1 then s - last - 1 else 0)
            && forall i :: 0 <= i < |d| ==> d[i] == last + 1 + i
    decreases Gap(s, last)
  {
    if s > last + 1 {
      GapShrinks(Unbounded, s, last);
      DetectIsRange(s, last + 1);
    }
  }

  lemma {:induction false} InsertAllAppends(l: seq<int>, xs: seq<int>)
    requires Ascending(l + xs)
    ensures InsertAll(l, xs) == l + xs
    decreases |xs|
  {
    if xs == [] {
      assert l + xs == l;
    } else {
      forall i | 0 <= i < |l| ensures l[i] != xs[0] {
        assert (l + xs)[i] == l[i] && (l + xs)[|l|] == xs[0];
      }
      assert l + xs == l + [xs[0]] + xs[1..];
      InsertAllAppends(l + [xs[0]], xs[1..]);
    }
  }

  /** The list after the arrival of a number newer than `last`. */
  lemma AdvanceList(missing: seq<int>, s: int, last: int)
    requires Ascending(missing) && (forall n :: n in missing ==> 0 < n < last) && 0 <= last < s
    ensures var ms := InsertAll(missing, Detect(Unbounded, s, last));
            && Ascending(ms)
            && (forall n :: n in ms <==> n in missing || last < n < s)
            && ms == missing + Detect(Unbounded, s, last)
  {
    DetectIsRange(s, last);
    var d := Detect(Unbounded, s, last);
    forall i, j | 0 <= i < j < |missing + d| ensures (missing + d)[i] < (missing + d)[j] {
      if i < |missing| <= j { assert missing[i] in missing; }
    }
    InsertAllAppends(missing, d);
    forall n | last < n < s ensures n in d { assert d[n - last - 1] == n; }
  }

  /** Moving `last` up to a newer number keeps the books, except about that number itself. */
  lemma AdvanceKeeps(next: int, last: int, missing: seq<int>, plist: seq<Packet>, others: set<int>, s: int)
    requires Bounded(next, last, missing, plist) && Covered(next, last, missing, plist, others)
    requires 0 <= last < s
    ensures var ms := InsertAll(missing, Detect(Unbounded, s, last));
            Bounded(next, s, ms, plist) && Covered(next, s, ms, plist, others + {s})
  {
    AdvanceList(missing, s, last);
  }

  // ---------------------------------------------------------------------------
  // Numbers struck off
  // ---------------------------------------------------------------------------

  lemma AscendingCons(x: int, l: seq<int>)
    requires Ascending(l) && forall y :: y in l ==> x < y
    ensures Ascending([x] + l)
  {
    forall i, j | 0 <= i < j < |[x] + l| ensures ([x] + l)[i] < ([x] + l)[j] {
      assert ([x] + l)[j] == l[j - 1] && l[j - 1] in l;
      if i > 0 { assert ([x] + l)[i] == l[i - 1]; }
    }
  }

  lemma {:induction false} DeleteMembers(l: seq<int>, x: int)
    requires Ascending(l)
    ensures Ascending(Delete(l, x))
    ensures forall y :: y in Delete(l, x) <==> y in l && y != x
  {
    if l != [] {
      var tail := l[1..];
      assert l == [l[0]] + tail;
      assert forall y :: y in tail ==> l[0] < y;
      if l[0] != x {
        DeleteMembers(tail, x);
        AscendingCons(l[0], Delete(tail, x));
      }
    }
  }

  lemma DeleteKeeps(next: int, last: int, missing: seq<int>, plist: seq<Packet>, others: set<int>, s: int)
    requires Bounded(next, last, missing, plist) && Covered(next, last, missing, plist, others + {s})
    ensures Bounded(next, last, Delete(missing, s), plist)
    ensures Covered(next, last, Delete(missing, s), plist, others + {s})
  {
    DeleteMembers(missing, s);
  }

  // ---------------------------------------------------------------------------
  // Packets received
  // ---------------------------------------------------------------------------

  /** `next` moves only by deliveries. */
  lemma {:induction false} DrainNext(s: int, rx: Rx, log: seq<Packet>)
    requires Orderly(rx, log)
    ensures var r := Drain(Unbounded, s, rx);
            (r.next == rx.next && r.out == rx.out) || (r.out != [] && r.out[|r.out| - 1].num == r.next - 1)
    decreases |rx.plist|
  {
    assert rx.plist != [] ==> rx.plist[0] in rx.plist;
    DrainStep(s, rx);
    if Due(s, rx) {
      PopKeeps(rx, log);
      DrainNext(s, Pop(rx), log);
    }
  }

  /** Everything held after an arrival was held before, or arrived. */
  lemma ReceiveHolds(p: Packet, rx: Rx, log: seq<Packet>, last: int)
    requires Orderly(rx, log) && Settled(rx) && rx.next <= last + 1 && p.num <= last
    requires forall q :: q in rx.plist ==> q.num <= last
    ensures forall q :: q in Held(Receive(Unbounded, p, rx)) ==> q.num <= last
  {
    ReceiveConserves(p, rx, log);
  }

  lemma ReceiveLeaves(p: Packet, rx: Rx, log: seq<Packet>, last: int)
    requires Orderly(rx, log) && Settled(rx) && rx.next <= last + 1 && p.num <= last
    requires forall q :: q in rx.plist ==> q.num <= last
    ensures var r := Receive(Unbounded, p, rx);
            r.next <= last + 1 && forall q :: q in r.plist ==> q.num <= last
  {
    var r := Receive(Unbounded, p, rx);
    ReceiveHolds(p, rx, log, last);
    assert forall q :: q in r.plist ==> q in Held(r);
    AcceptKeeps(p, rx, log);
    DrainNext(p.num, Accept(Unbounded, p, rx), log + [p]);
    if r.out != [] { assert r.out[|r.out| - 1] in Held(r); }
  }

  /** What arrives or is in the buffer, and is not delivered, is in the buffer afterwards. */
  lemma StillHeld(p: Packet, rx: Rx, log: seq<Packet>, n: int)
    requires Orderly(rx, log) && Settled(rx) && (n == p.num || Has(rx.plist, n))
    requires n >= Receive(Unbounded, p, rx).next
    ensures Has(Receive(Unbounded, p, rx).plist, n)
  {
    ReceiveKeeps(p, rx, log);
    Logged(p, rx, log, n);
    var q :| q in log + [p] && q.num == n;
  }

  /** The arrival of packet `p` settles the account of its number. */
  lemma ReceiveKeepsBooks(p: Packet, rx: Rx, log: seq<Packet>, last: int, missing: seq<int>, others: set<int>)
    requires Orderly(rx, log) && Settled(rx) && p.num <= last
    requires Bounded(rx.next, last, missing, rx.plist)
    requires Covered(rx.next, last, missing, rx.plist, others + {p.num})
    ensures var r := Receive(Unbounded, p, rx);
            Bounded(r.next, last, missing, r.plist) && Covered(r.next, last, missing, r.plist, others)
  {
    var r := Receive(Unbounded, p, rx);
    ReceiveLeaves(p, rx, log, last);
    ReceiveKeeps(p, rx, log);
    forall n | n >= r.next && (n == p.num || Has(rx.plist, n)) ensures Has(r.plist, n) {
      StillHeld(p, rx, log, n);
    }
  }

  lemma Logged(p: Packet, rx: Rx, log: seq<Packet>, n: int)
    requires Orderly(rx, log) && (n == p.num || Has(rx.plist, n))
    ensures exists q :: q in log + [p] && q.num == n
  {
    if n == p.num {
      assert p in log + [p];
    } else {
      var i :| 0 <= i < |rx.plist| && rx.plist[i].num == n;
      assert rx.plist[i] in rx.plist;
      var j :| 0 <= j < |log| && log[j] == rx.plist[i];
      assert log[j] in log + [p];
    }
  }

  // ---------------------------------------------------------------------------
  // NACKs built
  // ---------------------------------------------------------------------------

  /** What is left of the list when every number out of range has been struck off. */
  function Unexpired(last: int, l: seq<int>): seq<int> {
    if l == [] then []
    else if l[0] + VALID_RANGE <= last then Unexpired(last, l[1..])
    else [l[0]] + Unexpired(last, l[1..])
  }

  lemma {:induction false} UnexpiredMembers(last: int, l: seq<int>)
    ensures forall n :: n in Unexpired(last, l) <==> n in l && last < n + VALID_RANGE
    ensures Ascending(l) ==> Ascending(Unexpired(last, l))
  {
    if l != [] {
      assert l == [l[0]] + l[1..];
      UnexpiredMembers(last, l[1..]);
      if Ascending(l) {
        assert forall n :: n in l[1..] ==> l[0] < n;
        if last < l[0] + VALID_RANGE { AscendingCons(l[0], Unexpired(last, l[1..])); }
      }
    }
  }

  lemma {:induction false} NoneExpired(last: int, l: seq<int>)
    requires forall n :: n in l ==> last < n + VALID_RANGE
    ensures Unexpired(last, l) == l
  {
    if l != [] {
      assert l[0] in l && forall n :: n in l[1..] ==> n in l;
      NoneExpired(last, l[1..]);
      assert l == [l[0]] + l[1..];
    }
  }

  function Min(a: int, b: int): int { if a <= b then a else b }

  lemma {:induction false} FillTheRest(slots: nat, last: int, l: seq<int>, items: seq<int>)
    requires |items| <= slots && |items| <= |l| && items == l[..|items|]
    requires forall n :: n in l ==> last < n + VALID_RANGE
    ensures Fill(Unbounded, slots, last, l, items) == (l, l[..Min(slots, |l|)])
    decreases slots - |items|
  {
    if |items| < slots && |items| < |l| {
      assert l[|items|] in l;
      assert items + [l[|items|]] == l[..|items| + 1];
      FillTheRest(slots, last, l, items + [l[|items|]]);
    }
  }

  /** Building a NACK strikes off exactly the numbers out of range and writes the first
      survivors, as many as fit, in order. */
  lemma {:induction false} FillExact(slots: nat, last: int, l: seq<int>)
    requires slots > 0 && Ascending(l)
    ensures var kept := Unexpired(last, l);
            Fill(Unbounded, slots, last, l, []) == (kept, kept[..Min(slots, |kept|)])
    decreases |l|
  {
    if l != [] {
      if l[0] + VALID_RANGE <= last {
        assert Delete(l, l[0]) == l[1..];
        FillExact(slots, last, l[1..]);
      } else {
        assert forall n :: n in l ==> l[0] <= n;
        NoneExpired(last, l);
        FillTheRest(slots, last, l, []);
      }
    }
  }

  /** The numbers of a list that are in range of `last`. */
  ghost function Wanted(last: int, l: seq<int>): set<int> {
    set n | n in l && last < n + VALID_RANGE
  }

  /** `items` are the oldest numbers of a set, in order, as many as there are slots. */
  ghost predicate OldestOf(items: seq<int>, slots: nat, wanted: set<int>) {
    && Ascending(items) && |items| == (if |wanted| <= slots then |wanted| else slots)
    && (forall x :: x in items ==> x in wanted)
    && (forall x, y :: x in items && y in wanted && y !in items ==> x < y)
  }

  /** The length of a list in order is the number of its members. */
  lemma {:induction false} AscendingCount(l: seq<int>, members: set<int>)
    requires Ascending(l) && forall n :: n in members <==> n in l
    ensures |members| == |l|
  {
    if l == [] {
      assert members == {} by { assert forall n :: n in members ==> n in l; }
    } else {
      assert l == [l[0]] + l[1..];
      AscendingCount(l[1..], members - {l[0]});
    }
  }

  lemma PrefixIsOldest(l: seq<int>, slots: nat, members: set<int>)
    requires Ascending(l) && forall n :: n in members <==> n in l
    ensures OldestOf(l[..Min(slots, |l|)], slots, members)
  {
    AscendingCount(l, members);
    var items := l[..Min(slots, |l|)];
    forall x, y | x in items && y in members && y !in items ensures x < y {
      var i :| 0 <= i < |items| && items[i] == x;
      var j :| 0 <= j < |l| && l[j] == y;
      assert j >= |items|;
    }
  }

  /** There is only one such list: its first member is the least, and the others follow. */
  lemma {:induction false} OldestIsUnique(a: seq<int>, b: seq<int>, slots: nat, wanted: set<int>)
    requires OldestOf(a, slots, wanted) && OldestOf(b, slots, wanted)
    ensures a == b
    decreases slots
  {
    if a != [] {
      OldestFirst(a, slots, wanted);
      OldestFirst(b, slots, wanted);
      assert a[0] == b[0];
      OldestIsUnique(a[1..], b[1..], slots - 1, wanted - {a[0]});
      assert a == [a[0]] + a[1..] && b == [b[0]] + b[1..];
    }
  }

  /** It begins with the least. */
  lemma OldestFirst(items: seq<int>, slots: nat, wanted: set<int>)
    requires OldestOf(items, slots, wanted) && items != []
    ensures items[0] in wanted && forall y :: y in wanted ==> items[0] <= y
    ensures OldestOf(items[1..], slots - 1, wanted - {items[0]})
  {
    assert items[0] in items;
    forall y | y in wanted ensures items[0] <= y {
      if y in items { var j :| 0 <= j < |items| && items[j] == y; }
    }
    TailMembers(items);
    TailAscending(items);
  }

  lemma TailMembers(items: seq<int>)
    requires Ascending(items) && items != []
    ensures forall x :: x in items[1..] <==> x in items && x != items[0]
  {
    assert items == [items[0]] + items[1..];
  }

  lemma TailAscending(items: seq<int>)
    requires Ascending(items) && items != []
    ensures Ascending(items[1..])
  {
  }

  /** Building a NACK in terms of sets: it keeps the numbers in range, and asks for the oldest. */
  lemma FillOldest(slots: nat, last: int, l: seq<int>)
    requires slots > 0 && Ascending(l)
    ensures var (kept, items) := Fill(Unbounded, slots, last, l, []);
            && Ascending(kept) && (forall n :: n in kept <==> n in Wanted(last, l))
            && OldestOf(items, slots, Wanted(last, l))
  {
    FillExact(slots, last, l);
    UnexpiredMembers(last, l);
    PrefixIsOldest(Unexpired(last, l), slots, Wanted(last, l));
  }

  lemma FillKeepsBooks(slots: nat, next: int, last: int, missing: seq<int>, plist: seq<Packet>, others: set<int>)
    requires slots > 0
    requires Bounded(next, last, missing, plist) && Covered(next, last, missing, plist, others)
    ensures var ms := Fill(Unbounded, slots, last, missing, []).0;
            Bounded(next, last, ms, plist) && Covered(next, last, ms, plist, others)
  {
    FillExact(slots, last, missing);
    UnexpiredMembers(last, missing);
  }

  // ---------------------------------------------------------------------------
  // The books as a whole
  // ---------------------------------------------------------------------------

  /** The joint invariant of the buffer, the missing list and the counters. */
  ghost predicate Books(rx: Rx, last: int, missing: seq<int>, syn: int, log: seq<Packet>, fins: set<int>) {
    && Orderly(rx, log) && Settled(rx)
    && 0 <= syn <= last && syn < rx.next
    && Bounded(rx.next, last, missing, rx.plist)
    && Covered(rx.next, last, missing, rx.plist, fins)
    && (forall n :: n in missing ==> syn < n)
  }

  /** Nothing that has arrived is listed as missing. */
  ghost predicate Honest(missing: seq<int>, log: seq<Packet>) {
    forall n :: n in missing ==> !Has(log, n)
  }

  lemma HasSnoc(log: seq<Packet>, p: Packet, n: int)
    ensures Has(log + [p], n) <==> Has(log, n) || n == p.num
  {
    if Has(log, n) {
      var i :| 0 <= i < |log| && log[i].num == n;
      assert (log + [p])[i].num == n;
    }
    assert (log + [p])[|log|] == p;
  }

  /** No number newer than the newest one has arrived. */
  lemma LogUpTo(rx: Rx, last: int, missing: seq<int>, syn: int, log: seq<Packet>, fins: set<int>)
    requires Books(rx, last, missing, syn, log, fins)
    ensures forall q :: q in log ==> q.num <= last
  {
    forall q | q in log ensures q.num <= last {
      if q.num >= rx.next {
        var j :| 0 <= j < |rx.plist| && rx.plist[j].num == q.num;
        assert rx.plist[j] in rx.plist;
      }
    }
  }
}
