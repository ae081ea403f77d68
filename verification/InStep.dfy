/** The wrapped receiver and the true one run in step.

    As long as the numbers in play lie in view of each other, every operation on wrapped
    numbers gives the wrapped result of the same operation on true numbers.
 */
module InStep {
  import opened SeqNo
  import opened Receiver
  import opened InOrder
  import opened Ledger

  /** The numbers from `lo` to `hi` are in view of each other: fewer than the valid range, or
      on one lap and less than half a lap. */
  predicate View(lo: nat, hi: nat) {
    lo <= hi && (hi - lo < VALID_RANGE || (Lap(lo) == Lap(hi) && hi - lo < MAX_SEQNO / 2))
  }

  lemma ViewCompares(lo: nat, hi: nat, a: nat, b: nat)
    requires View(lo, hi) && lo <= a <= hi && lo <= b <= hi
    ensures Wire.Cmp(Wrap(a), Wrap(b)) == Unbounded.Cmp(a, b)
    ensures a != b && 1 <= a && 1 <= b ==> Wire.Precedes(Wrap(a), Wrap(b)) == Unbounded.Precedes(a, b)
    ensures Wrap(a) == Wrap(b) <==> a == b
  {
    LapMonotone(lo, a); LapMonotone(a, hi); LapMonotone(lo, b); LapMonotone(b, hi);
    CmpExact(a, b);
    if a != b && 1 <= a && 1 <= b { PrecedesExact(a, b); }
    if Wrap(a) == Wrap(b) { WrapInjective(a, b); }
  }

  lemma LapMonotone(a: nat, b: nat)
    requires a <= b
    ensures Lap(a) <= Lap(b)
  {
  }

  lemma ViewExpires(lo: nat, hi: nat, s: nat, n: nat)
    requires View(lo, hi) && lo <= n < s <= hi
    ensures Wire.Cmp(Wrap(s), Wire.Expiry(Wrap(n))) == Unbounded.Cmp(s, Unbounded.Expiry(n))
  {
    AddWraps(n, VALID_RANGE);
    if n + VALID_RANGE <= s {
      ViewCompares(lo, hi, s, n + VALID_RANGE);
    } else {
      CmpExact(s, n + VALID_RANGE);
    }
  }

  // ---------------------------------------------------------------------------
  // Wrapped data
  // ---------------------------------------------------------------------------

  function WrapNums(l: seq<int>): seq<int> {
    seq(|l|, i requires 0 <= i < |l| => Wrap(l[i]))
  }

  function WrapPacket(p: Packet): Packet {
    Packet(Wrap(p.num), p.data)
  }

  function WrapPackets(ps: seq<Packet>): seq<Packet> {
    seq(|ps|, i requires 0 <= i < |ps| => WrapPacket(ps[i]))
  }

  function WrapRx(rx: Rx): Rx {
    Rx(Wrap(rx.next), WrapPackets(rx.plist), WrapPackets(rx.out))
  }

  predicate NumsIn(l: seq<int>, lo: int, hi: int) {
    forall n :: n in l ==> lo <= n <= hi
  }

  predicate PacketsIn(ps: seq<Packet>, lo: int, hi: int) {
    forall p :: p in ps ==> lo <= p.num <= hi
  }

  // ---------------------------------------------------------------------------
  // The buffer
  // ---------------------------------------------------------------------------

  lemma HasInStep(ps: seq<Packet>, n: int, lo: nat, hi: nat)
    requires View(lo, hi) && PacketsIn(ps, lo, hi) && lo <= n <= hi
    ensures Has(WrapPackets(ps), Wrap(n)) <==> Has(ps, n)
  {
    if Has(ps, n) {
      var i :| 0 <= i < |ps| && ps[i].num == n;
      assert WrapPackets(ps)[i].num == Wrap(n);
    }
    if Has(WrapPackets(ps), Wrap(n)) {
      var i :| 0 <= i < |ps| && WrapPackets(ps)[i].num == Wrap(n);
      assert ps[i] in ps;
      ViewCompares(lo, hi, ps[i].num, n);
    }
  }

  lemma WrapCons(p: Packet, ps: seq<Packet>)
    ensures WrapPackets([p] + ps) == [WrapPacket(p)] + WrapPackets(ps)
  {
  }

  lemma HasTail(ps: seq<Packet>, n: int)
    requires ps != [] && !Has(ps, n)
    ensures ps[0].num != n && !Has(ps[1..], n)
  {
    forall i | 0 <= i < |ps[1..]| ensures ps[1..][i].num != n { assert ps[1..][i] == ps[i + 1]; }
  }

  lemma {:induction false} InsertSortedInStep(ps: seq<Packet>, p: Packet, lo: nat, hi: nat)
    requires View(lo, hi) && PacketsIn(ps, lo, hi) && lo <= p.num <= hi && !Has(ps, p.num)
    requires 1 <= p.num && forall q :: q in ps ==> 1 <= q.num
    ensures InsertSorted(Wire, WrapPackets(ps), WrapPacket(p)) == WrapPackets(InsertSorted(Unbounded, ps, p))
  {
    if ps == [] {
      assert WrapPackets([p]) == [WrapPacket(p)];
    } else {
      HasTail(ps, p.num);
      assert ps[0] in ps && forall q :: q in ps[1..] ==> q in ps;
      ViewCompares(lo, hi, p.num, ps[0].num);
      if p.num < ps[0].num {
        WrapCons(p, ps);
      } else {
        assert WrapPackets(ps)[1..] == WrapPackets(ps[1..]);
        InsertSortedInStep(ps[1..], p, lo, hi);
        WrapCons(ps[0], InsertSorted(Unbounded, ps[1..], p));
      }
    }
  }

  /** The numbers of a delivery state that can still be compared. */
  ghost predicate RxIn(rx: Rx, lo: nat, hi: nat) {
    PacketsIn(rx.plist, lo, hi) && lo <= rx.next && (rx.next <= hi || rx.plist == [])
  }

  lemma AcceptInStep(p: Packet, rx: Rx, log: seq<Packet>, lo: nat, hi: nat)
    requires View(lo, hi) && lo <= p.num <= hi && lo <= rx.next <= hi && 1 <= p.num && 1 <= rx.next && PacketsIn(rx.plist, lo, hi)
    requires Orderly(rx, log) && Settled(rx)
    ensures Accept(Wire, WrapPacket(p), WrapRx(rx)) == WrapRx(Accept(Unbounded, p, rx))
    ensures RxIn(Accept(Unbounded, p, rx), lo, hi)
  {
    ViewCompares(lo, hi, p.num, rx.next);
    if p.num == rx.next {
      NextWraps(rx.next);
      assert WrapPackets(rx.out + [p]) == WrapPackets(rx.out) + [WrapPacket(p)];
      if rx.plist != [] { assert rx.plist[0] in rx.plist; }
    } else if p.num > rx.next {
      HasInStep(rx.plist, p.num, lo, hi);
      InsertPacketKeeps(rx.plist, p);
      if !Has(rx.plist, p.num) { InsertSortedInStep(rx.plist, p, lo, hi); }
    }
  }

  lemma PopInStep(rx: Rx)
    requires rx.plist != [] && rx.plist[0].num >= 0
    ensures var head := WrapRx(rx).plist[0];
            Rx(Wire.Next(head.num), WrapRx(rx).plist[1..], WrapRx(rx).out + [head]) == WrapRx(Pop(rx))
  {
    NextWraps(rx.plist[0].num);
    assert WrapRx(rx).plist[1..] == WrapRx(Pop(rx)).plist;
    assert WrapRx(rx).out + [WrapRx(rx).plist[0]] == WrapRx(Pop(rx)).out;
  }

  lemma {:induction false} DrainInStep(s: int, rx: Rx, log: seq<Packet>, lo: nat, hi: nat)
    requires View(lo, hi) && lo <= s <= hi && RxIn(rx, lo, hi) && Orderly(rx, log)
    ensures Drain(Wire, Wrap(s), WrapRx(rx)) == WrapRx(Drain(Unbounded, s, rx))
    decreases |rx.plist|
  {
    if rx.plist != [] {
      var head, whead := rx.plist[0], WrapRx(rx).plist[0];
      assert head in rx.plist;
      ViewCompares(lo, hi, head.num, rx.next);
      ViewCompares(lo, hi, s, head.num);
      if head.num < s { ViewExpires(lo, hi, s, head.num); }
      DrainStep(s, rx);
      if Due(s, rx) {
        PopInStep(rx);
        PopKeeps(rx, log);
        PopIn(rx, log, lo, hi);
        DrainInStep(s, Pop(rx), log, lo, hi);
      }
    }
  }

  lemma PopIn(rx: Rx, log: seq<Packet>, lo: nat, hi: nat)
    requires rx.plist != [] && RxIn(rx, lo, hi) && Orderly(rx, log)
    ensures RxIn(Pop(rx), lo, hi)
  {
    assert rx.plist[0] in rx.plist;
    SortedTail(rx.plist);
    if rx.plist[1..] != [] {
      assert rx.plist[1..][0] in rx.plist[1..] && rx.plist[1..][0] in rx.plist;
    }
  }

  /** The receptions run in step. */
  lemma ReceiveInStep(p: Packet, rx: Rx, log: seq<Packet>, lo: nat, hi: nat)
    requires View(lo, hi) && lo <= p.num <= hi && lo <= rx.next <= hi && 1 <= p.num && 1 <= rx.next && PacketsIn(rx.plist, lo, hi)
    requires Orderly(rx, log) && Settled(rx)
    ensures Receive(Wire, WrapPacket(p), WrapRx(rx)) == WrapRx(Receive(Unbounded, p, rx))
  {
    AcceptInStep(p, rx, log, lo, hi);
    AcceptKeeps(p, rx, log);
    DrainInStep(p.num, Accept(Unbounded, p, rx), log + [p], lo, hi);
  }

  // ---------------------------------------------------------------------------
  // The missing list
  // ---------------------------------------------------------------------------

  lemma {:induction false} DetectInStep(s: nat, last: nat, lo: nat, hi: nat)
    requires View(lo, hi) && lo <= last < s <= hi
    ensures Wire.Carried(Wrap(s)) && Wire.LastSeen(Wrap(last))
    ensures Detect(Wire, Wrap(s), Wrap(last)) == WrapNums(Detect(Unbounded, s, last))
    decreases s - last
  {
    WrapDecomposes(s);
    WrapDecomposes(last);
    NextWraps(last);
    ViewCompares(lo, hi, s, last + 1);
    if s > last + 1 {
      GapShrinks(Unbounded, s, last);
      DetectInStep(s, last + 1, lo, hi);
      var tail := Detect(Unbounded, s, last + 1);
      assert WrapNums([last + 1] + tail) == [Wrap(last + 1)] + WrapNums(tail);
    }
  }

  lemma MemberInStep(l: seq<int>, n: int, lo: nat, hi: nat)
    requires View(lo, hi) && NumsIn(l, lo, hi) && lo <= n <= hi
    ensures Wrap(n) in WrapNums(l) <==> n in l
  {
    if n in l {
      var i :| 0 <= i < |l| && l[i] == n;
      assert WrapNums(l)[i] == Wrap(n);
    }
    if Wrap(n) in WrapNums(l) {
      var i :| 0 <= i < |l| && WrapNums(l)[i] == Wrap(n);
      assert l[i] in l;
      ViewCompares(lo, hi, l[i], n);
    }
  }

  lemma {:induction false} InsertAllInStep(l: seq<int>, xs: seq<int>, lo: nat, hi: nat)
    requires View(lo, hi) && NumsIn(l, lo, hi) && NumsIn(xs, lo, hi)
    ensures InsertAll(WrapNums(l), WrapNums(xs)) == WrapNums(InsertAll(l, xs))
    decreases |xs|
  {
    if xs != [] {
      assert xs[0] in xs && forall n :: n in xs[1..] ==> n in xs;
      MemberInStep(l, xs[0], lo, hi);
      assert WrapNums(l + [xs[0]]) == WrapNums(l) + [Wrap(xs[0])];
      assert WrapNums(xs)[1..] == WrapNums(xs[1..]);
      InsertAllInStep(Insert(l, xs[0]), xs[1..], lo, hi);
    }
  }

  lemma {:induction false} DeleteInStep(l: seq<int>, x: int, lo: nat, hi: nat)
    requires View(lo, hi) && NumsIn(l, lo, hi) && lo <= x <= hi
    ensures Delete(WrapNums(l), Wrap(x)) == WrapNums(Delete(l, x))
  {
    if l != [] {
      assert l[0] in l && forall n :: n in l[1..] ==> n in l;
      ViewCompares(lo, hi, l[0], x);
      assert WrapNums(l)[1..] == WrapNums(l[1..]);
      if l[0] != x {
        DeleteInStep(l[1..], x, lo, hi);
        var tail := Delete(l[1..], x);
        assert WrapNums([l[0]] + tail) == [Wrap(l[0])] + WrapNums(tail);
      }
    }
  }

  lemma {:induction false} FillInStep(slots: nat, last: int, l: seq<int>, items: seq<int>, lo: nat, hi: nat)
    requires View(lo, hi) && lo <= last <= hi && NumsIn(l, lo, hi) && |items| <= slots
    requires Ascending(l) && forall n :: n in l ==> n < last
    ensures var (kept, written) := Fill(Unbounded, slots, last, l, items);
            Fill(Wire, slots, Wrap(last), WrapNums(l), WrapNums(items)) == (WrapNums(kept), WrapNums(written))
    decreases slots - |items| + |l|
  {
    var i := |items|;
    if i < slots && i < |l| {
      assert l[i] in l && WrapNums(l)[i] == Wrap(l[i]);
      ViewExpires(lo, hi, last, l[i]);
      if Expired(Unbounded, last, l[i]) {
        DeleteInStep(l, l[i], lo, hi);
        DeleteLength(l, l[i]);
        DeleteLength(WrapNums(l), Wrap(l[i]));
        DeleteMembers(l, l[i]);
        FillInStep(slots, last, Delete(l, l[i]), items, lo, hi);
      } else {
        assert WrapNums(items + [l[i]]) == WrapNums(items) + [Wrap(l[i])];
        FillInStep(slots, last, l, items + [l[i]], lo, hi);
      }
    }
  }

  // ---------------------------------------------------------------------------
  // The books of a connection
  // ---------------------------------------------------------------------------

  function Max(a: int, b: int): int { if a >= b then a else b }

  /** The oldest number that the arrival of `n` puts in play. */
  function Oldest(n: int, last: int, next: int, missing: seq<int>): int {
    Min(Min(n, last), Min(next, if missing == [] then last else missing[0]))
  }

  /** The newest number that the arrival of `n` puts in play. */
  function Newest(n: int, last: int, next: int): int {
    Max(n, Max(last, next))
  }

  /** Everything that the arrival of `n` puts in play is in view. */
  predicate AllInView(n: int, last: int, next: int, missing: seq<int>) {
    0 <= Oldest(n, last, next, missing) && View(Oldest(n, last, next, missing), Newest(n, last, next))
  }

  /** A window around the next expected number no wider than the valid range is in view, as long
      as nothing before that number is missing. */
  lemma WindowInView(n: int, last: int, next: int, missing: seq<int>, behind: nat, ahead: nat)
    requires 1 <= behind && 1 <= ahead && behind + ahead <= VALID_RANGE
    requires 0 <= n && 0 <= last && 1 <= next && next - 1 <= last < next + ahead
    requires next - behind <= n < next + ahead
    requires missing != [] ==> next <= missing[0]
    ensures AllInView(n, last, next, missing)
  {
  }

  /** The books of a connection lie between `lo` and `hi`. */
  ghost predicate BooksIn(last: int, missing: seq<int>, lo: nat, hi: nat) {
    && View(lo, hi) && lo <= last <= hi && NumsIn(missing, lo, hi)
    && Ascending(missing) && (forall n :: n in missing ==> 0 < n < last)
  }

  lemma BooksInView(rx: Rx, last: int, missing: seq<int>, syn: int, log: seq<Packet>, fins: set<int>, n: int)
    requires Books(rx, last, missing, syn, log, fins) && AllInView(n, last, rx.next, missing)
    ensures var lo, hi := Oldest(n, last, rx.next, missing), Newest(n, last, rx.next);
            && BooksIn(last, missing, lo, hi)
            && lo <= n <= hi && lo <= rx.next <= hi && PacketsIn(rx.plist, lo, hi)
  {
    var lo, hi := Oldest(n, last, rx.next, missing), Newest(n, last, rx.next);
    forall x | x in missing ensures lo <= x <= hi {
      assert missing[0] <= x;
    }
  }

  /** The detection of a gap, and its entry in the list, run in step. */
  lemma GapInStep(last: int, missing: seq<int>, s: nat, lo: nat, hi: nat)
    requires BooksIn(last, missing, lo, hi) && lo <= s <= hi && s > last
    ensures Wire.Carried(Wrap(s)) && Wire.LastSeen(Wrap(last))
    ensures var d := Detect(Unbounded, s, last);
            && Detect(Wire, Wrap(s), Wrap(last)) == WrapNums(d)
            && InsertAll(WrapNums(missing), WrapNums(d)) == WrapNums(InsertAll(missing, d))
            && BooksIn(s, InsertAll(missing, d), lo, hi)
  {
    DetectInStep(s, last, lo, hi);
    DetectIsRange(s, last);
    InsertAllInStep(missing, Detect(Unbounded, s, last), lo, hi);
    AdvanceList(missing, s, last);
  }
}
