/** What a rate-controlled connection keeps over whole runs, in the true numbering. */
module RcrtRuns {
  import opened SeqNo
  import opened Receiver
  import opened InOrder
  import opened Ledger
  import opened Rcrt

  // ---------------------------------------------------------------------------
  // Every run
  // ---------------------------------------------------------------------------

  /** The joint invariant: the books are kept, nothing that has arrived is listed as missing,
      and the acknowledgement covers what has been delivered. */
  ghost predicate Inv(c: Conn, log: seq<Packet>, fins: set<int>) {
    && Books(c.rx, c.last, c.missing, 0, log, fins)
    && Honest(c.missing, log)
    && c.rx.next - 1 <= c.ack <= c.last
  }

  lemma AdvanceBooks(c: Conn, s: int, log: seq<Packet>, fins: set<int>)
    requires Books(c.rx, c.last, c.missing, 0, log, fins) && Honest(c.missing, log) && 1 <= s
    ensures var c1 := Advance(Unbounded, c, s);
            && Books(c1.rx, c1.last, c1.missing, 0, log, fins + {s}) && Honest(c1.missing, log)
            && s <= c1.last && c.last <= c1.last
  {
    if s > c.last {
      AdvanceKeeps(c.rx.next, c.last, c.missing, c.rx.plist, fins, s);
      AdvanceList(c.missing, s, c.last);
      LogUpTo(c.rx, c.last, c.missing, 0, log, fins);
    }
  }

  lemma FeedbackBooks(c: Conn, log: seq<Packet>, fins: set<int>)
    requires Inv(c, log, fins)
    ensures Inv(SendFeedback(Unbounded, c), log, fins)
  {
    FillKeepsBooks(NACK_SLOTS, c.rx.next, c.last, c.missing, c.rx.plist, fins);
    FillExact(NACK_SLOTS, c.last, c.missing);
    UnexpiredMembers(c.last, c.missing);
  }

  lemma StrikeOffBooks(c: Conn, p: Packet, retx: bool, log: seq<Packet>, fins: set<int>)
    requires Inv(c, log, fins)
    ensures var c1 := StrikeOff(Unbounded, c, p, retx);
            && Books(c1.rx, c1.last, c1.missing, 0, log, fins + {p.num}) && Honest(c1.missing, log)
            && p.num !in c1.missing
            && c1 == c.(missing := c1.missing)
  {
    DeleteKeeps(c.rx.next, c.last, c.missing, c.rx.plist, fins, p.num);
    DeleteMembers(c.missing, p.num);
  }

  // ---------------------------------------------------------------------------
  // The acknowledgement
  // ---------------------------------------------------------------------------

  lemma DrainAckStep(s: int, rx: Rx, ack: int)
    requires rx.plist != [] ==> rx.plist[0].num >= rx.next
    ensures DrainAck(Unbounded, s, rx, ack) ==
            if !Due(s, rx) then ack
            else DrainAck(Unbounded, s, Pop(rx), if rx.plist[0].num == rx.next then rx.next else s)
  {
  }

  /** The acknowledgement is never behind the packets delivered, nor ahead of the newest one. */
  lemma {:induction false} DrainAckBounds(s: int, rx: Rx, log: seq<Packet>, ack: int, last: int)
    requires Orderly(rx, log) && s <= last && rx.next - 1 <= ack <= last
    requires forall p :: p in rx.plist ==> p.num <= last
    ensures Drain(Unbounded, s, rx).next - 1 <= DrainAck(Unbounded, s, rx, ack) <= last
    decreases |rx.plist|
  {
    assert rx.plist != [] ==> rx.plist[0] in rx.plist;
    DrainStep(s, rx);
    DrainAckStep(s, rx, ack);
    if Due(s, rx) {
      PopKeeps(rx, log);
      DrainAckBounds(s, Pop(rx), log, if rx.plist[0].num == rx.next then rx.next else s, last);
    }
  }

  /** While nothing is skipped it is the number before the next expected one. */
  lemma {:induction false} DrainAckExact(s: int, rx: Rx, log: seq<Packet>, ack: int)
    requires Orderly(rx, log) && ack == rx.next - 1
    requires forall p :: p in rx.plist ==> s < p.num + VALID_RANGE
    ensures DrainAck(Unbounded, s, rx, ack) == Drain(Unbounded, s, rx).next - 1
    decreases |rx.plist|
  {
    assert rx.plist != [] ==> rx.plist[0] in rx.plist;
    DrainStep(s, rx);
    DrainAckStep(s, rx, ack);
    if Due(s, rx) {
      PopKeeps(rx, log);
      DrainAckExact(s, Pop(rx), log, rx.next);
    }
  }

  // ---------------------------------------------------------------------------
  // Steps
  // ---------------------------------------------------------------------------

  lemma AcceptIn(p: Packet, rx: Rx, log: seq<Packet>, last: int)
    requires Orderly(rx, log) && Settled(rx) && p.num <= last
    requires forall q :: q in rx.plist ==> q.num <= last
    ensures forall q :: q in Accept(Unbounded, p, rx).plist ==> q.num <= last
  {
    if p.num > rx.next { InsertPacketKeeps(rx.plist, p); }
  }

  /** Reception and acknowledgement together, once the newest number is known. */
  lemma ReceiveBooks(p: Packet, rx: Rx, ack: int, last: int, missing: seq<int>, log: seq<Packet>, fins: set<int>)
    requires Books(rx, last, missing, 0, log, fins + {p.num}) && 1 <= p.num <= last
    requires rx.next - 1 <= ack <= last
    ensures var r := Receive(Unbounded, p, rx);
            && Books(r, last, missing, 0, log + [p], fins)
            && r.next - 1 <= ReceiveAck(Unbounded, p, rx, ack) <= last
  {
    ReceiveKeepsBooks(p, rx, log, last, missing, fins);
    ReceiveKeeps(p, rx, log);
    AcceptKeeps(p, rx, log);
    AcceptIn(p, rx, log, last);
    var ack' := if p.num == rx.next then p.num else ack;
    DrainAckBounds(p.num, Accept(Unbounded, p, rx), log + [p], ack', last);
  }

  lemma HonestSnoc(missing: seq<int>, log: seq<Packet>, p: Packet)
    requires Honest(missing, log) && p.num !in missing
    ensures Honest(missing, log + [p])
  {
    forall n | n in missing ensures !Has(log + [p], n) { HasSnoc(log, p, n); }
  }

  /** A packet that is not new leaves the books in order. */
  lemma OldBooks(p: Packet, rx: Rx, last: int, missing: seq<int>, log: seq<Packet>, fins: set<int>)
    requires Books(rx, last, missing, 0, log, fins + {p.num}) && !IsNew(Unbounded, p, rx)
    ensures Books(rx, last, missing, 0, log + [p], fins)
  {
    OldChangesNothing(p, rx, log);
  }

  lemma SetTwice(fins: set<int>, n: int)
    ensures fins + {n} + {n} == fins + {n}
  {
  }

  /** A packet that is struck off or newer than all others is not listed as missing afterwards. */
  lemma NotListed(c: Conn, p: Packet, retx: bool, log: seq<Packet>, fins: set<int>)
    requires Inv(c, log, fins) && 1 <= p.num
    ensures p.num !in TakeIn(Unbounded, c, p, retx).missing
  {
    StrikeOffBooks(c, p, retx, log, fins);
    var c1 := StrikeOff(Unbounded, c, p, retx);
    if p.num > c1.last { AdvanceList(c1.missing, p.num, c1.last); }
  }

  lemma TakeInInv(c: Conn, p: Packet, retx: bool, log: seq<Packet>, fins: set<int>)
    requires Inv(c, log, fins) && 1 <= p.num
    ensures Inv(TakeIn(Unbounded, c, p, retx), log + [p], fins)
  {
    var c1 := StrikeOff(Unbounded, c, p, retx);
    StrikeOffBooks(c, p, retx, log, fins);
    AdvanceBooks(c1, p.num, log, fins + {p.num});
    SetTwice(fins, p.num);
    var c2 := Advance(Unbounded, c1, p.num);
    NotListed(c, p, retx, log, fins);
    HonestSnoc(c2.missing, log, p);
    if IsNew(Unbounded, p, c.rx) {
      ReceiveBooks(p, c.rx, c.ack, c2.last, c2.missing, log, fins);
    } else {
      OldBooks(p, c.rx, c2.last, c2.missing, log, fins);
    }
  }

  lemma OnFinInv(c: Conn, n: int, log: seq<Packet>, fins: set<int>)
    requires Inv(c, log, fins) && 1 <= n
    ensures Inv(OnFin(Unbounded, c, n), log, fins + {n})
  {
    AdvanceBooks(c, n, log, fins);
    var c1 := Advance(Unbounded, c, n);
    FeedbackBooks(c1, log, fins + {n});
    assert SendFeedback(Unbounded, c1).rx == c1.rx && SendFeedback(Unbounded, c1).last == c1.last;
  }

  /** The replies leave everything alone but the missing list. */
  lemma AnswerShape(m: Arith, c: Conn, feedback: bool)
    ensures var c' := AnswerData(m, c, feedback);
            && c'.rx == c.rx && c'.last == c.last && c'.ack == c.ack
            && (c'.missing == c.missing || c'.missing == SendFeedback(m, c).missing)
  {
  }

  lemma OnDataInv(c: Conn, p: Packet, retx: bool, wanted: bool, log: seq<Packet>, fins: set<int>)
    requires Inv(c, log, fins) && 1 <= p.num && !Refused(Unbounded, c, p)
    ensures Inv(OnData(Unbounded, c, p, retx, wanted), log + [p], fins)
  {
    TakeInInv(c, p, retx, log, fins);
    var c1 := TakeIn(Unbounded, c, p, retx);
    AnswerShape(Unbounded, c1, Found(Unbounded, c, p.num) != [] || wanted);
    FeedbackBooks(c1, log + [p], fins);
    assert SendFeedback(Unbounded, c1).rx == c1.rx && SendFeedback(Unbounded, c1).last == c1.last;
  }

  lemma StepInv(c: Conn, e: Event, log: seq<Packet>, fins: set<int>)
    requires Inv(c, log, fins) && CarriedEvent(Unbounded, e)
    ensures Inv(Step(Unbounded, c, e), log + LogOf(Unbounded, c, e), fins + FinOf(e))
  {
    assert log + [] == log && fins + {} == fins;
    match e
    case Fin(n) => OnFinInv(c, n, log, fins);
    case Data(p, retx, wanted) => if !Refused(Unbounded, c, p) { OnDataInv(c, p, retx, wanted, log, fins); }
    case Timeout(decreased) => FeedbackBooks(c, log, fins);
      assert Inv(OnTimeout(Unbounded, c, decreased), log, fins);
    case _ =>
  }

  /** The joint invariant holds after every run. */
  lemma {:induction false} RunInv(es: seq<Event>)
    requires CarriedRun(Unbounded, es)
    ensures Inv(Run(Unbounded, es), Log(Unbounded, es), Fins(es))
    decreases |es|
  {
    if es != [] {
      var k := |es| - 1;
      RunInv(es[..k]);
      StepInv(Run(Unbounded, es[..k]), es[k], Log(Unbounded, es[..k]), Fins(es[..k]));
    }
  }

  /** In-order, at-most-once delivery over every run, forced skips included. */
  lemma InOrderAtMostOnce(es: seq<Event>)
    requires CarriedRun(Unbounded, es)
    ensures var out := Run(Unbounded, es).rx.out;
            Sorted(out) && forall p :: p in out ==> IsFirst(Log(Unbounded, es), p)
  {
    RunInv(es);
  }

  /** What event `e` adds to the packets taken in: a data packet that is new on arrival. */
  ghost function NewOf(c: Conn, e: Event): multiset<Packet> {
    if LogOf(Unbounded, c, e) != [] && IsNew(Unbounded, e.p, c.rx) then multiset{e.p} else multiset{}
  }

  ghost function TakenIn(es: seq<Event>): multiset<Packet>
    requires CarriedRun(Unbounded, es)
    decreases |es|
  {
    if es == [] then multiset{}
    else TakenIn(es[..|es| - 1]) + NewOf(Run(Unbounded, es[..|es| - 1]), es[|es| - 1])
  }

  /** Conservation over every run: what has been delivered and what is in the buffer are together
      exactly the packets taken in, each as often as it was. */
  lemma {:induction false} NothingLostOrInvented(es: seq<Event>)
    requires CarriedRun(Unbounded, es)
    ensures Held(Run(Unbounded, es).rx) == TakenIn(es)
    decreases |es|
  {
    if es != [] {
      var k := |es| - 1;
      var c := Run(Unbounded, es[..k]);
      NothingLostOrInvented(es[..k]);
      RunInv(es[..k]);
      StepShape(Unbounded, c, es[k]);
      if NewOf(c, es[k]) != multiset{} { ReceiveConserves(es[k].p, c.rx, Log(Unbounded, es[..k])); }
    }
  }

  // ---------------------------------------------------------------------------
  // The acknowledgement over every run
  // ---------------------------------------------------------------------------

  /** The last packet handed up directly follows the one handed up before it. */
  predicate LastInOrder(out: seq<Packet>) {
    var k := |out|;
    k == 0 || out[k - 1].num == (if k == 1 then 0 else out[k - 2].num) + 1
  }

  /** The acknowledgement is the number of the last packet handed up if that one was in order, and
      a number at least the valid range ahead of it if it was not. */
  predicate AckTells(rx: Rx, ack: int) {
    && rx.next == (if rx.out == [] then 0 else rx.out[|rx.out| - 1].num) + 1
    && (if LastInOrder(rx.out) then ack == rx.next - 1 else ack >= rx.next - 1 + VALID_RANGE)
  }

  lemma {:induction false} DrainAckTells(s: int, rx: Rx, log: seq<Packet>, ack: int)
    requires Orderly(rx, log) && AckTells(rx, ack)
    ensures AckTells(Drain(Unbounded, s, rx), DrainAck(Unbounded, s, rx, ack))
    decreases |rx.plist|
  {
    assert rx.plist != [] ==> rx.plist[0] in rx.plist;
    DrainStep(s, rx);
    DrainAckStep(s, rx, ack);
    if Due(s, rx) {
      PopKeeps(rx, log);
      DrainAckTells(s, Pop(rx), log, if rx.plist[0].num == rx.next then rx.next else s);
    }
  }

  lemma ReceiveAckTells(p: Packet, rx: Rx, log: seq<Packet>, ack: int)
    requires Orderly(rx, log) && Settled(rx) && AckTells(rx, ack)
    ensures AckTells(Receive(Unbounded, p, rx), ReceiveAck(Unbounded, p, rx, ack))
  {
    AcceptKeeps(p, rx, log);
    AcceptAckTells(p, rx, ack);
    DrainAckTells(p.num, Accept(Unbounded, p, rx), log + [p], if p.num == rx.next then p.num else ack);
  }

  lemma AcceptAckTells(p: Packet, rx: Rx, ack: int)
    requires AckTells(rx, ack)
    ensures AckTells(Accept(Unbounded, p, rx), if p.num == rx.next then p.num else ack)
  {
  }

  lemma {:induction false} RunAckTells(es: seq<Event>)
    requires CarriedRun(Unbounded, es)
    ensures AckTells(Run(Unbounded, es).rx, Run(Unbounded, es).ack)
    decreases |es|
  {
    if es != [] {
      var k := |es| - 1;
      var c := Run(Unbounded, es[..k]);
      RunAckTells(es[..k]);
      RunInv(es[..k]);
      StepShape(Unbounded, c, es[k]);
      if NewOf(c, es[k]) != multiset{} { ReceiveAckTells(es[k].p, c.rx, Log(Unbounded, es[..k]), c.ack); }
    }
  }

  /** Over every run, forced skips included, feedback acknowledges exactly the number before the
      next expected one if and only if the last packet handed up was in order. */
  lemma AckExactly(es: seq<Event>)
    requires CarriedRun(Unbounded, es)
    ensures var c := Run(Unbounded, es); c.ack == c.rx.next - 1 <==> LastInOrder(c.rx.out)
  {
    RunAckTells(es);
  }

  /** Packet `i` of the buffer is the last one that the arrival of `s` pushes out, and there is a gap
      before it: it does not follow the one before it, nor does another follow it. */
  predicate SkippedLast(s: int, next: int, ps: seq<Packet>, i: nat)
    requires i < |ps|
  {
    && ps[i].num + VALID_RANGE <= s
    && ps[i].num != (if i == 0 then next else ps[i - 1].num + 1)
    && (i + 1 < |ps| ==> s < ps[i + 1].num + VALID_RANGE && ps[i + 1].num != ps[i].num + 1)
  }

  ghost predicate LastSkipped(s: int, next: int, ps: seq<Packet>) {
    exists i :: 0 <= i < |ps| && SkippedLast(s, next, ps, i)
  }

  /** What is skipped last in the buffer is skipped last in what is left of it, as long as something
      is still due. */
  lemma SkippedLater(s: int, rx: Rx, log: seq<Packet>)
    requires Orderly(rx, log) && Due(s, rx)
    ensures Due(s, Pop(rx)) ==>
              (LastSkipped(s, rx.next, rx.plist) <==> LastSkipped(s, Pop(rx).next, Pop(rx).plist))
    ensures !Due(s, Pop(rx)) ==> (LastSkipped(s, rx.next, rx.plist) <==> rx.plist[0].num != rx.next)
  {
    var ps, qs := rx.plist, Pop(rx).plist;
    forall i | 0 <= i < |qs|
      ensures SkippedLast(s, Pop(rx).next, qs, i) <==> SkippedLast(s, rx.next, ps, i + 1) {}
    if i :| 0 <= i < |ps| && SkippedLast(s, rx.next, ps, i) {
      if i > 0 {
        assert SkippedLast(s, Pop(rx).next, qs, i - 1);
        assert qs[0].num + VALID_RANGE <= s;
      }
    }
    if i :| 0 <= i < |qs| && SkippedLast(s, Pop(rx).next, qs, i) {
      assert SkippedLast(s, rx.next, ps, i + 1);
    }
    if !Due(s, Pop(rx)) && ps[0].num != rx.next {
      assert SkippedLast(s, rx.next, ps, 0);
    }
  }

  lemma {:induction false} DrainAckLast(s: int, rx: Rx, log: seq<Packet>, ack: int)
    requires Orderly(rx, log)
    ensures DrainAck(Unbounded, s, rx, ack) == Drain(Unbounded, s, rx).next - 1 <==>
            if Due(s, rx) then !LastSkipped(s, rx.next, rx.plist) else ack == rx.next - 1
    decreases |rx.plist|
  {
    assert rx.plist != [] ==> rx.plist[0] in rx.plist;
    DrainStep(s, rx);
    DrainAckStep(s, rx, ack);
    if Due(s, rx) {
      PopKeeps(rx, log);
      SkippedLater(s, rx, log);
      DrainAckLast(s, Pop(rx), log, if rx.plist[0].num == rx.next then rx.next else s);
    }
  }

  /** A new packet goes in behind all that are older. */
  lemma {:induction false} InsertSplits(ps: seq<Packet>, p: Packet) returns (i: nat)
    requires Sorted(ps) && !Has(ps, p.num)
    ensures i <= |ps| && InsertSorted(Unbounded, ps, p) == ps[..i] + [p] + ps[i..]
    ensures forall j :: 0 <= j < i ==> ps[j].num < p.num
    ensures forall j :: i <= j < |ps| ==> p.num < ps[j].num
  {
    if ps == [] || p.num < ps[0].num {
      i := 0;
    } else {
      forall j | 0 <= j < |ps[1..]| ensures ps[1..][j].num != p.num { assert ps[1..][j] == ps[j + 1]; }
      var k := InsertSplits(ps[1..], p);
      i := k + 1;
      assert ps[..i] + [p] + ps[i..] == [ps[0]] + (ps[1..][..k] + [p] + ps[1..][k..]);
    }
  }

  /** The packet that pushes others out is not among them, so its own place in the buffer does not
      matter. */
  lemma SkippedAside(p: Packet, next: int, ps: seq<Packet>)
    requires Sorted(ps)
    ensures LastSkipped(p.num, next, InsertPacket(Unbounded, ps, p)) <==> LastSkipped(p.num, next, ps)
  {
    if !Has(ps, p.num) {
      var i := InsertSplits(ps, p);
      var qs := ps[..i] + [p] + ps[i..];
      forall j | 0 <= j < i ensures SkippedLast(p.num, next, qs, j) <==> SkippedLast(p.num, next, ps, j) {}
      if j :| 0 <= j < |qs| && SkippedLast(p.num, next, qs, j) {
        assert j < i && SkippedLast(p.num, next, ps, j);
      }
      if j :| 0 <= j < |ps| && SkippedLast(p.num, next, ps, j) {
        assert j < i && SkippedLast(p.num, next, qs, j);
      }
    }
  }

  lemma NoneSkipped(s: int, next: int, ps: seq<Packet>)
    requires forall p :: p in ps ==> s < p.num + VALID_RANGE
    ensures !LastSkipped(s, next, ps)
  {
    forall i | 0 <= i < |ps| ensures !SkippedLast(s, next, ps, i) { assert ps[i] in ps; }
  }

  /** The arrival of one packet, in terms of what is there before it: the acknowledgement is exact
      afterwards if the packet is the next one; if it pushes out the head of the buffer, exactly if
      the last packet it pushes out has no gap before it or is followed by another; and otherwise
      exactly if it was exact before. */
  lemma ArrivalAckExactly(p: Packet, rx: Rx, log: seq<Packet>, ack: int)
    requires Orderly(rx, log) && Settled(rx)
    ensures ReceiveAck(Unbounded, p, rx, ack) == Receive(Unbounded, p, rx).next - 1 <==>
            if p.num == rx.next then true
            else if rx.plist != [] && rx.plist[0].num + VALID_RANGE <= p.num
              then !LastSkipped(p.num, rx.next, rx.plist)
            else ack == rx.next - 1
  {
    var a := Accept(Unbounded, p, rx);
    AcceptKeeps(p, rx, log);
    DrainAckLast(p.num, a, log + [p], if p.num == rx.next then p.num else ack);
    assert a.plist != [] ==> a.plist[0] in a.plist;
    if p.num <= rx.next {
      assert forall q :: q in a.plist ==> p.num < q.num + VALID_RANGE;
      NoneSkipped(p.num, a.next, a.plist);
      assert rx.plist != [] ==> rx.plist[0] in rx.plist;
    } else {
      SkippedAside(p, rx.next, rx.plist);
      HeadAfterInsert(p, rx.plist);
    }
  }

  lemma HeadAfterInsert(p: Packet, ps: seq<Packet>)
    requires Sorted(ps)
    ensures var qs := InsertPacket(Unbounded, ps, p);
            qs != [] && qs[0] == if ps == [] || p.num < ps[0].num then p else ps[0]
  {
    assert ps != [] && p.num < ps[0].num ==> !Has(ps, p.num);
  }

  /** The exact partition: a number from the next expected one to the newest one that is in
      range and not a FIN is either buffered or listed as missing, and not both. */
  lemma ExactPartition(es: seq<Event>, n: int)
    requires CarriedRun(Unbounded, es)
    requires var c := Run(Unbounded, es); c.rx.next <= n <= c.last < n + VALID_RANGE && n !in Fins(es)
    ensures var c := Run(Unbounded, es); Has(c.rx.plist, n) <==> n !in c.missing
  {
    RunInv(es);
    var c, log := Run(Unbounded, es), Log(Unbounded, es);
    if Has(c.rx.plist, n) {
      var i :| 0 <= i < |c.rx.plist| && c.rx.plist[i].num == n;
      assert c.rx.plist[i] in c.rx.plist;
      FirstHas(log, c.rx.plist[i]);
    }
  }

  /** No run ever has a packet listed as missing that has arrived, let alone one that has been
      delivered or is in the buffer. */
  lemma NeverMissesHeld(es: seq<Event>)
    requires CarriedRun(Unbounded, es)
    ensures var c := Run(Unbounded, es);
            forall n :: n in c.missing ==>
              !Has(Log(Unbounded, es), n) && !Has(c.rx.out, n) && !Has(c.rx.plist, n)
  {
    RunInv(es);
    HeldInLog(Run(Unbounded, es).rx, Log(Unbounded, es));
  }

  /** So no feedback asks for one.  It asks for the oldest gaps in range, in order. */
  lemma NeverAsksForHeld(es: seq<Event>)
    requires CarriedRun(Unbounded, es)
    ensures var c := Run(Unbounded, es);
            var kept := Unexpired(c.last, c.missing);
            && Fill(Unbounded, NACK_SLOTS, c.last, c.missing, []) == (kept, kept[..Min(NACK_SLOTS, |kept|)])
            && Ascending(kept) && (forall n :: n in kept <==> n in c.missing && c.last < n + VALID_RANGE)
            && (forall n :: n in kept ==> !Has(Log(Unbounded, es), n))
  {
    RunInv(es);
    var c := Run(Unbounded, es);
    FillExact(NACK_SLOTS, c.last, c.missing);
    UnexpiredMembers(c.last, c.missing);
  }

  lemma HeldInLog(rx: Rx, log: seq<Packet>)
    requires Orderly(rx, log)
    ensures forall n :: Has(rx.out, n) || Has(rx.plist, n) ==> Has(log, n)
  {
    forall n | Has(rx.out, n) ensures Has(log, n) {
      var i :| 0 <= i < |rx.out| && rx.out[i].num == n;
      assert rx.out[i] in rx.out;
      FirstHas(log, rx.out[i]);
    }
    forall n | Has(rx.plist, n) ensures Has(log, n) {
      var i :| 0 <= i < |rx.plist| && rx.plist[i].num == n;
      assert rx.plist[i] in rx.plist;
      FirstHas(log, rx.plist[i]);
    }
  }

  // ---------------------------------------------------------------------------
  // The state machine, in either arithmetic
  // ---------------------------------------------------------------------------

  predicate PhaseInv(c: Conn) {
    c.phase == Active ==> c.missing == []
  }

  lemma SendFeedbackMoves(m: Arith, c: Conn)
    ensures var c' := SendFeedback(m, c);
            && c' == c.(missing := c'.missing, sent := c'.sent)
            && (c.missing == [] ==> c'.missing == [])
            && |c'.sent| == |c.sent| + 1 && c.sent <= c'.sent && c'.sent[|c.sent|].Feedback?
  {
  }

  /** What one step does to the phase: a connection is active only with nothing missing, and it
      is closed, and the FIN acknowledged, only by a step that leaves nothing missing. */
  predicate PhaseMove(c: Conn, c': Conn) {
    && PhaseInv(c')
    && (c.open && !c'.open ==> c'.missing == [])
    && c.sent <= c'.sent && |c'.sent| <= |c.sent| + 1
    && (|c'.sent| > |c.sent| && c'.sent[|c.sent|].FinAck? ==>
          c'.missing == [] && !c'.open && c'.sent[|c.sent|].num == c'.last)
  }

  lemma OnFinMoves(m: Arith, c: Conn, n: int)
    requires PhaseInv(c) && m.Carried(n) && m.LastSeen(c.last)
    ensures PhaseMove(c, OnFin(m, c, n))
  {
    var c1 := Advance(m, c, n);
    SendFeedbackMoves(m, if c1.phase == FinRetxWait then c1 else c1.(phase := FinRetxWait, timeouts := 0));
  }

  lemma AnswerMoves(m: Arith, c: Conn, feedback: bool)
    ensures PhaseMove(c, AnswerData(m, c, feedback))
  {
    SendFeedbackMoves(m, Settle(c));
  }

  lemma OnDataMoves(m: Arith, c: Conn, p: Packet, retx: bool, wanted: bool)
    requires PhaseInv(c) && m.Carried(p.num) && m.LastSeen(c.last)
    ensures PhaseMove(c, OnData(m, c, p, retx, wanted))
  {
    if !Refused(m, c, p) {
      var c1 := TakeIn(m, c, p, retx);
      assert c1.phase == c.phase && c1.sent == c.sent && c1.open == c.open;
      AnswerMoves(m, c1, Found(m, c, p.num) != [] || wanted);
    }
  }

  lemma OnTimeoutMoves(m: Arith, c: Conn, decreased: bool)
    requires PhaseInv(c)
    ensures PhaseMove(c, OnTimeout(m, c, decreased))
  {
    var t := c.timeouts + 1;
    SendFeedbackMoves(m, c.(timeouts := if t >= 2 && decreased then 0 else t));
  }

  lemma PhaseStep(m: Arith, c: Conn, e: Event)
    requires PhaseInv(c) && CarriedEvent(m, e) && m.LastSeen(c.last)
    ensures PhaseMove(c, Step(m, c, e))
  {
    match e
    case Fin(n) => OnFinMoves(m, c, n);
    case Data(p, retx, wanted) => OnDataMoves(m, c, p, retx, wanted);
    case Timeout(decreased) => OnTimeoutMoves(m, c, decreased);
    case Syn => assert Step(m, c, e).sent == c.sent + [SynAck];
  }

  lemma {:induction false} ActiveMeansComplete(m: Arith, es: seq<Event>)
    requires CarriedRun(m, es)
    ensures PhaseInv(Run(m, es))
    decreases |es|
  {
    if es != [] {
      ActiveMeansComplete(m, es[..|es| - 1]);
      PhaseStep(m, Run(m, es[..|es| - 1]), es[|es| - 1]);
    }
  }

  // ---------------------------------------------------------------------------
  // Runs in which arrivals stay within range
  // ---------------------------------------------------------------------------

  function NumOf(e: Event): int
    requires e.Data? || e.Fin?
  {
    if e.Data? then e.p.num else e.num
  }

  predicate Near(c: Conn, e: Event) {
    e.Data? || e.Fin? ==> NumOf(e) < c.rx.next + VALID_RANGE
  }

  predicate NearRun(es: seq<Event>)
    requires CarriedRun(Unbounded, es)
    decreases |es|
  {
    es == [] || (NearRun(es[..|es| - 1]) && Near(Run(Unbounded, es[..|es| - 1]), es[|es| - 1]))
  }

  ghost predicate NearInv(c: Conn) {
    Contiguous(c.rx, 1) && c.last < c.rx.next + VALID_RANGE && c.ack == c.rx.next - 1
  }

  /** What a data packet that is taken in does to them. */
  lemma TakenShape(m: Arith, c: Conn, p: Packet, retx: bool, wanted: bool)
    requires m.Carried(p.num) && m.LastSeen(c.last) && !Refused(m, c, p)
    ensures var c' := OnData(m, c, p, retx, wanted);
            && c'.rx == (if IsNew(m, p, c.rx) then Receive(m, p, c.rx) else c.rx)
            && c'.ack == (if IsNew(m, p, c.rx) then ReceiveAck(m, p, c.rx, c.ack) else c.ack)
            && c'.last == (if m.Cmp(p.num, c.last) > 0 then p.num else c.last)
  {
    AnswerShape(m, TakeIn(m, c, p, retx), Found(m, c, p.num) != [] || wanted);
  }

  lemma FinShape(m: Arith, c: Conn, n: int)
    requires m.Carried(n) && m.LastSeen(c.last)
    ensures var c' := OnFin(m, c, n);
            c'.rx == c.rx && c'.ack == c.ack && c'.last == if m.Cmp(n, c.last) > 0 then n else c.last
  {
    var c1 := Advance(m, c, n);
    SendFeedbackMoves(m, if c1.phase == FinRetxWait then c1 else c1.(phase := FinRetxWait, timeouts := 0));
  }

  /** What a step does to the buffer, the newest number and the acknowledgement. */
  lemma StepShape(m: Arith, c: Conn, e: Event)
    requires CarriedEvent(m, e) && m.LastSeen(c.last)
    ensures var c' := Step(m, c, e);
            && c'.rx == (if LogOf(m, c, e) != [] && IsNew(m, e.p, c.rx) then Receive(m, e.p, c.rx) else c.rx)
            && c'.ack == (if LogOf(m, c, e) != [] && IsNew(m, e.p, c.rx) then ReceiveAck(m, e.p, c.rx, c.ack) else c.ack)
            && c'.last == (if (e.Fin? || LogOf(m, c, e) != []) && m.Cmp(NumOf(e), c.last) > 0 then NumOf(e) else c.last)
  {
    match e
    case Data(p, retx, wanted) => if !Refused(m, c, p) { TakenShape(m, c, p, retx, wanted); }
    case Fin(n) => FinShape(m, c, n);
    case Timeout(decreased) =>
      var t := c.timeouts + 1;
      SendFeedbackMoves(m, c.(timeouts := if t >= 2 && decreased then 0 else t));
    case Syn =>
  }

  lemma ReceiveAckExact(p: Packet, rx: Rx, log: seq<Packet>)
    requires Orderly(rx, log) && Settled(rx) && p.num < rx.next + VALID_RANGE
    ensures ReceiveAck(Unbounded, p, rx, rx.next - 1) == Receive(Unbounded, p, rx).next - 1
  {
    AcceptKeeps(p, rx, log);
    DrainAckExact(p.num, Accept(Unbounded, p, rx), log + [p], Accept(Unbounded, p, rx).next - 1);
  }

  lemma NearStep(c: Conn, e: Event, log: seq<Packet>, fins: set<int>)
    requires Inv(c, log, fins) && NearInv(c)
    requires CarriedEvent(Unbounded, e) && Near(c, e)
    ensures NearInv(Step(Unbounded, c, e))
  {
    StepShape(Unbounded, c, e);
    if LogOf(Unbounded, c, e) != [] && IsNew(Unbounded, e.p, c.rx) {
      ReceiveContiguous(e.p, c.rx, log, 1);
      ReceiveKeeps(e.p, c.rx, log);
      ReceiveAckExact(e.p, c.rx, log);
    }
  }

  lemma {:induction false} RunNear(es: seq<Event>)
    requires CarriedRun(Unbounded, es) && NearRun(es)
    ensures NearInv(Run(Unbounded, es))
    decreases |es|
  {
    if es != [] {
      var k := |es| - 1;
      RunNear(es[..k]);
      RunInv(es[..k]);
      NearStep(Run(Unbounded, es[..k]), es[k], Log(Unbounded, es[..k]), Fins(es[..k]));
    }
  }

  /** Event `k` is a packet no more than the greatest jump ahead of the newest one then, so that it
      is taken in; others are refused. */
  predicate TakenAt(es: seq<Event>, k: nat)
    requires CarriedRun(Unbounded, es) && k < |es|
  {
    es[k].Data? && es[k].p.num <= Run(Unbounded, es[..k]).last + MAX_JUMP
  }

  /** A packet numbered `n` has arrived, and been taken in. */
  ghost predicate Came(es: seq<Event>, n: int)
    requires CarriedRun(Unbounded, es)
  {
    exists k :: 0 <= k < |es| && TakenAt(es, k) && es[k].p.num == n
  }

  lemma CameSnoc(es: seq<Event>, n: int)
    requires CarriedRun(Unbounded, es) && es != []
    ensures var k := |es| - 1; Came(es, n) <==> Came(es[..k], n) || (TakenAt(es, k) && es[k].p.num == n)
  {
    var fs := es[..|es| - 1];
    forall j | 0 <= j < |fs| ensures TakenAt(es, j) <==> TakenAt(fs, j) {
      assert fs[..j] == es[..j];
    }
    if Came(fs, n) {
      var j :| 0 <= j < |fs| && TakenAt(fs, j) && fs[j].p.num == n;
      assert TakenAt(es, j);
    }
  }

  /** The log holds the numbers that came. */
  lemma {:induction false} LogIsCame(es: seq<Event>, n: int)
    requires CarriedRun(Unbounded, es)
    ensures Has(Log(Unbounded, es), n) <==> Came(es, n)
    decreases |es|
  {
    if es != [] {
      var k := |es| - 1;
      var c := Run(Unbounded, es[..k]);
      LogIsCame(es[..k], n);
      CameSnoc(es, n);
      if LogOf(Unbounded, c, es[k]) == [] {
        assert Log(Unbounded, es) == Log(Unbounded, es[..k]);
      } else {
        HasSnoc(Log(Unbounded, es[..k]), es[k].p, n);
      }
    }
  }

  /** The state as a function of the packets taken in. */
  lemma StateIsLog(es: seq<Event>)
    requires CarriedRun(Unbounded, es) && NearRun(es)
    ensures var c, log := Run(Unbounded, es), Log(Unbounded, es);
            && !Has(log, c.rx.next) && |c.rx.out| == c.rx.next - 1 && c.ack == c.rx.next - 1
            && (forall n :: 0 < n < c.rx.next ==>
                  Has(log, n) && c.rx.out[n - 1].num == n && IsFirst(log, c.rx.out[n - 1]))
            && (forall n :: n > c.rx.next ==> (Has(log, n) <==> Has(c.rx.plist, n)))
            && (forall n :: n !in Fins(es) ==> (n in c.missing <==> 0 < n < c.last && !Has(log, n)))
  {
    RunInv(es);
    RunNear(es);
    var c, log := Run(Unbounded, es), Log(Unbounded, es);
    Reassembled(c.rx, log, 1);
    forall n | n !in Fins(es) ensures n in c.missing <==> 0 < n < c.last && !Has(log, n) {
      ListedExactly(c, log, Fins(es), n);
    }
  }

  lemma ListedExactly(c: Conn, log: seq<Packet>, fins: set<int>, n: int)
    requires Inv(c, log, fins) && NearInv(c) && n !in fins
    ensures n in c.missing <==> 0 < n < c.last && !Has(log, n)
  {
    if 0 < n < c.last && !Has(log, n) {
      Reassembled(c.rx, log, 1);
      assert c.rx.next <= n;
      if n == c.rx.next { NextNotBuffered(c.rx); }
    }
  }

  /** What the history says about number `n`: it came if it is before the next expected one, and has
      been delivered in its place; after it, if it is in the buffer; and below the newest one it is
      listed as missing exactly if it did not. */
  ghost predicate Tells(c: Conn, log: seq<Packet>, fins: set<int>, n: int, came: bool) {
    && (n == c.rx.next ==> !came)
    && (0 < n < c.rx.next ==> came && n <= |c.rx.out| && c.rx.out[n - 1].num == n && IsFirst(log, c.rx.out[n - 1]))
    && (n > c.rx.next ==> (came <==> Has(c.rx.plist, n)))
    && (n !in fins ==> (n in c.missing <==> 0 < n < c.last && !came))
  }

  lemma LogTells(es: seq<Event>, n: int)
    requires CarriedRun(Unbounded, es) && NearRun(es)
    ensures Tells(Run(Unbounded, es), Log(Unbounded, es), Fins(es), n, Has(Log(Unbounded, es), n))
  {
    StateIsLog(es);
  }

  /** The whole receiving state is a function of the history: the next expected number is the
      least one that has not come, the application has the first packet taken in under every number
      before it, the buffer the numbers that came after it; the acknowledgement is the number
      before it; and exactly the numbers below the newest one that have not come, FINs apart, are
      missing. */
  lemma StateIsHistory(es: seq<Event>)
    requires CarriedRun(Unbounded, es) && NearRun(es)
    ensures var c := Run(Unbounded, es);
            && |c.rx.out| == c.rx.next - 1 && c.ack == c.rx.next - 1
            && forall n :: Tells(c, Log(Unbounded, es), Fins(es), n, Came(es, n))
  {
    RunNear(es);
    forall n ensures Tells(Run(Unbounded, es), Log(Unbounded, es), Fins(es), n, Came(es, n)) {
      LogTells(es, n);
      LogIsCame(es, n);
    }
  }

  /** Packets beyond the greatest jump change nothing, however many come, until the newest number
      itself moves. */
  lemma {:induction false} StallsBeyondJump(es: seq<Event>, late: seq<Event>)
    requires CarriedRun(Unbounded, es) && CarriedRun(Unbounded, es + late)
    requires forall i :: 0 <= i < |late| ==>
               late[i].Data? && late[i].p.num > Run(Unbounded, es).last + MAX_JUMP
    ensures Run(Unbounded, es + late) == Run(Unbounded, es)
    decreases |late|
  {
    if late == [] {
      assert es + late == es;
    } else {
      var k := |late| - 1;
      assert (es + late)[..|es| + k] == es + late[..k];
      StallsBeyondJump(es, late[..k]);
      assert (es + late)[|es| + k] == late[k];
    }
  }

  /** Every feedback on a gap asks first for the next expected packet. */
  lemma AsksForNextFirst(fin: int, es: seq<Event>)
    requires CarriedRun(Unbounded, es) && NearRun(es) && Fins(es) <= {fin}
    requires var c := Run(Unbounded, es); c.last <= fin && c.missing != []
    ensures var c := Run(Unbounded, es);
            var (kept, items) := Fill(Unbounded, NACK_SLOTS, c.last, c.missing, []);
            kept == c.missing && items != [] && items[0] == c.rx.next
  {
    StateIsLog(es);
    RunInv(es);
    RunNear(es);
    var c, log := Run(Unbounded, es), Log(Unbounded, es);
    forall n | n in c.missing ensures c.rx.next <= n {
      assert n >= c.rx.next || Has(log, n);
    }
    assert c.missing[0] in c.missing && c.rx.next in c.missing;
    assert forall n :: n in c.missing ==> c.missing[0] <= n;
    FillExact(NACK_SLOTS, c.last, c.missing);
    NoneExpired(c.last, c.missing);
  }
}
