/** The stream connection as it runs, on wrapped numbers, against the true one. */
module StreamWire {
  import opened SeqNo
  import opened Receiver
  import opened InOrder
  import opened Ledger
  import opened Stream
  import opened StreamRuns
  import opened StreamFin
  import opened InStep

  function WrapReply(r: Reply): Reply {
    match r
    case SynAck => SynAck
    case FinAck(n) => FinAck(Wrap(n))
    case Nack(n, items) => Nack(Wrap(n), WrapNums(items))
  }

  function WrapReplies(rs: seq<Reply>): seq<Reply> {
    seq(|rs|, i requires 0 <= i < |rs| => WrapReply(rs[i]))
  }

  function WrapConn(c: Conn): Conn {
    c.(last := Wrap(c.last), missing := WrapNums(c.missing), rx := WrapRx(c.rx), sent := WrapReplies(c.sent))
  }

  function WrapEvent(e: Event): Event {
    match e
    case Fin(n) => Fin(Wrap(n))
    case Data(p, retx) => Data(WrapPacket(p), retx)
    case _ => e
  }

  function WrapEvents(es: seq<Event>): seq<Event> {
    seq(|es|, i requires 0 <= i < |es| => WrapEvent(es[i]))
  }

  lemma WrapCarries(e: Event)
    requires CarriedEvent(Unbounded, e)
    ensures CarriedEvent(Wire, WrapEvent(e))
  {
    match e
    case Fin(n) => WrapDecomposes(n);
    case Data(p, _) => WrapDecomposes(p.num);
    case _ =>
  }

  // ---------------------------------------------------------------------------
  // In sight
  // ---------------------------------------------------------------------------

  function Arriving(c: Conn, e: Event): int {
    if e.Data? || e.Fin? then NumOf(e) else c.last
  }

  /** Everything in play is in view. */
  predicate InSight(c: Conn, e: Event) {
    AllInView(Arriving(c, e), c.last, c.rx.next, c.missing)
  }

  predicate SightRun(syn: int, es: seq<Event>)
    requires CarriedRun(Unbounded, es) && 0 <= syn
    decreases |es|
  {
    es == [] || (SightRun(syn, es[..|es| - 1]) && InSight(Run(Unbounded, syn, es[..|es| - 1]), es[|es| - 1]))
  }

  // ---------------------------------------------------------------------------
  // Steps
  // ---------------------------------------------------------------------------

  lemma ReplyInStep(rs: seq<Reply>, r: Reply)
    ensures WrapReplies(rs + [r]) == WrapReplies(rs) + [WrapReply(r)]
  {
  }

  lemma SendNackInStep(c: Conn, lo: nat, hi: nat)
    requires BooksIn(c.last, c.missing, lo, hi)
    ensures SendNack(Wire, WrapConn(c)) == WrapConn(SendNack(Unbounded, c))
  {
    assert WrapNums([]) == [];
    FillInStep(NACK_SLOTS, c.last, c.missing, [], lo, hi);
    var (kept, items) := Fill(Unbounded, NACK_SLOTS, c.last, c.missing, []);
    ReplyInStep(c.sent, Nack(c.last, items));
  }

  lemma FinishInStep(c: Conn)
    ensures Finish(WrapConn(c)) == WrapConn(Finish(c))
  {
    ReplyInStep(c.sent, FinAck(c.last));
  }

  lemma AdvanceInStep(c: Conn, s: nat, lo: nat, hi: nat)
    requires BooksIn(c.last, c.missing, lo, hi) && lo <= s <= hi && 1 <= s
    ensures Wire.Carried(Wrap(s)) && Wire.LastSeen(Wrap(c.last))
    ensures Advance(Wire, WrapConn(c), Wrap(s)) == WrapConn(Advance(Unbounded, c, s))
    ensures Found(Wire, WrapConn(c), Wrap(s)) == WrapNums(Found(Unbounded, c, s))
  {
    WrapDecomposes(s);
    WrapDecomposes(c.last);
    ViewCompares(lo, hi, s, c.last);
    if s > c.last {
      GapInStep(c.last, c.missing, s, lo, hi);
    } else {
      assert WrapNums([]) == [];
    }
  }

  lemma AdvanceIn(c: Conn, s: nat, lo: nat, hi: nat)
    requires BooksIn(c.last, c.missing, lo, hi) && lo <= s <= hi && 1 <= s
    ensures var c1 := Advance(Unbounded, c, s); BooksIn(c1.last, c1.missing, lo, hi)
  {
    if s > c.last {
      AdvanceList(c.missing, s, c.last);
    }
  }

  lemma OnFinInStep(c: Conn, n: nat, lo: nat, hi: nat)
    requires BooksIn(c.last, c.missing, lo, hi) && lo <= n <= hi && 1 <= n
    ensures Wire.Carried(Wrap(n)) && Wire.LastSeen(Wrap(c.last))
    ensures OnFin(Wire, WrapConn(c), Wrap(n)) == WrapConn(OnFin(Unbounded, c, n))
  {
    AdvanceInStep(c, n, lo, hi);
    AdvanceIn(c, n, lo, hi);
    var c1 := Advance(Unbounded, c, n);
    FinishInStep(c1);
    SendNackInStep(c1, lo, hi);
  }

  lemma TakeInInStep(c: Conn, p: Packet, retx: bool, log: seq<Packet>, lo: nat, hi: nat)
    requires BooksIn(c.last, c.missing, lo, hi) && lo <= p.num <= hi && 1 <= p.num
    requires lo <= c.rx.next <= hi && 1 <= c.rx.next && PacketsIn(c.rx.plist, lo, hi)
    requires Orderly(c.rx, log) && Settled(c.rx)
    ensures Wire.Carried(Wrap(p.num)) && Wire.LastSeen(Wrap(c.last))
    ensures TakeIn(Wire, WrapConn(c), WrapPacket(p), retx) == WrapConn(TakeIn(Unbounded, c, p, retx))
    ensures var c1 := TakeIn(Unbounded, c, p, retx); BooksIn(c1.last, c1.missing, lo, hi)
  {
    AdvanceInStep(c, p.num, lo, hi);
    AdvanceIn(c, p.num, lo, hi);
    var c1 := Advance(Unbounded, c, p.num);
    DeleteInStep(c1.missing, p.num, lo, hi);
    DeleteMembers(c1.missing, p.num);
    ReceiveInStep(p, c.rx, log, lo, hi);
  }

  lemma OnDataInStep(c: Conn, p: Packet, retx: bool, log: seq<Packet>, lo: nat, hi: nat)
    requires BooksIn(c.last, c.missing, lo, hi) && lo <= p.num <= hi && 1 <= p.num
    requires lo <= c.rx.next <= hi && 1 <= c.rx.next && PacketsIn(c.rx.plist, lo, hi)
    requires Orderly(c.rx, log) && Settled(c.rx)
    ensures Wire.Carried(Wrap(p.num)) && Wire.LastSeen(Wrap(c.last))
    ensures OnData(Wire, WrapConn(c), WrapPacket(p), retx) == WrapConn(OnData(Unbounded, c, p, retx))
  {
    AdvanceInStep(c, p.num, lo, hi);
    TakeInInStep(c, p, retx, log, lo, hi);
    var c1 := TakeIn(Unbounded, c, p, retx);
    var c2 := if c1.phase == Passive then c1.(phase := NackWait) else c1;
    SendNackInStep(c2, lo, hi);
    FinishInStep(c1);
    assert WrapConn(c1).missing == [] <==> c1.missing == [];
  }

  lemma OnTimeoutInStep(c: Conn, lo: nat, hi: nat)
    requires BooksIn(c.last, c.missing, lo, hi)
    ensures OnTimeout(Wire, WrapConn(c)) == WrapConn(OnTimeout(Unbounded, c))
  {
    var c1 := c.(timeouts := c.timeouts + 1);
    SendNackInStep(c1, lo, hi);
    FinishInStep(c1);
    assert WrapConn(c1).missing == [] <==> c1.missing == [];
  }

  lemma StepInStep(c: Conn, syn: int, e: Event, log: seq<Packet>, fins: set<int>)
    requires Inv(c, syn, log, fins) && CarriedEvent(Unbounded, e) && InSight(c, e)
    ensures Wire.LastSeen(Wrap(c.last)) && CarriedEvent(Wire, WrapEvent(e))
    ensures Step(Wire, WrapConn(c), WrapEvent(e)) == WrapConn(Step(Unbounded, c, e))
  {
    WrapDecomposes(c.last);
    WrapCarries(e);
    var n := Arriving(c, e);
    BooksInView(c.rx, c.last, c.missing, syn, log, fins, n);
    var lo, hi := Oldest(n, c.last, c.rx.next, c.missing), Newest(n, c.last, c.rx.next);
    match e
    case Syn => ReplyInStep(c.sent, SynAck);
    case Fin(_) => OnFinInStep(c, n, lo, hi);
    case Data(p, retx) => OnDataInStep(c, p, retx, log, lo, hi);
    case Timeout => OnTimeoutInStep(c, lo, hi);
    case DeleteTid =>
  }

  /** Refinement: as long as the numbers in play stay in sight of each other, the connection
      that works on 16-bit numbers does on every run exactly what the true one does. */
  lemma {:induction false} RunInStep(syn: int, es: seq<Event>)
    requires CarriedRun(Unbounded, es) && 0 <= syn < MAX_SEQNO && SightRun(syn, es)
    ensures CarriedRun(Wire, WrapEvents(es)) && Wire.LastSeen(syn)
    ensures Run(Wire, syn, WrapEvents(es)) == WrapConn(Run(Unbounded, syn, es))
    decreases |es|
  {
    forall i | 0 <= i < |es| ensures CarriedEvent(Wire, WrapEvents(es)[i]) { WrapCarries(es[i]); }
    if es == [] {
      assert WrapConn(Fresh(syn)) == Fresh(syn);
    } else {
      var k := |es| - 1;
      RunInStep(syn, es[..k]);
      RunInv(syn, es[..k]);
      assert WrapEvents(es)[..k] == WrapEvents(es[..k]);
      StepInStep(Run(Unbounded, syn, es[..k]), syn, es[k], Log(es[..k]), Fins(es[..k]));
    }
  }

  /** Event `e` is no more than `behind` behind and less than `ahead` ahead of the next number. */
  predicate CloseBy(c: Conn, e: Event, behind: nat, ahead: nat) {
    e.Data? || e.Fin? ==> c.rx.next - behind <= NumOf(e) < c.rx.next + ahead
  }

  predicate CloseRun(syn: int, es: seq<Event>, behind: nat, ahead: nat)
    requires CarriedRun(Unbounded, es) && 0 <= syn
    decreases |es|
  {
    es == [] ||
    (CloseRun(syn, es[..|es| - 1], behind, ahead) &&
     CloseBy(Run(Unbounded, syn, es[..|es| - 1]), es[|es| - 1], behind, ahead))
  }

  /** While nothing is skipped, nothing before the next expected number is missing. */
  lemma NoneBefore(c: Conn, syn: int, log: seq<Packet>, fins: set<int>)
    requires Inv(c, syn, log, fins) && NearInv(c, syn) && Honest(c.missing, log)
    ensures c.missing != [] ==> c.rx.next <= c.missing[0]
  {
    Reassembled(c.rx, log, syn + 1);
    assert c.missing != [] ==> c.missing[0] in c.missing;
  }

  lemma CloseStep(c: Conn, syn: int, e: Event, log: seq<Packet>, fins: set<int>, behind: nat, ahead: nat)
    requires Inv(c, syn, log, fins) && NearInv(c, syn) && Honest(c.missing, log)
    requires 1 <= behind && 1 <= ahead && behind + ahead <= VALID_RANGE && c.last < c.rx.next + ahead
    requires CarriedEvent(Unbounded, e) && CloseBy(c, e, behind, ahead)
    ensures InSight(c, e) && Step(Unbounded, c, e).last < Step(Unbounded, c, e).rx.next + ahead
  {
    NoneBefore(c, syn, log, fins);
    WindowInView(Arriving(c, e), c.last, c.rx.next, c.missing, behind, ahead);
    StepShape(Unbounded, c, e);
    if e.Data? { ReceiveKeeps(e.p, c.rx, log); }
  }

  /** A condition on the arrivals alone: if all of them lie in a window around the next expected
      number that is no wider than the valid range, and gaps are filled by flagged packets, then
      everything in play stays in sight, wherever the numbers wrap around. */
  lemma {:induction false} CloseInSight(syn: int, es: seq<Event>, behind: nat, ahead: nat)
    requires CarriedRun(Unbounded, es) && 0 <= syn && 1 <= behind && 1 <= ahead && behind + ahead <= VALID_RANGE
    requires CloseRun(syn, es, behind, ahead) && FlaggedRun(syn, es)
    ensures NearRun(syn, es) && SightRun(syn, es)
    ensures var c := Run(Unbounded, syn, es); c.last < c.rx.next + ahead && Honest(c.missing, Log(es))
    decreases |es|
  {
    if es != [] {
      var k := |es| - 1;
      var c := Run(Unbounded, syn, es[..k]);
      CloseInSight(syn, es[..k], behind, ahead);
      RunInv(syn, es[..k]);
      RunNear(syn, es[..k]);
      CloseStep(c, syn, es[k], Log(es[..k]), Fins(es[..k]), behind, ahead);
      StepHonest(c, syn, es[k], Log(es[..k]), Fins(es[..k]));
    }
  }

  /** What the application is handed on the wire: if the connection has acknowledged the FIN,
      exactly one packet for every number between the SYN and the FIN, in order, with the
      payload that arrived first under that number. */
  lemma FinAckInSight(syn: int, fin: int, es: seq<Event>)
    requires CarriedRun(Unbounded, es) && 0 <= syn < MAX_SEQNO && SightRun(syn, es)
    requires syn < fin && NearRun(syn, es) && ClosedBy(es, fin)
    requires CarriedRun(Wire, WrapEvents(es)) && Wire.LastSeen(syn)
    requires Acked(Run(Wire, syn, WrapEvents(es)))
    ensures var out := Run(Wire, syn, WrapEvents(es)).rx.out;
            && |out| == fin - (syn + 1)
            && forall i :: 0 <= i < |out| ==>
                 out[i].num == Wrap(syn + 1 + i) && IsFirst(Log(es), Packet(syn + 1 + i, out[i].data))
    ensures Run(Wire, syn, WrapEvents(es)).rx.plist == []
  {
    RunInStep(syn, es);
    var c := Run(Unbounded, syn, es);
    AckedInStep(c);
    FinAckMeansDelivered(syn, fin, es);
    DeliveredInStep(c, syn, fin, Log(es));
  }

  lemma DeliveredInStep(c: Conn, syn: int, fin: int, log: seq<Packet>)
    requires Delivered(c, syn, fin, log)
    ensures var out := WrapConn(c).rx.out;
            && |out| == fin - (syn + 1)
            && forall i :: 0 <= i < |out| ==>
                 out[i].num == Wrap(syn + 1 + i) && IsFirst(log, Packet(syn + 1 + i, out[i].data))
    ensures WrapConn(c).rx.plist == []
  {
    var out := WrapConn(c).rx.out;
    forall i | 0 <= i < |out|
      ensures out[i].num == Wrap(syn + 1 + i) && IsFirst(log, Packet(syn + 1 + i, out[i].data))
    {
      assert c.rx.out[i] == Packet(syn + 1 + i, out[i].data);
    }
  }

  lemma AckedInStep(c: Conn)
    requires Acked(WrapConn(c))
    ensures Acked(c)
  {
    var i :| 0 <= i < |WrapConn(c).sent| && WrapConn(c).sent[i].FinAck?;
    assert c.sent[i].FinAck?;
  }

  // ---------------------------------------------------------------------------
  // Out of sight
  // ---------------------------------------------------------------------------

  /** Exactly which packets ahead of the next expected one the wrapped receiver takes for new
      ones: those that are within range or on the same lap.  All others it drops. */
  lemma TakenExactly(p: Packet, rx: Rx)
    requires 0 <= rx.next < p.num < rx.next + MAX_SEQNO
    ensures Wire.Cmp(Wrap(p.num), Wrap(rx.next)) > 0 <==> Comparable(p.num, rx.next)
    ensures !Comparable(p.num, rx.next) ==> Accept(Wire, WrapPacket(p), WrapRx(rx)) == WrapRx(rx)
  {
    CmpExact(p.num, rx.next);
    if Wrap(p.num) == Wrap(rx.next) { WrapInjective(p.num, rx.next); }
  }

  /** How the wrapped comparison sees two different packets: in their true order if they are
      comparable, and the other way round if not. */
  lemma CmpSeen(a: nat, b: nat)
    requires a != b && Abs(a - b) < MAX_SEQNO
    ensures Wire.Cmp(Wrap(a), Wrap(b)) == if Comparable(a, b) then Sign(a - b) else Sign(b - a)
  {
    CmpExact(a, b);
    if Wrap(a) == Wrap(b) { WrapInjective(a, b); }
  }

  /** `p` is on the lap of `h`, and far enough ahead of it to give up on what is before it. */
  predicate LeavesBehind(p: nat, h: nat) {
    Lap(p) == Lap(h) && h + VALID_RANGE <= p <= h + MAX_SEQNO - VALID_RANGE
  }

  /** Of two packets that are both ahead of `next`, the one comparable to it and the other not, the
      wrapped tests of the drain let the second push out the first exactly if it leaves it behind. */
  lemma PushesOut(next: nat, h: nat, p: nat)
    requires 1 <= next < h < next + MAX_SEQNO && next < p < next + MAX_SEQNO
    requires Comparable(h, next) && !Comparable(p, next)
    ensures Wire.Cmp(Wrap(p), Wrap(h)) > 0 && Wire.Cmp(Wrap(p), Wire.Expiry(Wrap(h))) >= 0 <==> LeavesBehind(p, h)
  {
    LapMonotone(next, h);
    LapMonotone(next, p);
    AddWraps(h, VALID_RANGE);
    if p != h { CmpSeen(p, h); }
    if p != h + VALID_RANGE { CmpSeen(p, h + VALID_RANGE); }
    LapSpans(next, p);
    LapSpans(next, h);
    LapSpans(h, h + VALID_RANGE);
  }

  lemma LapSpans(a: nat, b: nat)
    requires 1 <= a <= b < a + MAX_SEQNO
    ensures Lap(a) <= Lap(b) <= Lap(a) + 1
    ensures Lap(a) == Lap(b) ==> b - a == Wrap(b) - Wrap(a)
    ensures Lap(a) != Lap(b) ==> b - a == Wrap(b) - Wrap(a) + MAX_SEQNO
    ensures 1 <= Wrap(a) <= MAX_SEQNO && 1 <= Wrap(b) <= MAX_SEQNO
  {
    WrapDecomposes(a);
    WrapDecomposes(b);
    WrapDistance(a, b);
  }

  /** Draining takes packets out of the buffer, and puts none in. */
  lemma {:induction false} DrainTakes(m: Arith, s: int, rx: Rx)
    ensures var r := Drain(m, s, rx); Held(r) <= Held(rx) && |r.plist| <= |rx.plist|
    decreases |rx.plist|
  {
    if rx.plist != [] {
      var head, tail := rx.plist[0], rx.plist[1..];
      assert rx.plist == [head] + tail;
      if m.Cmp(head.num, rx.next) == 0 {
        DrainTakes(m, s, Rx(m.Next(rx.next), tail, rx.out + [head]));
      } else if m.Cmp(head.num, rx.next) < 0 {
        DrainTakes(m, s, rx.(plist := tail));
      } else if m.Cmp(s, head.num) > 0 && m.Cmp(s, m.Expiry(head.num)) >= 0 {
        DrainTakes(m, s, Rx(m.Next(head.num), tail, rx.out + [head]));
      }
    }
  }

  /** What a packet does that is ahead of the next expected one, but is dropped: it is not kept, and
      the buffer moves only if its head cannot be told from an old packet, or is left behind. */
  lemma DroppedAhead(p: Packet, rx: Rx)
    requires 1 <= rx.next < p.num < rx.next + MAX_SEQNO && !Comparable(p.num, rx.next)
    requires rx.plist != [] ==> rx.next < rx.plist[0].num < rx.next + MAX_SEQNO
    ensures var r := Receive(Wire, WrapPacket(p), WrapRx(rx));
            && Held(r) <= Held(WrapRx(rx))
            && (r != WrapRx(rx) <==>
                  rx.plist != [] && (!Comparable(rx.plist[0].num, rx.next) || LeavesBehind(p.num, rx.plist[0].num)))
            && (rx.plist != [] && Comparable(rx.plist[0].num, rx.next) && LeavesBehind(p.num, rx.plist[0].num) ==>
                  r == Drain(Wire, Wrap(p.num), WrapRx(Pop(rx))))
  {
    TakenExactly(p, rx);
    DrainTakes(Wire, Wrap(p.num), WrapRx(rx));
    if rx.plist != [] { HeadMoves(p.num, rx); }
  }

  lemma HeadMoves(p: nat, rx: Rx)
    requires 1 <= rx.next < p < rx.next + MAX_SEQNO && !Comparable(p, rx.next)
    requires rx.plist != [] && rx.next < rx.plist[0].num < rx.next + MAX_SEQNO
    ensures var r, h := Drain(Wire, Wrap(p), WrapRx(rx)), rx.plist[0].num;
            && (r != WrapRx(rx) <==> !Comparable(h, rx.next) || LeavesBehind(p, h))
            && (Comparable(h, rx.next) && LeavesBehind(p, h) ==> r == Drain(Wire, Wrap(p), WrapRx(Pop(rx))))
  {
    var h, wrx := rx.plist[0].num, WrapRx(rx);
    CmpSeen(h, rx.next);
    if Comparable(h, rx.next) {
      PushesOut(rx.next, h, p);
      PopInStep(rx);
      DrainTakes(Wire, Wrap(p), WrapRx(Pop(rx)));
    } else {
      DrainTakes(Wire, Wrap(p), wrx.(plist := wrx.plist[1..]));
    }
  }

  /** So packets of the next lap are lost from the valid range on, although they may push out what
      is in the buffer: with 49900 awaited and 50050 in the buffer, 50250 gives up on 49900, and is
      itself neither delivered nor buffered, where the true receiver keeps it. */
  lemma LostAcrossTheWrap(p: Packet, q: Packet)
    requires p.num == 50050 && q.num == 50250
    ensures Receive(Wire, WrapPacket(q), WrapRx(Rx(49900, [p], []))) == Rx(51, [], [WrapPacket(p)])
    ensures Receive(Unbounded, q, Rx(49900, [p], [])) == Rx(50051, [q], [p])
  {
    var rx := Rx(49900, [p], []);
    assert Pop(rx) == Rx(50051, [], [p]) by { assert [] + [p] == [p]; }
    DroppedAhead(q, rx);
    assert WrapRx(Pop(rx)) == Rx(51, [], [WrapPacket(p)]);
    assert InsertSorted(Unbounded, [p], q) == [p] + InsertSorted(Unbounded, [], q) == [p, q];
    assert Accept(Unbounded, q, rx) == Rx(49900, [p, q], []);
    assert [p, q][1..] == [q];
    assert Pop(Rx(49900, [p, q], [])) == Rx(50051, [q], [p]) by { assert [] + [p] == [p]; }
    DrainStep(50250, Rx(49900, [p, q], []));
    DrainStep(50250, Rx(50051, [q], [p]));
  }
}
