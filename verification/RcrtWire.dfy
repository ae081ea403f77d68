/** The rate-controlled connection as it runs, on wrapped numbers, against the true one. */
module RcrtWire {
  import opened SeqNo
  import opened Receiver
  import opened InOrder
  import opened Ledger
  import opened Rcrt
  import opened RcrtRuns
  import opened RcrtFin
  import opened InStep

  function WrapReply(r: Reply): Reply {
    match r
    case SynAck => SynAck
    case FinAck(n) => FinAck(Wrap(n))
    case Feedback(n, ack, items) => Feedback(Wrap(n), Wrap(ack), WrapNums(items))
  }

  function WrapReplies(rs: seq<Reply>): seq<Reply> {
    seq(|rs|, i requires 0 <= i < |rs| => WrapReply(rs[i]))
  }

  function WrapConn(c: Conn): Conn {
    c.(last := Wrap(c.last), ack := Wrap(c.ack), missing := WrapNums(c.missing),
       rx := WrapRx(c.rx), sent := WrapReplies(c.sent))
  }

  function WrapEvent(e: Event): Event {
    match e
    case Fin(n) => Fin(Wrap(n))
    case Data(p, retx, wanted) => Data(WrapPacket(p), retx, wanted)
    case _ => e
  }

  function WrapEvents(es: seq<Event>): seq<Event> {
    seq(|es|, i requires 0 <= i < |es| => WrapEvent(es[i]))
  }

  lemma WrapCarries(e: Event)
    requires CarriedEvent(Unbounded, e)
    ensures CarriedEvent(Wire, WrapEvent(e))
  {
    match e
    case Fin(n) => WrapDecomposes(n);
    case Data(p, _, _) => WrapDecomposes(p.num);
    case _ =>
  }

  // ---------------------------------------------------------------------------
  // In sight
  // ---------------------------------------------------------------------------

  function Arriving(c: Conn, e: Event): int {
    if e.Data? || e.Fin? then NumOf(e) else c.last
  }

  /** Everything in play is in view. */
  predicate InSight(c: Conn, e: Event) {
    AllInView(Arriving(c, e), c.last, c.rx.next, c.missing)
  }

  predicate SightRun(es: seq<Event>)
    requires CarriedRun(Unbounded, es)
    decreases |es|
  {
    es == [] || (SightRun(es[..|es| - 1]) && InSight(Run(Unbounded, es[..|es| - 1]), es[|es| - 1]))
  }

  // ---------------------------------------------------------------------------
  // Reception
  // ---------------------------------------------------------------------------

  lemma {:induction false} DrainAckInStep(s: int, rx: Rx, ack: int, log: seq<Packet>, lo: nat, hi: nat)
    requires View(lo, hi) && lo <= s <= hi && RxIn(rx, lo, hi) && Orderly(rx, log)
    ensures DrainAck(Wire, Wrap(s), WrapRx(rx), Wrap(ack)) == Wrap(DrainAck(Unbounded, s, rx, ack))
    decreases |rx.plist|
  {
    if rx.plist != [] {
      var head := rx.plist[0];
      assert head in rx.plist;
      ViewCompares(lo, hi, head.num, rx.next);
      ViewCompares(lo, hi, s, head.num);
      if head.num < s { ViewExpires(lo, hi, s, head.num); }
      DrainAckStep(s, rx, ack);
      if Due(s, rx) {
        PopInStep(rx);
        PopKeeps(rx, log);
        PopIn(rx, log, lo, hi);
        DrainAckInStep(s, Pop(rx), if head.num == rx.next then rx.next else s, log, lo, hi);
      }
    }
  }

  lemma ReceiveAckInStep(p: Packet, rx: Rx, ack: int, log: seq<Packet>, lo: nat, hi: nat)
    requires View(lo, hi) && lo <= p.num <= hi && lo <= rx.next <= hi && 1 <= p.num && 1 <= rx.next
    requires PacketsIn(rx.plist, lo, hi) && Orderly(rx, log) && Settled(rx)
    ensures ReceiveAck(Wire, WrapPacket(p), WrapRx(rx), Wrap(ack)) == Wrap(ReceiveAck(Unbounded, p, rx, ack))
  {
    ViewCompares(lo, hi, p.num, rx.next);
    AcceptInStep(p, rx, log, lo, hi);
    AcceptKeeps(p, rx, log);
    DrainAckInStep(p.num, Accept(Unbounded, p, rx), if p.num == rx.next then p.num else ack, log + [p], lo, hi);
  }

  // ---------------------------------------------------------------------------
  // Steps
  // ---------------------------------------------------------------------------

  lemma ReplyInStep(rs: seq<Reply>, r: Reply)
    ensures WrapReplies(rs + [r]) == WrapReplies(rs) + [WrapReply(r)]
  {
  }

  lemma SendFeedbackInStep(c: Conn, lo: nat, hi: nat)
    requires BooksIn(c.last, c.missing, lo, hi)
    ensures SendFeedback(Wire, WrapConn(c)) == WrapConn(SendFeedback(Unbounded, c))
  {
    assert WrapNums([]) == [];
    FillInStep(NACK_SLOTS, c.last, c.missing, [], lo, hi);
    var (kept, items) := Fill(Unbounded, NACK_SLOTS, c.last, c.missing, []);
    ReplyInStep(c.sent, Feedback(c.last, c.ack, items));
  }

  lemma CloseInStep(c: Conn)
    ensures Close(WrapConn(c)) == WrapConn(Close(c))
  {
    ReplyInStep(c.sent, FinAck(c.last));
  }

  lemma AdvanceInStep(c: Conn, s: nat, lo: nat, hi: nat)
    requires BooksIn(c.last, c.missing, lo, hi) && lo <= s <= hi && 1 <= s
    ensures Wire.Carried(Wrap(s)) && Wire.LastSeen(Wrap(c.last))
    ensures Advance(Wire, WrapConn(c), Wrap(s)) == WrapConn(Advance(Unbounded, c, s))
    ensures Found(Wire, WrapConn(c), Wrap(s)) == WrapNums(Found(Unbounded, c, s))
  {
    WrapDecomposes(s);
    WrapDecomposes(c.last);
    ViewCompares(lo, hi, s, c.last);
    if s > c.last {
      GapInStep(c.last, c.missing, s, lo, hi);
    } else {
      assert WrapNums([]) == [];
    }
  }

  lemma AdvanceIn(c: Conn, s: nat, lo: nat, hi: nat)
    requires BooksIn(c.last, c.missing, lo, hi) && lo <= s <= hi && 1 <= s
    ensures var c1 := Advance(Unbounded, c, s); BooksIn(c1.last, c1.missing, lo, hi)
  {
    if s > c.last {
      AdvanceList(c.missing, s, c.last);
    }
  }

  lemma OnFinInStep(c: Conn, n: nat, lo: nat, hi: nat)
    requires BooksIn(c.last, c.missing, lo, hi) && lo <= n <= hi && 1 <= n
    ensures Wire.Carried(Wrap(n)) && Wire.LastSeen(Wrap(c.last))
    ensures OnFin(Wire, WrapConn(c), Wrap(n)) == WrapConn(OnFin(Unbounded, c, n))
  {
    AdvanceInStep(c, n, lo, hi);
    AdvanceIn(c, n, lo, hi);
    var c1 := Advance(Unbounded, c, n);
    CloseInStep(c1);
    SendFeedbackInStep(if c1.phase == FinRetxWait then c1 else c1.(phase := FinRetxWait, timeouts := 0), lo, hi);
    assert WrapConn(c1).missing == [] <==> c1.missing == [];
  }

  lemma RefusedInStep(c: Conn, p: Packet, lo: nat, hi: nat)
    requires BooksIn(c.last, c.missing, lo, hi) && lo <= p.num <= hi
    ensures Refused(Wire, WrapConn(c), WrapPacket(p)) <==> Refused(Unbounded, c, p)
  {
    ViewCompares(lo, hi, p.num, c.last);
    if p.num > c.last { DiffWraps(p.num, c.last); }
  }

  lemma StrikeOffInStep(c: Conn, p: Packet, retx: bool, lo: nat, hi: nat)
    requires BooksIn(c.last, c.missing, lo, hi) && lo <= p.num <= hi
    ensures StrikeOff(Wire, WrapConn(c), WrapPacket(p), retx) == WrapConn(StrikeOff(Unbounded, c, p, retx))
    ensures var c1 := StrikeOff(Unbounded, c, p, retx); BooksIn(c1.last, c1.missing, lo, hi)
  {
    ViewCompares(lo, hi, p.num, c.last);
    DeleteInStep(c.missing, p.num, lo, hi);
    DeleteMembers(c.missing, p.num);
  }

  lemma NewInStep(p: Packet, rx: Rx, lo: nat, hi: nat)
    requires View(lo, hi) && lo <= p.num <= hi && lo <= rx.next <= hi && PacketsIn(rx.plist, lo, hi)
    ensures IsNew(Wire, WrapPacket(p), WrapRx(rx)) <==> IsNew(Unbounded, p, rx)
  {
    ViewCompares(lo, hi, p.num, rx.next);
    HasInStep(rx.plist, p.num, lo, hi);
  }

  lemma TakeInInStep(c: Conn, p: Packet, retx: bool, log: seq<Packet>, lo: nat, hi: nat)
    requires BooksIn(c.last, c.missing, lo, hi) && lo <= p.num <= hi && 1 <= p.num
    requires lo <= c.rx.next <= hi && 1 <= c.rx.next && PacketsIn(c.rx.plist, lo, hi)
    requires Orderly(c.rx, log) && Settled(c.rx)
    ensures Wire.Carried(Wrap(p.num)) && Wire.LastSeen(Wrap(c.last))
    ensures TakeIn(Wire, WrapConn(c), WrapPacket(p), retx) == WrapConn(TakeIn(Unbounded, c, p, retx))
    ensures var c1 := TakeIn(Unbounded, c, p, retx); BooksIn(c1.last, c1.missing, lo, hi)
  {
    StrikeOffInStep(c, p, retx, lo, hi);
    var c1 := StrikeOff(Unbounded, c, p, retx);
    AdvanceInStep(c1, p.num, lo, hi);
    AdvanceIn(c1, p.num, lo, hi);
    NewInStep(p, c.rx, lo, hi);
    ReceiveInStep(p, c.rx, log, lo, hi);
    ReceiveAckInStep(p, c.rx, c.ack, log, lo, hi);
  }

  lemma OnDataInStep(c: Conn, p: Packet, retx: bool, wanted: bool, log: seq<Packet>, lo: nat, hi: nat)
    requires BooksIn(c.last, c.missing, lo, hi) && lo <= p.num <= hi && 1 <= p.num
    requires lo <= c.rx.next <= hi && 1 <= c.rx.next && PacketsIn(c.rx.plist, lo, hi)
    requires Orderly(c.rx, log) && Settled(c.rx)
    ensures Wire.Carried(Wrap(p.num)) && Wire.LastSeen(Wrap(c.last))
    ensures OnData(Wire, WrapConn(c), WrapPacket(p), retx, wanted) == WrapConn(OnData(Unbounded, c, p, retx, wanted))
  {
    RefusedInStep(c, p, lo, hi);
    AdvanceInStep(c, p.num, lo, hi);
    TakeInInStep(c, p, retx, log, lo, hi);
    var c1 := TakeIn(Unbounded, c, p, retx);
    CloseInStep(c1);
    SendFeedbackInStep(c1, lo, hi);
    SendFeedbackInStep(c1.(phase := Active), lo, hi);
    SendFeedbackInStep(c1.(phase := NackWait), lo, hi);
    assert WrapConn(c1).missing == [] <==> c1.missing == [];
  }

  lemma StepInStep(c: Conn, e: Event, log: seq<Packet>, fins: set<int>)
    requires Inv(c, log, fins) && CarriedEvent(Unbounded, e) && InSight(c, e)
    ensures Wire.LastSeen(Wrap(c.last)) && CarriedEvent(Wire, WrapEvent(e))
    ensures Step(Wire, WrapConn(c), WrapEvent(e)) == WrapConn(Step(Unbounded, c, e))
  {
    WrapDecomposes(c.last);
    WrapCarries(e);
    var n := Arriving(c, e);
    BooksInView(c.rx, c.last, c.missing, 0, log, fins, n);
    var lo, hi := Oldest(n, c.last, c.rx.next, c.missing), Newest(n, c.last, c.rx.next);
    match e
    case Syn => ReplyInStep(c.sent, SynAck);
    case Fin(_) => OnFinInStep(c, n, lo, hi);
    case Data(p, retx, wanted) => OnDataInStep(c, p, retx, wanted, log, lo, hi);
    case Timeout(decreased) =>
      var t := c.timeouts + 1;
      SendFeedbackInStep(c.(timeouts := if t >= 2 && decreased then 0 else t), lo, hi);
  }

  /** Refinement: as long as the numbers in play stay in sight of each other, the connection
      that works on 16-bit numbers does on every run exactly what the true one does. */
  lemma {:induction false} RunInStep(es: seq<Event>)
    requires CarriedRun(Unbounded, es) && SightRun(es)
    ensures CarriedRun(Wire, WrapEvents(es))
    ensures Run(Wire, WrapEvents(es)) == WrapConn(Run(Unbounded, es))
    decreases |es|
  {
    forall i | 0 <= i < |es| ensures CarriedEvent(Wire, WrapEvents(es)[i]) { WrapCarries(es[i]); }
    if es == [] {
      assert WrapConn(FRESH) == FRESH;
    } else {
      var k := |es| - 1;
      RunInStep(es[..k]);
      RunInv(es[..k]);
      assert WrapEvents(es)[..k] == WrapEvents(es[..k]);
      StepInStep(Run(Unbounded, es[..k]), es[k], Log(Unbounded, es[..k]), Fins(es[..k]));
    }
  }

  /** Event `e` is no more than `behind` behind and less than `ahead` ahead of the next number. */
  predicate CloseBy(c: Conn, e: Event, behind: nat, ahead: nat) {
    e.Data? || e.Fin? ==> c.rx.next - behind <= NumOf(e) < c.rx.next + ahead
  }

  predicate CloseRun(es: seq<Event>, behind: nat, ahead: nat)
    requires CarriedRun(Unbounded, es)
    decreases |es|
  {
    es == [] ||
    (CloseRun(es[..|es| - 1], behind, ahead) &&
     CloseBy(Run(Unbounded, es[..|es| - 1]), es[|es| - 1], behind, ahead))
  }

  /** While nothing is skipped, nothing before the next expected number is missing. */
  lemma NoneBefore(c: Conn, log: seq<Packet>, fins: set<int>)
    requires Inv(c, log, fins) && NearInv(c)
    ensures c.missing != [] ==> c.rx.next <= c.missing[0]
  {
    Reassembled(c.rx, log, 1);
    assert c.missing != [] ==> c.missing[0] in c.missing;
  }

  lemma CloseStep(c: Conn, e: Event, log: seq<Packet>, fins: set<int>, behind: nat, ahead: nat)
    requires Inv(c, log, fins) && NearInv(c)
    requires 1 <= behind && 1 <= ahead && behind + ahead <= VALID_RANGE && c.last < c.rx.next + ahead
    requires CarriedEvent(Unbounded, e) && CloseBy(c, e, behind, ahead)
    ensures InSight(c, e) && Step(Unbounded, c, e).last < Step(Unbounded, c, e).rx.next + ahead
  {
    NoneBefore(c, log, fins);
    WindowInView(Arriving(c, e), c.last, c.rx.next, c.missing, behind, ahead);
    StepShape(Unbounded, c, e);
    if e.Data? { ReceiveKeeps(e.p, c.rx, log); }
  }

  /** A condition on the arrivals alone: if all of them lie in a window around the next expected
      number that is no wider than the valid range, everything in play stays in sight, wherever
      the numbers wrap around. */
  lemma {:induction false} CloseInSight(es: seq<Event>, behind: nat, ahead: nat)
    requires CarriedRun(Unbounded, es) && 1 <= behind && 1 <= ahead && behind + ahead <= VALID_RANGE
    requires CloseRun(es, behind, ahead)
    ensures NearRun(es) && SightRun(es)
    ensures var c := Run(Unbounded, es); c.last < c.rx.next + ahead
    decreases |es|
  {
    if es != [] {
      var k := |es| - 1;
      CloseInSight(es[..k], behind, ahead);
      RunInv(es[..k]);
      RunNear(es[..k]);
      CloseStep(Run(Unbounded, es[..k]), es[k], Log(Unbounded, es[..k]), Fins(es[..k]), behind, ahead);
    }
  }

  /** On the wire, as long as everything is in sight: the FIN is acknowledged exactly when it and
      everything before it have come; the application then holds exactly one packet for every
      number up to the FIN, in order, with the payload that was taken in first. */
  lemma FinAckInSight(fin: int, es: seq<Event>)
    requires CarriedRun(Unbounded, es) && SightRun(es) && 0 < fin && NearRun(es) && ClosedBy(es, fin)
    requires CarriedRun(Wire, WrapEvents(es))
    ensures Acked(Run(Wire, WrapEvents(es))) <==> fin in Fins(es) && forall n :: 0 < n < fin ==> Came(es, n)
    ensures var rx := Run(Wire, WrapEvents(es)).rx;
            Acked(Run(Wire, WrapEvents(es))) ==>
              && |rx.out| == fin - 1 && rx.plist == []
              && forall i :: 0 <= i < |rx.out| ==>
                   rx.out[i].num == Wrap(i + 1) && IsFirst(Log(Unbounded, es), Packet(i + 1, rx.out[i].data))
  {
    RunInStep(es);
    var c := Run(Unbounded, es);
    AckedInStep(c);
    FinAckedExactly(fin, es);
    if Acked(c) {
      FinAckMeansDelivered(fin, es);
      DeliveredInStep(c.rx, Log(Unbounded, es));
    }
  }

  /** The same from a condition on the arrivals alone. */
  lemma FinAckOnTheWire(fin: int, es: seq<Event>, behind: nat, ahead: nat)
    requires CarriedRun(Unbounded, es) && 0 < fin && ClosedBy(es, fin)
    requires 1 <= behind && 1 <= ahead && behind + ahead <= VALID_RANGE && CloseRun(es, behind, ahead)
    requires CarriedRun(Wire, WrapEvents(es))
    ensures Acked(Run(Wire, WrapEvents(es))) <==> fin in Fins(es) && forall n :: 0 < n < fin ==> Came(es, n)
    ensures var rx := Run(Wire, WrapEvents(es)).rx;
            Acked(Run(Wire, WrapEvents(es))) ==>
              && |rx.out| == fin - 1 && rx.plist == []
              && forall i :: 0 <= i < |rx.out| ==>
                   rx.out[i].num == Wrap(i + 1) && IsFirst(Log(Unbounded, es), Packet(i + 1, rx.out[i].data))
  {
    CloseInSight(es, behind, ahead);
    FinAckInSight(fin, es);
  }

  lemma DeliveredInStep(rx: Rx, log: seq<Packet>)
    requires forall i :: 0 <= i < |rx.out| ==> rx.out[i].num == i + 1 && IsFirst(log, rx.out[i])
    ensures var out := WrapRx(rx).out;
            && |out| == |rx.out|
            && forall i :: 0 <= i < |out| ==> out[i].num == Wrap(i + 1) && IsFirst(log, Packet(i + 1, out[i].data))
  {
    var out := WrapRx(rx).out;
    forall i | 0 <= i < |out| ensures out[i].num == Wrap(i + 1) && IsFirst(log, Packet(i + 1, out[i].data)) {
      assert rx.out[i] == Packet(i + 1, out[i].data);
    }
  }

  lemma AckedInStep(c: Conn)
    ensures Acked(WrapConn(c)) <==> Acked(c)
  {
    if Acked(c) {
      var i :| 0 <= i < |c.sent| && c.sent[i].FinAck?;
      assert WrapConn(c).sent[i].FinAck?;
    }
    if Acked(WrapConn(c)) {
      var i :| 0 <= i < |WrapConn(c).sent| && WrapConn(c).sent[i].FinAck?;
      assert c.sent[i].FinAck?;
    }
  }
}
