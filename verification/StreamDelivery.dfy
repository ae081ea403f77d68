/** What a stream connection on 16-bit numbers delivers, and when it may acknowledge the FIN, as long
    as arrivals stay in a window around the next expected number.

    Here nothing is asked of the missing list.  Without the flag of a retransmission it keeps numbers
    that have long been delivered, and these may fall out of sight.  They delay the acknowledgement
    of the FIN, but they touch neither the deliveries nor the numbers that are still awaited. */
module StreamDelivery {
  import opened SeqNo
  import opened Receiver
  import opened InOrder
  import opened Ledger
  import opened Stream
  import opened StreamRuns
  import opened StreamFin
  import opened InStep
  import opened StreamWire

  lemma WrapCarriesAll(es: seq<Event>)
    requires CarriedRun(Unbounded, es)
    ensures CarriedRun(Wire, WrapEvents(es))
  {
    forall i | 0 <= i < |es| ensures CarriedEvent(Wire, WrapEvents(es)[i]) { WrapCarries(es[i]); }
  }

  /** The connection that works on 16-bit numbers, after the true events `es`. */
  function WireRun(syn: int, es: seq<Event>): (w: Conn)
    requires CarriedRun(Unbounded, es) && 0 <= syn < MAX_SEQNO
    ensures Wire.LastSeen(w.last)
  {
    WrapCarriesAll(es);
    Run(Wire, syn, WrapEvents(es))
  }

  lemma WireRunSnoc(syn: int, es: seq<Event>)
    requires CarriedRun(Unbounded, es) && 0 <= syn < MAX_SEQNO && es != []
    ensures var k := |es| - 1;
            && CarriedEvent(Wire, WrapEvent(es[k]))
            && WireRun(syn, es) == Step(Wire, WireRun(syn, es[..k]), WrapEvent(es[k]))
  {
    var k := |es| - 1;
    WrapCarriesAll(es);
    WrapCarries(es[k]);
    assert WrapEvents(es)[..k] == WrapEvents(es[..k]);
  }

  // ---------------------------------------------------------------------------
  // Deliveries
  // ---------------------------------------------------------------------------

  /** The two connections have delivered and buffered the same, and seen the same newest number. */
  predicate SameDelivery(w: Conn, c: Conn) {
    w.rx == WrapRx(c.rx) && w.last == Wrap(c.last)
  }

  /** The window that the next expected number, the newest one and an arrival `n` lie in. */
  function Low(c: Conn, n: int): int {
    Min(n, c.rx.next - 1)
  }

  function High(c: Conn, n: int): int {
    Max(n, Max(c.last, c.rx.next))
  }

  /** The newest number is inside the window. */
  predicate Ahead(c: Conn, ahead: nat) {
    c.last < c.rx.next + ahead
  }

  lemma InWindow(c: Conn, syn: int, n: int, log: seq<Packet>, fins: set<int>, behind: nat, ahead: nat)
    requires Inv(c, syn, log, fins) && Ahead(c, ahead)
    requires 1 <= behind && 1 <= ahead && behind + ahead <= VALID_RANGE
    requires 1 <= n && c.rx.next - behind <= n < c.rx.next + ahead
    ensures 0 <= Low(c, n) && View(Low(c, n), High(c, n))
    ensures Low(c, n) < c.rx.next <= High(c, n) && Low(c, n) <= c.last <= High(c, n)
    ensures PacketsIn(c.rx.plist, Low(c, n), High(c, n))
  {
  }

  lemma CloseIsNear(c: Conn, e: Event, behind: nat, ahead: nat)
    requires CloseBy(c, e, behind, ahead) && ahead <= VALID_RANGE
    ensures Near(c, e)
  {
  }

  lemma LastInStep(w: Conn, c: Conn, s: nat, lo: nat, hi: nat)
    requires View(lo, hi) && lo <= s <= hi && lo <= c.last <= hi && w.last == Wrap(c.last)
    ensures Wire.Cmp(Wrap(s), w.last) == Unbounded.Cmp(s, c.last)
  {
    ViewCompares(lo, hi, s, c.last);
  }

  lemma DeliveryStep(w: Conn, c: Conn, syn: int, e: Event, log: seq<Packet>, fins: set<int>, behind: nat, ahead: nat)
    requires Inv(c, syn, log, fins) && Ahead(c, ahead) && SameDelivery(w, c) && Wire.LastSeen(w.last)
    requires 1 <= behind && 1 <= ahead && behind + ahead <= VALID_RANGE
    requires CarriedEvent(Unbounded, e) && CarriedEvent(Wire, WrapEvent(e)) && CloseBy(c, e, behind, ahead)
    ensures SameDelivery(Step(Wire, w, WrapEvent(e)), Step(Unbounded, c, e))
    ensures Ahead(Step(Unbounded, c, e), ahead)
  {
    StepShape(Unbounded, c, e);
    StepShape(Wire, w, WrapEvent(e));
    if e.Data? || e.Fin? {
      var n := NumOf(e);
      var lo, hi := Low(c, n), High(c, n);
      InWindow(c, syn, n, log, fins, behind, ahead);
      LastInStep(w, c, n, lo, hi);
      if e.Data? {
        ReceiveInStep(e.p, c.rx, log, lo, hi);
        ReceiveKeeps(e.p, c.rx, log);
      }
    }
  }

  /** The deliveries refine: as long as arrivals lie in a window around the next expected number no
      wider than the valid range, the connection that works on 16-bit numbers delivers and buffers
      exactly what the true one does, however packets are flagged and wherever numbers wrap. */
  lemma {:induction false} DeliveryInStep(syn: int, es: seq<Event>, behind: nat, ahead: nat)
    requires CarriedRun(Unbounded, es) && 0 <= syn < MAX_SEQNO
    requires 1 <= behind && 1 <= ahead && behind + ahead <= VALID_RANGE && CloseRun(syn, es, behind, ahead)
    ensures SameDelivery(WireRun(syn, es), Run(Unbounded, syn, es))
    ensures NearRun(syn, es) && Ahead(Run(Unbounded, syn, es), ahead)
    decreases |es|
  {
    if es == [] {
      assert WrapRx(Fresh(syn).rx) == Rx(syn + 1, [], []);
    } else {
      var k := |es| - 1;
      var c := Run(Unbounded, syn, es[..k]);
      DeliveryInStep(syn, es[..k], behind, ahead);
      RunInv(syn, es[..k]);
      CloseIsNear(c, es[k], behind, ahead);
      WireRunSnoc(syn, es);
      DeliveryStep(WireRun(syn, es[..k]), c, syn, es[k], Log(es[..k]), Fins(es[..k]), behind, ahead);
    }
  }

  // ---------------------------------------------------------------------------
  // The numbers awaited
  // ---------------------------------------------------------------------------

  /** Number `n` is still to come. */
  ghost predicate Awaited(c: Conn, fin: int, n: int) {
    c.rx.next <= n <= c.last && n != fin && !Has(c.rx.plist, n)
  }

  /** Every number that is still to come is in a list of missing ones, as it is carried. */
  ghost predicate Listed(missing: seq<int>, c: Conn, fin: int) {
    forall n {:trigger Awaited(c, fin, n)} :: Awaited(c, fin, n) ==> Wrap(n) in missing
  }

  lemma {:induction false} InsertAllMembers(l: seq<int>, xs: seq<int>)
    ensures forall x :: x in InsertAll(l, xs) <==> x in l || x in xs
    decreases |xs|
  {
    if xs != [] {
      assert xs == [xs[0]] + xs[1..];
      InsertAllMembers(Insert(l, xs[0]), xs[1..]);
    }
  }

  lemma {:induction false} DeleteOthers(l: seq<int>, x: int, y: int)
    requires y in l && y != x
    ensures y in Delete(l, x)
  {
    assert l == [l[0]] + l[1..];
    if l[0] != x && l[0] != y { DeleteOthers(l[1..], x, y); }
  }

  /** Building a NACK does not strike off a number that is in range. */
  lemma {:induction false} FillSpares(m: Arith, slots: nat, last: int, l: seq<int>, items: seq<int>, x: int)
    requires |items| <= slots && x in l && !Expired(m, last, x)
    ensures x in Fill(m, slots, last, l, items).0
    decreases slots - |items| + |l|
  {
    var i := |items|;
    if i < slots && i < |l| {
      if Expired(m, last, l[i]) {
        DeleteLength(l, l[i]);
        DeleteOthers(l, l[i], x);
        FillSpares(m, slots, last, Delete(l, l[i]), items, x);
      } else {
        FillSpares(m, slots, last, l, items + [l[i]], x);
      }
    }
  }

  lemma SendNackSpares(m: Arith, c: Conn, x: int)
    requires x in c.missing && !Expired(m, c.last, x)
    ensures x in SendNack(m, c).missing
  {
    FillSpares(m, NACK_SLOTS, c.last, c.missing, [], x);
  }

  /** The newest number has come, so it is not awaited. */
  lemma LastNotAwaited(c: Conn, syn: int, fin: int, log: seq<Packet>)
    requires Inv(c, syn, log, {fin})
    ensures !Awaited(c, fin, c.last)
  {
  }

  /** A number that is still to come has not expired. */
  lemma AwaitedInRange(w: Conn, c: Conn, syn: int, fin: int, log: seq<Packet>, ahead: nat, n: int)
    requires Inv(c, syn, log, {fin}) && Ahead(c, ahead) && 1 <= ahead < VALID_RANGE && w.last == Wrap(c.last)
    requires Awaited(c, fin, n)
    ensures !Expired(Wire, w.last, Wrap(n))
  {
    LastNotAwaited(c, syn, fin, log);
    ViewExpires(n, c.last, c.last, n);
  }

  lemma ListedAfterNack(w: Conn, c: Conn, syn: int, fin: int, log: seq<Packet>, ahead: nat)
    requires Inv(c, syn, log, {fin}) && Ahead(c, ahead) && 1 <= ahead < VALID_RANGE && w.last == Wrap(c.last)
    requires Listed(w.missing, c, fin)
    ensures Listed(SendNack(Wire, w).missing, c, fin)
  {
    forall n {:trigger Awaited(c, fin, n)} | Awaited(c, fin, n) ensures Wrap(n) in SendNack(Wire, w).missing {
      AwaitedInRange(w, c, syn, fin, log, ahead, n);
      SendNackSpares(Wire, w, Wrap(n));
    }
  }

  /** Moving up to a newer number lists the gap. */
  lemma ListedAfterAdvance(w: Conn, c: Conn, fin: int, s: nat, lo: nat, hi: nat)
    requires View(lo, hi) && lo <= s <= hi && lo <= c.last <= hi && w.last == Wrap(c.last)
    requires Wire.Carried(Wrap(s)) && Wire.LastSeen(w.last) && Unbounded.Carried(s) && Unbounded.LastSeen(c.last)
    requires Listed(w.missing, c, fin)
    ensures forall n {:trigger Wrap(n)} :: Awaited(Advance(Unbounded, c, s), fin, n) && n != s ==>
              Wrap(n) in Advance(Wire, w, Wrap(s)).missing
  {
    LastInStep(w, c, s, lo, hi);
    if s > c.last {
      var d := Detect(Unbounded, s, c.last);
      DetectInStep(s, c.last, lo, hi);
      DetectIsRange(s, c.last);
      InsertAllMembers(w.missing, WrapNums(d));
      forall n {:trigger Wrap(n)} | Awaited(Advance(Unbounded, c, s), fin, n) && n != s
        ensures Wrap(n) in Advance(Wire, w, Wrap(s)).missing
      {
        if n <= c.last {
          assert Awaited(c, fin, n);
        } else {
          assert WrapNums(d)[n - c.last - 1] == Wrap(n);
        }
      }
    } else {
      assert Advance(Unbounded, c, s) == c && Advance(Wire, w, Wrap(s)) == w;
    }
  }

  /** What is still to come after the arrival of data was before, or is in the new gap; and it is
      not the packet that has arrived. */
  lemma AwaitedBefore(c: Conn, p: Packet, retx: bool, fin: int, log: seq<Packet>, n: int)
    requires Orderly(c.rx, log) && Settled(c.rx) && Unbounded.Carried(p.num) && Unbounded.LastSeen(c.last)
    requires Awaited(TakeIn(Unbounded, c, p, retx), fin, n)
    ensures n != p.num && Awaited(Advance(Unbounded, c, p.num), fin, n)
  {
    ReceiveKeeps(p, c.rx, log);
    if n == p.num || Has(c.rx.plist, n) { StillHeld(p, c.rx, log, n); }
  }

  lemma ListedAfterData(w: Conn, c: Conn, syn: int, fin: int, p: Packet, retx: bool, log: seq<Packet>, lo: nat, hi: nat)
    requires Inv(c, syn, log, {fin}) && SameDelivery(w, c) && Listed(w.missing, c, fin)
    requires View(lo, hi) && lo <= p.num <= hi && lo <= c.last <= hi && lo < c.rx.next && 1 <= p.num
    requires Wire.Carried(Wrap(p.num)) && Wire.LastSeen(w.last)
    ensures Listed(TakeIn(Wire, w, WrapPacket(p), retx).missing, TakeIn(Unbounded, c, p, retx), fin)
  {
    var c1 := TakeIn(Unbounded, c, p, retx);
    var listed := Advance(Wire, w, Wrap(p.num)).missing;
    ListedAfterAdvance(w, c, fin, p.num, lo, hi);
    ReceiveKeeps(p, c.rx, log);
    forall n {:trigger Awaited(c1, fin, n)} | Awaited(c1, fin, n)
      ensures Wrap(n) in TakeIn(Wire, w, WrapPacket(p), retx).missing
    {
      AwaitedBefore(c, p, retx, fin, log, n);
      assert Wrap(n) in listed;
      ViewCompares(lo, hi, n, p.num);
      if retx { DeleteOthers(listed, Wrap(p.num), Wrap(n)); }
    }
  }

  lemma SameAwaited(c: Conn, c': Conn, missing: seq<int>, fin: int)
    requires Listed(missing, c, fin) && c'.rx == c.rx && c'.last == c.last
    ensures Listed(missing, c', fin)
  {
    forall n {:trigger Awaited(c', fin, n)} | Awaited(c', fin, n) ensures Wrap(n) in missing {
      assert Awaited(c, fin, n);
    }
  }

  // ---------------------------------------------------------------------------
  // Steps
  // ---------------------------------------------------------------------------

  /** The replies to a FIN or a timeout leave the list alone, or send a NACK. */
  lemma FinShape(m: Arith, w: Conn, s: int)
    requires m.Carried(s) && m.LastSeen(w.last)
    ensures var w1, w' := Advance(m, w, s), OnFin(m, w, s);
            w'.missing == w1.missing || w'.missing == SendNack(m, w1).missing
  {
  }

  lemma TimeoutShape(m: Arith, w: Conn)
    ensures var w' := OnTimeout(m, w); w'.missing == w.missing || w'.missing == SendNack(m, w).missing
  {
  }

  lemma FinListed(w: Conn, c: Conn, syn: int, fin: int, log: seq<Packet>, lo: nat, hi: nat, ahead: nat)
    requires Inv(c, syn, log, {fin}) && Listed(w.missing, c, fin) && w.last == Wrap(c.last) && c.last <= fin
    requires View(lo, hi) && lo <= fin <= hi && lo <= c.last <= hi && 1 <= fin < c.rx.next + ahead
    requires Wire.Carried(Wrap(fin)) && Wire.LastSeen(w.last) && 1 <= ahead < VALID_RANGE
    ensures Listed(OnFin(Wire, w, Wrap(fin)).missing, OnFin(Unbounded, c, fin), fin)
  {
    var c1, w1 := Advance(Unbounded, c, fin), Advance(Wire, w, Wrap(fin));
    ListedAfterAdvance(w, c, fin, fin, lo, hi);
    LastInStep(w, c, fin, lo, hi);
    forall n {:trigger Awaited(c1, fin, n)} | Awaited(c1, fin, n) ensures Wrap(n) in w1.missing {}
    AdvanceInv(c, syn, fin, log, {fin});
    assert {fin} + {fin} == {fin};
    ListedAfterNack(w1, c1, syn, fin, log, ahead);
    FinShape(Wire, w, Wrap(fin));
    StepShape(Unbounded, c, Fin(fin));
    SameAwaited(c1, OnFin(Unbounded, c, fin), OnFin(Wire, w, Wrap(fin)).missing, fin);
  }

  lemma DataListed(w: Conn, c: Conn, syn: int, fin: int, p: Packet, retx: bool, log: seq<Packet>, lo: nat, hi: nat, ahead: nat)
    requires Inv(c, syn, log, {fin}) && SameDelivery(w, c) && Listed(w.missing, c, fin)
    requires View(lo, hi) && lo <= p.num <= hi && lo <= c.last <= hi && lo < c.rx.next && 1 <= p.num
    requires Wire.Carried(Wrap(p.num)) && Wire.LastSeen(w.last) && 1 <= ahead < VALID_RANGE
    requires Ahead(OnData(Unbounded, c, p, retx), ahead)
    requires SameDelivery(OnData(Wire, w, WrapPacket(p), retx), OnData(Unbounded, c, p, retx))
    ensures Listed(OnData(Wire, w, WrapPacket(p), retx).missing, OnData(Unbounded, c, p, retx), fin)
  {
    var c1, w1 := TakeIn(Unbounded, c, p, retx), TakeIn(Wire, w, WrapPacket(p), retx);
    ListedAfterData(w, c, syn, fin, p, retx, log, lo, hi);
    OnDataShape(Unbounded, c, p, retx);
    OnDataShape(Wire, w, WrapPacket(p), retx);
    TakeInInv(c, syn, p, retx, log, {fin});
    ListedAfterNack(w1, c1, syn, fin, log + [p], ahead);
    SameAwaited(c1, OnData(Unbounded, c, p, retx), OnData(Wire, w, WrapPacket(p), retx).missing, fin);
  }

  lemma TimeoutListed(w: Conn, c: Conn, syn: int, fin: int, log: seq<Packet>, ahead: nat)
    requires Inv(c, syn, log, {fin}) && Ahead(c, ahead) && 1 <= ahead < VALID_RANGE && w.last == Wrap(c.last)
    requires Listed(w.missing, c, fin)
    ensures Listed(OnTimeout(Wire, w).missing, OnTimeout(Unbounded, c), fin)
  {
    ListedAfterNack(w, c, syn, fin, log, ahead);
    TimeoutShape(Wire, w);
    StepShape(Unbounded, c, Timeout);
    SameAwaited(c, OnTimeout(Unbounded, c), OnTimeout(Wire, w).missing, fin);
  }

  lemma StepListed(w: Conn, c: Conn, syn: int, fin: int, e: Event, log: seq<Packet>, behind: nat, ahead: nat)
    requires Inv(c, syn, log, {fin}) && Ahead(c, ahead) && SameDelivery(w, c) && Wire.LastSeen(w.last)
    requires 1 <= behind && 1 <= ahead && behind + ahead <= VALID_RANGE && c.last <= fin && 1 <= fin
    requires CarriedEvent(Unbounded, e) && CarriedEvent(Wire, WrapEvent(e)) && CloseBy(c, e, behind, ahead)
    requires e.Fin? ==> e.num == fin
    requires Listed(w.missing, c, fin)
    ensures Listed(Step(Wire, w, WrapEvent(e)).missing, Step(Unbounded, c, e), fin)
  {
    match e
    case Fin(n) =>
      InWindow(c, syn, fin, log, {fin}, behind, ahead);
      FinListed(w, c, syn, fin, log, Low(c, fin), High(c, fin), ahead);
    case Data(p, retx) =>
      InWindow(c, syn, p.num, log, {fin}, behind, ahead);
      DeliveryStep(w, c, syn, e, log, {fin}, behind, ahead);
      DataListed(w, c, syn, fin, p, retx, log, Low(c, p.num), High(c, p.num), ahead);
    case Timeout => TimeoutListed(w, c, syn, fin, log, ahead);
    case _ =>
      StepShape(Unbounded, c, e);
      SameAwaited(c, Step(Unbounded, c, e), w.missing, fin);
  }

  // ---------------------------------------------------------------------------
  // The FIN
  // ---------------------------------------------------------------------------

  predicate FinSeen(w: Conn) {
    w.phase == FinNackWait || w.phase == Finished
  }

  /** Only a FIN makes a connection wait for the end. */
  lemma OnlyByFin(m: Arith, w: Conn, e: Event)
    requires CarriedEvent(m, e) && m.LastSeen(w.last) && !FinSeen(w) && !e.Fin?
    ensures !FinSeen(Step(m, w, e))
  {
  }

  /** When nothing is awaited up to the FIN, everything has been delivered. */
  lemma NothingAwaited(c: Conn, syn: int, fin: int, log: seq<Packet>)
    requires Inv(c, syn, log, {fin}) && NearInv(c, syn) && LogBelow(log, fin) && syn < fin && c.last == fin
    requires Listed([], c, fin)
    ensures Done(c, fin)
  {
    NextBelow(c, syn, fin, log);
    NextNotBuffered(c.rx);
    if c.rx.next < fin { assert Awaited(c, fin, c.rx.next); }
    if c.rx.plist != [] { BufferBelow(c.rx, log, fin); }
  }

  /** The connection that works on 16-bit numbers has seen the FIN only if the true one has, and has
      acknowledged it only when everything before it has been delivered. */
  ghost predicate FinTogether(w: Conn, c: Conn, fin: int) {
    && c.last <= fin
    && (FinSeen(w) ==> c.last == fin)
    && (w.phase == Finished || Acked(w) ==> Done(c, fin))
  }

  lemma FinTogetherStep(w: Conn, c: Conn, syn: int, fin: int, e: Event, log: seq<Packet>)
    requires Inv(c, syn, log, {fin}) && NearInv(c, syn) && LogBelow(log, fin) && syn < fin
    requires FinTogether(w, c, fin) && PhaseInv(w) && Wire.LastSeen(w.last)
    requires CarriedEvent(Unbounded, e) && CarriedEvent(Wire, WrapEvent(e)) && Near(c, e) && ClosedBy([e], fin)
    requires Listed(Step(Wire, w, WrapEvent(e)).missing, Step(Unbounded, c, e), fin)
    ensures FinTogether(Step(Wire, w, WrapEvent(e)), Step(Unbounded, c, e), fin)
  {
    assert [e][0] == e;
    var w', c' := Step(Wire, w, WrapEvent(e)), Step(Unbounded, c, e);
    StepShape(Unbounded, c, e);
    if !FinSeen(w) && !e.Fin? { OnlyByFin(Wire, w, WrapEvent(e)); }
    if w.phase == Finished || Acked(w) {
      DoneStays(c, fin, e);
    } else if w'.phase == Finished || Acked(w') {
      PhaseStep(Wire, w, WrapEvent(e));
      if Acked(w') { AckedByMove(w, w'); }
      StepInv(c, syn, e, log, {fin});
      NearStep(c, syn, e, log, {fin});
      assert {fin} + FinOf(e) == {fin};
      NothingAwaited(c', syn, fin, log + LogOf(e));
    }
  }

  lemma {:induction false} RunTogether(syn: int, fin: int, es: seq<Event>, behind: nat, ahead: nat)
    requires CarriedRun(Unbounded, es) && 0 <= syn < MAX_SEQNO && syn < fin
    requires 1 <= behind && 1 <= ahead && behind + ahead <= VALID_RANGE
    requires CloseRun(syn, es, behind, ahead) && ClosedBy(es, fin)
    ensures FinTogether(WireRun(syn, es), Run(Unbounded, syn, es), fin)
    ensures Listed(WireRun(syn, es).missing, Run(Unbounded, syn, es), fin)
    decreases |es|
  {
    if es != [] {
      var k := |es| - 1;
      var c, w := Run(Unbounded, syn, es[..k]), WireRun(syn, es[..k]);
      ClosedByPrefix(es, fin);
      assert [es[k]][0] == es[k];
      RunTogether(syn, fin, es[..k], behind, ahead);
      DeliveryInStep(syn, es[..k], behind, ahead);
      RunInv(syn, es[..k]);
      RunNear(syn, es[..k]);
      LogClosed(es[..k], fin);
      InvWeakens(c, syn, Log(es[..k]), Fins(es[..k]), {fin});
      CloseIsNear(c, es[k], behind, ahead);
      WireRunSnoc(syn, es);
      WrapCarriesAll(es[..k]);
      PassiveMeansComplete(Wire, syn, WrapEvents(es[..k]));
      StepListed(w, c, syn, fin, es[k], Log(es[..k]), behind, ahead);
      FinTogetherStep(w, c, syn, fin, es[k], Log(es[..k]));
    }
  }

  /** FIN completeness on 16-bit numbers, from a condition on the arrivals alone: when the connection
      has acknowledged the FIN, the application has been handed exactly one packet for every number
      between the SYN and the FIN, in order, with the payload that arrived first under it. */
  lemma FinAckOnTheWire(syn: int, fin: int, es: seq<Event>, behind: nat, ahead: nat)
    requires CarriedRun(Unbounded, es) && 0 <= syn < MAX_SEQNO && syn < fin
    requires 1 <= behind && 1 <= ahead && behind + ahead <= VALID_RANGE
    requires CloseRun(syn, es, behind, ahead) && ClosedBy(es, fin) && Acked(WireRun(syn, es))
    ensures var rx := WireRun(syn, es).rx;
            && |rx.out| == fin - (syn + 1) && rx.plist == []
            && forall i :: 0 <= i < |rx.out| ==>
                 rx.out[i].num == Wrap(syn + 1 + i) && IsFirst(Log(es), Packet(syn + 1 + i, rx.out[i].data))
  {
    var c := Run(Unbounded, syn, es);
    RunTogether(syn, fin, es, behind, ahead);
    DeliveryInStep(syn, es, behind, ahead);
    RunInv(syn, es);
    RunNear(syn, es);
    DoneDelivers(c, syn, fin, Log(es));
    DeliveredInStep(c, syn, fin, Log(es));
  }
}
