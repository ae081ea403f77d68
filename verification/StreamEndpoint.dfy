/** The table around the stream connections, for one transaction and one mote: a SYN creates a
    connection, giving up deletes it, and a FIN is acknowledged even when there is none. */
module StreamEndpoint {
  import opened SeqNo
  import opened Receiver
  import opened Ledger
  import opened Stream
  import opened InOrder
  import opened StreamRuns
  import opened StreamFin
  import opened StreamAck
  import opened StreamSteps

  datatype Slot = Gone | Live(c: Conn)

  /** What can arrive; unlike a live connection, an empty slot looks at the number of a SYN. */
  datatype Arrival = NewSyn(num: int) | Other(e: Event)

  predicate Fits(m: Arith, s: Slot, a: Arrival) {
    && (s.Live? ==> s.c.open && m.LastSeen(s.c.last))
    && (match a
        case NewSyn(n) => m.LastSeen(n)
        case Other(e) => CarriedEvent(m, e))
  }

  /** The new slot, and what is sent back. */
  function Dispatch(m: Arith, s: Slot, a: Arrival): (Slot, seq<Reply>)
    requires Fits(m, s, a)
  {
    match s
    case Gone =>
      (match a
       case NewSyn(n) => (Live(Fresh(n).(sent := [SynAck])), [SynAck])
       case Other(Fin(n)) => (Gone, [FinAck(n)])
       case Other(_) => (Gone, []))
    case Live(c) =>
      var c' := Step(m, c, if a.NewSyn? then Syn else a.e);
      SentGrows(m, c, if a.NewSyn? then Syn else a.e);
      (if c'.open then Live(c') else Gone, c'.sent[|c.sent|..])
  }

  lemma AnswerGrows(m: Arith, c: Conn, gap: bool)
    ensures |c.sent| <= |AnswerData(m, c, gap).sent|
  {
    SendNackMoves(m, if c.phase == Passive then c.(phase := NackWait) else c);
  }

  lemma SentGrows(m: Arith, c: Conn, e: Event)
    requires CarriedEvent(m, e) && m.LastSeen(c.last)
    ensures |c.sent| <= |Step(m, c, e).sent|
  {
    match e
    case Fin(n) => SendNackMoves(m, Advance(m, c, n).(timeouts := 0));
    case Data(p, retx) =>
      var c1 := TakeIn(m, c, p, retx);
      assert c1.sent == c.sent;
      AnswerGrows(m, c1, Found(m, c, p.num) != []);
    case Timeout => SendNackMoves(m, c.(timeouts := c.timeouts + 1));
    case _ =>
  }

  /** A connection that waits for missing packets, none of which has expired. */
  predicate Waiting(c: Conn) {
    && c.open && (c.phase == NackWait || c.phase == FinNackWait) && c.timeouts < MAX_TIMEOUTS
    && c.missing != [] && 0 <= c.last && Ascending(c.missing)
    && forall n :: n in c.missing ==> c.last < n + VALID_RANGE
  }

  /** The slot after `k` timeouts. */
  function AfterTimeouts(s: Slot, k: nat): Slot
    requires s.Live? ==> s.c.open && 0 <= s.c.last
    decreases k
  {
    if k == 0 || s.Gone? then s
    else
      var s' := Dispatch(Unbounded, s, Other(Timeout)).0;
      TimeoutKeepsLast(s.c);
      AfterTimeouts(s', k - 1)
  }

  lemma TimeoutKeepsLast(c: Conn)
    ensures OnTimeout(Unbounded, c).last == c.last
  {
  }

  /** A timeout while waiting sends a NACK for the oldest missing numbers, or gives up and says
      nothing. */
  lemma WaitingTimeout(c: Conn)
    requires Waiting(c)
    ensures var s := Dispatch(Unbounded, Live(c), Other(Timeout)).0;
            if c.timeouts + 1 >= MAX_TIMEOUTS then s == Gone
            else s.Live? && Waiting(s.c) && s.c.timeouts == c.timeouts + 1 && s.c.rx == c.rx
    ensures var rs := Dispatch(Unbounded, Live(c), Other(Timeout)).1;
            if c.timeouts + 1 >= MAX_TIMEOUTS then rs == []
            else exists items :: rs == [Nack(c.last, items)] && OldestOf(items, 5, Listed(c))
  {
    FillExact(NACK_SLOTS, c.last, c.missing);
    NoneExpired(c.last, c.missing);
    TimeoutStepTold(c);
    NothingListed(c);
    RepliesNack(c);
  }

  lemma RepliesNack(c: Conn)
    requires Waiting(c) && TimeoutTold(c, OnTimeout(Unbounded, c)) && Listed(c) != {}
    ensures var rs := Dispatch(Unbounded, Live(c), Other(Timeout)).1;
            if c.timeouts + 1 >= MAX_TIMEOUTS then rs == []
            else exists items :: rs == [Nack(c.last, items)] && OldestOf(items, 5, Listed(c))
  {
    var c' := OnTimeout(Unbounded, c);
    if c.timeouts + 1 < MAX_TIMEOUTS {
      assert Listed(c') == Listed(c);
      var items :| Says(c, c', Nack(c'.last, items)) && OldestOf(items, 5, Listed(c'));
      assert c'.sent[|c.sent|..] == [Nack(c.last, items)];
    } else {
      assert c.sent[|c.sent|..] == [];
    }
  }

  /** Giving up ends the promise of the FIN.  A connection whose missing packets are not
      retransmitted in time is deleted, with all that it has buffered; a FIN that comes after that
      is acknowledged at once, whatever the application has missed. */
  lemma {:induction false} GivingUpAcknowledgesFin(c: Conn, fin: int)
    requires Waiting(c) && 1 <= fin
    ensures AfterTimeouts(Live(c), MAX_TIMEOUTS - c.timeouts) == Gone
    ensures Dispatch(Unbounded, AfterTimeouts(Live(c), MAX_TIMEOUTS - c.timeouts), Other(Fin(fin))) ==
            (Gone, [FinAck(fin)])
    decreases MAX_TIMEOUTS - c.timeouts
  {
    WaitingTimeout(c);
    var s := Dispatch(Unbounded, Live(c), Other(Timeout)).0;
    if s.Live? { GivingUpAcknowledgesFin(s.c, fin); }
  }

  // ---------------------------------------------------------------------------
  // Runs of the endpoint
  // ---------------------------------------------------------------------------

  predicate Arrivable(a: Arrival) {
    match a
    case NewSyn(n) => Unbounded.LastSeen(n)
    case Other(e) => CarriedEvent(Unbounded, e)
  }

  predicate ArrivableRun(arrivals: seq<Arrival>) {
    forall i :: 0 <= i < |arrivals| ==> Arrivable(arrivals[i])
  }

  predicate Usable(s: Slot) {
    s.Live? ==> s.c.open && Unbounded.LastSeen(s.c.last)
  }

  lemma DispatchUsable(s: Slot, a: Arrival)
    requires Usable(s) && Arrivable(a)
    ensures Fits(Unbounded, s, a) && Usable(Dispatch(Unbounded, s, a).0)
  {
  }

  /** The slot after the arrivals, from an empty one. */
  function Serve(arrivals: seq<Arrival>): (s: Slot)
    requires ArrivableRun(arrivals)
    ensures Usable(s)
    decreases |arrivals|
  {
    if arrivals == [] then Gone
    else
      var k := |arrivals| - 1;
      DispatchUsable(Serve(arrivals[..k]), arrivals[k]);
      Dispatch(Unbounded, Serve(arrivals[..k]), arrivals[k]).0
  }

  /** What is sent back for the last arrival. */
  function LastReplies(arrivals: seq<Arrival>): seq<Reply>
    requires ArrivableRun(arrivals) && arrivals != []
  {
    var k := |arrivals| - 1;
    DispatchUsable(Serve(arrivals[..k]), arrivals[k]);
    Dispatch(Unbounded, Serve(arrivals[..k]), arrivals[k]).1
  }

  /** The connection that was created last: its SYN, and all that it has seen, SYNs included. */
  datatype Session = None | Session(syn: int, es: seq<Event>)

  function EventOf(a: Arrival): Event {
    if a.NewSyn? then Syn else a.e
  }

  function SessionOf(arrivals: seq<Arrival>): Session
    requires ArrivableRun(arrivals)
    decreases |arrivals|
  {
    if arrivals == [] then None
    else
      var k := |arrivals| - 1;
      var a, before := arrivals[k], SessionOf(arrivals[..k]);
      if Serve(arrivals[..k]).Gone? then (if a.NewSyn? then Session(a.num, [Syn]) else before)
      else if before.Session? then Session(before.syn, before.es + [EventOf(a)])
      else None
  }

  ghost predicate SessionInv(s: Slot, session: Session) {
    match session
    case None => s.Gone?
    case Session(syn, es) =>
      && CarriedRun(Unbounded, es) && 0 <= syn
      && s == (if Run(Unbounded, syn, es).open then Live(Run(Unbounded, syn, es)) else Gone)
  }

  lemma SessionStarts(n: int)
    requires 0 <= n
    ensures CarriedRun(Unbounded, [Syn]) && Run(Unbounded, n, [Syn]) == Fresh(n).(sent := [SynAck])
  {
    assert [Syn][..0] == [] && [] + [SynAck] == [SynAck];
  }

  lemma SessionGoesOn(syn: int, es: seq<Event>, e: Event)
    requires CarriedRun(Unbounded, es) && 0 <= syn && CarriedEvent(Unbounded, e)
    ensures CarriedRun(Unbounded, es + [e])
    ensures Run(Unbounded, syn, es + [e]) == Step(Unbounded, Run(Unbounded, syn, es), e)
  {
    assert (es + [e])[..|es|] == es;
  }

  /** The slot holds the connection of the session, until that is closed. */
  lemma {:induction false} ServesSession(arrivals: seq<Arrival>)
    requires ArrivableRun(arrivals)
    ensures SessionInv(Serve(arrivals), SessionOf(arrivals))
    decreases |arrivals|
  {
    if arrivals != [] {
      var k := |arrivals| - 1;
      var a, s, session := arrivals[k], Serve(arrivals[..k]), SessionOf(arrivals[..k]);
      ServesSession(arrivals[..k]);
      if s.Gone? {
        if a.NewSyn? { SessionStarts(a.num); }
      } else {
        SessionGoesOn(session.syn, session.es, EventOf(a));
      }
    }
  }

  /** What an empty slot does: a SYN creates a connection that expects the number after it, a FIN is
      acknowledged by its own number, and nothing else is answered. */
  lemma EmptySlotTold(a: Arrival)
    requires Arrivable(a)
    ensures var (s, rs) := Dispatch(Unbounded, Gone, a);
            match a
            case NewSyn(n) =>
              rs == [SynAck] && s == Live(Conn(true, Passive, false, 0, n, [], Rx(n + 1, [], []), [SynAck]))
            case Other(e) => s == Gone && rs == if e.Fin? then [FinAck(e.num)] else []
  {
  }

  /** A slot in use does what is told of its connection, sends back what the connection says, and holds
      on to it as long as it is open. */
  ghost predicate SlotTold(c: Conn, e: Event, s: Slot, rs: seq<Reply>) {
    exists c' :: Told(c, e, c') && c'.sent == c.sent + rs && s == if c'.open then Live(c') else Gone
  }

  lemma DispatchTold(c: Conn, a: Arrival)
    requires Fits(Unbounded, Live(c), a) && CarriedEvent(Unbounded, EventOf(a))
    requires Told(c, EventOf(a), Step(Unbounded, c, EventOf(a)))
    requires c.sent <= Step(Unbounded, c, EventOf(a)).sent
    ensures var (s, rs) := Dispatch(Unbounded, Live(c), a); SlotTold(c, EventOf(a), s, rs)
  {
    var c' := Step(Unbounded, c, EventOf(a));
    assert c'.sent == c.sent + c'.sent[|c.sent|..];
  }

  lemma SaysMore(c: Conn, e: Event, c': Conn)
    requires Told(c, e, c')
    ensures c.sent <= c'.sent
  {
  }

  /** So it is in every run. */
  lemma LiveSlotTold(arrivals: seq<Arrival>, a: Arrival)
    requires ArrivableRun(arrivals) && Arrivable(a) && Serve(arrivals).Live? && ArrivableRun(arrivals + [a])
    ensures SlotTold(Serve(arrivals).c, EventOf(a), Serve(arrivals + [a]), LastReplies(arrivals + [a]))
  {
    var c, session := Serve(arrivals).c, SessionOf(arrivals);
    ServesSession(arrivals);
    ServeSnoc(arrivals, a);
    LiveStepTold(session.syn, session.es, EventOf(a));
    SaysMore(c, EventOf(a), Step(Unbounded, c, EventOf(a)));
    DispatchTold(c, a);
  }

  lemma LiveStepTold(syn: int, es: seq<Event>, e: Event)
    requires CarriedRun(Unbounded, es) && 0 <= syn && CarriedEvent(Unbounded, e)
    ensures var c := Run(Unbounded, syn, es); Told(c, e, Step(Unbounded, c, e))
  {
    RunInv(syn, es);
    StepTold(Run(Unbounded, syn, es), syn, e, Log(es), Fins(es));
  }

  // ---------------------------------------------------------------------------
  // What an acknowledgement of the FIN means
  // ---------------------------------------------------------------------------

  predicate Acknowledges(rs: seq<Reply>) {
    exists i :: 0 <= i < |rs| && rs[i].FinAck?
  }

  /** The connection was deleted before it had finished. */
  predicate LeftEarly(c: Conn) {
    !c.open && c.phase != Finished
  }

  /** Why an open connection is deleted: it has finished and lingered; it was to be deleted and had
      nothing to wait for; or it has given up waiting.  The last two are early. */
  lemma DeletedExactly(m: Arith, c: Conn, e: Event)
    requires CarriedEvent(m, e) && m.LastSeen(c.last) && c.open
    ensures !Step(m, c, e).open <==>
            || (c.phase == Finished && (e.Timeout? || e.DeleteTid?))
            || (e.Timeout? && c.phase == Passive && c.deletePending)
            || (e.Timeout? && (c.phase == NackWait || c.phase == FinNackWait) && c.timeouts + 1 >= MAX_TIMEOUTS)
    ensures LeftEarly(Step(m, c, e)) <==> !Step(m, c, e).open && c.phase != Finished
  {
    match e
    case Data(p, retx) => SendNackMoves(m, TakeIn(m, c, p, retx));
    case _ =>
  }

  lemma AcknowledgedNow(c: Conn, c': Conn)
    requires c.sent <= c'.sent && Acknowledges(c'.sent[|c.sent|..])
    ensures Acked(c')
  {
    var i :| 0 <= i < |c'.sent[|c.sent|..]| && c'.sent[|c.sent|..][i].FinAck?;
    assert c'.sent[|c.sent| + i].FinAck?;
  }

  /** A connection that acknowledges is finished from then on, open or not. */
  lemma AckedFinished(syn: int, fin: int, es: seq<Event>)
    requires CarriedRun(Unbounded, es) && 0 <= syn < fin && NearRun(syn, es) && ClosedBy(es, fin)
    ensures Run(Unbounded, syn, es).phase == Finished <==> Acked(Run(Unbounded, syn, es))
    ensures Run(Unbounded, syn, es).phase == Finished ==> Delivered(Run(Unbounded, syn, es), syn, fin, Log(es))
  {
    RunEnds(syn, fin, es);
    if Acked(Run(Unbounded, syn, es)) { FinAckMeansDelivered(syn, fin, es); }
  }

  /** Everything has been delivered exactly if everything has arrived. */
  lemma DeliveredExactly(syn: int, fin: int, es: seq<Event>)
    requires CarriedRun(Unbounded, es) && 0 <= syn < fin && NearRun(syn, es) && ClosedBy(es, fin)
    ensures Delivered(Run(Unbounded, syn, es), syn, fin, Log(es)) <==> AllArrived(Log(es), syn, fin)
  {
    var c, log := Run(Unbounded, syn, es), Log(es);
    RunInv(syn, es);
    RunNear(syn, es);
    LogClosed(es, fin);
    Reassembled(c.rx, log, syn + 1);
    if AllArrived(log, syn, fin) {
      NextBelow(c, syn, fin, log);
      assert c.rx.next == fin;
      if c.rx.plist != [] { BufferBelow(c.rx, log, fin); }
      DoneDelivers(c, syn, fin, log);
    }
    if Delivered(c, syn, fin, log) {
      forall n | syn < n < fin ensures Has(log, n) {
        assert c.rx.out[n - syn - 1].num == n;
        FirstHas(log, c.rx.out[n - syn - 1]);
      }
    }
  }

  /** An acknowledgement by an open connection comes from that connection. */
  lemma LiveAcknowledges(arrivals: seq<Arrival>)
    requires ArrivableRun(arrivals) && arrivals != [] && Acknowledges(LastReplies(arrivals))
    requires Serve(arrivals[..|arrivals| - 1]).Live?
    ensures var session := SessionOf(arrivals);
            session.Session? && CarriedRun(Unbounded, session.es) && 0 <= session.syn
            && Acked(Run(Unbounded, session.syn, session.es))
  {
    var k := |arrivals| - 1;
    var a, session := arrivals[k], SessionOf(arrivals[..k]);
    ServesSession(arrivals[..k]);
    var c := Run(Unbounded, session.syn, session.es);
    SessionGoesOn(session.syn, session.es, EventOf(a));
    PassiveMeansComplete(Unbounded, session.syn, session.es);
    PhaseStep(Unbounded, c, EventOf(a));
    AcknowledgedNow(c, Step(Unbounded, c, EventOf(a)));
  }

  /** What an acknowledgement of the FIN by the endpoint means, over every sequence of arrivals: if
      the session is near and closed by the FIN, everything before the FIN has been delivered exactly
      if the connection was not deleted early, by giving up or by a pending deletion, or everything
      had arrived by then. */
  lemma EndpointFinAck(arrivals: seq<Arrival>, fin: int)
    requires ArrivableRun(arrivals) && arrivals != [] && Acknowledges(LastReplies(arrivals))
    requires var session := SessionOf(arrivals);
             && session.Session? && CarriedRun(Unbounded, session.es) && 0 <= session.syn < fin
             && NearRun(session.syn, session.es) && ClosedBy(session.es, fin)
    ensures var session := SessionOf(arrivals);
            var c := Run(Unbounded, session.syn, session.es);
            Delivered(c, session.syn, fin, Log(session.es)) <==>
              !LeftEarly(c) || AllArrived(Log(session.es), session.syn, fin)
  {
    var k := |arrivals| - 1;
    var session := SessionOf(arrivals);
    var syn, es := session.syn, session.es;
    ServesSession(arrivals);
    ServesSession(arrivals[..k]);
    AckedFinished(syn, fin, es);
    DeliveredExactly(syn, fin, es);
    if Serve(arrivals[..k]).Live? {
      LiveAcknowledges(arrivals);
    } else {
      GoneAcknowledges(arrivals);
    }
  }

  /** An empty slot acknowledges every FIN, and stays empty. */
  lemma GoneAcknowledges(arrivals: seq<Arrival>)
    requires ArrivableRun(arrivals) && arrivals != [] && Serve(arrivals[..|arrivals| - 1]).Gone?
    requires Acknowledges(LastReplies(arrivals))
    ensures SessionOf(arrivals) == SessionOf(arrivals[..|arrivals| - 1]) && Serve(arrivals).Gone?
  {
    var rs := LastReplies(arrivals);
    var i :| 0 <= i < |rs| && rs[i].FinAck?;
  }

  // ---------------------------------------------------------------------------
  // A run on which it means nothing
  // ---------------------------------------------------------------------------

  function Timeouts(k: nat): seq<Arrival> {
    seq(k, i requires 0 <= i < k => Other(Timeout))
  }

  lemma ServeSnoc(arrivals: seq<Arrival>, a: Arrival)
    requires ArrivableRun(arrivals) && Arrivable(a)
    ensures ArrivableRun(arrivals + [a]) && Fits(Unbounded, Serve(arrivals), a)
    ensures Serve(arrivals + [a]) == Dispatch(Unbounded, Serve(arrivals), a).0
    ensures LastReplies(arrivals + [a]) == Dispatch(Unbounded, Serve(arrivals), a).1
  {
    assert (arrivals + [a])[..|arrivals|] == arrivals;
    DispatchUsable(Serve(arrivals), a);
  }

  /** Timeouts, one after the other, wear a waiting connection out. */
  lemma {:induction false} TimeoutsWear(arrivals: seq<Arrival>, k: nat)
    requires ArrivableRun(arrivals) && Serve(arrivals).Live? && Waiting(Serve(arrivals).c)
    requires Serve(arrivals).c.timeouts + k <= MAX_TIMEOUTS
    ensures ArrivableRun(arrivals + Timeouts(k))
    ensures var c, s := Serve(arrivals).c, Serve(arrivals + Timeouts(k));
            if c.timeouts + k >= MAX_TIMEOUTS then s == Gone
            else s.Live? && Waiting(s.c) && s.c.timeouts == c.timeouts + k && s.c.rx == c.rx
  {
    if k == 0 {
      assert arrivals + Timeouts(0) == arrivals;
    } else {
      TimeoutsWear(arrivals, k - 1);
      assert arrivals + Timeouts(k) == arrivals + Timeouts(k - 1) + [Other(Timeout)];
      ServeSnoc(arrivals + Timeouts(k - 1), Other(Timeout));
      WaitingTimeout(Serve(arrivals + Timeouts(k - 1)).c);
    }
  }

  /** The connection that waits for 1 after 2 has come. */
  lemma OneMissing(p: Packet)
    requires p.num == 2
    ensures var start := [NewSyn(0), Other(Data(p, false))];
            && ArrivableRun(start)
            && Serve(start) == Live(Conn(true, NackWait, false, 0, 2, [1], Rx(1, [p], []), [SynAck, Nack(2, [1])]))
  {
    var start := [NewSyn(0)] + [Other(Data(p, false))];
    assert [NewSyn(0)] == [] + [NewSyn(0)];
    assert start == [NewSyn(0), Other(Data(p, false))];
    ServeSnoc([], NewSyn(0));
    var c := Fresh(0).(sent := [SynAck]);
    assert Serve([NewSyn(0)]) == Live(c);
    ServeSnoc([NewSyn(0)], Other(Data(p, false)));
    OneMissingStep(c, p);
  }

  lemma OneMissingStep(c: Conn, p: Packet)
    requires c == Fresh(0).(sent := [SynAck]) && p.num == 2
    ensures OnData(Unbounded, c, p, false) ==
            Conn(true, NackWait, false, 0, 2, [1], Rx(1, [p], []), [SynAck, Nack(2, [1])])
  {
    assert Detect(Unbounded, 2, 0) == [1] + Detect(Unbounded, 2, 1) == [1];
    assert InsertAll([], [1]) == InsertAll([1], []) == [1] by { assert [1][1..] == [] && [] + [1] == [1]; }
    assert InsertPacket(Unbounded, [], p) == [p];
    assert Receive(Unbounded, p, c.rx) == Rx(1, [p], []);
    assert Fill(Unbounded, NACK_SLOTS, 2, [1], []) == ([1], [1]) by { assert [] + [1] == [1]; }
    assert [SynAck] + [Nack(2, [1])] == [SynAck, Nack(2, [1])];
  }

  /** The whole course of it: packet 2 arrives and 1 does not; after fifty timeouts the connection is
      deleted, with packet 2 in its buffer; the FIN that comes then is acknowledged, and the
      application has received nothing. */
  lemma GivenUpRun(p: Packet)
    requires p.num == 2
    ensures var arrivals := [NewSyn(0), Other(Data(p, false))] + Timeouts(MAX_TIMEOUTS) + [Other(Fin(3))];
            && ArrivableRun(arrivals) && LastReplies(arrivals) == [FinAck(3)]
            && Serve([NewSyn(0), Other(Data(p, false))] + Timeouts(MAX_TIMEOUTS - 1)).Live?
            && Serve([NewSyn(0), Other(Data(p, false))] + Timeouts(MAX_TIMEOUTS - 1)).c.rx == Rx(1, [p], [])
  {
    var start := [NewSyn(0), Other(Data(p, false))];
    OneMissing(p);
    assert Waiting(Serve(start).c);
    TimeoutsWear(start, MAX_TIMEOUTS - 1);
    TimeoutsWear(start, MAX_TIMEOUTS);
    ServeSnoc(start + Timeouts(MAX_TIMEOUTS), Other(Fin(3)));
  }
}
