/** What every step of a rate-controlled connection does, told without its functions: the missing list
    as a set, the gaps and what is in range by their bounds, and a feedback by what it acknowledges
    and asks for.

    `Told` determines the next state, up to the order in which a list is written, from the last one. */
module RcrtSteps {
  import opened SeqNo
  import opened Receiver
  import opened InOrder
  import opened Deliveries
  import opened Ledger
  import opened Rcrt
  import opened RcrtRuns

  /** The numbers listed as missing. */
  ghost function Listed(c: Conn): set<int> {
    set n | n in c.missing
  }

  /** The numbers strictly between `last` and `s`. */
  ghost function Between(last: int, s: int): set<int> {
    set n: int | last < n < s && Inside(last, s, n)
  }

  predicate Inside(last: int, s: int, n: int) {
    last < n < s
  }

  function Later(a: int, b: int): int {
    if a >= b then a else b
  }

  ghost predicate SaysNothing(c: Conn, c': Conn) {
    c'.sent == c.sent
  }

  ghost predicate Says(c: Conn, c': Conn, r: Reply) {
    c'.sent == c.sent + [r]
  }

  /** One feedback is sent, with the newest number and the acknowledgement.  What is missing is cut
      down to what is in range of the newest number, and the ten oldest of that, or all if fewer, are
      asked for in order. */
  ghost predicate Asks(c: Conn, c': Conn, missing: set<int>) {
    && Listed(c') == (set n | n in missing && c'.last < n + 200)
    && exists items :: Says(c, c', Feedback(c'.last, c'.ack, items)) && OldestOf(items, 10, Listed(c'))
  }

  ghost predicate SynTold(c: Conn, c': Conn) {
    c' == c.(sent := c'.sent) && Says(c, c', SynAck)
  }

  /** A FIN is acknowledged at once, and the connection deleted, if nothing is missing before it; if
      something is, it is asked for, and with the first FIN the count of timeouts starts again. */
  ghost predicate FinTold(c: Conn, s: int, c': Conn) {
    var missing := Listed(c) + Between(c.last, s);
    && c'.rx == c.rx && c'.ack == c.ack && c'.last == Later(c.last, s)
    && if missing == {}
       then && !c'.open && c'.phase == c.phase && Listed(c') == {} && c'.timeouts == c.timeouts
            && Says(c, c', FinAck(c'.last))
       else && c'.open == c.open && c'.phase == FinRetxWait && Asks(c, c', missing)
            && c'.timeouts == if c.phase == FinRetxWait then c.timeouts else 0
  }

  /** What is missing after a packet: not the packet, if it is flagged or late, but the gap before it. */
  ghost function MissingAfter(c: Conn, p: Packet, retx: bool): set<int> {
    Listed(c) - (if retx || p.num < c.last then {p.num} else {}) + Between(c.last, p.num)
  }

  /** What a packet does to the deliveries: it counts if it is still awaited and not in the buffer. */
  ghost predicate TakenTold(c: Conn, p: Packet, c': Conn) {
    if p.num >= c.rx.next && !Has(c.rx.plist, p.num) then
      && DeliveryTold(p, c.rx, c'.rx) && c'.timeouts == 0
      && AckTold(p.num, c.rx.next, HandedUp(c.rx, c'.rx), c.ack, c'.ack)
    else
      c'.rx == c.rx && c'.ack == c.ack && c'.timeouts == c.timeouts
  }

  /** Data is answered by the acknowledgement of the FIN, if that has come and nothing is missing any
      more; and otherwise by a feedback, if it reveals a gap or a feedback is wanted for another reason. */
  ghost predicate DataAnswered(c: Conn, p: Packet, retx: bool, wanted: bool, c': Conn) {
    var missing := MissingAfter(c, p, retx);
    && c'.last == Later(c.last, p.num)
    && if missing == {} && c.phase == FinRetxWait then
         !c'.open && c'.phase == c.phase && Listed(c') == {} && Says(c, c', FinAck(c'.last))
       else
         && c'.open == c.open
         && c'.phase == (if c.phase == FinRetxWait then c.phase else if missing == {} then Active else NackWait)
         && if Between(c.last, p.num) != {} || wanted then Asks(c, c', missing)
            else SaysNothing(c, c') && Listed(c') == missing
  }

  /** Data more than 100 ahead of the newest number changes nothing. */
  ghost predicate DataTold(c: Conn, p: Packet, retx: bool, wanted: bool, c': Conn) {
    if p.num > c.last + 100 then c' == c else TakenTold(c, p, c') && DataAnswered(c, p, retx, wanted, c')
  }

  /** A timeout is answered by a feedback unless the connection is active.  The count goes up, or, from
      the second on, back to nothing if the rates have been decreased. */
  ghost predicate TimeoutTold(c: Conn, decreased: bool, c': Conn) {
    if c.phase == Active then c' == c
    else
      && c'.rx == c.rx && c'.ack == c.ack && c'.last == c.last && c'.phase == c.phase && c'.open == c.open
      && c'.timeouts == (if c.timeouts >= 1 && decreased then 0 else c.timeouts + 1)
      && Asks(c, c', Listed(c))
  }

  ghost predicate Told(c: Conn, e: Event, c': Conn) {
    match e
    case Syn => SynTold(c, c')
    case Fin(s) => FinTold(c, s, c')
    case Data(p, retx, wanted) => DataTold(c, p, retx, wanted, c')
    case Timeout(decreased) => TimeoutTold(c, decreased, c')
  }

  // ---------------------------------------------------------------------------
  // Every step
  // ---------------------------------------------------------------------------

  lemma NothingListed(c: Conn)
    ensures Listed(c) == {} <==> c.missing == []
  {
    if c.missing != [] { assert c.missing[0] in Listed(c); }
  }

  lemma GapNonempty(last: int, s: int)
    ensures Between(last, s) == {} <==> s <= last + 1
  {
    if s > last + 1 { assert last + 1 in Between(last, s); }
  }

  /** A feedback, in terms of sets. */
  lemma FeedbackAsks(c: Conn)
    requires Ascending(c.missing)
    ensures var c' := SendFeedback(Unbounded, c);
            Asks(c, c', Listed(c)) && c' == c.(missing := c'.missing, sent := c'.sent)
  {
    FillOldest(NACK_SLOTS, c.last, c.missing);
    var (kept, items) := Fill(Unbounded, NACK_SLOTS, c.last, c.missing, []);
    var c' := SendFeedback(Unbounded, c);
    assert Listed(c') == Wanted(c.last, c.missing);
    assert Says(c, c', Feedback(c'.last, c'.ack, items));
  }

  /** What is listed after an arrival numbered `s`. */
  lemma AdvanceLists(c: Conn, s: int)
    requires Ascending(c.missing) && (forall n :: n in c.missing ==> 0 < n < c.last) && 0 <= c.last && 1 <= s
    ensures var c1 := Advance(Unbounded, c, s);
            && Listed(c1) == Listed(c) + Between(c.last, s) && Ascending(c1.missing)
            && c1 == c.(missing := c1.missing, last := Later(c.last, s))
  {
    if s > c.last { AdvanceList(c.missing, s, c.last); }
  }

  lemma FinStepTold(c: Conn, s: int, log: seq<Packet>, fins: set<int>)
    requires Inv(c, log, fins) && 1 <= s
    ensures FinTold(c, s, OnFin(Unbounded, c, s))
  {
    var c1 := Advance(Unbounded, c, s);
    AdvanceLists(c, s);
    NothingListed(c1);
    FeedbackAsks(if c1.phase == FinRetxWait then c1 else c1.(phase := FinRetxWait, timeouts := 0));
  }

  /** How draining moves the acknowledgement. */
  lemma {:induction false} DrainAckTold(s: int, rx: Rx, ack: int)
    requires Ahead(rx)
    ensures var r := Drain(Unbounded, s, rx);
            rx.out <= r.out && AckTold(s, rx.next, HandedUp(rx, r), ack, DrainAck(Unbounded, s, rx, ack))
    decreases |rx.plist|
  {
    assert rx.plist != [] ==> rx.plist[0] in rx.plist;
    DrainStep(s, rx);
    DrainAckStep(s, rx, ack);
    if Due(s, rx) {
      var r := Drain(Unbounded, s, rx);
      PopAhead(rx);
      DrainAckTold(s, Pop(rx), if rx.plist[0].num == rx.next then rx.next else s);
      assert HandedUp(rx, r) == [rx.plist[0]] + HandedUp(Pop(rx), r);
    }
  }

  lemma ReceiveAckTold(p: Packet, rx: Rx, ack: int)
    requires Ahead(rx) && Settled(rx)
    ensures var r := Receive(Unbounded, p, rx);
            rx.out <= r.out && AckTold(p.num, rx.next, HandedUp(rx, r), ack, ReceiveAck(Unbounded, p, rx, ack))
  {
    var a, r := Accept(Unbounded, p, rx), Receive(Unbounded, p, rx);
    NextNotBuffered(rx);
    AcceptAhead(p, rx);
    DrainAckTold(p.num, a, if p.num == rx.next then p.num else ack);
    if p.num == rx.next { assert HandedUp(rx, r) == [p] + HandedUp(a, r); }
  }

  lemma AcceptAhead(p: Packet, rx: Rx)
    requires Ahead(rx) && !Has(rx.plist, rx.next)
    ensures Ahead(Accept(Unbounded, p, rx))
  {
    if p.num > rx.next { InsertPacketKeeps(rx.plist, p); }
    forall q | q in rx.plist ensures q.num > rx.next { HasMember(rx.plist, q); }
  }

  /** What a packet does to the deliveries, in the functions that compute it. */
  predicate Taken(c: Conn, p: Packet, c': Conn) {
    if IsNew(Unbounded, p, c.rx) then
      && c'.rx == Receive(Unbounded, p, c.rx) && c'.ack == ReceiveAck(Unbounded, p, c.rx, c.ack)
      && c'.timeouts == 0
    else
      c'.rx == c.rx && c'.ack == c.ack && c'.timeouts == c.timeouts
  }

  lemma TakenAsTold(c: Conn, p: Packet, c': Conn)
    requires Taken(c, p, c') && Ahead(c.rx) && Settled(c.rx)
    ensures TakenTold(c, p, c')
  {
    ReceiveTold(p, c.rx);
    ReceiveAckTold(p, c.rx, c.ack);
  }

  lemma TakeInShape(c: Conn, p: Packet, retx: bool)
    requires 0 <= c.last && 1 <= p.num
    ensures var c1 := TakeIn(Unbounded, c, p, retx);
            && Taken(c, p, c1) && c1.missing == Advance(Unbounded, StrikeOff(Unbounded, c, p, retx), p.num).missing
            && c1.last == Later(c.last, p.num)
            && c1.open == c.open && c1.phase == c.phase && c1.sent == c.sent
  {
  }

  lemma StrikeOffLists(c: Conn, p: Packet, retx: bool)
    requires Ascending(c.missing)
    ensures var c1 := StrikeOff(Unbounded, c, p, retx);
            && Listed(c1) == Listed(c) - (if retx || p.num < c.last then {p.num} else {})
            && Ascending(c1.missing) && c1.last == c.last && forall n :: n in c1.missing ==> n in c.missing
  {
    DeleteMembers(c.missing, p.num);
    var c1 := StrikeOff(Unbounded, c, p, retx);
    if retx || p.num < c.last { Struck(c, c1, p.num); } else { assert Listed(c) - {} == Listed(c); }
  }

  lemma Struck(c: Conn, c1: Conn, x: int)
    requires forall n :: n in c1.missing <==> n in c.missing && n != x
    ensures Listed(c1) == Listed(c) - {x}
  {
    assert forall n :: n in Listed(c1) <==> n in Listed(c) - {x};
  }

  lemma TakeInLists(c: Conn, p: Packet, retx: bool, log: seq<Packet>, fins: set<int>)
    requires Inv(c, log, fins) && 1 <= p.num
    ensures var c1 := TakeIn(Unbounded, c, p, retx);
            && Listed(c1) == MissingAfter(c, p, retx) && Ascending(c1.missing) && Taken(c, p, c1)
            && c1.last == Later(c.last, p.num)
            && c1.open == c.open && c1.phase == c.phase && c1.sent == c.sent
  {
    var c0 := StrikeOff(Unbounded, c, p, retx);
    StrikeOffLists(c, p, retx);
    AdvanceLists(c0, p.num);
    TakeInShape(c, p, retx);
    assert Listed(TakeIn(Unbounded, c, p, retx)) == Listed(Advance(Unbounded, c0, p.num));
  }

  lemma RevealsGap(c: Conn, p: Packet)
    requires 1 <= p.num && 0 <= c.last
    ensures Found(Unbounded, c, p.num) != [] <==> Between(c.last, p.num) != {}
  {
    GapNonempty(c.last, p.num);
    if p.num > c.last { DetectIsRange(p.num, c.last); }
  }

  /** How a packet that has been taken in is answered. */
  lemma AnswerTold(c: Conn, feedback: bool)
    requires Ascending(c.missing)
    ensures var c' := AnswerData(Unbounded, c, feedback);
            && c'.rx == c.rx && c'.ack == c.ack && c'.timeouts == c.timeouts && c'.last == c.last
            && if Listed(c) == {} && c.phase == FinRetxWait then
                 !c'.open && c'.phase == c.phase && Listed(c') == {} && Says(c, c', FinAck(c.last))
               else
                 && c'.open == c.open
                 && c'.phase == (if c.phase == FinRetxWait then c.phase
                                 else if c.phase == NackWait && Listed(c) == {} then Active
                                 else if c.phase == Active && Listed(c) != {} then NackWait else c.phase)
                 && if feedback then Asks(c, c', Listed(c)) else SaysNothing(c, c') && Listed(c') == Listed(c)
  {
    NothingListed(c);
    var c1 := Settle(c);
    assert Listed(c1) == Listed(c) && c1.sent == c.sent && c1.last == c.last && c1.ack == c.ack;
    FeedbackAsks(c1);
  }

  lemma DataAnswers(c: Conn, p: Packet, retx: bool, wanted: bool, log: seq<Packet>, fins: set<int>)
    requires Inv(c, log, fins) && 1 <= p.num <= c.last + 100
    ensures var c' := OnData(Unbounded, c, p, retx, wanted);
            Taken(c, p, c') && DataAnswered(c, p, retx, wanted, c')
  {
    TakeInLists(c, p, retx, log, fins);
    RevealsGap(c, p);
    AnswerTold(TakeIn(Unbounded, c, p, retx), Found(Unbounded, c, p.num) != [] || wanted);
  }

  lemma DataStepTold(c: Conn, p: Packet, retx: bool, wanted: bool, log: seq<Packet>, fins: set<int>)
    requires Inv(c, log, fins) && 1 <= p.num
    ensures DataTold(c, p, retx, wanted, OnData(Unbounded, c, p, retx, wanted))
  {
    if p.num <= c.last + 100 {
      DataAnswers(c, p, retx, wanted, log, fins);
      TakenAsTold(c, p, OnData(Unbounded, c, p, retx, wanted));
    }
  }

  lemma TimeoutStepTold(c: Conn, decreased: bool)
    requires Ascending(c.missing)
    ensures TimeoutTold(c, decreased, OnTimeout(Unbounded, c, decreased))
  {
    var t := c.timeouts + 1;
    var c1 := c.(timeouts := if t >= 2 && decreased then 0 else t);
    assert Listed(c1) == Listed(c);
    FeedbackAsks(c1);
  }

  lemma StepTold(c: Conn, e: Event, log: seq<Packet>, fins: set<int>)
    requires Inv(c, log, fins) && CarriedEvent(Unbounded, e)
    ensures Told(c, e, Step(Unbounded, c, e))
  {
    match e
    case Syn =>
    case Fin(s) => FinStepTold(c, s, log, fins);
    case Data(p, retx, wanted) => DataStepTold(c, p, retx, wanted, log, fins);
    case Timeout(decreased) => TimeoutStepTold(c, decreased);
  }

  /** Over every run, the next event does exactly what is told. */
  lemma RunTold(es: seq<Event>, e: Event)
    requires CarriedRun(Unbounded, es + [e]) && CarriedRun(Unbounded, es)
    ensures Told(Run(Unbounded, es), e, Run(Unbounded, es + [e]))
  {
    RunInv(es);
    assert (es + [e])[..|es|] == es && (es + [e])[|es|] == e;
    StepTold(Run(Unbounded, es), e, Log(Unbounded, es), Fins(es));
  }

  /** And it begins with nothing seen. */
  lemma RunBegins()
    ensures Run(Unbounded, []) == Conn(true, Active, 0, 0, 0, [], Rx(1, [], []), [])
  {
  }

  /** Over near runs, a feedback sent with something missing asks first for the next expected packet,
      and acknowledges the one before it. */
  lemma FeedbackAsksForNext(fin: int, es: seq<Event>, e: Event, r: Reply)
    requires CarriedRun(Unbounded, es + [e]) && NearRun(es + [e]) && Fins(es + [e]) <= {fin}
    requires var c' := Run(Unbounded, es + [e]); c'.last <= fin && c'.missing != []
    requires CarriedRun(Unbounded, es) && r.Feedback?
    requires Run(Unbounded, es + [e]).sent == Run(Unbounded, es).sent + [r]
    ensures var next := Run(Unbounded, es + [e]).rx.next;
            r.ack == next - 1 && r.items != [] && r.items[0] == next
  {
    var c, c' := Run(Unbounded, es), Run(Unbounded, es + [e]);
    RunTold(es, e);
    RunInv(es + [e]);
    RunNear(es + [e]);
    assert c'.sent[|c.sent|] == r;
    SaysFeedback(c, e, c', r);
    NextIsLeastMissing(fin, es + [e]);
    NothingListed(c');
    FirstAsked(r.items, Listed(c'), c'.rx.next);
  }

  lemma SaysFeedback(c: Conn, e: Event, c': Conn, r: Reply)
    requires Told(c, e, c') && c'.sent == c.sent + [r] && r.Feedback?
    ensures r.num == c'.last && r.ack == c'.ack && OldestOf(r.items, 10, Listed(c'))
  {
    assert c'.sent[|c.sent|] == r;
  }

  /** Over every run, no feedback asks for a number that has ever been taken in. */
  lemma FeedbackSparesTaken(es: seq<Event>, e: Event, r: Reply)
    requires CarriedRun(Unbounded, es + [e]) && CarriedRun(Unbounded, es) && r.Feedback?
    requires Run(Unbounded, es + [e]).sent == Run(Unbounded, es).sent + [r]
    ensures forall n :: n in r.items ==> !Has(Log(Unbounded, es + [e]), n)
  {
    RunTold(es, e);
    SaysFeedback(Run(Unbounded, es), e, Run(Unbounded, es + [e]), r);
    NeverMissesHeld(es + [e]);
  }

  lemma FirstAsked(items: seq<int>, missing: set<int>, next: int)
    requires OldestOf(items, 10, missing) && next in missing && forall n :: n in missing ==> next <= n
    ensures items != [] && items[0] == next
  {
    assert missing != {};
    assert |missing| > 0;
    assert items[0] in items;
    OldestFirst(items, 10, missing);
  }

  /** While nothing is skipped, the next expected number is the least one missing, as long as any is. */
  lemma NextIsLeastMissing(fin: int, es: seq<Event>)
    requires CarriedRun(Unbounded, es) && NearRun(es) && Fins(es) <= {fin}
    requires var c := Run(Unbounded, es); c.last <= fin && c.missing != []
    ensures var c := Run(Unbounded, es); c.rx.next in Listed(c) && forall n :: n in Listed(c) ==> c.rx.next <= n
  {
    AsksForNextFirst(fin, es);
    var c := Run(Unbounded, es);
    RunInv(es);
    FillExact(NACK_SLOTS, c.last, c.missing);
    assert c.missing[0] == c.rx.next;
  }
}
