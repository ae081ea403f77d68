/** What every step of a stream connection does, told without its functions: the missing list as a
    set, the gaps and what is in range by their bounds, and a NACK by what it asks for.

    `Told` determines the next state, up to the order in which a list is written, from the last one. */
module StreamSteps {
  import opened SeqNo
  import opened Receiver
  import opened InOrder
  import opened Deliveries
  import opened Ledger
  import opened Stream
  import opened StreamRuns
  import opened StreamAck

  /** The numbers listed as missing. */
  ghost function Listed(c: Conn): set<int> {
    set n | n in c.missing
  }

  /** The numbers strictly between `last` and `s`. */
  ghost function Between(last: int, s: int): set<int> {
    set n: int | last < n < s && Inside(last, s, n)
  }

  predicate Inside(last: int, s: int, n: int) {
    last < n < s
  }

  function Later(a: int, b: int): int {
    if a >= b then a else b
  }

  ghost predicate SaysNothing(c: Conn, c': Conn) {
    c'.sent == c.sent
  }

  ghost predicate Says(c: Conn, c': Conn, r: Reply) {
    c'.sent == c.sent + [r]
  }

  /** One NACK is sent.  What was to be asked for is cut down to what is in range of the newest
      number, and the five oldest of that, or all if fewer, are asked for in order. */
  ghost predicate Asks(c: Conn, c': Conn, missing: set<int>) {
    && Listed(c') == (set n | n in missing && c'.last < n + 200)
    && exists items :: Says(c, c', Nack(c'.last, items)) && OldestOf(items, 5, Listed(c'))
  }

  ghost predicate SynTold(c: Conn, c': Conn) {
    c' == c.(sent := c'.sent) && Says(c, c', SynAck)
  }

  /** A FIN is acknowledged at once if nothing is missing before it; if something is, it is asked
      for, and the count of timeouts starts again. */
  ghost predicate FinTold(c: Conn, s: int, c': Conn) {
    var missing := Listed(c) + Between(c.last, s);
    && c'.rx == c.rx && c'.open == c.open && c'.deletePending == c.deletePending
    && c'.last == Later(c.last, s)
    && if missing == {}
       then c'.phase == Finished && Listed(c') == {} && c'.timeouts == c.timeouts && Says(c, c', FinAck(c'.last))
       else c'.phase == FinNackWait && c'.timeouts == 0 && Asks(c, c', missing)
  }

  /** Data that reveals a gap is answered by a NACK.  Other data is answered only if the FIN has come
      and nothing is missing any more.  The count of timeouts starts again. */
  ghost predicate DataAnswered(c: Conn, p: Packet, retx: bool, c': Conn) {
    var gap := Between(c.last, p.num);
    var missing := Listed(c) + gap - (if retx then {p.num} else {});
    && c'.open == c.open && c'.deletePending == c.deletePending
    && c'.last == Later(c.last, p.num) && c'.timeouts == 0
    && if gap != {} then
         c'.phase == (if c.phase == Passive then NackWait else c.phase) && Asks(c, c', missing)
       else
         && Listed(c') == missing
         && if missing == {} && c.phase == FinNackWait
            then c'.phase == Finished && Says(c, c', FinAck(c'.last))
            else c'.phase == (if missing == {} && c.phase == NackWait then Passive else c.phase) && SaysNothing(c, c')
  }

  ghost predicate DataTold(c: Conn, p: Packet, retx: bool, c': Conn) {
    DeliveryTold(p, c.rx, c'.rx) && DataAnswered(c, p, retx, c')
  }

  /** A timeout deletes a connection that has finished, that is passive and to be deleted, or that
      has now waited fifty times in a row.  One that goes on waiting asks again for what is missing,
      and if nothing is, goes back to being passive or acknowledges the FIN. */
  ghost predicate TimeoutTold(c: Conn, c': Conn) {
    if c.phase == Finished || (c.phase == Passive && c.deletePending) then c' == c.(open := false)
    else if c.phase == Passive then c' == c
    else if c.timeouts + 1 >= 50 then c' == c.(timeouts := c.timeouts + 1, open := false)
    else
      && c'.rx == c.rx && c'.open == c.open && c'.deletePending == c.deletePending && c'.last == c.last
      && c'.timeouts == c.timeouts + 1
      && if Listed(c) != {} then c'.phase == c.phase && Asks(c, c', Listed(c))
         else
           && Listed(c') == {}
           && if c.phase == NackWait then c'.phase == Passive && SaysNothing(c, c')
              else c'.phase == Finished && Says(c, c', FinAck(c.last))
  }

  /** A request to delete is met at once if the connection has finished, and otherwise remembered. */
  ghost predicate DeleteTold(c: Conn, c': Conn) {
    c' == if c.phase == Finished then c.(open := false) else c.(deletePending := true)
  }

  ghost predicate Told(c: Conn, e: Event, c': Conn) {
    match e
    case Syn => SynTold(c, c')
    case Fin(s) => FinTold(c, s, c')
    case Data(p, retx) => DataTold(c, p, retx, c')
    case Timeout => TimeoutTold(c, c')
    case DeleteTid => DeleteTold(c, c')
  }

  // ---------------------------------------------------------------------------
  // Every step
  // ---------------------------------------------------------------------------

  lemma NothingListed(c: Conn)
    ensures Listed(c) == {} <==> c.missing == []
  {
    if c.missing != [] { assert c.missing[0] in Listed(c); }
  }

  lemma GapNonempty(last: int, s: int)
    ensures Between(last, s) == {} <==> s <= last + 1
  {
    if s > last + 1 { assert last + 1 in Between(last, s); }
  }

  /** A NACK, in terms of sets. */
  lemma NackAsks(c: Conn)
    requires Ascending(c.missing) && c.missing != []
    ensures var c' := SendNack(Unbounded, c);
            Asks(c, c', Listed(c)) && c' == c.(missing := c'.missing, sent := c'.sent)
  {
    FillOldest(NACK_SLOTS, c.last, c.missing);
    var (kept, items) := Fill(Unbounded, NACK_SLOTS, c.last, c.missing, []);
    var c' := SendNack(Unbounded, c);
    assert Listed(c') == Wanted(c.last, c.missing);
    assert Says(c, c', Nack(c'.last, items));
  }

  /** What is listed after an arrival numbered `s`. */
  lemma AdvanceLists(c: Conn, s: int)
    requires Ascending(c.missing) && (forall n :: n in c.missing ==> 0 < n < c.last) && 0 <= c.last && 1 <= s
    ensures var c1 := Advance(Unbounded, c, s);
            && Listed(c1) == Listed(c) + Between(c.last, s) && Ascending(c1.missing)
            && c1 == c.(missing := c1.missing, last := Later(c.last, s))
  {
    if s > c.last { AdvanceList(c.missing, s, c.last); }
  }

  lemma FinStepTold(c: Conn, syn: int, s: int, log: seq<Packet>, fins: set<int>)
    requires Inv(c, syn, log, fins) && 1 <= s
    ensures FinTold(c, s, OnFin(Unbounded, c, s))
  {
    var c1 := Advance(Unbounded, c, s);
    AdvanceLists(c, s);
    NothingListed(c1);
    if c1.missing != [] { NackAsks(c1.(timeouts := 0)); }
  }

  lemma TakeInLists(c: Conn, syn: int, p: Packet, retx: bool, log: seq<Packet>, fins: set<int>)
    requires Inv(c, syn, log, fins) && 1 <= p.num
    ensures var c1 := TakeIn(Unbounded, c, p, retx);
            && Listed(c1) == Listed(c) + Between(c.last, p.num) - (if retx then {p.num} else {})
            && Ascending(c1.missing)
            && c1 == c.(missing := c1.missing, last := Later(c.last, p.num), timeouts := 0,
                        rx := Receive(Unbounded, p, c.rx))
  {
    AdvanceLists(c, p.num);
    DeleteMembers(Advance(Unbounded, c, p.num).missing, p.num);
  }

  lemma RevealsGap(c: Conn, p: Packet)
    requires 1 <= p.num && 0 <= c.last
    ensures Found(Unbounded, c, p.num) != [] <==> Between(c.last, p.num) != {}
  {
    GapNonempty(c.last, p.num);
    if p.num > c.last { DetectIsRange(p.num, c.last); }
  }

  lemma DataAnswers(c: Conn, syn: int, p: Packet, retx: bool, log: seq<Packet>, fins: set<int>)
    requires Inv(c, syn, log, fins) && 1 <= p.num
    ensures DataAnswered(c, p, retx, OnData(Unbounded, c, p, retx))
  {
    var c1 := TakeIn(Unbounded, c, p, retx);
    TakeInLists(c, syn, p, retx, log, fins);
    RevealsGap(c, p);
    NothingListed(c1);
    if Between(c.last, p.num) != {} {
      assert c.last + 1 in Between(c.last, p.num) by { GapNonempty(c.last, p.num); }
      assert c.last + 1 in Listed(c1);
      NackAsks(if c1.phase == Passive then c1.(phase := NackWait) else c1);
    }
  }

  lemma DataReceives(c: Conn, p: Packet, retx: bool)
    requires 0 <= c.last && 1 <= p.num
    ensures OnData(Unbounded, c, p, retx).rx == Receive(Unbounded, p, c.rx)
  {
  }

  lemma DataStepTold(c: Conn, syn: int, p: Packet, retx: bool, log: seq<Packet>, fins: set<int>)
    requires Inv(c, syn, log, fins) && 1 <= p.num
    ensures DataTold(c, p, retx, OnData(Unbounded, c, p, retx))
  {
    DataAnswers(c, syn, p, retx, log, fins);
    DataReceives(c, p, retx);
    ReceiveTold(p, c.rx);
  }

  lemma TimeoutStepTold(c: Conn)
    requires Ascending(c.missing)
    ensures TimeoutTold(c, OnTimeout(Unbounded, c))
  {
    var c1 := c.(timeouts := c.timeouts + 1);
    NothingListed(c);
    assert Listed(c1) == Listed(c);
    if c.missing != [] { NackAsks(c1); }
  }

  lemma StepTold(c: Conn, syn: int, e: Event, log: seq<Packet>, fins: set<int>)
    requires Inv(c, syn, log, fins) && CarriedEvent(Unbounded, e)
    ensures Told(c, e, Step(Unbounded, c, e))
  {
    match e
    case Fin(s) => FinStepTold(c, syn, s, log, fins);
    case Data(p, retx) => DataStepTold(c, syn, p, retx, log, fins);
    case Timeout => TimeoutStepTold(c);
    case _ =>
  }

  /** Over every run, the next event does exactly what is told. */
  lemma RunTold(syn: int, es: seq<Event>, e: Event)
    requires CarriedRun(Unbounded, es + [e]) && CarriedRun(Unbounded, es) && 0 <= syn
    ensures Told(Run(Unbounded, syn, es), e, Run(Unbounded, syn, es + [e]))
  {
    RunInv(syn, es);
    assert (es + [e])[..|es|] == es && (es + [e])[|es|] == e;
    StepTold(Run(Unbounded, syn, es), syn, e, Log(es), Fins(es));
  }

  /** So a timeout repeats the NACK, as long as the connection waits and something is missing. */
  lemma TimeoutRepeatsNack(syn: int, es: seq<Event>)
    requires CarriedRun(Unbounded, es) && 0 <= syn
    requires var c := Run(Unbounded, syn, es);
             (c.phase == NackWait || c.phase == FinNackWait) && c.timeouts + 1 < 50 && c.missing != []
    ensures var c := Run(Unbounded, syn, es);
            exists items :: Says(c, Step(Unbounded, c, Timeout), Nack(c.last, items)) &&
                            OldestOf(items, 5, Wanted(c.last, c.missing))
  {
    var c := Run(Unbounded, syn, es);
    var c' := Step(Unbounded, c, Timeout);
    RunInv(syn, es);
    TimeoutStepTold(c);
    NothingListed(c);
    assert Listed(c') == Wanted(c.last, c.missing);
  }

  /** And it begins with nothing seen but the SYN. */
  lemma RunBegins(syn: int)
    requires 0 <= syn
    ensures Run(Unbounded, syn, []) == Conn(true, Passive, false, 0, syn, [], Rx(syn + 1, [], []), [])
  {
  }
}
