/** What a stream connection keeps over whole runs, in the true numbering, whatever the
    network loses, repeats or reorders. */
module StreamRuns {
  import opened SeqNo
  import opened Receiver
  import opened InOrder
  import opened Ledger
  import opened Stream

  // ---------------------------------------------------------------------------
  // Every run
  // ---------------------------------------------------------------------------

  ghost predicate Inv(c: Conn, syn: int, log: seq<Packet>, fins: set<int>) {
    Books(c.rx, c.last, c.missing, syn, log, fins)
  }

  lemma AdvanceInv(c: Conn, syn: int, s: int, log: seq<Packet>, fins: set<int>)
    requires Inv(c, syn, log, fins) && 1 <= s
    ensures Inv(Advance(Unbounded, c, s), syn, log, fins + {s})
    ensures s <= Advance(Unbounded, c, s).last
  {
    if s > c.last {
      AdvanceKeeps(c.rx.next, c.last, c.missing, c.rx.plist, fins, s);
      AdvanceList(c.missing, s, c.last);
    }
  }

  lemma SendNackInv(c: Conn, syn: int, log: seq<Packet>, fins: set<int>)
    requires Inv(c, syn, log, fins)
    ensures Inv(SendNack(Unbounded, c), syn, log, fins)
  {
    FillKeepsBooks(NACK_SLOTS, c.rx.next, c.last, c.missing, c.rx.plist, fins);
    FillExact(NACK_SLOTS, c.last, c.missing);
    UnexpiredMembers(c.last, c.missing);
  }

  lemma TakeInInv(c: Conn, syn: int, p: Packet, retx: bool, log: seq<Packet>, fins: set<int>)
    requires Inv(c, syn, log, fins) && 1 <= p.num
    ensures Inv(TakeIn(Unbounded, c, p, retx), syn, log + [p], fins)
  {
    AdvanceInv(c, syn, p.num, log, fins);
    var c1 := Advance(Unbounded, c, p.num);
    DeleteKeeps(c1.rx.next, c1.last, c1.missing, c1.rx.plist, fins, p.num);
    DeleteMembers(c1.missing, p.num);
    var missing := if retx then Delete(c1.missing, p.num) else c1.missing;
    ReceiveKeepsBooks(p, c1.rx, log, c1.last, missing, fins);
    ReceiveKeeps(p, c1.rx, log);
  }

  lemma OnFinInv(c: Conn, syn: int, n: int, log: seq<Packet>, fins: set<int>)
    requires Inv(c, syn, log, fins) && 1 <= n
    ensures Inv(OnFin(Unbounded, c, n), syn, log, fins + {n})
  {
    AdvanceInv(c, syn, n, log, fins);
    SendNackInv(Advance(Unbounded, c, n), syn, log, fins + {n});
  }

  /** The replies leave the buffer and the newest number alone. */
  lemma OnDataShape(m: Arith, c: Conn, p: Packet, retx: bool)
    requires m.Carried(p.num) && m.LastSeen(c.last)
    ensures var c1, c' := TakeIn(m, c, p, retx), OnData(m, c, p, retx);
            && c'.rx == c1.rx && c'.last == c1.last
            && (c'.missing == c1.missing || c'.missing == SendNack(m, c1).missing)
  {
  }

  lemma OnDataInv(c: Conn, syn: int, p: Packet, retx: bool, log: seq<Packet>, fins: set<int>)
    requires Inv(c, syn, log, fins) && 1 <= p.num
    ensures Inv(OnData(Unbounded, c, p, retx), syn, log + [p], fins)
  {
    TakeInInv(c, syn, p, retx, log, fins);
    OnDataShape(Unbounded, c, p, retx);
    var c1 := TakeIn(Unbounded, c, p, retx);
    SendNackInv(c1, syn, log + [p], fins);
    assert SendNack(Unbounded, c1).rx == c1.rx && SendNack(Unbounded, c1).last == c1.last;
  }

  lemma OnTimeoutInv(c: Conn, syn: int, log: seq<Packet>, fins: set<int>)
    requires Inv(c, syn, log, fins)
    ensures Inv(OnTimeout(Unbounded, c), syn, log, fins)
  {
    SendNackInv(c.(timeouts := c.timeouts + 1), syn, log, fins);
  }

  lemma StepInv(c: Conn, syn: int, e: Event, log: seq<Packet>, fins: set<int>)
    requires Inv(c, syn, log, fins) && CarriedEvent(Unbounded, e)
    ensures Inv(Step(Unbounded, c, e), syn, log + LogOf(e), fins + FinOf(e))
  {
    assert log + [] == log && fins + {} == fins;
    match e
    case Fin(n) => OnFinInv(c, syn, n, log, fins);
    case Data(p, retx) => OnDataInv(c, syn, p, retx, log, fins);
    case Timeout => OnTimeoutInv(c, syn, log, fins);
    case _ =>
  }

  /** The joint invariant holds after every run. */
  lemma {:induction false} RunInv(syn: int, es: seq<Event>)
    requires CarriedRun(Unbounded, es) && 0 <= syn
    ensures Inv(Run(Unbounded, syn, es), syn, Log(es), Fins(es))
    decreases |es|
  {
    if es != [] {
      var k := |es| - 1;
      RunInv(syn, es[..k]);
      StepInv(Run(Unbounded, syn, es[..k]), syn, es[k], Log(es[..k]), Fins(es[..k]));
    }
  }

  /** In-order, at-most-once delivery over every run, forced skips included: the application
      has received strictly increasing numbers, each with the payload that came first under
      that number. */
  lemma InOrderAtMostOnce(syn: int, es: seq<Event>)
    requires CarriedRun(Unbounded, es) && 0 <= syn
    ensures var out := Run(Unbounded, syn, es).rx.out;
            Sorted(out) && forall p :: p in out ==> IsFirst(Log(es), p)
  {
    RunInv(syn, es);
  }

  /** Coverage over every run: a number from the next expected one to the newest one is in
      the buffer, in the missing list, out of range, or a FIN; and the next expected one is
      never in the buffer. */
  lemma NothingForgotten(syn: int, es: seq<Event>, n: int)
    requires CarriedRun(Unbounded, es) && 0 <= syn
    requires var c := Run(Unbounded, syn, es); c.rx.next <= n <= c.last && n !in Fins(es)
    ensures var c := Run(Unbounded, syn, es);
            && (Has(c.rx.plist, n) || n in c.missing || n + VALID_RANGE <= c.last)
            && !Has(c.rx.plist, c.rx.next)
            && forall p :: p in c.rx.plist ==> c.rx.next < p.num <= c.last
  {
    RunInv(syn, es);
  }

  /** What event `e` adds to the packets taken in: a data packet that is new on arrival. */
  ghost function NewOf(c: Conn, e: Event): multiset<Packet> {
    if e.Data? && IsNew(Unbounded, e.p, c.rx) then multiset{e.p} else multiset{}
  }

  ghost function TakenIn(syn: int, es: seq<Event>): multiset<Packet>
    requires CarriedRun(Unbounded, es) && 0 <= syn
    decreases |es|
  {
    if es == [] then multiset{}
    else TakenIn(syn, es[..|es| - 1]) + NewOf(Run(Unbounded, syn, es[..|es| - 1]), es[|es| - 1])
  }

  /** Conservation over every run: what has been delivered and what is in the buffer are together
      exactly the packets taken in, each as often as it was. */
  lemma {:induction false} NothingLostOrInvented(syn: int, es: seq<Event>)
    requires CarriedRun(Unbounded, es) && 0 <= syn
    ensures Held(Run(Unbounded, syn, es).rx) == TakenIn(syn, es)
    decreases |es|
  {
    if es != [] {
      var k := |es| - 1;
      var c := Run(Unbounded, syn, es[..k]);
      NothingLostOrInvented(syn, es[..k]);
      RunInv(syn, es[..k]);
      StepShape(Unbounded, c, es[k]);
      if es[k].Data? { ReceiveConserves(es[k].p, c.rx, Log(es[..k])); }
    }
  }

  /** Every NACK, in every run, strikes off exactly the numbers that are out of range and asks
      for the oldest gaps that are left, as many as fit, in order. */
  lemma NackAsksForOldest(syn: int, es: seq<Event>)
    requires CarriedRun(Unbounded, es) && 0 <= syn
    requires Run(Unbounded, syn, es).missing != []
    ensures var c := Run(Unbounded, syn, es);
            var kept := Unexpired(c.last, c.missing);
            && Ascending(kept) && (forall n :: n in kept <==> n in c.missing && c.last < n + VALID_RANGE)
            && SendNack(Unbounded, c) == c.(missing := kept,
                                            sent := c.sent + [Nack(c.last, kept[..Min(NACK_SLOTS, |kept|)])])
  {
    RunInv(syn, es);
    var c := Run(Unbounded, syn, es);
    FillExact(NACK_SLOTS, c.last, c.missing);
    UnexpiredMembers(c.last, c.missing);
  }

  // ---------------------------------------------------------------------------
  // The state machine, in either arithmetic
  // ---------------------------------------------------------------------------

  predicate PhaseInv(c: Conn) {
    c.phase == Passive ==> c.missing == []
  }

  /** Without a new gap a data packet only shortens the list. */
  lemma NoGap(m: Arith, c: Conn, p: Packet, retx: bool)
    requires m.Carried(p.num) && m.LastSeen(c.last) && Found(m, c, p.num) == [] && c.missing == []
    ensures TakeIn(m, c, p, retx).missing == []
  {
  }

  /** What one step does to the phase: a connection is passive only with nothing missing, and
      it is finished, and the FIN acknowledged, only by a step that leaves nothing missing. */
  predicate PhaseMove(c: Conn, c': Conn) {
    && PhaseInv(c')
    && (c'.phase == Finished && c.phase != Finished ==> c'.missing == [])
    && c.sent <= c'.sent && |c'.sent| <= |c.sent| + 1
    && (|c'.sent| > |c.sent| && c'.sent[|c.sent|].FinAck? ==>
          c'.missing == [] && c'.phase == Finished && c'.sent[|c.sent|].num == c'.last)
  }

  lemma SendNackMoves(m: Arith, c: Conn)
    ensures var c' := SendNack(m, c);
            && c' == c.(missing := c'.missing, sent := c'.sent)
            && (c.missing == [] ==> c' == c)
            && (c.missing != [] ==> |c'.sent| == |c.sent| + 1 && c.sent <= c'.sent && c'.sent[|c.sent|].Nack?)
  {
  }

  lemma OnFinMoves(m: Arith, c: Conn, n: int)
    requires PhaseInv(c) && m.Carried(n) && m.LastSeen(c.last)
    ensures PhaseMove(c, OnFin(m, c, n))
  {
    SendNackMoves(m, Advance(m, c, n));
  }

  lemma AnswerMoves(m: Arith, c: Conn, gap: bool)
    requires c.phase == Passive && !gap ==> c.missing == []
    ensures PhaseMove(c, AnswerData(m, c, gap))
  {
    SendNackMoves(m, if c.phase == Passive then c.(phase := NackWait) else c);
  }

  lemma OnDataMoves(m: Arith, c: Conn, p: Packet, retx: bool)
    requires PhaseInv(c) && m.Carried(p.num) && m.LastSeen(c.last)
    ensures PhaseMove(c, OnData(m, c, p, retx))
  {
    var c1 := TakeIn(m, c, p, retx);
    assert c1.phase == c.phase && c1.sent == c.sent;
    if Found(m, c, p.num) == [] && c.missing == [] { NoGap(m, c, p, retx); }
    AnswerMoves(m, c1, Found(m, c, p.num) != []);
  }

  lemma OnTimeoutMoves(m: Arith, c: Conn)
    requires PhaseInv(c)
    ensures PhaseMove(c, OnTimeout(m, c))
  {
    SendNackMoves(m, c.(timeouts := c.timeouts + 1));
  }

  lemma PhaseStep(m: Arith, c: Conn, e: Event)
    requires PhaseInv(c) && CarriedEvent(m, e) && m.LastSeen(c.last)
    ensures PhaseMove(c, Step(m, c, e))
  {
    match e
    case Fin(n) => OnFinMoves(m, c, n);
    case Data(p, retx) => OnDataMoves(m, c, p, retx);
    case Timeout => OnTimeoutMoves(m, c);
    case Syn => assert Step(m, c, e).sent == c.sent + [SynAck];
    case _ =>
  }

  lemma {:induction false} PassiveMeansComplete(m: Arith, syn: int, es: seq<Event>)
    requires CarriedRun(m, es) && m.LastSeen(syn)
    ensures PhaseInv(Run(m, syn, es))
    decreases |es|
  {
    if es != [] {
      PassiveMeansComplete(m, syn, es[..|es| - 1]);
      PhaseStep(m, Run(m, syn, es[..|es| - 1]), es[|es| - 1]);
    }
  }

  // ---------------------------------------------------------------------------
  // Runs in which arrivals stay within range
  // ---------------------------------------------------------------------------

  function NumOf(e: Event): int
    requires e.Data? || e.Fin?
  {
    if e.Data? then e.p.num else e.num
  }

  /** Event `e` is no further ahead of the next expected number than the valid range. */
  predicate Near(c: Conn, e: Event) {
    e.Data? || e.Fin? ==> NumOf(e) < c.rx.next + VALID_RANGE
  }

  predicate NearRun(syn: int, es: seq<Event>)
    requires CarriedRun(Unbounded, es) && 0 <= syn
    decreases |es|
  {
    es == [] || (NearRun(syn, es[..|es| - 1]) && Near(Run(Unbounded, syn, es[..|es| - 1]), es[|es| - 1]))
  }

  ghost predicate NearInv(c: Conn, syn: int) {
    Contiguous(c.rx, syn + 1) && c.last < c.rx.next + VALID_RANGE
  }

  /** What a step does to the buffer and the newest number. */
  lemma StepShape(m: Arith, c: Conn, e: Event)
    requires CarriedEvent(m, e) && m.LastSeen(c.last)
    ensures var c' := Step(m, c, e);
            && c'.rx == (if e.Data? then Receive(m, e.p, c.rx) else c.rx)
            && c'.last == (if (e.Data? || e.Fin?) && m.Cmp(NumOf(e), c.last) > 0 then NumOf(e) else c.last)
  {
    match e
    case Data(p, retx) => OnDataShape(m, c, p, retx);
    case _ =>
  }

  lemma NearStep(c: Conn, syn: int, e: Event, log: seq<Packet>, fins: set<int>)
    requires Inv(c, syn, log, fins) && NearInv(c, syn)
    requires CarriedEvent(Unbounded, e) && Near(c, e)
    ensures NearInv(Step(Unbounded, c, e), syn)
  {
    StepShape(Unbounded, c, e);
    if e.Data? {
      ReceiveContiguous(e.p, c.rx, log, syn + 1);
      ReceiveKeeps(e.p, c.rx, log);
    }
  }

  lemma {:induction false} RunNear(syn: int, es: seq<Event>)
    requires CarriedRun(Unbounded, es) && 0 <= syn && NearRun(syn, es)
    ensures NearInv(Run(Unbounded, syn, es), syn)
    decreases |es|
  {
    if es != [] {
      var k := |es| - 1;
      RunNear(syn, es[..k]);
      RunInv(syn, es[..k]);
      NearStep(Run(Unbounded, syn, es[..k]), syn, es[k], Log(es[..k]), Fins(es[..k]));
    }
  }

  /** Reassembly: what a connection holds is a function of what has arrived.  The next expected
      number is the least one not received, the application has the first arrival of every
      number before it, and the buffer has the first arrivals after it. */
  lemma StateIsHistory(syn: int, es: seq<Event>)
    requires CarriedRun(Unbounded, es) && 0 <= syn && NearRun(syn, es)
    ensures var rx := Run(Unbounded, syn, es).rx;
            && !Has(Log(es), rx.next) && |rx.out| == rx.next - (syn + 1)
            && (forall n :: syn < n < rx.next ==>
                  Has(Log(es), n) && rx.out[n - syn - 1].num == n && IsFirst(Log(es), rx.out[n - syn - 1]))
            && (forall n :: n > rx.next ==> (Has(Log(es), n) <==> Has(rx.plist, n)))
            && (forall p :: p in rx.plist ==> IsFirst(Log(es), p))
  {
    RunInv(syn, es);
    RunNear(syn, es);
    Reassembled(Run(Unbounded, syn, es).rx, Log(es), syn + 1);
  }
}
