/** Exactly what a stream connection lists as missing, and exactly when it acknowledges the FIN, over
    every run, in the true numbering: with skips, stale numbers and pruned ones. */
module StreamAck {
  import opened SeqNo
  import opened Receiver
  import opened InOrder
  import opened Ledger
  import opened Stream
  import opened StreamRuns
  import opened StreamFin

  // ---------------------------------------------------------------------------
  // The missing list
  // ---------------------------------------------------------------------------

  /** A packet clears its number if it is newer than all before it, or flagged as a
      retransmission. */
  function Clears(c: Conn, e: Event): set<int> {
    if e.Data? && (e.retx || e.p.num > c.last) then {e.p.num} else {}
  }

  /** The numbers that the events have cleared. */
  function Cleared(syn: int, es: seq<Event>): set<int>
    requires CarriedRun(Unbounded, es) && 0 <= syn
    decreases |es|
  {
    if es == [] then {}
    else Cleared(syn, es[..|es| - 1]) + Clears(Run(Unbounded, syn, es[..|es| - 1]), es[|es| - 1])
  }

  /** A NACK has been sent that found number `n` out of range. */
  predicate GivenUp(sent: seq<Reply>, n: int) {
    exists j :: 0 <= j < |sent| && sent[j].Nack? && n + VALID_RANGE <= sent[j].num
  }

  lemma GivenUpSnoc(sent: seq<Reply>, r: Reply, n: int)
    ensures GivenUp(sent + [r], n) <==> GivenUp(sent, n) || (r.Nack? && n + VALID_RANGE <= r.num)
  {
    if GivenUp(sent, n) {
      var j :| 0 <= j < |sent| && sent[j].Nack? && n + VALID_RANGE <= sent[j].num;
      assert (sent + [r])[j] == sent[j];
    }
    assert (sent + [r])[|sent|] == r;
  }

  /** The missing list holds exactly the numbers below the newest one that have been neither cleared
      nor given up; FINs do not count. */
  ghost predicate ListExact(missing: seq<int>, last: int, sent: seq<Reply>, syn: int, cleared: set<int>, fins: set<int>) {
    forall n :: n !in fins ==> (n in missing <==> syn < n < last && n !in cleared && !GivenUp(sent, n))
  }

  /** Nothing newer than the newest number has been cleared or asked for, and that number is the
      SYN's, or has been cleared, or is a FIN's. */
  ghost predicate UpTo(last: int, sent: seq<Reply>, syn: int, cleared: set<int>, fins: set<int>) {
    && (forall n :: n in cleared ==> n <= last)
    && (forall j :: 0 <= j < |sent| && sent[j].Nack? ==> sent[j].num <= last)
    && (last == syn || last in cleared || last in fins)
  }

  ghost predicate MissInv(c: Conn, syn: int, cleared: set<int>, fins: set<int>) {
    ListExact(c.missing, c.last, c.sent, syn, cleared, fins) && UpTo(c.last, c.sent, syn, cleared, fins)
  }

  lemma GivenUpBelow(last: int, sent: seq<Reply>, syn: int, cleared: set<int>, fins: set<int>, n: int)
    requires UpTo(last, sent, syn, cleared, fins) && GivenUp(sent, n)
    ensures n + VALID_RANGE <= last
  {
  }

  /** Moving up to `s`, which is accounted for by itself. */
  lemma AdvanceExact(c: Conn, syn: int, s: int, log: seq<Packet>, cleared: set<int>, fins: set<int>)
    requires Inv(c, syn, log, fins) && MissInv(c, syn, cleared, fins) && c.last < s
    ensures MissInv(Advance(Unbounded, c, s), syn, cleared, fins + {s})
  {
    AdvanceList(c.missing, s, c.last);
    var c1 := Advance(Unbounded, c, s);
    forall n | n !in fins + {s}
      ensures n in c1.missing <==> syn < n < s && n !in cleared && !GivenUp(c.sent, n)
    {
      if GivenUp(c.sent, n) { GivenUpBelow(c.last, c.sent, syn, cleared, fins, n); }
    }
  }

  lemma NackExact(c: Conn, syn: int, log: seq<Packet>, cleared: set<int>, fins: set<int>)
    requires Inv(c, syn, log, fins) && MissInv(c, syn, cleared, fins)
    ensures MissInv(SendNack(Unbounded, c), syn, cleared, fins)
  {
    FillExact(NACK_SLOTS, c.last, c.missing);
    UnexpiredMembers(c.last, c.missing);
    if c.missing != [] {
      var c' := SendNack(Unbounded, c);
      var r := c'.sent[|c.sent|];
      assert c'.sent == c.sent + [r];
      forall n | n !in fins
        ensures n in c'.missing <==> syn < n < c.last && n !in cleared && !GivenUp(c'.sent, n)
      {
        GivenUpSnoc(c.sent, r, n);
      }
    }
  }

  /** A reply that is not a NACK changes nothing. */
  lemma OtherReplyExact(c: Conn, r: Reply, syn: int, cleared: set<int>, fins: set<int>)
    requires MissInv(c, syn, cleared, fins) && !r.Nack?
    ensures MissInv(c.(sent := c.sent + [r]), syn, cleared, fins)
  {
    forall n ensures GivenUp(c.sent + [r], n) <==> GivenUp(c.sent, n) { GivenUpSnoc(c.sent, r, n); }
  }

  /** What a FIN does before it is answered. */
  lemma FinExact(c: Conn, syn: int, s: int, log: seq<Packet>, cleared: set<int>, fins: set<int>)
    requires Inv(c, syn, log, fins) && MissInv(c, syn, cleared, fins) && 1 <= s
    ensures MissInv(Advance(Unbounded, c, s), syn, cleared, fins + {s})
  {
    if s > c.last { AdvanceExact(c, syn, s, log, cleared, fins); }
  }

  /** The newest number, not listed, may count as cleared instead of as a FIN. */
  lemma ClearLast(missing: seq<int>, last: int, sent: seq<Reply>, syn: int, cleared: set<int>, fins: set<int>)
    requires ListExact(missing, last, sent, syn, cleared, fins + {last}) && last !in missing
    requires UpTo(last, sent, syn, cleared, fins + {last})
    ensures ListExact(missing, last, sent, syn, cleared + {last}, fins)
    ensures UpTo(last, sent, syn, cleared + {last}, fins)
  {
  }

  lemma SameList(l: seq<int>, l': seq<int>, last: int, sent: seq<Reply>, syn: int, cleared: set<int>, fins: set<int>)
    requires ListExact(l, last, sent, syn, cleared, fins) && forall n :: n in l <==> n in l'
    ensures ListExact(l', last, sent, syn, cleared, fins)
  {
  }

  lemma NewerExact(c: Conn, syn: int, p: Packet, retx: bool, log: seq<Packet>, cleared: set<int>, fins: set<int>)
    requires Inv(c, syn, log, fins) && MissInv(c, syn, cleared, fins) && c.last < p.num
    ensures MissInv(TakeIn(Unbounded, c, p, retx), syn, cleared + {p.num}, fins)
  {
    var c1, c2 := Advance(Unbounded, c, p.num), TakeIn(Unbounded, c, p, retx);
    AdvanceList(c.missing, p.num, c.last);
    AdvanceExact(c, syn, p.num, log, cleared, fins);
    ClearLast(c1.missing, p.num, c.sent, syn, cleared, fins);
    DeleteMembers(c1.missing, p.num);
    SameList(c1.missing, c2.missing, p.num, c.sent, syn, cleared + {p.num}, fins);
    assert c2.last == p.num && c2.sent == c.sent;
  }

  lemma OlderExact(c: Conn, syn: int, p: Packet, retx: bool, log: seq<Packet>, cleared: set<int>, fins: set<int>)
    requires Inv(c, syn, log, fins) && MissInv(c, syn, cleared, fins) && 1 <= p.num <= c.last
    ensures MissInv(TakeIn(Unbounded, c, p, retx), syn, cleared + (if retx then {p.num} else {}), fins)
  {
    DeleteMembers(c.missing, p.num);
  }

  /** What a data packet does before it is answered. */
  lemma TakeInExact(c: Conn, syn: int, p: Packet, retx: bool, log: seq<Packet>, cleared: set<int>, fins: set<int>)
    requires Inv(c, syn, log, fins) && MissInv(c, syn, cleared, fins) && 1 <= p.num
    ensures MissInv(TakeIn(Unbounded, c, p, retx), syn, cleared + Clears(c, Data(p, retx)), fins)
  {
    if p.num > c.last {
      NewerExact(c, syn, p, retx, log, cleared, fins);
    } else {
      OlderExact(c, syn, p, retx, log, cleared, fins);
    }
  }

  lemma FinalExact(c: Conn, syn: int, s: int, log: seq<Packet>, cleared: set<int>, fins: set<int>)
    requires Inv(c, syn, log, fins) && MissInv(c, syn, cleared, fins) && 1 <= s
    ensures MissInv(OnFin(Unbounded, c, s), syn, cleared, fins + {s})
  {
    var c1 := Advance(Unbounded, c, s).(timeouts := 0);
    FinExact(c, syn, s, log, cleared, fins);
    AdvanceInv(c, syn, s, log, fins);
    NackExact(c1, syn, log, cleared, fins + {s});
    OtherReplyExact(Advance(Unbounded, c, s), FinAck(c1.last), syn, cleared, fins + {s});
  }

  lemma AnswerExact(c: Conn, gap: bool, syn: int, log: seq<Packet>, cleared: set<int>, fins: set<int>)
    requires Inv(c, syn, log, fins) && MissInv(c, syn, cleared, fins)
    ensures MissInv(AnswerData(Unbounded, c, gap), syn, cleared, fins)
  {
    NackExact(if c.phase == Passive then c.(phase := NackWait) else c, syn, log, cleared, fins);
    OtherReplyExact(c, FinAck(c.last), syn, cleared, fins);
  }

  lemma TimeoutExact(c: Conn, syn: int, log: seq<Packet>, cleared: set<int>, fins: set<int>)
    requires Inv(c, syn, log, fins) && MissInv(c, syn, cleared, fins)
    ensures MissInv(OnTimeout(Unbounded, c), syn, cleared, fins)
  {
    var c1 := c.(timeouts := c.timeouts + 1);
    NackExact(c1, syn, log, cleared, fins);
    OtherReplyExact(c1, FinAck(c.last), syn, cleared, fins);
  }

  lemma StepExact(c: Conn, syn: int, e: Event, log: seq<Packet>, cleared: set<int>, fins: set<int>)
    requires Inv(c, syn, log, fins) && MissInv(c, syn, cleared, fins) && CarriedEvent(Unbounded, e)
    ensures MissInv(Step(Unbounded, c, e), syn, cleared + Clears(c, e), fins + FinOf(e))
  {
    assert cleared + {} == cleared && fins + {} == fins;
    match e
    case Syn => OtherReplyExact(c, SynAck, syn, cleared, fins);
    case Fin(n) => FinalExact(c, syn, n, log, cleared, fins);
    case Data(p, retx) =>
      TakeInExact(c, syn, p, retx, log, cleared, fins);
      TakeInInv(c, syn, p, retx, log, fins);
      AnswerExact(TakeIn(Unbounded, c, p, retx), Found(Unbounded, c, p.num) != [], syn, log + [p],
                  cleared + Clears(c, e), fins);
    case Timeout => TimeoutExact(c, syn, log, cleared, fins);
    case DeleteTid =>
  }

  lemma {:induction false} RunExact(syn: int, es: seq<Event>)
    requires CarriedRun(Unbounded, es) && 0 <= syn
    ensures MissInv(Run(Unbounded, syn, es), syn, Cleared(syn, es), Fins(es))
    decreases |es|
  {
    if es != [] {
      var k := |es| - 1;
      RunExact(syn, es[..k]);
      RunInv(syn, es[..k]);
      StepExact(Run(Unbounded, syn, es[..k]), syn, es[k], Log(es[..k]), Cleared(syn, es[..k]), Fins(es[..k]));
    }
  }

  /** Over every run, the missing list is a function of the history: it holds exactly the numbers
      between the SYN and the newest number that no packet has cleared and no NACK has given up. */
  lemma MissingIsHistory(syn: int, es: seq<Event>, n: int)
    requires CarriedRun(Unbounded, es) && 0 <= syn && n !in Fins(es)
    ensures var c := Run(Unbounded, syn, es);
            n in c.missing <==> syn < n < c.last && n !in Cleared(syn, es) && !GivenUp(c.sent, n)
  {
    RunExact(syn, es);
  }

  // ---------------------------------------------------------------------------
  // The acknowledgement of the FIN
  // ---------------------------------------------------------------------------

  predicate FinSeen(c: Conn) {
    c.phase == FinNackWait || c.phase == Finished
  }

  /** Before the FIN a connection is not waiting for the end; after it, the FIN is the newest number,
      and it is finished exactly if it has acknowledged, with nothing missing. */
  ghost predicate EndInv(c: Conn, fin: int, fins: set<int>) {
    && c.last <= fin && fins <= {fin}
    && (fins != {} <==> FinSeen(c)) && (FinSeen(c) ==> c.last == fin)
    && (c.phase == Finished <==> Acked(c)) && (c.phase == Finished ==> c.missing == [])
  }

  /** An event at which a connection that has seen the FIN looks whether anything is missing. */
  predicate Decides(c: Conn, e: Event) {
    e.Fin? || e.Data? || (e.Timeout? && c.timeouts + 1 < MAX_TIMEOUTS)
  }

  /** The connection when it looks. */
  function BeforeReply(c: Conn, e: Event): Conn
    requires CarriedEvent(Unbounded, e) && Unbounded.LastSeen(c.last)
  {
    match e
    case Fin(n) => Advance(Unbounded, c, n)
    case Data(p, retx) => TakeIn(Unbounded, c, p, retx)
    case _ => c
  }

  lemma AckedSnoc(c: Conn, r: Reply)
    ensures Acked(c.(sent := c.sent + [r])) <==> Acked(c) || r.FinAck?
  {
    var c' := c.(sent := c.sent + [r]);
    assert forall j :: 0 <= j < |c.sent| ==> c'.sent[j] == c.sent[j];
    assert c'.sent[|c.sent|] == r;
  }

  lemma FinishAcks(c: Conn)
    ensures Acked(Finish(c))
  {
    AckedSnoc(c, FinAck(c.last));
  }

  lemma FinEnds(c: Conn, fin: int, fins: set<int>)
    requires EndInv(c, fin, fins) && 1 <= fin && 0 <= c.last
    ensures var c', c1 := OnFin(Unbounded, c, fin), Advance(Unbounded, c, fin);
            EndInv(c', fin, {fin}) && (Acked(c') <==> c1.missing == [])
  {
    var c1 := Advance(Unbounded, c, fin);
    FinishAcks(c1);
    AckedSame(Unbounded, c1.(timeouts := 0));
    SendNackMoves(Unbounded, c1.(timeouts := 0));
  }

  /** Data below the newest number reveals no gap. */
  lemma NothingFound(c: Conn, p: Packet)
    requires 1 <= p.num <= c.last
    ensures Found(Unbounded, c, p.num) == []
  {
  }

  lemma DataEnds(c: Conn, fin: int, fins: set<int>, p: Packet, retx: bool)
    requires EndInv(c, fin, fins) && 1 <= p.num < fin && 0 <= c.last
    ensures var c', c1 := OnData(Unbounded, c, p, retx), TakeIn(Unbounded, c, p, retx);
            EndInv(c', fin, fins) && (Acked(c') <==> fins != {} && c1.missing == [])
  {
    var c1 := TakeIn(Unbounded, c, p, retx);
    assert c1.phase == c.phase && c1.sent == c.sent && c1.last <= fin;
    assert Acked(c1) <==> Acked(c);
    if FinSeen(c) {
      NothingFound(c, p);
      FinishAcks(c1);
      if c.missing == [] { NoGap(Unbounded, c, p, retx); }
    } else {
      var c2 := if c1.phase == Passive then c1.(phase := NackWait) else c1;
      AckedSame(Unbounded, c2);
      SendNackMoves(Unbounded, c2);
    }
  }

  lemma TimeoutEnds(c: Conn, fin: int, fins: set<int>)
    requires EndInv(c, fin, fins)
    ensures var c' := OnTimeout(Unbounded, c);
            && EndInv(c', fin, fins)
            && (Acked(c') <==> Acked(c) || (c.timeouts + 1 < MAX_TIMEOUTS && fins != {} && c.missing == []))
  {
    var c1 := c.(timeouts := c.timeouts + 1);
    FinishAcks(c1);
    AckedSame(Unbounded, c1);
    SendNackMoves(Unbounded, c1);
  }

  lemma StepEnds(c: Conn, fin: int, fins: set<int>, e: Event)
    requires EndInv(c, fin, fins) && 1 <= fin && 0 <= c.last
    requires CarriedEvent(Unbounded, e) && ClosedBy([e], fin)
    ensures var c' := Step(Unbounded, c, e);
            && EndInv(c', fin, fins + FinOf(e))
            && (Acked(c') <==>
                  Acked(c) || (Decides(c, e) && fins + FinOf(e) != {} && BeforeReply(c, e).missing == []))
  {
    assert [e][0] == e;
    assert fins + {} == fins;
    match e
    case Syn => AckedSnoc(c, SynAck);
    case Fin(n) =>
      FinEnds(c, fin, fins);
      assert fins + {fin} == {fin};
    case Data(p, retx) =>
      DataEnds(c, fin, fins, p, retx);
      if Acked(c) { NoGap(Unbounded, c, p, retx); }
    case Timeout => TimeoutEnds(c, fin, fins);
    case DeleteTid =>
  }

  /** Number `n` has been accounted for when the connection looks at event `k`. */
  predicate Accounted(syn: int, es: seq<Event>, k: nat, n: int)
    requires CarriedRun(Unbounded, es) && 0 <= syn && k < |es|
  {
    n in Cleared(syn, es[..k + 1]) || GivenUp(Run(Unbounded, syn, es[..k]).sent, n)
  }

  /** At event `k`, with the FIN come, the connection looks and has accounted for everything. */
  ghost predicate AckedAt(syn: int, fin: int, es: seq<Event>, k: nat)
    requires CarriedRun(Unbounded, es) && 0 <= syn && k < |es|
  {
    && Decides(Run(Unbounded, syn, es[..k]), es[k]) && fin in Fins(es[..k + 1])
    && forall n :: syn < n < fin ==> Accounted(syn, es, k, n)
  }

  /** Nothing is missing when the connection looks exactly if everything has been accounted for. */
  lemma LooksExactly(c: Conn, syn: int, fin: int, e: Event, log: seq<Packet>, cleared: set<int>, fins: set<int>)
    requires Inv(c, syn, log, fins) && MissInv(c, syn, cleared, fins) && EndInv(c, fin, fins) && syn < fin
    requires CarriedEvent(Unbounded, e) && ClosedBy([e], fin) && Decides(c, e) && fins + FinOf(e) != {}
    ensures BeforeReply(c, e).missing == [] <==>
            forall n :: syn < n < fin ==> n in cleared + Clears(c, e) || GivenUp(c.sent, n)
  {
    assert [e][0] == e;
    var c1 := BeforeReply(c, e);
    LooksAt(c, syn, fin, e, log, cleared, fins);
    if c1.missing != [] {
      var n := c1.missing[0];
      assert n in c1.missing;
    }
    forall n | syn < n < fin && !(n in cleared + Clears(c, e) || GivenUp(c.sent, n)) ensures n in c1.missing {}
  }

  lemma LooksAt(c: Conn, syn: int, fin: int, e: Event, log: seq<Packet>, cleared: set<int>, fins: set<int>)
    requires Inv(c, syn, log, fins) && MissInv(c, syn, cleared, fins) && EndInv(c, fin, fins) && syn < fin
    requires CarriedEvent(Unbounded, e) && ClosedBy([e], fin) && Decides(c, e) && fins + FinOf(e) != {}
    ensures var c1 := BeforeReply(c, e);
            && c1.last == fin && c1.sent == c.sent && (forall n :: n in c1.missing ==> syn < n < fin)
            && ListExact(c1.missing, fin, c.sent, syn, cleared + Clears(c, e), {fin})
  {
    assert [e][0] == e;
    assert fins + {} == fins && cleared + {} == cleared;
    match e
    case Fin(n) =>
      FinExact(c, syn, fin, log, cleared, fins);
      AdvanceInv(c, syn, fin, log, fins);
      assert fins + {fin} == {fin};
    case Data(p, retx) =>
      TakeInExact(c, syn, p, retx, log, cleared, fins);
      TakeInInv(c, syn, p, retx, log, fins);
      assert fins == {fin};
    case Timeout => assert fins == {fin};
    case _ =>
  }

  lemma {:induction false} RunEnds(syn: int, fin: int, es: seq<Event>)
    requires CarriedRun(Unbounded, es) && 0 <= syn < fin && ClosedBy(es, fin)
    ensures EndInv(Run(Unbounded, syn, es), fin, Fins(es))
    decreases |es|
  {
    if es != [] {
      var k := |es| - 1;
      ClosedByPrefix(es, fin);
      RunEnds(syn, fin, es[..k]);
      StepEnds(Run(Unbounded, syn, es[..k]), fin, Fins(es[..k]), es[k]);
    }
  }

  /** The last event of a run acknowledges the FIN exactly if the connection looks then and has
      accounted for everything. */
  lemma LastEvent(syn: int, fin: int, es: seq<Event>)
    requires CarriedRun(Unbounded, es) && 0 <= syn < fin && ClosedBy(es, fin) && es != []
    ensures Acked(Run(Unbounded, syn, es)) <==>
            Acked(Run(Unbounded, syn, es[..|es| - 1])) || AckedAt(syn, fin, es, |es| - 1)
  {
    var k := |es| - 1;
    var c, e := Run(Unbounded, syn, es[..k]), es[k];
    assert es[..k + 1] == es;
    ClosedByPrefix(es, fin);
    RunEnds(syn, fin, es[..k]);
    RunExact(syn, es[..k]);
    RunInv(syn, es[..k]);
    StepEnds(c, fin, Fins(es[..k]), e);
    LogClosed(es, fin);
    if Decides(c, e) && Fins(es) != {} {
      LooksExactly(c, syn, fin, e, Log(es[..k]), Cleared(syn, es[..k]), Fins(es[..k]));
      SameAccounts(syn, fin, es);
    }
  }

  lemma SameAccounts(syn: int, fin: int, es: seq<Event>)
    requires CarriedRun(Unbounded, es) && 0 <= syn && es != []
    ensures var k := |es| - 1;
            var c := Run(Unbounded, syn, es[..k]);
            (forall n :: syn < n < fin ==> Accounted(syn, es, k, n)) <==>
            (forall n :: syn < n < fin ==> n in Cleared(syn, es[..k]) + Clears(c, es[k]) || GivenUp(c.sent, n))
  {
    assert es[..|es| - 1 + 1] == es;
    assert forall n :: Accounted(syn, es, |es| - 1, n) <==>
      n in Cleared(syn, es) || GivenUp(Run(Unbounded, syn, es[..|es| - 1]).sent, n);
  }

  lemma AckedAtPrefix(syn: int, fin: int, es: seq<Event>, k: nat)
    requires CarriedRun(Unbounded, es) && 0 <= syn && k < |es| - 1
    ensures AckedAt(syn, fin, es, k) <==> AckedAt(syn, fin, es[..|es| - 1], k)
  {
    var fs := es[..|es| - 1];
    assert fs[..k] == es[..k] && fs[..k + 1] == es[..k + 1];
    assert forall n :: Accounted(syn, fs, k, n) <==> Accounted(syn, es, k, n);
  }

  /** Exactly when the FIN is acknowledged, over every closed run: if at some event, with the FIN
      come, the connection looks, and every number before the FIN has by then been cleared by a
      packet that was newer than all before it or flagged, or given up by a NACK. */
  lemma {:induction false} FinAckedExactly(syn: int, fin: int, es: seq<Event>)
    requires CarriedRun(Unbounded, es) && 0 <= syn < fin && ClosedBy(es, fin)
    ensures Acked(Run(Unbounded, syn, es)) <==> exists k :: 0 <= k < |es| && AckedAt(syn, fin, es, k)
    decreases |es|
  {
    if es != [] {
      var fs := es[..|es| - 1];
      ClosedByPrefix(es, fin);
      FinAckedExactly(syn, fin, fs);
      LastEvent(syn, fin, es);
      forall k | 0 <= k < |fs| ensures AckedAt(syn, fin, es, k) <==> AckedAt(syn, fin, fs, k) {
        AckedAtPrefix(syn, fin, es, k);
      }
    }
  }

  // ---------------------------------------------------------------------------
  // Short streams
  // ---------------------------------------------------------------------------

  /** With the FIN in range of the SYN no number is ever given up. */
  lemma NothingGivenUp(syn: int, fin: int, es: seq<Event>, n: int)
    requires CarriedRun(Unbounded, es) && 0 <= syn < fin <= syn + VALID_RANGE && ClosedBy(es, fin) && syn < n
    ensures !GivenUp(Run(Unbounded, syn, es).sent, n)
  {
    var c := Run(Unbounded, syn, es);
    RunExact(syn, es);
    RunEnds(syn, fin, es);
    if GivenUp(c.sent, n) { GivenUpBelow(c.last, c.sent, syn, Cleared(syn, es), Fins(es), n); }
  }

  ghost predicate AllCleared(syn: int, fin: int, es: seq<Event>)
    requires CarriedRun(Unbounded, es) && 0 <= syn
  {
    forall n :: syn < n < fin ==> n in Cleared(syn, es)
  }

  lemma ClearedNow(syn: int, fin: int, es: seq<Event>)
    requires CarriedRun(Unbounded, es) && 0 <= syn && es != [] && (es[|es| - 1].Fin? || es[|es| - 1].Data?)
    requires fin in Fins(es) && AllCleared(syn, fin, es)
    ensures AckedAt(syn, fin, es, |es| - 1)
  {
    var k := |es| - 1;
    assert es[..k + 1] == es;
    forall n | syn < n < fin ensures Accounted(syn, es, k, n) {}
  }

  lemma ClearedEarlier(syn: int, fin: int, es: seq<Event>)
    requires CarriedRun(Unbounded, es) && 0 <= syn && es != [] && !es[|es| - 1].Fin? && !es[|es| - 1].Data?
    ensures Fins(es[..|es| - 1]) == Fins(es)
    ensures AllCleared(syn, fin, es[..|es| - 1]) <==> AllCleared(syn, fin, es)
  {
    assert Cleared(syn, es) == Cleared(syn, es[..|es| - 1]) + {};
  }

  /** Everything cleared, and the FIN come, is enough. */
  lemma {:induction false} ClearedAcks(syn: int, fin: int, es: seq<Event>)
    requires CarriedRun(Unbounded, es) && 0 <= syn < fin && ClosedBy(es, fin)
    requires fin in Fins(es) && AllCleared(syn, fin, es)
    ensures Acked(Run(Unbounded, syn, es))
    decreases |es|
  {
    var k := |es| - 1;
    LastEvent(syn, fin, es);
    if es[k].Fin? || es[k].Data? {
      ClearedNow(syn, fin, es);
    } else {
      ClosedByPrefix(es, fin);
      ClearedEarlier(syn, fin, es);
      ClearedAcks(syn, fin, es[..k]);
    }
  }

  lemma {:induction false} ClearedGrows(syn: int, es: seq<Event>, k: nat)
    requires CarriedRun(Unbounded, es) && 0 <= syn && k <= |es|
    ensures Cleared(syn, es[..k]) <= Cleared(syn, es) && Fins(es[..k]) <= Fins(es)
    decreases |es|
  {
    if k == |es| {
      assert es[..k] == es;
    } else {
      assert es[..|es| - 1][..k] == es[..k];
      ClearedGrows(syn, es[..|es| - 1], k);
    }
  }

  /** Within range, what has been accounted for has been cleared. */
  lemma AccountedInRange(syn: int, fin: int, es: seq<Event>, k: nat)
    requires CarriedRun(Unbounded, es) && 0 <= syn < fin <= syn + VALID_RANGE && ClosedBy(es, fin)
    requires k < |es| && AckedAt(syn, fin, es, k)
    ensures fin in Fins(es) && AllCleared(syn, fin, es)
  {
    ClearedGrows(syn, es, k + 1);
    var before := es[..k];
    assert ClosedBy(before, fin);
    forall n | syn < n < fin ensures n in Cleared(syn, es) {
      assert Accounted(syn, es, k, n);
      NothingGivenUp(syn, fin, before, n);
    }
  }

  /** With the FIN in range of the SYN, it has been acknowledged exactly if it has come and every
      number before it has come, either newer than all before it or flagged as a retransmission. */
  lemma FinAckedInRange(syn: int, fin: int, es: seq<Event>)
    requires CarriedRun(Unbounded, es) && 0 <= syn < fin <= syn + VALID_RANGE && ClosedBy(es, fin)
    ensures Acked(Run(Unbounded, syn, es)) <==> fin in Fins(es) && AllCleared(syn, fin, es)
  {
    FinAckedExactly(syn, fin, es);
    if Acked(Run(Unbounded, syn, es)) {
      var k :| 0 <= k < |es| && AckedAt(syn, fin, es, k);
      AccountedInRange(syn, fin, es, k);
    }
    if fin in Fins(es) && AllCleared(syn, fin, es) {
      ClearedAcks(syn, fin, es);
    }
  }
}
