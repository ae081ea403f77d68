/** The passive end of a stream connection as it runs: fields updated in place, over the two
    linked lists, in 16-bit arithmetic.  Every method is proved to do one step of `Stream`. */
module StreamConnection {
  import opened SeqNo
  import opened Receiver
  import opened Stream
  import MissingList
  import U16List
  import SortedPacketList

  class Connection {
    var open: bool
    var state: Phase
    var deletePending: bool
    var timeoutCount: nat
    var lastRecvSeqNo: int
    var nextExpectedSeqNo: int
    const missingList: U16List.List
    const plist: SortedPacketList.List
    var delivered: seq<Packet>
    var sent: seq<Reply>

    ghost predicate Valid()
      reads this, missingList, plist, missingList.Repr(), plist.Repr()
    {
      && missingList.Valid() && BufferValid() && Wire.LastSeen(lastRecvSeqNo)
      && missingList.Repr() !! plist.Repr() && this !in missingList.Repr() && this !in plist.Repr()
    }

    /** -1 is not the number of a buffered packet, but the mark of an empty buffer. */
    ghost predicate BufferValid()
      reads this, plist, plist.Repr()
    {
      plist.Valid() && this !in plist.Repr() && forall p :: p in plist.Contents() ==> p.num >= 0
    }

    ghost function Delivery(): Rx
      reads this, plist, plist.Repr()
    {
      Rx(nextExpectedSeqNo, plist.Contents(), delivered)
    }

    /** The connection as a value. */
    ghost function View(): Conn
      reads this, missingList, plist, missingList.Repr(), plist.Repr()
    {
      Conn(open, state, deletePending, timeoutCount, lastRecvSeqNo, missingList.Contents(), Delivery(), sent)
    }

    constructor (seqno: int)
      requires Wire.LastSeen(seqno)
      ensures Valid() && fresh(missingList.Repr()) && fresh(plist.Repr()) && View() == Fresh(seqno)
    {
      open, state, deletePending, timeoutCount := true, Passive, false, 0;
      lastRecvSeqNo := seqno;
      nextExpectedSeqNo := seqno + 1;
      missingList := new U16List.List();
      plist := new SortedPacketList.List();
      delivered, sent := [], [];
    }

    /** Sends a NACK, unless nothing is missing. */
    method SendNACK()
      requires Valid()
      modifies this`sent, missingList.Repr()
      ensures Valid() && missingList.Repr() <= old(missingList.Repr())
      ensures View() == SendNack(Wire, old(View()))
    {
      var empty := missingList.IsEmpty();
      if !empty {
        var payload := MissingList.FillSlots(missingList, NACK_SLOTS, lastRecvSeqNo);
        sent := sent + [Nack(lastRecvSeqNo, payload)];
      }
    }

    /** Acknowledges the FIN. */
    method SendFinAck()
      modifies this`sent, this`state
      ensures View() == Finish(old(View()))
    {
      sent := sent + [FinAck(lastRecvSeqNo)];
      state := Finished;
    }

    /** Delivers, drops or buffers the packet that has arrived. */
    method AcceptPacket(seqno: int, packet: Payload)
      requires BufferValid() && Wire.Carried(seqno)
      modifies this`delivered, this`nextExpectedSeqNo, plist.Repr()
      ensures BufferValid() && fresh(plist.Repr() - old(plist.Repr()))
      ensures Delivery() == Accept(Wire, Packet(seqno, packet), old(Delivery()))
    {
      ghost var before := plist.Contents();
      if Cmp(seqno, nextExpectedSeqNo) == 0 {
        delivered := delivered + [Packet(seqno, packet)];
        nextExpectedSeqNo := Next(nextExpectedSeqNo);
      } else if Cmp(seqno, nextExpectedSeqNo) < 0 {
      } else {
        var found := plist.Find(seqno);
        if found < 0 {
          plist.Add(seqno, packet);
          SortedPacketList.InsertSortedWithin(before, Packet(seqno, packet));
        }
      }
    }

    /** Delivers the head of the buffer, and expects `next` from then on. */
    method DeliverHead(next: int)
      requires BufferValid() && plist.Contents() != []
      modifies this`delivered, this`nextExpectedSeqNo, plist
      ensures BufferValid() && plist.length < old(plist.length) && plist.Repr() <= old(plist.Repr())
      ensures Delivery() == old(Rx(next, plist.Contents()[1..], delivered + [plist.Contents()[0]]))
    {
      var p := plist.TakeHead();
      delivered := delivered + [p];
      nextExpectedSeqNo := next;
    }

    /** Drops the head of the buffer. */
    method DropHead()
      requires BufferValid() && plist.Contents() != []
      modifies plist
      ensures BufferValid() && plist.length < old(plist.length) && plist.Repr() <= old(plist.Repr())
      ensures Delivery() == old(Delivery().(plist := plist.Contents()[1..]))
    {
      var _ := plist.TakeHead();
    }

    /** The number at the head of the buffer, or the mark of an empty one. */
    method FirstInBuffer() returns (first: int)
      requires BufferValid()
      ensures if plist.Contents() == [] then first == -1 else first == plist.Contents()[0].num >= 0
    {
      first := plist.GetFirstValue();
      assert plist.Contents() != [] ==> plist.Contents()[0] in plist.Contents();
    }

    /** Looks at the head of the buffer once.  Returns whether to go on. */
    method DrainOnce(seqno: int) returns (more: bool)
      requires BufferValid()
      modifies this`delivered, this`nextExpectedSeqNo, plist
      ensures BufferValid() && (more ==> plist.length < old(plist.length))
      ensures plist.Repr() <= old(plist.Repr())
      ensures Drain(Wire, seqno, Delivery()) == Drain(Wire, seqno, old(Delivery()))
      ensures !more ==> Drain(Wire, seqno, Delivery()) == Delivery()
    {
      var first := FirstInBuffer();
      if first == -1 {
        return false;
      }
      more := true;
      if Cmp(first, nextExpectedSeqNo) == 0 {
        DeliverHead(Next(nextExpectedSeqNo));
      } else if Cmp(first, nextExpectedSeqNo) < 0 {
        DropHead();
      } else if Cmp(seqno, first) <= 0 {
        more := false;
      } else if Cmp(seqno, Add(first, VALID_RANGE)) >= 0 {
        DeliverHead(Next(first));
      } else {
        more := false;
      }
    }

    /** Delivers from the buffer as far as the arrival of `seqno` allows. */
    method DrainBuffer(seqno: int)
      requires BufferValid()
      modifies this`delivered, this`nextExpectedSeqNo, plist
      ensures BufferValid() && plist.Repr() <= old(plist.Repr())
      ensures Delivery() == Drain(Wire, seqno, old(Delivery()))
    {
      ghost var goal := Drain(Wire, seqno, Delivery());
      var more := true;
      while more
        invariant BufferValid() && plist.Repr() <= old(plist.Repr())
        invariant Drain(Wire, seqno, Delivery()) == goal && (!more ==> Delivery() == goal)
        decreases more, plist.length
      {
        more := DrainOnce(seqno);
      }
    }

    /** Takes a packet in and delivers what has become deliverable. */
    method ReceiveStrMsg(seqno: int, packet: Payload)
      requires BufferValid() && Wire.Carried(seqno)
      modifies this`timeoutCount, this`delivered, this`nextExpectedSeqNo, plist.Repr()
      ensures BufferValid() && fresh(plist.Repr() - old(plist.Repr()))
      ensures timeoutCount == 0
      ensures Delivery() == Receive(Wire, Packet(seqno, packet), old(Delivery()))
    {
      timeoutCount := 0;
      AcceptPacket(seqno, packet);
      DrainBuffer(seqno);
    }

    // -------------------------------------------------------------------------
    // Packets and timeouts
    // -------------------------------------------------------------------------

    method ReceiveSyn()
      requires Valid()
      modifies this`sent
      ensures Valid() && View() == Step(Wire, old(View()), Syn)
    {
      sent := sent + [SynAck];
    }

    /** Moves the books up to a number newer than all others.  Returns how many are missing. */
    method AdvanceTo(seqno: int) returns (missingCnt: nat)
      requires Valid() && Wire.Carried(seqno)
      modifies this`lastRecvSeqNo, missingList.Repr()
      ensures Valid() && fresh(missingList.Repr() - old(missingList.Repr()))
      ensures missingCnt == |Found(Wire, old(View()), seqno)|
      ensures View() == Advance(Wire, old(View()), seqno)
    {
      missingCnt := 0;
      if Cmp(seqno, lastRecvSeqNo) > 0 {
        missingCnt := MissingList.DetectGap(missingList, seqno, lastRecvSeqNo);
        lastRecvSeqNo := seqno;
      }
    }

    method ReplyToFin()
      requires Valid()
      modifies this`sent, this`state, this`timeoutCount, missingList.Repr()
      ensures Valid() && missingList.Repr() <= old(missingList.Repr())
      ensures View() == AnswerFin(Wire, old(View()))
    {
      var empty := missingList.IsEmpty();
      if empty {
        SendFinAck();
      } else {
        WaitForEnd();
      }
    }

    method ResetTimeouts()
      requires Valid()
      modifies this`timeoutCount
      ensures Valid() && View() == old(View()).(timeouts := 0)
    {
      timeoutCount := 0;
    }

    method EnterPhase(phase: Phase)
      requires Valid()
      modifies this`state
      ensures Valid() && View() == old(View()).(phase := phase)
    {
      state := phase;
    }

    /** Asks for what is missing before a FIN. */
    method WaitForEnd()
      requires Valid()
      modifies this`sent, this`state, this`timeoutCount, missingList.Repr()
      ensures Valid() && missingList.Repr() <= old(missingList.Repr())
      ensures View() == SendNack(Wire, old(View()).(timeouts := 0)).(phase := FinNackWait)
    {
      ResetTimeouts();
      SendNACK();
      EnterPhase(FinNackWait);
    }

    method ReceiveFin(seqno: int)
      requires Valid() && Wire.Carried(seqno)
      modifies this`lastRecvSeqNo, this`sent, this`state, this`timeoutCount, missingList.Repr()
      ensures Valid() && fresh(missingList.Repr() - old(missingList.Repr()))
      ensures View() == OnFin(Wire, old(View()), seqno)
    {
      var _ := AdvanceTo(seqno);
      ReplyToFin();
    }

    /** Strikes a retransmission off the missing list. */
    method StrikeOff(seqno: int, retx: bool)
      requires Valid()
      modifies missingList.Repr()
      ensures Valid() && missingList.Repr() <= old(missingList.Repr())
      ensures View() == old(View()).(missing :=
                if retx then Delete(old(missingList.Contents()), seqno) else old(missingList.Contents()))
    {
      if retx {
        var _ := missingList.Remove(seqno);
      }
    }

    /** Moves the books forward, strikes a retransmission off the list, and takes the packet in. */
    method TakePacket(seqno: int, packet: Payload, retx: bool) returns (missingCnt: nat)
      requires Valid() && Wire.Carried(seqno)
      modifies this`lastRecvSeqNo, this`timeoutCount, this`delivered, this`nextExpectedSeqNo
      modifies missingList.Repr(), plist.Repr()
      ensures Valid() && fresh(missingList.Repr() - old(missingList.Repr())) && fresh(plist.Repr() - old(plist.Repr()))
      ensures missingCnt == |Found(Wire, old(View()), seqno)|
      ensures View() == TakeIn(Wire, old(View()), Packet(seqno, packet), retx)
    {
      missingCnt := AdvanceTo(seqno);
      StrikeOff(seqno, retx);
      ghost var c := View();
      ReceiveStrMsg(seqno, packet);
      assert View() == c.(timeouts := 0, rx := Receive(Wire, Packet(seqno, packet), c.rx));
    }

    /** Asks for what has just been found missing. */
    method AskForGap()
      requires Valid()
      modifies this`sent, this`state, missingList.Repr()
      ensures Valid() && missingList.Repr() <= old(missingList.Repr())
      ensures View() == AnswerData(Wire, old(View()), true)
    {
      if state == Passive {
        EnterPhase(NackWait);
      }
      SendNACK();
    }

    method ReplyToData(missingCnt: nat)
      requires Valid()
      modifies this`sent, this`state, missingList.Repr()
      ensures Valid() && missingList.Repr() <= old(missingList.Repr())
      ensures View() == AnswerData(Wire, old(View()), missingCnt > 0)
    {
      var empty := missingList.IsEmpty();
      if missingCnt > 0 {
        AskForGap();
      } else if empty {
        if state == FinNackWait {
          SendFinAck();
        } else if state == NackWait {
          EnterPhase(Passive);
        }
      }
    }

    method ReceiveData(seqno: int, packet: Payload, retx: bool)
      requires Valid() && Wire.Carried(seqno)
      modifies this, missingList.Repr(), plist.Repr()
      ensures Valid() && fresh(missingList.Repr() - old(missingList.Repr())) && fresh(plist.Repr() - old(plist.Repr()))
      ensures View() == OnData(Wire, old(View()), Packet(seqno, packet), retx)
    {
      var missingCnt := TakePacket(seqno, packet, retx);
      ReplyToData(missingCnt);
    }

    method WaitTimedOut()
      requires Valid()
      modifies this`open, this`state, this`sent, missingList.Repr()
      ensures Valid() && missingList.Repr() <= old(missingList.Repr())
      ensures View() == WaitOn(Wire, old(View()))
    {
      var empty := missingList.IsEmpty();
      if timeoutCount >= MAX_TIMEOUTS {
        open := false;
      } else if !empty {
        SendNACK();
      } else if state == NackWait {
        state := Passive;
      } else {
        SendFinAck();
      }
    }

    method CountTimeout()
      requires Valid()
      modifies this`open, this`state, this`sent, this`timeoutCount, missingList.Repr()
      ensures Valid() && missingList.Repr() <= old(missingList.Repr())
      ensures View() == WaitOn(Wire, old(View()).(timeouts := old(timeoutCount) + 1))
    {
      timeoutCount := timeoutCount + 1;
      WaitTimedOut();
    }

    method TimerFired()
      requires Valid()
      modifies this`open, this`state, this`sent, this`timeoutCount, missingList.Repr()
      ensures Valid() && missingList.Repr() <= old(missingList.Repr())
      ensures View() == OnTimeout(Wire, old(View()))
    {
      if state == Finished {
        open := false;
      } else if state == NackWait || state == FinNackWait {
        CountTimeout();
      } else if state == Passive {
        if deletePending {
          open := false;
        }
      }
    }

    method RequestDelete()
      requires Valid()
      modifies this`open, this`deletePending
      ensures Valid() && View() == Step(Wire, old(View()), DeleteTid)
    {
      if state == Finished {
        open := false;
      } else {
        deletePending := true;
      }
    }
  }
}
