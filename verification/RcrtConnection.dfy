/** The master side of a rate-controlled connection as it runs: fields updated in place, over
    the two linked lists, in 16-bit arithmetic.  Every method is proved to do one step of
    `Rcrt`. */
module RcrtConnection {
  import opened SeqNo
  import opened Receiver
  import opened InOrder
  import opened Rcrt
  import MissingList
  import U16List
  import SortedPacketList

  class Connection {
    var open: bool
    var state: Phase
    var timeoutCount: nat
    var lastRecvSeqNo: int
    var nextAckSeqNo: int
    var nextExpectedSeqNo: int
    const missingList: U16List.List
    const plist: SortedPacketList.List
    var delivered: seq<Packet>
    var sent: seq<Reply>

    ghost predicate Valid()
      reads this, missingList, plist, missingList.Repr(), plist.Repr()
    {
      && missingList.Valid() && BufferValid() && Wire.LastSeen(lastRecvSeqNo)
      && missingList.Repr() !! plist.Repr() && this !in missingList.Repr() && this !in plist.Repr()
    }

    /** -1 is not the number of a buffered packet, but the mark of an empty buffer. */
    ghost predicate BufferValid()
      reads this, plist, plist.Repr()
    {
      plist.Valid() && this !in plist.Repr() && forall p :: p in plist.Contents() ==> p.num >= 0
    }

    ghost function Delivery(): Rx
      reads this, plist, plist.Repr()
    {
      Rx(nextExpectedSeqNo, plist.Contents(), delivered)
    }

    /** The connection as a value. */
    ghost function View(): Conn
      reads this, missingList, plist, missingList.Repr(), plist.Repr()
    {
      Conn(open, state, timeoutCount, lastRecvSeqNo, nextAckSeqNo, missingList.Contents(), Delivery(), sent)
    }

    constructor ()
      ensures Valid() && fresh(missingList.Repr()) && fresh(plist.Repr()) && View() == FRESH
    {
      open, state, timeoutCount := true, Active, 0;
      lastRecvSeqNo, nextAckSeqNo, nextExpectedSeqNo := 0, 0, 1;
      missingList := new U16List.List();
      plist := new SortedPacketList.List();
      delivered, sent := [], [];
    }

    method SendFEEDBACK()
      requires Valid()
      modifies this`sent, missingList.Repr()
      ensures Valid() && missingList.Repr() <= old(missingList.Repr())
      ensures View() == SendFeedback(Wire, old(View()))
    {
      var nacklist := MissingList.FillSlots(missingList, NACK_SLOTS, lastRecvSeqNo);
      sent := sent + [Feedback(lastRecvSeqNo, nextAckSeqNo, nacklist)];
    }

    /** Acknowledges the FIN and deletes the connection. */
    method SendFinAck()
      modifies this`sent, this`open
      ensures View() == Close(old(View()))
    {
      sent := sent + [FinAck(lastRecvSeqNo)];
      open := false;
    }

    // -------------------------------------------------------------------------
    // Reception
    // -------------------------------------------------------------------------

    /** Delivers, drops or buffers the packet that has arrived. */
    method AcceptPacket(seqno: int, packet: Payload)
      requires BufferValid() && Wire.Carried(seqno)
      modifies this`delivered, this`nextExpectedSeqNo, this`nextAckSeqNo, plist.Repr()
      ensures BufferValid() && fresh(plist.Repr() - old(plist.Repr()))
      ensures Delivery() == Accept(Wire, Packet(seqno, packet), old(Delivery()))
      ensures nextAckSeqNo == if Cmp(seqno, old(nextExpectedSeqNo)) == 0 then seqno else old(nextAckSeqNo)
    {
      ghost var before := plist.Contents();
      if Cmp(seqno, nextExpectedSeqNo) == 0 {
        delivered := delivered + [Packet(seqno, packet)];
        nextAckSeqNo := seqno;
        nextExpectedSeqNo := Next(nextExpectedSeqNo);
      } else if Cmp(seqno, nextExpectedSeqNo) < 0 {
      } else {
        var found := plist.Find(seqno);
        if found < 0 {
          plist.Add(seqno, packet);
          SortedPacketList.InsertSortedWithin(before, Packet(seqno, packet));
        }
      }
    }

    /** Delivers the head of the buffer, expects `next` from then on, and acknowledges `ack`. */
    method DeliverHead(next: int, ack: int)
      requires BufferValid() && plist.Contents() != []
      modifies this`delivered, this`nextExpectedSeqNo, this`nextAckSeqNo, plist
      ensures BufferValid() && plist.length < old(plist.length) && plist.Repr() <= old(plist.Repr())
      ensures Delivery() == old(Rx(next, plist.Contents()[1..], delivered + [plist.Contents()[0]]))
      ensures nextAckSeqNo == ack
    {
      var p := plist.TakeHead();
      delivered := delivered + [p];
      nextAckSeqNo := ack;
      nextExpectedSeqNo := next;
    }

    /** Drops the head of the buffer. */
    method DropHead()
      requires BufferValid() && plist.Contents() != []
      modifies plist
      ensures BufferValid() && plist.length < old(plist.length) && plist.Repr() <= old(plist.Repr())
      ensures Delivery() == old(Delivery().(plist := plist.Contents()[1..]))
    {
      var _ := plist.TakeHead();
    }

    /** The number at the head of the buffer, or the mark of an empty one. */
    method FirstInBuffer() returns (first: int)
      requires BufferValid()
      ensures if plist.Contents() == [] then first == -1 else first == plist.Contents()[0].num >= 0
    {
      first := plist.GetFirstValue();
      assert plist.Contents() != [] ==> plist.Contents()[0] in plist.Contents();
    }

    /** Looks at the head of the buffer once.  Returns whether to go on. */
    method DrainOnce(seqno: int) returns (more: bool)
      requires BufferValid()
      modifies this`delivered, this`nextExpectedSeqNo, this`nextAckSeqNo, plist
      ensures BufferValid() && (more ==> plist.length < old(plist.length))
      ensures plist.Repr() <= old(plist.Repr())
      ensures Drain(Wire, seqno, Delivery()) == Drain(Wire, seqno, old(Delivery()))
      ensures DrainAck(Wire, seqno, Delivery(), nextAckSeqNo) == DrainAck(Wire, seqno, old(Delivery()), old(nextAckSeqNo))
      ensures !more ==> Drain(Wire, seqno, Delivery()) == Delivery()
      ensures !more ==> DrainAck(Wire, seqno, Delivery(), nextAckSeqNo) == nextAckSeqNo
    {
      var first := FirstInBuffer();
      if first == -1 {
        return false;
      }
      more := true;
      if Cmp(first, nextExpectedSeqNo) == 0 {
        DeliverHead(Next(nextExpectedSeqNo), first);
      } else if Cmp(first, nextExpectedSeqNo) < 0 {
        DropHead();
      } else if Cmp(seqno, first) <= 0 {
        more := false;
      } else if Cmp(seqno, Add(first, VALID_RANGE)) >= 0 {
        DeliverHead(Next(first), seqno);
      } else {
        more := false;
      }
    }

    /** Delivers from the buffer as far as the arrival of `seqno` allows. */
    method DrainBuffer(seqno: int)
      requires BufferValid()
      modifies this`delivered, this`nextExpectedSeqNo, this`nextAckSeqNo, plist
      ensures BufferValid() && plist.Repr() <= old(plist.Repr())
      ensures Delivery() == Drain(Wire, seqno, old(Delivery()))
      ensures nextAckSeqNo == DrainAck(Wire, seqno, old(Delivery()), old(nextAckSeqNo))
    {
      ghost var goal, ackGoal := Drain(Wire, seqno, Delivery()), DrainAck(Wire, seqno, Delivery(), nextAckSeqNo);
      var more := true;
      while more
        invariant BufferValid() && plist.Repr() <= old(plist.Repr())
        invariant Drain(Wire, seqno, Delivery()) == goal && (!more ==> Delivery() == goal)
        invariant DrainAck(Wire, seqno, Delivery(), nextAckSeqNo) == ackGoal && (!more ==> nextAckSeqNo == ackGoal)
        decreases more, plist.length
      {
        more := DrainOnce(seqno);
      }
    }

    /** Takes a packet in and delivers what has become deliverable. */
    method ReceiveRtrMsg(seqno: int, packet: Payload)
      requires BufferValid() && Wire.Carried(seqno)
      modifies this`delivered, this`nextExpectedSeqNo, this`nextAckSeqNo, plist.Repr()
      ensures BufferValid() && fresh(plist.Repr() - old(plist.Repr()))
      ensures Delivery() == Receive(Wire, Packet(seqno, packet), old(Delivery()))
      ensures nextAckSeqNo == ReceiveAck(Wire, Packet(seqno, packet), old(Delivery()), old(nextAckSeqNo))
    {
      AcceptPacket(seqno, packet);
      DrainBuffer(seqno);
    }

    // -------------------------------------------------------------------------
    // Packets and timeouts
    // -------------------------------------------------------------------------

    method ReceiveSyn()
      requires Valid()
      modifies this`sent
      ensures Valid() && View() == Step(Wire, old(View()), Syn)
    {
      sent := sent + [SynAck];
    }

    /** Moves the books up to a number newer than all others.  Returns how many are missing. */
    method AdvanceTo(seqno: int) returns (missingCnt: nat)
      requires Valid() && Wire.Carried(seqno)
      modifies this`lastRecvSeqNo, missingList.Repr()
      ensures Valid() && fresh(missingList.Repr() - old(missingList.Repr()))
      ensures missingCnt == |Found(Wire, old(View()), seqno)|
      ensures View() == Advance(Wire, old(View()), seqno)
    {
      missingCnt := 0;
      if Cmp(seqno, lastRecvSeqNo) > 0 {
        missingCnt := MissingList.DetectGap(missingList, seqno, lastRecvSeqNo);
        lastRecvSeqNo := seqno;
      }
    }

    method ReplyToFin()
      requires Valid()
      modifies this`sent, this`state, this`timeoutCount, this`open, missingList.Repr()
      ensures Valid() && missingList.Repr() <= old(missingList.Repr())
      ensures View() == AnswerFin(Wire, old(View()))
    {
      var empty := missingList.IsEmpty();
      if empty {
        SendFinAck();
      } else {
        WaitForEnd();
        SendFEEDBACK();
      }
    }

    /** Waits for what is missing before a FIN, if it does not already. */
    method WaitForEnd()
      requires Valid()
      modifies this`state, this`timeoutCount
      ensures Valid()
      ensures View() == if old(state) == FinRetxWait then old(View())
                        else old(View()).(phase := FinRetxWait, timeouts := 0)
    {
      if state != FinRetxWait {
        state := FinRetxWait;
        timeoutCount := 0;
      }
    }

    method ReceiveFin(seqno: int)
      requires Valid() && Wire.Carried(seqno)
      modifies this`lastRecvSeqNo, this`sent, this`state, this`timeoutCount, this`open, missingList.Repr()
      ensures Valid() && fresh(missingList.Repr() - old(missingList.Repr()))
      ensures View() == OnFin(Wire, old(View()), seqno)
    {
      var _ := AdvanceTo(seqno);
      ReplyToFin();
    }

    /** Strikes a retransmission, or any other late packet, off the missing list. */
    method StrikeOffList(seqno: int, retx: bool)
      requires Valid()
      modifies missingList.Repr()
      ensures Valid() && missingList.Repr() <= old(missingList.Repr())
      ensures View() == old(View()).(missing :=
                if retx || Cmp(seqno, lastRecvSeqNo) < 0 then Delete(old(missingList.Contents()), seqno)
                else old(missingList.Contents()))
    {
      if retx {
        var _ := missingList.Remove(seqno);
      } else if Cmp(seqno, lastRecvSeqNo) < 0 {
        var _ := missingList.Remove(seqno);
      }
    }

    /** Whether a packet is still awaited and not buffered. */
    method IsNewPacket(seqno: int) returns (newpkt: bool)
      requires BufferValid() && Wire.Carried(seqno)
      ensures newpkt <==> Cmp(seqno, nextExpectedSeqNo) >= 0 && !Has(plist.Contents(), seqno)
    {
      var found := plist.Find(seqno);
      newpkt := Cmp(seqno, nextExpectedSeqNo) >= 0 && found < 0;
    }

    /** Takes in a packet that is new. */
    method TakeNewPacket(seqno: int, packet: Payload)
      requires Valid() && Wire.Carried(seqno)
      modifies this`timeoutCount, this`delivered, this`nextExpectedSeqNo, this`nextAckSeqNo, plist.Repr()
      ensures Valid() && fresh(plist.Repr() - old(plist.Repr()))
      ensures View() == old(View()).(timeouts := 0,
                rx := Receive(Wire, Packet(seqno, packet), old(Delivery())),
                ack := ReceiveAck(Wire, Packet(seqno, packet), old(Delivery()), old(nextAckSeqNo)))
    {
      timeoutCount := 0;
      ReceiveRtrMsg(seqno, packet);
    }

    /** Updates the lists and counters, and delivers a packet that is new. */
    method TakePacket(seqno: int, packet: Payload, retx: bool) returns (missingCnt: nat)
      requires Valid() && Wire.Carried(seqno)
      modifies this`lastRecvSeqNo, this`timeoutCount, this`delivered, this`nextExpectedSeqNo, this`nextAckSeqNo
      modifies missingList.Repr(), plist.Repr()
      ensures Valid() && fresh(missingList.Repr() - old(missingList.Repr())) && fresh(plist.Repr() - old(plist.Repr()))
      ensures missingCnt == |Found(Wire, old(View()), seqno)|
      ensures View() == TakeIn(Wire, old(View()), Packet(seqno, packet), retx)
    {
      var newpkt := IsNewPacket(seqno);
      StrikeOffList(seqno, retx);
      missingCnt := AdvanceTo(seqno);
      if newpkt {
        TakeNewPacket(seqno, packet);
      }
    }

    /** The state follows the missing list. */
    method FollowList()
      requires Valid()
      modifies this`state
      ensures Valid() && View() == Settle(old(View()))
    {
      var empty := missingList.IsEmpty();
      if empty {
        if state == NackWait {
          state := Active;
        }
      } else {
        if state == Active {
          state := NackWait;
        }
      }
    }

    method ReplyToData(feedback: bool)
      requires Valid()
      modifies this`sent, this`state, this`open, missingList.Repr()
      ensures Valid() && missingList.Repr() <= old(missingList.Repr())
      ensures View() == AnswerData(Wire, old(View()), feedback)
    {
      var empty := missingList.IsEmpty();
      if empty && state == FinRetxWait {
        SendFinAck();
        return;
      }
      FollowList();
      if feedback {
        SendFEEDBACK();
      }
    }

    method ReceiveData(seqno: int, packet: Payload, retx: bool, wanted: bool)
      requires Valid() && Wire.Carried(seqno)
      modifies this, missingList.Repr(), plist.Repr()
      ensures Valid() && fresh(missingList.Repr() - old(missingList.Repr())) && fresh(plist.Repr() - old(plist.Repr()))
      ensures View() == OnData(Wire, old(View()), Packet(seqno, packet), retx, wanted)
    {
      if Cmp(seqno, lastRecvSeqNo) > 0 && Diff(seqno, lastRecvSeqNo) > MAX_JUMP {
        return;
      }
      var missingCnt := TakePacket(seqno, packet, retx);
      ReplyToData(missingCnt > 0 || wanted);
    }

    /** Counts a timeout; a decrease of the rates after two of them starts the count again. */
    method CountTimeout(decreased: bool)
      requires Valid()
      modifies this`timeoutCount
      ensures Valid()
      ensures View() == old(View()).(timeouts := if old(timeoutCount) + 1 >= 2 && decreased then 0 else old(timeoutCount) + 1)
    {
      timeoutCount := timeoutCount + 1;
      if timeoutCount >= 2 {
        if decreased {
          timeoutCount := 0;
        }
      }
    }

    method TimerFired(decreased: bool)
      requires Valid()
      modifies this`sent, this`timeoutCount, missingList.Repr()
      ensures Valid() && missingList.Repr() <= old(missingList.Repr())
      ensures View() == OnTimeout(Wire, old(View()), decreased)
    {
      if state == NackWait || state == FinRetxWait {
        CountTimeout(decreased);
        SendFEEDBACK();
      }
    }
  }
}
