/** What both transports do with the list of missing numbers, in loops over the linked list: enter a
    gap, and fill the slots of a negative acknowledgement. */
module MissingList {
  import opened SeqNo
  import opened Receiver
  import U16List

  /** One turn of the loop that enters a gap. */
  lemma GapTurn(l: seq<int>, seqno: int, last: int)
    requires Wire.Carried(seqno) && Wire.LastSeen(last) && Cmp(seqno, Next(last)) > 0
    ensures Wire.LastSeen(Next(last)) && Gap(seqno, Next(last)) < Gap(seqno, last)
    ensures Next(last) != U16List.NOT_FOUND
    ensures Detect(Wire, seqno, last) == [Next(last)] + Detect(Wire, seqno, Next(last))
    ensures InsertAll(l, Detect(Wire, seqno, last)) ==
            InsertAll(Insert(l, Next(last)), Detect(Wire, seqno, Next(last)))
  {
    GapShrinks(Wire, seqno, last);
    var d := Detect(Wire, seqno, Next(last));
    assert ([Next(last)] + d)[1..] == d;
  }

  /** Lists the numbers between the newest one and `seqno` as missing.  Returns how many. */
  method DetectGap(list: U16List.List, seqno: int, last: int) returns (detected: nat)
    requires list.Valid() && Wire.Carried(seqno) && Wire.LastSeen(last)
    modifies list.Repr()
    ensures list.Valid() && fresh(list.Repr() - old(list.Repr()))
    ensures detected == |Detect(Wire, seqno, last)|
    ensures list.Contents() == InsertAll(old(list.Contents()), Detect(Wire, seqno, last))
  {
    detected := 0;
    var lastSeqNo := last;
    ghost var goal := InsertAll(list.Contents(), Detect(Wire, seqno, last));
    while Cmp(seqno, Next(lastSeqNo)) > 0
      invariant list.Valid() && fresh(list.Repr() - old(list.Repr()))
      invariant Wire.LastSeen(lastSeqNo)
      invariant detected + |Detect(Wire, seqno, lastSeqNo)| == |Detect(Wire, seqno, last)|
      invariant InsertAll(list.Contents(), Detect(Wire, seqno, lastSeqNo)) == goal
      decreases Gap(seqno, lastSeqNo)
    {
      GapTurn(list.Contents(), seqno, lastSeqNo);
      lastSeqNo := Next(lastSeqNo);
      list.Add(lastSeqNo);
      detected := detected + 1;
    }
  }

  /** Fills the next slot of a NACK from the list, or strikes off a number that has expired, in which
      case the slot is tried again.  Returns the number written, if one was. */
  method FillSlot(list: U16List.List, last: int, i: nat) returns (written: bool, item: int)
    requires list.Valid() && i < list.length
    modifies list.Repr()
    ensures list.Valid() && list.Repr() <= old(list.Repr()) && list.length <= old(list.length)
    ensures item == old(list.Contents())[i] && (written <==> Cmp(last, Add(item, VALID_RANGE)) < 0)
    ensures list.Contents() == if written then old(list.Contents()) else Delete(old(list.Contents()), item)
    ensures !written ==> list.length < old(list.length)
  {
    ghost var l := list.Contents();
    item := list.GetIth(i + 1);
    written := Cmp(last, Add(item, VALID_RANGE)) < 0;
    if !written {
      DeleteLength(l, item);
      var _ := list.Remove(item);
    }
  }

  /** Fills the slots of a NACK from the list. */
  method FillSlots(list: U16List.List, slots: nat, last: int) returns (items: seq<int>)
    requires list.Valid()
    modifies list.Repr()
    ensures list.Valid() && list.Repr() <= old(list.Repr())
    ensures (list.Contents(), items) == Fill(Wire, slots, last, old(list.Contents()), [])
  {
    items := [];
    var i := 0;
    ghost var goal := Fill(Wire, slots, last, list.Contents(), []);
    while i < slots
      invariant |items| <= i <= slots && (|items| < i ==> |items| >= list.length)
      invariant list.Valid() && list.Repr() <= old(list.Repr())
      invariant Fill(Wire, slots, last, list.Contents(), items) == goal
      decreases slots - i + list.length
    {
      FillStep(slots, last, list.Contents(), items);
      if i < list.length {
        var written, item := FillSlot(list, last, i);
        if written {
          items := items + [item];
          i := i + 1;
        }
      } else {
        i := i + 1;   // the slots beyond the list stay zero
      }
    }
    FillStep(slots, last, list.Contents(), items);
  }

  /** One turn of the loop that fills the slots. */
  lemma FillStep(slots: nat, last: int, l: seq<int>, items: seq<int>)
    requires |items| <= slots
    ensures var i := |items|;
            Fill(Wire, slots, last, l, items) ==
              if i >= slots || i >= |l| then (l, items)
              else if Cmp(last, Add(l[i], VALID_RANGE)) >= 0 then Fill(Wire, slots, last, Delete(l, l[i]), items)
              else Fill(Wire, slots, last, l, items + [l[i]])
  {
  }
}
