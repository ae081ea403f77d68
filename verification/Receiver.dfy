/** What the stream transport and the rate-controlled transport do with an arriving number:
    notice gaps, buffer out-of-order packets, hand packets up in order, and list the gaps
    in a negative acknowledgement.

    Every function takes the arithmetic to work in.  `Wire` is the 16-bit arithmetic that
    runs; `Unbounded` is the true numbering, in which the protocol is reasoned about.
    InStep shows when the two run in step.
 */
module Receiver {
  import opened SeqNo

  newtype byte = x: int | 0 <= x < 256
  type Payload = seq<byte>

  datatype Arith = Wire | Unbounded {
    function Cmp(a: int, b: int): int {
      if Wire? then SeqNo.Cmp(a, b) else Sign(a - b)
    }

    function Next(n: int): int {
      if Wire? then SeqNo.Next(n) else n + 1
    }

    /** The first number at which `n` has dropped out of the valid range. */
    function Expiry(n: int): int {
      if Wire? then SeqNo.Add(n, VALID_RANGE) else n + VALID_RANGE
    }

    function Diff(a: int, b: int): int {
      if Wire? then SeqNo.Diff(a, b) else a - b
    }

    predicate Precedes(a: int, b: int) {
      if Wire? then SeqNo.Precedes(a, b) else a < b
    }

    /** The numbers that packets carry. */
    predicate Carried(n: int) {
      1 <= n && (Wire? ==> n <= MAX_SEQNO)
    }

    /** The values of lastRecvSeqNo: a carried number, or 0 for none yet. */
    predicate LastSeen(n: int) {
      n == 0 || Carried(n)
    }
  }

  datatype Packet = Packet(num: int, data: Payload)

  /** The receiving half of a connection.  `out` is everything handed to the application. */
  datatype Rx = Rx(next: int, plist: seq<Packet>, out: seq<Packet>)

  predicate Has(ps: seq<Packet>, n: int) {
    exists i :: 0 <= i < |ps| && ps[i].num == n
  }

  // ---------------------------------------------------------------------------
  // The sorted list of out-of-order packets
  // ---------------------------------------------------------------------------

  /** Walks the list to the first entry that `p` precedes. */
  function InsertSorted(m: Arith, ps: seq<Packet>, p: Packet): seq<Packet> {
    if ps == [] then [p]
    else if m.Precedes(p.num, ps[0].num) then [p] + ps
    else [ps[0]] + InsertSorted(m, ps[1..], p)
  }

  function InsertPacket(m: Arith, ps: seq<Packet>, p: Packet): seq<Packet> {
    if Has(ps, p.num) then ps else InsertSorted(m, ps, p)
  }

  // ---------------------------------------------------------------------------
  // Handing packets up
  // ---------------------------------------------------------------------------

  /** Takes in packet `p`: deliver it, drop it as old, or buffer it. */
  function Accept(m: Arith, p: Packet, rx: Rx): Rx {
    var c := m.Cmp(p.num, rx.next);
    if c == 0 then rx.(next := m.Next(rx.next), out := rx.out + [p])
    else if c < 0 then rx
    else rx.(plist := InsertPacket(m, rx.plist, p))
  }

  /** Delivers from the head of the buffer as far as the arrival of `s` allows.  The fourth
      case gives up on a gap: the head is delivered although something before it is missing. */
  function Drain(m: Arith, s: int, rx: Rx): Rx
    decreases |rx.plist|
  {
    if rx.plist == [] then rx else
    var head := rx.plist[0];
    if m.Cmp(head.num, rx.next) == 0 then
      Drain(m, s, Rx(m.Next(rx.next), rx.plist[1..], rx.out + [head]))
    else if m.Cmp(head.num, rx.next) < 0 then
      Drain(m, s, rx.(plist := rx.plist[1..]))
    else if m.Cmp(s, head.num) <= 0 then rx
    else if m.Cmp(s, m.Expiry(head.num)) >= 0 then
      Drain(m, s, Rx(m.Next(head.num), rx.plist[1..], rx.out + [head]))
    else rx
  }

  function Receive(m: Arith, p: Packet, rx: Rx): Rx {
    Drain(m, p.num, Accept(m, p, rx))
  }

  // ---------------------------------------------------------------------------
  // The list of missing numbers
  // ---------------------------------------------------------------------------

  function Insert(l: seq<int>, x: int): seq<int> {
    if x in l then l else l + [x]
  }

  function InsertAll(l: seq<int>, xs: seq<int>): seq<int>
    decreases |xs|
  {
    if xs == [] then l else InsertAll(Insert(l, xs[0]), xs[1..])
  }

  function Delete(l: seq<int>, x: int): seq<int> {
    if l == [] then []
    else if l[0] == x then l[1..]
    else [l[0]] + Delete(l[1..], x)
  }

  /** An upper bound on the steps from `last` up to `s`. */
  function Gap(s: int, last: int): nat {
    if s > last then s - last
    else if s + MAX_SEQNO > last then s + MAX_SEQNO - last
    else 0
  }

  /** The walk from `last` towards `s` gets there. */
  lemma GapShrinks(m: Arith, s: int, last: int)
    requires m.Carried(s) && m.LastSeen(last)
    requires m.Cmp(s, m.Next(last)) > 0
    ensures m.LastSeen(m.Next(last)) && Gap(s, m.Next(last)) < Gap(s, last)
  {
  }

  /** The numbers strictly between `last` and an arriving `s`, oldest first. */
  function Detect(m: Arith, s: int, last: int): seq<int>
    requires m.Carried(s) && m.LastSeen(last)
    decreases Gap(s, last)
  {
    if m.Cmp(s, m.Next(last)) > 0 then
      GapShrinks(m, s, last);
      [m.Next(last)] + Detect(m, s, m.Next(last))
    else []
  }

  // ---------------------------------------------------------------------------
  // Negative acknowledgements
  // ---------------------------------------------------------------------------

  predicate Expired(m: Arith, last: int, n: int) {
    m.Cmp(last, m.Expiry(n)) >= 0
  }

  /** Fills the slots of a NACK from the missing list; `items` are the ones already written.
      Expired numbers met on the way are removed from the list, and the slot is tried again
      with the number that moves up.  Returns the list that is left and the numbers written. */
  function Fill(m: Arith, slots: nat, last: int, missing: seq<int>, items: seq<int>): (seq<int>, seq<int>)
    requires |items| <= slots
    decreases slots - |items| + |missing|
  {
    var i := |items|;
    if i >= slots || i >= |missing| then (missing, items)
    else if Expired(m, last, missing[i]) then
      DeleteLength(missing, missing[i]);
      Fill(m, slots, last, Delete(missing, missing[i]), items)
    else Fill(m, slots, last, missing, items + [missing[i]])
  }

  lemma {:induction false} DeleteLength(l: seq<int>, x: int)
    ensures |Delete(l, x)| == if x in l then |l| - 1 else |l|
  {
    if l != [] && l[0] != x {
      DeleteLength(l[1..], x);
    }
  }
}
