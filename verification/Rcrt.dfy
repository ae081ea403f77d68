/** The receiving end of a rate-controlled connection: one step per packet or timeout.

    Whether a feedback goes out that no loss calls for depends on clocks, measured rates and
    a coin; events carry the outcome of those tests.
 */
module Rcrt {
  import opened SeqNo
  import opened Receiver
  import opened InOrder

  const NACK_SLOTS := 10
  const MAX_JUMP := 100

  datatype Phase = Active | NackWait | FinRetxWait

  datatype Reply =
    | SynAck
    | FinAck(num: int)
    | Feedback(num: int, ack: int, items: seq<int>)

  datatype Event =
    | Syn
    | Fin(num: int)
    | Data(p: Packet, retx: bool, wanted: bool)
    | Timeout(decreased: bool)

  /** A connection.  `ack` is the cumulative acknowledgement that the next feedback carries. */
  datatype Conn = Conn(
    open: bool,
    phase: Phase,
    timeouts: nat,
    last: int,
    ack: int,
    missing: seq<int>,
    rx: Rx,
    sent: seq<Reply>)

  const FRESH := Conn(true, Active, 0, 0, 0, [], Rx(1, [], []), [])

  predicate CarriedEvent(m: Arith, e: Event) {
    match e
    case Fin(n) => m.Carried(n)
    case Data(p, _, _) => m.Carried(p.num)
    case _ => true
  }

  // ---------------------------------------------------------------------------
  // The cumulative acknowledgement
  // ---------------------------------------------------------------------------

  /** How draining moves the acknowledgement: to each packet delivered in order, but to the
      arriving number when a gap is given up. */
  function DrainAck(m: Arith, s: int, rx: Rx, ack: int): int
    decreases |rx.plist|
  {
    if rx.plist == [] then ack else
    var head := rx.plist[0];
    if m.Cmp(head.num, rx.next) == 0 then
      DrainAck(m, s, Rx(m.Next(rx.next), rx.plist[1..], rx.out + [head]), head.num)
    else if m.Cmp(head.num, rx.next) < 0 then
      DrainAck(m, s, rx.(plist := rx.plist[1..]), ack)
    else if m.Cmp(s, head.num) <= 0 then ack
    else if m.Cmp(s, m.Expiry(head.num)) >= 0 then
      DrainAck(m, s, Rx(m.Next(head.num), rx.plist[1..], rx.out + [head]), s)
    else ack
  }

  function ReceiveAck(m: Arith, p: Packet, rx: Rx, ack: int): int {
    DrainAck(m, p.num, Accept(m, p, rx), if m.Cmp(p.num, rx.next) == 0 then p.num else ack)
  }

  // ---------------------------------------------------------------------------
  // Steps
  // ---------------------------------------------------------------------------

  function Found(m: Arith, c: Conn, s: int): seq<int>
    requires m.Carried(s) && m.LastSeen(c.last)
  {
    if m.Cmp(s, c.last) > 0 then Detect(m, s, c.last) else []
  }

  function Advance(m: Arith, c: Conn, s: int): (r: Conn)
    requires m.Carried(s) && m.LastSeen(c.last)
    ensures m.LastSeen(r.last) && r.rx == c.rx
  {
    if m.Cmp(s, c.last) > 0 then
      c.(missing := InsertAll(c.missing, Detect(m, s, c.last)), last := s)
    else c
  }

  function SendFeedback(m: Arith, c: Conn): Conn {
    var (kept, items) := Fill(m, NACK_SLOTS, c.last, c.missing, []);
    c.(missing := kept, sent := c.sent + [Feedback(c.last, c.ack, items)])
  }

  /** Acknowledges the FIN and deletes the connection. */
  function Close(c: Conn): Conn {
    c.(open := false, sent := c.sent + [FinAck(c.last)])
  }

  /** Answers a FIN once the books are up to date. */
  function AnswerFin(m: Arith, c: Conn): Conn {
    if c.missing == [] then Close(c)
    else SendFeedback(m, if c.phase == FinRetxWait then c else c.(phase := FinRetxWait, timeouts := 0))
  }

  function OnFin(m: Arith, c: Conn, s: int): Conn
    requires m.Carried(s) && m.LastSeen(c.last)
  {
    AnswerFin(m, Advance(m, c, s))
  }

  /** A packet too far ahead of the newest one is taken for an error. */
  predicate Refused(m: Arith, c: Conn, p: Packet) {
    m.Cmp(p.num, c.last) > 0 && m.Diff(p.num, c.last) > MAX_JUMP
  }

  /** A retransmission, or any other late packet, is struck off the missing list. */
  function StrikeOff(m: Arith, c: Conn, p: Packet, retx: bool): Conn {
    if retx || m.Cmp(p.num, c.last) < 0 then c.(missing := Delete(c.missing, p.num)) else c
  }

  /** What a data packet does before the replies are decided. */
  function TakeIn(m: Arith, c: Conn, p: Packet, retx: bool): (r: Conn)
    requires m.Carried(p.num) && m.LastSeen(c.last)
    ensures m.LastSeen(r.last)
  {
    var c1 := Advance(m, StrikeOff(m, c, p, retx), p.num);
    if IsNew(m, p, c.rx) then
      c1.(timeouts := 0, rx := Receive(m, p, c.rx), ack := ReceiveAck(m, p, c.rx, c.ack))
    else c1
  }

  /** The state follows the missing list. */
  function Settle(c: Conn): Conn {
    if c.missing == [] && c.phase == NackWait then c.(phase := Active)
    else if c.missing != [] && c.phase == Active then c.(phase := NackWait)
    else c
  }

  /** Answers a data packet once it has been taken in. */
  function AnswerData(m: Arith, c: Conn, feedback: bool): (r: Conn)
    ensures r.rx == c.rx && r.last == c.last
  {
    if c.missing == [] && c.phase == FinRetxWait then Close(c)
    else if feedback then SendFeedback(m, Settle(c))
    else Settle(c)
  }

  function OnData(m: Arith, c: Conn, p: Packet, retx: bool, wanted: bool): Conn
    requires m.Carried(p.num) && m.LastSeen(c.last)
  {
    if Refused(m, c, p) then c
    else AnswerData(m, TakeIn(m, c, p, retx), Found(m, c, p.num) != [] || wanted)
  }

  function OnTimeout(m: Arith, c: Conn, decreased: bool): Conn {
    if c.phase == Active then c
    else SendFeedback(m, c.(timeouts := if c.timeouts + 1 >= 2 && decreased then 0 else c.timeouts + 1))
  }

  function Step(m: Arith, c: Conn, e: Event): (r: Conn)
    requires CarriedEvent(m, e) && m.LastSeen(c.last)
    ensures m.LastSeen(r.last)
  {
    match e
    case Syn => c.(sent := c.sent + [SynAck])
    case Fin(n) => OnFin(m, c, n)
    case Data(p, retx, wanted) => OnData(m, c, p, retx, wanted)
    case Timeout(decreased) => OnTimeout(m, c, decreased)
  }

  // ---------------------------------------------------------------------------
  // Runs
  // ---------------------------------------------------------------------------

  predicate CarriedRun(m: Arith, es: seq<Event>) {
    forall i :: 0 <= i < |es| ==> CarriedEvent(m, es[i])
  }

  function Run(m: Arith, es: seq<Event>): (c: Conn)
    requires CarriedRun(m, es)
    ensures m.LastSeen(c.last)
  {
    if es == [] then FRESH else Step(m, Run(m, es[..|es| - 1]), es[|es| - 1])
  }

  /** What event `e` adds to the packets taken in by connection `c`. */
  function LogOf(m: Arith, c: Conn, e: Event): seq<Packet> {
    if e.Data? && !Refused(m, c, e.p) then [e.p] else []
  }

  /** The data packets taken in, in order of arrival; refused ones do not count. */
  function Log(m: Arith, es: seq<Event>): seq<Packet>
    requires CarriedRun(m, es)
  {
    if es == [] then []
    else Log(m, es[..|es| - 1]) + LogOf(m, Run(m, es[..|es| - 1]), es[|es| - 1])
  }

  function FinOf(e: Event): set<int> {
    if e.Fin? then {e.num} else {}
  }

  /** The numbers of the FINs received. */
  function Fins(es: seq<Event>): set<int> {
    if es == [] then {} else Fins(es[..|es| - 1]) + FinOf(es[|es| - 1])
  }
}
