/** The receiving end of a stream connection: one step per packet or timeout. */
module Stream {
  import opened SeqNo
  import opened Receiver

  const NACK_SLOTS := 5
  const MAX_TIMEOUTS := 50

  datatype Phase = Passive | NackWait | FinNackWait | Finished

  datatype Reply =
    | SynAck
    | FinAck(num: int)
    | Nack(num: int, items: seq<int>)

  /** What can happen to a live connection.  A timeout is possible at any time. */
  datatype Event =
    | Syn
    | Fin(num: int)
    | Data(p: Packet, retx: bool)
    | Timeout
    | DeleteTid

  /** A connection.  `sent` is everything sent back to the mote.  A connection that is no
      longer `open` has been deleted. */
  datatype Conn = Conn(
    open: bool,
    phase: Phase,
    deletePending: bool,
    timeouts: nat,
    last: int,
    missing: seq<int>,
    rx: Rx,
    sent: seq<Reply>)

  /** The connection that a SYN numbered `syn` creates. */
  function Fresh(syn: int): Conn {
    Conn(true, Passive, false, 0, syn, [], Rx(syn + 1, [], []), [])
  }

  /** The numbers of an event and of a connection can be carried. */
  predicate CarriedEvent(m: Arith, e: Event) {
    match e
    case Fin(n) => m.Carried(n)
    case Data(p, _) => m.Carried(p.num)
    case _ => true
  }

  /** The gaps that an arriving number `s` reveals. */
  function Found(m: Arith, c: Conn, s: int): seq<int>
    requires m.Carried(s) && m.LastSeen(c.last)
  {
    if m.Cmp(s, c.last) > 0 then Detect(m, s, c.last) else []
  }

  /** Every number newer than the newest one moves the books forward. */
  function Advance(m: Arith, c: Conn, s: int): (r: Conn)
    requires m.Carried(s) && m.LastSeen(c.last)
    ensures m.LastSeen(r.last) && r.rx == c.rx
  {
    if m.Cmp(s, c.last) > 0 then
      c.(missing := InsertAll(c.missing, Detect(m, s, c.last)), last := s)
    else c
  }

  function SendNack(m: Arith, c: Conn): Conn {
    var (kept, items) := Fill(m, NACK_SLOTS, c.last, c.missing, []);
    if c.missing == [] then c
    else c.(missing := kept, sent := c.sent + [Nack(c.last, items)])
  }

  function Finish(c: Conn): Conn {
    c.(phase := Finished, sent := c.sent + [FinAck(c.last)])
  }

  /** Answers a FIN once the books are up to date. */
  function AnswerFin(m: Arith, c: Conn): Conn {
    if c.missing == [] then Finish(c)
    else SendNack(m, c.(timeouts := 0)).(phase := FinNackWait)
  }

  function OnFin(m: Arith, c: Conn, s: int): Conn
    requires m.Carried(s) && m.LastSeen(c.last)
  {
    AnswerFin(m, Advance(m, c, s))
  }

  /** What a data packet does before the replies are decided. */
  function TakeIn(m: Arith, c: Conn, p: Packet, retx: bool): (r: Conn)
    requires m.Carried(p.num) && m.LastSeen(c.last)
    ensures m.LastSeen(r.last)
  {
    var c1 := Advance(m, c, p.num);
    c1.(missing := if retx then Delete(c1.missing, p.num) else c1.missing,
        timeouts := 0,
        rx := Receive(m, p, c1.rx))
  }

  /** Answers a data packet once it has been taken in. */
  function AnswerData(m: Arith, c: Conn, gap: bool): (r: Conn)
    ensures r.rx == c.rx && r.last == c.last
  {
    if gap then SendNack(m, if c.phase == Passive then c.(phase := NackWait) else c)
    else if c.missing == [] && c.phase == FinNackWait then Finish(c)
    else if c.missing == [] && c.phase == NackWait then c.(phase := Passive)
    else c
  }

  function OnData(m: Arith, c: Conn, p: Packet, retx: bool): Conn
    requires m.Carried(p.num) && m.LastSeen(c.last)
  {
    AnswerData(m, TakeIn(m, c, p, retx), Found(m, c, p.num) != [])
  }

  /** A timeout while waiting for missing packets. */
  function WaitOn(m: Arith, c: Conn): Conn {
    if c.timeouts >= MAX_TIMEOUTS then c.(open := false)
    else if c.missing != [] then SendNack(m, c)
    else if c.phase == NackWait then c.(phase := Passive)
    else Finish(c)
  }

  function OnTimeout(m: Arith, c: Conn): Conn {
    match c.phase
    case Finished => c.(open := false)
    case Passive => if c.deletePending then c.(open := false) else c
    case _ => WaitOn(m, c.(timeouts := c.timeouts + 1))
  }

  function OnDeleteTid(c: Conn): Conn {
    if c.phase == Finished then c.(open := false) else c.(deletePending := true)
  }

  function Step(m: Arith, c: Conn, e: Event): (r: Conn)
    requires CarriedEvent(m, e) && m.LastSeen(c.last)
    ensures m.LastSeen(r.last)
  {
    match e
    case Syn => c.(sent := c.sent + [SynAck])
    case Fin(n) => OnFin(m, c, n)
    case Data(p, retx) => OnData(m, c, p, retx)
    case Timeout => OnTimeout(m, c)
    case DeleteTid => OnDeleteTid(c)
  }

  // ---------------------------------------------------------------------------
  // Runs
  // ---------------------------------------------------------------------------

  predicate CarriedRun(m: Arith, es: seq<Event>) {
    forall i :: 0 <= i < |es| ==> CarriedEvent(m, es[i])
  }

  /** The connection created by SYN `syn`, after the events `es`. */
  function Run(m: Arith, syn: int, es: seq<Event>): (c: Conn)
    requires CarriedRun(m, es) && m.LastSeen(syn)
    ensures m.LastSeen(c.last)
  {
    if es == [] then Fresh(syn)
    else Step(m, Run(m, syn, es[..|es| - 1]), es[|es| - 1])
  }

  function LogOf(e: Event): seq<Packet> {
    if e.Data? then [e.p] else []
  }

  /** The data packets among the events, in order of arrival. */
  function Log(es: seq<Event>): seq<Packet> {
    if es == [] then [] else Log(es[..|es| - 1]) + LogOf(es[|es| - 1])
  }

  function FinOf(e: Event): set<int> {
    if e.Fin? then {e.num} else {}
  }

  /** The numbers of the FINs among the events. */
  function Fins(es: seq<Event>): set<int> {
    if es == [] then {} else Fins(es[..|es| - 1]) + FinOf(es[|es| - 1])
  }
}
