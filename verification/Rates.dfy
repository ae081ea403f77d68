/** How the rate-controlled transport shares out the total rate under its default policy: every
    flow gets the same fraction of the rate it asked for.

    A flow's rate is stored as an interval in milliseconds between packets.  `Truncated` is the
    stored interval, a whole number no larger than 65534; `Exact` keeps the fraction, and is the
    arithmetic in which rates can be conserved.
 */
module Rates {

  const MAX_INTERVAL := 65534.0

  datatype Rounding = Exact | Truncated

  /** One active flow: the interval it asked for and the interval it has been given. */
  datatype Flow = Flow(req: int, cur: real, alloc: bool)

  /** The interval that stands for a rate.  A rate of 0 makes the division infinite, which is
      beyond the largest interval; a negative one has no defined conversion. */
  function Interval(m: Rounding, rate: real): real {
    if rate <= 0.0 then MAX_INTERVAL
    else if m.Exact? then 1000.0 / rate
    else if 1000.0 / rate < MAX_INTERVAL then (1000.0 / rate).Floor as real
    else MAX_INTERVAL
  }

  function Demand(f: Flow): (d: real)
    requires f.req > 0
    ensures d > 0.0
  {
    1000.0 / f.req as real
  }

  function Rate(f: Flow): real
    requires f.cur > 0.0
  {
    1000.0 / f.cur
  }

  /** Flows as the master admits them: the interval asked for is a 16-bit number, and not 0. */
  predicate Admitted(fs: seq<Flow>) {
    forall f :: f in fs ==> 1 <= f.req <= 65535
  }

  /** Flows that have been given an interval by which a rate can be computed. */
  predicate Rated(fs: seq<Flow>) {
    forall f :: f in fs ==> f.cur > 0.0
  }

  function Demands(fs: seq<Flow>): seq<real>
    requires Admitted(fs)
  {
    seq(|fs|, i requires 0 <= i < |fs| => assert fs[i] in fs; Demand(fs[i]))
  }

  function GivenRates(fs: seq<Flow>): seq<real>
    requires Rated(fs)
  {
    seq(|fs|, i requires 0 <= i < |fs| => assert fs[i] in fs; Rate(fs[i]))
  }

  function Sum(xs: seq<real>): real {
    if xs == [] then 0.0 else xs[0] + Sum(xs[1..])
  }

  function Without(fs: seq<Flow>, i: nat): seq<Flow>
    requires i < |fs|
  {
    fs[..i] + fs[i + 1..]
  }

  lemma {:induction false} SumWithout(xs: seq<real>, i: nat)
    requires i < |xs|
    ensures Sum(xs[..i] + xs[i + 1..]) == Sum(xs) - xs[i]
  {
    if i == 0 {
      assert xs[..0] + xs[1..] == xs[1..];
    } else {
      SumWithout(xs[1..], i - 1);
      assert (xs[..i] + xs[i + 1..])[1..] == xs[1..][..i - 1] + xs[1..][i..];
    }
  }

  lemma DemandWithout(fs: seq<Flow>, i: nat)
    requires Admitted(fs) && i < |fs|
    ensures Admitted(Without(fs, i)) && fs[i].req > 0
    ensures Sum(Demands(Without(fs, i))) == Sum(Demands(fs)) - Demand(fs[i])
  {
    assert fs[i] in fs;
    var ds := Demands(fs);
    assert Demands(Without(fs, i)) == ds[..i] + ds[i + 1..];
    SumWithout(ds, i);
  }

  // ---------------------------------------------------------------------------
  // The rate controller
  // ---------------------------------------------------------------------------

  /** The controller's globals: the number of flows, the total demand, the total rate, their
      ratio, the last delivery rate used for a decrease, the start-up flag, and the flows. */
  datatype Control = Control(
    n: int,
    d: real,
    r: real,
    rho: real,
    lastP: real,
    slowstart: bool,
    flows: seq<Flow>)

  const START := Control(0, 0.0, 0.0, 1.0, 1.0, true, [])

  datatype Event =
    | Join(req: int)
    | Leave(i: nat)
    | Increase
    | Decrease(loss: real)

  function Ratio(d: real, r: real): real {
    if d == 0.0 then 1.0 else r / d
  }

  /** The fraction `rho` of what a flow asks for. */
  function Portion(rho: real, f: Flow): real
    requires f.req > 0
  {
    rho * Demand(f)
  }

  function Reallot(m: Rounding, rho: real, f: Flow): Flow {
    if f.req <= 0 then f else f.(cur := Interval(m, Portion(rho, f)))
  }

  /** Gives every flow the fraction `rho` of its demand. */
  function AllocateByRho(m: Rounding, rho: real, fs: seq<Flow>): seq<Flow> {
    if rho == 0.0 then fs
    else seq(|fs|, i requires 0 <= i < |fs| => Reallot(m, rho, fs[i]))
  }

  /** A flow that joins.  A request without an interval is taken as 50 packets a second; the
      interval of a new flow, which is not initialised, stands at the one requested. */
  function OnJoin(m: Rounding, s: Control, request: int): Control
    requires 0 <= request
  {
    var req := if request == 0 then 20 else request;
    var early := s.r == 0.0 || s.n == 0 || (s.slowstart && s.r <= 25.0);
    var r := if !early then s.r else if req < 2000 then s.r + 0.5 else s.r + 1000.0 / req as real;
    var d := s.d + 1000.0 / req as real;
    var rho := Ratio(d, r);
    s.(n := s.n + 1, d := d, r := r, rho := rho,
       flows := AllocateByRho(m, rho, [Flow(req, req as real, false)] + s.flows))
  }

  /** A flow that leaves: its rate and its demand are taken off, nothing is re-allotted. */
  function OnLeave(s: Control, i: nat): Control
    requires i < |s.flows| && s.flows[i].cur > 0.0
  {
    var f := s.flows[i];
    var r := s.r - Rate(f);
    var d := if f.req > 0 then s.d - Demand(f) else s.d;
    var left := s.(n := s.n - 1, d := d, r := if f.req > 0 && r > d then d else r, flows := Without(s.flows, i));
    var s' := if left.n == 0 then left.(slowstart := true, d := 0.0, r := 0.0) else left;
    s'.(rho := Ratio(s'.d, s'.r))
  }

  function OnIncrease(m: Rounding, s: Control): Control {
    var more := s.r + (if s.slowstart then 2.0 else 1.0);
    var r := if more > s.d && s.d > 0.0 then s.d else more;
    var rho := Ratio(s.d, r);
    if r == s.r then s.(rho := rho)
    else s.(r := r, rho := rho, lastP := 1.0, flows := AllocateByRho(m, rho, s.flows))
  }

  /** The delivery rate that a decrease goes by, given the last one. */
  function DeliveryUsed(loss: real, lastP: real): (p: real)
    requires 0.0 <= loss <= 1.0
    ensures 0.0 <= p <= 1.0
  {
    var p := 1.0 - loss;
    if p < lastP then QuotientInUnit(p, lastP); p / lastP else 1.0
  }

  lemma QuotientInUnit(p: real, q: real)
    requires 0.0 <= p < q
    ensures 0.0 <= p / q <= 1.0
  {
    var x := p / q;
    assert x * q == p;
    SignOfFactor(x, q);
    assert (1.0 - x) * q == q - x * q;
    SignOfFactor(1.0 - x, q);
  }

  /** The factor by which the total rate is reduced. */
  function Factor(p: real): real
    requires p < 2.0
  {
    var dec := p / (2.0 - p);
    var atLeast := if dec < 0.5 then 0.5 else dec;
    if atLeast > 0.98 then 1.0 else atLeast
  }

  function Product(a: real, b: real): real {
    a * b
  }

  function Shrunk(s: Control, p: real): real
    requires p < 2.0
  {
    Product(Factor(p), s.r)
  }

  function Floored(x: real, low: real): real {
    if x < low then low else x
  }

  /** The total rate after a decrease: never less than one packet per flow in 30 seconds. */
  function Reduced(s: Control, p: real): real
    requires p < 2.0
  {
    Floored(Shrunk(s, p), s.n as real / 30.0)
  }

  function OnDecrease(m: Rounding, s: Control, loss: real): Control
    requires 0.0 <= loss <= 1.0
  {
    var p := DeliveryUsed(loss, s.lastP);
    var r := Reduced(s, p);
    if r == s.r then s.(lastP := p)
    else
      var rho := Ratio(s.d, r);
      s.(lastP := p, r := r, rho := rho, slowstart := false, flows := AllocateByRho(m, rho, s.flows))
  }

  // ---------------------------------------------------------------------------
  // Runs
  // ---------------------------------------------------------------------------

  /** Requests are 16-bit; the flow that leaves is an active one whose interval is not 0; it takes
      a packet of some flow to change the total rate; loss rates are at most 1/2, as the loss
      estimator guarantees. */
  predicate Possible(s: Control, e: Event) {
    match e
    case Join(req) => 0 <= req < 65536
    case Leave(i) => i < |s.flows| && s.flows[i].cur > 0.0
    case Increase => s.flows != []
    case Decrease(loss) => s.flows != [] && 0.0 <= loss <= 0.5
  }

  function Step(m: Rounding, s: Control, e: Event): Control
    requires Possible(s, e)
  {
    match e
    case Join(req) => OnJoin(m, s, req)
    case Leave(i) => OnLeave(s, i)
    case Increase => OnIncrease(m, s)
    case Decrease(loss) => OnDecrease(m, s, loss)
  }

  /** What the counters are: the number of flows, the sum of their demands, and the ratio. */
  ghost predicate Inv(s: Control) {
    && s.n == |s.flows| && Admitted(s.flows)
    && s.d == Sum(Demands(s.flows)) && s.rho == Ratio(s.d, s.r)
    && 0.5 <= s.lastP <= 1.0
    && (s.n == 0 ==> s.r == 0.0)
  }

  lemma DeliveryRange(loss: real, lastP: real)
    requires 0.0 <= loss <= 0.5 && 0.5 <= lastP <= 1.0
    ensures 0.5 <= DeliveryUsed(loss, lastP) <= 1.0
  {
    var p := 1.0 - loss;
    if p < lastP {
      assert (p / lastP) * lastP == p;
      QuotientBounds(p, lastP);
    }
  }

  lemma SignOfFactor(a: real, q: real)
    requires q > 0.0 && a * q >= 0.0
    ensures a >= 0.0
  {
  }

  lemma QuotientBounds(p: real, q: real)
    requires 0.5 <= p < q <= 1.0
    ensures 0.5 <= p / q <= 1.0
  {
    var x := p / q;
    assert x * q == p;
    assert (x - 0.5) * q == p - 0.5 * q >= 0.0;
    SignOfFactor(x - 0.5, q);
    assert (1.0 - x) * q == q - p >= 0.0;
    SignOfFactor(1.0 - x, q);
  }

  /** A decrease at least keeps half of the total rate, and never raises it. */
  lemma FactorRange(p: real)
    requires 0.5 <= p <= 1.0
    ensures 0.5 <= Factor(p) <= 1.0
    ensures p == 1.0 ==> Factor(p) == 1.0
  {
    var x := p / (2.0 - p);
    assert x * (2.0 - p) == p;
    assert (1.0 - x) * (2.0 - p) == 2.0 - p - p >= 0.0;
    SignOfFactor(1.0 - x, 2.0 - p);
  }
}
