/** What every event does to the rates, in numbers: the program's divisions are told as products, and
    its comparisons with quotients as bounds. */
module RateSteps {
  import opened Rates
  import opened RateRuns

  // ---------------------------------------------------------------------------
  // Intervals
  // ---------------------------------------------------------------------------

  /** The interval that a flow which asked for `req` is given when everyone gets `rho` of its demand:
      the quotient, cut to whole milliseconds where it is stored, and never more than 65534. */
  predicate Quotient(m: Rounding, req: int, rho: real, cur: real) {
    if m.Exact? then Product(cur, rho) == req as real
    else if req as real >= 65534.0 * rho then cur == 65534.0
    else cur == cur.Floor as real && Product(cur, rho) <= req as real < Product(cur + 1.0, rho)
  }

  /** What a new allotment makes of a flow; a ratio of 0 leaves it alone, and one below 0 is the
      longest interval. */
  predicate GivenOut(m: Rounding, rho: real, f: Flow, g: Flow) {
    && g.req == f.req && g.alloc == f.alloc
    && if rho == 0.0 then g.cur == f.cur
       else if rho < 0.0 then g.cur == 65534.0
       else Quotient(m, f.req, rho, g.cur)
  }

  ghost predicate AllGivenOut(m: Rounding, rho: real, fs: seq<Flow>, gs: seq<Flow>) {
    |gs| == |fs| && forall i :: 0 <= i < |fs| ==> GivenOut(m, rho, fs[i], gs[i])
  }

  lemma ScaledRate(req: int, rho: real)
    requires req > 0 && rho > 0.0
    ensures var rate := rho * (1000.0 / req as real);
            rate > 0.0 && rate * req as real == 1000.0 * rho
  {
    var d := 1000.0 / req as real;
    assert d * req as real == 1000.0;
    ProductPositive(rho, d);
    assert (rho * d) * req as real == rho * (d * req as real);
    TimesEqual(rho, d * req as real, 1000.0);
  }

  /** The quotient by the rate is the quotient by the ratio. */
  lemma SameQuotient(rate: real, req: int, rho: real, x: real)
    requires rate > 0.0 && rho > 0.0 && req > 0 && rate * req as real == 1000.0 * rho && x * rate == 1000.0
    ensures x * rho == req as real
  {
    var q := req as real;
    assert x * (rate * q) == (x * rate) * q;
    TimesEqual(x, rate * q, 1000.0 * rho);
    TimesEqual(q, x * rate, 1000.0);
    assert 1000.0 * (x * rho) == x * (1000.0 * rho);
    assert q * (x * rate) == (x * rate) * q;
  }

  lemma NotNegative(a: real, b: real)
    requires a >= 0.0 && b > 0.0
    ensures a * b >= 0.0
  {
  }

  lemma Increasing(a: real, b: real, k: real)
    requires k > 0.0
    ensures a <= b ==> Product(a, k) <= Product(b, k)
    ensures a < b ==> Product(a, k) < Product(b, k)
  {
    if a <= b { NotNegative(b - a, k); }
    if a < b { ProductPositive(b - a, k); }
    assert (b - a) * k == b * k - a * k;
  }

  lemma FloorBounds(x: real, rho: real)
    requires rho > 0.0
    ensures Product(x.Floor as real, rho) <= Product(x, rho) < Product(x.Floor as real + 1.0, rho)
  {
    Increasing(x.Floor as real, x, rho);
    Increasing(x, x.Floor as real + 1.0, rho);
  }

  lemma LongerThan(x: real, rho: real, req: int)
    requires rho > 0.0 && x * rho == req as real
    ensures x >= 65534.0 <==> req as real >= 65534.0 * rho
  {
    if x >= 65534.0 {
      NotNegative(x - 65534.0, rho);
      Distribute(rho, x, -65534.0);
    } else {
      ProductPositive(65534.0 - x, rho);
      Distribute(rho, 65534.0, -x);
    }
  }

  lemma TruncatedQuotient(req: int, rho: real, x: real)
    requires rho > 0.0 && x * rho == req as real && x < 65534.0
    ensures Quotient(Truncated, req, rho, x.Floor as real)
  {
    LongerThan(x, rho, req);
    FloorBounds(x, rho);
    WholeFloor(x.Floor);
  }

  lemma IntervalQuotient(m: Rounding, req: int, rho: real, rate: real)
    requires req > 0 && rho > 0.0 && rate > 0.0 && rate * req as real == 1000.0 * rho
    ensures Quotient(m, req, rho, Interval(m, rate))
  {
    var x := 1000.0 / rate;
    assert x * rate == 1000.0;
    SameQuotient(rate, req, rho, x);
    IntervalOf(m, rate, x);
    LongerThan(x, rho, req);
    if x < 65534.0 { TruncatedQuotient(req, rho, x); }
  }

  lemma WholeFloor(k: int)
    ensures (k as real).Floor == k
  {
  }

  lemma BelowZero(m: Rounding, req: int, rho: real)
    requires req > 0 && rho < 0.0
    ensures Interval(m, rho * (1000.0 / req as real)) == 65534.0
  {
    SignOfProduct(rho, 1000.0 / req as real);
  }

  lemma ReallotTold(m: Rounding, rho: real, f: Flow)
    requires f.req > 0 && rho != 0.0
    ensures GivenOut(m, rho, f, Reallot(m, rho, f))
  {
    ReallotIs(m, rho, f);
    if rho > 0.0 {
      ScaledRate(f.req, rho);
      IntervalQuotient(m, f.req, rho, Portion(rho, f));
    } else {
      BelowZero(m, f.req, rho);
    }
  }

  lemma AllocateTold(m: Rounding, rho: real, fs: seq<Flow>)
    requires Admitted(fs)
    ensures AllGivenOut(m, rho, fs, AllocateByRho(m, rho, fs))
  {
    var gs := AllocateByRho(m, rho, fs);
    forall i | 0 <= i < |fs| ensures GivenOut(m, rho, fs[i], gs[i]) {
      assert fs[i] in fs;
      if rho != 0.0 { ReallotTold(m, rho, fs[i]); }
    }
  }

  // ---------------------------------------------------------------------------
  // Events
  // ---------------------------------------------------------------------------

  /** The ratio of total rate and demand, and 1 without demand. */
  predicate RatioTold(s: Control) {
    if s.d == 0.0 then s.rho == 1.0 else s.rho * s.d == s.r
  }

  lemma RatioIs(s: Control)
    requires s.rho == Ratio(s.d, s.r)
    ensures RatioTold(s)
  {
  }

  /** A request for no interval counts as one for 20 ms. */
  function Asked(request: int): int {
    if request == 0 then 20 else request
  }

  /** A flow that asks for the interval `q` adds its demand.  It adds to the total only if that is 0,
      nobody is there, or the start-up is on and the total no more than 25: half a packet a second, or
      its whole demand if that is no more. */
  predicate JoinTotals(s: Control, q: int, s': Control) {
    && s'.n == s.n + 1 && (s'.d - s.d) * q as real == 1000.0
    && (if s.r != 0.0 && s.n != 0 && (!s.slowstart || s.r > 25.0) then s'.r == s.r
        else if q < 2000 then s'.r == s.r + 0.5
        else (s'.r - s.r) * q as real == 1000.0)
    && s'.lastP == s.lastP && s'.slowstart == s.slowstart
  }

  /** Everyone is then allotted a rate anew. */
  ghost predicate JoinTold(m: Rounding, s: Control, request: int, s': Control) {
    var q := Asked(request);
    && JoinTotals(s, q, s') && RatioTold(s')
    && AllGivenOut(m, s'.rho, [Flow(q, q as real, false)] + s.flows, s'.flows)
  }

  lemma AddedQuotient(d: real, q: int)
    requires q > 0
    ensures (d + 1000.0 / q as real - d) * q as real == 1000.0
  {
    var x := 1000.0 / q as real;
    assert x * q as real == 1000.0;
    assert d + x - d == x;
  }

  lemma JoinIs(m: Rounding, s: Control, request: int)
    requires 0 <= request
    ensures var q, s' := Asked(request), OnJoin(m, s, request);
            && s'.n == s.n + 1 && s'.d == s.d + 1000.0 / q as real && s'.rho == Ratio(s'.d, s'.r)
            && s'.r == (if s.r != 0.0 && s.n != 0 && (!s.slowstart || s.r > 25.0) then s.r
                        else if q < 2000 then s.r + 0.5 else s.r + 1000.0 / q as real)
            && s'.lastP == s.lastP && s'.slowstart == s.slowstart
            && s'.flows == AllocateByRho(m, s'.rho, [Flow(q, q as real, false)] + s.flows)
  {
  }

  lemma JoinTotalsTold(m: Rounding, s: Control, request: int)
    requires 0 <= request
    ensures JoinTotals(s, Asked(request), OnJoin(m, s, request))
  {
    JoinIs(m, s, request);
    AddedQuotient(s.d, Asked(request));
    AddedQuotient(s.r, Asked(request));
  }

  lemma JoinStepTold(m: Rounding, s: Control, request: int)
    requires Inv(s) && 0 <= request < 65536
    ensures JoinTold(m, s, request, OnJoin(m, s, request))
  {
    var q, s' := Asked(request), OnJoin(m, s, request);
    var fs := [Flow(q, q as real, false)] + s.flows;
    JoinTotalsTold(m, s, request);
    JoinIs(m, s, request);
    RatioIs(s');
    JoinAdmits(fs, s, q);
    AllocateTold(m, s'.rho, fs);
  }

  lemma JoinAdmits(fs: seq<Flow>, s: Control, q: int)
    requires Inv(s) && 1 <= q <= 65535 && fs == [Flow(q, q as real, false)] + s.flows
    ensures Admitted(fs)
  {
  }

  /** A flow that leaves takes off its demand and the rate that it was told to send at, and the total
      is cut to the demand.  Nobody else is told anything.  With the last flow everything starts anew,
      the start-up included. */
  ghost predicate LeaveTold(s: Control, i: nat, s': Control)
    requires i < |s.flows|
  {
    var f := s.flows[i];
    && s'.n == s.n - 1 && |s'.flows| == |s.flows| - 1 && s'.lastP == s.lastP && RatioTold(s')
    && (forall j :: 0 <= j < |s'.flows| ==> s'.flows[j] == s.flows[if j < i then j else j + 1])
    && if s'.n == 0 then s'.d == 0.0 && s'.r == 0.0 && s'.slowstart
       else
         && s'.slowstart == s.slowstart && (s.d - s'.d) * f.req as real == 1000.0
         && s'.r <= s'.d && (s.r - s'.r) * f.cur >= 1000.0
         && (s'.r == s'.d || (s.r - s'.r) * f.cur == 1000.0)
  }

  lemma CutTold(r: real, cur: real, x: real, d: real)
    requires cur > 0.0 && x == r - 1000.0 / cur
    ensures (r - x) * cur == 1000.0 && (d < x ==> (r - d) * cur >= 1000.0)
  {
    assert r - x == 1000.0 / cur;
    assert (1000.0 / cur) * cur == 1000.0;
    TimesEqual(cur, r - x, 1000.0 / cur);
    if d < x {
      ProductPositive(x - d, cur);
      Distribute(cur, r - x, x - d);
    }
  }

  lemma LeaveStepTold(s: Control, i: nat)
    requires Inv(s) && i < |s.flows| && s.flows[i].cur > 0.0
    ensures LeaveTold(s, i, OnLeave(s, i))
  {
    var s', f := OnLeave(s, i), s.flows[i];
    assert f in s.flows;
    RatioIs(s');
    assert Demand(f) * f.req as real == 1000.0 by { DemandTimesRequest(f); }
    CutTold(s.r, f.cur, s.r - Rate(f), s.d - Demand(f));
  }

  /** An increase adds two packets a second in the start-up, and one after it, but not beyond the
      demand.  If that changes the total, the last delivery rate is forgotten and everyone is allotted
      a rate anew; otherwise nothing happens. */
  ghost predicate IncreaseTold(m: Rounding, s: Control, s': Control) {
    var more := s.r + (if s.slowstart then 2.0 else 1.0);
    && s'.r == (if more <= s.d then more else s.d)
    && s'.n == s.n && s'.d == s.d && s'.slowstart == s.slowstart
    && if s'.r == s.r then s' == s
       else s'.lastP == 1.0 && RatioTold(s') && AllGivenOut(m, s'.rho, s.flows, s'.flows)
  }

  lemma IncreaseStepTold(m: Rounding, s: Control)
    requires Inv(s) && s.flows != []
    ensures IncreaseTold(m, s, OnIncrease(m, s))
  {
    var s' := OnIncrease(m, s);
    DemandPositive(s.flows);
    AllocateTold(m, s'.rho, s.flows);
    RatioIs(s');
  }

  /** The total `x` that a delivery rate of `p` leaves of a total of `r`: half of it up to two thirds
      delivered, all of it above 98 in 99, and p / (2 - p) of it in between. */
  predicate CutBy(p: real, r: real, x: real) {
    && (p <= 2.0 / 3.0 ==> 2.0 * x == r)
    && (2.0 / 3.0 <= p <= 98.0 / 99.0 ==> x * (2.0 - p) == p * r)
    && (p > 98.0 / 99.0 ==> x == r)
  }

  /** A decrease goes by the delivery rate, relative to the last one if it has become worse, and by 1
      if not.  What is left is at least one packet in 30 seconds per flow.  If that changes the total,
      the start-up ends and everyone is allotted a rate anew. */
  ghost predicate DecreaseTold(m: Rounding, s: Control, loss: real, s': Control) {
    var p, low := s'.lastP, s.n as real / 30.0;
    && (if 1.0 - loss < s.lastP then p * s.lastP == 1.0 - loss else p == 1.0)
    && s'.r >= low && s'.n == s.n && s'.d == s.d
    && (exists x :: CutBy(p, s.r, x) && s'.r == if x < low then low else x)
    && if s'.r == s.r then s' == s.(lastP := p)
       else !s'.slowstart && RatioTold(s') && AllGivenOut(m, s'.rho, s.flows, s'.flows)
  }

  lemma UsedTold(loss: real, lastP: real)
    requires 0.0 <= loss <= 1.0
    ensures var p := DeliveryUsed(loss, lastP);
            if 1.0 - loss < lastP then p * lastP == 1.0 - loss else p == 1.0
  {
  }

  lemma QuotientVersus(p: real, bound: real, x: real)
    requires p < 2.0 && x * (2.0 - p) == p
    ensures x < bound <==> p < bound * (2.0 - p)
  {
    if x < bound {
      ProductPositive(bound - x, 2.0 - p);
      Distribute(2.0 - p, bound, -x);
    } else {
      NotNegative(x - bound, 2.0 - p);
      Distribute(2.0 - p, x, -bound);
    }
  }

  lemma FactorTold(p: real)
    requires 0.0 <= p <= 1.0
    ensures p <= 2.0 / 3.0 ==> Factor(p) == 0.5
    ensures 2.0 / 3.0 <= p <= 98.0 / 99.0 ==> Factor(p) * (2.0 - p) == p
    ensures p > 98.0 / 99.0 ==> Factor(p) == 1.0
  {
    var x := p / (2.0 - p);
    assert x * (2.0 - p) == p;
    QuotientVersus(p, 0.5, x);
    NotAbove(p, x);
    if p == 2.0 / 3.0 { assert x == 0.5; }
  }

  lemma NotAbove(p: real, x: real)
    requires 0.0 <= p <= 1.0 && x * (2.0 - p) == p
    ensures x > 0.98 <==> p > 98.0 / 99.0
  {
    if x > 0.98 {
      ProductPositive(x - 0.98, 2.0 - p);
      Distribute(2.0 - p, x, -0.98);
    } else {
      NotNegative(0.98 - x, 2.0 - p);
      Distribute(2.0 - p, 0.98, -x);
    }
  }

  lemma ShrunkTold(p: real, k: real, r: real)
    requires k * (2.0 - p) == p
    ensures Product(k, r) * (2.0 - p) == p * r
  {
    assert (k * r) * (2.0 - p) == (k * (2.0 - p)) * r;
    TimesEqual(r, k * (2.0 - p), p);
  }

  lemma CutByFactor(s: Control, p: real)
    requires 0.0 <= p <= 1.0
    ensures CutBy(p, s.r, Shrunk(s, p))
  {
    FactorTold(p);
    if 2.0 / 3.0 <= p <= 98.0 / 99.0 { ShrunkTold(p, Factor(p), s.r); }
    if p <= 2.0 / 3.0 { HalfProduct(Factor(p), s.r); }
    if p > 98.0 / 99.0 { WholeProduct(Factor(p), s.r); }
  }

  lemma HalfProduct(k: real, r: real)
    requires k == 0.5
    ensures 2.0 * Product(k, r) == r
  {
  }

  lemma WholeProduct(k: real, r: real)
    requires k == 1.0
    ensures Product(k, r) == r
  {
  }

  lemma DecreaseStepTold(m: Rounding, s: Control, loss: real)
    requires Inv(s) && s.flows != [] && 0.0 <= loss <= 0.5
    ensures DecreaseTold(m, s, loss, OnDecrease(m, s, loss))
  {
    var s' := OnDecrease(m, s, loss);
    var p := DeliveryUsed(loss, s.lastP);
    UsedTold(loss, s.lastP);
    CutByFactor(s, p);
    DecreaseSets(m, s, loss);
    DecreaseRest(m, s, loss);
    if s'.r != s.r {
      AllocateTold(m, s'.rho, s.flows);
      RatioIs(s');
    }
    assert CutBy(p, s.r, Shrunk(s, p));
  }

  lemma DecreaseRest(m: Rounding, s: Control, loss: real)
    requires 0.0 <= loss <= 1.0
    ensures var s', r, p := OnDecrease(m, s, loss), Reduced(s, DeliveryUsed(loss, s.lastP)), DeliveryUsed(loss, s.lastP);
            && s'.lastP == p && s'.n == s.n && s'.d == s.d && s'.r == r
            && if r == s.r then s' == s.(lastP := p)
               else !s'.slowstart && s'.rho == Ratio(s.d, r) && s'.flows == AllocateByRho(m, Ratio(s.d, r), s.flows)
  {
  }

  // ---------------------------------------------------------------------------
  // Every step
  // ---------------------------------------------------------------------------

  ghost predicate Told(m: Rounding, s: Control, e: Event, s': Control)
    requires Possible(s, e)
  {
    match e
    case Join(req) => JoinTold(m, s, req, s')
    case Leave(i) => LeaveTold(s, i, s')
    case Increase => IncreaseTold(m, s, s')
    case Decrease(loss) => DecreaseTold(m, s, loss, s')
  }

  lemma StepTold(m: Rounding, s: Control, e: Event)
    requires Inv(s) && Possible(s, e)
    ensures Told(m, s, e, Step(m, s, e))
  {
    match e
    case Join(req) => JoinStepTold(m, s, req);
    case Leave(i) => LeaveStepTold(s, i);
    case Increase => IncreaseStepTold(m, s);
    case Decrease(loss) => DecreaseStepTold(m, s, loss);
  }

  /** Over every run, with either kind of interval and any requests, the next event does exactly what
      is told, in numbers. */
  lemma RunTold(m: Rounding, es: seq<Event>, ss: seq<Control>, k: nat)
    requires IsRun(m, es, ss) && k < |es|
    ensures Possible(ss[k], es[k]) && Told(m, ss[k], es[k], ss[k + 1])
  {
    RunInv(m, es, ss, k);
    assert Moves(m, ss[k], es[k], ss[k + 1]);
    StepTold(m, ss[k], es[k]);
  }

  /** And it begins with nobody there, nothing allotted, and the start-up on. */
  lemma RunBegins(m: Rounding, es: seq<Event>, ss: seq<Control>)
    requires IsRun(m, es, ss)
    ensures ss[0] == Control(0, 0.0, 0.0, 1.0, 1.0, true, [])
  {
  }
}
