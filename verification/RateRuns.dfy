/** What the rate controller keeps over every run of joins, leaves, increases and decreases. */
module RateRuns {
  import opened Rates

  // ---------------------------------------------------------------------------
  // Arithmetic
  // ---------------------------------------------------------------------------

  lemma TimesEqual(a: real, x: real, y: real)
    requires x == y
    ensures a * x == a * y
  {
  }

  lemma Distribute(a: real, x: real, y: real)
    ensures a * (x + y) == a * x + a * y
  {
  }

  lemma SignOfProduct(a: real, b: real)
    requires a <= 0.0 && b > 0.0
    ensures a * b <= 0.0
  {
  }

  lemma ProductPositive(a: real, b: real)
    requires a > 0.0 && b > 0.0
    ensures a * b > 0.0
  {
  }

  lemma TimesAtMost(a: real, b: real)
    requires a <= 1.0 && b > 0.0
    ensures a * b <= b
  {
    SignOfProduct(a - 1.0, b);
    Distribute(b, a, -1.0);
  }

  lemma TimesMore(a: real, b: real)
    requires a > 1.0 && b > 0.0
    ensures a * b > b
  {
    ProductPositive(a - 1.0, b);
    Distribute(b, a, -1.0);
  }

  lemma TimesBetween(k: real, r: real)
    requires 0.5 <= k <= 1.0 && r >= 0.0
    ensures r / 2.0 <= k * r <= r
  {
    if r > 0.0 {
      TimesAtMost(k, r);
      TimesAtMost(1.5 - k, r);
      Distribute(r, 1.5, -k);
    }
  }

  lemma QuotientAtLeast(rate: real, q: real)
    requires rate > 0.0 && q * rate <= 1000.0
    ensures 1000.0 / rate >= q
  {
    var x := 1000.0 / rate;
    assert x * rate == 1000.0;
    assert (x - q) * rate == x * rate - q * rate;
    SignOfFactor(x - q, rate);
  }

  lemma FloorAtLeast(x: real, q: int)
    requires x >= q as real
    ensures x.Floor >= q
  {
  }

  // ---------------------------------------------------------------------------
  // Sums
  // ---------------------------------------------------------------------------

  lemma {:induction false} SumAtLeast(xs: seq<real>, low: real)
    requires forall x :: x in xs ==> x >= low
    ensures Sum(xs) >= low * |xs| as real
  {
    if xs != [] {
      assert xs[0] in xs && forall x :: x in xs[1..] ==> x in xs;
      SumAtLeast(xs[1..], low);
      Distribute(low, 1.0, |xs[1..]| as real);
    }
  }

  lemma {:induction false} SumPositive(xs: seq<real>)
    requires forall x :: x in xs ==> x > 0.0
    ensures Sum(xs) >= 0.0 && (xs != [] ==> Sum(xs) > 0.0)
    ensures forall x :: x in xs ==> x <= Sum(xs)
  {
    if xs != [] {
      assert xs[0] in xs && forall x :: x in xs[1..] ==> x in xs;
      SumPositive(xs[1..]);
      forall x | x in xs ensures x <= Sum(xs) {
        assert x == xs[0] || x in xs[1..];
      }
    }
  }

  predicate Multiple(rho: real, xs: seq<real>, ys: seq<real>) {
    |xs| == |ys| && forall i :: 0 <= i < |xs| ==> xs[i] == Product(rho, ys[i])
  }

  lemma {:induction false} SumScaled(rho: real, xs: seq<real>, ys: seq<real>)
    requires Multiple(rho, xs, ys)
    ensures Sum(xs) == rho * Sum(ys)
  {
    if xs != [] {
      SumScaled(rho, xs[1..], ys[1..]);
      Distribute(rho, ys[0], Sum(ys[1..]));
    }
  }

  lemma DemandPositive(fs: seq<Flow>)
    requires Admitted(fs)
    ensures Sum(Demands(fs)) >= 0.0 && (fs != [] ==> Sum(Demands(fs)) > 0.0)
    ensures forall f :: f in fs ==> Demand(f) <= Sum(Demands(fs))
  {
    var ds := Demands(fs);
    forall x | x in ds ensures x > 0.0 {
      var i :| 0 <= i < |fs| && ds[i] == x;
      assert fs[i] in fs;
    }
    SumPositive(ds);
    forall f | f in fs ensures Demand(f) <= Sum(ds) {
      var i :| 0 <= i < |fs| && fs[i] == f;
      assert ds[i] in ds;
    }
  }

  lemma SameDemands(fs: seq<Flow>, gs: seq<Flow>)
    requires Admitted(fs) && Admitted(gs) && |fs| == |gs|
    requires forall i :: 0 <= i < |fs| ==> fs[i].req == gs[i].req
    ensures Demands(fs) == Demands(gs)
  {
    forall i | 0 <= i < |fs| ensures Demands(fs)[i] == Demands(gs)[i] {
      assert fs[i] in fs && gs[i] in gs;
    }
  }

  // ---------------------------------------------------------------------------
  // The counters
  // ---------------------------------------------------------------------------

  /** Re-allotting the rates leaves the demands alone. */
  lemma AllocateKeeps(m: Rounding, rho: real, fs: seq<Flow>)
    requires Admitted(fs)
    ensures var gs := AllocateByRho(m, rho, fs);
            |gs| == |fs| && Admitted(gs) && Demands(gs) == Demands(fs)
  {
    var gs := AllocateByRho(m, rho, fs);
    forall i | 0 <= i < |gs| ensures gs[i].req == fs[i].req {}
    forall g | g in gs ensures 1 <= g.req <= 65535 {
      var i :| 0 <= i < |gs| && gs[i] == g;
      assert fs[i] in fs;
    }
    SameDemands(fs, gs);
  }

  lemma JoinDemands(f: Flow, fs: seq<Flow>)
    requires Admitted(fs) && 1 <= f.req <= 65535
    ensures Admitted([f] + fs) && Sum(Demands([f] + fs)) == Demand(f) + Sum(Demands(fs))
  {
    var gs := [f] + fs;
    assert Demands(gs) == [Demand(f)] + Demands(fs);
    assert Demands(gs)[1..] == Demands(fs);
  }

  /** The request that a join ends up with, and the flow that it makes. */
  function Granted(request: int): int {
    if request == 0 then 20 else request
  }

  function Joined(s: Control, request: int): seq<Flow> {
    [Flow(Granted(request), Granted(request) as real, false)] + s.flows
  }

  lemma JoinInv(m: Rounding, s: Control, request: int)
    requires Inv(s) && 0 <= request < 65536
    ensures Inv(OnJoin(m, s, request))
  {
    var fs := Joined(s, request);
    var s' := OnJoin(m, s, request);
    JoinDemands(fs[0], s.flows);
    AllocateKeeps(m, s'.rho, fs);
  }

  lemma LeaveInv(s: Control, i: nat)
    requires Inv(s) && i < |s.flows| && s.flows[i].cur > 0.0
    ensures Inv(OnLeave(s, i))
  {
    DemandWithout(s.flows, i);
    if s.n == 1 { assert Without(s.flows, i) == []; }
  }

  lemma IncreaseInv(m: Rounding, s: Control)
    requires Inv(s) && s.flows != []
    ensures Inv(OnIncrease(m, s))
  {
    AllocateKeeps(m, OnIncrease(m, s).rho, s.flows);
  }

  lemma DecreaseInv(m: Rounding, s: Control, loss: real)
    requires Inv(s) && s.flows != [] && 0.0 <= loss <= 0.5
    ensures Inv(OnDecrease(m, s, loss))
  {
    DeliveryRange(loss, s.lastP);
    AllocateKeeps(m, OnDecrease(m, s, loss).rho, s.flows);
  }

  lemma StepInv(m: Rounding, s: Control, e: Event)
    requires Inv(s) && Possible(s, e)
    ensures Inv(Step(m, s, e))
  {
    match e
    case Join(req) => JoinInv(m, s, req);
    case Leave(i) => LeaveInv(s, i);
    case Increase => IncreaseInv(m, s);
    case Decrease(loss) => DecreaseInv(m, s, loss);
  }

  // ---------------------------------------------------------------------------
  // Runs
  // ---------------------------------------------------------------------------

  /** One step of a run, from `s` to `s'`. */
  ghost predicate Moves(m: Rounding, s: Control, e: Event, s': Control) {
    Possible(s, e) && s' == Step(m, s, e)
  }

  /** A run: the states that the controller goes through on the events `es`. */
  ghost predicate IsRun(m: Rounding, es: seq<Event>, ss: seq<Control>) {
    && |ss| == |es| + 1 && ss[0] == START
    && forall i :: 0 <= i < |es| ==> Moves(m, ss[i], es[i], ss[i + 1])
  }

  /** After every run the counters are what they should be. */
  lemma {:induction false} RunInv(m: Rounding, es: seq<Event>, ss: seq<Control>, k: nat)
    requires IsRun(m, es, ss) && k < |ss|
    ensures Inv(ss[k])
  {
    if k > 0 {
      RunInv(m, es, ss, k - 1);
      assert Moves(m, ss[k - 1], es[k - 1], ss[k - 1 + 1]);
      StepInv(m, ss[k - 1], es[k - 1]);
    }
  }

  // ---------------------------------------------------------------------------
  // Intervals
  // ---------------------------------------------------------------------------

  /** What the stored interval is, given the quotient that it is taken from. */
  lemma IntervalOf(m: Rounding, rate: real, x: real)
    requires rate > 0.0 && x == 1000.0 / rate
    ensures Interval(m, rate) == if m.Exact? then x else if x < MAX_INTERVAL then x.Floor as real else MAX_INTERVAL
  {
  }

  /** An interval of at least `q` for a rate of at most one packet in `q` milliseconds. */
  lemma IntervalAtLeast(m: Rounding, rate: real, q: int)
    requires q as real * rate <= 1000.0 && q <= 65534
    ensures Interval(m, rate) >= q as real
  {
    if rate > 0.0 {
      var x := 1000.0 / rate;
      QuotientAtLeast(rate, q as real);
      FloorAtLeast(x, q);
      IntervalOf(m, rate, x);
    }
  }

  lemma ExactRate(rate: real)
    requires rate > 0.0
    ensures 1000.0 / rate > 0.0 && 1000.0 / (1000.0 / rate) == rate
  {
    var x := 1000.0 / rate;
    assert x * rate == 1000.0;
    if x <= 0.0 { SignOfProduct(x, rate); }
  }

  lemma ReallotIs(m: Rounding, rho: real, f: Flow)
    requires f.req > 0
    ensures Reallot(m, rho, f) == f.(cur := Interval(m, Portion(rho, f)))
  {
  }

  /** What is asked for in the time asked for is one packet. */
  lemma DemandTimesRequest(f: Flow)
    requires f.req > 0
    ensures Demand(f) * f.req as real == 1000.0
  {
  }

  // ---------------------------------------------------------------------------
  // Conservation, with exact intervals
  // ---------------------------------------------------------------------------

  /** A flow that has the fraction `rho` of its demand. */
  predicate At(rho: real, f: Flow) {
    f.cur > 0.0 && f.req > 0 && Rate(f) == Portion(rho, f)
  }

  predicate AllAt(rho: real, fs: seq<Flow>) {
    forall f :: f in fs ==> At(rho, f)
  }

  /** Every flow has the common fraction of its demand, and the total, if anybody is there to
      share it, is positive. */
  ghost predicate Proportional(s: Control) {
    (s.n > 0 ==> s.r > 0.0) && AllAt(s.rho, s.flows)
  }

  /** The rates given out are the fraction `rho` of the demands. */
  ghost predicate Scaled(rho: real, fs: seq<Flow>) {
    Rated(fs) && Admitted(fs) && Multiple(rho, GivenRates(fs), Demands(fs))
  }

  /** The rates given out are the common fraction of the demands, and add up to the total. */
  ghost predicate Conserved(s: Control) {
    Proportional(s) && Scaled(s.rho, s.flows) && s.r == Sum(GivenRates(s.flows))
  }

  lemma ReallotAt(rho: real, f: Flow)
    requires f.req > 0 && rho > 0.0
    ensures At(rho, Reallot(Exact, rho, f))
  {
    ReallotIs(Exact, rho, f);
    var rate := Portion(rho, f);
    ProductPositive(rho, Demand(f));
    ExactRate(rate);
    IntervalOf(Exact, rate, 1000.0 / rate);
  }

  lemma AllocateAt(rho: real, fs: seq<Flow>)
    requires Admitted(fs) && rho > 0.0
    ensures AllAt(rho, AllocateByRho(Exact, rho, fs))
  {
    var gs := AllocateByRho(Exact, rho, fs);
    forall g | g in gs ensures At(rho, g) {
      var i :| 0 <= i < |gs| && gs[i] == g;
      assert fs[i] in fs;
      ReallotAt(rho, fs[i]);
    }
  }

  lemma RatioPositive(d: real, r: real)
    requires d > 0.0 && r > 0.0
    ensures Ratio(d, r) > 0.0
  {
    var x := r / d;
    assert x * d == r;
    if x <= 0.0 { SignOfProduct(x, d); }
  }

  /** A positive total that is shared out anew is shared out in proportion. */
  lemma SharedOut(s: Control, d: real, r: real, fs: seq<Flow>)
    requires Admitted(fs) && d == Sum(Demands(fs)) && fs != [] && r > 0.0
    requires s == s.(r := r, rho := Ratio(d, r), flows := AllocateByRho(Exact, Ratio(d, r), fs))
    ensures Proportional(s)
  {
    DemandPositive(fs);
    RatioPositive(d, r);
    AllocateAt(Ratio(d, r), fs);
  }

  lemma JoinRaises(m: Rounding, s: Control, request: int)
    requires Inv(s) && 0 <= request < 65536 && (s.n > 0 ==> s.r > 0.0)
    ensures OnJoin(m, s, request).r > 0.0
  {
    assert Demand(Flow(Granted(request), 0.0, false)) > 0.0;
  }

  lemma JoinProportional(s: Control, request: int)
    requires Inv(s) && Proportional(s) && 0 <= request < 65536
    ensures Proportional(OnJoin(Exact, s, request))
  {
    var fs := Joined(s, request);
    var s' := OnJoin(Exact, s, request);
    JoinRaises(Exact, s, request);
    JoinDemands(fs[0], s.flows);
    SharedOut(s', s'.d, s'.r, fs);
  }

  lemma IncreaseProportional(s: Control)
    requires Inv(s) && Proportional(s) && s.flows != []
    ensures Proportional(OnIncrease(Exact, s))
  {
    var s' := OnIncrease(Exact, s);
    DemandPositive(s.flows);
    if s'.r != s.r { SharedOut(s', s.d, s'.r, s.flows); }
  }

  lemma DecreaseProportional(s: Control, loss: real)
    requires Inv(s) && Proportional(s) && s.flows != [] && 0.0 <= loss <= 0.5
    ensures Proportional(OnDecrease(Exact, s, loss))
  {
    var s' := OnDecrease(Exact, s, loss);
    assert Reduced(s, DeliveryUsed(loss, s.lastP)) >= s.n as real / 30.0 > 0.0;
    if s'.r != s.r { SharedOut(s', s.d, s'.r, s.flows); }
  }

  // ---------------------------------------------------------------------------
  // Leaving
  // ---------------------------------------------------------------------------

  lemma RatioTimes(d: real, r: real)
    requires d > 0.0
    ensures Ratio(d, r) * d == r
  {
  }

  /** What one flow has is its share of the total. */
  lemma ShareOut(s: Control, i: nat)
    requires Inv(s) && AllAt(s.rho, s.flows) && i < |s.flows|
    ensures s.flows[i].cur > 0.0 && s.flows[i].req > 0 && s.d > 0.0
    ensures s.r - Rate(s.flows[i]) == s.rho * (s.d - Demand(s.flows[i]))
  {
    assert At(s.rho, s.flows[i]);
    DemandPositive(s.flows);
    RatioTimes(s.d, s.r);
    Distribute(s.rho, s.d, -Demand(s.flows[i]));
  }

  /** The rate that the others have together, cut to their demand `rest`, is the same fraction of
      it as before exactly if the total did not exceed the demand. */
  lemma CutRatio(d: real, r: real, rho: real, rest: real, left: real)
    requires rest > 0.0 && d > 0.0 && rho * d == r && left == rho * rest
    ensures (if left > rest then rest else left) / rest == rho <==> r <= d
  {
    if rho <= 1.0 {
      TimesAtMost(rho, rest);
      TimesAtMost(rho, d);
    } else {
      TimesMore(rho, rest);
      TimesMore(rho, d);
    }
  }

  lemma LeaveRatio(s: Control, i: nat, rest: real, left: real)
    requires i < |s.flows| && s.flows[i].cur > 0.0 && s.flows[i].req > 0 && s.n >= 2
    requires rest == s.d - Demand(s.flows[i]) && left == s.r - Rate(s.flows[i]) && rest > 0.0
    ensures OnLeave(s, i).r == (if left > rest then rest else left)
    ensures OnLeave(s, i).rho == (if left > rest then rest else left) / rest
  {
  }

  lemma RestPositive(s: Control, i: nat)
    requires Inv(s) && i < |s.flows| && s.n >= 2
    ensures s.flows[i].req > 0 && s.d - Demand(s.flows[i]) > 0.0
  {
    DemandWithout(s.flows, i);
    DemandPositive(Without(s.flows, i));
  }

  /** A leave that keeps at least one flow leaves the ratio alone exactly if the total rate does
      not exceed the total demand; nobody's rate has to be changed then. */
  lemma LeaveKeepsRatio(s: Control, i: nat)
    requires Inv(s) && AllAt(s.rho, s.flows) && i < |s.flows| && s.n >= 2
    ensures s.flows[i].cur > 0.0 && s.flows[i].req > 0
    ensures OnLeave(s, i).rho == s.rho <==> s.r <= s.d
  {
    ShareOut(s, i);
    RestPositive(s, i);
    RatioTimes(s.d, s.r);
    var rest, left := s.d - Demand(s.flows[i]), s.r - Rate(s.flows[i]);
    LeaveRatio(s, i, rest, left);
    CutRatio(s.d, s.r, s.rho, rest, left);
  }

  lemma WithoutWithin(fs: seq<Flow>, i: nat)
    requires i < |fs|
    ensures forall f :: f in Without(fs, i) ==> f in fs
  {
  }

  /** The flows that stay keep their rates, so they are in proportion afterwards only if the ratio
      is the same. */
  lemma SameProportion(fs: seq<Flow>, a: real, b: real)
    requires fs != [] && AllAt(a, fs) && AllAt(b, fs)
    ensures a == b
  {
    var f := fs[0];
    assert At(a, f) && At(b, f);
    var d := Demand(f);
    assert a * d == b * d;
    if a < b { ProductPositive(b - a, d); Distribute(d, b, -a); }
    if b < a { ProductPositive(a - b, d); Distribute(d, a, -b); }
  }

  /** A leave keeps the flows in proportion exactly if it is the last one or finds the total within
      the demand. */
  lemma LeaveProportional(s: Control, i: nat)
    requires Inv(s) && Proportional(s) && i < |s.flows|
    ensures s.flows[i].cur > 0.0
    ensures Proportional(OnLeave(s, i)) <==> s.n == 1 || s.r <= s.d
  {
    ShareOut(s, i);
    WithoutWithin(s.flows, i);
    if s.n == 1 {
      assert Without(s.flows, i) == [];
    } else {
      LeaveKeepsRatio(s, i);
      RestPositive(s, i);
      LeaveRatio(s, i, s.d - Demand(s.flows[i]), s.r - Rate(s.flows[i]));
      RatioPositive(s.d, s.r);
      ProductPositive(s.rho, s.d - Demand(s.flows[i]));
      if Proportional(OnLeave(s, i)) {
        SameProportion(Without(s.flows, i), OnLeave(s, i).rho, s.rho);
      }
    }
  }

  /** A leave finds nobody left over, or the total rate within the total demand. */
  predicate LeavesWithin(s: Control, e: Event) {
    e.Leave? ==> s.n == 1 || s.r <= s.d
  }

  lemma StepProportional(s: Control, e: Event)
    requires Inv(s) && Proportional(s) && Possible(s, e)
    ensures Proportional(Step(Exact, s, e)) <==> LeavesWithin(s, e)
  {
    match e
    case Join(req) => JoinProportional(s, req);
    case Leave(i) => LeaveProportional(s, i);
    case Increase => IncreaseProportional(s);
    case Decrease(loss) => DecreaseProportional(s, loss);
  }

  lemma RateScaled(rho: real, fs: seq<Flow>, i: nat)
    requires Admitted(fs) && Rated(fs) && i < |fs| && At(rho, fs[i])
    ensures GivenRates(fs)[i] == Product(rho, Demands(fs)[i])
  {
  }

  lemma AllScaled(rho: real, fs: seq<Flow>)
    requires Admitted(fs) && Rated(fs) && AllAt(rho, fs)
    ensures Scaled(rho, fs)
  {
    forall i | 0 <= i < |fs| ensures GivenRates(fs)[i] == Product(rho, Demands(fs)[i]) {
      assert At(rho, fs[i]);
      RateScaled(rho, fs, i);
    }
  }

  lemma RatesScaled(rho: real, fs: seq<Flow>)
    requires Scaled(rho, fs)
    ensures Sum(GivenRates(fs)) == rho * Sum(Demands(fs))
  {
    SumScaled(rho, GivenRates(fs), Demands(fs));
  }

  lemma AtRated(rho: real, fs: seq<Flow>)
    requires AllAt(rho, fs)
    ensures Rated(fs)
  {
    forall f | f in fs ensures f.cur > 0.0 { assert At(rho, f); }
  }

  lemma TotalIs(s: Control)
    requires Inv(s)
    ensures s.rho * Sum(Demands(s.flows)) == s.r
  {
    DemandPositive(s.flows);
    if s.flows == [] {
      assert s.d == 0.0;
    } else {
      RatioTimes(s.d, s.r);
    }
  }

  lemma ProportionalConserves(s: Control)
    requires Inv(s) && Proportional(s)
    ensures Conserved(s)
  {
    AtRated(s.rho, s.flows);
    AllScaled(s.rho, s.flows);
    RatesScaled(s.rho, s.flows);
    TotalIs(s);
  }

  lemma {:induction false} RunProportional(es: seq<Event>, ss: seq<Control>, k: nat)
    requires IsRun(Exact, es, ss) && k < |ss|
    requires forall i :: 0 <= i < k ==> LeavesWithin(ss[i], es[i])
    ensures Proportional(ss[k])
  {
    if k > 0 {
      RunProportional(es, ss, k - 1);
      RunInv(Exact, es, ss, k - 1);
      assert Moves(Exact, ss[k - 1], es[k - 1], ss[k - 1 + 1]);
      StepProportional(ss[k - 1], es[k - 1]);
    }
  }

  /** Conservation over every run, with exact intervals and any requests: the rates given out are
      the common fraction of the demands and add up to the positive total, after every step,
      exactly if every leave that keeps a flow finds the total within the demand. */
  lemma RatesConserved(es: seq<Event>, ss: seq<Control>)
    requires IsRun(Exact, es, ss)
    ensures (forall k :: 0 <= k < |ss| ==> Conserved(ss[k])) <==>
            (forall i :: 0 <= i < |es| ==> LeavesWithin(ss[i], es[i]))
  {
    if forall i :: 0 <= i < |es| ==> LeavesWithin(ss[i], es[i]) {
      forall k | 0 <= k < |ss| ensures Conserved(ss[k]) {
        RunProportional(es, ss, k);
        RunInv(Exact, es, ss, k);
        ProportionalConserves(ss[k]);
      }
    }
    if forall k :: 0 <= k < |ss| ==> Conserved(ss[k]) {
      forall i | 0 <= i < |es| ensures LeavesWithin(ss[i], es[i]) {
        RunInv(Exact, es, ss, i);
        assert Conserved(ss[i]) && Conserved(ss[i + 1]);
        assert Moves(Exact, ss[i], es[i], ss[i + 1]);
        StepProportional(ss[i], es[i]);
      }
    }
  }

  // ---------------------------------------------------------------------------
  // The demand bound
  // ---------------------------------------------------------------------------

  /** A flow that is not told to send faster than it asked to; the longest interval that can be
      stored counts as one of 65535 ms. */
  predicate Within(f: Flow) {
    1 <= f.req <= 65535 && f.cur >= (if f.req <= 65534 then f.req else 65534) as real
  }

  predicate AllWithin(fs: seq<Flow>) {
    forall f :: f in fs ==> Within(f)
  }

  /** The total rate does not exceed the total demand, and nobody is given more than it asked for. */
  ghost predicate Bounded(s: Control) {
    s.r <= s.d && AllWithin(s.flows)
  }

  /** A decrease finds at least one packet in 30 seconds asked for per flow. */
  predicate FloorWithin(s: Control, e: Event) {
    e.Decrease? ==> s.n as real / 30.0 <= s.d
  }

  lemma RatioAtMostOne(d: real, r: real)
    requires d >= 0.0 && r <= d
    ensures Ratio(d, r) <= 1.0
  {
    if d > 0.0 {
      var x := r / d;
      assert x * d == r;
      assert (1.0 - x) * d == d - r >= 0.0;
      SignOfFactor(1.0 - x, d);
    }
  }

  lemma PortionAtMost(rho: real, f: Flow)
    requires f.req > 0 && rho <= 1.0
    ensures f.req as real * Portion(rho, f) <= 1000.0
  {
    var d, q := Demand(f), f.req as real;
    DemandTimesRequest(f);
    TimesEqual(rho, d * q, 1000.0);
    assert q * (rho * d) == rho * (d * q);
  }

  lemma LessTimes(a: int, b: int, x: real)
    requires 0 <= a <= b && b as real * x <= 1000.0
    ensures a as real * x <= 1000.0
  {
    if x > 0.0 {
      assert (b - a) as real * x >= 0.0;
      Distribute(x, b as real, -(a as real));
    } else {
      assert a as real * x <= 0.0;
    }
  }

  /** An allotted interval is never shorter than the one asked for, as long as the ratio does not
      exceed 1. */
  lemma ReallotWithin(m: Rounding, rho: real, f: Flow)
    requires 1 <= f.req <= 65535 && rho <= 1.0
    ensures Within(Reallot(m, rho, f))
  {
    var q := if f.req <= 65534 then f.req else 65534;
    var rate := Portion(rho, f);
    ReallotIs(m, rho, f);
    PortionAtMost(rho, f);
    LessTimes(q, f.req, rate);
    IntervalAtLeast(m, rate, q);
  }

  lemma AllocateWithin(m: Rounding, rho: real, fs: seq<Flow>)
    requires AllWithin(fs) && rho <= 1.0
    ensures AllWithin(AllocateByRho(m, rho, fs))
  {
    var gs := AllocateByRho(m, rho, fs);
    forall g | g in gs ensures Within(g) {
      var i :| 0 <= i < |gs| && gs[i] == g;
      assert Within(fs[i]);
      ReallotWithin(m, rho, fs[i]);
    }
  }

  /** The half packet a second by which the total rate grows is less than what is asked for. */
  lemma HalfIsLess(req: int)
    requires 1 <= req < 2000
    ensures 1000.0 / req as real >= 0.5
  {
    QuotientAtLeast(req as real, 0.5);
  }

  lemma JoinBounded(m: Rounding, s: Control, request: int)
    requires Inv(s) && Bounded(s) && 0 <= request < 65536
    ensures Bounded(OnJoin(m, s, request))
  {
    var fs := Joined(s, request);
    var s' := OnJoin(m, s, request);
    if Granted(request) < 2000 { HalfIsLess(Granted(request)); }
    JoinDemands(fs[0], s.flows);
    DemandPositive(fs);
    assert Within(fs[0]);
    RatioAtMostOne(s'.d, s'.r);
    AllocateWithin(m, s'.rho, fs);
  }

  lemma IncreaseBounded(m: Rounding, s: Control)
    requires Inv(s) && Bounded(s) && s.flows != []
    ensures Bounded(OnIncrease(m, s))
  {
    var s' := OnIncrease(m, s);
    DemandPositive(s.flows);
    RatioAtMostOne(s'.d, s'.r);
    AllocateWithin(m, s'.rho, s.flows);
  }

  lemma FactorTimes(k: real, r: real)
    requires 0.5 <= k <= 1.0
    ensures r >= 0.0 ==> r / 2.0 <= Product(k, r) <= r
    ensures r < 0.0 ==> Product(k, r) <= 0.0
  {
    if r >= 0.0 { TimesBetween(k, r); } else { SignOfProduct(r, k); }
  }

  lemma ShrunkBounds(s: Control, p: real)
    requires 0.5 <= p <= 1.0
    ensures s.r >= 0.0 ==> s.r / 2.0 <= Shrunk(s, p) <= s.r
    ensures s.r < 0.0 ==> Shrunk(s, p) <= 0.0
  {
    FactorRange(p);
    FactorTimes(Factor(p), s.r);
  }

  lemma FlooredBounds(x: real, r: real, low: real)
    requires low >= 0.0 && (r >= 0.0 ==> r / 2.0 <= x <= r) && (r < 0.0 ==> x <= 0.0)
    ensures Floored(x, low) >= r / 2.0 && Floored(x, low) >= low
    ensures Floored(x, low) <= r || Floored(x, low) == low
  {
  }

  lemma ReducedBounds(s: Control, p: real)
    requires 0.5 <= p <= 1.0 && s.n >= 0
    ensures var r := Reduced(s, p);
            r >= s.r / 2.0 && r >= s.n as real / 30.0 && (r <= s.r || r == s.n as real / 30.0)
  {
    ShrunkBounds(s, p);
    FlooredBounds(Shrunk(s, p), s.r, s.n as real / 30.0);
  }

  /** A decrease keeps the total rate within the demand exactly if the demand is at least one
      packet per flow in 30 seconds. */
  lemma FloorWithinDemand(s: Control, p: real)
    requires 0.5 <= p <= 1.0 && s.n >= 0 && s.r <= s.d
    ensures Reduced(s, p) <= s.d <==> s.n as real / 30.0 <= s.d
  {
    ReducedBounds(s, p);
  }

  lemma DecreaseSets(m: Rounding, s: Control, loss: real)
    requires 0.0 <= loss <= 1.0
    ensures OnDecrease(m, s, loss).r == Reduced(s, DeliveryUsed(loss, s.lastP))
    ensures OnDecrease(m, s, loss).d == s.d
  {
  }

  lemma DecreaseWithin(m: Rounding, s: Control, loss: real)
    requires Inv(s) && Bounded(s) && s.flows != [] && 0.0 <= loss <= 0.5
    ensures Bounded(OnDecrease(m, s, loss)) <==> s.n as real / 30.0 <= s.d
  {
    var s' := OnDecrease(m, s, loss);
    DeliveryRange(loss, s.lastP);
    DecreaseSets(m, s, loss);
    FloorWithinDemand(s, DeliveryUsed(loss, s.lastP));
    if s'.r <= s'.d {
      DemandPositive(s.flows);
      RatioAtMostOne(s.d, s'.r);
      AllocateWithin(m, Ratio(s.d, s'.r), s.flows);
    }
  }

  lemma LeaveBounded(s: Control, i: nat)
    requires Inv(s) && Bounded(s) && i < |s.flows| && s.flows[i].cur > 0.0
    ensures Bounded(OnLeave(s, i))
  {
    WithoutWithin(s.flows, i);
    assert s.flows[i] in s.flows;
  }

  lemma StepBounded(m: Rounding, s: Control, e: Event)
    requires Inv(s) && Bounded(s) && Possible(s, e)
    ensures Bounded(Step(m, s, e)) <==> FloorWithin(s, e)
  {
    match e
    case Join(req) => JoinBounded(m, s, req);
    case Leave(i) => LeaveBounded(s, i);
    case Increase => IncreaseBounded(m, s);
    case Decrease(loss) => DecreaseWithin(m, s, loss);
  }

  lemma {:induction false} RunBounded(m: Rounding, es: seq<Event>, ss: seq<Control>, k: nat)
    requires IsRun(m, es, ss) && k < |ss|
    requires forall i :: 0 <= i < k ==> FloorWithin(ss[i], es[i])
    ensures Bounded(ss[k])
  {
    if k > 0 {
      RunBounded(m, es, ss, k - 1);
      RunInv(m, es, ss, k - 1);
      assert Moves(m, ss[k - 1], es[k - 1], ss[k - 1 + 1]);
      StepBounded(m, ss[k - 1], es[k - 1]);
    }
  }

  /** The demand bound over every run, for the stored intervals as for exact ones: after every step
      the total rate is within the total demand and no flow is told to send faster than it asked
      to, exactly if every decrease finds at least one packet in 30 seconds asked for per flow. */
  lemma DemandRespected(m: Rounding, es: seq<Event>, ss: seq<Control>)
    requires IsRun(m, es, ss)
    ensures (forall k :: 0 <= k < |ss| ==> Bounded(ss[k])) <==>
            (forall i :: 0 <= i < |es| ==> FloorWithin(ss[i], es[i]))
  {
    if forall i :: 0 <= i < |es| ==> FloorWithin(ss[i], es[i]) {
      forall k | 0 <= k < |ss| ensures Bounded(ss[k]) { RunBounded(m, es, ss, k); }
    }
    if forall k :: 0 <= k < |ss| ==> Bounded(ss[k]) {
      forall i | 0 <= i < |es| ensures FloorWithin(ss[i], es[i]) {
        RunInv(m, es, ss, i);
        assert Bounded(ss[i]) && Bounded(ss[i + 1]);
        assert Moves(m, ss[i], es[i], ss[i + 1]);
        StepBounded(m, ss[i], es[i]);
      }
    }
  }

  /** Nobody asks for an interval of more than 30 seconds. */
  predicate Modest(fs: seq<Flow>) {
    forall f :: f in fs ==> f.req <= 30000
  }

  /** If nobody does, every decrease finds that. */
  lemma ModestDemand(s: Control, e: Event)
    requires Inv(s) && Modest(s.flows)
    ensures FloorWithin(s, e)
  {
    var ds := Demands(s.flows);
    forall x | x in ds ensures x >= 1.0 / 30.0 {
      var i :| 0 <= i < |ds| && ds[i] == x;
      assert s.flows[i] in s.flows;
      QuotientAtLeast(s.flows[i].req as real, 1.0 / 30.0);
    }
    SumAtLeast(ds, 1.0 / 30.0);
  }

  lemma ModestRun(m: Rounding, es: seq<Event>, ss: seq<Control>)
    requires IsRun(m, es, ss) && forall k :: 0 <= k < |ss| ==> Modest(ss[k].flows)
    ensures forall k :: 0 <= k < |ss| ==> Bounded(ss[k])
  {
    forall i | 0 <= i < |es| ensures FloorWithin(ss[i], es[i]) {
      RunInv(m, es, ss, i);
      ModestDemand(ss[i], es[i]);
    }
    DemandRespected(m, es, ss);
  }

  // ---------------------------------------------------------------------------
  // The sign of the total
  // ---------------------------------------------------------------------------

  /** A leave finds nobody left over, or a total of at least the rate of the flow that leaves. */
  predicate LeavesCovered(s: Control, e: Event)
    requires Possible(s, e)
  {
    e.Leave? ==> s.n == 1 || Rate(s.flows[e.i]) <= s.r
  }

  lemma LeaveSign(s: Control, i: nat)
    requires Inv(s) && i < |s.flows| && s.flows[i].cur > 0.0
    ensures OnLeave(s, i).r >= 0.0 <==> s.n == 1 || Rate(s.flows[i]) <= s.r
  {
    if s.n >= 2 {
      RestPositive(s, i);
      LeaveRatio(s, i, s.d - Demand(s.flows[i]), s.r - Rate(s.flows[i]));
    }
  }

  lemma StepSign(m: Rounding, s: Control, e: Event)
    requires Inv(s) && s.r >= 0.0 && Possible(s, e)
    ensures Step(m, s, e).r >= 0.0 <==> LeavesCovered(s, e)
  {
    match e
    case Join(req) =>
      assert Demand(Flow(Granted(req), 0.0, false)) > 0.0;
    case Leave(i) => LeaveSign(s, i);
    case Increase =>
    case Decrease(loss) => DecreaseSets(m, s, loss);
  }

  lemma {:induction false} RunSign(m: Rounding, es: seq<Event>, ss: seq<Control>, k: nat)
    requires IsRun(m, es, ss) && k < |ss|
    requires forall i :: 0 <= i < k ==> Moves(m, ss[i], es[i], ss[i + 1]) && LeavesCovered(ss[i], es[i])
    ensures ss[k].r >= 0.0
  {
    if k > 0 {
      RunSign(m, es, ss, k - 1);
      RunInv(m, es, ss, k - 1);
      assert Moves(m, ss[k - 1], es[k - 1], ss[k - 1 + 1]);
      StepSign(m, ss[k - 1], es[k - 1]);
    }
  }

  /** The total rate stays non-negative over a run exactly if every leave that keeps a flow finds
      it no less than the rate that the leaving flow was told to send at. */
  lemma TotalStaysPositive(m: Rounding, es: seq<Event>, ss: seq<Control>)
    requires IsRun(m, es, ss)
    ensures (forall k :: 0 <= k < |ss| ==> ss[k].r >= 0.0) <==>
            (forall i :: 0 <= i < |es| ==> Moves(m, ss[i], es[i], ss[i + 1]) && LeavesCovered(ss[i], es[i]))
  {
    if forall i :: 0 <= i < |es| ==> Moves(m, ss[i], es[i], ss[i + 1]) && LeavesCovered(ss[i], es[i]) {
      forall k | 0 <= k < |ss| ensures ss[k].r >= 0.0 { RunSign(m, es, ss, k); }
    }
    if forall k :: 0 <= k < |ss| ==> ss[k].r >= 0.0 {
      forall i | 0 <= i < |es| ensures Moves(m, ss[i], es[i], ss[i + 1]) && LeavesCovered(ss[i], es[i]) {
        RunInv(m, es, ss, i);
        assert ss[i + 1].r >= 0.0;
        StepSign(m, ss[i], es[i]);
      }
    }
  }

  /** A decrease, after every run: the total rate falls by half at most, and rises only to the
      least rate of one packet per flow in 30 seconds. */
  lemma DecreaseBounded(m: Rounding, es: seq<Event>, ss: seq<Control>, k: nat, loss: real)
    requires IsRun(m, es, ss) && k < |ss| && 0.0 <= loss <= 0.5
    ensures var s := ss[k];
            && 0.5 <= DeliveryUsed(loss, s.lastP) <= 1.0
            && var r := OnDecrease(m, s, loss).r;
               r >= s.r / 2.0 && r >= s.n as real / 30.0 && (r <= s.r || r == s.n as real / 30.0)
  {
    var s := ss[k];
    RunInv(m, es, ss, k);
    DeliveryRange(loss, s.lastP);
    DecreaseSets(m, s, loss);
    ReducedBounds(s, DeliveryUsed(loss, s.lastP));
  }

  // ---------------------------------------------------------------------------
  // No interval of 0
  // ---------------------------------------------------------------------------

  /** The total is within the demand, or, once a decrease has ended the start-up, at the floor. */
  predicate Capped(s: Control) {
    s.r <= s.d || (s.r <= s.n as real / 30.0 && !s.slowstart)
  }

  lemma QuotientAtMost(d: real, r: real, x: real, cap: real)
    requires d > 0.0 && 0.0 <= x <= d && r <= cap && cap >= 0.0
    ensures (r / d) * x <= cap
  {
    var q := r / d;
    assert q * d == r;
    if q > 0.0 {
      assert q * (d - x) >= 0.0;
      Distribute(q, d, -x);
    } else {
      assert q * x <= 0.0;
    }
  }

  /** No more than 1000 packets a second are asked for. */
  lemma DemandAtMost(f: Flow)
    requires 1 <= f.req
    ensures 0.0 < Demand(f) <= 1000.0
  {
  }

  /** Nor given out, as long as there are no more than 30000 flows. */
  lemma PortionCapped(d: real, r: real, n: nat, f: Flow)
    requires 1 <= f.req && Demand(f) <= d && n <= 30000
    requires r <= d || r <= n as real / 30.0
    ensures Portion(Ratio(d, r), f) <= 1000.0
  {
    DemandAtMost(f);
    if r <= d {
      RatioAtMostOne(d, r);
      TimesAtMost(Ratio(d, r), Demand(f));
    } else {
      QuotientAtMost(d, r, Demand(f), n as real / 30.0);
    }
  }

  lemma AllocateRated(m: Rounding, d: real, r: real, fs: seq<Flow>)
    requires Admitted(fs) && Rated(fs) && d == Sum(Demands(fs)) && |fs| <= 30000
    requires r <= d || r <= |fs| as real / 30.0
    ensures Rated(AllocateByRho(m, Ratio(d, r), fs))
  {
    var rho := Ratio(d, r);
    var gs := AllocateByRho(m, rho, fs);
    DemandPositive(fs);
    forall g | g in gs ensures g.cur > 0.0 {
      var i :| 0 <= i < |gs| && gs[i] == g;
      assert fs[i] in fs;
      PortionCapped(d, r, |fs|, fs[i]);
      ReallotIs(m, rho, fs[i]);
      IntervalAtLeast(m, Portion(rho, fs[i]), 1);
    }
  }

  lemma JoinCapped(m: Rounding, s: Control, request: int)
    requires Inv(s) && Capped(s) && Rated(s.flows) && 0 <= request < 65536 && s.n < 30000
    ensures Capped(OnJoin(m, s, request)) && Rated(OnJoin(m, s, request).flows)
  {
    var fs := Joined(s, request);
    var s' := OnJoin(m, s, request);
    if Granted(request) < 2000 { HalfIsLess(Granted(request)); }
    assert Demand(fs[0]) > 0.0;
    JoinDemands(fs[0], s.flows);
    DemandPositive(s.flows);
    AllocateRated(m, s'.d, s'.r, fs);
  }

  lemma DecreaseCapped(m: Rounding, s: Control, loss: real)
    requires Inv(s) && Capped(s) && Rated(s.flows) && s.flows != [] && 0.0 <= loss <= 0.5 && s.n <= 30000
    ensures Capped(OnDecrease(m, s, loss)) && Rated(OnDecrease(m, s, loss).flows)
  {
    DeliveryRange(loss, s.lastP);
    DecreaseSets(m, s, loss);
    ReducedBounds(s, DeliveryUsed(loss, s.lastP));
    AllocateRated(m, s.d, OnDecrease(m, s, loss).r, s.flows);
  }

  lemma StepCapped(m: Rounding, s: Control, e: Event)
    requires Inv(s) && Capped(s) && Rated(s.flows) && Possible(s, e) && Step(m, s, e).n <= 30000
    ensures Capped(Step(m, s, e)) && Rated(Step(m, s, e).flows)
  {
    match e
    case Join(req) => JoinCapped(m, s, req);
    case Leave(i) => WithoutWithin(s.flows, i);
      if s.n >= 2 { RestPositive(s, i); }
    case Increase => DemandPositive(s.flows);
      AllocateRated(m, s.d, OnIncrease(m, s).r, s.flows);
    case Decrease(loss) => DecreaseCapped(m, s, loss);
  }

  /** With no more than 30000 flows at a time, no interval is ever 0, so that the rates taken off by
      a leave are defined. */
  lemma {:induction false} NoZeroInterval(m: Rounding, es: seq<Event>, ss: seq<Control>, k: nat)
    requires IsRun(m, es, ss) && k < |ss| && forall i :: 0 <= i <= k ==> ss[i].n <= 30000
    ensures Rated(ss[k].flows) && Capped(ss[k])
  {
    if k > 0 {
      NoZeroInterval(m, es, ss, k - 1);
      RunInv(m, es, ss, k - 1);
      assert Moves(m, ss[k - 1], es[k - 1], ss[k - 1 + 1]);
      StepCapped(m, ss[k - 1], es[k - 1]);
    }
  }
}
