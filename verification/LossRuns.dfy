/** What the loss rate is, in numbers: the weights are given outright, a mean is told by its product
    with their sum, and loss intervals by the true numbers of packets. */
module LossRuns {
  import opened SeqNo
  import opened LossEstimator

  /** How much each interval counts, newest first, and what the first so many of them add up to. */
  const WEIGHTS := [1.0, 1.0, 1.0, 1.0, 0.8, 0.6, 0.4, 0.2]
  const TOTALS := [0.0, 1.0, 2.0, 3.0, 4.0, 4.8, 5.4, 5.8, 6.0]

  function Total(n: nat): (t: real)
    requires n <= 8
    ensures n >= 1 ==> 1.0 <= t <= 6.0
  {
    TOTALS[n]
  }

  function Dot(ws: seq<real>, xs: seq<int>): real
    requires |xs| <= |ws|
  {
    if xs == [] then 0.0 else ws[0] * xs[0] as real + Dot(ws[1..], xs[1..])
  }

  function Times(a: real, b: real): real {
    a * b
  }

  // ---------------------------------------------------------------------------
  // Arithmetic
  // ---------------------------------------------------------------------------

  lemma Distribute(a: real, x: real, y: real)
    ensures a * (x + y) == a * x + a * y
  {
  }

  lemma TimesQuotient(a: real, b: real)
    requires b > 0.0
    ensures Times(a / b, b) == a
  {
  }

  lemma NotNegative(a: real, b: real)
    requires a >= 0.0 && b >= 0.0
    ensures Times(a, b) >= 0.0
  {
  }

  lemma Positive(a: real, b: real)
    requires a > 0.0 && b > 0.0
    ensures Times(a, b) > 0.0
  {
  }

  lemma TimesMonotone(a: real, b: real, t: real)
    requires t >= 1.0
    ensures a <= b ==> Times(a, t) <= Times(b, t)
    ensures a < b ==> Times(a, t) < Times(b, t)
  {
    if a <= b { NotNegative(b - a, t); }
    if a < b { Positive(b - a, t); }
    Distribute(t, b, -a);
  }

  lemma CancelTimes(a: real, b: real, t: real)
    requires t >= 1.0
    ensures Times(a, t) <= Times(b, t) ==> a <= b
    ensures Times(a, t) == Times(b, t) ==> a == b
  {
    TimesMonotone(a, b, t);
    TimesMonotone(b, a, t);
  }

  lemma InverseBound(l: real, m: real, t: real, x: real)
    requires l > 0.0 && l * m == 1.0 && Times(m, t) >= x
    ensures Times(l, x) <= t
  {
    NotNegative(l, m * t - x);
    Distribute(l, m * t, -x);
    assert l * (m * t) == (l * m) * t;
  }

  /** The greater of two means is the smaller inverse. */
  lemma InverseOrder(a: real, b: real)
    requires 2.0 <= a <= b
    ensures 1.0 / b <= 1.0 / a && (a < b ==> 1.0 / b < 1.0 / a)
  {
    var la, lb := 1.0 / a, 1.0 / b;
    TimesQuotient(1.0, a);
    TimesQuotient(1.0, b);
    InverseTimes(a, b, la, lb);
  }

  lemma InverseTimes(a: real, b: real, la: real, lb: real)
    requires 2.0 <= a <= b && Times(la, a) == 1.0 && Times(lb, b) == 1.0
    ensures lb <= la && (a < b ==> lb < la)
  {
    InversePositive(b, lb);
    NotNegative(lb, b - a);
    if a < b { Positive(lb, b - a); }
    Distribute(lb, b, -a);
    CancelTimes(lb, la, a);
    CancelTimes(la, lb, a);
  }

  lemma InversePositive(b: real, lb: real)
    requires b > 0.0 && Times(lb, b) == 1.0
    ensures lb > 0.0
  {
  }

  // ---------------------------------------------------------------------------
  // Averages
  // ---------------------------------------------------------------------------

  lemma WeightIs(k: nat)
    requires k < 8
    ensures Weight(k) == WEIGHTS[k] == Total(k + 1) - Total(k)
  {
  }

  lemma {:induction false} WeightsTotal(n: nat, k: nat)
    requires k <= n <= 8
    ensures Weights(n, k) == Total(n) - Total(k)
    decreases n - k
  {
    if k < n {
      WeightsTotal(n, k + 1);
      WeightIs(k);
    }
  }

  lemma {:induction false} WeightedIsDot(xs: seq<int>, k: nat)
    requires k <= |xs| <= 8
    ensures Weighted(xs, k) == Dot(WEIGHTS[k..], xs[k..])
    decreases |xs| - k
  {
    if k < |xs| {
      WeightedIsDot(xs, k + 1);
      WeightIs(k);
      assert WEIGHTS[k..][1..] == WEIGHTS[k + 1..] && xs[k..][1..] == xs[k + 1..];
    }
  }

  lemma WholeDot(xs: seq<int>)
    requires |xs| <= 8
    ensures Weighted(xs, 0) == Dot(WEIGHTS, xs) && Weights(|xs|, 0) == Total(|xs|)
  {
    WeightsTotal(|xs|, 0);
    WeightedIsDot(xs, 0);
    assert WEIGHTS[0..] == WEIGHTS && xs[0..] == xs;
  }

  /** The average of up to eight intervals, as a product. */
  lemma AverageIs(xs: seq<int>)
    requires 1 <= |xs| <= 8
    ensures Times(Average(xs), Total(|xs|)) == Dot(WEIGHTS, xs)
  {
    WholeDot(xs);
    TimesQuotient(Dot(WEIGHTS, xs), Total(|xs|));
  }

  lemma {:induction false} DotLengthened(ws: seq<real>, xs: seq<int>, k: nat, delta: int)
    requires k < |xs| <= |ws|
    ensures Dot(ws, xs[k := xs[k] + delta]) == Dot(ws, xs) + ws[k] * delta as real
  {
    var ys := xs[k := xs[k] + delta];
    if k == 0 {
      assert ys[1..] == xs[1..];
      Distribute(ws[0], xs[0] as real, delta as real);
    } else {
      assert ys[1..] == xs[1..][k - 1 := xs[1..][k - 1] + delta];
      DotLengthened(ws[1..], xs[1..], k - 1, delta);
    }
  }

  /** Lengthening one interval by one raises the average by its share of the weights. */
  lemma LengthenRaises(xs: seq<int>, k: nat)
    requires k < |xs| <= 8
    ensures Times(Average(xs[k := xs[k] + 1]) - Average(xs), Total(|xs|)) == WEIGHTS[k]
  {
    var ys := xs[k := xs[k] + 1];
    AverageIs(xs);
    AverageIs(ys);
    DotLengthened(WEIGHTS, xs, k, 1);
    Distribute(Total(|xs|), Average(ys), -Average(xs));
  }

  /** The four newest intervals count alike. */
  lemma NewestFourAlike(xs: seq<int>, i: nat, j: nat)
    requires i < j < |xs| <= 8 && j < 4
    ensures Average(xs[i := xs[j]][j := xs[i]]) == Average(xs)
  {
    var delta := xs[j] - xs[i];
    var ys := xs[i := xs[i] + delta];
    var zs := ys[j := ys[j] - delta];
    DotLengthened(WEIGHTS, xs, i, delta);
    DotLengthened(WEIGHTS, ys, j, -delta);
    assert zs == xs[i := xs[j]][j := xs[i]];
    AverageIs(xs);
    AverageIs(zs);
    CancelTimes(Average(zs), Average(xs), Total(|xs|));
  }

  lemma {:induction false} WeightedAtMost(xs: seq<int>, k: nat, high: int)
    requires k <= |xs| && forall x :: x in xs ==> x <= high
    ensures Weighted(xs, k) <= Times(high as real, Weights(|xs|, k))
    decreases |xs| - k
  {
    if k < |xs| {
      assert xs[k] in xs;
      WeightedAtMost(xs, k + 1, high);
      OneMore(Weight(k), xs[k] as real, high as real, Weights(|xs|, k + 1), Weighted(xs, k + 1));
    }
  }

  lemma OneMore(w: real, x: real, high: real, rest: real, sum: real)
    requires w >= 0.0 && x <= high && sum <= Times(high, rest)
    ensures w * x + sum <= Times(high, w + rest)
  {
    NotNegative(w, high - x);
    Distribute(w, high, -x);
    Distribute(high, w, rest);
  }

  /** An average is no more than the longest interval. */
  lemma AverageAtMost(xs: seq<int>, high: int)
    requires 1 <= |xs| <= 8 && forall x :: x in xs ==> x <= high
    ensures Average(xs) <= high as real
  {
    WholeDot(xs);
    AverageIs(xs);
    WeightedAtMost(xs, 0, high);
    CancelTimes(Average(xs), high as real, Total(|xs|));
  }

  // ---------------------------------------------------------------------------
  // The mean interval over every run
  // ---------------------------------------------------------------------------

  /** The intervals with the current one in front, and without the oldest. */
  function WithCurrent(s0: int, recent: seq<int>): seq<int>
    requires recent != []
  {
    [s0] + recent[..|recent| - 1]
  }

  /** The mean interval is the greater of two weighted means, that of the intervals remembered and,
      if there are at least two, that of the current interval and all but the oldest; the loss rate is
      its inverse. */
  predicate MeanTold(e: Estimate, s0: int) {
    1 <= |e.recent| <= 8 ==>
      IsMean(e.savg, s0, e.recent) && e.lavg * e.savg == 1.0
  }

  predicate IsMean(mean: real, s0: int, recent: seq<int>)
    requires 1 <= |recent| <= 8
  {
    var t := Times(mean, Total(|recent|));
    && t >= Dot(WEIGHTS, recent)
    && (|recent| >= 2 ==> t >= Dot(WEIGHTS, WithCurrent(s0, recent)))
    && (t == Dot(WEIGHTS, recent) || (|recent| >= 2 && t == Dot(WEIGHTS, WithCurrent(s0, recent))))
  }

  lemma GreaterOf(full: real, current: real, t: real)
    requires t >= 1.0
    ensures var mean := if full < current then current else full;
            Times(mean, t) >= Times(full, t) && Times(mean, t) >= Times(current, t)
  {
    TimesMonotone(full, current, t);
    TimesMonotone(current, full, t);
  }

  lemma MeanIs(recent: seq<int>, s0: int)
    requires 1 <= |recent| <= 8 && forall x :: x in recent ==> x >= 2
    ensures IsMean(MeanInterval(recent, s0), s0, recent)
  {
    AverageIs(recent);
    AverageAtLeast(recent, 2);
    if |recent| >= 2 {
      var xs := WithCurrent(s0, recent);
      assert xs == [s0] + recent[..|recent| - 1];
      AverageIs(xs);
      GreaterOf(Average(recent), Average(xs), Total(|recent|));
    }
  }

  /** Over every run that ends with an arrival, the loss rate is what is told of the intervals since
      the restart and of the distance from the last loss. */
  lemma RunMean(evs: seq<Event>)
    requires evs != [] && evs[|evs| - 1].Arrival? && forall i :: 0 <= i < |evs| ==> Receivable(evs[i])
    ensures MeanTold(Run(evs), Diff(evs[|evs| - 1].seqno, Run(evs).lastLoss))
  {
    RunSound(evs);
    var e := Run(evs);
    if e.recent != [] { MeanIs(e.recent, Diff(evs[|evs| - 1].seqno, e.lastLoss)); }
  }

  lemma MeanBoundsLoss(e: Estimate, s0: int)
    requires MeanTold(e, s0) && 2 <= |e.recent| <= 8 && e.lavg > 0.0
    ensures Times(e.lavg, Dot(WEIGHTS, WithCurrent(s0, e.recent))) <= Total(|e.recent|)
  {
    InverseBound(e.lavg, e.savg, Total(|e.recent|), Dot(WEIGHTS, WithCurrent(s0, e.recent)));
  }

  lemma LossPositive(evs: seq<Event>)
    requires (forall i :: 0 <= i < |evs| ==> Receivable(evs[i])) && Run(evs).recent != []
    ensures Run(evs).lavg > 0.0
  {
    RunSound(evs);
  }

  /** So, with two or more intervals remembered, the loss rate is at most the inverse of the mean that
      the current interval is part of: it falls while nothing is lost. */
  lemma RecoversWithoutLoss(evs: seq<Event>)
    requires evs != [] && evs[|evs| - 1].Arrival? && forall i :: 0 <= i < |evs| ==> Receivable(evs[i])
    requires 2 <= |Run(evs).recent| <= 8
    ensures var e := Run(evs);
            var s0 := Diff(evs[|evs| - 1].seqno, e.lastLoss);
            Times(e.lavg, Dot(WEIGHTS, WithCurrent(s0, e.recent))) <= Total(|e.recent|)
  {
    RunMean(evs);
    LossPositive(evs);
    MeanBoundsLoss(Run(evs), Diff(evs[|evs| - 1].seqno, Run(evs).lastLoss));
  }

  // ---------------------------------------------------------------------------
  // Arrivals without a loss
  // ---------------------------------------------------------------------------

  /** The next packet is one further from the last loss, unless the numbers have come round to it. */
  lemma DistanceGrows(m: int, lastLoss: int)
    requires 1 <= m <= MAX_SEQNO && 1 <= lastLoss <= MAX_SEQNO
    ensures 0 <= Diff(m, lastLoss) < MAX_SEQNO
    ensures Next(m) != lastLoss ==> Diff(Next(m), lastLoss) == Diff(m, lastLoss) + 1
    ensures Next(m) == lastLoss ==> Diff(Next(m), lastLoss) == 0 && Diff(m, lastLoss) == MAX_SEQNO - 1
  {
  }

  lemma CurrentGrows(s0: int, recent: seq<int>)
    requires 2 <= |recent| <= 8
    ensures MeanInterval(recent, s0 + 1) >= MeanInterval(recent, s0)
  {
    var xs, ys := WithCurrent(s0, recent), WithCurrent(s0 + 1, recent);
    assert ys == xs[0 := xs[0] + 1];
    LengthenRaises(xs, 0);
    TimesMonotone(Average(ys) - Average(xs), 0.0, Total(|xs|));
  }

  lemma CurrentMembers(s0: int, recent: seq<int>)
    requires recent != []
    ensures forall x :: x in WithCurrent(s0, recent) ==> x == s0 || x in recent
  {
  }

  /** Come round, the current interval counts for nothing, where it was longer than all others. */
  lemma CurrentWraps(recent: seq<int>)
    requires 2 <= |recent| <= 8 && forall x :: x in recent ==> 2 <= x <= 20
    ensures MeanInterval(recent, 0) < MeanInterval(recent, MAX_SEQNO - 1)
  {
    var xs, ys := WithCurrent(MAX_SEQNO - 1, recent), WithCurrent(0, recent);
    CurrentMembers(0, recent);
    AverageAtMost(recent, 20);
    AverageAtMost(ys, 20);
    AverageAtLeast(ys, 0);
    assert xs == ys[0 := ys[0] + (MAX_SEQNO - 1)];
    DotLengthened(WEIGHTS, ys, 0, MAX_SEQNO - 1);
    AverageIs(xs);
    AverageIs(ys);
    LongEnough(Average(xs), Average(ys), Total(|recent|), Dot(WEIGHTS, ys));
  }

  lemma LongEnough(a: real, b: real, t: real, dot: real)
    requires 1.0 <= t <= 6.0 && b >= 0.0 && Times(b, t) == dot && Times(a, t) == dot + 49999.0
    ensures a > 20.0
  {
    NotNegative(b, t);
    TimesMonotone(a, 20.0, t);
  }

  /** The number that has arrived can be carried by a packet. */
  predicate Carried(ev: Event) {
    ev.Arrival? ==> 1 <= ev.seqno <= MAX_SEQNO
  }

  lemma {:induction false} LastLossCarried(evs: seq<Event>)
    requires forall i :: 0 <= i < |evs| ==> Carried(evs[i])
    ensures 0 <= Run(evs).lastLoss <= MAX_SEQNO && (Run(evs).recent != [] ==> Run(evs).lastLoss >= 1)
  {
    if evs != [] {
      LastLossCarried(evs[..|evs| - 1]);
      assert Carried(evs[|evs| - 1]);
    }
  }

  /** An arrival in order does not raise the loss rate, exactly as long as the numbers have not come
      round to the last loss, or only one interval is remembered: 50000 packets after a loss it is as
      if the loss had just been. */
  lemma InOrderArrival(evs: seq<Event>, m: int)
    requires evs != [] && evs[|evs| - 1].Arrival? && evs[|evs| - 1].seqno == m && 1 <= m <= MAX_SEQNO
    requires forall i :: 0 <= i < |evs| ==> Receivable(evs[i]) && Carried(evs[i])
    requires Run(evs).recent != []
    ensures var e, e' := Run(evs), Step(Run(evs), Arrival(Next(m), m));
            && e'.recent == e.recent && e'.lastLoss == e.lastLoss
            && (e'.lavg <= e.lavg <==> |e.recent| == 1 || Next(m) != e.lastLoss)
  {
    RunSound(evs);
    LastLossCarried(evs);
    var e := Run(evs);
    var before, after := Diff(m, e.lastLoss), Diff(Next(m), e.lastLoss);
    MeanPositive(e.recent, before);
    MeanPositive(e.recent, after);
    DistanceGrows(m, e.lastLoss);
    LastMean(evs);
    var mean, mean' := MeanInterval(e.recent, before), MeanInterval(e.recent, after);
    if mean <= mean' { InverseOrder(mean, mean'); } else { InverseOrder(mean', mean); }
    if |e.recent| >= 2 {
      if Next(m) != e.lastLoss { CurrentGrows(before, e.recent); } else { CurrentWraps(e.recent); }
    }
  }

  lemma LastMean(evs: seq<Event>)
    requires evs != [] && evs[|evs| - 1].Arrival? && forall i :: 0 <= i < |evs| ==> Receivable(evs[i])
    requires Run(evs).recent != []
    ensures var e := Run(evs);
            var mean := MeanInterval(e.recent, Diff(evs[|evs| - 1].seqno, e.lastLoss));
            mean >= 2.0 && e.savg == mean && e.lavg == 1.0 / mean
  {
    RunSound(evs);
    MeanPositive(Run(evs).recent, Diff(evs[|evs| - 1].seqno, Run(evs).lastLoss));
  }

  // ---------------------------------------------------------------------------
  // Loss intervals, in true numbers
  // ---------------------------------------------------------------------------

  /** The interval that ends with the loss after packet `b`: its distance from the last loss `a`,
      within 2 and 20; and if nothing has been lost before, what has been received, up to 10, or 2 if
      nothing has been received either. */
  lemma IntervalTold(a: nat, b: nat)
    requires a == 0 ==> b <= MAX_SEQNO
    requires a >= 1 ==> a <= b < a + MAX_SEQNO
    ensures var x := LossInterval(Wrap(a), Wrap(b));
            && (a == 0 && b == 0 ==> x == 2)
            && (a == 0 && 1 <= b < 10 ==> x == b + 1)
            && (a == 0 && b >= 10 ==> x == 10)
            && (a >= 1 && b == a ==> x == 2)
            && (a >= 1 && a < b < a + 20 ==> x == b - a + 1)
            && (a >= 1 && b >= a + 20 ==> x == 20)
  {
    WrapDecomposes(a);
    WrapDecomposes(b);
    if a >= 1 { DiffWraps(b, a); }
  }

  /** The arrival of packet `n` after packet `m`: it reveals a loss if it is not the next one; the last
      packet lost is then the one before it, and the new interval goes in front of the others, of which
      the oldest goes if there were eight. */
  lemma RecordTold(e: Estimate, n: nat, m: nat)
    requires m < n && Comparable(n, m + 1) && n - m < MAX_SEQNO && |e.recent| <= 8
    ensures var e' := Record(e, Wrap(n), Wrap(m));
            if n == m + 1 then e' == e
            else
              && e'.lastLoss == Wrap(n - 1)
              && |e'.recent| == (if |e.recent| < 8 then |e.recent| + 1 else 8)
              && e'.recent[0] == LossInterval(e.lastLoss, Wrap(m))
              && forall k :: 1 <= k < |e'.recent| ==> e'.recent[k] == e.recent[k - 1]
  {
    NextWraps(m);
    CmpExact(n, m + 1);
    if n > m + 1 { PrevWraps(n - 1); }
  }

  /** A restart forgets the intervals and the loss rate, but not the last loss. */
  lemma RestartTold(e: Estimate)
    ensures Step(e, Restart) == Estimate(e.lastLoss, [], 0.0, 0.0)
  {
  }
}
