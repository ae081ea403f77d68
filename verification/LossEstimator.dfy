/** The loss rate of a connection: the inverse of a weighted average of the last eight loss
    intervals, kept in a circular buffer. */
module LossEstimator {
  import opened SeqNo

  const SLOTS := 8

  /** The weights, newest interval first. */
  function Weight(k: nat): real {
    if k < 4 then 1.0 else if k == 4 then 0.8 else if k == 5 then 0.6 else if k == 6 then 0.4 else 0.2
  }

  /** The estimator as a value; `recent` are the intervals it remembers, newest first. */
  datatype Estimate = Estimate(lastLoss: int, recent: seq<int>, savg: real, lavg: real)

  const FRESH := Estimate(0, [], 0.0, 0.0)

  /** The weights and the weighted values from position `k` on. */
  function Weights(n: nat, k: nat): real
    requires k <= n
    decreases n - k
  {
    if k == n then 0.0 else Weight(k) + Weights(n, k + 1)
  }

  function Weighted(xs: seq<int>, k: nat): real
    requires k <= |xs|
    decreases |xs| - k
  {
    if k == |xs| then 0.0 else Weight(k) * xs[k] as real + Weighted(xs, k + 1)
  }

  lemma {:induction false} WeightsPositive(n: nat, k: nat)
    requires k < n
    ensures Weights(n, k) > 0.0
    decreases n - k
  {
    if k + 1 < n {
      WeightsPositive(n, k + 1);
    }
  }

  function Average(xs: seq<int>): real
    requires xs != []
  {
    WeightsPositive(|xs|, 0);
    Weighted(xs, 0) / Weights(|xs|, 0)
  }

  /** The length of the interval that a loss ends.  The first one is set to 2 if nothing has been
      received before, and is otherwise not taken for longer than 10; later ones lie in 2 .. 20. */
  function LossInterval(lastLoss: int, lastRecv: int): int {
    var d := Diff(lastRecv, lastLoss) + 1;
    if lastLoss == 0 then (if lastRecv == 0 then 2 else if d > 10 then 10 else d)
    else if d < 2 then 2 else if d > 20 then 20 else d
  }

  predicate Lost(seqno: int, lastRecv: int) {
    Cmp(seqno, Next(lastRecv)) > 0
  }

  function Latest(xs: seq<int>): seq<int> {
    if |xs| <= SLOTS then xs else xs[..SLOTS]
  }

  /** The intervals after the arrival of `seqno`. */
  function Record(e: Estimate, seqno: int, lastRecv: int): Estimate {
    if Lost(seqno, lastRecv) then
      e.(lastLoss := Prev(seqno), recent := Latest([LossInterval(e.lastLoss, lastRecv)] + e.recent))
    else e
  }

  /** The mean of the last intervals, or, if that is longer, of the current one and the others. */
  function MeanInterval(recent: seq<int>, s0: int): real
    requires recent != []
  {
    var full := Average(recent);
    var current := if |recent| > 1 then Average([s0] + recent[..|recent| - 1]) else 0.0;
    if full < current then current else full
  }

  function Update(e: Estimate, seqno: int, lastRecv: int): Estimate {
    var e1 := Record(e, seqno, lastRecv);
    if e1.recent == [] then e1
    else
      var mean := MeanInterval(e1.recent, Diff(seqno, e1.lastLoss));
      e1.(savg := mean, lavg := if mean == 0.0 then 0.0 else 1.0 / mean)
  }

  // ---------------------------------------------------------------------------
  // What the estimate can be
  // ---------------------------------------------------------------------------

  predicate Sound(e: Estimate) {
    && |e.recent| <= SLOTS && (forall x :: x in e.recent ==> 2 <= x <= 20)
    && (e.recent == [] ==> e.lavg == 0.0)
    && (e.recent != [] ==> e.savg >= 2.0 && 0.0 < e.lavg <= 0.5 && e.lavg * e.savg == 1.0)
  }

  lemma IntervalRange(lastLoss: int, lastRecv: int)
    requires 0 <= lastRecv <= MAX_SEQNO
    ensures 2 <= LossInterval(lastLoss, lastRecv) <= 20
  {
  }

  lemma {:induction false} WeightedBounds(xs: seq<int>, k: nat, low: int)
    requires k <= |xs| && forall x :: x in xs ==> x >= low
    ensures Weighted(xs, k) >= low as real * Weights(|xs|, k)
    decreases |xs| - k
  {
    if k < |xs| {
      assert xs[k] in xs;
      WeightedBounds(xs, k + 1, low);
      var w, l, rest := Weight(k), low as real, Weights(|xs|, k + 1);
      assert w * xs[k] as real >= w * l;
      assert l * (w + rest) == w * l + l * rest;
    }
  }

  lemma AverageAtLeast(xs: seq<int>, low: int)
    requires xs != [] && forall x :: x in xs ==> x >= low
    ensures Average(xs) >= low as real
  {
    WeightsPositive(|xs|, 0);
    WeightedBounds(xs, 0, low);
    QuotientAtLeast(Weighted(xs, 0), Weights(|xs|, 0), low as real);
  }

  lemma QuotientAtLeast(a: real, b: real, low: real)
    requires b > 0.0 && a >= low * b
    ensures a / b >= low
  {
    var x := a / b;
    assert x * b == a;
    assert (x - low) * b >= 0.0;
  }

  lemma InverseRange(x: real)
    requires x >= 2.0
    ensures 0.0 < 1.0 / x <= 0.5 && (1.0 / x) * x == 1.0
  {
  }

  lemma LatestMembers(x: int, xs: seq<int>)
    ensures forall y :: y in Latest([x] + xs) ==> y == x || y in xs
  {
  }

  lemma RecordSound(e: Estimate, seqno: int, lastRecv: int)
    requires Sound(e) && 0 <= lastRecv <= MAX_SEQNO
    ensures var recent := Record(e, seqno, lastRecv).recent;
            |recent| <= SLOTS && forall x :: x in recent ==> 2 <= x <= 20
  {
    IntervalRange(e.lastLoss, lastRecv);
    LatestMembers(LossInterval(e.lastLoss, lastRecv), e.recent);
  }

  lemma MeanPositive(recent: seq<int>, s0: int)
    requires recent != [] && forall x :: x in recent ==> x >= 2
    ensures MeanInterval(recent, s0) >= 2.0
  {
    AverageAtLeast(recent, 2);
  }

  /** Every estimate is sound: intervals lie in 2 .. 20, so the loss rate is 0 or at most 1/2. */
  lemma UpdateSound(e: Estimate, seqno: int, lastRecv: int)
    requires Sound(e) && 0 <= lastRecv <= MAX_SEQNO
    ensures Sound(Update(e, seqno, lastRecv))
  {
    RecordSound(e, seqno, lastRecv);
    var e1 := Record(e, seqno, lastRecv);
    if e1.recent != [] {
      var mean := MeanInterval(e1.recent, Diff(seqno, e1.lastLoss));
      MeanPositive(e1.recent, Diff(seqno, e1.lastLoss));
      InverseRange(mean);
    }
  }

  // ---------------------------------------------------------------------------
  // Runs
  // ---------------------------------------------------------------------------

  /** Arrivals and restarts of the averaging. */
  datatype Event = Arrival(seqno: int, lastRecv: int) | Restart

  predicate Receivable(e: Event) {
    e.Arrival? ==> 0 <= e.lastRecv <= MAX_SEQNO
  }

  function Step(e: Estimate, ev: Event): Estimate {
    match ev
    case Arrival(seqno, lastRecv) => Update(e, seqno, lastRecv)
    case Restart => e.(recent := [], savg := 0.0, lavg := 0.0)
  }

  function Run(evs: seq<Event>): Estimate {
    if evs == [] then FRESH else Step(Run(evs[..|evs| - 1]), evs[|evs| - 1])
  }

  /** All loss intervals since the last restart, newest first. */
  function History(evs: seq<Event>): seq<int> {
    if evs == [] then []
    else
      var before, ev := evs[..|evs| - 1], evs[|evs| - 1];
      if ev.Restart? then []
      else if Lost(ev.seqno, ev.lastRecv) then [LossInterval(Run(before).lastLoss, ev.lastRecv)] + History(before)
      else History(before)
  }

  /** After every run the estimator remembers the last eight intervals since the restart, and its
      loss rate is 0 or in (0, 1/2]. */
  lemma {:induction false} RunSound(evs: seq<Event>)
    requires forall i :: 0 <= i < |evs| ==> Receivable(evs[i])
    ensures Sound(Run(evs)) && Run(evs).recent == Latest(History(evs))
    ensures Run(evs).lavg == 0.0 || 0.0 < Run(evs).lavg <= 0.5
  {
    if evs != [] {
      var before, ev := evs[..|evs| - 1], evs[|evs| - 1];
      RunSound(before);
      if ev.Arrival? {
        UpdateSound(Run(before), ev.seqno, ev.lastRecv);
        var x := LossInterval(Run(before).lastLoss, ev.lastRecv);
        assert Latest([x] + Latest(History(before))) == Latest([x] + History(before));
      }
    }
  }

  // ---------------------------------------------------------------------------
  // The circular buffer
  // ---------------------------------------------------------------------------

  /** The `k`th newest interval sits `k` places behind the head. */
  function Slot(head: int, k: nat): (i: int)
    requires 0 <= head < SLOTS && k < SLOTS
    ensures 0 <= i < SLOTS
  {
    (head + SLOTS - k) % SLOTS
  }

  /** The intervals in a buffer, newest first. */
  function RecentOf(buffer: seq<int>, head: int, len: nat): (r: seq<int>)
    requires |buffer| == SLOTS && len <= SLOTS && (len > 0 ==> 0 <= head < SLOTS)
    ensures |r| == len
  {
    seq(len, k requires 0 <= k < len => buffer[Slot(head, k)])
  }

  /** The place after the head. */
  function NextSlot(head: int): (i: int)
    requires -1 <= head < SLOTS
    ensures 0 <= i < SLOTS
  {
    (head + 1) % SLOTS
  }

  /** When the head moves on by one place, every interval is one place further behind it. */
  lemma SlotMoves(head: int, k: nat)
    requires 0 <= head < SLOTS && k < SLOTS
    ensures k > 0 ==> Slot(NextSlot(head), k) == Slot(head, k - 1) != NextSlot(head)
  {
  }

  lemma HeadSlot(head: int)
    requires 0 <= head < SLOTS
    ensures Slot(head, 0) == head
  {
  }

  /** How many intervals there are after another one, and what they are. */
  function Counted(len: nat): nat {
    if len < SLOTS then len + 1 else len
  }

  function Pushed(x: int, recent: seq<int>): seq<int> {
    Latest([x] + recent)
  }

  lemma PushedAt(x: int, recent: seq<int>, k: nat)
    requires |recent| <= SLOTS && k < Counted(|recent|)
    ensures |Pushed(x, recent)| == Counted(|recent|)
    ensures Pushed(x, recent)[k] == if k == 0 then x else recent[k - 1]
  {
  }

  /** The interval at the new head is the newest one; the oldest one goes if the buffer is full. */
  lemma PushRecent(buffer: seq<int>, head: int, len: nat, x: int)
    requires |buffer| == SLOTS && len <= SLOTS && -1 <= head < SLOTS && (len > 0 ==> head >= 0)
    ensures RecentOf(buffer[NextSlot(head) := x], NextSlot(head), Counted(len)) == Pushed(x, RecentOf(buffer, head, len))
  {
    var next := NextSlot(head);
    var recent := RecentOf(buffer, head, len);
    var after := RecentOf(buffer[next := x], next, Counted(len));
    PushedAt(x, recent, 0);
    forall k | 0 <= k < Counted(len) ensures after[k] == Pushed(x, recent)[k] {
      PushedAt(x, recent, k);
      if k == 0 { HeadSlot(next); } else { SlotMoves(head, k); }
    }
  }

  class Estimator {
    var lastLossSeqNo: int
    const s: array<int>
    var sHead: int
    var sLen: nat
    var savg: real
    var lavg: real

    ghost predicate Valid()
      reads this, s
    {
      s.Length == SLOTS && -1 <= sHead < SLOTS && sLen <= SLOTS && (sLen > 0 ==> sHead >= 0)
    }

    ghost function Recent(): (r: seq<int>)
      requires Valid()
      reads this, s
      ensures |r| == sLen
    {
      RecentOf(s[..], sHead, sLen)
    }

    ghost function View(): Estimate
      requires Valid()
      reads this, s
    {
      Estimate(lastLossSeqNo, Recent(), savg, lavg)
    }

    constructor ()
      ensures Valid() && View() == FRESH && fresh(s)
    {
      lastLossSeqNo, sHead, sLen, savg, lavg := 0, -1, 0, 0.0, 0.0;
      s := new int[SLOTS];
    }

    method RestartAveraging()
      requires Valid()
      modifies this
      ensures Valid() && View() == Step(old(View()), Restart)
    {
      sLen, savg, lavg := 0, 0.0, 0.0;
    }

    /** Puts an interval at the head, over the oldest one if the buffer is full. */
    method PushInterval(interval: int)
      requires Valid()
      modifies this`sHead, this`sLen, s
      ensures Valid() && Recent() == Pushed(interval, old(Recent()))
    {
      PushRecent(s[..], sHead, sLen, interval);
      ghost var after := s[..][NextSlot(sHead) := interval];
      sHead := NextSlot(sHead);
      s[sHead] := interval;
      if sLen < SLOTS {
        sLen := sLen + 1;
      }
      assert s[..] == after;
    }

    /** The weighted sums of the last intervals, in a loop over the buffer. */
    method AverageRecent() returns (avg: real)
      requires Valid() && sLen > 0
      ensures avg == Average(Recent())
    {
      var wssum, wsum := 0.0, 0.0;
      var k := 0;
      while k < sLen
        invariant 0 <= k <= sLen
        invariant wssum + Weighted(Recent(), k) == Weighted(Recent(), 0)
        invariant wsum + Weights(sLen, k) == Weights(sLen, 0)
      {
        wssum := wssum + Weight(k) * s[Slot(sHead, k)] as real;
        wsum := wsum + Weight(k);
        k := k + 1;
      }
      WeightsPositive(sLen, 0);
      avg := wssum / wsum;
    }

    /** The same with the current interval in front and the oldest one left out. */
    method AverageCurrent(s0: int) returns (avg: real)
      requires Valid() && sLen > 1
      ensures avg == Average([s0] + Recent()[..sLen - 1])
    {
      ghost var xs := [s0] + Recent()[..sLen - 1];
      var wssum, wsum := Weight(0) * s0 as real, Weight(0);
      var k := 0;
      while k < sLen - 1
        invariant 0 <= k <= sLen - 1
        invariant wssum + Weighted(xs, k + 1) == Weighted(xs, 0)
        invariant wsum + Weights(sLen, k + 1) == Weights(sLen, 0)
      {
        assert xs[k + 1] == s[Slot(sHead, k)];
        wssum := wssum + Weight(k + 1) * s[Slot(sHead, k)] as real;
        wsum := wsum + Weight(k + 1);
        k := k + 1;
      }
      WeightsPositive(sLen, 0);
      avg := wssum / wsum;
    }

    /** How long the interval is that a loss now ends. */
    method CurrentInterval(lastRecv: int) returns (lossInterval: int)
      ensures lossInterval == LossInterval(lastLossSeqNo, lastRecv)
    {
      lossInterval := Diff(lastRecv, lastLossSeqNo) + 1;
      if lastLossSeqNo == 0 {
        if lastRecv == 0 {
          lossInterval := 2;
        } else if lossInterval > 10 {
          lossInterval := 10;
        }
      } else {
        if lossInterval < 2 {
          lossInterval := 2;
        }
        if lossInterval > 20 {
          lossInterval := 20;
        }
      }
    }

    /** Ends the current interval if `seqno` reveals a loss. */
    method RecordLoss(seqno: int, lastRecv: int)
      requires Valid()
      modifies this`lastLossSeqNo, this`sHead, this`sLen, s
      ensures Valid() && View() == Record(old(View()), seqno, lastRecv)
    {
      if Cmp(seqno, Next(lastRecv)) > 0 {
        var lossInterval := CurrentInterval(lastRecv);
        lastLossSeqNo := Prev(seqno);
        PushInterval(lossInterval);
      }
    }

    /** The mean of the last intervals, or, if that is longer, of the current one and the others. */
    method ComputeMean(s0: int) returns (mean: real)
      requires Valid() && sLen > 0
      ensures mean == MeanInterval(Recent(), s0)
    {
      mean := AverageRecent();
      if sLen > 1 {
        var current := AverageCurrent(s0);
        mean := if mean < current then current else mean;
      } else {
        mean := if mean < 0.0 then 0.0 else mean;
      }
    }

    /** Recomputes the averages. */
    method Refresh(s0: int)
      requires Valid() && sLen > 0 && forall x :: x in Recent() ==> x >= 2
      modifies this`savg, this`lavg
      ensures Valid() && savg == MeanInterval(Recent(), s0) && savg != 0.0 && lavg == 1.0 / savg
      ensures Recent() == old(Recent())
    {
      MeanPositive(Recent(), s0);
      var mean := ComputeMean(s0);
      savg := mean;
      lavg := 1.0 / mean;
    }

    method UpdateLoss(seqno: int, lastRecv: int)
      requires Valid() && Sound(View()) && 0 <= lastRecv <= MAX_SEQNO
      modifies this, s
      ensures Valid() && View() == Update(old(View()), seqno, lastRecv) && Sound(View())
    {
      ghost var before := View();
      UpdateSound(before, seqno, lastRecv);
      RecordLoss(seqno, lastRecv);
      ghost var e1 := View();
      RecordSound(before, seqno, lastRecv);
      if sLen > 0 {
        Refresh(Diff(seqno, lastLossSeqNo));
        MeanPositive(e1.recent, Diff(seqno, lastLossSeqNo));
        assert View() == e1.(savg := savg, lavg := lavg);
      }
    }
  }
}
