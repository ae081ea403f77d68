/** The timer of the dissemination protocol, after the Trickle algorithm: in every interval it
    announces once, at a random point of the second half, unless it has been suppressed; the
    interval doubles when it ends, and shrinks to the least when something new is heard. */
module Trickle {

  const PERIOD := 100
  const MIN_STAGE := 1
  const MAX_STAGE := 15
  const U16 := 65536

  function Pow2(n: nat): (p: nat)
    ensures p >= 1
  {
    if n == 0 then 1 else 2 * Pow2(n - 1)
  }

  lemma {:induction false} Pow2Grows(m: nat, n: nat)
    requires m < n
    ensures 2 * Pow2(m) <= Pow2(n)
    decreases n
  {
    if m + 1 < n {
      Pow2Grows(m, n - 1);
    }
  }

  /** The counters.  `processed` says that the interval needs no announcement any more. */
  datatype Timer = Timer(stage: nat, countdown: nat, announce: nat, processed: bool, suppress: bool)

  /** The ticks of an interval, as a 16-bit shift computes them. */
  function Ticks(stage: nat): nat {
    Pow2(stage) % U16
  }

  /** Begins an interval of the current stage; `rand` chooses the point of the announcement. */
  function Set(t: Timer, rand: nat): Timer {
    var c := Ticks(t.stage);
    Timer(t.stage, c, if c < 4 then 0 else rand % (c / 2), false, false)
  }

  function Reset(t: Timer, rand: nat): Timer {
    Set(t.(stage := MIN_STAGE), rand)
  }

  predicate Due(t: Timer) {
    t.countdown <= t.announce && !t.processed
  }

  function CountDown(t: Timer): Timer {
    t.(countdown := if t.countdown > 0 then t.countdown - 1 else 0)
  }

  /** A tick begins a new interval if the old one has run out and needs no announcement. */
  predicate Expires(t: Timer) {
    !Due(CountDown(t)) && CountDown(t).countdown == 0
  }

  function UpdateCounters(t: Timer, rand: nat): Timer {
    var t1 := CountDown(t);
    if Due(t1) then (if t1.suppress then t1.(processed := true) else t1)
    else if t1.countdown == 0 then Set(t1.(stage := if t1.stage < MAX_STAGE then t1.stage + 1 else t1.stage), rand)
    else t1
  }

  /** A tick announces if the announcement is due after the counters have been updated. */
  predicate Announces(t: Timer, rand: nat) {
    Due(UpdateCounters(t, rand))
  }

  function Tick(t: Timer, rand: nat): Timer {
    var t1 := UpdateCounters(t, rand);
    if Due(t1) then t1.(processed := true) else t1
  }

  // ---------------------------------------------------------------------------
  // Runs
  // ---------------------------------------------------------------------------

  /** Ticks, suppressions, resets, waits for which a stage is set, and announcements made out of
      turn. */
  datatype Event = Ticked(rand: nat) | Suppressed | WasReset(rand: nat) | Waited(stage: nat, rand: nat) | Processed

  function Step(t: Timer, e: Event): Timer {
    match e
    case Ticked(rand) => Tick(t, rand)
    case Suppressed => t.(suppress := true)
    case WasReset(rand) => Reset(t, rand)
    case Waited(stage, rand) => Set(t.(stage := stage), rand)
    case Processed => t.(processed := true)
  }

  predicate Fires(t: Timer, e: Event) {
    e.Ticked? && Announces(t, e.rand)
  }

  predicate BeginsInterval(t: Timer, e: Event) {
    e.WasReset? || e.Waited? || (e.Ticked? && Expires(t))
  }

  /** A wait sets one of the stages whose interval can be counted. */
  predicate Countable(e: Event) {
    e.Waited? ==> MIN_STAGE <= e.stage <= MAX_STAGE
  }

  /** A run: the states that the timer goes through on the events `es`, from a reset on. */
  ghost predicate IsRun(es: seq<Event>, ts: seq<Timer>) {
    && |ts| == |es| + 1 && (exists t, rand :: ts[0] == Reset(t, rand))
    && forall i :: 0 <= i < |es| ==> Countable(es[i]) && ts[i + 1] == Step(ts[i], es[i])
  }

  /** What holds at every point: the announcement lies in the second half of the interval. */
  predicate Inv(t: Timer) {
    && MIN_STAGE <= t.stage <= MAX_STAGE && t.countdown <= Pow2(t.stage)
    && 2 * t.announce < Pow2(t.stage)
  }

  lemma StageFits(stage: nat)
    requires stage <= MAX_STAGE
    ensures Ticks(stage) == Pow2(stage)
  {
    if stage < MAX_STAGE { Pow2Grows(stage, MAX_STAGE); }
    assert Pow2(15) == 32768;
  }

  lemma SetInv(t: Timer, rand: nat)
    requires MIN_STAGE <= t.stage <= MAX_STAGE
    ensures Inv(Set(t, rand)) && !Due(Set(t, rand)) && Set(t, rand).countdown == Pow2(t.stage)
  {
    StageFits(t.stage);
    assert Pow2(t.stage) >= 2;
  }

  lemma StepInv(t: Timer, e: Event)
    requires Inv(t) && Countable(e)
    ensures Inv(Step(t, e))
    ensures Fires(t, e) ==> 2 * Step(t, e).countdown < Pow2(t.stage) && Step(t, e).stage == t.stage
  {
    match e
    case Ticked(rand) =>
      var t1 := CountDown(t);
      if Expires(t) { SetInv(t1.(stage := if t1.stage < MAX_STAGE then t1.stage + 1 else t1.stage), rand); }
    case WasReset(rand) => SetInv(t.(stage := MIN_STAGE), rand);
    case Waited(stage, rand) => SetInv(t.(stage := stage), rand);
    case _ =>
  }

  lemma {:induction false} RunInv(es: seq<Event>, ts: seq<Timer>, k: nat)
    requires IsRun(es, ts) && k < |ts|
    ensures Inv(ts[k])
  {
    if k == 0 {
      var t, rand :| ts[0] == Reset(t, rand);
      SetInv(t.(stage := MIN_STAGE), rand);
    } else {
      RunInv(es, ts, k - 1);
      assert ts[k - 1 + 1] == Step(ts[k - 1], es[k - 1]);
      StepInv(ts[k - 1], es[k - 1]);
    }
  }

  /** No announcement is ever made in the first half of an interval: more than half of its ticks
      have gone by, and it does not begin a new one. */
  lemma NeverInFirstHalf(es: seq<Event>, ts: seq<Timer>, k: nat)
    requires IsRun(es, ts) && k < |es| && Fires(ts[k], es[k])
    ensures 2 * (Pow2(ts[k].stage) - ts[k + 1].countdown) > Pow2(ts[k].stage)
    ensures ts[k + 1].stage == ts[k].stage && !BeginsInterval(ts[k], es[k])
  {
    RunInv(es, ts, k);
    StepInv(ts[k], es[k]);
    var t1 := CountDown(ts[k]);
    if Expires(ts[k]) {
      SetInv(t1.(stage := if t1.stage < MAX_STAGE then t1.stage + 1 else t1.stage), es[k].rand);
      assert false;
    }
  }

  /** A mark that an interval carries: it has been dealt with, or it has been suppressed. */
  predicate Marked(t: Timer) {
    t.processed || t.suppress
  }

  lemma MarkStays(t: Timer, e: Event)
    requires Inv(t) && Marked(t) && !BeginsInterval(t, e)
    ensures Marked(Step(t, e)) && !Fires(t, e)
  {
  }

  /** A marked interval makes no announcement until a new one has begun. */
  lemma {:induction false} SilentUntilNext(es: seq<Event>, ts: seq<Timer>, i: nat, j: nat)
    requires IsRun(es, ts) && i <= j < |es| && Marked(ts[i]) && Fires(ts[j], es[j])
    ensures exists k :: i <= k <= j && BeginsInterval(ts[k], es[k])
    decreases j - i
  {
    if !BeginsInterval(ts[i], es[i]) {
      RunInv(es, ts, i);
      MarkStays(ts[i], es[i]);
      assert ts[i + 1] == Step(ts[i], es[i]);
      SilentUntilNext(es, ts, i + 1, j);
    }
  }

  /** At most one announcement between two beginnings of an interval. */
  lemma AtMostOnce(es: seq<Event>, ts: seq<Timer>, i: nat, j: nat)
    requires IsRun(es, ts) && i < j < |es| && Fires(ts[i], es[i]) && Fires(ts[j], es[j])
    ensures exists k :: i < k <= j && BeginsInterval(ts[k], es[k])
  {
    assert ts[i + 1] == Step(ts[i], es[i]);
    SilentUntilNext(es, ts, i + 1, j);
  }

  /** No announcement after a suppression in the same interval. */
  lemma NeverAfterSuppression(es: seq<Event>, ts: seq<Timer>, i: nat, j: nat)
    requires IsRun(es, ts) && i < j < |es| && es[i].Suppressed? && Fires(ts[j], es[j])
    ensures exists k :: i < k <= j && BeginsInterval(ts[k], es[k])
  {
    assert ts[i + 1] == Step(ts[i], es[i]);
    SilentUntilNext(es, ts, i + 1, j);
  }

  // ---------------------------------------------------------------------------
  // An undisturbed interval
  // ---------------------------------------------------------------------------

  /** The length of an interval: one tick more if the announcement is left to the very end. */
  function Length(t: Timer): nat {
    Pow2(t.stage) + (if t.announce == 0 then 1 else 0)
  }

  predicate Begun(t: Timer) {
    Inv(t) && t.countdown == Pow2(t.stage) && !t.processed
  }

  /** The state `k` ticks into an undisturbed interval. */
  function Into(t: Timer, k: nat): Timer {
    t.(countdown := if k <= Pow2(t.stage) then Pow2(t.stage) - k else 0,
       processed := k >= Pow2(t.stage) - t.announce)
  }

  /** Tick by tick: the announcement comes exactly when `announce` ticks are left, unless it has
      been suppressed; the interval ends after its length, and the next one is twice as long, up
      to the longest. */
  lemma UndisturbedTick(t: Timer, k: nat, rand: nat)
    requires Begun(t) && k < Length(t)
    ensures Announces(Into(t, k), rand) <==> !t.suppress && k + 1 == Pow2(t.stage) - t.announce
    ensures Expires(Into(t, k)) <==> k + 1 == Length(t)
    ensures k + 1 < Length(t) ==> Tick(Into(t, k), rand) == Into(t, k + 1)
    ensures k + 1 == Length(t) ==>
              var t' := Tick(Into(t, k), rand);
              Begun(t') && !t'.suppress && t'.stage == if t.stage < MAX_STAGE then t.stage + 1 else t.stage
  {
    var s := Into(t, k);
    if Expires(s) {
      var t1 := CountDown(s);
      SetInv(t1.(stage := if t1.stage < MAX_STAGE then t1.stage + 1 else t1.stage), rand);
    }
  }

  lemma {:induction false} UndisturbedState(es: seq<Event>, ts: seq<Timer>, i: nat, k: nat)
    requires IsRun(es, ts) && i + k < |ts| && Begun(ts[i]) && k < Length(ts[i])
    requires forall j :: i <= j < i + k ==> es[j].Ticked?
    ensures ts[i + k] == Into(ts[i], k)
  {
    if k > 0 {
      UndisturbedState(es, ts, i, k - 1);
      assert ts[i + k - 1 + 1] == Step(ts[i + k - 1], es[i + k - 1]);
      UndisturbedTick(ts[i], k - 1, es[i + k - 1].rand);
    }
  }

  /** An undisturbed interval, in any run: the `k`th tick of it announces exactly if `announce`
      ticks are then left and the interval has not been suppressed; it begins the next interval
      exactly if the length is then up; and the next interval is twice as long, up to the longest. */
  lemma UndisturbedInterval(es: seq<Event>, ts: seq<Timer>, i: nat, k: nat)
    requires IsRun(es, ts) && i + k <= |es| && Begun(ts[i]) && 1 <= k <= Length(ts[i])
    requires forall j :: i <= j < i + k ==> es[j].Ticked?
    ensures var t, j := ts[i], i + k - 1;
            && (Fires(ts[j], es[j]) <==> !t.suppress && k == Pow2(t.stage) - t.announce)
            && (BeginsInterval(ts[j], es[j]) <==> k == Length(t))
            && (k == Length(t) ==>
                  Begun(ts[i + k]) && ts[i + k].stage == if t.stage < MAX_STAGE then t.stage + 1 else t.stage)
  {
    UndisturbedState(es, ts, i, k - 1);
    assert ts[i + k - 1 + 1] == Step(ts[i + k - 1], es[i + k - 1]);
    UndisturbedTick(ts[i], k - 1, es[i + k - 1].rand);
  }

  // ---------------------------------------------------------------------------
  // Every step, in numbers
  // ---------------------------------------------------------------------------

  /** An interval of a stage has just begun: it lasts 2 to the stage, nothing has been said or heard
      in it, and the announcement is to be made with a random number of ticks left, of less than half
      of them. */
  predicate JustBegun(t: Timer, stage: nat, rand: nat)
    requires stage >= 1
  {
    t == Timer(stage, Pow2(stage), rand % Pow2(stage - 1), false, false)
  }

  /** A tick counts down.  When no more ticks are left than are set for the announcement, it makes the
      announcement, if none has been made and the interval has not been suppressed, and marks the
      interval as dealt with; and when none at all are left of an interval that has been dealt with, it
      begins the next one, twice as long, up to stage 15. */
  predicate TickTold(t: Timer, rand: nat, t': Timer, fires: bool) {
    var left := if t.countdown > 0 then t.countdown - 1 else 0;
    if left <= t.announce && !t.processed then
      t' == t.(countdown := left, processed := true) && (fires <==> !t.suppress)
    else if left == 0 then
      JustBegun(t', if t.stage < 15 then t.stage + 1 else 15, rand) && !fires
    else
      t' == t.(countdown := left) && !fires
  }

  predicate Told(t: Timer, e: Event, t': Timer) {
    match e
    case Ticked(rand) => TickTold(t, rand, t', Fires(t, e))
    case Suppressed => t' == Timer(t.stage, t.countdown, t.announce, t.processed, true) && !Fires(t, e)
    case Processed => t' == Timer(t.stage, t.countdown, t.announce, true, t.suppress) && !Fires(t, e)
    case WasReset(_) => t' == Timer(1, 2, 0, false, false) && !Fires(t, e)
    case Waited(stage, rand) => stage >= 1 && JustBegun(t', stage, rand) && !Fires(t, e)
  }

  lemma SetTold(t: Timer, rand: nat)
    requires MIN_STAGE <= t.stage <= MAX_STAGE
    ensures JustBegun(Set(t, rand), t.stage, rand)
  {
    StageFits(t.stage);
    assert Pow2(t.stage) == 2 * Pow2(t.stage - 1);
    if t.stage == 1 {
      assert Pow2(0) == 1 && rand % 1 == 0;
    } else {
      Pow2Grows(1, t.stage);
      assert Pow2(1) == 2;
    }
  }

  lemma ResetTold(t: Timer, rand: nat)
    ensures Reset(t, rand) == Timer(1, 2, 0, false, false)
  {
    SetTold(t.(stage := MIN_STAGE), rand);
    assert Pow2(1) == 2 && Pow2(0) == 1 && rand % 1 == 0;
  }

  lemma TickStepTold(t: Timer, rand: nat)
    requires Inv(t)
    ensures TickTold(t, rand, Tick(t, rand), Announces(t, rand))
  {
    if Expires(t) {
      var t1 := CountDown(t);
      var t2 := t1.(stage := if t1.stage < MAX_STAGE then t1.stage + 1 else t1.stage);
      SetTold(t2, rand);
      SetInv(t2, rand);
    }
  }

  /** Over every run, the next event does exactly what is told, and the run begins like a reset. */
  lemma RunTold(es: seq<Event>, ts: seq<Timer>, k: nat)
    requires IsRun(es, ts) && k < |es|
    ensures ts[0] == Timer(1, 2, 0, false, false)
    ensures Told(ts[k], es[k], ts[k + 1])
  {
    var t, rand :| ts[0] == Reset(t, rand);
    ResetTold(t, rand);
    RunInv(es, ts, k);
    assert ts[k + 1] == Step(ts[k], es[k]) && Countable(es[k]);
    match es[k]
    case Ticked(r) => TickStepTold(ts[k], r);
    case WasReset(r) => ResetTold(ts[k], r);
    case Waited(stage, r) => SetTold(ts[k].(stage := stage), r);
    case _ =>
  }

  // ---------------------------------------------------------------------------
  // After a reset
  // ---------------------------------------------------------------------------

  /** What follows a reset, or the beginning of a run, undisturbed: the second tick announces, and the
      third begins the next interval. */
  lemma AfterReset(es: seq<Event>, ts: seq<Timer>, i: nat)
    requires IsRun(es, ts) && i + 3 <= |es| && (i == 0 || es[i - 1].WasReset?)
    requires es[i].Ticked? && es[i + 1].Ticked? && es[i + 2].Ticked?
    ensures !Fires(ts[i], es[i]) && Fires(ts[i + 1], es[i + 1]) && !Fires(ts[i + 2], es[i + 2])
    ensures !BeginsInterval(ts[i], es[i]) && !BeginsInterval(ts[i + 1], es[i + 1])
    ensures BeginsInterval(ts[i + 2], es[i + 2]) && ts[i + 3].stage == 2
  {
    if i > 0 { RunTold(es, ts, i - 1); } else { RunTold(es, ts, 0); }
    RunInv(es, ts, i);
    assert ts[i] == Timer(1, 2, 0, false, false) && Pow2(1) == 2;
    UndisturbedInterval(es, ts, i, 1);
    UndisturbedInterval(es, ts, i, 2);
    UndisturbedInterval(es, ts, i, 3);
  }

  /** How many intervals begin with the events from `i` up to `j`. */
  function Beginnings(es: seq<Event>, ts: seq<Timer>, i: nat, j: nat): nat
    requires i <= j <= |es| && |ts| == |es| + 1
    decreases j - i
  {
    if i == j then 0
    else Beginnings(es, ts, i, j - 1) + if BeginsInterval(ts[j - 1], es[j - 1]) then 1 else 0
  }

  /** The intervals double from the reset on: the first is of stage 1, and the one after `n` others,
      none of them disturbed, of stage n + 1, up to 15. */
  lemma {:induction false} StagesAfterReset(es: seq<Event>, ts: seq<Timer>, i: nat, j: nat)
    requires IsRun(es, ts) && i <= j <= |es| && (i == 0 || es[i - 1].WasReset?)
    requires forall k :: i <= k < j ==> es[k].Ticked?
    ensures ts[j].stage == if Beginnings(es, ts, i, j) <= 14 then Beginnings(es, ts, i, j) + 1 else 15
    decreases j - i
  {
    if i == j {
      if i > 0 { RunTold(es, ts, i - 1); } else { BeginsReset(es, ts); }
    } else {
      StagesAfterReset(es, ts, i, j - 1);
      StageStep(es, ts, j - 1);
    }
  }

  lemma BeginsReset(es: seq<Event>, ts: seq<Timer>)
    requires IsRun(es, ts)
    ensures ts[0] == Timer(1, 2, 0, false, false)
  {
    var t, rand :| ts[0] == Reset(t, rand);
    ResetTold(t, rand);
  }

  /** A tick goes on to the next stage exactly if it begins an interval. */
  lemma StageStep(es: seq<Event>, ts: seq<Timer>, k: nat)
    requires IsRun(es, ts) && k < |es| && es[k].Ticked?
    ensures ts[k + 1].stage ==
            if BeginsInterval(ts[k], es[k]) && ts[k].stage < 15 then ts[k].stage + 1 else ts[k].stage
  {
    RunInv(es, ts, k);
    RunTold(es, ts, k);
  }

  /** No announcement in an interval that something else has dealt with. */
  lemma NeverAfterProcessed(es: seq<Event>, ts: seq<Timer>, i: nat, j: nat)
    requires IsRun(es, ts) && i < j < |es| && es[i].Processed? && Fires(ts[j], es[j])
    ensures exists k :: i < k <= j && BeginsInterval(ts[k], es[k])
  {
    assert ts[i + 1] == Step(ts[i], es[i]);
    SilentUntilNext(es, ts, i + 1, j);
  }

  // ---------------------------------------------------------------------------
  // Waiting for a given time
  // ---------------------------------------------------------------------------

  /** The stage that is set for a wait: the least, from 1 on, whose interval is longer. */
  predicate IsStageFor(interval: nat, stage: nat) {
    var wait := interval / PERIOD % U16;
    stage >= 1 && wait < Pow2(stage) && (stage == 1 || Pow2(stage - 1) <= wait)
  }

  lemma StageBounded(interval: nat, stage: nat)
    requires IsStageFor(interval, stage)
    ensures stage <= 16 && (stage <= MAX_STAGE <==> interval / PERIOD % U16 < 32768)
  {
    assert Pow2(16) == 65536 && Pow2(15) == 32768;
    if stage > 16 {
      if stage > 17 { Pow2Grows(16, stage - 1); }
      assert false;
    }
    if stage < 15 { Pow2Grows(stage, 15); }
  }

  /** The state in which stage 16 leaves the timer between two ticks. */
  predicate Spinning(t: Timer) {
    t.stage == 16 && t.countdown == 0 && t.announce == 0 && !t.suppress
  }

  /** A wait of more than 3276.7 seconds asks for stage 16, whose interval does not fit in 16 bits
      and comes out as no interval at all.  The announcement is due at once, and again at every
      tick that follows, until something else is set. */
  lemma LongWaitIsNone(t: Timer, rand: nat, rand': nat)
    ensures Spinning(Set(t.(stage := 16), rand))
    ensures Spinning(t) ==> Announces(t, rand') && Spinning(Tick(t, rand'))
  {
    assert Pow2(15) == 32768 && Pow2(16) == 2 * Pow2(15);
    assert Ticks(16) == 0;
  }

  class TrickleTimer {
    var announce: nat
    var countdown: nat
    var stage: nat
    var suppress: bool
    var processed: bool

    function View(): Timer
      reads this
    {
      Timer(stage, countdown, announce, processed, suppress)
    }

    constructor (rand: nat)
      ensures exists t :: View() == Reset(t, rand)
    {
      stage := MIN_STAGE;
      new;
      SetInterval(rand);
      assert View() == Reset(View(), rand);
    }

    method SetInterval(rand: nat)
      modifies this
      ensures View() == Set(old(View()), rand)
    {
      countdown := Ticks(stage);
      if countdown < 4 {
        announce := 0;
      } else {
        announce := rand % (countdown / 2);
      }
      suppress := false;
      processed := false;
    }

    method ResetTimer(rand: nat)
      modifies this
      ensures View() == Step(old(View()), WasReset(rand))
    {
      stage := MIN_STAGE;
      SetInterval(rand);
    }

    method SuppressTimer()
      modifies this`suppress
      ensures View() == Step(old(View()), Suppressed)
    {
      suppress := true;
    }

    method MarkProcessed()
      modifies this`processed
      ensures View() == Step(old(View()), Processed)
    {
      processed := true;
    }

    method UpdateCountersNow(rand: nat)
      modifies this
      ensures View() == UpdateCounters(old(View()), rand)
    {
      if countdown > 0 {
        countdown := countdown - 1;
      }
      if countdown <= announce && !processed {
        if suppress {
          processed := true;
        }
      } else if countdown == 0 {
        if stage < MAX_STAGE {
          stage := stage + 1;
        }
        SetInterval(rand);
      }
    }

    /** One tick.  The announcement itself marks the interval as processed. */
    method TimerTick(rand: nat) returns (fired: bool)
      modifies this
      ensures View() == Step(old(View()), Ticked(rand))
      ensures fired <==> Fires(old(View()), Ticked(rand))
    {
      UpdateCountersNow(rand);
      fired := countdown <= announce && !processed;
      if fired {
        processed := true;
      }
    }

    /** Begins an interval longer than the given time in milliseconds. */
    method SetWait(interval: nat, rand: nat)
      modifies this
      ensures IsStageFor(interval, stage) && View() == Step(old(View()), Waited(stage, rand))
    {
      var wait := interval / PERIOD % U16;
      var st := 1;
      while wait / Pow2(st) > 0
        invariant st >= 1 && (st == 1 || Pow2(st - 1) <= wait)
        decreases wait - st
      {
        Pow2Above(st);
        QuotientPositive(wait, Pow2(st));
        st := st + 1;
      }
      QuotientPositive(wait, Pow2(st));
      stage := st;
      SetInterval(rand);
    }
  }

  lemma {:induction false} Pow2Above(n: nat)
    ensures Pow2(n) > n
  {
    if n > 0 {
      Pow2Above(n - 1);
    }
  }

  lemma QuotientPositive(a: nat, b: nat)
    requires b > 0
    ensures a / b > 0 <==> a >= b
  {
    assert a == a / b * b + a % b;
  }
}
