/** The other allocation policy: the total rate is shared equally, except that no flow gets more
    than it asked for.  It is found in passes, each of which satisfies the flows that ask for no
    more than an equal share of what is left. */
module WaterFilling {
  import opened Rates

  /** What a flow asks for; a request without an interval asks for as much as there is. */
  datatype Want = Finite(d: real) | Unlimited

  function WantOf(f: Flow): Want {
    if f.req <= 0 then Unlimited else Finite(Demand(f))
  }

  function Wants(fs: seq<Flow>): seq<Want> {
    seq(|fs|, i requires 0 <= i < |fs| => WantOf(fs[i]))
  }

  /** What a want gets when the water stands at `t`. */
  function Share(w: Want, t: real): real {
    if w.Finite? && w.d <= t then w.d else t
  }

  function Shares(ws: seq<Want>, t: real): seq<real> {
    seq(|ws|, i requires 0 <= i < |ws| => Share(ws[i], t))
  }

  predicate Satisfied(w: Want, t: real) {
    w.Finite? && w.d <= t
  }

  /** `t` is the level at which `total` is used up, or at which every want is satisfied with what
      there is. */
  ghost predicate IsLevel(ws: seq<Want>, total: real, t: real) {
    || Sum(Shares(ws, t)) == total
    || ((forall w :: w in ws ==> Satisfied(w, t)) && Sum(Shares(ws, t)) <= total)
  }

  // ---------------------------------------------------------------------------
  // Max-min fairness
  // ---------------------------------------------------------------------------

  /** An allocation gives each flow no more than it wants, and no more than `total` together. */
  ghost predicate Feasible(ws: seq<Want>, total: real, xs: seq<real>) {
    && |xs| == |ws| && Sum(xs) <= total
    && forall i :: 0 <= i < |xs| ==> (ws[i].Finite? ==> xs[i] <= ws[i].d)
  }

  /** Max-min fairness: nobody can get more unless somebody who has no more gets less. */
  ghost predicate MaxMinFair(ws: seq<Want>, total: real, xs: seq<real>) {
    && Feasible(ws, total, xs)
    && forall ys, i :: Feasible(ws, total, ys) && 0 <= i < |xs| && ys[i] > xs[i] ==>
         exists j :: 0 <= j < |xs| && ys[j] < xs[j] <= xs[i]
  }

  lemma {:induction false} SumMonotone(xs: seq<real>, ys: seq<real>)
    requires |xs| == |ys| && forall i :: 0 <= i < |xs| ==> xs[i] <= ys[i]
    ensures Sum(xs) <= Sum(ys)
    ensures (exists i :: 0 <= i < |xs| && xs[i] < ys[i]) ==> Sum(xs) < Sum(ys)
  {
    if xs != [] {
      SumMonotone(xs[1..], ys[1..]);
      if i :| 0 <= i < |xs| && xs[i] < ys[i] {
        if i > 0 { assert xs[1..][i - 1] < ys[1..][i - 1]; }
      }
    }
  }

  /** The shares at a level are max-min fair. */
  lemma LevelIsFair(ws: seq<Want>, total: real, t: real)
    requires IsLevel(ws, total, t)
    ensures MaxMinFair(ws, total, Shares(ws, t))
  {
    var xs := Shares(ws, t);
    forall ys, i | Feasible(ws, total, ys) && 0 <= i < |xs| && ys[i] > xs[i]
      ensures exists j :: 0 <= j < |xs| && ys[j] < xs[j] <= xs[i]
    {
      assert xs[i] == t && !Satisfied(ws[i], t) && ws[i] in ws;
      if forall j :: 0 <= j < |xs| ==> xs[j] <= ys[j] {
        SumMonotone(xs, ys);
        assert false;
      }
      var j :| 0 <= j < |xs| && xs[j] > ys[j];
      assert xs[j] == Share(ws[j], t) <= t;
    }
  }

  function FiniteDemands(ws: seq<Want>): seq<real>
    requires forall w :: w in ws ==> w.Finite?
  {
    seq(|ws|, i requires 0 <= i < |ws| => assert ws[i] in ws; ws[i].d)
  }

  /** Nothing is wasted: together the shares are all there is, or all that is asked for. */
  lemma LevelSum(ws: seq<Want>, total: real, t: real)
    requires IsLevel(ws, total, t) && forall w :: w in ws ==> w.Finite?
    ensures var d := Sum(FiniteDemands(ws)); Sum(Shares(ws, t)) == if total <= d then total else d
  {
    forall i | 0 <= i < |ws|
      ensures Shares(ws, t)[i] <= FiniteDemands(ws)[i]
      ensures Satisfied(ws[i], t) ==> Shares(ws, t)[i] == FiniteDemands(ws)[i]
    {
      assert ws[i] in ws;
    }
    SumMonotone(Shares(ws, t), FiniteDemands(ws));
    if forall w :: w in ws ==> Satisfied(w, t) {
      assert Shares(ws, t) == FiniteDemands(ws);
    }
  }

  // ---------------------------------------------------------------------------
  // The passes
  // ---------------------------------------------------------------------------

  /** The demands of the flows that have been allocated, and the number of those that have not. */
  function Given(fs: seq<Flow>): real {
    if fs == [] then 0.0
    else (if fs[0].alloc && fs[0].req > 0 then Demand(fs[0]) else 0.0) + Given(fs[1..])
  }

  function Waiting(fs: seq<Flow>): nat {
    if fs == [] then 0 else (if fs[0].alloc then 0 else 1) + Waiting(fs[1..])
  }

  lemma {:induction false} GiveOne(fs: seq<Flow>, k: nat, g: Flow)
    requires k < |fs| && !fs[k].alloc && g.alloc && g.req == fs[k].req > 0
    ensures Given(fs[k := g]) == Given(fs) + Demand(g)
    ensures Waiting(fs) == Waiting(fs[k := g]) + 1
  {
    var gs := fs[k := g];
    if k > 0 {
      GiveOne(fs[1..], k - 1, g);
      assert gs[1..] == fs[1..][k - 1 := g];
    } else {
      assert gs[1..] == fs[1..];
    }
  }

  lemma {:induction false} NoneGiven(fs: seq<Flow>)
    requires forall f :: f in fs ==> !f.alloc
    ensures Given(fs) == 0.0 && Waiting(fs) == |fs|
  {
    if fs != [] {
      assert fs[0] in fs && forall f :: f in fs[1..] ==> f in fs;
      NoneGiven(fs[1..]);
    }
  }

  /** The flows allocated so far are satisfied at `t`; at the end they are all that are. */
  predicate SettledBelow(fs: seq<Flow>, t: real) {
    forall f :: f in fs && f.alloc ==> f.req > 0 && Demand(f) <= t && f.cur == f.req as real
  }

  predicate OthersAbove(fs: seq<Flow>, t: real) {
    forall f :: f in fs && !f.alloc ==> f.req <= 0 || Demand(f) > t
  }

  lemma Times(t: real, n: int)
    ensures t * (n + 1) as real == t * n as real + t
  {
  }

  lemma HeadShare(f: Flow, t: real)
    requires if f.alloc then f.req > 0 && Demand(f) <= t else f.req <= 0 || Demand(f) > t
    ensures Share(WantOf(f), t) == if f.alloc then Demand(f) else t
  {
  }

  /** What the waiting flows get together at level `t`. */
  function AtLevel(fs: seq<Flow>, t: real): real {
    if fs == [] then 0.0 else (if fs[0].alloc then 0.0 else t) + AtLevel(fs[1..], t)
  }

  lemma {:induction false} AtLevelTimes(fs: seq<Flow>, t: real)
    ensures AtLevel(fs, t) == t * Waiting(fs) as real
  {
    if fs != [] {
      AtLevelTimes(fs[1..], t);
      Times(t, Waiting(fs[1..]));
    }
  }

  lemma {:induction false} SumOfShares(fs: seq<Flow>, t: real)
    requires SettledBelow(fs, t) && OthersAbove(fs, t)
    ensures Sum(Shares(Wants(fs), t)) == Given(fs) + AtLevel(fs, t)
  {
    if fs != [] {
      assert fs[0] in fs && forall f :: f in fs[1..] ==> f in fs;
      SumOfShares(fs[1..], t);
      assert Shares(Wants(fs), t)[1..] == Shares(Wants(fs[1..]), t);
      HeadShare(fs[0], t);
    }
  }

  lemma {:induction false} NoneWaiting(fs: seq<Flow>)
    requires Waiting(fs) == 0
    ensures forall f :: f in fs ==> f.alloc
  {
    if fs != [] {
      NoneWaiting(fs[1..]);
    }
  }

  /** The level found: what is left, divided among those still waiting. */
  lemma LevelFound(fs: seq<Flow>, total: real, t: real)
    requires SettledBelow(fs, t) && OthersAbove(fs, t)
    requires total - Given(fs) >= t * Waiting(fs) as real
    requires Waiting(fs) > 0 ==> total - Given(fs) == t * Waiting(fs) as real
    ensures IsLevel(Wants(fs), total, t)
  {
    SumOfShares(fs, t);
    AtLevelTimes(fs, t);
    if Waiting(fs) == 0 {
      NoneWaiting(fs);
      forall w | w in Wants(fs) ensures Satisfied(w, t) {
        var i :| 0 <= i < |fs| && Wants(fs)[i] == w;
        assert fs[i] in fs;
      }
    }
  }

  /** A share that a satisfied flow does not use up raises what is left for the others. */
  lemma LevelRises(rest: real, n: int, t: real)
    requires n > 0 && rest >= t * n as real
    ensures rest / n as real >= t
  {
    var x, k := rest / n as real, n as real;
    assert x * k == rest;
    assert (x - t) * k >= 0.0;
    SignOfFactor(x - t, k);
  }

  // ---------------------------------------------------------------------------
  // The allocator
  // ---------------------------------------------------------------------------

  /** Where the passes stand: the rate left is what has not been given, the count is that of the
      flows still waiting, and there is enough left to raise them all to `t`. */
  ghost predicate Standing(fs: seq<Flow>, total: real, aR: real, aN: int, t: real) {
    && SettledBelow(fs, t) && t >= 0.0
    && aR == total - Given(fs) && aN == Waiting(fs) && aR >= t * aN as real
  }

  /** What is left is `t` for each of those still waiting. */
  predicate Even(aR: real, aN: int, t: real) {
    aN > 0 ==> aR == t * aN as real
  }

  /** A pass has satisfied nobody. */
  predicate AtRest(fs: seq<Flow>, aR: real, aN: int, t: real) {
    OthersAbove(fs, t) && Even(aR, aN, t)
  }

  predicate SameRequests(fs: seq<Flow>, gs: seq<Flow>) {
    |fs| == |gs| && forall i :: 0 <= i < |fs| ==> fs[i].req == gs[i].req
  }

  /** The outcome at level `t`: the satisfied flows have what they asked for, all others `t`. */
  predicate AllocatedAt(fs: seq<Flow>, gs: seq<Flow>, t: real) {
    && SameRequests(fs, gs)
    && forall i :: 0 <= i < |gs| ==>
         gs[i].cur == if Satisfied(WantOf(fs[i]), t) then fs[i].req as real else Interval(Truncated, t)
  }

  lemma TakeOne(aR: real, aN: int, t: real, d: real)
    requires aR >= t * aN as real && d <= t
    ensures aR - d >= t * (aN - 1) as real
  {
    Times(t, aN - 1);
  }

  lemma GiveStands(fs: seq<Flow>, total: real, aR: real, aN: int, t: real, k: nat)
    requires Standing(fs, total, aR, aN, t)
    requires k < |fs| && !fs[k].alloc && fs[k].req > 0 && Demand(fs[k]) <= t
    ensures var g := fs[k].(cur := fs[k].req as real, alloc := true);
            Standing(fs[k := g], total, aR - Demand(fs[k]), aN - 1, t)
  {
    var g := fs[k].(cur := fs[k].req as real, alloc := true);
    GiveOne(fs, k, g);
    TakeOne(aR, aN, t, Demand(fs[k]));
    forall f | f in fs[k := g] && f.alloc ensures f.req > 0 && Demand(f) <= t && f.cur == f.req as real {
      assert f == g || f in fs;
    }
  }

  lemma StandsAtZero(fs: seq<Flow>, total: real)
    requires total >= 0.0 && forall f :: f in fs ==> !f.alloc
    ensures Standing(fs, total, total, |fs|, 0.0)
  {
    NoneGiven(fs);
  }

  function Raise(aR: real, aN: int, t: real): real {
    if aN > 0 then aR / aN as real else t
  }

  lemma RaiseStands(fs: seq<Flow>, total: real, aR: real, aN: int, t: real, level: real)
    requires Standing(fs, total, aR, aN, t) && level == Raise(aR, aN, t)
    ensures Standing(fs, total, aR, aN, level)
    ensures Even(aR, aN, level)
  {
    if aN > 0 {
      LevelRises(aR, aN, t);
    }
  }

  class Pool {
    var num: int
    var flows: seq<Flow>

    /** One pass over the connections at level `t`. */
    method Pass(total: real, t: real, aR: real, aN: int) returns (left: real, waiting: int, atLeastOne: bool)
      requires Standing(flows, total, aR, aN, t)
      modifies this`flows
      ensures Standing(flows, total, left, waiting, t) && SameRequests(old(flows), flows)
      ensures atLeastOne ==> waiting < aN
      ensures !atLeastOne ==> left == aR && waiting == aN && OthersAbove(flows, t)
    {
      left, waiting, atLeastOne := aR, aN, false;
      var c := 0;
      while c < |flows|
        invariant c <= |flows| && Standing(flows, total, left, waiting, t) && SameRequests(old(flows), flows)
        invariant if atLeastOne then waiting < aN else left == aR && waiting == aN
        invariant !atLeastOne ==> forall i :: 0 <= i < c && !flows[i].alloc ==> flows[i].req <= 0 || Demand(flows[i]) > t
      {
        var f := flows[c];
        if f.req > 0 && !f.alloc {
          var d := Demand(f);
          if d <= t {
            GiveStands(flows, total, left, waiting, t, c);
            flows := flows[c := f.(cur := f.req as real, alloc := true)];
            left := left - d;
            waiting := waiting - 1;
            atLeastOne := true;
          }
        }
        c := c + 1;
      }
    }

    /** Raises the level to an equal share of what is left, and makes a pass at it.  With nobody
        waiting the share is not defined, nor used. */
    method RaiseAndPass(total: real, t: real, aR: real, aN: int)
      returns (level: real, left: real, waiting: int, atLeastOne: bool)
      requires Standing(flows, total, aR, aN, t)
      modifies this`flows
      ensures Standing(flows, total, left, waiting, level) && SameRequests(old(flows), flows)
      ensures if atLeastOne then waiting < aN else waiting == aN
      ensures !atLeastOne ==> AtRest(flows, left, waiting, level)
    {
      level := t;
      if aN > 0 {
        level := aR / aN as real;
      }
      RaiseStands(flows, total, aR, aN, t, level);
      left, waiting, atLeastOne := Pass(total, level, aR, aN);
    }

    /** Gives an equal share of what is left to everyone who is still waiting. */
    method GiveRest(aR: real, aN: int, ghost level: real)
      requires aN > 0 && aR == level * aN as real
      modifies this`flows
      ensures SameRequests(old(flows), flows)
      ensures forall i :: 0 <= i < |flows| ==>
                flows[i].cur == if old(flows)[i].alloc then old(flows)[i].cur else Interval(Truncated, level)
    {
      var t := aR / aN as real;
      Quotient(aR, aN, level);
      var c := 0;
      while c < |flows|
        invariant 0 <= c <= |flows| && SameRequests(old(flows), flows)
        invariant forall i :: c <= i < |flows| ==> flows[i] == old(flows)[i]
        invariant forall i :: 0 <= i < c ==>
                    flows[i].cur == if old(flows)[i].alloc then old(flows)[i].cur else Interval(Truncated, t)
      {
        if !flows[c].alloc {
          flows := flows[c := flows[c].(cur := Interval(Truncated, t), alloc := true)];
        }
        c := c + 1;
      }
    }

    method ClearAllocation()
      modifies this`flows
      ensures SameRequests(old(flows), flows) && forall f :: f in flows ==> !f.alloc
    {
      var c := 0;
      while c < |flows|
        invariant 0 <= c <= |flows| && SameRequests(old(flows), flows)
        invariant forall i :: 0 <= i < c ==> !flows[i].alloc
      {
        flows := flows[c := flows[c].(alloc := false)];
        c := c + 1;
      }
    }

    /** Passes over the connections until one satisfies nobody. */
    method RunPasses(total: real) returns (level: real, aR: real, aN: int)
      requires num == |flows| > 0 && total >= 0.0 && forall f :: f in flows ==> !f.alloc
      modifies this`flows
      ensures SameRequests(old(flows), flows) && Standing(flows, total, aR, aN, level)
      ensures AtRest(flows, aR, aN, level)
    {
      level, aR, aN := 0.0, total, num;
      StandsAtZero(flows, total);
      var atLeastOne := true;
      while atLeastOne
        invariant Standing(flows, total, aR, aN, level) && SameRequests(old(flows), flows)
        invariant !atLeastOne ==> AtRest(flows, aR, aN, level)
        decreases aN, atLeastOne
      {
        level, aR, aN, atLeastOne := RaiseAndPass(total, level, aR, aN);
      }
    }

    /** What follows the passes: those still waiting share what is left. */
    method ShareRest(total: real, aR: real, aN: int, ghost level: real)
      requires Standing(flows, total, aR, aN, level) && AtRest(flows, aR, aN, level)
      modifies this`flows
      ensures AllocatedAt(old(flows), flows, level)
    {
      ghost var fs := flows;
      if aN > 0 {
        GiveRest(aR, aN, level);
      } else {
        NoneWaiting(flows);
      }
      FinalAllocation(fs, flows, level);
    }

    /** Shares out `total` max-min fairly: there is a level at which it is used up, or everyone is
        satisfied, and every flow has the lesser of what it asked for and that level. */
    method DistributeR(total: real) returns (ghost level: real)
      requires num == |flows| && total >= 0.0
      modifies this`flows
      ensures num == 0 ==> flows == old(flows)
      ensures num > 0 ==> IsLevel(Wants(old(flows)), total, level) && AllocatedAt(old(flows), flows, level)
    {
      level := 0.0;
      if num == 0 {
        return;
      }
      ClearAllocation();
      var t, aR, aN := RunPasses(total);
      level := t;
      ghost var fs := flows;
      RestFound(fs, total, aR, aN, level);
      ShareRest(total, aR, aN, level);
      SameOutcome(old(flows), fs, flows, total, level);
    }
  }

  lemma Quotient(aR: real, aN: int, t: real)
    requires aN > 0 && aR == t * aN as real
    ensures aR / aN as real == t
  {
  }

  lemma SameWants(fs: seq<Flow>, gs: seq<Flow>)
    requires SameRequests(fs, gs)
    ensures Wants(fs) == Wants(gs)
  {
  }

  lemma RestFound(fs: seq<Flow>, total: real, aR: real, aN: int, t: real)
    requires Standing(fs, total, aR, aN, t) && AtRest(fs, aR, aN, t)
    ensures IsLevel(Wants(fs), total, t)
  {
    LevelFound(fs, total, t);
  }

  lemma SameOutcome(before: seq<Flow>, fs: seq<Flow>, gs: seq<Flow>, total: real, t: real)
    requires SameRequests(before, fs) && IsLevel(Wants(fs), total, t) && AllocatedAt(fs, gs, t)
    ensures IsLevel(Wants(before), total, t) && AllocatedAt(before, gs, t)
  {
    SameWants(before, fs);
  }

  lemma FinalAllocation(fs: seq<Flow>, gs: seq<Flow>, t: real)
    requires SameRequests(fs, gs) && SettledBelow(fs, t) && OthersAbove(fs, t)
    requires forall i :: 0 <= i < |gs| ==> gs[i].cur == if fs[i].alloc then fs[i].cur else Interval(Truncated, t)
    ensures AllocatedAt(fs, gs, t)
  {
    forall i | 0 <= i < |gs|
      ensures gs[i].cur == if Satisfied(WantOf(fs[i]), t) then fs[i].req as real else Interval(Truncated, t)
    {
      assert fs[i] in fs;
    }
  }
}
