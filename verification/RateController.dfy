/** The rate controller as it runs: globals updated in place, with loops over the list of
    connections.  Every method is proved to do one step of `Rates` with truncated intervals. */
module RateController {
  import opened Rates
  import opened RateRuns

  class Controller {
    var num: int
    var totalDemand: real
    var totalRate: real
    var rho: real
    var lastDecP: real
    var slowstart: bool
    var flows: seq<Flow>

    ghost function View(): Control
      reads this
    {
      Control(num, totalDemand, totalRate, rho, lastDecP, slowstart, flows)
    }

    constructor ()
      ensures View() == START
    {
      num, totalDemand, totalRate, rho, lastDecP, slowstart, flows := 0, 0.0, 0.0, 1.0, 1.0, true, [];
    }

    method RecalculateRho() returns (ratio: real)
      modifies this`rho
      ensures rho == Ratio(totalDemand, totalRate) && ratio == rho
    {
      if totalDemand == 0.0 {
        rho := 1.0;
      } else {
        rho := totalRate / totalDemand;
      }
      return rho;
    }

    /** Gives every flow the fraction `ratio` of its demand, in a loop over the connections. */
    method AllocateRateByRho(ratio: real)
      modifies this`flows
      ensures flows == AllocateByRho(Truncated, ratio, old(flows))
    {
      if ratio == 0.0 {
        return;
      }
      var c := 0;
      while c < |flows|
        invariant 0 <= c <= |flows| == |old(flows)|
        invariant forall i :: 0 <= i < c ==> flows[i] == Reallot(Truncated, ratio, old(flows)[i])
        invariant forall i :: c <= i < |flows| ==> flows[i] == old(flows)[i]
      {
        var f := flows[c];
        if f.req > 0 {
          ReallotIs(Truncated, ratio, f);
          flows := flows[c := f.(cur := Interval(Truncated, Portion(ratio, f)))];
        }
        c := c + 1;
      }
    }

    method AdjustRatesAtJoin(request: int)
      requires 0 <= request < 65536
      modifies this
      ensures View() == OnJoin(Truncated, old(View()), request)
    {
      var req := if request == 0 then 20 else request;
      flows := [Flow(req, req as real, false)] + flows;
      if totalRate == 0.0 || num == 0 || (slowstart && totalRate <= 25.0) {
        if req < 2000 {
          totalRate := totalRate + 0.5;
        } else {
          totalRate := totalRate + 1000.0 / req as real;
        }
      }
      totalDemand := totalDemand + 1000.0 / req as real;
      var ratio := RecalculateRho();
      num := num + 1;
      AllocateRateByRho(ratio);
    }

    method FinishConnection(i: nat)
      requires i < |flows| && flows[i].cur > 0.0
      modifies this
      ensures View() == OnLeave(old(View()), i)
    {
      totalRate := totalRate - Rate(flows[i]);
      if flows[i].req > 0 {
        totalDemand := totalDemand - Demand(flows[i]);
        if totalRate > totalDemand {
          totalRate := totalDemand;
        }
      }
      num := num - 1;
      if num == 0 {
        slowstart := true;
        totalDemand := 0.0;
        totalRate := 0.0;
      }
      var _ := RecalculateRho();
      flows := Without(flows, i);
    }

    /** By how much to decrease: by half at most, and not at all for less than 2%. */
    method DecreaseRatio(p: real) returns (decRatio: real)
      requires p < 2.0
      ensures decRatio == Factor(p)
    {
      decRatio := p / (2.0 - p);
      if decRatio < 0.5 {
        decRatio := 0.5;
      }
      if decRatio > 0.98 {
        decRatio := 1.0;
      }
    }

    /** Takes down the delivery rate to go by.  A loss rate that is no worse than the last one is let
        pass once. */
    method UseDelivery(lossRate: real)
      requires 0.0 <= lossRate <= 1.0
      modifies this`lastDecP
      ensures lastDecP == DeliveryUsed(lossRate, old(lastDecP))
    {
      var p := 1.0 - lossRate;
      if p < lastDecP {
        p := p / lastDecP;
      } else {
        p := 1.0;
      }
      lastDecP := p;
    }

    /** Reduces the total rate, down to the floor. */
    method CutTotal(p: real)
      requires p < 2.0
      modifies this`totalRate
      ensures totalRate == Reduced(old(View()), p)
    {
      var decRatio := DecreaseRatio(p);
      totalRate := Product(decRatio, totalRate);
      if totalRate < num as real / 30.0 {
        totalRate := num as real / 30.0;
      }
    }

    method ReduceTotal(lossRate: real)
      requires 0.0 <= lossRate <= 1.0
      modifies this`lastDecP, this`totalRate
      ensures lastDecP == DeliveryUsed(lossRate, old(lastDecP))
      ensures totalRate == Reduced(old(View()), lastDecP)
    {
      UseDelivery(lossRate);
      CutTotal(lastDecP);
    }

    method DecreaseAllRate(lossRate: real) returns (decreased: bool)
      requires 0.0 <= lossRate <= 1.0
      modifies this
      ensures View() == OnDecrease(Truncated, old(View()), lossRate)
      ensures decreased <==> totalRate != old(totalRate)
    {
      var prevR := totalRate;
      ReduceTotal(lossRate);
      if totalRate == prevR {
        return false;
      }
      var ratio := RecalculateRho();
      AllocateRateByRho(ratio);
      slowstart := false;
      return true;
    }

    method IncreaseAllRate() returns (increased: bool)
      modifies this
      ensures View() == OnIncrease(Truncated, old(View()))
      ensures increased <==> totalRate != old(totalRate)
    {
      var prevR := totalRate;
      if slowstart {
        totalRate := totalRate + 2.0;
      } else {
        totalRate := totalRate + 1.0;
      }
      if totalRate > totalDemand && totalDemand > 0.0 {
        totalRate := totalDemand;
      }
      var ratio := RecalculateRho();
      if totalRate == prevR {
        return false;
      }
      AllocateRateByRho(ratio);
      lastDecP := 1.0;
      return true;
    }
  }
}
