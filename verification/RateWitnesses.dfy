/** Runs of the rate controller on which a property fails that one might expect of it. */
module RateWitnesses {
  import opened Rates
  import opened RateRuns

  // ---------------------------------------------------------------------------
  // What the floor costs
  // ---------------------------------------------------------------------------

  /** A single flow that asks for a packet a minute is told, after one decrease, to send two. */
  lemma FloorExceedsDemand()
    ensures var s1 := OnJoin(Truncated, START, 60000);
            && s1.r == s1.d == 1.0 / 60.0
            && var s2 := OnDecrease(Truncated, s1, 0.5);
               s2.d == 1.0 / 60.0 && s2.r == 1.0 / 30.0 && s2.flows == [Flow(60000, 30000.0, false)]
  {
    var f := Flow(60000, 60000.0, false);
    assert [f] + START.flows == [f];
    var s1 := OnJoin(Truncated, START, 60000);
    assert s1.rho == 1.0 && Reallot(Truncated, 1.0, f) == f;
    assert s1.flows == [f];
    var s2 := OnDecrease(Truncated, s1, 0.5);
    assert s2.rho == 2.0 && Reallot(Truncated, 2.0, f) == f.(cur := 30000.0);
  }

  const LEAVE_RUN := [Join(60000), Join(60000), Decrease(0.5), Leave(0)]

  /** The states of that run: two flows that ask for a packet a minute are told to send two. */
  ghost function LeaveRunState(k: nat): Control {
    var f, g := Flow(60000, 60000.0, false), Flow(60000, 30000.0, false);
    if k == 0 then START
    else if k == 1 then Control(1, 1.0 / 60.0, 1.0 / 60.0, 1.0, 1.0, true, [f])
    else if k == 2 then Control(2, 1.0 / 30.0, 1.0 / 30.0, 1.0, 1.0, true, [f, f])
    else if k == 3 then Control(2, 1.0 / 30.0, 1.0 / 15.0, 2.0, 0.5, false, [g, g])
    else Control(1, 1.0 / 60.0, 1.0 / 60.0, 1.0, 0.5, false, [g])
  }

  lemma LeaveRunJoins()
    ensures Moves(Exact, LeaveRunState(0), Join(60000), LeaveRunState(1))
    ensures Moves(Exact, LeaveRunState(1), Join(60000), LeaveRunState(2))
  {
    var f := Flow(60000, 60000.0, false);
    assert Reallot(Exact, 1.0, f) == f;
    assert [f] + [] == [f] && [f] + [f] == [f, f];
    assert AllocateByRho(Exact, 1.0, [f]) == [f] && AllocateByRho(Exact, 1.0, [f, f]) == [f, f];
  }

  lemma LeaveRunEnds()
    ensures Moves(Exact, LeaveRunState(2), Decrease(0.5), LeaveRunState(3))
    ensures Moves(Exact, LeaveRunState(3), Leave(0), LeaveRunState(4))
  {
    var f, g := Flow(60000, 60000.0, false), Flow(60000, 30000.0, false);
    assert Reallot(Exact, 2.0, f) == g;
    assert AllocateByRho(Exact, 2.0, [f, f]) == [g, g];
    assert Without([g, g], 0) == [g];
  }

  /** A leave that finds the total above the demand cuts the total to the demand, but not the rates
      of those who stay: the total is then a packet a minute, and the one flow left sends two. */
  lemma LeaveBreaksConservation()
    ensures IsRun(Exact, LEAVE_RUN, seq(5, k requires 0 <= k => LeaveRunState(k)))
    ensures var s := LeaveRunState(4); s.r == 1.0 / 60.0 && Rated(s.flows) && GivenRates(s.flows) == [1.0 / 30.0]
    ensures !Conserved(LeaveRunState(4))
  {
    LeaveRunJoins();
    LeaveRunEnds();
    var s := LeaveRunState(4);
    assert Rate(s.flows[0]) == 1.0 / 30.0;
    assert GivenRates(s.flows)[1..] == [];
  }

  // ---------------------------------------------------------------------------
  // What truncation costs
  // ---------------------------------------------------------------------------

    const SHORT_RUN := [Join(19), Increase, Join(30000), Leave(1)]

  /** The states of that run.  In the last allocation the first flow is given 394 ms. */
  ghost function ShortRunState(k: nat): Control {
    var d := 1000.0 / 19.0;
    var d2 := d + 1.0 / 30.0;
    var r := 38.0 / 15.0;
    if k == 0 then START
    else if k == 1 then Control(1, d, 0.5, 0.5 / d, 1.0, true, [Flow(19, 2000.0, false)])
    else if k == 2 then Control(1, d, 2.5, 2.5 / d, 1.0, true, [Flow(19, 400.0, false)])
    else if k == 3 then Control(2, d2, r, r / d2, 1.0, true, ShortRunFlows())
    else Control(1, 1.0 / 30.0, r - 1000.0 / 394.0, (r - 1000.0 / 394.0) / (1.0 / 30.0), 1.0, true, [ShortRunFlows()[0]])
  }

  ghost function ShortRunFlows(): seq<Flow> {
    [Flow(30000, 65534.0, false), Flow(19, 394.0, false)]
  }

  lemma ShortRunStep1()
    ensures Moves(Truncated, ShortRunState(0), Join(19), ShortRunState(1))
  {
    var d := 1000.0 / 19.0;
    var f := Flow(19, 19.0, false);
    assert [f] + [] == [f];
    assert 0.5 / d * d == 0.5;
    assert Reallot(Truncated, 0.5 / d, f) == f.(cur := 2000.0);
    assert OnJoin(Truncated, START, 19).flows == [f.(cur := 2000.0)];
  }

  lemma ShortRunStep2()
    ensures Moves(Truncated, ShortRunState(1), Increase, ShortRunState(2))
  {
    var d := 1000.0 / 19.0;
    var f := Flow(19, 2000.0, false);
    assert 2.5 / d * d == 2.5;
    assert Reallot(Truncated, 2.5 / d, f) == f.(cur := 400.0);
    assert AllocateByRho(Truncated, 2.5 / d, [f]) == [f.(cur := 400.0)];
    ShortRunTotals();
  }

  lemma ShortRunTotals()
    ensures Admitted([Flow(19, 2000.0, false)]) && Sum(Demands([Flow(19, 2000.0, false)])) == 1000.0 / 19.0
    ensures Admitted([Flow(19, 400.0, false)]) && Sum(Demands([Flow(19, 400.0, false)])) == 1000.0 / 19.0
    ensures Admitted(ShortRunFlows())
    ensures Sum(Demands(ShortRunFlows())) == 1000.0 / 19.0 + 1.0 / 30.0
  {
    var a, b := Demands([Flow(19, 2000.0, false)]), Demands([Flow(19, 400.0, false)]);
    assert a[1..] == [] && b[1..] == [];
    var c := Demands(ShortRunFlows());
    assert c[1..] == [1000.0 / 19.0] && c[1..][1..] == [];
  }

  lemma ShortRunStep3()
    ensures Moves(Truncated, ShortRunState(2), Join(30000), ShortRunState(3))
  {
    ShortRunTotals();
    var d2, r := 1000.0 / 19.0 + 1.0 / 30.0, 38.0 / 15.0;
    var rho := r / d2;
    var g, f := Flow(30000, 30000.0, false), Flow(19, 400.0, false);
    assert rho == 21660.0 / 450285.0;
    assert [g] + [f] == [g, f];
    assert Reallot(Truncated, rho, f) == f.(cur := 394.0);
    assert Reallot(Truncated, rho, g) == g.(cur := 65534.0);
    assert AllocateByRho(Truncated, rho, [g, f]) == ShortRunFlows();
  }

  lemma ShortRunStep4()
    ensures Moves(Truncated, ShortRunState(3), Leave(1), ShortRunState(4))
  {
    ShortRunTotals();
    assert Without(ShortRunFlows(), 1) == [ShortRunFlows()[0]];
  }

  /** With truncated intervals the total rate can become negative.  A truncated interval stands
      for a higher rate than was allotted, and it is that rate which a leaving flow takes off: two
      flows join, the total is raised once, and the first flow leaves. */
  lemma TotalCanBecomeNegative()
    ensures IsRun(Truncated, SHORT_RUN, seq(5, k requires 0 <= k => ShortRunState(k)))
    ensures ShortRunState(4).r < 0.0 && ShortRunState(4).n == 1
  {
    ShortRunStep1();
    ShortRunStep2();
    ShortRunStep3();
    ShortRunStep4();
  }
}
