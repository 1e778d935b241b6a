/** The objective function of the station-placement problem: for one
    chromosome (a row of 0/1 values over the candidate stations) it yields
    the installation cost and the negated number of users covered. */
module Evaluation {
  import opened Instance

  /** The data the evaluator holds: station costs, users, station sites
      (parallel to the costs) and the coverage radius, all in degree units. */
  datatype Problem = Problem(costs: seq<int>, users: seq<Point>, locations: seq<Point>, coverageRadius: real)

  /** The objective vector `[total_cost, -coverage]`. */
  datatype Objectives = Objectives(cost: real, negCoverage: int)

  /** A chromosome has one value per candidate station. */
  predicate Fits(p: Problem, x: seq<real>) {
    |x| == |p.costs| && |p.locations| == |p.costs|
  }

  /** A chromosome whose every value is 0 or 1. */
  predicate Binary(x: seq<real>) {
    forall j :: 0 <= j < |x| ==> x[j] == 0.0 || x[j] == 1.0
  }

  function SquaredDistance(a: Point, b: Point): real {
    (a.lat - b.lat) * (a.lat - b.lat) + (a.lon - b.lon) * (a.lon - b.lon)
  }

  /** The planar distance from `u` to `s` is at most `r`, stated without a square root. */
  predicate WithinRadius(u: Point, s: Point, r: real) {
    0.0 <= r && SquaredDistance(u, s) <= r * r
  }

  /** The square-root-free test agrees with `sqrt(d) <= r` for every radius,
      negative ones included: `d` is any non-negative root of the squared distance. */
  lemma SqrtTestAgrees(u: Point, s: Point, r: real, d: real)
    requires 0.0 <= d && d * d == SquaredDistance(u, s)
    ensures d <= r <==> WithinRadius(u, s, r)
  {
    if 0.0 <= r {
      if d <= r {
        calc {
          d * d;
        <= d * r;
        <= r * r;
        }
      } else {
        calc {
          r * r;
        <= r * d;
        < d * d;
        }
      }
    }
  }

  /** Some selected station lies within the coverage radius of `u`. */
  predicate Covered(p: Problem, x: seq<real>, u: Point)
    requires Fits(p, x)
  {
    exists j :: 0 <= j < |x| && x[j] == 1.0 && WithinRadius(u, p.locations[j], p.coverageRadius)
  }

  /** The indices below `n` of the users that are covered. */
  function CoveredUsers(p: Problem, x: seq<real>, n: nat): set<nat>
    requires Fits(p, x) && n <= |p.users|
  {
    set u: nat | u < n && Covered(p, x, p.users[u])
  }

  /** The number of distinct users covered by the selection. */
  function Coverage(p: Problem, x: seq<real>): nat
    requires Fits(p, x)
  {
    |CoveredUsers(p, x, |p.users|)|
  }

  /** sum(x[j] * costs[j]) over all positions. */
  function TotalCost(x: seq<real>, costs: seq<int>): real
    requires |x| == |costs|
    decreases |x|
  {
    if x == [] then 0.0
    else
      var n := |x| - 1;
      TotalCost(x[..n], costs[..n]) + x[n] * costs[n] as real
  }

  /** The sum of `costs[j]` over the positions `j` whose value is 1. */
  function SelectedCost(x: seq<real>, costs: seq<int>): int
    requires |x| == |costs|
    decreases |x|
  {
    if x == [] then 0
    else
      var n := |x| - 1;
      SelectedCost(x[..n], costs[..n]) + (if x[n] == 1.0 then costs[n] else 0)
  }

  /** Scoring the users one at a time: user `n` joins the covered set exactly when covered. */
  lemma CoveredUsersStep(p: Problem, x: seq<real>, n: nat)
    requires Fits(p, x) && n < |p.users|
    ensures CoveredUsers(p, x, n + 1) ==
            CoveredUsers(p, x, n) + (if Covered(p, x, p.users[n]) then {n} else {})
    ensures |CoveredUsers(p, x, n + 1)| ==
            |CoveredUsers(p, x, n)| + (if Covered(p, x, p.users[n]) then 1 else 0)
  {
    assert n !in CoveredUsers(p, x, n);
  }

  /** The cost, and the negated coverage, of one chromosome: the loop visits
      every user, scans the selected stations and stops at the first one in range. */
  method Evaluate(p: Problem, x: seq<real>) returns (f: Objectives)
    requires Fits(p, x)
    ensures f.cost == TotalCost(x, p.costs)
    ensures f.negCoverage == -(Coverage(p, x) as int)
    ensures -|p.users| <= f.negCoverage <= 0
  {
    var totalCost := TotalCost(x, p.costs);
    var coverage := 0;
    var i := 0;
    while i < |p.users|
      invariant 0 <= i <= |p.users|
      invariant coverage == |CoveredUsers(p, x, i)|
      invariant coverage <= i
    {
      var user := p.users[i];
      var userCovered := false;
      var j := 0;
      while j < |x|
        invariant 0 <= j <= |x|
        invariant !userCovered
        invariant forall k :: 0 <= k < j ==>
                    !(x[k] == 1.0 && WithinRadius(user, p.locations[k], p.coverageRadius))
      {
        if x[j] == 1.0 {
          if WithinRadius(user, p.locations[j], p.coverageRadius) {
            userCovered := true;
            break;
          }
        }
        j := j + 1;
      }
      assert userCovered <==> Covered(p, x, user);
      CoveredUsersStep(p, x, i);
      if userCovered {
        coverage := coverage + 1;
      }
      i := i + 1;
    }
    f := Objectives(totalCost, -coverage);
  }

  /** No more users are covered than there are users. */
  lemma {:induction false} CoveredUsersBounded(p: Problem, x: seq<real>, n: nat)
    requires Fits(p, x) && n <= |p.users|
    ensures |CoveredUsers(p, x, n)| <= n
  {
    if n > 0 {
      CoveredUsersBounded(p, x, n - 1);
      CoveredUsersStep(p, x, n - 1);
    }
  }

  /** Coverage counts users once each: it lies between 0 and the number of users. */
  lemma CoverageAtMostUsers(p: Problem, x: seq<real>)
    requires Fits(p, x)
    ensures 0 <= Coverage(p, x) <= |p.users|
  {
    CoveredUsersBounded(p, x, |p.users|);
  }

  /** When every user is in range of some selected station the coverage is
      the number of users, however many stations reach each of them. */
  lemma {:induction false} AllCoveredIsFullCoverage(p: Problem, x: seq<real>, n: nat)
    requires Fits(p, x) && n <= |p.users|
    requires forall u :: 0 <= u < n ==> Covered(p, x, p.users[u])
    ensures |CoveredUsers(p, x, n)| == n
  {
    if n > 0 {
      AllCoveredIsFullCoverage(p, x, n - 1);
      CoveredUsersStep(p, x, n - 1);
    }
  }

  /** Selecting more stations never lowers coverage. */
  lemma CoverageMonotone(p: Problem, x: seq<real>, y: seq<real>)
    requires Fits(p, x) && Fits(p, y)
    requires forall j :: 0 <= j < |x| && x[j] == 1.0 ==> y[j] == 1.0
    ensures Coverage(p, x) <= Coverage(p, y)
  {
    var a, b := CoveredUsers(p, x, |p.users|), CoveredUsers(p, y, |p.users|);
    assert a <= b by {
      forall u | u in CoveredUsers(p, x, |p.users|)
        ensures u in CoveredUsers(p, y, |p.users|)
      {
        var j :| 0 <= j < |x| && x[j] == 1.0 && WithinRadius(p.users[u], p.locations[j], p.coverageRadius);
        assert y[j] == 1.0;
      }
    }
    assert b == a + (b - a);
    assert a !! (b - a);
  }

  /** The empty selection costs nothing. */
  lemma {:induction false} EmptySelectionCost(x: seq<real>, costs: seq<int>)
    requires |x| == |costs|
    requires forall j :: 0 <= j < |x| ==> x[j] == 0.0
    ensures TotalCost(x, costs) == 0.0
  {
    if x != [] {
      var n := |x| - 1;
      EmptySelectionCost(x[..n], costs[..n]);
    }
  }

  /** For a 0/1 chromosome the cost is the sum of the selected stations' costs. */
  lemma {:induction false} BinaryCostIsSelectedCost(x: seq<real>, costs: seq<int>)
    requires |x| == |costs| && Binary(x)
    ensures TotalCost(x, costs) == SelectedCost(x, costs) as real
  {
    if x != [] {
      var n := |x| - 1;
      BinaryCostIsSelectedCost(x[..n], costs[..n]);
    }
  }

  /** With positive station costs, a 0/1 chromosome has positive cost exactly
      when it selects at least one station. */
  lemma {:induction false} PositiveCostIffNonEmpty(x: seq<real>, costs: seq<int>)
    requires |x| == |costs| && Binary(x)
    requires forall j :: 0 <= j < |costs| ==> costs[j] > 0
    ensures TotalCost(x, costs) > 0.0 <==> exists j :: 0 <= j < |x| && x[j] == 1.0
    ensures TotalCost(x, costs) >= 0.0
  {
    if x != [] {
      var n := |x| - 1;
      PositiveCostIffNonEmpty(x[..n], costs[..n]);
      assert forall j :: 0 <= j < n ==> x[..n][j] == x[j];
      if x[n] == 1.0 {
        assert exists j :: 0 <= j < |x| && x[j] == 1.0;
      }
    }
  }
}
