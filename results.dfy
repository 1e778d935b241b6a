/** Turning the optimiser's final rows into the response: the rows with
    positive cost become solutions (with their stations resolved), their
    objective tuples become the plotted front, and the front is sorted by cost. */
module Results {
  import opened Instance
  import opened Indices
  import opened Evaluation
  import opened Generators

  /** One reported solution; `id` is the row's index in the optimiser output. */
  datatype Solution = Solution(id: nat, cost: real, coverage: int, coveragePercentage: real,
                               selectedStations: seq<Station>)

  /** One plotted point of the front. */
  datatype FrontPoint = FrontPoint(cost: real, coverage: int, coveragePercentage: real)

  predicate IsSelectedBit(b: real) {
    b == 1.0
  }

  /** A row is reported only when its cost is positive. */
  predicate IsKept(f: Objectives) {
    f.cost > 0.0
  }

  /** coverage / len(users) * 100. */
  function Percentage(coverage: int, numUsers: nat): real
    requires numUsers > 0
  {
    (coverage as real / numUsers as real) * 100.0
  }

  /** The stations whose bit is 1, in station order. */
  function Selected(x: seq<real>, stations: seq<Station>): seq<Station>
    requires |x| == |stations|
  {
    Pick(stations, IndicesWhere(x, IsSelectedBit))
  }

  /** The solution built from row `i`. */
  function SolutionFor(i: nat, xs: seq<seq<real>>, fs: seq<Objectives>, stations: seq<Station>, numUsers: nat): Solution
    requires i < |xs| == |fs| && |xs[i]| == |stations| && numUsers > 0
  {
    var coverage := -fs[i].negCoverage;
    Solution(i, fs[i].cost, coverage, Percentage(coverage, numUsers), Selected(xs[i], stations))
  }

  function Project(s: Solution): FrontPoint {
    FrontPoint(s.cost, s.coverage, s.coveragePercentage)
  }

  function Projections(sols: seq<Solution>): (r: seq<FrontPoint>)
    ensures |r| == |sols|
    ensures forall k :: 0 <= k < |sols| ==> r[k] == Project(sols[k])
  {
    seq(|sols|, k requires 0 <= k < |sols| => Project(sols[k]))
  }

  /** Well-formed optimiser output: as many objective pairs as rows, and one
      value per station in every row; the division by the user count is only
      reached when some row is kept. */
  predicate WellFormedOutput(xs: seq<seq<real>>, fs: seq<Objectives>, stations: seq<Station>, numUsers: nat) {
    && |xs| == |fs|
    && (forall i :: 0 <= i < |xs| ==> |xs[i]| == |stations|)
    && (numUsers > 0 || forall i :: 0 <= i < |fs| ==> !IsKept(fs[i]))
  }

  /** The solutions built from the kept rows among the first `n`, in row order. */
  function KeptAmong(xs: seq<seq<real>>, fs: seq<Objectives>, stations: seq<Station>, numUsers: nat, n: nat): seq<Solution>
    requires WellFormedOutput(xs, fs, stations, numUsers) && n <= |fs|
  {
    var kept := IndicesWhere(fs[..n], IsKept);
    seq(|kept|, k requires 0 <= k < |kept| => SolutionFor(kept[k], xs, fs, stations, numUsers))
  }

  /** The solutions the response lists: one per kept row, in row order. */
  function KeptSolutions(xs: seq<seq<real>>, fs: seq<Objectives>, stations: seq<Station>, numUsers: nat): seq<Solution>
    requires WellFormedOutput(xs, fs, stations, numUsers)
  {
    KeptAmong(xs, fs, stations, numUsers, |fs|)
  }

  /** Non-decreasing cost. */
  predicate SortedByCost(s: seq<FrontPoint>) {
    forall a, b :: 0 <= a < b < |s| ==> s[a].cost <= s[b].cost
  }

  /** The points of `s` with cost `c`, in their order in `s`. */
  function WithCost(s: seq<FrontPoint>, c: real): seq<FrontPoint>
    decreases |s|
  {
    if s == [] then []
    else
      var n := |s| - 1;
      WithCost(s[..n], c) + (if s[n].cost == c then [s[n]] else [])
  }

  /** The inner loop at the station-resolution step: the stations whose bit is 1, in order. */
  method ResolveSelected(x: seq<real>, stations: seq<Station>) returns (selected: seq<Station>)
    requires |x| == |stations|
    ensures selected == Selected(x, stations)
    ensures forall s :: s in selected <==> exists j :: 0 <= j < |x| && x[j] == 1.0 && stations[j] == s
  {
    selected := [];
    var j := 0;
    while j < |x|
      invariant 0 <= j <= |x|
      invariant selected == Pick(stations, IndicesWhere(x[..j], IsSelectedBit))
    {
      IndicesWhereSnoc(x, IsSelectedBit, j);
      if x[j] == 1.0 {
        PickSnoc(stations, IndicesWhere(x[..j], IsSelectedBit), j);
        selected := selected + [stations[j]];
      }
      j := j + 1;
    }
    assert x[..|x|] == x;
    forall s | s in selected
      ensures exists j :: 0 <= j < |x| && x[j] == 1.0 && stations[j] == s
    {
      SelectedOnlyOnes(x, stations, s);
    }
    forall j | 0 <= j < |x| && x[j] == 1.0 ensures stations[j] in selected {
      SelectedAllOnes(x, stations, j);
    }
  }

  /** Every resolved station sits at a position whose bit is 1. */
  lemma SelectedOnlyOnes(x: seq<real>, stations: seq<Station>, s: Station)
    requires |x| == |stations| && s in Selected(x, stations)
    ensures exists j :: 0 <= j < |x| && x[j] == 1.0 && stations[j] == s
  {
    var idx := IndicesWhere(x, IsSelectedBit);
    var sel := Pick(stations, idx);
    var k :| 0 <= k < |sel| && sel[k] == s;
    assert IsSelectedBit(x[idx[k]]) && stations[idx[k]] == s;
  }

  /** Every station whose bit is 1 is resolved. */
  lemma SelectedAllOnes(x: seq<real>, stations: seq<Station>, j: nat)
    requires |x| == |stations| && j < |x| && x[j] == 1.0
    ensures stations[j] in Selected(x, stations)
  {
    var idx := IndicesWhere(x, IsSelectedBit);
    assert IsSelectedBit(x[j]);
    var k :| 0 <= k < |idx| && idx[k] == j;
    assert Pick(stations, idx)[k] == stations[j];
  }

  lemma KeptAmongSnoc(xs: seq<seq<real>>, fs: seq<Objectives>, stations: seq<Station>, numUsers: nat, n: nat)
    requires WellFormedOutput(xs, fs, stations, numUsers) && n < |fs|
    ensures KeptAmong(xs, fs, stations, numUsers, n + 1) ==
            KeptAmong(xs, fs, stations, numUsers, n) +
            (if IsKept(fs[n]) then [SolutionFor(n, xs, fs, stations, numUsers)] else [])
  {
    IndicesWhereSnoc(fs, IsKept, n);
  }

  /** The points of a concatenation with cost `c` are those of each part. */
  lemma {:induction false} WithCostAppend(a: seq<FrontPoint>, b: seq<FrontPoint>, c: real)
    ensures WithCost(a + b, c) == WithCost(a, c) + WithCost(b, c)
    decreases |b|
  {
    if b == [] {
      assert a + b == a;
    } else {
      var n := |b| - 1;
      WithCostAppend(a, b[..n], c);
      assert (a + b)[..|a + b| - 1] == a + b[..n];
    }
  }

  lemma {:induction false} WithCostMember(s: seq<FrontPoint>, c: real, y: FrontPoint)
    ensures y in WithCost(s, c) <==> y in s && y.cost == c
    decreases |s|
  {
    if s != [] {
      var n := |s| - 1;
      WithCostMember(s[..n], c, y);
      assert s == s[..n] + [s[n]];
    }
  }

  /** Inserting `x` just before the first point that costs more than it, in a
      sequence sorted by cost, keeps it sorted. */
  lemma InsertSorted(r: seq<FrontPoint>, p: nat, x: FrontPoint)
    requires p <= |r|
    requires SortedByCost(r)
    requires forall q :: 0 <= q < p ==> r[q].cost <= x.cost
    requires p < |r| ==> r[p].cost > x.cost
    ensures SortedByCost(r[..p] + [x] + r[p..])
  {
    var t := r[..p] + [x] + r[p..];
    forall a, b | 0 <= a < b < |t| ensures t[a].cost <= t[b].cost {
      if b > p && a < p {
        assert t[a] == r[a] && t[b] == r[b - 1];
      }
    }
  }

  /** The same insertion puts `x` last among the points of its cost
      (Python's sort is stable), and changes no other cost group. */
  lemma InsertAfterEqual(before: seq<FrontPoint>, after: seq<FrontPoint>, x: FrontPoint, c: real)
    requires WithCost(after, x.cost) == []
    ensures WithCost(before + [x] + after, c) == WithCost(before + after, c) + WithCost([x], c)
  {
    WithCostAppend(before + [x], after, c);
    WithCostAppend(before, [x], c);
    WithCostAppend(before, after, c);
    WithCostSingle(x, c);
  }

  lemma WithCostSingle(x: FrontPoint, c: real)
    ensures WithCost([x], c) == if x.cost == c then [x] else []
  {
    assert [x][..0] == [];
  }

  /** No point of `s` costs `c`: its group for `c` is empty. */
  lemma {:induction false} WithCostAbsent(s: seq<FrontPoint>, c: real)
    requires forall k :: 0 <= k < |s| ==> s[k].cost != c
    ensures WithCost(s, c) == []
    decreases |s|
  {
    if s != [] {
      WithCostAbsent(s[..|s| - 1], c);
    }
  }

  /** One insertion step of the sort: sortedness, the multiset and every
      cost group carry over from `done` to `done + [x]`. */
  lemma InsertStep(sorted: seq<FrontPoint>, done: seq<FrontPoint>, x: FrontPoint, p: nat)
    requires SortedByCost(sorted) && multiset(sorted) == multiset(done)
    requires forall c :: WithCost(sorted, c) == WithCost(done, c)
    requires p <= |sorted|
    requires forall q :: 0 <= q < p ==> sorted[q].cost <= x.cost
    requires p < |sorted| ==> sorted[p].cost > x.cost
    ensures var next := sorted[..p] + [x] + sorted[p..];
      && SortedByCost(next)
      && multiset(next) == multiset(done + [x])
      && forall c :: WithCost(next, c) == WithCost(done + [x], c)
  {
    InsertSorted(sorted, p, x);
    assert sorted == sorted[..p] + sorted[p..];
    assert forall q :: 0 <= q < |sorted[p..]| ==> sorted[p..][q].cost != x.cost by {
      assert p < |sorted| ==> sorted[p].cost > x.cost;
    }
    WithCostAbsent(sorted[p..], x.cost);
    forall c ensures WithCost(sorted[..p] + [x] + sorted[p..], c) == WithCost(done + [x], c) {
      InsertAfterEqual(sorted[..p], sorted[p..], x, c);
      WithCostAppend(done, [x], c);
    }
  }

  /** pareto_front.sort(key=cost): a stable insertion sort by cost. */
  method SortByCost(front: seq<FrontPoint>) returns (sorted: seq<FrontPoint>)
    ensures SortedByCost(sorted)
    ensures multiset(sorted) == multiset(front)
    ensures forall c :: WithCost(sorted, c) == WithCost(front, c)
  {
    sorted := [];
    var i := 0;
    while i < |front|
      invariant 0 <= i <= |front|
      invariant SortedByCost(sorted)
      invariant multiset(sorted) == multiset(front[..i])
      invariant forall c :: WithCost(sorted, c) == WithCost(front[..i], c)
    {
      var x := front[i];
      var p := 0;
      while p < |sorted| && sorted[p].cost <= x.cost
        invariant 0 <= p <= |sorted|
        invariant forall q :: 0 <= q < p ==> sorted[q].cost <= x.cost
      {
        p := p + 1;
      }
      InsertStep(sorted, front[..i], x, p);
      assert front[..i + 1] == front[..i] + [x];
      sorted := sorted[..p] + [x] + sorted[p..];
      i := i + 1;
    }
    assert front[..|front|] == front;
  }

  /** The result-processing loop: keep the rows with positive cost, build a
      solution and a front point for each, then sort the front by cost. */
  method ShapeResults(xs: seq<seq<real>>, fs: seq<Objectives>, stations: seq<Station>, numUsers: nat)
    returns (solutions: seq<Solution>, paretoFront: seq<FrontPoint>)
    requires WellFormedOutput(xs, fs, stations, numUsers)
    ensures solutions == KeptSolutions(xs, fs, stations, numUsers)
    ensures SortedByCost(paretoFront)
    ensures multiset(paretoFront) == multiset(Projections(solutions))
    ensures forall c :: WithCost(paretoFront, c) == WithCost(Projections(solutions), c)
  {
    solutions := [];
    var front := [];
    var i := 0;
    while i < |xs|
      invariant 0 <= i <= |xs|
      invariant solutions == KeptAmong(xs, fs, stations, numUsers, i)
      invariant front == Projections(solutions)
    {
      KeptAmongSnoc(xs, fs, stations, numUsers, i);
      if fs[i].cost > 0.0 {
        var selected := ResolveSelected(xs[i], stations);
        var coverage := -fs[i].negCoverage;
        var percentage := (coverage as real / numUsers as real) * 100.0;
        solutions := solutions + [Solution(i, fs[i].cost, coverage, percentage, selected)];
        front := front + [FrontPoint(fs[i].cost, coverage, percentage)];
      }
      i := i + 1;
    }
    paretoFront := SortByCost(front);
  }

  /** Every plotted point is the projection of some reported solution, and
      every reported solution is plotted: the click-to-select lookup always
      finds a match. */
  lemma FrontMatchesSolutions(solutions: seq<Solution>, front: seq<FrontPoint>)
    requires multiset(front) == multiset(Projections(solutions))
    ensures forall k :: 0 <= k < |front| ==>
      exists i :: 0 <= i < |solutions| && Project(solutions[i]) == front[k]
    ensures forall i :: 0 <= i < |solutions| ==> Project(solutions[i]) in front
  {
    var proj := Projections(solutions);
    forall k | 0 <= k < |front|
      ensures exists i :: 0 <= i < |solutions| && Project(solutions[i]) == front[k]
    {
      assert front[k] in multiset(front);
      assert front[k] in proj;
      var i :| 0 <= i < |proj| && proj[i] == front[k];
      assert Project(solutions[i]) == front[k];
    }
    forall i | 0 <= i < |solutions| ensures Project(solutions[i]) in front {
      assert proj[i] in multiset(proj);
    }
  }

  lemma WithCostLast(s: seq<FrontPoint>, c: real)
    requires s != []
    ensures WithCost(s, c) == WithCost(s[..|s| - 1], c) + (if s[|s| - 1].cost == c then [s[|s| - 1]] else [])
  {
  }

  /** In a sequence sorted by cost no point costs more than the last one. */
  lemma SortedLastIsMax(s: seq<FrontPoint>, y: FrontPoint)
    requires SortedByCost(s) && y in s
    ensures y.cost <= s[|s| - 1].cost
  {
    var k :| 0 <= k < |s| && s[k] == y;
    if k < |s| - 1 {
      assert s[k].cost <= s[|s| - 1].cost;
    }
  }

  /** Sortedness by cost together with unchanged cost groups determines the
      order completely: any stable sort by cost, Python's included, yields
      the same sequence. */
  lemma {:induction false} StableSortIsUnique(a: seq<FrontPoint>, b: seq<FrontPoint>)
    requires SortedByCost(a) && SortedByCost(b)
    requires forall c :: WithCost(a, c) == WithCost(b, c)
    ensures a == b
    decreases |a| + |b|
  {
    if a == [] || b == [] {
      if a != [] {
        var y := a[|a| - 1];
        WithCostMember(a, y.cost, y);
        WithCostMember(b, y.cost, y);
      }
      if b != [] {
        var y := b[|b| - 1];
        WithCostMember(a, y.cost, y);
        WithCostMember(b, y.cost, y);
      }
    } else {
      var la, lb := a[|a| - 1], b[|b| - 1];
      var a', b' := a[..|a| - 1], b[..|b| - 1];
      WithCostMember(a, la.cost, la);
      WithCostMember(b, la.cost, la);
      WithCostMember(a, lb.cost, lb);
      WithCostMember(b, lb.cost, lb);
      SortedLastIsMax(b, la);
      SortedLastIsMax(a, lb);
      assert la.cost == lb.cost;
      WithCostLast(a, la.cost);
      WithCostLast(b, la.cost);
      var ga, gb := WithCost(a', la.cost), WithCost(b', la.cost);
      assert ga + [la] == gb + [lb];
      assert la == (ga + [la])[|ga|] && lb == (gb + [lb])[|gb|];
      assert |ga| == |gb|;
      forall c ensures WithCost(a', c) == WithCost(b', c) {
        var t := if la.cost == c then [la] else [];
        WithCostLast(a, c);
        WithCostLast(b, c);
        var ga, gb := WithCost(a', c), WithCost(b', c);
        assert ga + t == gb + t;
        assert ga == (ga + t)[..|ga|] && gb == (gb + t)[..|gb|];
      }
      StableSortIsUnique(a', b');
      assert a == a' + [la] && b == b' + [lb];
    }
  }

  /** An optimiser row was produced by the objective function of `p`. */
  predicate EvaluatedBy(p: Problem, xs: seq<seq<real>>, fs: seq<Objectives>) {
    && |xs| == |fs|
    && forall i :: 0 <= i < |xs| ==>
         Fits(p, xs[i]) && fs[i] == Objectives(TotalCost(xs[i], p.costs), -(Coverage(p, xs[i]) as int))
  }

  lemma PercentageBounds(coverage: int, numUsers: nat)
    requires 0 <= coverage <= numUsers && numUsers > 0
    ensures 0.0 <= Percentage(coverage, numUsers) <= 100.0
  {
    var q := coverage as real / numUsers as real;
    assert q <= 1.0;
  }

  /** When the rows come from the objective function, every reported solution
      states the coverage of its own chromosome, a positive cost, and a
      percentage between 0 and 100. */
  lemma ReportedFromEvaluation(p: Problem, xs: seq<seq<real>>, fs: seq<Objectives>, stations: seq<Station>)
    requires WellFormedOutput(xs, fs, stations, |p.users|) && EvaluatedBy(p, xs, fs)
    ensures var sols := KeptSolutions(xs, fs, stations, |p.users|);
      forall k :: 0 <= k < |sols| ==>
        && sols[k].id < |xs|
        && sols[k].cost == TotalCost(xs[sols[k].id], p.costs) > 0.0
        && sols[k].coverage == Coverage(p, xs[sols[k].id])
        && 0.0 <= sols[k].coveragePercentage <= 100.0
  {
    var sols := KeptSolutions(xs, fs, stations, |p.users|);
    var kept := IndicesWhere(fs[..|fs|], IsKept);
    assert fs[..|fs|] == fs;
    forall k | 0 <= k < |sols|
      ensures && sols[k].id < |xs|
              && sols[k].cost == TotalCost(xs[sols[k].id], p.costs) > 0.0
              && sols[k].coverage == Coverage(p, xs[sols[k].id])
              && 0.0 <= sols[k].coveragePercentage <= 100.0
    {
      var i := kept[k];
      CoverageAtMostUsers(p, xs[i]);
      PercentageBounds(Coverage(p, xs[i]), |p.users|);
    }
  }

  /** With positive station costs and 0/1 rows, a row is reported exactly when
      it selects at least one station; in particular the empty selection is
      never reported. */
  lemma ReportedIffNonEmpty(p: Problem, xs: seq<seq<real>>, fs: seq<Objectives>, stations: seq<Station>, i: nat)
    requires WellFormedOutput(xs, fs, stations, |p.users|) && EvaluatedBy(p, xs, fs)
    requires forall j :: 0 <= j < |p.costs| ==> p.costs[j] > 0
    requires i < |xs| && Binary(xs[i])
    ensures (exists k :: 0 <= k < |KeptSolutions(xs, fs, stations, |p.users|)| &&
                         KeptSolutions(xs, fs, stations, |p.users|)[k].id == i)
            <==> exists j :: 0 <= j < |xs[i]| && xs[i][j] == 1.0
  {
    var sols := KeptSolutions(xs, fs, stations, |p.users|);
    var kept := IndicesWhere(fs[..|fs|], IsKept);
    assert fs[..|fs|] == fs;
    PositiveCostIffNonEmpty(xs[i], p.costs);
    if IsKept(fs[i]) {
      var k :| 0 <= k < |kept| && kept[k] == i;
      assert sols[k].id == i;
    }
    if exists k :: 0 <= k < |sols| && sols[k].id == i {
      var k :| 0 <= k < |sols| && sols[k].id == i;
      assert IsKept(fs[kept[k]]);
    }
  }

  /** The problem handed to the optimiser: station costs and sites, in
      station order, with the users and the radius. */
  function ProblemFrom(stations: seq<Station>, users: seq<Point>, radius: real): (p: Problem)
    ensures |p.costs| == |p.locations| == |stations|
    ensures p.users == users && p.coverageRadius == radius
    ensures forall j :: 0 <= j < |stations| ==>
      p.costs[j] == stations[j].cost && p.locations[j] == Site(stations[j])
  {
    var costs := seq(|stations|, j requires 0 <= j < |stations| => stations[j].cost);
    var locations := seq(|stations|, j requires 0 <= j < |stations| => Site(stations[j]));
    Problem(costs, users, locations, radius)
  }

  /** For the Pune stations, as the station generator produces them, every
      cost in the optimiser's problem is at least 120000, so the cost-based
      filter keeps exactly the non-empty 0/1 selections
      (`ReportedIffNonEmpty` applies). */
  lemma PuneProblemCostsPositive(offsets: seq<int>, stations: seq<Station>, users: seq<Point>, radius: real)
    requires |offsets| == |PuneAreas| && OffsetsInRange(offsets)
    requires |stations| == |PuneAreas|
    requires forall i :: 0 <= i < |stations| ==>
      stations[i].cost == BaseCost(PuneAreas[i].density) + offsets[i]
    ensures var p := ProblemFrom(stations, users, radius);
      forall j :: 0 <= j < |p.costs| ==> 120000 <= p.costs[j] && p.costs[j] > 0
  {
    forall i | 0 <= i < |PuneAreas| ensures 8 <= PuneAreas[i].density {
    }
  }
}
