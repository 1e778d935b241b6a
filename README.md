# EV charging-station placement: a Dafny model of the backend core

The backend places electric-vehicle charging stations across ten areas of Pune.
It builds one problem instance: one candidate station per area, and EV users
spread around the area centres in proportion to each area's density. An
external multi-objective optimiser searches 0/1 selections of stations for
two objectives at once: low installation cost and high user coverage. The
backend then turns the optimiser's final rows into the response: a list of
solutions and a plotted front sorted by cost.

This project models, and proves properties of, the code in `backend/main.py`
that belongs to the repository itself:

- `instance.dfy` (module `Instance`): areas, users (points), stations, and the
  ten-area table `PuneAreas`.
- `indices.dfy` (module `Indices`): choosing the positions of a sequence that
  satisfy a test, in increasing order. This is used both for the bits set to 1
  in a chromosome and for the optimiser rows that are kept.
- `evaluation.dfy` (module `Evaluation`): the objective function
  `EVChargingProblem._evaluate`. It is a method with the source's nested loops
  and early `break`, proved against a set-based definition of coverage and a
  sum-based definition of cost.
- `generators.dfy` (module `Generators`): `generate_ev_users` and
  `generate_potential_stations`. Both are methods whose loops append to a
  list. The random draws are inputs.
- `results.dfy` (module `Results`): the result-processing loop of
  `optimize_stations` and the sort of the front. The sort is modelled as a
  stable insertion sort, and the lemmas prove that any stable sort by cost
  gives the same list as this one.

Modelling choices:

- A chromosome is a `seq<real>`. The cost is `sum(x[j] * costs[j])`, as
  `np.sum(x * self.costs)` computes it. A station counts as selected when its
  bit equals `1`, as in the tests `x[j] == 1` and `is_selected == 1`. For 0/1
  rows, a lemma shows the cost is the sum of the selected stations' costs.
- The test `sqrt(d) <= r` becomes `0 <= r && d <= r*r`. This agrees with the
  square-root test for every radius, negative radii included
  (`SqrtTestAgrees`).
- Randomness is supplied as sequences:
  - `offsets` stands for the `random.randint(-20000, 20000)` calls, one per
    area, each in that range.
  - `draws` stands for the `random.uniform(-0.01, 0.01)` calls, two per user in
    generation order (latitude first), each in `[-0.01, 0.01]`.
- `int(...)` on the user share is truncation toward zero (`TruncToInt`). A
  non-positive count runs no iterations, as `range(n)` does.
- The optimiser's output is an input: `xs` stands for `res.X` and `fs` for
  `res.F`. Each `fs` entry is an `Objectives(cost, negCoverage)`, the same type
  `Evaluate` returns.
- The two divisions become preconditions, stated exactly where the source
  divides:
  - `total_density` is only divided by when there is at least one area. In
    Python, `/` by the integer 0 raises `ZeroDivisionError`.
  - `len(users)` is only divided by when some row is kept. That division is
    on a float, and with no users it yields a non-finite percentage rather
    than raising (see "## Left out").

The code keeps every optimiser row whose cost is positive. It does not
filter the rows by dominance. As a consequence, the empty selection (cost 0)
is never reported (`ReportedIffNonEmpty`).

## Model

| member | source | states |
|---|---|---|
| `Evaluation.Evaluate` | backend/main.py:55-74 | The objective vector is exactly `[total cost, -coverage]`. Coverage is the number of distinct users within the radius of at least one selected station, and the second component lies in `[-len(users), 0]`. |
| `Evaluation.SqrtTestAgrees` | backend/main.py:65-67 | The comparison `sqrt(squared distance) <= radius` holds exactly when the square-root-free test holds, for any radius. |
| `Evaluation.CoverageAtMostUsers` | backend/main.py:60-71 | Coverage lies between 0 and the number of users. |
| `Evaluation.AllCoveredIsFullCoverage` | backend/main.py:61-71 | When every user is in range of some selected station, coverage equals the number of users, so a user in range of several stations is counted once. |
| `Evaluation.CoverageMonotone` | backend/main.py:63-69 | Selecting a superset of stations never lowers coverage. |
| `Evaluation.EmptySelectionCost` | backend/main.py:57 | The all-zero selection costs 0. |
| `Evaluation.BinaryCostIsSelectedCost` | backend/main.py:57 | For a 0/1 chromosome, `sum(x * costs)` equals the sum of `costs[j]` over the positions `j` with bit 1. |
| `Evaluation.PositiveCostIffNonEmpty` | backend/main.py:57 | With positive station costs, a 0/1 chromosome has positive cost exactly when it selects at least one station, and its cost is never negative. |
| `Generators.TruncToInt` | backend/main.py:82 | `int()` drops the fraction toward zero: the result is within 1 of the input, on the input's side of zero. |
| `Generators.Owners` | backend/main.py:81-83 | In generation order, each user belongs to one of the areas visited so far, and the areas appear in non-decreasing order. |
| `Generators.UsersPerArea` | backend/main.py:81-83 | Area `i` receives exactly `max(0, trunc(density_i / total_density * total_users))` users. |
| `Generators.UserCountAtMostTotal` | backend/main.py:79-83 | With non-negative densities, the total number of users generated is at most `total_users`. |
| `Generators.PuneUserCount` | backend/main.py:23-34 | For the ten Pune areas, the total density is 135, and 200 requested users truncate to 193 generated users. |
| `Generators.GenerateEvUsers` | backend/main.py:76-89 | User `k` belongs to area `Owners[k]` and is that area's centre plus draws `2k` and `2k+1`. So each user lies within ±0.01 of its area centre in both coordinates. |
| `Generators.AppendAreaUsers` | backend/main.py:83-87 | The inner loop appends `max(0, num_users)` users around one area centre and leaves earlier users unchanged. |
| `Generators.GeneratePotentialStations` | backend/main.py:91-104 | There is exactly one station per area. Station `i` has `id == i`, copies the area's name, lat and lon, and costs `100000 + 5000*density + offset_i`. That cost lies within ±20000 of the base cost and is positive for non-negative density. |
| `Results.ProblemFrom` | backend/main.py:124-128 | The problem has one cost and one site per station, in station order: `costs[j]` is station `j`'s cost and `locations[j]` is its latitude and longitude. It carries the users and the radius unchanged. |
| `Results.PuneProblemCostsPositive` | backend/main.py:96-102 | For the Pune stations, built with offsets in `[-20000, 20000]`, every cost in the optimiser's problem is at least 120000, hence positive. |
| `Indices.IndicesWhere` | backend/main.py:137-141 | The chosen positions are exactly those that pass the test, each below the length, in strictly increasing order. |
| `Results.ResolveSelected` | backend/main.py:139-142 | The resolved stations are those at positions with bit 1, in increasing position order. A station is listed exactly when some position holding it has bit 1. |
| `Results.SelectedOnlyOnes` | backend/main.py:140-142 | Every resolved station sits at a position whose bit is 1. |
| `Results.SelectedAllOnes` | backend/main.py:140-142 | Every station whose bit is 1 is resolved. |
| `Results.InsertSorted` | backend/main.py:159 | Inserting a point before the first point that costs more keeps the front sorted by cost. |
| `Results.InsertAfterEqual` | backend/main.py:159 | The same insertion puts the point last among points of equal cost and leaves every other cost group unchanged. |
| `Results.SortByCost` | backend/main.py:159 | The sorted front is non-decreasing in cost, is a permutation of its input, and keeps points of equal cost in their original order (stable, like `list.sort`). |
| `Results.StableSortIsUnique` | backend/main.py:159 | Sortedness by cost plus unchanged equal-cost groups fix the order completely, so any stable sort by cost gives the same list. |
| `Results.ShapeResults` | backend/main.py:134-159 | The solutions are exactly the rows with positive cost, in row order. Each has `id` equal to its row, the row's cost, `coverage = -F[i][1]`, `coverage_percentage = coverage / len(users) * 100`, and its resolved stations. The front is sorted by cost, is a permutation of the solutions' `(cost, coverage, coverage_percentage)` tuples, and is stable. |
| `Results.FrontMatchesSolutions` | backend/main.py:144-159 | Every plotted front point equals the tuple of some reported solution, and every solution is plotted. |
| `Results.PercentageBounds` | backend/main.py:148 | A coverage between 0 and `len(users)` gives a percentage between 0 and 100. |
| `Results.ReportedFromEvaluation` | backend/main.py:138-156 | When the rows come from the objective function, each reported solution's cost is its chromosome's positive cost, its coverage is that chromosome's coverage, and its percentage lies in `[0, 100]`. |
| `Results.ReportedIffNonEmpty` | backend/main.py:138 | With positive station costs and 0/1 rows, a row is reported exactly when it selects at least one station, so the empty selection is never reported. |

## Left out

- The optimiser itself: the `NSGA2`/`minimize` call (backend/main.py:6-8, 129-131) belongs to the pymoo library, whose code is not part of this model. Its output is an arbitrary well-formed input. Nothing is claimed about dominance, ranking or crowding, and nothing about whether its rows are 0/1.
- HTTP plumbing: the FastAPI app, CORS setup, request and response models, routes, the `HTTPException` wrapping and the uvicorn entry point (backend/main.py:1-4, 11-20, 36-46, 106-116, 161-173). This includes echoing `users` and `potential_stations` in the response.
- Wiring between the steps (backend/main.py:118-131): `ProblemFrom` models building the problem from the stations' costs and sites. The calls themselves, and the hand-off of the problem to the optimiser, are not modelled. Instead, `ReportedIffNonEmpty` and `ReportedFromEvaluation` take as hypotheses that the rows were evaluated by the problem and that station costs are positive; `PuneProblemCostsPositive` discharges the second hypothesis for the Pune stations.
- Randomness: `random.uniform` and `random.randint` are replaced by supplied sequences of draws within the same bounds. The sequence and count of draws are modelled; their distribution is not.
- Floating point: distances, the density share and the percentage are exact reals. The model does not capture float rounding before `int()` truncates, or in `float(...)` conversions.
- GenerateEvUsers: crashes are not modelled. The source raises an exception when `total_density == 0` with a non-empty area list; the model states this as a precondition instead.
- ShapeResults: requires `len(users) > 0` whenever some row is kept. In the source, the value divided at backend/main.py:148 is a numpy float. With no users, the division gives a non-finite `coverage_percentage` instead of raising, and what happens next depends on how the response is serialised. The model does not capture that non-finite value. The precondition never binds at the source's one call site, which always generates 193 users (`PuneUserCount`). ShapeResults also requires every row to have one value per station and as many objective pairs as rows, which is the shape of the optimiser's output.
- SortByCost: does not model Python's ordering of NaN costs, which cannot arise from exact reals.
- The frontend (`frontend/src/App.tsx`): rendering, fetch I/O and unit conversion are not part of this model. Its click lookup (App.tsx:92-95) matches within a tolerance. `FrontMatchesSolutions` proves the stronger exact match.
