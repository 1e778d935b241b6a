/** Building a problem instance from the city areas: one candidate station
    per area, and EV users spread over the areas in proportion to density.
    The random draws are inputs: `offsets` holds one integer per area for
    the station cost, `draws` two reals per user (latitude, then longitude). */
module Generators {
  import opened Instance

  /** The sum of the densities of `areas`. */
  function DensitySum(areas: seq<Area>): int
    decreases |areas|
  {
    if areas == [] then 0 else DensitySum(areas[..|areas| - 1]) + areas[|areas| - 1].density
  }

  /** Conversion of a real to an integer by dropping the fraction (truncation toward zero). */
  function TruncToInt(v: real): (r: int)
    ensures 0.0 <= v ==> r as real <= v < r as real + 1.0
    ensures v < 0.0 ==> r as real - 1.0 < v <= r as real
    ensures 0.0 <= v ==> 0 <= r
  {
    if 0.0 <= v then v.Floor else -((-v).Floor)
  }

  /** The exact share of `totalUsers` that an area of density `density` is due. */
  function UserShare(density: int, totalDensity: int, totalUsers: int): real
    requires totalDensity != 0
  {
    (density as real / totalDensity as real) * totalUsers as real
  }

  /** How many users the area gets: the truncated share, as a loop count
      (a negative count runs no iterations). */
  function UsersForArea(a: Area, totalDensity: int, totalUsers: int): nat
    requires totalDensity != 0
  {
    var n := TruncToInt(UserShare(a.density, totalDensity, totalUsers));
    if n > 0 then n else 0
  }

  /** For each generated user, in generation order, the index of its area:
      area 0's users come first, then area 1's, and so on, over the first `n` areas. */
  function Owners(areas: seq<Area>, totalDensity: int, totalUsers: int, n: nat): (r: seq<nat>)
    requires n <= |areas|
    requires n == 0 || totalDensity != 0
    ensures forall k :: 0 <= k < |r| ==> r[k] < n
    ensures forall k, l :: 0 <= k < l < |r| ==> r[k] <= r[l]
  {
    if n == 0 then []
    else
      Owners(areas, totalDensity, totalUsers, n - 1)
        + seq(UsersForArea(areas[n - 1], totalDensity, totalUsers), _ => n - 1)
  }

  /** The user built from draws `2k` and `2k+1` around the centre of `a`. */
  function Jittered(a: Area, draws: seq<real>, k: nat): Point
    requires 2 * k + 1 < |draws|
  {
    Point(a.lat + draws[2 * k], a.lon + draws[2 * k + 1])
  }

  predicate DrawsInRange(draws: seq<real>) {
    forall k :: 0 <= k < |draws| ==> -0.01 <= draws[k] <= 0.01
  }

  /** The owners of fewer areas are a prefix of the owners of more areas. */
  lemma {:induction false} OwnersPrefix(areas: seq<Area>, totalDensity: int, totalUsers: int, n: nat, m: nat)
    requires n <= m <= |areas|
    requires m == 0 || totalDensity != 0
    ensures |Owners(areas, totalDensity, totalUsers, n)| <= |Owners(areas, totalDensity, totalUsers, m)|
    ensures Owners(areas, totalDensity, totalUsers, m)[..|Owners(areas, totalDensity, totalUsers, n)|]
            == Owners(areas, totalDensity, totalUsers, n)
  {
    if n < m {
      OwnersPrefix(areas, totalDensity, totalUsers, n, m - 1);
    }
  }

  /** generate_ev_users: the users of every area in turn, each offset from
      the area centre by the next two draws. */
  method GenerateEvUsers(areas: seq<Area>, totalUsers: int, draws: seq<real>) returns (users: seq<Point>)
    requires areas == [] || DensitySum(areas) != 0
    requires |draws| == 2 * |Owners(areas, DensitySum(areas), totalUsers, |areas|)|
    requires DrawsInRange(draws)
    ensures var owners := Owners(areas, DensitySum(areas), totalUsers, |areas|);
      |users| == |owners| &&
      forall k :: 0 <= k < |users| ==> users[k] == Jittered(areas[owners[k]], draws, k)
    ensures var owners := Owners(areas, DensitySum(areas), totalUsers, |areas|);
      forall k :: 0 <= k < |users| ==>
        -0.01 <= users[k].lat - areas[owners[k]].lat <= 0.01 &&
        -0.01 <= users[k].lon - areas[owners[k]].lon <= 0.01
  {
    var totalDensity := DensitySum(areas);
    ghost var all := Owners(areas, totalDensity, totalUsers, |areas|);
    users := [];
    var i := 0;
    while i < |areas|
      invariant 0 <= i <= |areas|
      invariant |users| == |Owners(areas, totalDensity, totalUsers, i)| <= |all|
      invariant forall k :: 0 <= k < |users| ==>
                  users[k] == Jittered(areas[Owners(areas, totalDensity, totalUsers, i)[k]], draws, k)
    {
      var area := areas[i];
      ghost var done := Owners(areas, totalDensity, totalUsers, i);
      OwnersPrefix(areas, totalDensity, totalUsers, i + 1, |areas|);
      OwnersStep(areas, totalDensity, totalUsers, i);
      var numUsers := TruncToInt(UserShare(area.density, totalDensity, totalUsers));
      users := AppendAreaUsers(users, area, numUsers, draws);
      i := i + 1;
    }
  }

  /** The inner loop of generate_ev_users: `numUsers` more users around the
      centre of `area`, user `k` taking draws `2k` and `2k+1`. */
  method AppendAreaUsers(users: seq<Point>, area: Area, numUsers: int, draws: seq<real>) returns (r: seq<Point>)
    requires 2 * (|users| + (if numUsers > 0 then numUsers else 0)) <= |draws|
    ensures |r| == |users| + (if numUsers > 0 then numUsers else 0)
    ensures r[..|users|] == users
    ensures forall k :: |users| <= k < |r| ==> r[k] == Jittered(area, draws, k)
  {
    r := users;
    var j := 0;
    while j < numUsers
      invariant 0 <= j && (j == 0 || j <= numUsers)
      invariant |r| == |users| + j
      invariant r[..|users|] == users
      invariant forall k :: |users| <= k < |r| ==> r[k] == Jittered(area, draws, k)
    {
      var lat := area.lat + draws[2 * |r|];
      var lon := area.lon + draws[2 * |r| + 1];
      r := r + [Point(lat, lon)];
      j := j + 1;
    }
  }

  /** Adding area `i` appends its users, all owned by `i`. */
  lemma OwnersStep(areas: seq<Area>, totalDensity: int, totalUsers: int, i: nat)
    requires i < |areas| && totalDensity != 0
    ensures var before, after := Owners(areas, totalDensity, totalUsers, i), Owners(areas, totalDensity, totalUsers, i + 1);
      |after| == |before| + UsersForArea(areas[i], totalDensity, totalUsers) &&
      (forall k :: 0 <= k < |before| ==> after[k] == before[k]) &&
      (forall k :: |before| <= k < |after| ==> after[k] == i)
  {
  }

  predicate NonNegativeDensities(areas: seq<Area>) {
    forall i :: 0 <= i < |areas| ==> 0 <= areas[i].density
  }

  /** The user count of an area never exceeds its exact share. */
  lemma UsersForAreaBelowShare(a: Area, totalDensity: int, totalUsers: int)
    requires 0 <= a.density && 0 < totalDensity && 0 <= totalUsers
    ensures UsersForArea(a, totalDensity, totalUsers) as real <= UserShare(a.density, totalDensity, totalUsers)
  {
    var q := a.density as real / totalDensity as real;
    assert 0.0 <= q;
    assert 0.0 <= q * totalUsers as real;
  }

  lemma ShareAdds(p: int, d: int, totalDensity: int, totalUsers: int)
    requires 0 < totalDensity
    ensures UserShare(p, totalDensity, totalUsers) + UserShare(d, totalDensity, totalUsers)
            == UserShare(p + d, totalDensity, totalUsers)
  {
    var D, T := totalDensity as real, totalUsers as real;
    assert p as real / D + d as real / D == (p + d) as real / D;
    calc {
      (p as real / D) * T + (d as real / D) * T;
    ==
      (p as real / D + d as real / D) * T;
    }
  }

  /** The users of the first `n` areas number at most their areas' exact shares combined. */
  lemma {:induction false} OwnersBelowShares(areas: seq<Area>, totalDensity: int, totalUsers: int, n: nat)
    requires n <= |areas| && NonNegativeDensities(areas)
    requires 0 < totalDensity && 0 <= totalUsers
    ensures |Owners(areas, totalDensity, totalUsers, n)| as real
            <= UserShare(DensitySum(areas[..n]), totalDensity, totalUsers)
  {
    if n == 0 {
      assert areas[..0] == [];
    } else {
      OwnersBelowShares(areas, totalDensity, totalUsers, n - 1);
      UsersForAreaBelowShare(areas[n - 1], totalDensity, totalUsers);
      assert areas[..n][..n - 1] == areas[..n - 1];
      ShareAdds(DensitySum(areas[..n - 1]), areas[n - 1].density, totalDensity, totalUsers);
    }
  }

  /** With non-negative densities, truncating each area's share never
      produces more than `totalUsers` users overall. */
  lemma UserCountAtMostTotal(areas: seq<Area>, totalUsers: int)
    requires NonNegativeDensities(areas) && 0 <= totalUsers
    requires areas == [] || DensitySum(areas) != 0
    ensures |Owners(areas, DensitySum(areas), totalUsers, |areas|)| <= totalUsers
  {
    if areas != [] {
      var D := DensitySum(areas);
      DensitySumNonNegative(areas);
      OwnersBelowShares(areas, D, totalUsers, |areas|);
      assert areas[..|areas|] == areas;
      assert D as real / D as real == 1.0;
    }
  }

  lemma {:induction false} DensitySumNonNegative(areas: seq<Area>)
    requires NonNegativeDensities(areas)
    ensures 0 <= DensitySum(areas)
  {
    if areas != [] {
      DensitySumNonNegative(areas[..|areas| - 1]);
    }
  }

  lemma {:induction false} ConstantSeqMultiset(c: nat, m: nat, i: nat)
    ensures multiset(seq(c, _ => m))[i] == if i == m then c else 0
  {
    if c > 0 {
      ConstantSeqMultiset(c - 1, m, i);
      assert seq(c, _ => m) == seq(c - 1, _ => m) + [m];
    }
  }

  /** Area `i` gets exactly its truncated share of users, and areas beyond
      the first `n` get none. */
  lemma {:induction false} UsersPerArea(areas: seq<Area>, totalDensity: int, totalUsers: int, n: nat, i: nat)
    requires n <= |areas| && totalDensity != 0
    ensures multiset(Owners(areas, totalDensity, totalUsers, n))[i]
            == if i < n then UsersForArea(areas[i], totalDensity, totalUsers) else 0
  {
    if n > 0 {
      UsersPerArea(areas, totalDensity, totalUsers, n - 1, i);
      ConstantSeqMultiset(UsersForArea(areas[n - 1], totalDensity, totalUsers), n - 1, i);
    }
  }

  /** The service's own instance: total density 135, and 200 requested users
      truncate to 193 generated ones. */
  lemma PuneUserCount()
    ensures DensitySum(PuneAreas) == 135
    ensures |Owners(PuneAreas, 135, 200, |PuneAreas|)| == 193
  {
    assert PuneAreas[..1][..0] == PuneAreas[..0];
    assert DensitySum(PuneAreas[..1]) == 20;
    assert PuneAreas[..2][..1] == PuneAreas[..1];
    assert DensitySum(PuneAreas[..2]) == 35;
    assert PuneAreas[..3][..2] == PuneAreas[..2];
    assert DensitySum(PuneAreas[..3]) == 45;
    assert PuneAreas[..4][..3] == PuneAreas[..3];
    assert DensitySum(PuneAreas[..4]) == 57;
    assert PuneAreas[..5][..4] == PuneAreas[..4];
    assert DensitySum(PuneAreas[..5]) == 67;
    assert PuneAreas[..6][..5] == PuneAreas[..5];
    assert DensitySum(PuneAreas[..6]) == 75;
    assert PuneAreas[..7][..6] == PuneAreas[..6];
    assert DensitySum(PuneAreas[..7]) == 93;
    assert PuneAreas[..8][..7] == PuneAreas[..7];
    assert DensitySum(PuneAreas[..8]) == 107;
    assert PuneAreas[..9][..8] == PuneAreas[..8];
    assert DensitySum(PuneAreas[..9]) == 123;
    assert PuneAreas[..10][..9] == PuneAreas[..9];
    assert DensitySum(PuneAreas[..10]) == 135;
    assert PuneAreas[..10] == PuneAreas;
    assert UsersForArea(PuneAreas[0], 135, 200) == 29;
    assert |Owners(PuneAreas, 135, 200, 1)| == 29;
    assert UsersForArea(PuneAreas[1], 135, 200) == 22;
    assert |Owners(PuneAreas, 135, 200, 2)| == 51;
    assert UsersForArea(PuneAreas[2], 135, 200) == 14;
    assert |Owners(PuneAreas, 135, 200, 3)| == 65;
    assert UsersForArea(PuneAreas[3], 135, 200) == 17;
    assert |Owners(PuneAreas, 135, 200, 4)| == 82;
    assert UsersForArea(PuneAreas[4], 135, 200) == 14;
    assert |Owners(PuneAreas, 135, 200, 5)| == 96;
    assert UsersForArea(PuneAreas[5], 135, 200) == 11;
    assert |Owners(PuneAreas, 135, 200, 6)| == 107;
    assert UsersForArea(PuneAreas[6], 135, 200) == 26;
    assert |Owners(PuneAreas, 135, 200, 7)| == 133;
    assert UsersForArea(PuneAreas[7], 135, 200) == 20;
    assert |Owners(PuneAreas, 135, 200, 8)| == 153;
    assert UsersForArea(PuneAreas[8], 135, 200) == 23;
    assert |Owners(PuneAreas, 135, 200, 9)| == 176;
    assert UsersForArea(PuneAreas[9], 135, 200) == 17;
    assert |Owners(PuneAreas, 135, 200, 10)| == 193;
  }

  /** 100000 + 5000 per unit of density. */
  function BaseCost(density: int): int {
    100000 + density * 5000
  }

  predicate OffsetsInRange(offsets: seq<int>) {
    forall i :: 0 <= i < |offsets| ==> -20000 <= offsets[i] <= 20000
  }

  /** generate_potential_stations: station `i` sits at the centre of area `i`,
      carries its name, has id `i` and costs the base cost plus the `i`-th offset. */
  method GeneratePotentialStations(areas: seq<Area>, offsets: seq<int>) returns (stations: seq<Station>)
    requires |offsets| == |areas|
    requires OffsetsInRange(offsets)
    ensures |stations| == |areas|
    ensures forall i :: 0 <= i < |stations| ==>
      stations[i].id == i && stations[i].name == areas[i].name &&
      stations[i].lat == areas[i].lat && stations[i].lon == areas[i].lon &&
      stations[i].cost == BaseCost(areas[i].density) + offsets[i]
    ensures forall i :: 0 <= i < |stations| ==>
      BaseCost(areas[i].density) - 20000 <= stations[i].cost <= BaseCost(areas[i].density) + 20000
    ensures forall i :: 0 <= i < |stations| && 0 <= areas[i].density ==> stations[i].cost > 0
  {
    stations := [];
    var i := 0;
    while i < |areas|
      invariant 0 <= i <= |areas|
      invariant |stations| == i
      invariant forall k :: 0 <= k < i ==>
        stations[k] == Station(k, areas[k].name, areas[k].lat, areas[k].lon, BaseCost(areas[k].density) + offsets[k])
    {
      var area := areas[i];
      var baseCost := 100000 + area.density * 5000;
      stations := stations + [Station(i, area.name, area.lat, area.lon, baseCost + offsets[i])];
      i := i + 1;
    }
  }
}
