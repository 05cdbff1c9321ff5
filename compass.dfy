/** Degrees-to-compass classification of the mean wave direction (buoybot.go:233-274). */
module Compass {
  const LessThanZero: string := "ERROR - DEGREE LESS THAN ZERO"
  const GreaterThan360: string := "ERROR - DEGREE GREATER THAN 360"

  /** The sixteen points of the compass, clockwise from north. */
  const Points: seq<string> := ["N", "NNE", "NE", "ENE", "E", "ESE", "SE", "SSE",
                                "S", "SSW", "SW", "WSW", "W", "WNW", "NW", "NNW"]

  /** The label of an azimuth in whole degrees: the switch in buoybot.go:233-274, case by case. */
  function Direction(deg: int): (point: string)
    ensures point == LessThanZero <==> deg < 0
    ensures point == GreaterThan360 <==> deg > 360

  {
    if deg < 0 then LessThanZero
    else if deg <= 11 then "N"
    else if deg <= 34 then "NNE"
    else if deg <= 56 then "NE"
    else if deg <= 79 then "ENE"
    else if deg <= 101 then "E"
    else if deg <= 124 then "ESE"
    else if deg <= 146 then "SE"
    else if deg <= 169 then "SSE"
    else if deg <= 191 then "S"
    else if deg <= 214 then "SSW"
    else if deg <= 236 then "SW"
    else if deg <= 259 then "WSW"
    else if deg <= 281 then "W"
    else if deg <= 304 then "WNW"
    else if deg <= 326 then "NW"
    else if deg <= 349 then "NNW"
    else if deg <= 360 then "N"
    else GreaterThan360
  }

  /** The last degree of point k's sector: the ideal edge 22.5k + 11.25, rounded to the nearest degree. */
  function UpperEdge(k: nat): int {
    (90 * k + 47) / 4
  }

  /** The sector holding deg, counted clockwise from north: the least k with deg <= UpperEdge(k).
      Sector 16 is north again, reached from 350 degrees on. */
  function Sector(deg: int): (k: nat)
    requires 0 <= deg <= 360
    ensures k <= 16
    ensures deg <= UpperEdge(k)
    ensures k > 0 ==> UpperEdge(k - 1) < deg
  {
    (4 * deg + 42) / 90
  }

  /** The position of a point in Points, read off its letters. */
  function PointIndex(p: string): nat
    requires 1 <= |p| <= 3
  {
    if |p| == 1 then
      if p[0] == 'N' then 0 else if p[0] == 'E' then 4 else if p[0] == 'S' then 8 else 12
    else if |p| == 2 then
      if p[0] == 'N' then (if p[1] == 'E' then 2 else 14) else (if p[1] == 'E' then 6 else 10)
    else if p[0] == 'N' then (if p[2] == 'E' then 1 else 15)
    else if p[0] == 'E' then (if p[1] == 'N' then 3 else 5)
    else if p[0] == 'S' then (if p[2] == 'E' then 7 else 9)
    else (if p[1] == 'S' then 11 else 13)
  }

  lemma PointShape(i: nat)
    requires i < 16
    ensures 1 <= |Points[i]| <= 3 && PointIndex(Points[i]) == i
  {
    if i == 0 { assert Points[i] == "N"; }
    else if i == 1 { assert Points[i] == "NNE"; }
    else if i == 2 { assert Points[i] == "NE"; }
    else if i == 3 { assert Points[i] == "ENE"; }
    else if i == 4 { assert Points[i] == "E"; }
    else if i == 5 { assert Points[i] == "ESE"; }
    else if i == 6 { assert Points[i] == "SE"; }
    else if i == 7 { assert Points[i] == "SSE"; }
    else if i == 8 { assert Points[i] == "S"; }
    else if i == 9 { assert Points[i] == "SSW"; }
    else if i == 10 { assert Points[i] == "SW"; }
    else if i == 11 { assert Points[i] == "WSW"; }
    else if i == 12 { assert Points[i] == "W"; }
    else if i == 13 { assert Points[i] == "WNW"; }
    else if i == 14 { assert Points[i] == "NW"; }
    else { assert Points[i] == "NNW"; }
  }

  /** The sixteen points are sixteen different strings. */
  lemma PointsDistinct(i: nat, j: nat)
    requires i < 16 && j < 16 && Points[i] == Points[j]
    ensures i == j
  {
    PointShape(i);
    PointShape(j);
  }

  /** Every degree from 0 to 360 is named by one of the sixteen points, never by an error. */
  lemma DirectionNamesAPoint(deg: int)
    requires 0 <= deg <= 360
    ensures Direction(deg) in Points
  {
    DirectionIsRoundedSector(deg);
  }

  /** Every degree from 0 to 360 is named by the point of its sector, the sector edges
      22.5k + 11.25 being rounded to the nearest whole degree. */
  lemma DirectionIsRoundedSector(deg: int)
    requires 0 <= deg <= 360
    ensures Direction(deg) == Points[Sector(deg) % 16]
  {
    var k := Sector(deg);
    assert k % 16 == if k == 16 then 0 else k;
    if k == 0 { assert deg <= 11; }
    else if k == 1 { assert 11 < deg <= 34; }
    else if k == 2 { assert 34 < deg <= 56; }
    else if k == 3 { assert 56 < deg <= 79; }
    else if k == 4 { assert 79 < deg <= 101; }
    else if k == 5 { assert 101 < deg <= 124; }
    else if k == 6 { assert 124 < deg <= 146; }
    else if k == 7 { assert 146 < deg <= 169; }
    else if k == 8 { assert 169 < deg <= 191; }
    else if k == 9 { assert 191 < deg <= 214; }
    else if k == 10 { assert 214 < deg <= 236; }
    else if k == 11 { assert 236 < deg <= 259; }
    else if k == 12 { assert 259 < deg <= 281; }
    else if k == 13 { assert 281 < deg <= 304; }
    else if k == 14 { assert 304 < deg <= 326; }
    else if k == 15 { assert 326 < deg <= 349; }
    else { assert 349 < deg; }
  }

  /** Four times the distance from deg to the ideal bearing 22.5k of point k. */
  function QuarterDistance(deg: int, k: nat): nat {
    if 4 * deg >= 90 * k then 4 * deg - 90 * k else 90 * k - 4 * deg
  }

  /** The point (counting 16 as north again) whose ideal bearing 22.5k is nearest to deg. */
  function NearestPoint(deg: int): (k: nat)
    requires 0 <= deg <= 360
    ensures k <= 16
    ensures forall j: nat :: j <= 16 ==> QuarterDistance(deg, k) <= QuarterDistance(deg, j)
  {
    (4 * deg + 45) / 90
  }

  /** The rounded edges make direction name the nearest point everywhere except at eight degrees,
      each 0.25 degrees past the midpoint between two points, where it names the point before. */
  lemma NearestExceptAtEightDegrees(deg: int)
    requires 0 <= deg <= 360
    ensures Sector(deg) != NearestPoint(deg) <==> deg in {34, 79, 124, 169, 214, 259, 304, 349}
    ensures Sector(deg) != NearestPoint(deg) ==> Sector(deg) + 1 == NearestPoint(deg)
  {
    var k := Sector(deg);
    var n := NearestPoint(deg);
    assert 90 * k <= 4 * deg + 42 < 90 * k + 90;
    assert 90 * n <= 4 * deg + 45 < 90 * n + 90;
    assert k <= n <= k + 1;
    if k != n {
      assert 4 * deg + 42 < 90 * n <= 4 * deg + 45;
      assert 90 * n == 4 * deg + 44;
      assert deg == 45 * (n / 2) - 11 && 1 <= n / 2 <= 8;
    }
  }

  /** Moving clockwise from 0 to 360 degrees never moves back to an earlier sector. */
  lemma SectorMonotone(d1: int, d2: int)
    requires 0 <= d1 <= d2 <= 360
    ensures Sector(d1) <= Sector(d2)
  {
  }

  /** The whole degrees of sector k are those above the previous edge and up to its own. */
  lemma SectorBounds(deg: int, k: nat)
    requires 0 <= deg <= 360 && 1 <= k <= 16
    ensures Sector(deg) == k <==> UpperEdge(k - 1) < deg <= UpperEdge(k)
  {
    assert deg <= UpperEdge(k) <==> 4 * deg <= 90 * k + 47;
    assert UpperEdge(k - 1) < deg <==> 90 * (k - 1) + 47 < 4 * deg;
  }

  /** Sector k of the sixteen, for k from 1 to 15, is reached exactly from its own degrees. */
  lemma PointSector(k: nat, deg: int)
    requires 1 <= k < 16 && 0 <= deg <= 360
    ensures Sector(deg) % 16 == k <==> UpperEdge(k - 1) < deg <= UpperEdge(k)
  {
    var t := Sector(deg);
    assert t % 16 == if t == 16 then 0 else t;
    SectorBounds(deg, k);
  }

  /** Sectors 0 and 16 are both north. */
  lemma NorthSectors(deg: int)
    requires 0 <= deg <= 360
    ensures Sector(deg) % 16 == 0 <==> deg <= 11 || 350 <= deg
  {
    var t := Sector(deg);
    assert t % 16 == if t == 16 then 0 else t;
    SectorBounds(deg, 16);
    SectorBounds(deg, 1);
  }

  /** North covers exactly the two ends of the range, [0, 11] and [350, 360]. */
  lemma NorthRanges(deg: int)
    ensures Direction(deg) == "N" <==> 0 <= deg <= 11 || 350 <= deg <= 360
  {
    if 0 <= deg <= 360 {
      DirectionIsRoundedSector(deg);
      NorthSectors(deg);
      if Direction(deg) == "N" { PointsDistinct(Sector(deg) % 16, 0); }
    } else {
      assert |Direction(deg)| > 1;
    }
  }

  /** Each of the other fifteen points covers exactly the whole degrees of its sector. */
  lemma PointRange(k: nat, deg: int)
    requires 1 <= k < 16
    ensures Direction(deg) == Points[k] <==> UpperEdge(k - 1) < deg <= UpperEdge(k)
  {
    if 0 <= deg <= 360 {
      DirectionIsRoundedSector(deg);
      PointSector(k, deg);
      var s := Sector(deg) % 16;
      if Points[s] == Points[k] { PointsDistinct(s, k); }
    } else {
      assert 11 <= UpperEdge(k - 1) && UpperEdge(k) <= 349;
      PointShape(k);
      assert |Direction(deg)| > 3;
    }
  }
}
