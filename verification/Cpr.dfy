/**
 Compact Position Reporting, Source/Aviation/ADSB.cpp:406-528, over exact reals: global decoding of an even and
 an odd report against the encoding of section A.1.7 of RTCA DO-260B.
 */
module Cpr {
  import opened Arith
  import opened Wrappers

  const SCALE := 131072

  /** C's remainder, which takes the sign of the dividend. */
  function CRemainder(a: int, b: int): int
    requires b > 0
  {
    if a >= 0 then a % b else -((-a) % b)
  }

  /** Source/Aviation/ADSB.cpp:406-412 */
  function Mod(a: int, b: int): int
    requires b > 0
  {
    var res := CRemainder(a, b);
    if res < 0 then res + b else res
  }

  lemma ModIsEuclidean(a: int, b: int)
    requires b > 0
    ensures Mod(a, b) == a % b
  {
    if a < 0 {
      var q, r := (-a) / b, (-a) % b;
      DivMod(-a, b);
      MulAdd(0, q, b);
      if r == 0 {
        DivModUnique(-q, b, 0);
      } else {
        MulAdd(-q, 1, b);
        DivModUnique(-q - 1, b, b - r);
      }
    }
  }

  /** Numbers that differ by a multiple of b leave the same remainder. */
  lemma ModShift(a: int, k: int, b: int)
    requires b > 0
    ensures (a + k * b) % b == a % b
  {
    DivMod(a, b);
    MulAdd(a / b, k, b);
    DivModUnique(a / b + k, b, a % b);
  }

  // ---------------------------------------------------------------- encoding

  /** The nearest multiple of 2^-17, as a count of them. */
  function Round17(u: real): int {
    (131072.0 * u + 0.5).Floor
  }

  /** Section A.1.7.3 of DO-260B: the 17 bits sent for a position u zones from the origin. */
  function Encode17(u: real): (y: int)
    ensures 0 <= y < SCALE
  {
    (131072.0 * (u - u.Floor as real) + 0.5).Floor % SCALE
  }

  lemma EncodeIsRound(u: real)
    ensures Encode17(u) == Round17(u) % SCALE
  {
    var f := u.Floor;
    assert 131072.0 * (u - f as real) + 0.5 == (131072.0 * u + 0.5) - (f * SCALE) as real;
    assert (131072.0 * (u - f as real) + 0.5).Floor == Round17(u) - f * SCALE;
    ModShift(Round17(u), -f, SCALE);
  }

  lemma RoundError(u: real)
    ensures -0.5 < Round17(u) as real - 131072.0 * u <= 0.5
  {
  }

  // ---------------------------------------------------------------- the zone index

  /** `floor((59 * even - 60 * odd) / 2^17 + 0.5)`, and the same with nl - 1 and nl. */
  function ZoneIndex(n: int, e: int, o: int): int {
    ((e * (n - 1) - o * n) as real / 131072.0 + 0.5).Floor
  }

  /** How far apart the two reported positions are, in units of the difference between a zone of each kind. */
  function Apart(n: int, ue: real, uo: real): real {
    (n - 1) as real * ue - n as real * uo
  }

  /**
   While the positions are close, the index is the integer n * zo - (n - 1) * ze that the two reports hide, where
   ze and zo are the zones the encoder cut off.
   */
  lemma ZoneIndexExact(n: int, ue: real, uo: real)
    requires n >= 2
    requires -0.5 + (2 * n - 1) as real / 262144.0 < Apart(n, ue, uo) < 0.5 - (2 * n - 1) as real / 262144.0
    ensures ZoneIndex(n, Encode17(ue), Encode17(uo)) == n * (Round17(uo) / SCALE) - (n - 1) * (Round17(ue) / SCALE)
  {
    var re, ro := Round17(ue), Round17(uo);
    var e, o := re % SCALE, ro % SCALE;
    var ze, zo := re / SCALE, ro / SCALE;
    EncodeIsRound(ue);
    EncodeIsRound(uo);
    var k := n * zo - (n - 1) * ze;
    var d := re * (n - 1) - ro * n;
    assert e * (n - 1) - o * n == d + k * SCALE by {
      assert re == ze * SCALE + e && ro == zo * SCALE + o;
      Expand(n, ze, zo, e, o);
    }
    RoundedApart(n, ue, uo);
    assert (e * (n - 1) - o * n) as real / 131072.0 == d as real / 131072.0 + k as real;
  }

  lemma Expand(n: int, ze: int, zo: int, e: int, o: int)
    ensures e * (n - 1) - o * n == (ze * SCALE + e) * (n - 1) - (zo * SCALE + o) * n + (n * zo - (n - 1) * ze) * SCALE
  {
  }

  lemma RoundedApart(n: int, ue: real, uo: real)
    requires n >= 2
    requires -0.5 + (2 * n - 1) as real / 262144.0 < Apart(n, ue, uo) < 0.5 - (2 * n - 1) as real / 262144.0
    ensures -0.5 < (Round17(ue) * (n - 1) - Round17(uo) * n) as real / 131072.0 < 0.5
  {
    var da := ScaledError(n - 1, ue);
    var db := ScaledError(n, uo);
    Combine((n - 1) as real * ue, n as real * uo, da, db, n,
            (Round17(ue) * (n - 1)) as real, (Round17(uo) * n) as real);
    assert (Round17(ue) * (n - 1) - Round17(uo) * n) as real
        == (Round17(ue) * (n - 1)) as real - (Round17(uo) * n) as real;
  }

  lemma ScaledError(k: int, u: real) returns (d: real)
    requires k >= 0
    ensures (Round17(u) * k) as real == 131072.0 * (k as real * u) + d
    ensures -0.5 * k as real <= d <= 0.5 * k as real
  {
    RoundError(u);
    var e := Round17(u) as real - 131072.0 * u;
    d := k as real * e;
    Scaled(k, e);
    Distribute(k, Round17(u), u);
  }

  lemma Combine(a: real, b: real, da: real, db: real, n: int, ra: real, rb: real)
    requires -0.5 + (2 * n - 1) as real / 262144.0 < a - b < 0.5 - (2 * n - 1) as real / 262144.0
    requires -0.5 * (n - 1) as real <= da <= 0.5 * (n - 1) as real && -0.5 * n as real <= db <= 0.5 * n as real
    requires ra == 131072.0 * a + da && rb == 131072.0 * b + db
    ensures -0.5 < (ra - rb) / 131072.0 < 0.5
  {
  }

  lemma Distribute(k: int, r: int, u: real)
    ensures (r * k) as real == 131072.0 * (k as real * u) + k as real * (r as real - 131072.0 * u)
  {
    assert (r * k) as real == k as real * r as real;
  }

  lemma Scaled(n: int, d: real)
    requires n >= 0 && -0.5 <= d <= 0.5
    ensures -0.5 * n as real <= n as real * d <= 0.5 * n as real
  {
  }

  // ---------------------------------------------------------------- recovering one coordinate

  /** A position in units of the n zones that divide the circle. */
  function Zones(p: real, n: int, circle: real): real
    requires circle > 0.0
  {
    p * n as real / circle
  }

  /** The position the encoder means: p rounded to the grid of 2^17 steps a zone. */
  function Quantized(p: real, n: int, circle: real): real
    requires circle > 0.0 && n > 0
  {
    circle / n as real * (Round17(Zones(p, n, circle)) as real / 131072.0)
  }

  /** `360.0 / 60 * (MOD(j, 60) + even.lat / CPR_SCALE)` and its companions. */
  function ZoneValue(n: int, j: int, y: int, circle: real): real
    requires n > 0
  {
    circle / n as real * (Mod(j, n) as real + y as real / 131072.0)
  }

  function Turns(k: int, circle: real): real {
    k as real * circle
  }

  /** x and y name the same point of the circle. */
  ghost predicate Congruent(x: real, y: real, circle: real) {
    exists k :: x == y + Turns(k, circle)
  }

  lemma StepError(step: real, u: real, p: real, x: real, d: real)
    requires step > 0.0 && step * u == p && x == 131072.0 * u + d && -0.5 < d <= 0.5
    ensures -step / 262144.0 < step * (x / 131072.0) - p <= step / 262144.0
  {
    assert step * x == 131072.0 * p + step * d by {
      assert step * (131072.0 * u + d) == 131072.0 * (step * u) + step * d;
    }
    assert -0.5 * step < step * d <= 0.5 * step;
    assert step * (x / 131072.0) == step * x / 131072.0;
    assert step * (x / 131072.0) == p + step * d / 131072.0;
  }

  /** Rounding moves a position by at most half a step. */
  lemma QuantizationError(p: real, n: int, circle: real)
    requires circle > 0.0 && n > 0
    ensures var step := circle / n as real;
            -step / 262144.0 < Quantized(p, n, circle) - p <= step / 262144.0
  {
    var u := Zones(p, n, circle);
    var step := circle / n as real;
    RoundError(u);
    CancelZones(p, n as real, circle, step);
    StepError(step, u, p, Round17(u) as real, Round17(u) as real - 131072.0 * u);
  }

  lemma CancelZones(p: real, n: real, circle: real, step: real)
    requires n > 0.0 && circle > 0.0 && step * n == circle
    ensures step * (p * n / circle) == p
  {
    assert p * n / circle * circle == p * n;
    var u := p * n / circle;
    assert u * (step * n) == p * n;
    assert (step * u) * n == p * n by { RealAssoc(step, u, n); }
    RealCancel(step * u, p, n);
  }

  lemma RealAssoc(a: real, b: real, c: real)
    ensures (a * b) * c == b * (a * c)
  {
  }

  lemma RealCancel(a: real, b: real, c: real)
    requires a * c == b * c && c != 0.0
    ensures a == b
  {
  }

  lemma RealDistribute(a: real, b: real, c: real)
    ensures a * (b + c) == a * b + a * c
  {
  }

  /** The right index modulo n brings the quantized position back, up to whole turns. */
  lemma Recovered(n: int, j: int, p: real, circle: real)
    requires n > 0 && circle > 0.0
    requires j % n == (Round17(Zones(p, n, circle)) / SCALE) % n
    ensures Congruent(ZoneValue(n, j, Encode17(Zones(p, n, circle)), circle), Quantized(p, n, circle), circle)
  {
    var u := Zones(p, n, circle);
    EncodeIsRound(u);
    var k := RecoveredFrom(n, j, Round17(u), Encode17(u), circle);
    assert ZoneValue(n, j, Encode17(u), circle) == Quantized(p, n, circle) + Turns(k, circle);
  }

  /** By how many turns the zone value misses the rounded position r. */
  lemma RecoveredFrom(n: int, j: int, r: int, y: int, circle: real) returns (k: int)
    requires n > 0 && circle > 0.0 && j % n == (r / SCALE) % n && y == r % SCALE
    ensures ZoneValue(n, j, y, circle) == circle / n as real * (r as real / 131072.0) + Turns(k, circle)
  {
    var z := r / SCALE;
    k := -(z / n);
    ModIsEuclidean(j, n);
    DivMod(z, n);
    MulAdd(0, z / n, n);
    WholeTurns(circle / n as real, circle, n, r, z, k, Mod(j, n), y);
  }

  lemma WholeTurns(step: real, circle: real, n: int, r: int, z: int, k: int, m: int, y: int)
    requires n > 0 && step * n as real == circle && m == z + k * n && y == r - z * SCALE
    ensures step * (m as real + y as real / 131072.0) == step * (r as real / 131072.0) + Turns(k, circle)
  {
    assert y as real / 131072.0 == r as real / 131072.0 - z as real;
    assert m as real == z as real + (k * n) as real;
    assert m as real + y as real / 131072.0 == r as real / 131072.0 + (k * n) as real;
    RealDistribute(step, r as real / 131072.0, (k * n) as real);
    assert (k * n) as real == k as real * n as real;
    RealSwap(step, k as real, n as real);
  }

  lemma RealSwap(a: real, b: real, c: real)
    ensures a * (b * c) == b * (a * c)
  {
  }

  /** The bound on the distance between the two reports under which decoding is exact. */
  predicate CloseEnough(n: int, pe: real, po: real, circle: real)
    requires circle > 0.0
  {
    var d := (n * (n - 1)) as real * (pe - po) / circle;
    -0.5 + (2 * n - 1) as real / 262144.0 < d < 0.5 - (2 * n - 1) as real / 262144.0
  }

  lemma CloseMeansApart(n: int, pe: real, po: real, circle: real)
    requires circle > 0.0
    ensures Apart(n, Zones(pe, n, circle), Zones(po, n - 1, circle)) == (n * (n - 1)) as real * (pe - po) / circle
  {
    var a, b := n as real, (n - 1) as real;
    assert (n * (n - 1)) as real == a * b;
    assert b * (pe * a / circle) == (a * b) * pe / circle;
    assert a * (po * b / circle) == (a * b) * po / circle;
    assert (a * b) * pe / circle - (a * b) * po / circle == (a * b) * (pe - po) / circle;
  }

  /** One coordinate decodes: with n zones in the even report and n - 1 in the odd one, both positions come back. */
  lemma PairDecodes(n: int, pe: real, po: real, circle: real)
    requires n >= 2 && circle > 0.0 && CloseEnough(n, pe, po, circle)
    ensures var e, o := Encode17(Zones(pe, n, circle)), Encode17(Zones(po, n - 1, circle));
            var j := ZoneIndex(n, e, o);
            && Congruent(ZoneValue(n, j, e, circle), Quantized(pe, n, circle), circle)
            && Congruent(ZoneValue(n - 1, j, o, circle), Quantized(po, n - 1, circle), circle)
  {
    var ue, uo := Zones(pe, n, circle), Zones(po, n - 1, circle);
    CloseMeansApart(n, pe, po, circle);
    ZoneIndexExact(n, ue, uo);
    var ze, zo := Round17(ue) / SCALE, Round17(uo) / SCALE;
    var j := ZoneIndex(n, Encode17(ue), Encode17(uo));
    IndexResidues(n, ze, zo, j);
    Recovered(n, j, pe, circle);
    Recovered(n - 1, j, po, circle);
  }

  lemma IndexResidues(n: int, ze: int, zo: int, j: int)
    requires n >= 2 && j == n * zo - (n - 1) * ze
    ensures j % n == ze % n
    ensures j % (n - 1) == zo % (n - 1)
  {
    AsEven(n, ze, zo);
    AsOdd(n, ze, zo);
    Residue(j, ze, zo - ze, n);
    Residue(j, zo, zo - ze, n - 1);
  }

  lemma Residue(j: int, z: int, t: int, n: int)
    requires n > 0 && j == z + t * n
    ensures j % n == z % n
  {
    ModShift(z, t, n);
  }

  lemma AsEven(n: int, ze: int, zo: int)
    ensures n * zo - (n - 1) * ze == ze + (zo - ze) * n
  {
  }

  lemma AsOdd(n: int, ze: int, zo: int)
    ensures n * zo - (n - 1) * ze == zo + (zo - ze) * (n - 1)
  {
  }

  // ---------------------------------------------------------------- the decoders

  datatype Report = Report(lat: int, lon: int)

  datatype Position = Position(lat: real, lon: real)

  function Abs(x: real): real {
    if x < 0.0 then -x else x
  }

  function WrapLat(x: real): real {
    if x >= 270.0 then x - 360.0 else x
  }

  function WrapLon(x: real): real {
    if x > 180.0 then x - 360.0 else x
  }

  /** The number of longitude zones for the report used, Source/Aviation/ADSB.cpp:471 and 517. */
  function LonZones(nl: int, useEven: bool): (ni: int)
    ensures ni >= 1
  {
    Max(nl - (if useEven then 0 else 1), 1)
  }

  function Longitude(nl: int, even: Report, odd: Report, useEven: bool, circle: real): real {
    var ni := LonZones(nl, useEven);
    var m := ZoneIndex(nl, even.lon, odd.lon);
    ZoneValue(ni, m, if useEven then even.lon else odd.lon, circle)
  }

  /** Source/Aviation/ADSB.cpp:447-485, with NL as a parameter. */
  function DecodeAirborne(nl: real -> int, even: Report, odd: Report, useEven: bool): Option<Position> {
    var j := ZoneIndex(60, even.lat, odd.lat);
    var latEven := WrapLat(ZoneValue(60, j, even.lat, 360.0));
    var latOdd := WrapLat(ZoneValue(59, j, odd.lat, 360.0));
    if Abs(latEven) > 90.0 || Abs(latOdd) > 90.0 then None
    else if nl(latEven) != nl(latOdd) then None
    else Some(Position(if useEven then latEven else latOdd,
                       WrapLon(Longitude(nl(latEven), even, odd, useEven, 360.0))))
  }

  /** The candidate within a quarter turn of the reference, Source/Aviation/ADSB.cpp:515 and 523. */
  function NearReference(x: real, ref: real): real {
    x - 90.0 * ((x - ref + 45.0) / 90.0).Floor as real
  }

  /** Source/Aviation/ADSB.cpp:487-528, after the check that a reference position is known. */
  function DecodeSurface(nl: real -> int, refLat: real, refLon: real, even: Report, odd: Report, useEven: bool)
    : Option<Position> {
    var j := ZoneIndex(60, even.lat, odd.lat);
    var latEven := ZoneValue(60, j, even.lat, 90.0);
    var latOdd := ZoneValue(59, j, odd.lat, 90.0);
    if nl(latEven) != nl(latOdd) then None
    else Some(Position(NearReference(if useEven then latEven else latOdd, refLat),
                       NearReference(Longitude(nl(latEven), even, odd, useEven, 90.0), refLon)))
  }

  // ---------------------------------------------------------------- longitude

  /** The bound for longitudes; a single zone needs none. */
  predicate LonCloseEnough(nl: int, le: real, lo: real, circle: real)
    requires circle > 0.0
  {
    nl >= 2 ==> CloseEnough(nl, le, lo, circle)
  }

  lemma LongitudeDecodes(nl: int, le: real, lo: real, even: Report, odd: Report, useEven: bool, circle: real)
    requires nl >= 1 && circle > 0.0 && LonCloseEnough(nl, le, lo, circle)
    requires even.lon == Encode17(Zones(le, LonZones(nl, true), circle))
    requires odd.lon == Encode17(Zones(lo, LonZones(nl, false), circle))
    ensures Congruent(Longitude(nl, even, odd, useEven, circle),
                      Quantized(if useEven then le else lo, LonZones(nl, useEven), circle), circle)
  {
    if nl >= 2 {
      PairDecodes(nl, le, lo, circle);
    } else {
      var m := ZoneIndex(1, even.lon, odd.lon);
      OneZone(m, Round17(Zones(if useEven then le else lo, 1, circle)) / SCALE);
      Recovered(1, m, if useEven then le else lo, circle);
    }
  }

  lemma OneZone(a: int, b: int)
    ensures a % 1 == b % 1
  {
  }

  // ---------------------------------------------------------------- ranges

  lemma ZoneValueRange(n: int, j: int, y: int, circle: real)
    requires n > 0 && circle > 0.0 && 0 <= y < SCALE
    ensures 0.0 <= ZoneValue(n, j, y, circle) < circle
  {
    ModIsEuclidean(j, n);
    var t := Mod(j, n) as real + y as real / 131072.0;
    assert 0.0 <= t < n as real;
    var step := circle / n as real;
    assert step * n as real == circle;
    BelowProduct(step, t, n as real);
  }

  lemma BelowProduct(step: real, t: real, n: real)
    requires step > 0.0 && 0.0 <= t < n
    ensures 0.0 <= step * t < step * n
  {
  }

  lemma TurnsStep(k: int, circle: real)
    requires circle > 0.0
    ensures k >= 1 ==> Turns(k, circle) >= circle
    ensures k <= -1 ==> Turns(k, circle) <= -circle
    ensures k == 0 ==> Turns(k, circle) == 0.0
    ensures k == 1 ==> Turns(k, circle) == circle
    ensures k >= 2 ==> Turns(k, circle) >= circle + circle
  {
    assert k >= 1 ==> (k - 1) as real * circle >= 0.0;
    assert k <= -1 ==> (-1 - k) as real * circle >= 0.0;
    assert k >= 2 ==> (k - 2) as real * circle >= 0.0;
  }

  /** A decoded latitude is the quantized one, counted from the south pole on for a whole turn. */
  lemma LatitudeSettled(v: real, q: real)
    requires 0.0 <= v < 360.0 && Congruent(v, q, 360.0) && -90.0 <= q < 270.0
    ensures WrapLat(v) == q
  {
    var k :| v == q + Turns(k, 360.0);
    TurnsStep(k, 360.0);
  }

  /** Both poles are on both grids, so no latitude is rounded past a pole. */
  lemma PolesOnGrid(p: real, n: int)
    requires -90.0 <= p <= 90.0 && (n == 60 || n == 59)
    ensures -90.0 <= Quantized(p, n, 360.0) <= 90.0
  {
    var u := Zones(p, n, 360.0);
    if n == 60 {
      assert -15.0 <= u <= 15.0;
      assert -1966080 <= Round17(u) <= 1966080;
    } else {
      assert -14.75 <= u <= 14.75;
      assert -1933312 <= Round17(u) <= 1933312;
    }
  }

  /**
   Airborne decoding is exact. Two reports of positions (pe, le) and (po, lo), encoded with the zone counts of
   their own quantized latitudes, are accepted exactly when neither latitude lies past a pole and both lie in the
   same longitude zone band; and then the position used comes back on its grid. The encoding leaves room for a
   whole turn of latitudes, counted here from the south pole; those of no place on Earth are refused. Longitudes
   are any reals, so positions on two sides of the antimeridian are covered by adding a turn to one of them.
   */
  lemma AirborneDecodes(nl: real -> int, pe: real, le: real, po: real, lo: real, even: Report, odd: Report,
                        useEven: bool)
    requires forall x :: nl(x) >= 1
    requires -90.0 <= Quantized(pe, 60, 360.0) < 270.0 && -90.0 <= Quantized(po, 59, 360.0) < 270.0
    requires CloseEnough(60, pe, po, 360.0)
    requires LonCloseEnough(nl(Quantized(pe, 60, 360.0)), le, lo, 360.0)
    requires even == Report(Encode17(Zones(pe, 60, 360.0)),
                            Encode17(Zones(le, LonZones(nl(Quantized(pe, 60, 360.0)), true), 360.0)))
    requires odd == Report(Encode17(Zones(po, 59, 360.0)),
                           Encode17(Zones(lo, LonZones(nl(Quantized(po, 59, 360.0)), false), 360.0)))
    ensures var qe, qo := Quantized(pe, 60, 360.0), Quantized(po, 59, 360.0);
            var r := DecodeAirborne(nl, even, odd, useEven);
            && (r.Some? <==> Abs(qe) <= 90.0 && Abs(qo) <= 90.0 && nl(qe) == nl(qo))
            && (r.Some? ==>
                  && r.value.lat == (if useEven then qe else qo)
                  && -180.0 < r.value.lon <= 180.0
                  && Congruent(r.value.lon,
                               Quantized(if useEven then le else lo, LonZones(nl(qe), useEven), 360.0), 360.0))
  {
    var qe, qo := Quantized(pe, 60, 360.0), Quantized(po, 59, 360.0);
    PairDecodes(60, pe, po, 360.0);
    var j := ZoneIndex(60, even.lat, odd.lat);
    ZoneValueRange(60, j, even.lat, 360.0);
    ZoneValueRange(59, j, odd.lat, 360.0);
    LatitudeSettled(ZoneValue(60, j, even.lat, 360.0), qe);
    LatitudeSettled(ZoneValue(59, j, odd.lat, 360.0), qo);
    if Abs(qe) <= 90.0 && Abs(qo) <= 90.0 && nl(qe) == nl(qo) {
      LongitudeDecodes(nl(qe), le, lo, even, odd, useEven, 360.0);
      WrapKeeps(nl(qe), even, odd, useEven, Quantized(if useEven then le else lo, LonZones(nl(qe), useEven), 360.0));
    }
  }

  /** Of places on Earth exactly the pairs of reports from one longitude zone band are accepted. */
  lemma EarthDecodes(nl: real -> int, pe: real, le: real, po: real, lo: real, even: Report, odd: Report, useEven: bool)
    requires forall x :: nl(x) >= 1
    requires -90.0 <= pe <= 90.0 && -90.0 <= po <= 90.0 && CloseEnough(60, pe, po, 360.0)
    requires LonCloseEnough(nl(Quantized(pe, 60, 360.0)), le, lo, 360.0)
    requires even == Report(Encode17(Zones(pe, 60, 360.0)),
                            Encode17(Zones(le, LonZones(nl(Quantized(pe, 60, 360.0)), true), 360.0)))
    requires odd == Report(Encode17(Zones(po, 59, 360.0)),
                           Encode17(Zones(lo, LonZones(nl(Quantized(po, 59, 360.0)), false), 360.0)))
    ensures DecodeAirborne(nl, even, odd, useEven).Some?
       <==> nl(Quantized(pe, 60, 360.0)) == nl(Quantized(po, 59, 360.0))
  {
    PolesOnGrid(pe, 60);
    PolesOnGrid(po, 59);
    AirborneDecodes(nl, pe, le, po, lo, even, odd, useEven);
  }

  lemma WrapKeeps(nl: int, even: Report, odd: Report, useEven: bool, q: real)
    requires 0 <= even.lon < SCALE && 0 <= odd.lon < SCALE
    requires Congruent(Longitude(nl, even, odd, useEven, 360.0), q, 360.0)
    ensures -180.0 < WrapLon(Longitude(nl, even, odd, useEven, 360.0)) <= 180.0
    ensures Congruent(WrapLon(Longitude(nl, even, odd, useEven, 360.0)), q, 360.0)
  {
    var ni := LonZones(nl, useEven);
    var m := ZoneIndex(nl, even.lon, odd.lon);
    ZoneValueRange(ni, m, if useEven then even.lon else odd.lon, 360.0);
    var x := Longitude(nl, even, odd, useEven, 360.0);
    var k :| x == q + Turns(k, 360.0);
    assert x - 360.0 == q + Turns(k - 1, 360.0);
  }

  // ---------------------------------------------------------------- on the surface

  /** What the decoder takes for the latitude while it looks up the longitude zones: always in the first quarter. */
  function Candidate(q: real): real {
    if q < 0.0 then q + 90.0 else if q >= 90.0 then q - 90.0 else q
  }

  lemma CandidateSettled(v: real, q: real)
    requires 0.0 <= v < 90.0 && Congruent(v, q, 90.0) && -90.0 <= q < 180.0
    ensures v == Candidate(q)
  {
    var k :| v == q + Turns(k, 90.0);
    TurnsStep(k, 90.0);
    TurnsStep(-k, 90.0);
    assert Turns(-k, 90.0) == -Turns(k, 90.0);
  }

  /** The choice near the reference is the only one there that is congruent. */
  lemma NearReferenceIs(x: real, q: real, ref: real)
    requires Congruent(x, q, 90.0)
    ensures ref - 45.0 <= NearReference(x, ref) < ref + 45.0
    ensures Congruent(NearReference(x, ref), q, 90.0)
    ensures ref - 45.0 <= q < ref + 45.0 ==> NearReference(x, ref) == q
  {
    var k :| x == q + Turns(k, 90.0);
    var t := ((x - ref + 45.0) / 90.0).Floor;
    var y := NearReference(x, ref);
    assert y == q + Turns(k - t, 90.0);
    TurnsStep(k - t, 90.0);
  }

  /** Two longitudes as encoded with ne zones for the even report and those that no gives for the odd one. */
  function LonReport(le: real, ne: int): (r: int)
    requires ne >= 1
    ensures 0 <= r < SCALE
  {
    Encode17(Zones(le, ne, 90.0))
  }

  /** The longitude that is decoded with n zones from what was encoded with ne and ko. */
  function SurfaceLongitude(ne: int, ko: int, n: int, useEven: bool, le: real, lo: real): real
    requires ne >= 1 && ko >= 1
  {
    Longitude(n, Report(0, LonReport(le, ne)), Report(0, LonReport(lo, ko)), useEven, 90.0)
  }

  /** What it should be, up to quarter turns. */
  function SurfaceTarget(ne: int, ko: int, useEven: bool, le: real, lo: real): real
    requires ne >= 1 && ko >= 1
  {
    if useEven then Quantized(le, ne, 90.0) else Quantized(lo, ko, 90.0)
  }

  ghost predicate LongitudeRight(ne: int, ko: int, n: int, useEven: bool, le: real, lo: real)
    requires ne >= 1 && ko >= 1
  {
    Congruent(SurfaceLongitude(ne, ko, n, useEven, le, lo), SurfaceTarget(ne, ko, useEven, le, lo), 90.0)
  }

  /**
   Whether the number n of zones looked up fits the encoded reports, of ne zones (even) and ko zones (odd): the
   count of the report used must be right, and the other one too unless there is but one zone to choose from.
   */
  predicate CountsAgree(ne: int, ko: int, n: int, useEven: bool) {
    var used, other := if useEven then ne else ko, if useEven then ko else ne;
    && used == LonZones(n, useEven)
    && (used == 1 || other == LonZones(n, !useEven))
  }

  lemma CountsSuffice(ne: int, ko: int, n: int, useEven: bool, le: real, lo: real)
    requires ne >= 1 && ko >= 1 && n >= 1 && CountsAgree(ne, ko, n, useEven) && LonCloseEnough(ne, le, lo, 90.0)
    ensures LongitudeRight(ne, ko, n, useEven, le, lo)
  {
    var even, odd := Report(0, LonReport(le, ne)), Report(0, LonReport(lo, ko));
    if LonZones(n, useEven) == 1 {
      var p := if useEven then le else lo;
      var m := ZoneIndex(n, even.lon, odd.lon);
      OneZone(m, Round17(Zones(p, 1, 90.0)) / SCALE);
      Recovered(1, m, p, 90.0);
    } else {
      LongitudeDecodes(n, le, lo, even, odd, useEven, 90.0);
    }
  }

  // ---------------------------------------------------------------- when the counts do not agree

  /** The point y steps from the origin of k zones. */
  function Place(y: int, k: int): real
    requires k >= 1
  {
    90.0 / k as real * (y as real / 131072.0)
  }

  lemma PlaceEncodes(y: int, k: int)
    requires 0 <= y < SCALE && k >= 1
    ensures LonReport(Place(y, k), k) == y && Quantized(Place(y, k), k, 90.0) == Place(y, k)
  {
    var step, u := 90.0 / k as real, y as real / 131072.0;
    assert step * k as real == 90.0;
    RealAssoc(step, u, k as real);
    assert Zones(Place(y, k), k, 90.0) == u;
    assert Round17(u) == y;
    EncodeIsRound(u);
  }

  /** In l zones the same point is this many steps from the origin, rounded. */
  lemma PlaceRounds(y: int, k: int, l: int) returns (r: int)
    requires 0 <= y < SCALE && k >= 1 && l >= 1
    ensures LonReport(Place(y, k), l) == r % SCALE
    ensures -k <= 2 * (k * r) - 2 * (y * l) <= k
  {
    var p, u := Place(y, k), Zones(Place(y, k), l, 90.0);
    r := Round17(u);
    EncodeIsRound(u);
    RoundError(u);
    var step, t := 90.0 / k as real, y as real / 131072.0;
    assert step * k as real == 90.0;
    RealAssoc(step, t, k as real);
    assert p * k as real == t * 90.0;
    ScaledPlace(p, t, k as real, l as real, u);
    assert (y * l) as real == y as real * l as real;
    var d := r as real - 131072.0 * u;
    Scaled(k, d);
    assert (k * r) as real == k as real * r as real;
    assert k as real * d == k as real * r as real - 131072.0 * (k as real * u) by {
      RealDistribute(k as real, r as real, -131072.0 * u);
    }
    assert 131072.0 * (k as real * u) == (y * l) as real by {
      assert 131072.0 * (t * l as real) == (131072.0 * t) * l as real;
    }
  }

  lemma ScaledPlace(p: real, t: real, k: real, l: real, u: real)
    requires p * k == t * 90.0 && u == p * l / 90.0
    ensures k * u == t * l
  {
    assert u * 90.0 == p * l;
    RealAssoc(k, u, 90.0);
    assert (k * u) * 90.0 == k * (p * l);
    RealAssoc(p, k, l);
    RealSwap(p, k, l);
    assert k * (p * l) == (p * k) * l == (t * 90.0) * l;
    RealAssoc(t, 90.0, l);
    RealSwap(90.0, t, l);
    assert (t * 90.0) * l == 90.0 * (t * l);
    RealCancel(k * u, t * l, 90.0);
  }

  /** The zone index when one of the two reports is known up to whole zones only. */
  lemma IndexOfRestOdd(n: int, e: int, o: int)
    requires n >= 1
    ensures ZoneIndex(n, e, o % SCALE) % n == ZoneIndex(n, e, o) % n
  {
    var z, y := o / SCALE, o % SCALE;
    assert o == z * SCALE + y;
    MulAdd(z * SCALE, y, n);
    MulAssoc(z, SCALE, n);
    MulAssoc(z, n, SCALE);
    WholeZones(e * (n - 1) - o * n, z * n, e * (n - 1) - y * n);
    ModShift(ZoneIndex(n, e, o), z, n);
  }

  lemma IndexOfRestEven(n: int, e: int, o: int)
    requires n >= 2
    ensures ZoneIndex(n, e % SCALE, o) % (n - 1) == ZoneIndex(n, e, o) % (n - 1)
  {
    var z, y := e / SCALE, e % SCALE;
    assert e == z * SCALE + y;
    MulAdd(z * SCALE, y, n - 1);
    MulAssoc(z, SCALE, n - 1);
    MulAssoc(z, n - 1, SCALE);
    MulAdd(0, z, n - 1);
    MulAdd(0, z * (n - 1), SCALE);
    WholeZones(e * (n - 1) - o * n, -(z * (n - 1)), y * (n - 1) - o * n);
    ModShift(ZoneIndex(n, e, o), -z, n - 1);
  }

  lemma WholeZones(a: int, z: int, b: int)
    requires b == a + z * SCALE
    ensures (b as real / 131072.0 + 0.5).Floor == (a as real / 131072.0 + 0.5).Floor + z
  {
    assert b as real / 131072.0 == a as real / 131072.0 + z as real;
  }

  lemma Apart90(x: real, y: real)
    requires 0.0 <= x < 90.0 && 0.0 <= y < 90.0 && x != y
    ensures !Congruent(x, y, 90.0)
  {
    if Congruent(x, y, 90.0) {
      var k :| x == y + Turns(k, 90.0);
      TurnsStep(k, 90.0);
    }
  }

  /** A wrong count for the report used: one step from the origin is decoded as one step of another size. */
  lemma WrongUsed(ne: int, ko: int, n: int, useEven: bool)
    requires 1 <= ne <= 59 && 1 <= ko <= 59 && 1 <= n <= 59
    requires (if useEven then ne else ko) != LonZones(n, useEven)
    ensures var p := Place(1, if useEven then ne else ko); !LongitudeRight(ne, ko, n, useEven, p, p)
  {
    var k, l, ni := if useEven then ne else ko, if useEven then ko else ne, LonZones(n, useEven);
    var p := Place(1, k);
    PlaceEncodes(1, k);
    var r := PlaceRounds(1, k, l);
    SmallRound(k, l, r);
    assert r % SCALE == r;
    IndexIsZero(n, if useEven then 1 else r, if useEven then r else 1);
    assert Mod(0, ni) == 0;
    assert SurfaceLongitude(ne, ko, n, useEven, p, p) == Place(1, ni);
    StepsDiffer(k, ni);
    Apart90(Place(1, ni), Place(1, k));
  }

  lemma ProductBounds(k: int, r: int)
    requires k >= 1
    ensures r <= -1 ==> k * r <= -k
    ensures r >= 60 ==> k * r >= k * 60
  {
    if r <= -1 {
      MulMonotone(r, -1, k);
    } else if r >= 60 {
      MulMonotone(60, r, k);
    }
  }

  lemma SmallRound(k: int, l: int, r: int)
    requires 1 <= k && 1 <= l <= 59 && -k <= 2 * (k * r) - 2 * (1 * l) <= k
    ensures 0 <= r <= 59
  {
    ProductBounds(k, r);
  }

  lemma IndexIsZero(n: int, e: int, o: int)
    requires 1 <= n <= 59 && 0 <= e <= 59 && 0 <= o <= 59
    ensures ZoneIndex(n, e, o) == 0
  {
    assert 0 <= e * (n - 1) <= 59 * 58 by {
      MulMonotone(e, 59, n - 1);
    }
    assert 0 <= o * n <= 59 * 59 by {
      MulMonotone(o, 59, n);
    }
  }

  lemma StepOfZone(k: int)
    requires k >= 1
    ensures 90.0 / k as real * k as real == 90.0 && 0.0 < 90.0 / k as real <= 90.0
  {
  }

  lemma SameStep(k: int, l: int)
    requires k >= 1 && l >= 1
    ensures 90.0 / k as real == 90.0 / l as real ==> k == l
  {
    StepOfZone(k);
    StepOfZone(l);
    if 90.0 / k as real == 90.0 / l as real {
      RealCancel(k as real, l as real, 90.0 / k as real);
    }
  }

  lemma StepsDiffer(k: int, l: int)
    requires k >= 1 && l >= 1 && k != l
    ensures Place(1, k) != Place(1, l) && 0.0 <= Place(1, k) < 90.0 && 0.0 <= Place(1, l) < 90.0
  {
    StepOfZone(k);
    StepOfZone(l);
    SameStep(k, l);
  }

  /** A wrong count for the other report: a point in the first zone is decoded into another zone. */
  lemma WrongOdd(ne: int, ko: int) returns (p: real)
    requires 2 <= ne <= 59 && 1 <= ko <= 59 && ko != ne - 1
    ensures !LongitudeRight(ne, ko, ne, true, p, p)
  {
    var y := ThreeQuarters(ne - 1 - ko);
    p := Place(y, ne);
    PlaceEncodes(y, ne);
    var r := PlaceRounds(y, ne, ko);
    WrongIndex(ne, y, r, y, ne - 1 - ko, ne, r, true, ko);
    IndexOfRestOdd(ne, y, r);
    Elsewhere(ZoneIndex(ne, y, r % SCALE), ne, y);
  }

  lemma WrongEven(ne: int, n: int) returns (p: real)
    requires 1 <= ne <= 59 && 3 <= n <= 59 && ne != n
    ensures !LongitudeRight(ne, n - 1, n, false, p, p)
  {
    var y := ThreeQuarters(ne - n);
    p := Place(y, n - 1);
    PlaceEncodes(y, n - 1);
    var r := PlaceRounds(y, n - 1, ne);
    WrongIndex(n, r, y, y, ne - n, n - 1, r, false, ne);
    IndexOfRestEven(n, r, y);
    Elsewhere(ZoneIndex(n, r % SCALE, y), n - 1, y);
  }

  lemma Elsewhere(m: int, k: int, y: int)
    requires k > 1 && 0 <= y < SCALE && (m % k == 1 % k || m % k == (-1) % k)
    ensures !Congruent(ZoneValue(k, m, y, 90.0), Place(y, k), 90.0)
  {
    ModIsEuclidean(m, k);
    OtherZone(m, k);
    AnotherZone(k, Mod(m, k), y);
  }

  /** A number of steps that makes about three quarters of a zone's worth of difference. */
  lemma ThreeQuarters(d: int) returns (y: int)
    requires d != 0 && -59 <= d <= 59
    ensures 0 <= y < SCALE
    ensures if d > 0 then 98304 - 59 <= y * d <= 98304 else -98304 <= y * d <= -98304 + 59
  {
    var a := if d > 0 then d else -d;
    y := 98304 / a;
    DivMod(98304, a);
    assert y * -a == -(y * a);
    if y >= SCALE {
      MulMonotone(1, a, y);
    }
  }

  lemma WrongIndex(n: int, e: int, o: int, y: int, d: int, k: int, r: int, useEven: bool, l: int)
    requires 1 <= k <= 59 && -k <= 2 * (k * r) - 2 * (y * l) <= k
    requires if useEven then k == n && e == y && o == r && d == n - 1 - l
             else k == n - 1 && e == r && o == y && d == l - n
    requires d != 0 && if d > 0 then 98304 - 59 <= y * d <= 98304 else -98304 <= y * d <= -98304 + 59
    ensures ZoneIndex(n, e, o) == if d > 0 then 1 else -1
  {
    var t := e * (n - 1) - o * n;
    if useEven {
      Difference(y, n - 1, l, d);
      assert t == y * (n - 1) - k * r;
    } else {
      Difference(y, l, n, d);
      assert t == k * r - y * n;
    }
    RoundsTo(t, d > 0);
  }

  lemma Difference(y: int, a: int, b: int, d: int)
    requires d == a - b
    ensures y * d == y * a - y * b
  {
  }

  lemma RoundsTo(t: int, up: bool)
    requires if up then 98200 <= t <= 98400 else -98400 <= t <= -98200
    ensures (t as real / 131072.0 + 0.5).Floor == if up then 1 else -1
  {
  }

  lemma OtherZone(m: int, k: int)
    requires k > 1 && (m % k == 1 % k || m % k == (-1) % k)
    ensures 0 < m % k < k
  {
    DivModUnique(0, k, 1);
    DivModUnique(-1, k, k - 1);
  }

  lemma AnotherZone(k: int, z: int, y: int)
    requires 0 < z < k && 0 <= y < SCALE
    ensures !Congruent(90.0 / k as real * (z as real + y as real / 131072.0), Place(y, k), 90.0)
  {
    var step, u := 90.0 / k as real, y as real / 131072.0;
    StepOfZone(k);
    assert z as real + 1.0 == (z + 1) as real <= k as real;
    FurtherOn(step, z as real, u, k as real);
    Apart90(step * (z as real + u), step * u);
  }

  lemma FurtherOn(step: real, z: real, u: real, k: real)
    requires step > 0.0 && step * k == 90.0 && 0.0 <= u < 1.0 && 0.0 < z && z + 1.0 <= k
    ensures 0.0 <= step * u < step * (z + u) < 90.0
  {
    BelowProduct(step, z + u, k);
    BelowProduct(step, u, z + u);
  }

  /** At one place, both longitudes are close for every number of zones there is. */
  lemma SamePlaceIsClose(n: int, p: real)
    requires 1 <= n <= 59
    ensures LonCloseEnough(n, p, p, 90.0)
  {
    assert (n * (n - 1)) as real * (p - p) == 0.0;
  }

  /** All close pairs of longitudes are decoded to the right one. */
  ghost predicate LongitudesRight(ne: int, ko: int, n: int, useEven: bool)
    requires ne >= 1 && ko >= 1
  {
    forall le, lo :: LonCloseEnough(ne, le, lo, 90.0) ==> LongitudeRight(ne, ko, n, useEven, le, lo)
  }

  lemma LongitudesRightIff(ne: int, ko: int, n: int, useEven: bool)
    requires 1 <= ne <= 59 && 1 <= ko <= 59 && 1 <= n <= 59
    ensures LongitudesRight(ne, ko, n, useEven) <==> CountsAgree(ne, ko, n, useEven)
  {
    if CountsAgree(ne, ko, n, useEven) {
      forall le, lo | LonCloseEnough(ne, le, lo, 90.0)
        ensures LongitudeRight(ne, ko, n, useEven, le, lo)
      {
        CountsSuffice(ne, ko, n, useEven, le, lo);
      }
    } else if (if useEven then ne else ko) != LonZones(n, useEven) {
      var p := Place(1, if useEven then ne else ko);
      WrongUsed(ne, ko, n, useEven);
      SamePlaceIsClose(ne, p);
    } else {
      var p;
      if useEven {
        p := WrongOdd(ne, ko);
      } else {
        p := WrongEven(ne, n);
      }
      SamePlaceIsClose(ne, p);
    }
  }

  /** The even report of a position, encoded with the number of zones of its own quantized latitude. */
  function EvenReport(nl: real -> int, pe: real, le: real): Report
    requires nl(Quantized(pe, 60, 90.0)) >= 1
  {
    Report(Encode17(Zones(pe, 60, 90.0)), LonReport(le, nl(Quantized(pe, 60, 90.0))))
  }

  function OddReport(nl: real -> int, po: real, lo: real): Report {
    Report(Encode17(Zones(po, 59, 90.0)), LonReport(lo, LonZones(nl(Quantized(po, 59, 90.0)), false)))
  }

  /** The position of the report used comes back: its latitude, and its longitude up to quarter turns. */
  ghost predicate SurfaceRight(nl: real -> int, refLat: real, refLon: real, pe: real, le: real, po: real, lo: real,
                               useEven: bool)
    requires nl(Quantized(pe, 60, 90.0)) >= 1
  {
    var qe, qo := Quantized(pe, 60, 90.0), Quantized(po, 59, 90.0);
    var r := DecodeSurface(nl, refLat, refLon, EvenReport(nl, pe, le), OddReport(nl, po, lo), useEven);
    && r.Some? && r.value.lat == (if useEven then qe else qo)
    && refLon - 45.0 <= r.value.lon < refLon + 45.0
    && Congruent(r.value.lon, SurfaceTarget(nl(qe), LonZones(nl(qo), false), useEven, le, lo), 90.0)
  }

  /** Values of NL. */
  ghost predicate ZoneCounts(nl: real -> int) {
    forall x :: 1 <= nl(x) <= 59
  }

  /** Latitudes on the surface that the decoder can tell apart from those a quarter turn away. */
  predicate SurfaceLatitudes(pe: real, po: real, refLat: real, useEven: bool) {
    var qe, qo := Quantized(pe, 60, 90.0), Quantized(po, 59, 90.0);
    && CloseEnough(60, pe, po, 90.0) && -90.0 <= qe <= 90.0 && -90.0 <= qo <= 90.0
    && refLat - 45.0 <= (if useEven then qe else qo) < refLat + 45.0
  }

  /**
   What surface decoding gives: the reports are refused exactly when the two candidate latitudes lie in different
   zone bands; else the latitude is the encoded one, and the longitude the one near the reference that is
   congruent to what the looked-up number of zones makes of the reports.
   */
  lemma SurfaceGives(nl: real -> int, refLat: real, refLon: real, pe: real, le: real, po: real, lo: real,
                     useEven: bool)
    requires ZoneCounts(nl) && SurfaceLatitudes(pe, po, refLat, useEven)
    ensures var qe, qo := Quantized(pe, 60, 90.0), Quantized(po, 59, 90.0);
            var r := DecodeSurface(nl, refLat, refLon, EvenReport(nl, pe, le), OddReport(nl, po, lo), useEven);
            var x := SurfaceLongitude(nl(qe), LonZones(nl(qo), false), nl(Candidate(qe)), useEven, le, lo);
            && (r.Some? <==> nl(Candidate(qe)) == nl(Candidate(qo)))
            && (r.Some? ==> r.value == Position(if useEven then qe else qo, NearReference(x, refLon)))
  {
    var qe, qo := Quantized(pe, 60, 90.0), Quantized(po, 59, 90.0);
    var even, odd := EvenReport(nl, pe, le), OddReport(nl, po, lo);
    PairDecodes(60, pe, po, 90.0);
    var j := ZoneIndex(60, even.lat, odd.lat);
    var ve, vo := ZoneValue(60, j, even.lat, 90.0), ZoneValue(59, j, odd.lat, 90.0);
    ZoneValueRange(60, j, even.lat, 90.0);
    ZoneValueRange(59, j, odd.lat, 90.0);
    CandidateSettled(ve, qe);
    CandidateSettled(vo, qo);
    NearReferenceIs(if useEven then ve else vo, if useEven then qe else qo, refLat);
  }

  lemma NearIsCongruent(x: real, ref: real, q: real)
    ensures ref - 45.0 <= NearReference(x, ref) < ref + 45.0
    ensures Congruent(NearReference(x, ref), q, 90.0) <==> Congruent(x, q, 90.0)
  {
    assert x == x + Turns(0, 90.0);
    NearReferenceIs(x, x, ref);
    if Congruent(x, q, 90.0) {
      NearReferenceIs(x, q, ref);
    }
    var t := ((x - ref + 45.0) / 90.0).Floor;
    if Congruent(NearReference(x, ref), q, 90.0) {
      var k :| NearReference(x, ref) == q + Turns(k, 90.0);
      assert x == q + Turns(k + t, 90.0);
    }
  }

  /**
   For all latitudes, exactly when the surface decoder is right: two reports whose candidate latitudes lie in one
   zone band are decoded to the position of the report used, for all close longitudes, if and only if the number of
   zones looked up for the candidate agrees with those the reports were encoded with.
   */
  lemma SurfaceDecodes(nl: real -> int, refLat: real, refLon: real, pe: real, po: real, useEven: bool)
    requires ZoneCounts(nl) && SurfaceLatitudes(pe, po, refLat, useEven)
    ensures var qe, qo := Quantized(pe, 60, 90.0), Quantized(po, 59, 90.0);
            (forall le, lo :: LonCloseEnough(nl(qe), le, lo, 90.0) ==>
               SurfaceRight(nl, refLat, refLon, pe, le, po, lo, useEven))
            <==>
            && nl(Candidate(qe)) == nl(Candidate(qo))
            && CountsAgree(nl(qe), LonZones(nl(qo), false), nl(Candidate(qe)), useEven)
  {
    var qe, qo := Quantized(pe, 60, 90.0), Quantized(po, 59, 90.0);
    var ne, ko, n := nl(qe), LonZones(nl(qo), false), nl(Candidate(qe));
    forall le, lo
      ensures SurfaceRight(nl, refLat, refLon, pe, le, po, lo, useEven)
        <==> n == nl(Candidate(qo)) && LongitudeRight(ne, ko, n, useEven, le, lo)
    {
      SurfaceGives(nl, refLat, refLon, pe, le, po, lo, useEven);
      NearIsCongruent(SurfaceLongitude(ne, ko, n, useEven, le, lo), refLon, SurfaceTarget(ne, ko, useEven, le, lo));
    }
    LongitudesRightIff(ne, ko, n, useEven);
    SamePlaceIsClose(ne, 0.0);
  }

  /**
   North of the equator the candidate is the latitude itself and the counts always agree: every pair of reports
   from one zone band is decoded.
   */
  lemma NorthDecodes(nl: real -> int, refLat: real, refLon: real, pe: real, le: real, po: real, lo: real,
                     useEven: bool)
    requires ZoneCounts(nl) && SurfaceLatitudes(pe, po, refLat, useEven)
    requires 0.0 <= Quantized(pe, 60, 90.0) < 90.0 && 0.0 <= Quantized(po, 59, 90.0) < 90.0
    requires LonCloseEnough(nl(Quantized(pe, 60, 90.0)), le, lo, 90.0)
    ensures SurfaceRight(nl, refLat, refLon, pe, le, po, lo, useEven)
      <==> nl(Quantized(pe, 60, 90.0)) == nl(Quantized(po, 59, 90.0))
  {
    SurfaceDecodes(nl, refLat, refLon, pe, po, useEven);
    SurfaceGives(nl, refLat, refLon, pe, le, po, lo, useEven);
  }

  /** Two of the values of NL: 51 zones at 30 degrees from the equator, 29 at 60. */
  function Bands(x: real): int {
    if -45.0 < x < 45.0 then 51 else 29
  }

  /**
   South of the equator the zone count belongs to another latitude: two reports of 30 degrees south, 10 degrees
   east, received right there, decode to the right latitude and to a longitude more than a degree away.
   */
  lemma SouthernLongitudeIsWrong()
    ensures var even := Report(Encode17(Zones(-30.0, 60, 90.0)),
                               Encode17(Zones(10.0, LonZones(Bands(-30.0), true), 90.0)));
            var odd := Report(Encode17(Zones(-30.0, 59, 90.0)),
                              Encode17(Zones(10.0, LonZones(Bands(-30.0), false), 90.0)));
            var r := DecodeSurface(Bands, -30.0, 10.0, even, odd, true);
            r.Some? && r.value.lat == -30.0 && r.value.lon > 11.0
  {
    assert Encode17(Zones(-30.0, 60, 90.0)) == 0;
    assert Encode17(Zones(-30.0, 59, 90.0)) == 43691;
    assert Encode17(Zones(10.0, 51, 90.0)) == 87381;
    assert Encode17(Zones(10.0, 50, 90.0)) == 72818;
    assert ZoneIndex(60, 0, 43691) == -20;
    assert ZoneValue(60, -20, 0, 90.0) == 60.0;
    assert Mod(-20, 59) == 39;
    assert ZoneValue(59, -20, 43691, 90.0) > 59.0;
    assert ZoneIndex(29, 87381, 72818) == 3;
    assert Mod(3, 29) == 3;
    assert 11.0 < ZoneValue(29, 3, 87381, 90.0) < 12.0;
  }
}
