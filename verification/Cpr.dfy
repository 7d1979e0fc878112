/** Compact position reporting (server/src/adsb/cpr.rs:8-91) over exact reals, and
    the encoder of section A.1.7 of Appendix A of RTCA DO-260B it must undo. The
    number of longitude zones at a latitude is a parameter. */
module Cpr {
  import opened Wrappers
  import opened Basics

  type Zones = n: int | 1 <= n <= 59 witness 1

  /** 2 to the power 17. */
  const M: int := 131072
  const SCALE: real := 131072.0

  function FloorMod(a: real, b: real): real
    requires b != 0.0
  {
    a - b * (a / b).Floor as real
  }

  /** The zone index from the even and odd fractions, for n even and n - 1 odd zones. */
  function Index(n: int, even: real, odd: real): int {
    ((n - 1) as real * even - n as real * odd + 0.5).Floor
  }

  /** A position from a zone index and a fraction, with `zones` zones to the turn. */
  function InZone(zones: int, index: int, fraction: real): real
    requires zones >= 1
  {
    360.0 / zones as real * (FloorMod(index as real, zones as real) + fraction)
  }

  function DecodeGlobal(even: (int, int), odd: (int, int), latestOdd: bool, nl: real -> Zones): Option<(real, real)> {
    var (yzE, xzE) := (even.0 as real / SCALE, even.1 as real / SCALE);
    var (yzO, xzO) := (odd.0 as real / SCALE, odd.1 as real / SCALE);
    var j := Index(60, yzE, yzO);
    var rlatE := Southern(InZone(60, j, yzE));
    var rlatO := Southern(InZone(59, j, yzO));
    if !(-90.0 <= rlatE <= 90.0) || !(-90.0 <= rlatO <= 90.0) then None
    else if nl(rlatE) != nl(rlatO) then None
    else
      var rlat := if latestOdd then rlatO else rlatE;
      var n: int := nl(rlat);
      var ni := AtLeastOne(if latestOdd then n - 1 else n);
      var rlon := InZone(ni, Index(n, xzE, xzO), if latestOdd then xzO else xzE);
      Some((rlat, Western(rlon)))
  }

  function Southern(rlat: real): real {
    Wrapped(rlat, 270.0)
  }

  function Western(rlon: real): real {
    Wrapped(rlon, 180.0)
  }

  function Wrapped(x: real, limit: real): real {
    if x >= limit then x - 360.0 else x
  }

  /** The point of zone k with a fraction. */
  function InZones(zone: real, k: int, fraction: real): real {
    zone * (k as real + fraction)
  }

  function DecodeLocal(cpr: (int, int), odd: bool, refLat: real, refLon: real, nl: real -> Zones): (real, real) {
    var yz, xz := cpr.0 as real / SCALE, cpr.1 as real / SCALE;
    var dlat := if odd then 360.0 / 59.0 else 360.0 / 60.0;
    var j := (refLat / dlat).Floor + (FloorMod(refLat, dlat) / dlat - yz + 0.5).Floor;
    var rlat := InZones(dlat, j, yz);
    var n: int := nl(rlat);
    var ni := AtLeastOne(if odd then n - 1 else n) as real;
    var dlon := 360.0 / ni;
    var m := (refLon / dlon).Floor + (FloorMod(refLon, dlon) / dlon - xz + 0.5).Floor;
    (rlat, InZones(dlon, m, xz))
  }

  // ----- The encoder -----

  /** The zone fraction in 2^17 steps, before reduction to 17 bits. */
  function Steps(x: real, zone: real): int
    requires zone > 0.0
  {
    (SCALE * (FloorMod(x, zone) / zone) + 0.5).Floor
  }

  function LatZone(odd: bool): (z: real)
    ensures z > 0.0
  {
    if odd then 360.0 / 59.0 else 360.0 / 60.0
  }

  /** The latitude a receiver recovers, which fixes the number of longitude zones. */
  function RecoveredLat(lat: real, odd: bool): real {
    var zone := LatZone(odd);
    zone * (Steps(lat, zone) as real / SCALE + (lat / zone).Floor as real)
  }

  function LonZones(odd: bool, n: Zones): int {
    AtLeastOne(if odd then n - 1 else n)
  }

  function LonZone(odd: bool, n: Zones): (z: real)
    ensures z > 0.0
  {
    360.0 / LonZones(odd, n) as real
  }

  function Encoded(lat: real, lon: real, odd: bool, nl: real -> Zones): (int, int) {
    (Steps(lat, LatZone(odd)) % M, Steps(lon, LonZone(odd, nl(RecoveredLat(lat, odd)))) % M)
  }

  // ----- Absolute bins -----

  /** The nearest multiple of 2^-17 to a real, in those units. */
  function Bin(u: real): int {
    (SCALE * u + 0.5).Floor
  }

  lemma BinClose(u: real)
    ensures -0.5 <= SCALE * u - Bin(u) as real <= 0.5
  {}

  lemma FractionOf(x: real, zone: real)
    requires zone > 0.0
    ensures FloorMod(x, zone) / zone == x / zone - (x / zone).Floor as real
  {
    var f := (x / zone).Floor as real;
    assert (x - zone * f) / zone == x / zone - f;
  }

  lemma ShiftFloor(x: real, k: int)
    ensures (x + k as real).Floor == x.Floor + k
  {}

  /** The transmitted steps are the absolute bin, reduced by whole zones. */
  lemma StepsAreBin(x: real, zone: real)
    requires zone > 0.0
    ensures Steps(x, zone) == Bin(x / zone) - M * (x / zone).Floor
    ensures Steps(x, zone) % M == Bin(x / zone) % M
  {
    var u := x / zone;
    FractionOf(x, zone);
    ShiftFloor(SCALE * (u - u.Floor as real) + 0.5, M * u.Floor);
    assert SCALE * (u - u.Floor as real) + 0.5 + (M * u.Floor) as real == SCALE * u + 0.5;
    ModMultiple(Steps(x, zone), u.Floor);
  }

  lemma ModMultiple(a: int, k: int)
    ensures (a + M * k) % M == a % M
  {
    var q, r := a / M, a % M;
    assert a + M * k == M * (q + k) + r;
    DivUnique(a + M * k, M, q + k, r);
  }

  lemma DivUnique(a: int, n: int, q: int, r: int)
    requires n > 0 && a == n * q + r && 0 <= r < n
    ensures a / n == q && a % n == r
  {
    var q', r' := a / n, a % n;
    assert n * (q - q') == r' - r;
    if q > q' {
      MulAtLeast(n, q - q');
    } else if q < q' {
      MulAtLeast(n, q' - q);
    }
  }

  lemma MulAtLeast(n: int, d: int)
    requires n > 0 && d >= 1
    ensures n * d >= n
  {}

  lemma RecoveredIsBin(lat: real, odd: bool)
    ensures RecoveredLat(lat, odd) == LatZone(odd) * (Bin(lat / LatZone(odd)) as real / SCALE)
  {
    hide Steps, Bin;
    var zone := LatZone(odd);
    StepsAreBin(lat, zone);
    var f := (lat / zone).Floor;
    assert Steps(lat, zone) as real / SCALE + f as real == Bin(lat / zone) as real / SCALE;
  }

  // ----- Zone indices -----

  lemma FloorModInt(a: int, n: int)
    requires n > 0
    ensures FloorMod(a as real, n as real) == (a % n) as real
  {
    var q, r := a / n, a % n;
    assert a as real == n as real * q as real + r as real by {
      assert (n * q) as real == n as real * q as real;
    }
    SplitQuotient(a as real, n as real, q as real, r as real);
    assert (a as real / n as real).Floor == q;
  }

  lemma SplitQuotient(a: real, n: real, q: real, r: real)
    requires n > 0.0 && a == n * q + r && 0.0 <= r < n
    ensures a / n == q + r / n && 0.0 <= r / n < 1.0
  {
    var x := r / n;
    assert n * x == r;
    if x >= 1.0 {
      MoreThanZone(n, x);
    }
    assert n * (q + x) == a;
  }

  /** Bins of one position under n and n - 1 zones almost agree across the ratio. */
  predicate Paired(n: int, ke: int, ko: int) {
    -M < 2 * ((n - 1) * ke - n * ko) < M
  }

  lemma BinsPaired(n: int, ue: real, uo: real)
    requires 1 <= n <= 60 && (n - 1) as real * ue == n as real * uo
    ensures Paired(n, Bin(ue), Bin(uo))
  {
    hide Bin, Paired;
    BinClose(ue);
    BinClose(uo);
    CloseBinsPaired(n, ue, uo, Bin(ue), Bin(uo));
  }

  lemma CloseBinsPaired(n: int, ue: real, uo: real, ke: int, ko: int)
    requires 1 <= n <= 60 && (n - 1) as real * ue == n as real * uo
    requires -0.5 <= SCALE * ue - ke as real <= 0.5 && -0.5 <= SCALE * uo - ko as real <= 0.5
    ensures Paired(n, ke, ko)
  {
    hide Paired;
    NearlyEqual(n as real, ue, uo, ke as real, ko as real);
    Combined(n, ke, ko);
    SmallPaired(n, ke, ko, (n - 1) * ke - n * ko);
  }

  lemma SmallPaired(n: int, ke: int, ko: int, d: int)
    requires d == (n - 1) * ke - n * ko && -60.0 <= d as real <= 60.0
    ensures Paired(n, ke, ko)
  {}

  lemma NearlyEqual(n: real, ue: real, uo: real, ke: real, ko: real)
    requires n >= 1.0 && (n - 1.0) * ue == n * uo
    requires -0.5 <= SCALE * ue - ke <= 0.5 && -0.5 <= SCALE * uo - ko <= 0.5
    ensures 0.5 - n <= (n - 1.0) * ke - n * ko <= n - 0.5
  {
    Crossed(n, ue, uo, ke, ko);
    var p, q := n * (SCALE * uo - ko), (n - 1.0) * (SCALE * ue - ke);
    ScaledBound(n, SCALE * uo - ko, p);
    ScaledBound(n - 1.0, SCALE * ue - ke, q);
    WithinSum(n, p, q, (n - 1.0) * ke - n * ko);
  }

  lemma WithinSum(n: real, p: real, q: real, d: real)
    requires -0.5 * n <= p <= 0.5 * n && -0.5 * (n - 1.0) <= q <= 0.5 * (n - 1.0)
    requires d == p - q
    ensures 0.5 - n <= d <= n - 0.5
  {}

  lemma Crossed(n: real, ue: real, uo: real, ke: real, ko: real)
    requires (n - 1.0) * ue == n * uo
    ensures (n - 1.0) * ke - n * ko == n * (SCALE * uo - ko) - (n - 1.0) * (SCALE * ue - ke)
  {
    assert (n - 1.0) * (SCALE * ue - ke) == SCALE * ((n - 1.0) * ue) - (n - 1.0) * ke;
    assert n * (SCALE * uo - ko) == SCALE * (n * uo) - n * ko;
  }

  lemma ScaledBound(n: real, e: real, p: real)
    requires n >= 0.0 && -0.5 <= e <= 0.5 && p == n * e
    ensures -0.5 * n <= p <= 0.5 * n
  {}

  lemma Combined(n: int, x: int, y: int)
    ensures ((n - 1) * x - n * y) as real == (n as real - 1.0) * x as real - n as real * y as real
  {
    assert ((n - 1) * x) as real == (n - 1) as real * x as real;
    assert (n * y) as real == n as real * y as real;
  }

  function Fraction(k: int): real {
    (k % M) as real / SCALE
  }

  /** The zone index the decoder computes, from the fractions alone. */
  lemma ZoneIndex(n: int, ke: int, ko: int)
    requires n >= 1 && Paired(n, ke, ko)
    ensures Index(n, Fraction(ke), Fraction(ko)) == n * (ko / M) - (n - 1) * (ke / M)
  {
    var d := (n - 1) * ke - n * ko;
    var j := n * (ko / M) - (n - 1) * (ke / M);
    FractionsCombine(n, ke, ko);
    Combined(n, ke % M, ko % M);
    var y := (n as real - 1.0) * (ke % M) as real - n as real * (ko % M) as real;
    Divided(n as real, (ke % M) as real, (ko % M) as real);
    assert y / SCALE + 0.5 == (d as real / SCALE + 0.5) + j as real;
    ShiftFloor(d as real / SCALE + 0.5, j);
  }

  lemma FractionsCombine(n: int, ke: int, ko: int)
    ensures (n - 1) * (ke % M) - n * (ko % M)
        == (n - 1) * ke - n * ko + M * (n * (ko / M) - (n - 1) * (ke / M))
  {
    var a, b, ye, yo := ke / M, ko / M, ke % M, ko % M;
    assert (n - 1) * ke == (n - 1) * (M * a + ye) == M * ((n - 1) * a) + (n - 1) * ye;
    assert n * ko == n * (M * b + yo) == M * (n * b) + n * yo;
  }

  lemma Divided(n: real, x: real, y: real)
    ensures (n - 1.0) * (x / SCALE) - n * (y / SCALE) == ((n - 1.0) * x - n * y) / SCALE
  {}

  /** The even index is congruent to the even zone, the odd one to the odd zone. */
  lemma IndexCongruent(n: int, a: int, b: int)
    requires n >= 1
    ensures (n * b - (n - 1) * a) % n == a % n
    ensures n >= 2 ==> (n * b - (n - 1) * a) % (n - 1) == b % (n - 1)
  {
    var j := n * b - (n - 1) * a;
    var q := a / n;
    assert j == n * (b - a) + a;
    assert n * (b - a) + n * q == n * (b - a + q);
    DivUnique(j, n, b - a + q, a % n);
    if n >= 2 {
      var p := b / (n - 1);
      assert j == (n - 1) * (b - a) + b;
      assert (n - 1) * (b - a) + (n - 1) * p == (n - 1) * (b - a + p);
      DivUnique(j, n - 1, b - a + p, b % (n - 1));
    }
  }

  /** A zone index and a fraction are the bin, up to whole turns. */
  lemma IndexAndFraction(k: int, n: int, zone: real)
    requires n >= 1 && zone == 360.0 / n as real
    ensures zone * (((k / M) % n) as real + (k % M) as real / SCALE)
        == zone * (k as real / SCALE) - 360.0 * TurnsOf(k, n) as real
  {
    assert Fraction(k) == (k % M) as real / SCALE;
    var a, t := k / M, k / M / n;
    assert (a % n) as real == a as real - n as real * t as real by {
      assert (n * t) as real == n as real * t as real;
    }
    assert k as real / SCALE == a as real + (k % M) as real / SCALE;
    assert zone * (n as real * t as real) == 360.0 * t as real by {
      assert zone * n as real == 360.0;
    }
    var f := (k % M) as real / SCALE;
    assert zone * (a as real - n as real * t as real + f) == zone * (a as real + f) - zone * (n as real * t as real);
  }

  // ----- Global decoding -----

  /** What the decoder makes of the bins of one coordinate: the index of the zones
      of the latest frame plus its fraction. */
  function FromBins(n: int, ke: int, ko: int, latestOdd: bool): real
    requires n >= 1
  {
    InZone(AtLeastOne(if latestOdd then n - 1 else n), Index(n, Fraction(ke), Fraction(ko)),
      Fraction(if latestOdd then ko else ke))
  }

  lemma InZoneIs(zones: int, index: int, fraction: real)
    requires zones >= 1
    ensures InZone(zones, index, fraction) == 360.0 / zones as real * ((index % zones) as real + fraction)
  {
    FloorModInt(index, zones);
  }

  function TurnsOf(k: int, zones: int): int
    requires zones >= 1
  {
    k / M / zones
  }

  /** It is the bin in degrees, up to whole turns. */
  lemma FromBinsIs(n: int, ke: int, ko: int, latestOdd: bool)
    requires n >= 1 && Paired(n, ke, ko)
    ensures var zones := AtLeastOne(if latestOdd then n - 1 else n);
      var k := if latestOdd then ko else ke;
      FromBins(n, ke, ko, latestOdd) == 360.0 / zones as real * (k as real / SCALE) - 360.0 * TurnsOf(k, zones) as real
  {
    hide FromBins, Paired;
    var zones := AtLeastOne(if latestOdd then n - 1 else n);
    var k := if latestOdd then ko else ke;
    FromIndex(n, ke, ko, latestOdd);
    IndexAndFraction(k, zones, 360.0 / zones as real);
  }

  lemma FromIndex(n: int, ke: int, ko: int, latestOdd: bool)
    requires n >= 1 && Paired(n, ke, ko)
    ensures var zones := AtLeastOne(if latestOdd then n - 1 else n);
      var k := if latestOdd then ko else ke;
      FromBins(n, ke, ko, latestOdd) == 360.0 / zones as real * (((k / M) % zones) as real + Fraction(k))
  {
    hide InZone, Index, Fraction, Paired;
    var zones := AtLeastOne(if latestOdd then n - 1 else n);
    var k := if latestOdd then ko else ke;
    ZoneIndex(n, ke, ko);
    IndexCongruent(n, ke / M, ko / M);
    InZoneIs(zones, n * (ko / M) - (n - 1) * (ke / M), Fraction(k));
  }

  /** Latitude bins of a latitude in range, in degrees, stay in range and close. */
  lemma LatitudeBin(lat: real, odd: bool)
    requires -90.0 <= lat <= 90.0
    ensures var k := Bin(lat / LatZone(odd));
      var deg := LatZone(odd) * (k as real / SCALE);
      var zones := if odd then 59 else 60;
      -90.0 <= deg <= 90.0
      && -LatZone(odd) / (2.0 * SCALE) <= deg - lat <= LatZone(odd) / (2.0 * SCALE)
      && Southern(deg - 360.0 * TurnsOf(k, zones) as real) == deg
  {
    hide Bin;
    var zone := LatZone(odd);
    BinClose(lat / zone);
    var k := Bin(lat / zone);
    LatitudeRange(k, lat, odd);
  }

  lemma LatitudeRange(k: int, lat: real, odd: bool)
    requires -90.0 <= lat <= 90.0
    requires -0.5 <= SCALE * (lat / LatZone(odd)) - k as real <= 0.5
    ensures var zones := if odd then 59 else 60;
      -zones * M <= 4 * k <= zones * M && TurnsOf(k, zones) == (if k >= 0 then 0 else -1)
      && -90.0 <= LatZone(odd) * (k as real / SCALE) <= 90.0
      && -LatZone(odd) / (2.0 * SCALE) <= LatZone(odd) * (k as real / SCALE) - lat <= LatZone(odd) / (2.0 * SCALE)
  {
    if odd {
    } else {
    }
  }

  /** A bin is within half a step of what it encodes. */
  lemma HalfStep(x: real, zone: real)
    requires zone > 0.0
    ensures -zone / (2.0 * SCALE) <= zone * (Bin(x / zone) as real / SCALE) - x <= zone / (2.0 * SCALE)
  {
    var u, k := x / zone, Bin(x / zone);
    BinClose(u);
    var e := k as real / SCALE - u;
    assert -0.5 / SCALE <= e <= 0.5 / SCALE;
    assert zone * u == x;
    StepError(zone, e);
    assert zone * (k as real / SCALE) == zone * e + zone * u;
  }

  lemma StepError(zone: real, e: real)
    requires zone > 0.0 && -0.5 / SCALE <= e <= 0.5 / SCALE
    ensures -zone / (2.0 * SCALE) <= zone * e <= zone / (2.0 * SCALE)
  {}

  lemma FromBinsRange(n: int, ke: int, ko: int, latestOdd: bool)
    requires n >= 1
    ensures 0.0 <= FromBins(n, ke, ko, latestOdd) < 360.0
  {
    hide InZone, Index, Fraction;
    var zones := AtLeastOne(if latestOdd then n - 1 else n);
    var k := if latestOdd then ko else ke;
    var j := Index(n, Fraction(ke), Fraction(ko));
    InZoneIs(zones, j, Fraction(k));
    FractionRange(k);
    TurnFraction(zones, j % zones, Fraction(k));
  }

  lemma FractionRange(k: int)
    ensures 0.0 <= Fraction(k) < 1.0
  {}

  lemma TurnFraction(zones: int, i: int, f: real)
    requires 0 <= i < zones && 0.0 <= f < 1.0
    ensures 0.0 <= 360.0 / zones as real * (i as real + f) < 360.0
  {
    var z, t := zones as real, i as real + f;
    assert 360.0 / z * t == 360.0 * (t / z);
    assert 0.0 <= t / z < 1.0;
  }

  /** With a single zone the index is always zero. */
  lemma OneZone(ke: int, ko: int, latestOdd: bool)
    ensures var k := if latestOdd then ko else ke;
      FromBins(1, ke, ko, latestOdd) == 360.0 * (k as real / SCALE) - 360.0 * TurnsOf(k, 1) as real
  {
    hide InZone, Index;
    var k := if latestOdd then ko else ke;
    InZoneIs(1, Index(1, Fraction(ke), Fraction(ko)), Fraction(k));
    IndexAndFraction(k, 1, 360.0);
  }

  predicate IsNear(x: real, y: real, tolerance: real) {
    -tolerance <= x - y <= tolerance
  }

  function Turned(x: real, turns: int): real {
    x + 360.0 * turns as real
  }

  /** Near, modulo whole turns. */
  ghost predicate IsNearTurned(x: real, y: real, tolerance: real) {
    exists turns: int :: IsNear(Turned(x, turns), y, tolerance)
  }

  lemma LongitudeBins(lon: real, n: Zones, latestOdd: bool)
    ensures var ke, ko := Bin(lon / LonZone(false, n)), Bin(lon / LonZone(true, n));
      var k := if latestOdd then ko else ke;
      FromBins(n, ke, ko, latestOdd)
        == LonZone(latestOdd, n) * (k as real / SCALE) - 360.0 * TurnsOf(k, LonZones(latestOdd, n)) as real
  {
    hide FromBins, Bin, TurnsOf;
    var ke, ko := Bin(lon / LonZone(false, n)), Bin(lon / LonZone(true, n));
    if n == 1 {
      OneZone(ke, ko, latestOdd);
    } else {
      LongitudePaired(lon, n);
      FromBinsIs(n, ke, ko, latestOdd);
    }
  }

  /** One longitude, whichever frame came last: within half a bin, modulo a turn. */
  lemma LongitudeDecodes(lon: real, n: Zones, latestOdd: bool)
    ensures var ke, ko := Bin(lon / LonZone(false, n)), Bin(lon / LonZone(true, n));
      var rlon := Western(FromBins(n, ke, ko, latestOdd));
      -180.0 <= rlon < 180.0 && IsNearTurned(rlon, lon, LonZone(latestOdd, n) / 262144.0)
  {
    hide FromBins, Bin, TurnsOf, LonZone;
    var ke, ko := Bin(lon / LonZone(false, n)), Bin(lon / LonZone(true, n));
    var k := if latestOdd then ko else ke;
    var zone, t := LonZone(latestOdd, n), TurnsOf(k, LonZones(latestOdd, n));
    var r := FromBins(n, ke, ko, latestOdd);
    FromBinsRange(n, ke, ko, latestOdd);
    LongitudeBins(lon, n, latestOdd);
    HalfStep(lon, zone);
    var turns := if r >= 180.0 then t + 1 else t;
    assert Turned(Western(r), turns) == zone * (k as real / SCALE);
    assert IsNear(Turned(Western(r), turns), lon, zone / 262144.0);
  }

  lemma LongitudePaired(lon: real, n: Zones)
    requires n >= 2
    ensures Paired(n, Bin(lon / LonZone(false, n)), Bin(lon / LonZone(true, n)))
  {
    var z, y := n as real, (n - 1) as real;
    assert lon / (360.0 / z) == lon * z / 360.0;
    assert lon / (360.0 / y) == lon * y / 360.0;
    assert y * (lon * z / 360.0) == z * (lon * y / 360.0);
    BinsPaired(n, lon / LonZone(false, n), lon / LonZone(true, n));
  }

  lemma LatitudeDecodes(lat: real, odd: bool)
    requires -90.0 <= lat <= 90.0
    ensures var ke, ko := Bin(lat / LatZone(false)), Bin(lat / LatZone(true));
      Southern(FromBins(60, ke, ko, odd)) == RecoveredLat(lat, odd)
      && -90.0 <= RecoveredLat(lat, odd) <= 90.0
      && IsNear(RecoveredLat(lat, odd), lat, LatZone(odd) / 262144.0)
  {
    hide FromBins, Bin, Steps;
    var ke, ko := Bin(lat / LatZone(false)), Bin(lat / LatZone(true));
    BinsPaired(60, lat / LatZone(false), lat / LatZone(true));
    FromBinsIs(60, ke, ko, odd);
    LatitudeBin(lat, odd);
    RecoveredIsBin(lat, odd);
  }

  /** The decoder on transmitted fractions is the decoder on bins. */
  lemma DecodesBins(ye: int, yo: int, xe: int, xo: int, latestOdd: bool, nl: real -> Zones)
    ensures var rlatE, rlatO := Southern(FromBins(60, ye, yo, false)), Southern(FromBins(60, ye, yo, true));
      var rlat := if latestOdd then rlatO else rlatE;
      DecodeGlobal((ye % M, xe % M), (yo % M, xo % M), latestOdd, nl) ==
        if !(-90.0 <= rlatE <= 90.0) || !(-90.0 <= rlatO <= 90.0) || nl(rlatE) != nl(rlatO) then None
        else Some((rlat, Western(FromBins(nl(rlat), xe, xo, latestOdd))))
  {
    hide InZone, Index, Southern, Western;
  }

  /** The width of a longitude zone where a latitude has n of them. */
  function ZoneWidth(odd: bool, n: Zones): real {
    360.0 / (if odd && n > 1 then n - 1 else n) as real
  }

  /** Global decoding undoes encoding: for any position, either frame latest and any
      zone function, the fix is refused exactly when the two recovered latitudes
      fall in different longitude-zone bands; otherwise it is a latitude and a
      longitude, each within half of one 2^17th of a zone of the true one. */
  lemma GlobalDecodes(lat: real, lon: real, latestOdd: bool, nl: real -> Zones)
    requires -90.0 <= lat <= 90.0
    ensures var fix := DecodeGlobal(Encoded(lat, lon, false, nl), Encoded(lat, lon, true, nl), latestOdd, nl);
      if nl(RecoveredLat(lat, false)) != nl(RecoveredLat(lat, true)) then fix == None
      else
        fix.Some? && fix.value.0 == RecoveredLat(lat, latestOdd) && -180.0 <= fix.value.1 < 180.0
        && IsNear(fix.value.0, lat, (if latestOdd then 360.0 / 59.0 else 360.0 / 60.0) / 262144.0)
        && IsNearTurned(fix.value.1, lon, ZoneWidth(latestOdd, nl(fix.value.0)) / 262144.0)
    ensures forall odd: bool ::
      IsNear(RecoveredLat(lat, odd), lat, (if odd then 360.0 / 59.0 else 360.0 / 60.0) / 262144.0)
  {
    hide FromBins, Bin, Steps, DecodeGlobal, Western, Southern, IsNear, IsNearTurned, RecoveredLat;
    var ke, ko := Bin(lat / LatZone(false)), Bin(lat / LatZone(true));
    var rE, rO := RecoveredLat(lat, false), RecoveredLat(lat, true);
    var xe, xo := Bin(lon / LonZone(false, nl(rE))), Bin(lon / LonZone(true, nl(rO)));
    StepsAreBin(lat, LatZone(false));
    StepsAreBin(lat, LatZone(true));
    StepsAreBin(lon, LonZone(false, nl(rE)));
    StepsAreBin(lon, LonZone(true, nl(rO)));
    LatitudeDecodes(lat, false);
    LatitudeDecodes(lat, true);
    DecodesBins(ke, ko, xe, xo, latestOdd, nl);
    if nl(rE) == nl(rO) {
      LongitudeDecodes(lon, nl(rE), latestOdd);
    }
  }

  /** Both numbers of a frame fit in 17 bits. */
  lemma EncodedFits(lat: real, lon: real, odd: bool, nl: real -> Zones)
    ensures var (y, x) := Encoded(lat, lon, odd, nl); 0 <= y <= 131071 && 0 <= x <= 131071
  {
    hide Steps;
  }

  /** For any two frames, related or not: no fix exactly when a latitude of the zone
      index lies beyond a pole or the two latitudes differ in zones; a fix is on the globe. */
  lemma GlobalRefuses(even: (int, int), odd: (int, int), latestOdd: bool, nl: real -> Zones, j: int, y: real, yo: real)
    requires 0 <= even.0 < 131072 && 0 <= odd.0 < 131072 && 0 <= even.1 < 131072 && 0 <= odd.1 < 131072
    requires j == ((59 * even.0 - 60 * odd.0) as real / 131072.0 + 0.5).Floor
    requires y == 360.0 / 60.0 * ((j % 60) as real + even.0 as real / 131072.0)
    requires yo == 360.0 / 59.0 * ((j % 59) as real + odd.0 as real / 131072.0)
    ensures DecodeGlobal(even, odd, latestOdd, nl) == None <==>
      90.0 < y < 270.0 || 90.0 < yo < 270.0
      || nl(if y >= 270.0 then y - 360.0 else y) != nl(if yo >= 270.0 then yo - 360.0 else yo)
    ensures var fix := DecodeGlobal(even, odd, latestOdd, nl);
      fix.Some? ==> -90.0 <= fix.value.0 <= 90.0 && -180.0 <= fix.value.1 < 180.0
  {
    LatitudeIndex(even.0, odd.0, j);
    LatitudeTurn(60, j, even.0, y);
    LatitudeTurn(59, j, odd.0, yo);
    assert SCALE == 131072.0;
    hide Index, InZone, Southern, Western;
    assert Southern(y) == if y >= 270.0 then y - 360.0 else y;
    assert Southern(yo) == if yo >= 270.0 then yo - 360.0 else yo;
    var fix := DecodeGlobal(even, odd, latestOdd, nl);
    if fix.Some? {
      var n: int := nl(fix.value.0);
      var ni := AtLeastOne(if latestOdd then n - 1 else n);
      var m := Index(n, even.1 as real / SCALE, odd.1 as real / SCALE);
      LongitudeTurn(ni, m, if latestOdd then odd.1 else even.1);
    }
  }

  lemma LatitudeIndex(even: int, odd: int, j: int)
    requires j == ((59 * even - 60 * odd) as real / 131072.0 + 0.5).Floor
    ensures Index(60, even as real / SCALE, odd as real / SCALE) == j
  {}

  lemma LatitudeTurn(zones: int, index: int, number: int, y: real)
    requires zones >= 1 && 0 <= number < M
    requires y == 360.0 / zones as real * ((index % zones) as real + number as real / SCALE)
    ensures InZone(zones, index, number as real / SCALE) == y && 0.0 <= y < 360.0
    ensures Southern(y) == if y >= 270.0 then y - 360.0 else y
    ensures -90.0 <= Southern(y) <= 90.0 <==> !(90.0 < y < 270.0)
  {
    hide InZone;
    InZoneIs(zones, index, number as real / SCALE);
    TurnFraction(zones, index % zones, number as real / SCALE);
  }

  lemma LongitudeTurn(zones: int, index: int, number: int)
    requires zones >= 1 && 0 <= number < M
    ensures -180.0 <= Western(InZone(zones, index, number as real / SCALE)) < 180.0
  {
    hide InZone;
    InZoneIs(zones, index, number as real / SCALE);
    TurnFraction(zones, index % zones, number as real / SCALE);
  }

  /** The worked pair of frames of "The 1090 Megahertz Riddle": even (93000, 51372),
      odd (74158, 50194), the even one last. */
  lemma JunzisExample(nl: real -> Zones)
    requires nl(6.0 * (8.0 + 93000.0 / 131072.0)) == 36 && nl(360.0 / 59.0 * (8.0 + 74158.0 / 131072.0)) == 36
    ensures var fix := DecodeGlobal((93000, 51372), (74158, 50194), false, nl);
      fix.Some? && IsNear(fix.value.0, 52.2572, 0.00001) && IsNear(fix.value.1, 3.91937, 0.00001)
    ensures DecodeLocal((93000, 51372), false, 52.258, 3.918, nl)
      == DecodeGlobal((93000, 51372), (74158, 50194), false, nl).value
  {
    hide DecodeLocal;
    var fix := DecodeGlobal((93000, 51372), (74158, 50194), false, nl);
    assert Index(60, 93000.0 / SCALE, 74158.0 / SCALE) == 8;
    InZoneIs(60, 8, 93000.0 / SCALE);
    InZoneIs(59, 8, 74158.0 / SCALE);
    assert Index(36, 51372.0 / SCALE, 50194.0 / SCALE) == 0;
    InZoneIs(36, 0, 51372.0 / SCALE);
    LocalAgreesWithGlobal((93000, 51372), (74158, 50194), false, nl, 52.258, 3.918);
  }

  // ----- Local decoding -----

  /** The multiple-of-a-zone shift local decoding picks. */
  function Nearest(reference: real, zone: real, fraction: real): int
    requires zone > 0.0
  {
    (reference / zone).Floor + (FloorMod(reference, zone) / zone - fraction + 0.5).Floor
  }

  lemma NearestIs(reference: real, zone: real, fraction: real)
    requires zone > 0.0
    ensures Nearest(reference, zone, fraction) == (reference / zone - fraction + 0.5).Floor
  {
    FractionOf(reference, zone);
    var u := reference / zone;
    ShiftFloor(u - u.Floor as real - fraction + 0.5, u.Floor);
  }

  lemma RoundedClose(t: real)
    ensures -0.5 < (t + 0.5).Floor as real - t <= 0.5
  {}

  ghost predicate HasPhase(x: real, zone: real, fraction: real) {
    exists k: int :: x == InZones(zone, k, fraction)
  }

  /** It lands within half a zone of the reference, the upper end included. */
  lemma NearestClose(reference: real, zone: real, fraction: real)
    requires zone > 0.0
    ensures IsWithinHalf(InZones(zone, Nearest(reference, zone, fraction), fraction), reference, zone)
  {
    hide Nearest;
    NearestIs(reference, zone, fraction);
    var t := reference / zone - fraction;
    RoundedClose(t);
    FromUnits(zone, reference, reference / zone, (t + 0.5).Floor as real + fraction);
    assert InZones(zone, (t + 0.5).Floor, fraction) == zone * ((t + 0.5).Floor as real + fraction);
  }

  predicate IsWithinHalf(x: real, reference: real, zone: real) {
    -zone / 2.0 < x - reference <= zone / 2.0
  }

  lemma FromUnits(zone: real, reference: real, u: real, v: real)
    requires zone > 0.0 && u == reference / zone && -0.5 < v - u <= 0.5
    ensures IsWithinHalf(zone * v, reference, zone)
  {
    var e := v - u;
    assert zone * u == reference;
    assert zone * v == zone * e + zone * u;
    HalfZone(zone, e);
  }

  lemma HalfZone(zone: real, e: real)
    requires zone > 0.0 && -0.5 < e <= 0.5
    ensures -zone / 2.0 < zone * e <= zone / 2.0
  {}

  /** No other point with this fraction is as near. */
  lemma NearestUnique(reference: real, zone: real, fraction: real, k: int)
    requires zone > 0.0 && IsWithinHalf(InZones(zone, k, fraction), reference, zone)
    ensures k == Nearest(reference, zone, fraction)
  {
    hide Nearest;
    NearestClose(reference, zone, fraction);
    SameZone(zone, reference, fraction, k, Nearest(reference, zone, fraction));
  }

  lemma SameZone(zone: real, reference: real, fraction: real, k: int, l: int)
    requires zone > 0.0
    requires IsWithinHalf(InZones(zone, k, fraction), reference, zone)
    requires IsWithinHalf(InZones(zone, l, fraction), reference, zone)
    ensures k == l
  {
    hide IsWithinHalf, InZones;
    NotAbove(zone, reference, fraction, k, l);
    NotAbove(zone, reference, fraction, l, k);
  }

  lemma NotAbove(zone: real, reference: real, fraction: real, k: int, l: int)
    requires zone > 0.0
    requires IsWithinHalf(InZones(zone, k, fraction), reference, zone)
    requires IsWithinHalf(InZones(zone, l, fraction), reference, zone)
    ensures k <= l
  {
    hide InZones;
    if k > l {
      ZoneApart(zone, fraction, k, l);
    }
  }

  lemma ZoneApart(zone: real, fraction: real, k: int, l: int)
    requires zone > 0.0 && k > l
    ensures InZones(zone, k, fraction) - InZones(zone, l, fraction) >= zone
  {
    var a, b := k as real + fraction, l as real + fraction;
    assert zone * a - zone * b == zone * (a - b);
    MoreThanZone(zone, a - b);
  }

  lemma MoreThanZone(zone: real, d: real)
    requires zone > 0.0 && d >= 1.0
    ensures zone * d >= zone
  {}

  /** The decoder in terms of the nearest shift. */
  lemma LocalIs(cpr: (int, int), odd: bool, refLat: real, refLon: real, nl: real -> Zones)
    ensures var (lat, lon) := DecodeLocal(cpr, odd, refLat, refLon, nl);
      var (y, x) := (cpr.0 as real / SCALE, cpr.1 as real / SCALE);
      var (zy, zx) := (LatZone(odd), LonZone(odd, nl(lat)));
      lat == InZones(zy, Nearest(refLat, zy, y), y) && lon == InZones(zx, Nearest(refLon, zx, x), x)
  {
    hide FloorMod, InZones;
  }

  /** Local decoding returns the one point with the encoded fractions within half a
      zone of the reference in each coordinate, the upper end included. */
  lemma LocalIsNearest(cpr: (int, int), odd: bool, refLat: real, refLon: real, nl: real -> Zones,
      lat: real, lon: real, latZone: real, lonZone: real, j: int, m: int)
    requires latZone == if odd then 360.0 / 59.0 else 360.0 / 60.0
    requires lonZone == ZoneWidth(odd, nl(lat))
    requires lat == latZone * (j as real + cpr.0 as real / 131072.0)
    requires lon == lonZone * (m as real + cpr.1 as real / 131072.0)
    ensures DecodeLocal(cpr, odd, refLat, refLon, nl) == (lat, lon)
      <==> (-latZone / 2.0 < lat - refLat <= latZone / 2.0 && -lonZone / 2.0 < lon - refLon <= lonZone / 2.0)
  {
    hide DecodeLocal, Nearest;
    assert latZone == LatZone(odd) && lonZone == LonZone(odd, nl(lat));
    hide LatZone, LonZone, ZoneWidth;
    assert lat == InZones(latZone, j, cpr.0 as real / 131072.0);
    assert lon == InZones(lonZone, m, cpr.1 as real / 131072.0);
    PhasedNearest(cpr, odd, refLat, refLon, nl, lat, lon);
  }

  /** The same for points known to have the encoded fractions. */
  lemma PhasedNearest(cpr: (int, int), odd: bool, refLat: real, refLon: real, nl: real -> Zones, lat: real, lon: real)
    requires HasPhase(lat, LatZone(odd), cpr.0 as real / SCALE)
    requires HasPhase(lon, LonZone(odd, nl(lat)), cpr.1 as real / SCALE)
    ensures DecodeLocal(cpr, odd, refLat, refLon, nl) == (lat, lon)
      <==> (IsWithinHalf(lat, refLat, LatZone(odd)) && IsWithinHalf(lon, refLon, LonZone(odd, nl(lat))))
  {
    hide DecodeLocal, Nearest, LatZone, LonZone, IsWithinHalf, InZones;
    LocalIs(cpr, odd, refLat, refLon, nl);
    var zy, zx := LatZone(odd), LonZone(odd, nl(lat));
    var (y, x) := (cpr.0 as real / SCALE, cpr.1 as real / SCALE);
    var j: int :| lat == InZones(zy, j, y);
    var m: int :| lon == InZones(zx, m, x);
    NearestClose(refLat, zy, y);
    NearestClose(refLon, zx, x);
    if IsWithinHalf(lat, refLat, zy) {
      NearestUnique(refLat, zy, y, j);
      if IsWithinHalf(lon, refLon, zx) {
        NearestUnique(refLon, zx, x, m);
      }
    }
  }

  /** A global fix has the fractions of the latest frame. */
  lemma GlobalHasFractions(even: (int, int), odd: (int, int), latestOdd: bool, nl: real -> Zones)
    requires DecodeGlobal(even, odd, latestOdd, nl).Some?
    ensures var (lat, lon) := DecodeGlobal(even, odd, latestOdd, nl).value;
      var latest := if latestOdd then odd else even;
      HasPhase(lat, LatZone(latestOdd), latest.0 as real / SCALE)
      && HasPhase(lon, LonZone(latestOdd, nl(lat)), latest.1 as real / SCALE)
  {
    hide Index, InZone, Wrapped, HasPhase;
    var (lat, lon) := DecodeGlobal(even, odd, latestOdd, nl).value;
    var latest := if latestOdd then odd else even;
    var j := Index(60, even.0 as real / SCALE, odd.0 as real / SCALE);
    KeepsPhase(if latestOdd then 59 else 60, j, latest.0 as real / SCALE, 270.0);
    var m := Index(nl(lat), even.1 as real / SCALE, odd.1 as real / SCALE);
    KeepsPhase(LonZones(latestOdd, nl(lat)), m, latest.1 as real / SCALE, 180.0);
  }

  /** A zone position, with or without a turn taken off, has its fraction. */
  lemma KeepsPhase(zones: int, index: int, f: real, limit: real)
    requires zones >= 1
    ensures HasPhase(Wrapped(InZone(zones, index, f), limit), 360.0 / zones as real, f)
  {
    hide InZone;
    var z := 360.0 / zones as real;
    InZoneIs(zones, index, f);
    var r := InZone(zones, index, f);
    var i := index % zones;
    assert r == InZones(z, i, f);
    assert r - 360.0 == InZones(z, i - zones, f) by {
      assert z * zones as real == 360.0;
      assert z * ((i - zones) as real + f) == z * (i as real + f) - z * zones as real;
    }
  }

  /** For any two frames at all: whenever global decoding gives a fix, decoding its
      latest frame locally against a reference gives the same fix exactly when the
      reference is within half a zone of it in latitude and in longitude. */
  lemma LocalAgreesWithGlobal(even: (int, int), odd: (int, int), latestOdd: bool, nl: real -> Zones,
      refLat: real, refLon: real)
    requires DecodeGlobal(even, odd, latestOdd, nl).Some?
    ensures var fix := DecodeGlobal(even, odd, latestOdd, nl).value;
      DecodeLocal(if latestOdd then odd else even, latestOdd, refLat, refLon, nl) == fix
      <==> (IsWithinHalf(fix.0, refLat, LatZone(latestOdd))
        && IsWithinHalf(fix.1, refLon, LonZone(latestOdd, nl(fix.0))))
  {
    hide DecodeGlobal, DecodeLocal, IsWithinHalf, LatZone, LonZone, HasPhase;
    var fix := DecodeGlobal(even, odd, latestOdd, nl).value;
    GlobalHasFractions(even, odd, latestOdd, nl);
    PhasedNearest(if latestOdd then odd else even, latestOdd, refLat, refLon, nl, fix.0, fix.1);
  }
}
