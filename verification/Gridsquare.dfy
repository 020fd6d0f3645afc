/**
Maidenhead locators. Coordinates are real numbers: the floating-point rounding of the
original is not part of this model.
*/
module Gridsquare {
  import opened Wrappers
  import opened GoStrings

  datatype GridError = BadPrecision | BadLatitude | BadLongitude | BadLength | BadField | BadSquare | BadSubsquare

  datatype LatLng = LatLng(lat: real, lng: real)

  /** Go's conversion of a float to int. */
  function Trunc(x: real): int {
    if x >= 0.0 then x.Floor else -(-x).Floor
  }

  /** math.Mod */
  function Mod(x: real, y: real): real
    requires y > 0.0
  {
    x - y * (Trunc(x / y) as real)
  }

  function Clamp(n: int, max: int): int {
    if n > max then max else n
  }

  /** The character `n` places after `base`. */
  function Letter(base: char, n: int): char
    requires 'A' <= base <= 'a' || base == '0'
    requires 0 <= n < 24
  {
    (base as int + n) as char
  }

  // ---------- coordinates to locators ----------

  /** The three digits of one axis: field, square and subsquare numbers, each clamped. */
  datatype Digits = Digits(field: int, square: int, sub: int)

  function LngDigits(lng: real): Digits {
    var adj := lng + 180.0;
    var rem := Mod(adj, 20.0);
    var rem2 := Mod(rem, 2.0);
    Digits(Clamp(Trunc(adj / 20.0), 17), Clamp(Trunc(rem / 2.0), 9), Clamp(Trunc(rem2 * 12.0), 23))
  }

  function LatDigits(lat: real): Digits {
    var adj := lat + 90.0;
    var rem := Mod(adj, 10.0);
    var rem2 := Mod(rem, 1.0);
    Digits(Clamp(Trunc(adj / 10.0), 17), Clamp(Trunc(rem / 1.0), 9), Clamp(Trunc(rem2 * 24.0), 23))
  }

  predicate DigitsOk(d: Digits) {
    0 <= d.field < 18 && 0 <= d.square < 10 && 0 <= d.sub < 24
  }

  function FromLatLng(lat: real, lng: real, precision: int): Result<string, GridError> {
    if precision != 4 && precision != 6 then Failure(BadPrecision)
    else if lat < -90.0 || lat > 90.0 then Failure(BadLatitude)
    else if lng < -180.0 || lng > 180.0 then Failure(BadLongitude)
    else
      var x, y := LngDigits(lng), LatDigits(lat);
      LngSplit(lng);
      LatSplit(lat);
      var square := [Letter('A', x.field), Letter('A', y.field), Letter('0', x.square), Letter('0', y.square)];
      Success(if precision == 6 then square + [Letter('A', x.sub), Letter('A', y.sub)] else square)
  }

  // ---------- digits are a mixed-radix number ----------

  /** The digits of cell number `c` of an axis: 18 fields of 10 squares of 24 subsquares. */
  function Radix(c: int): Digits {
    Digits(c / 240, c / 24 % 10, c % 24)
  }

  function Number(d: Digits): int {
    d.field * 240 + d.square * 24 + d.sub
  }

  lemma RadixUnique(c: int, d: Digits)
    requires DigitsOk(d)
    ensures Number(d) == c <==> 0 <= c < 4320 && Radix(c) == d
  {
  }

  /** The nested divisions of an axis measured in squares. */
  lemma Nested(u: real)
    requires 0.0 <= u < 180.0
    ensures var f := (u / 10.0).Floor;
      var s := (u - 10.0 * f as real).Floor;
      var b := ((u - 10.0 * f as real - s as real) * 24.0).Floor;
      DigitsOk(Digits(f, s, b)) && (u * 24.0).Floor == Number(Digits(f, s, b))
  {
    var f := (u / 10.0).Floor;
    var r := u - 10.0 * f as real;
    var s := r.Floor;
    var t := r - s as real;
    var b := (t * 24.0).Floor;
    assert 0.0 <= r < 10.0 && 0.0 <= t < 1.0;
    assert u * 24.0 == (f * 240 + s * 24) as real + t * 24.0;
  }

  /** Longitudes are counted in degrees, squares are two degrees wide. */
  lemma LngField(adj: real, u: real, f: int)
    requires adj == 2.0 * u && u >= 0.0 && f == (u / 10.0).Floor
    ensures Trunc(adj / 20.0) == f && Mod(adj, 20.0) == 2.0 * (u - 10.0 * f as real)
  {
    assert adj / 20.0 == u / 10.0;
  }

  lemma LngSquare(rem: real, r: real, s: int)
    requires rem == 2.0 * r && r >= 0.0 && s == r.Floor
    ensures Trunc(rem / 2.0) == s && Mod(rem, 2.0) == 2.0 * (r - s as real)
  {
    assert rem / 2.0 == r;
  }

  lemma LngBelow(lng: real, u: real)
    requires lng + 180.0 == 2.0 * u && 0.0 <= u < 180.0
    ensures DigitsOk(LngDigits(lng)) && Number(LngDigits(lng)) == (u * 24.0).Floor
  {
    var f := (u / 10.0).Floor;
    var r := u - 10.0 * f as real;
    var s := r.Floor;
    Nested(u);
    LngField(lng + 180.0, u, f);
    LngSquare(2.0 * r, r, s);
    assert 2.0 * (r - s as real) * 12.0 == (r - s as real) * 24.0;
  }

  /** No clamp fires below +180, and the digits are those of the global cell number. */
  lemma LngSplit(lng: real)
    requires -180.0 <= lng <= 180.0
    ensures DigitsOk(LngDigits(lng))
    ensures lng < 180.0 ==> Number(LngDigits(lng)) == ((lng + 180.0) * 12.0).Floor
    ensures lng == 180.0 ==> LngDigits(lng) == Digits(17, 0, 0)
  {
    var u := (lng + 180.0) / 2.0;
    if lng < 180.0 {
      LngBelow(lng, u);
      assert u * 24.0 == (lng + 180.0) * 12.0;
    } else {
      assert Mod(360.0, 20.0) == 0.0;
    }
  }

  lemma LatSplit(lat: real)
    requires -90.0 <= lat <= 90.0
    ensures DigitsOk(LatDigits(lat))
    ensures lat < 90.0 ==> Number(LatDigits(lat)) == ((lat + 90.0) * 24.0).Floor
    ensures lat == 90.0 ==> LatDigits(lat) == Digits(17, 0, 0)
  {
    var adj := lat + 90.0;
    if lat < 90.0 {
      Nested(adj);
      var rem := Mod(adj, 10.0);
      assert rem / 1.0 == rem;
      assert rem == adj - 10.0 * (adj / 10.0).Floor as real;
    } else {
      assert Mod(adj, 10.0) == 0.0;
    }
  }

  // ---------- locators to coordinates ----------

  predicate Between(c: char, lo: char, hi: char) {
    lo <= c <= hi
  }

  function Validate(grid: string): Result<(), GridError> {
    var g := ToUpper(grid);
    if |g| != 4 && |g| != 6 then Failure(BadLength)
    else if !Between(g[0], 'A', 'R') || !Between(g[1], 'A', 'R') then Failure(BadField)
    else if !Between(g[2], '0', '9') || !Between(g[3], '0', '9') then Failure(BadSquare)
    else if |g| == 6 && (!Between(g[4], 'A', 'X') || !Between(g[5], 'A', 'X')) then Failure(BadSubsquare)
    else Success(())
  }

  /** How far `c` is behind `base`. */
  function Rank(c: char, base: char): real {
    (c as int - base as int) as real
  }

  function ToLatLng(grid: string): Result<LatLng, GridError> {
    var valid := Validate(grid);
    if valid.Failure? then Failure(valid.error)
    else
      var g := ToUpper(grid);
      var lng := Rank(g[0], 'A') * 20.0 + Rank(g[2], '0') * 2.0;
      var lat := Rank(g[1], 'A') * 10.0 + Rank(g[3], '0') * 1.0;
      var (lng', lat') :=
        if |g| == 6 then
          (lng + Rank(g[4], 'A') * (2.0 / 24.0) + 1.0 / 24.0, lat + Rank(g[5], 'A') * (1.0 / 24.0) + 0.5 / 24.0)
        else (lng + 1.0, lat + 0.5);
      Success(LatLng(lat' - 90.0, lng' - 180.0))
  }

  // ---------- cells ----------

  /** The digits of the longitude axis in a valid locator; subsquare 0 when it has none. */
  function LngOf(g: string): Digits
    requires |g| == 4 || |g| == 6
  {
    Digits(g[0] as int - 'A' as int, g[2] as int - '0' as int, if |g| == 6 then g[4] as int - 'A' as int else 0)
  }

  function LatOf(g: string): Digits
    requires |g| == 4 || |g| == 6
  {
    Digits(g[1] as int - 'A' as int, g[3] as int - '0' as int, if |g| == 6 then g[5] as int - 'A' as int else 0)
  }

  /** Subsquares across one cell of the locator. */
  function Width(g: string): int {
    if |g| == 6 then 1 else 24
  }

  /** The point lies in the half-open cell that the locator names. */
  predicate Contains(g: string, lat: real, lng: real)
    requires |g| == 4 || |g| == 6
  {
    var x, y := Number(LngOf(g)), Number(LatOf(g));
    && x as real <= (lng + 180.0) * 12.0 < (x + Width(g)) as real
    && y as real <= (lat + 90.0) * 24.0 < (y + Width(g)) as real
  }

  lemma LocatorDigits(lat: real, lng: real, precision: int)
    requires precision == 4 || precision == 6
    requires -90.0 <= lat <= 90.0 && -180.0 <= lng <= 180.0
    ensures var r := FromLatLng(lat, lng, precision);
      && r.Success? && |r.value| == precision
      && LngOf(r.value) == (if precision == 6 then LngDigits(lng) else LngDigits(lng).(sub := 0))
      && LatOf(r.value) == (if precision == 6 then LatDigits(lat) else LatDigits(lat).(sub := 0))
  {
    LngSplit(lng);
    LatSplit(lat);
  }

  /**
  Every point of the half-open ranges gets the locator whose characters are the mixed-radix
  digits of its two cell numbers, at precision 6; precision 4 is a prefix of it.
  */
  lemma MixedRadix(lat: real, lng: real)
    requires -90.0 <= lat < 90.0 && -180.0 <= lng < 180.0
    ensures var x, y := Radix(((lng + 180.0) * 12.0).Floor), Radix(((lat + 90.0) * 24.0).Floor);
      && DigitsOk(x) && DigitsOk(y)
      && FromLatLng(lat, lng, 6) == Success([
        Letter('A', x.field), Letter('A', y.field), Letter('0', x.square), Letter('0', y.square),
        Letter('A', x.sub), Letter('A', y.sub)])
  {
    LngSplit(lng);
    LatSplit(lat);
    RadixUnique(((lng + 180.0) * 12.0).Floor, LngDigits(lng));
    RadixUnique(((lat + 90.0) * 24.0).Floor, LatDigits(lat));
    SixCharacters(lat, lng);
  }

  /** What is refused, and with which error. */
  lemma RefusedIff(lat: real, lng: real, precision: int)
    ensures var r := FromLatLng(lat, lng, precision);
      && (r.Success? <==> (precision == 4 || precision == 6) && -90.0 <= lat <= 90.0 && -180.0 <= lng <= 180.0)
      && (r == Failure(BadPrecision) <==> precision != 4 && precision != 6)
      && (r == Failure(BadLatitude) ==> !(-90.0 <= lat <= 90.0))
      && (r == Failure(BadLongitude) ==> -90.0 <= lat <= 90.0 && !(-180.0 <= lng <= 180.0))
      && (r.Failure? ==> r.error in {BadPrecision, BadLatitude, BadLongitude})
  {
  }

  lemma PrecisionPrefix(lat: real, lng: real)
    requires -90.0 <= lat <= 90.0 && -180.0 <= lng <= 180.0
    ensures FromLatLng(lat, lng, 4).Success? && FromLatLng(lat, lng, 6).Success?
    ensures FromLatLng(lat, lng, 4).value == FromLatLng(lat, lng, 6).value[..4]
  {
  }

  /**
  The cell contains the point exactly when neither coordinate is at its upper end: there the
  field is clamped but the square and subsquare start again at 0.
  */
  lemma ContainsIff(lat: real, lng: real, precision: int)
    requires precision == 4 || precision == 6
    requires -90.0 <= lat <= 90.0 && -180.0 <= lng <= 180.0
    ensures FromLatLng(lat, lng, precision).Success? && |FromLatLng(lat, lng, precision).value| == precision
    ensures Contains(FromLatLng(lat, lng, precision).value, lat, lng) <==> lat < 90.0 && lng < 180.0
  {
    LocatorDigits(lat, lng, precision);
    LngSplit(lng);
    LatSplit(lat);
  }

  lemma SixCharacters(lat: real, lng: real)
    requires -90.0 <= lat <= 90.0 && -180.0 <= lng <= 180.0
    ensures var x, y := LngDigits(lng), LatDigits(lat);
      FromLatLng(lat, lng, 6) == Success([
        Letter('A', x.field), Letter('A', y.field), Letter('0', x.square), Letter('0', y.square),
        Letter('A', x.sub), Letter('A', y.sub)])
  {
    LngSplit(lng);
    LatSplit(lat);
    var x, y := LngDigits(lng), LatDigits(lat);
    assert [Letter('A', x.field), Letter('A', y.field), Letter('0', x.square), Letter('0', y.square)]
           + [Letter('A', x.sub), Letter('A', y.sub)]
        == [Letter('A', x.field), Letter('A', y.field), Letter('0', x.square), Letter('0', y.square),
            Letter('A', x.sub), Letter('A', y.sub)];
  }

  lemma OriginDigits()
    ensures LngDigits(0.0) == LatDigits(0.0) == Digits(9, 0, 0)
  {
    LngSplit(0.0);
    LatSplit(0.0);
    RadixUnique(2160, LngDigits(0.0));
    RadixUnique(2160, LatDigits(0.0));
  }

  /** At +180 and +90 the locator names the near edge of the last field. */
  lemma EdgesWrap()
    ensures FromLatLng(0.0, 180.0, 6) == Success("RJ00AA") && !Contains("RJ00AA", 0.0, 180.0)
    ensures FromLatLng(90.0, 0.0, 6) == Success("JR00AA") && !Contains("JR00AA", 90.0, 0.0)
  {
    OriginDigits();
    LngSplit(180.0);
    LatSplit(90.0);
    SixCharacters(0.0, 180.0);
    SixCharacters(90.0, 0.0);
    ContainsIff(0.0, 180.0, 6);
    ContainsIff(90.0, 0.0, 6);
  }

  // ---------- there and back ----------

  lemma ValidDigits(grid: string)
    requires Validate(grid).Success?
    ensures var g := ToUpper(grid);
      (|g| == 4 || |g| == 6) && DigitsOk(LngOf(g)) && DigitsOk(LatOf(g))
  {
  }

  /** The centre of the cell, in units of subsquares. */
  lemma CentreOf(grid: string)
    requires Validate(grid).Success?
    ensures var g := ToUpper(grid);
      var w := Width(g) as real;
      && (|g| == 4 || |g| == 6)
      && ToLatLng(grid).Success?
      && (ToLatLng(grid).value.lng + 180.0) * 12.0 == Number(LngOf(g)) as real + w / 2.0
      && (ToLatLng(grid).value.lat + 90.0) * 24.0 == Number(LatOf(g)) as real + w / 2.0
  {
  }

  lemma DigitsAreUpper(g: string)
    requires |g| == 4 || |g| == 6
    requires DigitsOk(LngOf(g)) && DigitsOk(LatOf(g))
    ensures ToUpper(g) == g && Validate(g).Success?
  {
    UpperOfUpper(g);
  }

  lemma LocatorIsUpper(lat: real, lng: real, precision: int)
    requires precision == 4 || precision == 6
    requires -90.0 <= lat <= 90.0 && -180.0 <= lng <= 180.0
    ensures var r := FromLatLng(lat, lng, precision);
      r.Success? && ToUpper(r.value) == r.value && Validate(r.value).Success?
  {
    LocatorDigits(lat, lng, precision);
    LngSplit(lng);
    LatSplit(lat);
    DigitsAreUpper(FromLatLng(lat, lng, precision).value);
  }

  /** Going to a locator and back moves a point by at most half a cell. */
  lemma WithinHalfCell(lat: real, lng: real, precision: int)
    requires precision == 4 || precision == 6
    requires -90.0 <= lat < 90.0 && -180.0 <= lng < 180.0
    ensures var r := FromLatLng(lat, lng, precision);
      && r.Success? && ToLatLng(r.value).Success?
      && var w := Width(r.value) as real;
      && -w / 24.0 <= ToLatLng(r.value).value.lng - lng <= w / 24.0
      && -w / 48.0 <= ToLatLng(r.value).value.lat - lat <= w / 48.0
  {
    ContainsIff(lat, lng, precision);
    LocatorIsUpper(lat, lng, precision);
    CentreOf(FromLatLng(lat, lng, precision).value);
  }

  lemma SameDigits(g: string, h: string)
    requires |g| == |h| && (|g| == 4 || |g| == 6)
    requires LngOf(g) == LngOf(h) && LatOf(g) == LatOf(h)
    ensures g == h
  {
    assert forall i :: 0 <= i < |g| ==> g[i] as int == h[i] as int;
  }

  lemma FloorBetween(x: real, n: int)
    requires n as real <= x < (n + 1) as real
    ensures x.Floor == n
  {
  }

  lemma CellOfCentre(lng: Digits, w: int, x: real)
    requires DigitsOk(lng) && ((w == 24 && lng.sub == 0) || w == 1)
    requires x == Number(lng) as real + w as real / 2.0
    ensures 0.0 <= x < 4320.0
    ensures var d := Radix(x.Floor);
      d.field == lng.field && d.square == lng.square && (w == 1 ==> d.sub == lng.sub)
  {
    if w == 1 {
      FloorBetween(x, Number(lng));
      RadixUnique(Number(lng), lng);
    } else {
      FloorBetween(x, Number(lng) + 12);
      RadixUnique(Number(lng) + 12, lng.(sub := 12));
    }
  }

  lemma LngOfCentre(d: Digits, w: int, lng: real)
    requires DigitsOk(d) && ((w == 24 && d.sub == 0) || w == 1)
    requires (lng + 180.0) * 12.0 == Number(d) as real + w as real / 2.0
    ensures -180.0 <= lng < 180.0
    ensures (if w == 1 then LngDigits(lng) else LngDigits(lng).(sub := 0)) == d
  {
    CellOfCentre(d, w, (lng + 180.0) * 12.0);
    LngSplit(lng);
    RadixUnique(((lng + 180.0) * 12.0).Floor, LngDigits(lng));
  }

  lemma LatOfCentre(d: Digits, w: int, lat: real)
    requires DigitsOk(d) && ((w == 24 && d.sub == 0) || w == 1)
    requires (lat + 90.0) * 24.0 == Number(d) as real + w as real / 2.0
    ensures -90.0 <= lat < 90.0
    ensures (if w == 1 then LatDigits(lat) else LatDigits(lat).(sub := 0)) == d
  {
    CellOfCentre(d, w, (lat + 90.0) * 24.0);
    LatSplit(lat);
    RadixUnique(((lat + 90.0) * 24.0).Floor, LatDigits(lat));
  }

  /** From a valid locator to its centre and back is the identity up to case. */
  lemma LocatorRoundTrip(grid: string)
    requires Validate(grid).Success?
    ensures var c := ToLatLng(grid);
      c.Success? && FromLatLng(c.value.lat, c.value.lng, |grid|) == Success(ToUpper(grid))
  {
    var g := ToUpper(grid);
    ValidDigits(grid);
    CentreOf(grid);
    RoundTripOf(g, ToLatLng(grid).value);
  }

  lemma RoundTripOf(g: string, c: LatLng)
    requires (|g| == 4 || |g| == 6) && DigitsOk(LngOf(g)) && DigitsOk(LatOf(g))
    requires (c.lng + 180.0) * 12.0 == Number(LngOf(g)) as real + Width(g) as real / 2.0
    requires (c.lat + 90.0) * 24.0 == Number(LatOf(g)) as real + Width(g) as real / 2.0
    ensures FromLatLng(c.lat, c.lng, |g|) == Success(g)
  {
    LngOfCentre(LngOf(g), Width(g), c.lng);
    LatOfCentre(LatOf(g), Width(g), c.lat);
    LocatorDigits(c.lat, c.lng, |g|);
    SameDigits(FromLatLng(c.lat, c.lng, |g|).value, g);
  }
}
