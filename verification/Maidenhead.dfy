/** The second, independent locator implementation, and its agreement with Gridsquare. */
module Maidenhead {
  import opened GoStrings
  import G = Gridsquare

  /** The six-character locator with a lower-case subsquare; empty out of range. */
  method LatLonToGrid(lat: real, lon: real) returns (grid: string)
    ensures var r := G.FromLatLng(lat, lon, 6);
      if r.Success? then ToUpper(grid) == r.value && grid[..4] <= r.value else grid == ""
  {
    if lat < -90.0 || lat > 90.0 || lon < -180.0 || lon > 180.0 {
      return "";
    }
    var adjLon, adjLat := lon + 180.0, lat + 90.0;
    var fieldLon, fieldLat := G.Trunc(adjLon / 20.0), G.Trunc(adjLat / 10.0);
    if fieldLon > 17 {
      fieldLon := 17;
    }
    if fieldLat > 17 {
      fieldLat := 17;
    }
    var remLon, remLat := G.Mod(adjLon, 20.0), G.Mod(adjLat, 10.0);
    var squareLon, squareLat := G.Trunc(remLon / 2.0), G.Trunc(remLat / 1.0);
    if squareLon > 9 {
      squareLon := 9;
    }
    if squareLat > 9 {
      squareLat := 9;
    }
    var remSubLon, remSubLat := G.Mod(remLon, 2.0), G.Mod(remLat, 1.0);
    var subLon, subLat := G.Trunc(remSubLon * 12.0), G.Trunc(remSubLat * 24.0);
    if subLon > 23 {
      subLon := 23;
    }
    if subLat > 23 {
      subLat := 23;
    }
    assert G.LngDigits(lon) == G.Digits(fieldLon, squareLon, subLon);
    assert G.LatDigits(lat) == G.Digits(fieldLat, squareLat, subLat);
    G.LngSplit(lon);
    G.LatSplit(lat);
    grid := Build(fieldLon, fieldLat, squareLon, squareLat, subLon, subLat);
  }

  /** Fills the six bytes; only the case of the subsquare differs from the other package. */
  method Build(fieldLon: int, fieldLat: int, squareLon: int, squareLat: int, subLon: int, subLat: int)
    returns (grid: string)
    requires G.DigitsOk(G.Digits(fieldLon, squareLon, subLon)) && G.DigitsOk(G.Digits(fieldLat, squareLat, subLat))
    ensures |grid| == 6
    ensures var square := [G.Letter('A', fieldLon), G.Letter('A', fieldLat),
                           G.Letter('0', squareLon), G.Letter('0', squareLat)];
      grid[..4] == square && ToUpper(grid) == square + [G.Letter('A', subLon), G.Letter('A', subLat)]
  {
    var buf := new char[6];
    buf[0] := G.Letter('A', fieldLon);
    buf[1] := G.Letter('A', fieldLat);
    buf[2] := G.Letter('0', squareLon);
    buf[3] := G.Letter('0', squareLat);
    buf[4] := G.Letter('a', subLon);
    buf[5] := G.Letter('a', subLat);
    grid := buf[..];
    UpperAt(grid, 0);
    UpperAt(grid, 1);
    UpperAt(grid, 2);
    UpperAt(grid, 3);
    UpperAt(grid, 4);
    UpperAt(grid, 5);
  }

  /** No centre lies on the meridian of Greenwich, which is an edge between cells. */
  lemma CentreOffMeridian(grid: string)
    requires G.ToLatLng(grid).Success?
    ensures G.ToLatLng(grid).value.lng != 0.0
  {
    var g := ToUpper(grid);
    var lng := G.LngOf(g);
    G.CentreOf(grid);
    if |g| == 6 {
      assert (G.Number(lng) as real + 0.5) != 2160.0;
    } else {
      assert G.Number(lng) == 24 * (10 * lng.field + lng.square);
      assert 24 * (10 * lng.field + lng.square) + 12 != 2160;
      assert (G.Number(lng) + 12) as real == G.Number(lng) as real + 12.0;
    }
  }

  /** Latitude and longitude of the centre; (0, 0) for exactly what is not a locator. */
  method GridToLatLon(grid: string) returns (lat: real, lon: real)
    ensures var r := G.ToLatLng(TrimSpace(grid));
      && (lat, lon) == (if r.Success? then (r.value.lat, r.value.lng) else (0.0, 0.0))
      && (r.Success? <==> (lat, lon) != (0.0, 0.0))
  {
    var g := TrimSpace(grid);
    if |g| != 4 && |g| != 6 {
      return 0.0, 0.0;
    }
    g := ToUpper(g);
    if g[0] < 'A' || g[0] > 'R' || g[1] < 'A' || g[1] > 'R' {
      return 0.0, 0.0;
    }
    if g[2] < '0' || g[2] > '9' || g[3] < '0' || g[3] > '9' {
      return 0.0, 0.0;
    }
    if |g| == 6 {
      if g[4] < 'A' || g[4] > 'X' || g[5] < 'A' || g[5] > 'X' {
        return 0.0, 0.0;
      }
    }
    lon, lat := G.Rank(g[0], 'A') * 20.0, G.Rank(g[1], 'A') * 10.0;
    lon := lon + G.Rank(g[2], '0') * 2.0;
    lat := lat + G.Rank(g[3], '0') * 1.0;
    if |g| == 6 {
      lon := lon + G.Rank(g[4], 'A') * (2.0 / 24.0);
      lat := lat + G.Rank(g[5], 'A') * (1.0 / 24.0);
      lon := lon + 1.0 / 24.0;
      lat := lat + 0.5 / 24.0;
    } else {
      lon := lon + 1.0;
      lat := lat + 0.5;
    }
    lon := lon - 180.0;
    lat := lat - 90.0;
    CentreOffMeridian(TrimSpace(grid));
  }
}
