/**
 * The coordinate decoder and first-match scanner of
 * backend/fill_missing_coords.py, the back-fill script for rows without a
 * start point.
 */
module FillCoords {
  import opened Options
  import opened Strings
  import opened Scan
  import opened CompactCoord

  /** The characters kept before matching: `[0-9NSEW]`. */
  predicate IsFillChar(c: char) { IsDigit(c) || c in "NSEW" }

  /** `re.sub(r'[^0-9NSEW]', '', s.upper())` (line 9). */
  function FillClean(s: string): (t: string)
    ensures forall i :: 0 <= i < |t| ==> IsFillChar(t[i])
    ensures (forall i :: 0 <= i < |s| ==> IsFillChar(s[i])) ==> t == s
  {
    Keep(Upper(s), IsFillChar)
  }

  /** A value is a whole number of degrees. */
  predicate Whole(x: real) { x == x.Floor as real }

  /**
   * How `(\d{2,4})(\d{2,4})?` divides a run of `n` digits that it must
   * consume whole: the first group takes as many digits as it can while the
   * rest is empty or still fits the optional group.
   */
  function FirstGroupLen(n: nat): (k: nat)
    requires 2 <= n <= 8
    ensures 2 <= k <= 4 && k <= n && Fits(n, k)
    ensures forall j :: k < j <= 4 ==> !Fits(n, j)
  {
    if n <= 4 then n else if n == 5 then 3 else 4
  }

  /** A first group of `j` digits leaves nothing or an optional group of 2 to 4 digits. */
  predicate Fits(n: nat, j: nat) { j == n || 2 <= n - j <= 4 }

  /** Groups 1 to 6 of the general pattern; an optional group that did not take part is empty. */
  datatype FillGroups = FillGroups(g1: string, g2: string, ns: char, g4: string, g5: string, ew: char)

  predicate WellFormed(g: FillGroups) {
    && 2 <= |g.g1| <= 4 && AllDigits(g.g1) && (g.g2 == [] || 2 <= |g.g2| <= 4) && AllDigits(g.g2) && IsNS(g.ns)
    && 2 <= |g.g4| <= 4 && AllDigits(g.g4) && (g.g5 == [] || 2 <= |g.g5| <= 4) && AllDigits(g.g5) && IsEW(g.ew)
  }

  /**
   * `(\d{2,4})(\d{2,4})?([NS])(\d{2,4})(\d{2,4})?([EW])` at `p` (line 10):
   * the digits before N|S and before E|W must each be one run of 2 to 8
   * digits taken whole, split as `FirstGroupLen` says.
   */
  function GeneralMatch(s: string, p: nat): (r: Option<Span<FillGroups>>)
    ensures r.Some? ==> WellFormed(r.value.value)
  {
    var l := DigitRun(s, p);
    if !(2 <= l <= 8 && p + l < |s| && IsNS(s[p + l])) then None
    else
      var q := p + l + 1;
      var m := DigitRun(s, q);
      if !(2 <= m <= 8 && q + m < |s| && IsEW(s[q + m])) then None
      else
        var lat, lon := SplitRun(s, p, l), SplitRun(s, q, m);
        Some(Span(q + m + 1, FillGroups(lat.0, lat.1, s[p + l], lon.0, lon.1, s[q + m])))
  }

  /** A run of `n` digits at `p` cut into the mandatory group and the optional one. */
  function SplitRun(s: string, p: nat, n: nat): (g: (string, string))
    requires 2 <= n <= 8 && DigitsBetween(s, p, p + n)
    ensures 2 <= |g.0| <= 4 && AllDigits(g.0) && (g.1 == [] || 2 <= |g.1| <= 4) && AllDigits(g.1)
    ensures g.0 == s[p..p + FirstGroupLen(n)] && g.1 == s[p + FirstGroupLen(n)..p + n]
  {
    var a := FirstGroupLen(n);
    DigitsSlice(s, p, p + a);
    DigitsSlice(s, p + a, p + n);
    (s[p..p + a], s[p + a..p + n])
  }

  /** `re.match(r'(\d{2})(\d{2})([NS])(\d{3})(\d{2})([EW])', s)` (line 14). */
  predicate ShortMatches(t: string) {
    |t| >= 11 && DigitsBetween(t, 0, 4) && IsNS(t[4]) && DigitsBetween(t, 5, 10) && IsEW(t[10])
  }

  /** The fallback's value (lines 17-23): degrees and minutes on both axes. */
  function ShortParse(t: string): Option<LatLon> {
    if !ShortMatches(t) then None
    else
      var lat := Field(t, 0, 2) as real + Field(t, 2, 4) as real / 60.0;
      var lon := Field(t, 5, 8) as real + Field(t, 8, 10) as real / 60.0;
      Some(LatLon(Hemisphere(lat, t[4] == 'S'), Hemisphere(lon, t[10] == 'W')))
  }

  /** `conv_lat` (lines 29-36): four digits are degrees and minutes, fewer are whole degrees. */
  function ConvLat(la: string, ns: char): real
    requires |la| >= 1 && AllDigits(la)
  {
    if |la| >= 4 then
      Hemisphere(NumberOf(la[..|la| - 2]) as real + NumberOf(la[|la| - 2..]) as real / 60.0, ns == 'S')
    else
      Hemisphere(NumberOf(la) as real, ns == 'S')
  }

  /** `conv_lon` (lines 37-44): five or more digits are degrees and minutes, fewer are whole degrees. */
  function ConvLon(lo: string, ew: char): real
    requires |lo| >= 1 && AllDigits(lo)
  {
    if |lo| >= 5 then
      Hemisphere(NumberOf(lo[..|lo| - 2]) as real + NumberOf(lo[|lo| - 2..]) as real / 60.0, ew == 'W')
    else
      Hemisphere(NumberOf(lo) as real, ew == 'W')
  }

  /** The fallback pattern only matches where the general one already does, so it is never consulted. */
  lemma FallbackUnreachable(t: string)
    ensures ShortMatches(t) ==> Search(t, 0, GeneralMatch).Some?
  {
    if ShortMatches(t) {
      assert !IsDigit(t[4]) && !IsDigit(t[10]);
      RunIs(t, 0, 4, IsDigit);
      RunIs(t, 5, 5, IsDigit);
      assert GeneralMatch(t, 0).Some?;
      SearchFinds(t, 0, GeneralMatch, 0);
    }
  }

  /**
   * `parse_compact_coord` (lines 7-47) as written: the first general match
   * gives the latitude from group 1 and the longitude from group 4 alone, so
   * the longitude is always a whole number of degrees; there is a value
   * exactly when the cleaned text holds a general match.
   */
  function ParseCompactCoord(s: string): (r: Option<LatLon>)
    ensures r.Some? <==> Search(FillClean(s), 0, GeneralMatch).Some?
    ensures r.Some? ==> Whole(r.value.lon)
  {
    var t := FillClean(s);
    match Search(t, 0, GeneralMatch)
    case Some(h) =>
      var g := h.value;
      WholeDegrees(g.g4, g.ew);
      Some(LatLon(ConvLat(g.g1, g.ns), ConvLon(g.g4, g.ew)))
    case None => FallbackUnreachable(t); ShortParse(t)
  }

  /** A longitude group of fewer than five digits is whole degrees. */
  lemma WholeDegrees(lo: string, ew: char)
    requires 1 <= |lo| < 5 && AllDigits(lo)
    ensures Whole(ConvLon(lo, ew))
  {
    var n: int := NumberOf(lo);
    assert (n as real).Floor == n;
    assert (-(n as real)).Floor == -n;
  }

  /** The decoder with the longitude read from groups 4 and 5 together, so that a five-digit longitude keeps its minutes. */
  function ParseCompactCoordFixed(s: string): (r: Option<LatLon>)
    ensures r.Some? <==> Search(FillClean(s), 0, GeneralMatch).Some?
  {
    var t := FillClean(s);
    match Search(t, 0, GeneralMatch)
    case Some(h) =>
      var g := h.value;
      Some(LatLon(ConvLat(g.g1, g.ns), ConvLon(g.g4 + g.g5, g.ew)))
    case None => FallbackUnreachable(t); ShortParse(t)
  }

  // ---------------------------------------------------------------- canonical tokens

  /** The canonical minutes token is matched whole at its start: group 1 is the latitude, groups 4 and 5 the longitude. */
  lemma MinutesTokenGroups(latDeg: nat, latMin: nat, south: bool, lonDeg: nat, lonMin: nat, west: bool)
    requires latDeg < 100 && latMin < 100 && lonDeg < 1000 && lonMin < 100
    ensures var t := EncodeMinutes(latDeg, latMin, south, lonDeg, lonMin, west);
      && FillClean(t) == t
      && Search(t, 0, GeneralMatch) == Some(Hit(0, 11, FillGroups(Pad2(latDeg) + Pad2(latMin), [], t[4], Pad3(lonDeg), Pad2(lonMin), t[10])))
  {
    var t := EncodeMinutes(latDeg, latMin, south, lonDeg, lonMin, west);
    MinutesTokenChars(latDeg, latMin, south, lonDeg, lonMin, west);
    GeneralMatchWhole(t, 4, 5);
    assert t[..4] == t[0..4] && t[4..4] == [];
    SearchFinds(t, 0, GeneralMatch, 0);
  }

  lemma MinutesTokenChars(latDeg: nat, latMin: nat, south: bool, lonDeg: nat, lonMin: nat, west: bool)
    requires latDeg < 100 && latMin < 100 && lonDeg < 1000 && lonMin < 100
    ensures var t := EncodeMinutes(latDeg, latMin, south, lonDeg, lonMin, west);
      && FillClean(t) == t && t[0..4] == Pad2(latDeg) + Pad2(latMin) && t[5..8] == Pad3(lonDeg) && t[8..10] == Pad2(lonMin)
      && DigitsBetween(t, 0, 4) && IsNS(t[4]) && DigitsBetween(t, 5, 10) && IsEW(t[10])
  {
    var t := EncodeMinutes(latDeg, latMin, south, lonDeg, lonMin, west);
    MinutesParts(latDeg, latMin, south, lonDeg, lonMin, west);
    var p1, p2 := Pad2(latDeg), Pad2(latMin);
    assert t[0..4] == p1 + p2 by {
      assert forall i :: 0 <= i < 2 ==> t[0..4][i] == t[0..2][i];
      assert forall i :: 2 <= i < 4 ==> t[0..4][i] == t[2..4][i - 2];
    }
    assert forall i :: 0 <= i < 2 ==> IsDigit(t[i]) by {
      assert forall i :: 0 <= i < 2 ==> t[i] == p1[i];
    }
    assert forall i :: 2 <= i < 4 ==> IsDigit(t[i]) by {
      assert forall i :: 2 <= i < 4 ==> t[i] == p2[i - 2];
    }
    assert forall i :: 5 <= i < 8 ==> IsDigit(t[i]) by {
      assert forall i :: 5 <= i < 8 ==> t[i] == t[5..8][i - 5];
    }
    assert forall i :: 8 <= i < 10 ==> IsDigit(t[i]) by {
      assert forall i :: 8 <= i < 10 ==> t[i] == t[8..10][i - 8];
    }
    assert forall i :: 0 <= i < |t| ==> IsFillChar(t[i]);
  }

  lemma ConvLatMinutes(d: nat, m: nat, ns: char)
    requires d < 100 && m < 100
    ensures ConvLat(Pad2(d) + Pad2(m), ns) == Hemisphere(d as real + m as real / 60.0, ns == 'S')
  {
    var la := Pad2(d) + Pad2(m);
    assert la[..2] == Pad2(d) && la[2..] == Pad2(m);
  }

  lemma ConvLonMinutes(d: nat, m: nat, ew: char)
    requires d < 1000 && m < 100
    ensures ConvLon(Pad3(d) + Pad2(m), ew) == Hemisphere(d as real + m as real / 60.0, ew == 'W')
  {
    var lo := Pad3(d) + Pad2(m);
    assert lo[..3] == Pad3(d) && lo[3..] == Pad2(m);
  }

  /** As written, the canonical minutes token keeps its latitude but loses the longitude minutes. */
  lemma MinutesTokenAsWritten(latDeg: nat, latMin: nat, south: bool, lonDeg: nat, lonMin: nat, west: bool)
    requires latDeg < 100 && latMin < 100 && lonDeg < 1000 && lonMin < 100
    ensures ParseCompactCoord(EncodeMinutes(latDeg, latMin, south, lonDeg, lonMin, west))
         == Some(LatLon(Hemisphere(latDeg as real + latMin as real / 60.0, south), Hemisphere(lonDeg as real, west)))
  {
    var t := EncodeMinutes(latDeg, latMin, south, lonDeg, lonMin, west);
    MinutesTokenGroups(latDeg, latMin, south, lonDeg, lonMin, west);
    ConvLatMinutes(latDeg, latMin, t[4]);
    assert (t[4] == 'S') == south && (t[10] == 'W') == west;
  }

  /** The fixed decoder reads the canonical minutes token back exactly. */
  lemma MinutesTokenFixed(latDeg: nat, latMin: nat, south: bool, lonDeg: nat, lonMin: nat, west: bool)
    requires latDeg < 100 && latMin < 100 && lonDeg < 1000 && lonMin < 100
    ensures ParseCompactCoordFixed(EncodeMinutes(latDeg, latMin, south, lonDeg, lonMin, west))
         == Some(LatLon(Hemisphere(latDeg as real + latMin as real / 60.0, south),
                        Hemisphere(lonDeg as real + lonMin as real / 60.0, west)))
  {
    var t := EncodeMinutes(latDeg, latMin, south, lonDeg, lonMin, west);
    MinutesTokenGroups(latDeg, latMin, south, lonDeg, lonMin, west);
    ConvLatMinutes(latDeg, latMin, t[4]);
    ConvLonMinutes(lonDeg, lonMin, t[10]);
    assert (t[4] == 'S') == south && (t[10] == 'W') == west;
  }

  /** The script's own example token: `5957N02905E` decodes to (59 + 57/60, 29), not (59 + 57/60, 29 + 5/60). */
  lemma ExampleDropsMinutes()
    ensures ParseCompactCoord("5957N02905E") == Some(LatLon(59.0 + 57.0 / 60.0, 29.0))
    ensures ParseCompactCoordFixed("5957N02905E") == Some(LatLon(59.0 + 57.0 / 60.0, 29.0 + 5.0 / 60.0))
  {
    assert EncodeMinutes(59, 57, false, 29, 5, false) == "5957N02905E";
    MinutesTokenAsWritten(59, 57, false, 29, 5, false);
    MinutesTokenFixed(59, 57, false, 29, 5, false);
  }

  // ---------------------------------------------------------------- first match in a text

  /** `a` latitude digits (2 to 4), N|S, `b` longitude digits (2 to 4), E|W. */
  predicate ShortToken(v: string, a: nat, b: nat) {
    2 <= a <= 4 && 2 <= b <= 4 && Layout(v, a, b)
  }

  /**
   * `RE` (line 5), `\d{2,4}[NS]\d{2,4}[EW]` at `p`, case-sensitive: the
   * digit runs before N|S and before E|W must be 2 to 4 digits long, since a
   * longer run leaves a digit where the letter must be.
   */
  function CoordTokenMatch(txt: string, p: nat): (r: Option<Span<string>>)
    ensures r.Some? ==> r.value.end == p + |r.value.value| <= |txt| && txt[p..r.value.end] == r.value.value
    ensures r.Some? ==> ShortToken(r.value.value, DigitRun(txt, p), DigitRun(txt, p + DigitRun(txt, p) + 1))
  {
    var l := DigitRun(txt, p);
    if !(2 <= l <= 4 && p + l < |txt| && IsNS(txt[p + l])) then None
    else
      var q := p + l + 1;
      var m := DigitRun(txt, q);
      if !(2 <= m <= 4 && q + m < |txt| && IsEW(txt[q + m])) then None
      else
        var v := txt[p..q + m + 1];
        assert forall i :: 0 <= i < l ==> v[i] == txt[p + i];
        assert forall i :: l + 1 <= i < l + 1 + m ==> v[i] == txt[p + i];
        Some(Span(q + m + 1, v))
  }

  /** A token of the scanner is left alone by the cleaning step. */
  lemma ShortTokenClean(v: string, a: nat, b: nat)
    requires ShortToken(v, a, b)
    ensures FillClean(v) == v
  {
    forall i | 0 <= i < |v| ensures IsFillChar(v[i]) {
      if i != a && i != a + 1 + b {
        assert IsDigit(v[i]);
      }
    }
  }

  /** A token of the scanner is matched whole at its start: group 1 is its latitude run and group 4 its longitude run. */
  lemma ShortTokenGroups(v: string, a: nat, b: nat)
    requires ShortToken(v, a, b)
    ensures Search(v, 0, GeneralMatch) == Some(Hit(0, |v|, FillGroups(v[..a], [], v[a], v[a + 1..a + 1 + b], [], v[a + 1 + b])))
  {
    GeneralMatchWhole(v, a, b);
    assert v[a..a] == [] && v[a + 1 + b..a + 1 + b] == [];
    SearchFinds(v, 0, GeneralMatch, 0);
  }

  /** A text that is one digit run, N|S, one digit run and E|W is matched whole at its start. */
  lemma GeneralMatchWhole(v: string, l: nat, m: nat)
    requires 2 <= l <= 8 && 2 <= m <= 8 && Layout(v, l, m)
    ensures var a, b, q := FirstGroupLen(l), FirstGroupLen(m), l + 1;
      GeneralMatch(v, 0) == Some(Span(|v|, FillGroups(v[..a], v[a..l], v[l], v[q..q + b], v[q + b..q + m], v[q + m])))
  {
    RunIs(v, 0, l, IsDigit);
    RunIs(v, l + 1, m, IsDigit);
    assert DigitRun(v, 0) == l && l < |v| && IsNS(v[l]);
    assert DigitRun(v, l + 1) == m && l + 1 + m < |v| && IsEW(v[l + 1 + m]);
    assert v[0..FirstGroupLen(l)] == v[..FirstGroupLen(l)] && l + 1 + m + 1 == |v|;
  }

  /** Every token of the scanner decodes, and the fix changes nothing on such tokens. */
  lemma ShortTokenParses(v: string, a: nat, b: nat)
    requires ShortToken(v, a, b)
    ensures ParseCompactCoord(v).Some?
    ensures ParseCompactCoordFixed(v) == ParseCompactCoord(v)
  {
    ShortTokenClean(v, a, b);
    ShortTokenGroups(v, a, b);
    assert v[a + 1..a + 1 + b] + [] == v[a + 1..a + 1 + b];
  }

  /** The first decodable match, in order. */
  function FirstParsed(hs: seq<Hit<string>>): (r: Option<LatLon>)
    ensures r.Some? ==> exists k :: 0 <= k < |hs| && ParseCompactCoord(hs[k].value) == r
  {
    if hs == [] then None
    else if ParseCompactCoord(hs[0].value).Some? then ParseCompactCoord(hs[0].value)
    else
      var r := FirstParsed(hs[1..]);
      assert forall k :: 1 <= k < |hs| ==> hs[1..][k - 1] == hs[k];
      r
  }

  /** `find_first_coord_in_text` (lines 49-56), as one expression. */
  function FirstCoordSpec(txt: string): Option<LatLon> {
    if txt == [] then None else FirstParsed(FindAll(txt, 0, CoordTokenMatch))
  }

  /** The loop over `RE.finditer(txt)`, returning the first decoding. */
  method FindFirstCoordInText(txt: string) returns (r: Option<LatLon>)
    ensures r == FirstCoordSpec(txt)
  {
    if txt == [] {
      return None;
    }
    var hs := FindAll(txt, 0, CoordTokenMatch);
    var i := 0;
    while i < |hs|
      invariant 0 <= i <= |hs|
      invariant FirstParsed(hs) == FirstParsed(hs[i..])
    {
      assert hs[i..][1..] == hs[i + 1..];
      var res := ParseCompactCoord(hs[i].value);
      if res.Some? {
        return res;
      }
      i := i + 1;
    }
    return None;
  }

  /**
   * The result is the decoding of the leftmost match of the scanner, which
   * always decodes; there is none exactly for an empty text or a text
   * without a match, and its longitude is always whole degrees.
   */
  lemma FirstCoordRule(txt: string)
    ensures var hs := FindAll(txt, 0, CoordTokenMatch);
      && (FirstCoordSpec(txt).None? <==> txt == [] || hs == [])
      && (txt != [] && hs != [] ==> FirstCoordSpec(txt) == ParseCompactCoord(hs[0].value))
      && (FirstCoordSpec(txt).Some? ==> Whole(FirstCoordSpec(txt).value.lon))
  {
    var hs := FindAll(txt, 0, CoordTokenMatch);
    if txt != [] && hs != [] {
      FirstHitParses(txt, hs);
      assert FirstCoordSpec(txt) == FirstParsed(hs);
    }
  }

  /** The leftmost match of the scanner decodes, so it is the one taken. */
  lemma FirstHitParses(txt: string, hs: seq<Hit<string>>)
    requires hs == FindAll(txt, 0, CoordTokenMatch) && hs != []
    ensures ParseCompactCoord(hs[0].value).Some? && FirstParsed(hs) == ParseCompactCoord(hs[0].value)
  {
    var p := hs[0].start;
    var m := CoordTokenMatch(txt, p);
    assert m == Some(Span(hs[0].end, hs[0].value));
    ShortTokenParses(hs[0].value, DigitRun(txt, p), DigitRun(txt, p + DigitRun(txt, p) + 1));
  }
}
