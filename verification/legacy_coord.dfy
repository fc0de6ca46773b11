/**
 * The live compact-coordinate decoder of backend/app/parser.back.py (the
 * definition at line 118; the one at line 10 is shadowed by it). It searches
 * the space-free text for the first `(\d{4,6}[NS])(\d{5,7}[EW])` and reads
 * the two digit groups by their lengths, without rounding or range checks.
 */
module LegacyCoord {
  import opened Options
  import opened Strings
  import opened Scan
  import opened CompactCoord

  /** The two named groups of a compact match: latitude digits, N|S, longitude digits, E|W. */
  datatype Groups = Groups(lat: string, ns: char, lon: string, ew: char)

  /** `m.group(0)`: the matched text. */
  function GroupText(g: Groups): string {
    g.lat + [g.ns] + g.lon + [g.ew]
  }

  /**
   * `(?P<lat>\d{4,6}[NS])(?P<lon>\d{5,7}[EW])` at `p`. A digit can never stand
   * where N|S or E|W is expected, so giving back digits never helps: each
   * group's digits are the whole digit run at its position. A longer latitude
   * run fails here and matches at a later start, on its last six digits.
   */
  function CompactMatch(s: string, p: nat): (r: Option<Span<Groups>>)
    ensures r.Some? ==> var g := r.value.value;
      4 <= |g.lat| <= 6 && AllDigits(g.lat) && IsNS(g.ns) && 5 <= |g.lon| <= 7 && AllDigits(g.lon) && IsEW(g.ew)
      && r.value.end == p + |GroupText(g)| <= |s| && s[p..r.value.end] == GroupText(g)
  {
    var d1 := DigitRun(s, p);
    if !(4 <= d1 <= 6 && p + d1 < |s| && IsNS(s[p + d1])) then None
    else
      var q := p + d1 + 1;
      var d2 := DigitRun(s, q);
      if 5 <= d2 <= 7 && q + d2 < |s| && IsEW(s[q + d2]) then
        var g := Groups(s[p..p + d1], s[p + d1], s[q..q + d2], s[q + d2]);
        SliceGroups(s, p, d1, d2);
        Some(Span(q + d2 + 1, g))
      else None
  }

  /** A stretch of text cut into the latitude digits, N|S, the longitude digits and E|W. */
  lemma SliceGroups(s: string, p: nat, d1: nat, d2: nat)
    requires p + d1 + 1 + d2 < |s|
    ensures var q := p + d1 + 1;
      s[p..q + d2 + 1] == s[p..p + d1] + [s[p + d1]] + s[q..q + d2] + [s[q + d2]]
  {
    var q := p + d1 + 1;
    assert s[p..q] == s[p..p + d1] + [s[p + d1]];
    assert s[p..q + d2] == s[p..q] + s[q..q + d2];
    assert s[p..q + d2 + 1] == s[p..q + d2] + [s[q + d2]];
  }

  /**
   * `_to_deg` (lines 131-148): `deg + minute/60 + sec/3600` for a latitude of
   * 4 or 6 digits (two degree digits) or a longitude of 5 or 7 digits (three
   * degree digits), seconds being zero in the shorter forms; any other length
   * gives NaN, which is `None` here.
   */
  function ToDeg(digits: string, isLat: bool): (r: Option<real>)
    requires AllDigits(digits)
    ensures r.Some? <==> (if isLat then |digits| == 4 || |digits| == 6 else |digits| == 5 || |digits| == 7)
    ensures r.Some? ==> r.value >= 0.0
  {
    var w := if isLat then 2 else 3;
    if |digits| == w + 2 || |digits| == w + 4 then
      var deg := NumberOf(digits[..w]);
      var minute := NumberOf(digits[w..w + 2]);
      var sec := if |digits| == w + 4 then NumberOf(digits[w + 2..w + 4]) else 0;
      Some(deg as real + minute as real / 60.0 + sec as real / 3600.0)
    else None
  }

  predicate NotBlank(c: char) { c != ' ' }

  /** `s.strip().replace(" ", "")`. */
  function Squeeze(s: string): (t: string)
    ensures forall i :: 0 <= i < |t| ==> t[i] != ' '
    ensures (forall i :: 0 <= i < |s| ==> !IsSpace(s[i])) ==> t == s
  {
    Keep(Strip(s), NotBlank)
  }

  /** The decoding of one compact match, signs applied. */
  function DecodeGroups(g: Groups): (r: Option<LatLon>)
    requires AllDigits(g.lat) && AllDigits(g.lon)
    ensures r.Some? <==> ToDeg(g.lat, true).Some? && ToDeg(g.lon, false).Some?
    ensures r.Some? ==> r.value == LatLon(Hemisphere(ToDeg(g.lat, true).value, g.ns == 'S'),
                                          Hemisphere(ToDeg(g.lon, false).value, g.ew == 'W'))
  {
    match (ToDeg(g.lat, true), ToDeg(g.lon, false))
    case (Some(lat), Some(lon)) => Some(LatLon(Hemisphere(lat, g.ns == 'S'), Hemisphere(lon, g.ew == 'W')))
    case _ => None
  }

  /**
   * `parse_compact_coord` (backend/app/parser.back.py:118-158): `None` for
   * the empty text, for a text without a compact match, and for a first
   * match whose groups have the wrong lengths (5 latitude or 6 longitude
   * digits); otherwise the decoding of that first match.
   */
  function ParseLegacyCoord(s: string): (r: Option<LatLon>)
    ensures s == [] ==> r.None?
    ensures Search(Squeeze(s), 0, CompactMatch).None? ==> r.None?
    ensures s != [] && Search(Squeeze(s), 0, CompactMatch).Some? ==>
      r == DecodeGroups(Search(Squeeze(s), 0, CompactMatch).value.value)
  {
    if s == [] then None
    else
      match Search(Squeeze(s), 0, CompactMatch)
      case None => None
      case Some(h) => DecodeGroups(h.value)
  }

  // ---------------------------------------------------------------- properties

  /** Every character of a laid-out token is a digit or a hemisphere letter. */
  lemma LayoutChars(t: string, a: nat, b: nat)
    requires Layout(t, a, b)
    ensures forall i :: 0 <= i < |t| ==> IsDigit(t[i]) || IsNS(t[i]) || IsEW(t[i])
  {
    forall i | 0 <= i < |t| ensures IsDigit(t[i]) || IsNS(t[i]) || IsEW(t[i]) {
      if i < a {
        assert IsDigit(t[i]);
      } else if a < i < a + 1 + b {
        assert IsDigit(t[i]);
      }
    }
  }

  /** A canonical token matches at its start, as a whole. */
  lemma CanonicalMatchAt(t: string, a: nat, b: nat)
    requires Layout(t, a, b) && 4 <= a <= 6 && 5 <= b <= 7
    ensures CompactMatch(t, 0) == Some(Span(|t|, Groups(t[..a], t[a], t[a + 1..a + 1 + b], t[a + 1 + b])))
  {
    RunIs(t, 0, a, IsDigit);
    RunIs(t, a + 1, b, IsDigit);
    assert DigitRun(t, 0) == a && a < |t| && IsNS(t[a]);
    assert DigitRun(t, a + 1) == b && a + 1 + b < |t| && IsEW(t[a + 1 + b]);
    assert t[0..a] == t[..a] && a + 1 + b + 1 == |t|;
  }

  /** A canonical token is its own first match. */
  lemma CanonicalSearch(t: string, a: nat, b: nat)
    requires Layout(t, a, b) && 4 <= a <= 6 && 5 <= b <= 7
    ensures Search(t, 0, CompactMatch) == Some(Hit(0, |t|, Groups(t[..a], t[a], t[a + 1..a + 1 + b], t[a + 1 + b])))
  {
    CanonicalMatchAt(t, a, b);
  }

  /** A canonical token has no spaces to remove. */
  lemma CanonicalSqueeze(t: string, a: nat, b: nat)
    requires Layout(t, a, b)
    ensures Squeeze(t) == t
  {
    LayoutChars(t, a, b);
    assert forall i :: 0 <= i < |t| ==> !IsSpace(t[i]);
  }

  /** The digit groups of a canonical token. */
  lemma CanonicalGroups(t: string, a: nat, b: nat)
    requires Layout(t, a, b)
    ensures AllDigits(t[..a]) && AllDigits(t[a + 1..a + 1 + b])
  {
    assert DigitsBetween(t, a + 1, a + 1 + b);
  }

  /** The search in the squeezed canonical token finds the token itself. */
  lemma CanonicalFirst(t: string, a: nat, b: nat)
    requires Layout(t, a, b) && 4 <= a <= 6 && 5 <= b <= 7
    ensures Search(Squeeze(t), 0, CompactMatch) == Some(Hit(0, |t|, Groups(t[..a], t[a], t[a + 1..a + 1 + b], t[a + 1 + b])))
  {
    CanonicalSqueeze(t, a, b);
    CanonicalSearch(t, a, b);
  }

  /** The decoder returns the decoding of the first match. */
  lemma ParseFirst(s: string, h: Hit<Groups>)
    requires s != [] && Search(Squeeze(s), 0, CompactMatch) == Some(h)
    ensures AllDigits(h.value.lat) && AllDigits(h.value.lon)
    ensures ParseLegacyCoord(s) == DecodeGroups(h.value)
  {
  }

  /** A canonical token decodes through its own groups. */
  lemma CanonicalParse(t: string, a: nat, b: nat)
    requires Layout(t, a, b) && 4 <= a <= 6 && 5 <= b <= 7
    ensures AllDigits(t[..a]) && AllDigits(t[a + 1..a + 1 + b])
    ensures ParseLegacyCoord(t) == DecodeGroups(Groups(t[..a], t[a], t[a + 1..a + 1 + b], t[a + 1 + b]))
  {
    CanonicalFirst(t, a, b);
    ParseFirst(t, Hit(0, |t|, Groups(t[..a], t[a], t[a + 1..a + 1 + b], t[a + 1 + b])));
  }

  /** Two-digit degrees and minutes read back as `deg + min/60`. */
  lemma LatMinutes(deg: nat, min: nat)
    requires deg < 100 && min < 100
    ensures AllDigits(Pad2(deg) + Pad2(min))
    ensures ToDeg(Pad2(deg) + Pad2(min), true) == Some(deg as real + min as real / 60.0)
  {
    var d := Pad2(deg) + Pad2(min);
    assert d[..2] == Pad2(deg) && d[2..4] == Pad2(min);
  }

  lemma LonMinutes(deg: nat, min: nat)
    requires deg < 1000 && min < 100
    ensures AllDigits(Pad3(deg) + Pad2(min))
    ensures ToDeg(Pad3(deg) + Pad2(min), false) == Some(deg as real + min as real / 60.0)
  {
    var d := Pad3(deg) + Pad2(min);
    assert d[..3] == Pad3(deg) && d[3..5] == Pad2(min);
  }

  lemma LatSeconds(deg: nat, min: nat, sec: nat)
    requires deg < 100 && min < 100 && sec < 100
    ensures AllDigits(Pad2(deg) + Pad2(min) + Pad2(sec))
    ensures ToDeg(Pad2(deg) + Pad2(min) + Pad2(sec), true) == Some(deg as real + min as real / 60.0 + sec as real / 3600.0)
  {
    var d := Pad2(deg) + Pad2(min) + Pad2(sec);
    assert d[..2] == Pad2(deg) && d[2..4] == Pad2(min) && d[4..6] == Pad2(sec);
  }

  lemma LonSeconds(deg: nat, min: nat, sec: nat)
    requires deg < 1000 && min < 100 && sec < 100
    ensures AllDigits(Pad3(deg) + Pad2(min) + Pad2(sec))
    ensures ToDeg(Pad3(deg) + Pad2(min) + Pad2(sec), false) == Some(deg as real + min as real / 60.0 + sec as real / 3600.0)
  {
    var d := Pad3(deg) + Pad2(min) + Pad2(sec);
    assert d[..3] == Pad3(deg) && d[3..5] == Pad2(min) && d[5..7] == Pad2(sec);
  }

  /** A token assembled from well-shaped groups decodes through exactly those groups. */
  lemma ParseAssembled(la: string, ns: char, lo: string, ew: char)
    requires AllDigits(la) && AllDigits(lo) && 4 <= |la| <= 6 && 5 <= |lo| <= 7 && IsNS(ns) && IsEW(ew)
    ensures ParseLegacyCoord(la + [ns] + lo + [ew]) == DecodeGroups(Groups(la, ns, lo, ew))
  {
    var t := la + [ns] + lo + [ew];
    var a, b := |la|, |lo|;
    assert t[..a] == la && t[a] == ns && t[a + 1..a + 1 + b] == lo && t[a + 1 + b] == ew;
    assert DigitsBetween(t, 0, a) by {
      forall k | 0 <= k < a ensures IsDigit(t[k]) {
        assert t[k] == la[k];
      }
    }
    assert DigitsBetween(t, a + 1, a + 1 + b) by {
      forall k | a + 1 <= k < a + 1 + b ensures IsDigit(t[k]) {
        assert t[k] == lo[k - a - 1];
      }
    }
    assert Layout(t, a, b);
    CanonicalParse(t, a, b);
  }

  /** Decoding groups whose digit strings read as `x` and `y` gives the signed pair. */
  lemma DecodeSigned(la: string, lo: string, south: bool, west: bool, x: real, y: real)
    requires AllDigits(la) && AllDigits(lo)
    requires ToDeg(la, true) == Some(x) && ToDeg(lo, false) == Some(y)
    ensures DecodeGroups(Groups(la, if south then 'S' else 'N', lo, if west then 'W' else 'E'))
         == Some(LatLon(Hemisphere(x, south), Hemisphere(y, west)))
  {
  }

  /** The same, with the digit groups read as `x` and `y`. */
  lemma ParseAssembledAs(t: string, la: string, lo: string, south: bool, west: bool, x: real, y: real)
    requires t == la + [if south then 'S' else 'N'] + lo + [if west then 'W' else 'E']
    requires AllDigits(la) && AllDigits(lo) && 4 <= |la| <= 6 && 5 <= |lo| <= 7
    requires ToDeg(la, true) == Some(x) && ToDeg(lo, false) == Some(y)
    ensures ParseLegacyCoord(t) == Some(LatLon(Hemisphere(x, south), Hemisphere(y, west)))
  {
    ParseAssembled(la, if south then 'S' else 'N', lo, if west then 'W' else 'E');
    DecodeSigned(la, lo, south, west, x, y);
  }

  /**
   * On a canonical minutes-form token `DDMM[N|S]DDDMM[E|W]` the legacy
   * decoder gives `deg + min/60` with the hemisphere signs.
   */
  lemma {:induction false} LegacyMinutesRoundTrip(latDeg: nat, latMin: nat, south: bool, lonDeg: nat, lonMin: nat, west: bool)
    requires latDeg < 100 && latMin < 100 && lonDeg < 1000 && lonMin < 100
    ensures ParseLegacyCoord(EncodeMinutes(latDeg, latMin, south, lonDeg, lonMin, west))
         == Some(MinutesPoint(latDeg, latMin, south, lonDeg, lonMin, west))
  {
    var t := EncodeMinutes(latDeg, latMin, south, lonDeg, lonMin, west);
    var x, y := latDeg as real + latMin as real / 60.0, lonDeg as real + lonMin as real / 60.0;
    assert LatLon(Hemisphere(x, south), Hemisphere(y, west)) == MinutesPoint(latDeg, latMin, south, lonDeg, lonMin, west);
    MinutesDecodes(t, latDeg, latMin, south, lonDeg, lonMin, west, x, y);
  }

  lemma MinutesDecodes(t: string, latDeg: nat, latMin: nat, south: bool, lonDeg: nat, lonMin: nat, west: bool, x: real, y: real)
    requires latDeg < 100 && latMin < 100 && lonDeg < 1000 && lonMin < 100
    requires t == EncodeMinutes(latDeg, latMin, south, lonDeg, lonMin, west)
    requires x == latDeg as real + latMin as real / 60.0 && y == lonDeg as real + lonMin as real / 60.0
    ensures ParseLegacyCoord(t) == Some(LatLon(Hemisphere(x, south), Hemisphere(y, west)))
  {
    var la, lo := Pad2(latDeg) + Pad2(latMin), Pad3(lonDeg) + Pad2(lonMin);
    MinutesShape(latDeg, latMin, south, lonDeg, lonMin, west);
    LatMinutes(latDeg, latMin);
    LonMinutes(lonDeg, lonMin);
    ParseAssembledAs(t, la, lo, south, west, x, y);
  }

  /** The same on a canonical seconds-form token: `deg + min/60 + sec/3600`. */
  lemma {:induction false} LegacySecondsRoundTrip(latDeg: nat, latMin: nat, latSec: nat, south: bool,
                                                  lonDeg: nat, lonMin: nat, lonSec: nat, west: bool)
    requires latDeg < 100 && latMin < 100 && latSec < 100
    requires lonDeg < 1000 && lonMin < 100 && lonSec < 100
    ensures ParseLegacyCoord(EncodeSeconds(latDeg, latMin, latSec, south, lonDeg, lonMin, lonSec, west))
         == Some(SecondsPoint(latDeg, latMin, latSec, south, lonDeg, lonMin, lonSec, west))
  {
    var t := EncodeSeconds(latDeg, latMin, latSec, south, lonDeg, lonMin, lonSec, west);
    var x, y := latDeg as real + latMin as real / 60.0 + latSec as real / 3600.0,
                lonDeg as real + lonMin as real / 60.0 + lonSec as real / 3600.0;
    assert LatLon(Hemisphere(x, south), Hemisphere(y, west)) == SecondsPoint(latDeg, latMin, latSec, south, lonDeg, lonMin, lonSec, west);
    SecondsDecodes(t, latDeg, latMin, latSec, south, lonDeg, lonMin, lonSec, west, x, y);
  }

  lemma SecondsDecodes(t: string, latDeg: nat, latMin: nat, latSec: nat, south: bool,
                       lonDeg: nat, lonMin: nat, lonSec: nat, west: bool, x: real, y: real)
    requires latDeg < 100 && latMin < 100 && latSec < 100
    requires lonDeg < 1000 && lonMin < 100 && lonSec < 100
    requires t == EncodeSeconds(latDeg, latMin, latSec, south, lonDeg, lonMin, lonSec, west)
    requires x == latDeg as real + latMin as real / 60.0 + latSec as real / 3600.0
    requires y == lonDeg as real + lonMin as real / 60.0 + lonSec as real / 3600.0
    ensures ParseLegacyCoord(t) == Some(LatLon(Hemisphere(x, south), Hemisphere(y, west)))
  {
    var la, lo := Pad2(latDeg) + Pad2(latMin) + Pad2(latSec), Pad3(lonDeg) + Pad2(lonMin) + Pad2(lonSec);
    SecondsShape(latDeg, latMin, latSec, south, lonDeg, lonMin, lonSec, west);
    LatSeconds(latDeg, latMin, latSec);
    LonSeconds(lonDeg, lonMin, lonSec);
    ParseAssembledAs(t, la, lo, south, west, x, y);
  }

  /** On canonical tokens of either form the legacy and the current decoder agree. */
  lemma DecodersAgree(latDeg: nat, latMin: nat, latSec: nat, south: bool,
                      lonDeg: nat, lonMin: nat, lonSec: nat, west: bool)
    requires latDeg < 100 && latMin < 100 && latSec < 100
    requires lonDeg < 1000 && lonMin < 100 && lonSec < 100
    ensures var t := EncodeMinutes(latDeg, latMin, south, lonDeg, lonMin, west);
      ParseLegacyCoord(t) == ParseCompactCoord(t)
    ensures var t := EncodeSeconds(latDeg, latMin, latSec, south, lonDeg, lonMin, lonSec, west);
      ParseLegacyCoord(t) == ParseCompactCoord(t)
  {
    LegacyMinutesRoundTrip(latDeg, latMin, south, lonDeg, lonMin, west);
    MinutesRoundTrip(latDeg, latMin, south, lonDeg, lonMin, west);
    LegacySecondsRoundTrip(latDeg, latMin, latSec, south, lonDeg, lonMin, lonSec, west);
    SecondsRoundTrip(latDeg, latMin, latSec, south, lonDeg, lonMin, lonSec, west);
  }

  /**
   * The first compact match decides: a fifth latitude digit in front of a
   * valid token makes the result `None`.
   */
  lemma FiveDigitLatitude()
    ensures ParseLegacyCoord("15957N02905E").None?
  {
    var u := "15957N02905E";
    assert Layout(u, 5, 5);
    CanonicalSqueeze(u, 5, 5);
    CanonicalSearch(u, 5, 5);
  }

  /** The docstring examples (lines 112-115). */
  lemma ExampleTokens()
    ensures ParseLegacyCoord("5957N02905E") == Some(LatLon(59.0 + 57.0 / 60.0, 29.0 + 5.0 / 60.0))
    ensures ParseLegacyCoord("440846N0430829E")
         == Some(LatLon(44.0 + 8.0 / 60.0 + 46.0 / 3600.0, 43.0 + 8.0 / 60.0 + 29.0 / 3600.0))
  {
    ExampleMinutesToken();
    ExampleSecondsToken();
  }

  lemma ExampleMinutesToken()
    ensures ParseLegacyCoord("5957N02905E") == Some(LatLon(59.0 + 57.0 / 60.0, 29.0 + 5.0 / 60.0))
  {
    assert MinutesPoint(59, 57, false, 29, 5, false) == LatLon(59.0 + 57.0 / 60.0, 29.0 + 5.0 / 60.0);
    assert EncodeMinutes(59, 57, false, 29, 5, false) == "5957N02905E";
    LegacyMinutesRoundTrip(59, 57, false, 29, 5, false);
  }

  lemma ExampleSecondsToken()
    ensures ParseLegacyCoord("440846N0430829E")
         == Some(LatLon(44.0 + 8.0 / 60.0 + 46.0 / 3600.0, 43.0 + 8.0 / 60.0 + 29.0 / 3600.0))
  {
    assert SecondsPoint(44, 8, 46, false, 43, 8, 29, false) == LatLon(44.0 + 8.0 / 60.0 + 46.0 / 3600.0, 43.0 + 8.0 / 60.0 + 29.0 / 3600.0);
    ExampleSecondsText();
    LegacySecondsRoundTrip(44, 8, 46, false, 43, 8, 29, false);
  }
}
