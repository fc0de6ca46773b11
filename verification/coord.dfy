/**
 * The compact-coordinate decoder of backend/app/parser.py: a token such as
 * `5957N02905E` (degrees and minutes) or `440846N0430829E` (degrees, minutes
 * and seconds) becomes a latitude/longitude pair in decimal degrees.
 */
module CompactCoord {
  import opened Options
  import opened Strings

  /** A decoded position in decimal degrees, as an exact real. */
  datatype LatLon = LatLon(lat: real, lon: real)

  /** The characters the decoder keeps: `[0-9NSEWnsew]`. */
  predicate IsCoordChar(c: char) { IsDigit(c) || c in "NSEWnsew" }

  predicate IsNS(c: char) { c == 'N' || c == 'S' }
  predicate IsEW(c: char) { c == 'E' || c == 'W' }

  /** The text the patterns are matched against: foreign characters deleted, then upper-cased. */
  function Clean(s: string): (t: string)
    ensures |t| <= |s|
    ensures forall i :: 0 <= i < |t| ==> IsDigit(t[i]) || IsNS(t[i]) || IsEW(t[i])
  {
    Upper(Keep(s, IsCoordChar))
  }

  function Hemisphere(v: real, negative: bool): real {
    if negative then -v else v
  }

  /**
   * `t` is one latitude digit run of length `a`, N|S, one longitude digit run
   * of length `b`, E|W and nothing else.
   */
  predicate Layout(t: string, a: nat, b: nat) {
    && a + b + 2 == |t|
    && DigitsBetween(t, 0, a) && IsNS(t[a])
    && DigitsBetween(t, a + 1, a + 1 + b) && IsEW(t[a + 1 + b])
  }

  /** `^(\d{2,4})(\d{2})(N|S)(\d{2,3})(\d{2})(E|W)$`. */
  predicate MinutesForm(t: string, a: nat, b: nat) {
    Layout(t, a, b) && 4 <= a <= 6 && 4 <= b <= 5
  }

  /** `^(\d{2})(\d{2})(\d{2})(N|S)(\d{3})(\d{2})(\d{2})(E|W)$`. */
  predicate SecondsForm(t: string, a: nat, b: nat) {
    Layout(t, a, b) && a == 6 && b == 7
  }

  /** The number written by the digits `t[i..j]`. */
  function Field(t: string, i: nat, j: nat): nat
    requires DigitsBetween(t, i, j)
  {
    DigitsSlice(t, i, j);
    NumberOf(t[i..j])
  }

  /**
   * Degrees of a minutes-form latitude (line 36): group 1 is the latitude run
   * without its last two digits; when it has more than two digits, its own
   * last two digits are dropped as well.
   */
  function MinutesLatDegrees(t: string, a: nat): nat
    requires 4 <= a && DigitsBetween(t, 0, a)
  {
    if a - 2 > 2 then Field(t, 0, a - 4) else Field(t, 0, a - 2)
  }

  /** The minutes-form decoding of `t`. */
  function DecodeMinutes(t: string, a: nat, b: nat): LatLon
    requires MinutesForm(t, a, b)
  {
    var lat := MinutesLatDegrees(t, a) as real + Field(t, a - 2, a) as real / 60.0;
    var lon := Field(t, a + 1, a + b - 1) as real + Field(t, a + b - 1, a + b + 1) as real / 60.0;
    LatLon(Hemisphere(lat, t[a] == 'S'), Hemisphere(lon, t[a + b + 1] == 'W'))
  }

  /** The seconds-form decoding of `t`: `deg + min/60 + sec/3600` for each half. */
  function DecodeSeconds(t: string): LatLon
    requires SecondsForm(t, 6, 7)
  {
    var lat := Field(t, 0, 2) as real + Field(t, 2, 4) as real / 60.0 + Field(t, 4, 6) as real / 3600.0;
    var lon := Field(t, 7, 10) as real + Field(t, 10, 12) as real / 60.0 + Field(t, 12, 14) as real / 3600.0;
    LatLon(Hemisphere(lat, t[6] == 'S'), Hemisphere(lon, t[14] == 'W'))
  }

  lemma LayoutsOf(t: string)
    ensures forall a': nat, b': nat :: Layout(t, a', b') ==> a' == DigitRun(t, 0) && b' == |t| - a' - 2
  {
    forall a': nat, b': nat | Layout(t, a', b') ensures a' == DigitRun(t, 0) && b' == |t| - a' - 2 {
      LayoutUnique(t, a', b');
    }
  }

  /** A text whose cleaned form is in the minutes form is decoded in it. */
  lemma ParseMinutes(s: string, a: nat, b: nat)
    requires s != [] && MinutesForm(Clean(s), a, b)
    ensures ParseCompactCoord(s) == Some(DecodeMinutes(Clean(s), a, b))
  {
    CleanedMinutes(Clean(s), a, b);
  }

  lemma CleanedMinutes(t: string, a: nat, b: nat)
    requires MinutesForm(t, a, b)
    ensures ParseCleaned(t) == Some(DecodeMinutes(t, a, b))
  {
    LayoutUnique(t, a, b);
  }

  /** A text whose cleaned form is in the seconds form, and not in the minutes form, is decoded in it. */
  lemma ParseSeconds(s: string, a: nat, b: nat)
    requires s != [] && SecondsForm(Clean(s), a, b)
    ensures ParseCompactCoord(s) == Some(DecodeSeconds(Clean(s)))
  {
    CleanedSeconds(Clean(s), a, b);
  }

  lemma CleanedSeconds(t: string, a: nat, b: nat)
    requires SecondsForm(t, a, b)
    ensures ParseCleaned(t) == Some(DecodeSeconds(t))
  {
    LayoutUnique(t, a, b);
  }

  /** A layout is determined by its text: the latitude run is the leading digit run. */
  lemma LayoutUnique(t: string, a: nat, b: nat)
    requires Layout(t, a, b)
    ensures a == DigitRun(t, 0) && b == |t| - a - 2
  {
    RunIs(t, 0, a, IsDigit);
  }

  /**
   * `parse_compact_coord` (backend/app/parser.py:27-59), without the final
   * rounding: `None` for the empty string and for every text whose cleaned
   * form is in neither grammar; otherwise the minutes form is tried first.
   */
  function ParseCompactCoord(s: string): (r: Option<LatLon>)
    ensures r.Some? <==> s != [] && exists a: nat, b: nat :: MinutesForm(Clean(s), a, b) || SecondsForm(Clean(s), a, b)
  {
    if s == [] then None else ParseCleaned(Clean(s))
  }

  /** The two grammars tried on a cleaned text, the minutes form first. */
  function ParseCleaned(t: string): (r: Option<LatLon>)
    ensures r.Some? <==> exists a: nat, b: nat :: MinutesForm(t, a, b) || SecondsForm(t, a, b)
  {
    var a := DigitRun(t, 0);
    LayoutsOf(t);
    if a + 2 > |t| then None
    else
      var b := |t| - a - 2;
      if MinutesForm(t, a, b) then Some(DecodeMinutes(t, a, b))
      else if SecondsForm(t, a, b) then Some(DecodeSeconds(t))
      else None
  }

  /** The minutes-form token for whole degrees and minutes: `DDMM[N|S]DDDMM[E|W]`. */
  function EncodeMinutes(latDeg: nat, latMin: nat, south: bool, lonDeg: nat, lonMin: nat, west: bool): (t: string)
    requires latDeg < 100 && latMin < 100 && lonDeg < 1000 && lonMin < 100
    ensures |t| == 11
  {
    Pad2(latDeg) + Pad2(latMin) + [if south then 'S' else 'N'] + Pad3(lonDeg) + Pad2(lonMin) + [if west then 'W' else 'E']
  }

  /** The seconds-form token: `DDMMSS[N|S]DDDMMSS[E|W]`. */
  function EncodeSeconds(latDeg: nat, latMin: nat, latSec: nat, south: bool,
                         lonDeg: nat, lonMin: nat, lonSec: nat, west: bool): (t: string)
    requires latDeg < 100 && latMin < 100 && latSec < 100
    requires lonDeg < 1000 && lonMin < 100 && lonSec < 100
    ensures |t| == 15
  {
    Pad2(latDeg) + Pad2(latMin) + Pad2(latSec) + [if south then 'S' else 'N']
      + Pad3(lonDeg) + Pad2(lonMin) + Pad2(lonSec) + [if west then 'W' else 'E']
  }

  /** The point a minutes-form token stands for: `deg + min/60`, negative in the south and the west. */
  function MinutesPoint(latDeg: nat, latMin: nat, south: bool, lonDeg: nat, lonMin: nat, west: bool): LatLon {
    LatLon(Hemisphere(latDeg as real + latMin as real / 60.0, south), Hemisphere(lonDeg as real + lonMin as real / 60.0, west))
  }

  /** The point a seconds-form token stands for: `deg + min/60 + sec/3600`, signed the same way. */
  function SecondsPoint(latDeg: nat, latMin: nat, latSec: nat, south: bool,
                        lonDeg: nat, lonMin: nat, lonSec: nat, west: bool): LatLon {
    LatLon(Hemisphere(latDeg as real + latMin as real / 60.0 + latSec as real / 3600.0, south),
           Hemisphere(lonDeg as real + lonMin as real / 60.0 + lonSec as real / 3600.0, west))
  }

  /** A minutes-form token is its latitude digits, N|S, its longitude digits and E|W. */
  lemma MinutesShape(latDeg: nat, latMin: nat, south: bool, lonDeg: nat, lonMin: nat, west: bool)
    requires latDeg < 100 && latMin < 100 && lonDeg < 1000 && lonMin < 100
    ensures EncodeMinutes(latDeg, latMin, south, lonDeg, lonMin, west)
         == (Pad2(latDeg) + Pad2(latMin)) + [if south then 'S' else 'N'] + (Pad3(lonDeg) + Pad2(lonMin)) + [if west then 'W' else 'E']
  {
  }

  /** A seconds-form token is its latitude digits, N|S, its longitude digits and E|W. */
  lemma SecondsShape(latDeg: nat, latMin: nat, latSec: nat, south: bool, lonDeg: nat, lonMin: nat, lonSec: nat, west: bool)
    requires latDeg < 100 && latMin < 100 && latSec < 100
    requires lonDeg < 1000 && lonMin < 100 && lonSec < 100
    ensures EncodeSeconds(latDeg, latMin, latSec, south, lonDeg, lonMin, lonSec, west)
         == (Pad2(latDeg) + Pad2(latMin) + Pad2(latSec)) + [if south then 'S' else 'N']
          + (Pad3(lonDeg) + Pad2(lonMin) + Pad2(lonSec)) + [if west then 'W' else 'E']
  {
  }

  /** Cleaning leaves a text that holds only upper-case coordinate characters unchanged. */
  lemma {:induction false} CleanKeeps(t: string)
    requires forall i :: 0 <= i < |t| ==> IsDigit(t[i]) || IsNS(t[i]) || IsEW(t[i])
    ensures Clean(t) == t
  {
    assert Keep(t, IsCoordChar) == t;
    assert Upper(t) == t;
  }

  /** Decoding inverts encoding in the minutes form: every minutes-form token decodes to `deg + min/60`. */
  lemma {:induction false} MinutesRoundTrip(latDeg: nat, latMin: nat, south: bool, lonDeg: nat, lonMin: nat, west: bool)
    requires latDeg < 100 && latMin < 100 && lonDeg < 1000 && lonMin < 100
    ensures ParseCompactCoord(EncodeMinutes(latDeg, latMin, south, lonDeg, lonMin, west))
         == Some(MinutesPoint(latDeg, latMin, south, lonDeg, lonMin, west))
  {
    var t := EncodeMinutes(latDeg, latMin, south, lonDeg, lonMin, west);
    MinutesParts(latDeg, latMin, south, lonDeg, lonMin, west);
    CleanKeeps(t);
    assert MinutesForm(t, 4, 5);
    MinutesValue(t, latDeg, latMin, south, lonDeg, lonMin, west);
    ParseMinutes(t, 4, 5);
  }

  /** A minutes-form token with these fields decodes to their point. */
  lemma MinutesValue(t: string, latDeg: nat, latMin: nat, south: bool, lonDeg: nat, lonMin: nat, west: bool)
    requires MinutesForm(t, 4, 5)
    requires Field(t, 0, 2) == latDeg && Field(t, 2, 4) == latMin
    requires Field(t, 5, 8) == lonDeg && Field(t, 8, 10) == lonMin
    requires (t[4] == 'S') == south && (t[10] == 'W') == west
    ensures DecodeMinutes(t, 4, 5) == MinutesPoint(latDeg, latMin, south, lonDeg, lonMin, west)
  {
  }

  /** Where the fields of a minutes-form token sit. */
  lemma MinutesParts(latDeg: nat, latMin: nat, south: bool, lonDeg: nat, lonMin: nat, west: bool)
    requires latDeg < 100 && latMin < 100 && lonDeg < 1000 && lonMin < 100
    ensures var t := EncodeMinutes(latDeg, latMin, south, lonDeg, lonMin, west);
      && t[0..2] == Pad2(latDeg) && t[2..4] == Pad2(latMin) && t[4] == (if south then 'S' else 'N')
      && t[5..8] == Pad3(lonDeg) && t[8..10] == Pad2(lonMin) && t[10] == (if west then 'W' else 'E')
  {
    var t := EncodeMinutes(latDeg, latMin, south, lonDeg, lonMin, west);
    var p1, p2, p3, p4 := Pad2(latDeg), Pad2(latMin), Pad3(lonDeg), Pad2(lonMin);
    var c, e := if south then 'S' else 'N', if west then 'W' else 'E';
    assert t == p1 + p2 + [c] + p3 + p4 + [e];
    assert forall i :: 0 <= i < 2 ==> t[i] == p1[i];
    assert forall i :: 2 <= i < 4 ==> t[i] == p2[i - 2];
    assert forall i :: 5 <= i < 8 ==> t[i] == p3[i - 5];
    assert forall i :: 8 <= i < 10 ==> t[i] == p4[i - 8];
  }

  /** Decoding inverts encoding in the seconds form: `deg + min/60 + sec/3600`. */
  lemma {:induction false} SecondsRoundTrip(latDeg: nat, latMin: nat, latSec: nat, south: bool,
                                            lonDeg: nat, lonMin: nat, lonSec: nat, west: bool)
    requires latDeg < 100 && latMin < 100 && latSec < 100
    requires lonDeg < 1000 && lonMin < 100 && lonSec < 100
    ensures ParseCompactCoord(EncodeSeconds(latDeg, latMin, latSec, south, lonDeg, lonMin, lonSec, west))
         == Some(SecondsPoint(latDeg, latMin, latSec, south, lonDeg, lonMin, lonSec, west))
  {
    var t := EncodeSeconds(latDeg, latMin, latSec, south, lonDeg, lonMin, lonSec, west);
    SecondsFields(latDeg, latMin, latSec, south, lonDeg, lonMin, lonSec, west);
    SecondsValue(t, latDeg, latMin, latSec, south, lonDeg, lonMin, lonSec, west);
    ParseSeconds(t, 6, 7);
  }

  /** A seconds-form token with these fields decodes to their point. */
  lemma SecondsValue(t: string, latDeg: nat, latMin: nat, latSec: nat, south: bool,
                     lonDeg: nat, lonMin: nat, lonSec: nat, west: bool)
    requires SecondsForm(t, 6, 7)
    requires Field(t, 0, 2) == latDeg && Field(t, 2, 4) == latMin && Field(t, 4, 6) == latSec
    requires Field(t, 7, 10) == lonDeg && Field(t, 10, 12) == lonMin && Field(t, 12, 14) == lonSec
    requires (t[6] == 'S') == south && (t[14] == 'W') == west
    ensures DecodeSeconds(t) == SecondsPoint(latDeg, latMin, latSec, south, lonDeg, lonMin, lonSec, west)
  {
  }

  lemma SecondsFields(latDeg: nat, latMin: nat, latSec: nat, south: bool,
                      lonDeg: nat, lonMin: nat, lonSec: nat, west: bool)
    requires latDeg < 100 && latMin < 100 && latSec < 100
    requires lonDeg < 1000 && lonMin < 100 && lonSec < 100
    ensures var t := EncodeSeconds(latDeg, latMin, latSec, south, lonDeg, lonMin, lonSec, west);
      Clean(t) == t && t != [] && SecondsForm(t, 6, 7)
      && Field(t, 0, 2) == latDeg && Field(t, 2, 4) == latMin && Field(t, 4, 6) == latSec
      && Field(t, 7, 10) == lonDeg && Field(t, 10, 12) == lonMin && Field(t, 12, 14) == lonSec
      && (t[6] == 'S') == south && (t[14] == 'W') == west
  {
    var t := EncodeSeconds(latDeg, latMin, latSec, south, lonDeg, lonMin, lonSec, west);
    SecondsParts(latDeg, latMin, latSec, south, lonDeg, lonMin, lonSec, west);
    FieldIs(t, 0, 2, Pad2(latDeg), latDeg);
    FieldIs(t, 2, 4, Pad2(latMin), latMin);
    FieldIs(t, 4, 6, Pad2(latSec), latSec);
    FieldIs(t, 7, 10, Pad3(lonDeg), lonDeg);
    FieldIs(t, 10, 12, Pad2(lonMin), lonMin);
    FieldIs(t, 12, 14, Pad2(lonSec), lonSec);
    CleanKeeps(t);
  }

  /** A digit slice written as the number `x` is a field holding `x`. */
  lemma FieldIs(t: string, i: nat, j: nat, v: string, x: nat)
    requires i <= j <= |t| && t[i..j] == v && AllDigits(v) && NumberOf(v) == x
    ensures DigitsBetween(t, i, j) && Field(t, i, j) == x
  {
    assert forall k :: i <= k < j ==> t[k] == v[k - i];
  }

  /** Where the fields of a seconds-form token sit. */
  lemma SecondsParts(latDeg: nat, latMin: nat, latSec: nat, south: bool,
                     lonDeg: nat, lonMin: nat, lonSec: nat, west: bool)
    requires latDeg < 100 && latMin < 100 && latSec < 100
    requires lonDeg < 1000 && lonMin < 100 && lonSec < 100
    ensures var t := EncodeSeconds(latDeg, latMin, latSec, south, lonDeg, lonMin, lonSec, west);
      && t[0..2] == Pad2(latDeg) && t[2..4] == Pad2(latMin) && t[4..6] == Pad2(latSec) && t[6] == (if south then 'S' else 'N')
      && t[7..10] == Pad3(lonDeg) && t[10..12] == Pad2(lonMin) && t[12..14] == Pad2(lonSec) && t[14] == (if west then 'W' else 'E')
  {
    var t := EncodeSeconds(latDeg, latMin, latSec, south, lonDeg, lonMin, lonSec, west);
    var p1, p2, p3 := Pad2(latDeg), Pad2(latMin), Pad2(latSec);
    var q1, q2, q3 := Pad3(lonDeg), Pad2(lonMin), Pad2(lonSec);
    var c, e := if south then 'S' else 'N', if west then 'W' else 'E';
    assert t == p1 + p2 + p3 + [c] + q1 + q2 + q3 + [e];
    assert forall i :: 0 <= i < 2 ==> t[i] == p1[i];
    assert forall i :: 2 <= i < 4 ==> t[i] == p2[i - 2];
    assert forall i :: 4 <= i < 6 ==> t[i] == p3[i - 4];
    assert forall i :: 7 <= i < 10 ==> t[i] == q1[i - 7];
    assert forall i :: 10 <= i < 12 ==> t[i] == q2[i - 10];
    assert forall i :: 12 <= i < 14 ==> t[i] == q3[i - 12];
  }

  /** The unit test's token: `5957N02905E` is 59 deg 57 min north, 29 deg 5 min east. */
  lemma ExampleMinutes()
    ensures ParseCompactCoord("5957N02905E") == Some(LatLon(59.0 + 57.0 / 60.0, 29.0 + 5.0 / 60.0))
  {
    assert MinutesPoint(59, 57, false, 29, 5, false) == LatLon(59.0 + 57.0 / 60.0, 29.0 + 5.0 / 60.0);
    assert EncodeMinutes(59, 57, false, 29, 5, false) == "5957N02905E";
    MinutesRoundTrip(59, 57, false, 29, 5, false);
  }

  /** `440846N0430829E` has seven longitude digits and so is read in the seconds form. */
  lemma ExampleSeconds()
    ensures ParseCompactCoord("440846N0430829E")
         == Some(LatLon(44.0 + 8.0 / 60.0 + 46.0 / 3600.0, 43.0 + 8.0 / 60.0 + 29.0 / 3600.0))
  {
    ExampleSecondsPoint();
    ExampleSecondsText();
    SecondsRoundTrip(44, 8, 46, false, 43, 8, 29, false);
  }

  lemma ExampleSecondsPoint()
    ensures SecondsPoint(44, 8, 46, false, 43, 8, 29, false)
         == LatLon(44.0 + 8.0 / 60.0 + 46.0 / 3600.0, 43.0 + 8.0 / 60.0 + 29.0 / 3600.0)
  {
  }

  lemma ExampleSecondsText()
    ensures EncodeSeconds(44, 8, 46, false, 43, 8, 29, false) == "440846N0430829E"
  {
    SecondsShape(44, 8, 46, false, 43, 8, 29, false);
    ExampleLatText();
    ExampleLonText();
  }

  lemma ExampleLatText()
    ensures Pad2(44) + Pad2(8) + Pad2(46) == "440846"
  {
    assert Pad2(44) == "44" && Pad2(8) == "08" && Pad2(46) == "46";
  }

  lemma ExampleLonText()
    ensures Pad3(43) + Pad2(8) + Pad2(29) == "0430829"
  {
    assert Pad3(43) == "043" && Pad2(8) == "08" && Pad2(29) == "29";
  }
}
