/**
 * Dates and times of backend/app/parser.py: the DOF date reader, the ATD/ATA
 * time reader, the date+time combiner that renders `YYYY-MM-DDTHH:MM:00Z`,
 * reading such a stamp back, and the minute count that orders stamps.
 */
module Temporal {
  import opened Options
  import opened Strings
  import opened Scan

  // ---------------------------------------------------------------- DOF

  predicate IsDofSep(c: char) { c == '/' || IsSpace(c) }

  /**
   * `\bDOF[/\s]?(\d{6})\b` at `p`. When a separator follows `DOF`, dropping it
   * leaves a non-digit in front of the digits, so the optional separator is
   * taken whenever it is there.
   */
  function DofMatch(txt: string, p: nat): (r: Option<Span<string>>)
    ensures r.Some? ==> |r.value.value| == 6 && AllDigits(r.value.value) && Within(r.value.value, txt)
  {
    if !(Boundary(txt, p) && At(txt, p, "DOF")) then None
    else
      var k := if p + 3 < |txt| && IsDofSep(txt[p + 3]) then p + 4 else p + 3;
      if DigitsBetween(txt, k, k + 6) && Boundary(txt, k + 6) then
        SliceWithin(txt, k, k + 6);
        Some(Span(k + 6, txt[k..k + 6]))
      else None
  }

  /** `parse_dof` (backend/app/parser.py:85-91): the six digits of the leftmost DOF marker. */
  function ParseDof(txt: string): (r: Option<string>)
    ensures r.Some? ==> |r.value| == 6 && AllDigits(r.value) && Within(r.value, txt)
    ensures r.Some? <==> txt != [] && exists p :: 0 <= p <= |txt| && DofMatch(txt, p).Some?
    ensures r.Some? ==>
      exists p :: 0 <= p <= |txt| && DofMatch(txt, p).Some? && DofMatch(txt, p).value.value == r.value
        && forall q :: 0 <= q < p ==> DofMatch(txt, q).None?
  {
    if txt == [] then None
    else match Search(txt, 0, DofMatch)
      case None => None
      case Some(h) => Some(h.value)
  }

  // ---------------------------------------------------------------- clock text

  /** An `HH:MM` text with hour below 24 and minute below 60. */
  predicate IsClockText(s: string) {
    |s| == 5 && s[2] == ':' && AllDigits(s[..2]) && AllDigits(s[3..])
    && NumberOf(s[..2]) < 24 && NumberOf(s[3..]) < 60
  }

  /** `f"{hh:02d}:{mm:02d}"`. */
  function HhMm(h: nat, m: nat): (s: string)
    requires h < 24 && m < 60
    ensures IsClockText(s) && NumberOf(s[..2]) == h && NumberOf(s[3..]) == m
  {
    var s := Pad2(h) + ":" + Pad2(m);
    assert s[..2] == Pad2(h) && s[3..] == Pad2(m);
    s
  }

  /** Every clock text is the rendering of its own hour and minute. */
  lemma ClockTextRoundTrip(s: string)
    requires IsClockText(s)
    ensures s == HhMm(NumberOf(s[..2]), NumberOf(s[3..]))
  {
    Pad2Of(s[..2]);
    Pad2Of(s[3..]);
    assert s == s[..2] + ":" + s[3..];
  }

  // ---------------------------------------------------------------- ATD / ATA

  predicate IsTimeSep(c: char) { IsSpace(c) || c == ':' || c == '/' || c == '-' }

  /**
   * `\b<marker>[\s:/-]?(\d{3,4})\b` at `p`. A closing `\b` cannot fall between
   * two digits, so the digit run after the (greedily taken) separator must be
   * exactly 3 or 4 long and end at a boundary.
   */
  function MarkerMatch(marker: string, txt: string, p: nat): (r: Option<Span<string>>)
    ensures r.Some? ==> 3 <= |r.value.value| <= 4 && AllDigits(r.value.value)
  {
    if !(Boundary(txt, p) && At(txt, p, marker)) then None
    else
      var k := if p + |marker| < |txt| && IsTimeSep(txt[p + |marker|]) then p + |marker| + 1 else p + |marker|;
      var d := DigitRun(txt, k);
      if (d == 3 || d == 4) && Boundary(txt, k + d) then DigitsSlice(txt, k, k + d); Some(Span(k + d, txt[k..k + d])) else None
  }

  function AtdMatch(txt: string, p: nat): (r: Option<Span<string>>)
    ensures r.Some? ==> 3 <= |r.value.value| <= 4 && AllDigits(r.value.value)
  {
    MarkerMatch("ATD", txt, p)
  }

  function AtaMatch(txt: string, p: nat): (r: Option<Span<string>>)
    ensures r.Some? ==> 3 <= |r.value.value| <= 4 && AllDigits(r.value.value)
  {
    MarkerMatch("ATA", txt, p)
  }

  /** `\b(\d{4})\b` at `p`: a standalone run of exactly four digits. */
  function BareMatch(txt: string, p: nat): (r: Option<Span<string>>)
    ensures r.Some? ==> |r.value.value| == 4 && AllDigits(r.value.value)
  {
    if DigitRun(txt, p) == 4 && Boundary(txt, p) && Boundary(txt, p + 4)
    then Some(Span(p + 4, txt[p..p + 4])) else None
  }

  /** A 3-digit token is `H MM`, a 4-digit one `HH MM`; out-of-range values give nothing. */
  function DecodeClock(v: string): (r: Option<string>)
    requires 3 <= |v| <= 4 && AllDigits(v)
    ensures r.Some? <==> NumberOf(v) / 100 < 24 && NumberOf(v) % 100 < 60
    ensures r.Some? ==> IsClockText(r.value)
    ensures r.Some? ==> NumberOf(r.value[..2]) * 100 + NumberOf(r.value[3..]) == NumberOf(v)
  {
    var cut := |v| - 2;
    var hh := NumberOf(v[..cut]);
    var mm := NumberOf(v[cut..]);
    NumberOfConcat(v[..cut], v[cut..]);
    NumberOfBound(v[cut..]);
    assert Pow10(|v[cut..]|) == 100;
    assert v[..cut] + v[cut..] == v;
    SplitHundreds(hh, mm);
    if hh < 24 && mm < 60 then Some(HhMm(hh, mm)) else None
  }

  /** The decoding of the leftmost match of `m`, or nothing when `m` matches nowhere. */
  function FirstClock(txt: string, m: Matcher<string>): (r: Option<string>)
    requires forall s, p :: m(s, p).Some? ==> 3 <= |m(s, p).value.value| <= 4 && AllDigits(m(s, p).value.value)
    ensures r.Some? ==> IsClockText(r.value)
    ensures Search(txt, 0, m).None? ==> r.None?
    ensures Search(txt, 0, m).Some? ==> r == DecodeClock(Search(txt, 0, m).value.value)
  {
    match Search(txt, 0, m)
    case None => None
    case Some(h) => DecodeClock(h.value)
  }

  /**
   * `parse_time_token` (backend/app/parser.py:93-123): the first ATD token if
   * it is a valid clock time, else the first ATA token if valid, else the
   * first standalone 4-digit run if valid.
   */
  function ParseTimeToken(txt: string): (r: Option<string>)
    ensures r.Some? ==> IsClockText(r.value)
    ensures txt == [] ==> r.None?
    ensures txt != [] && FirstClock(txt, AtdMatch).Some? ==> r == FirstClock(txt, AtdMatch)
  {
    if txt == [] then None
    else Or(FirstClock(txt, AtdMatch), Or(FirstClock(txt, AtaMatch), FirstClock(txt, BareMatch)))
  }

  /** Without a valid first ATD token, a valid first ATA token wins over the bare digits. */
  lemma AtaSecond(txt: string)
    requires txt != [] && FirstClock(txt, AtdMatch).None? && FirstClock(txt, AtaMatch).Some?
    ensures ParseTimeToken(txt) == FirstClock(txt, AtaMatch)
  {
  }

  /** Without a valid first ATD or ATA token, the first standalone four-digit run decides. */
  lemma BareThird(txt: string)
    requires txt != [] && FirstClock(txt, AtdMatch).None? && FirstClock(txt, AtaMatch).None?
    ensures ParseTimeToken(txt) == FirstClock(txt, BareMatch)
  {
  }

  /** No time exactly when the text is empty or none of the three rules gives one. */
  lemma TimeNoneIff(txt: string)
    ensures ParseTimeToken(txt).None? <==>
      (txt == [] || (FirstClock(txt, AtdMatch).None? && FirstClock(txt, AtaMatch).None? && FirstClock(txt, BareMatch).None?))
  {
  }

  /**
   * Only the leftmost ATD token is looked at: when it is out of range the
   * ATA and bare rules decide, whatever ATD tokens follow it.
   */
  lemma OutOfRangeAtdFallsThrough(txt: string)
    requires txt != [] && Search(txt, 0, AtdMatch).Some?
    requires var v := Search(txt, 0, AtdMatch).value.value; NumberOf(v) / 100 >= 24 || NumberOf(v) % 100 >= 60
    ensures ParseTimeToken(txt) == Or(FirstClock(txt, AtaMatch), FirstClock(txt, BareMatch))
  {
  }

  /** A valid ATD token after an out-of-range one: `25:00` is refused and `07:05` is never looked at. */
  const LateAtdText := "ATD 2500 ATD 0705"

  /** Neither the ATA rule nor the bare rule rescues `LateAtdText`: its bare run is `2500` too. */
  lemma LateAtdExample()
    ensures ParseTimeToken(LateAtdText).None?
  {
    LateAtdFirst();
    LateNoAta();
    LateBareFirst();
    OutOfRange2500();
    OutOfRangeAtdFallsThrough(LateAtdText);
  }

  lemma LateAtdFirst()
    ensures Search(LateAtdText, 0, AtdMatch) == Some(Hit(0, 8, "2500"))
  {
    LateAtdAt();
    SearchFinds(LateAtdText, 0, AtdMatch, 0);
  }

  lemma LateAtdAt()
    ensures AtdMatch(LateAtdText, 0) == Some(Span(8, "2500"))
  {
    LateAtdMarker();
    LateDigits();
  }

  lemma LateAtdMarker()
    ensures Boundary(LateAtdText, 0) && At(LateAtdText, 0, "ATD") && IsTimeSep(LateAtdText[3])
  {
    AtChars(LateAtdText, 0, "ATD");
  }

  /** The first digit run: `2500` at 4..8, standing alone. */
  lemma LateDigits()
    ensures DigitRun(LateAtdText, 4) == 4 && Boundary(LateAtdText, 4) && Boundary(LateAtdText, 8)
    ensures LateAtdText[4..8] == "2500"
  {
    RunIs(LateAtdText, 4, 4, IsDigit);
  }

  lemma LateNoAta()
    ensures Search(LateAtdText, 0, AtaMatch).None?
  {
    var t := LateAtdText;
    forall q | 0 <= q <= |t| ensures !At(t, q, "ATA") {
      AtChars(t, q, "ATA");
      if q == 0 || q == 9 {
        assert t[q + 2] != "ATA"[2];
      } else if q < |t| {
        assert t[q] != "ATA"[0];
      }
    }
    forall q | 0 <= q <= |t| ensures AtaMatch(t, q).None? {
    }
  }

  lemma LateBareFirst()
    ensures Search(LateAtdText, 0, BareMatch) == Some(Hit(4, 8, "2500"))
  {
    LateNoEarlyBare();
    LateDigits();
    assert BareMatch(LateAtdText, 4) == Some(Span(8, "2500"));
    SearchFinds(LateAtdText, 0, BareMatch, 4);
  }

  lemma LateNoEarlyBare()
    ensures forall q :: 0 <= q < 4 ==> BareMatch(LateAtdText, q).None?
  {
    var t := LateAtdText;
    forall q | 0 <= q < 4 ensures DigitRun(t, q) == 0 {
      RunIs(t, q, 0, IsDigit);
    }
  }

  lemma OutOfRange2500()
    ensures AllDigits("2500") && NumberOf("2500") / 100 == 25 && DecodeClock("2500").None?
  {
    assert NumberOf("25") == 25;
    NumberOfConcat("25", "00");
    assert "25" + "00" == "2500";
  }

  // ---------------------------------------------------------------- int()

  /** Digits with single underscores between them, as `int()` accepts. */
  predicate UnderscoredDigits(b: string) {
    && |b| > 0 && IsDigit(b[0]) && IsDigit(b[|b| - 1])
    && (forall i :: 0 <= i < |b| ==> IsDigit(b[i]) || b[i] == '_')
    && (forall i, j :: 0 <= i < |b| && j == i + 1 < |b| && b[i] == '_' ==> IsDigit(b[j]))
  }

  /** `int(s)` in base 10: surrounding white space, an optional sign, digits with single underscores. */
  function PyInt(s: string): (r: Option<int>)
    ensures IsDigitString(s) ==> r == Some(NumberOf(s))
  {
    if IsDigitString(s) then PyIntOfDigits(s); PyIntOf(s) else PyIntOf(s)
  }

  /** A plain digit string is already stripped, unsigned and free of underscores. */
  lemma PyIntOfDigits(s: string)
    requires IsDigitString(s)
    ensures PyIntOf(s) == Some(NumberOf(s))
  {
    DigitsStripped(s);
    IntOfDigits(s);
  }

  lemma IntOfDigits(t: string)
    requires IsDigitString(t)
    ensures IntOfStripped(t) == Some(NumberOf(t))
  {
    assert t[0] != '+' && t[0] != '-';
    DigitsUnderscored(t);
    DigitsKept(t);
  }

  lemma DigitsStripped(s: string)
    requires IsDigitString(s)
    ensures Strip(s) == s
  {
    NoSpaceInDigits(s);
  }

  lemma DigitsUnderscored(s: string)
    requires IsDigitString(s)
    ensures UnderscoredDigits(s)
  {
  }

  lemma DigitsKept(s: string)
    requires IsDigitString(s)
    ensures Keep(s, IsDigit) == s
  {
  }

  lemma NoSpaceInDigits(s: string)
    requires AllDigits(s)
    ensures forall i :: 0 <= i < |s| ==> !IsSpace(s[i])
  {
    forall i | 0 <= i < |s| ensures !IsSpace(s[i]) {
      DigitNotSpace(s[i]);
    }
  }

  lemma DigitNotSpace(c: char)
    requires IsDigit(c)
    ensures !IsSpace(c)
  {
  }

  /** The body of `int(s)`. */
  function PyIntOf(s: string): Option<int> {
    IntOfStripped(Strip(s))
  }

  /** `int()` on a text already stripped of surrounding white space. */
  function IntOfStripped(t: string): Option<int> {
    if t == [] then None
    else
      var body := if t[0] == '+' || t[0] == '-' then t[1..] else t;
      if !UnderscoredDigits(body) then None
      else
        var n: int := NumberOf(Keep(body, IsDigit));
        Some(if t[0] == '-' then -n else n)
  }

  // ---------------------------------------------------------------- stamps

  /** A UTC date and time to the minute. */
  datatype Stamp = Stamp(year: int, month: int, day: int, hour: int, minute: int)

  predicate IsLeap(y: int) { y % 4 == 0 && (y % 100 != 0 || y % 400 == 0) }

  function DaysInMonth(y: int, m: int): (n: int)
    requires 1 <= m <= 12
    ensures 28 <= n <= 31
  {
    if m == 2 then (if IsLeap(y) then 29 else 28)
    else if m == 4 || m == 6 || m == 9 || m == 11 then 30
    else 31
  }

  /** What `datetime(year, month, day, hour, minute)` accepts. */
  predicate ValidStamp(st: Stamp) {
    1 <= st.year <= 9999 && 1 <= st.month <= 12 && 1 <= st.day <= DaysInMonth(st.year, st.month)
    && 0 <= st.hour < 24 && 0 <= st.minute < 60
  }

  /** `dt.isoformat().replace('+00:00','Z')` for a UTC datetime with zero seconds. */
  function IsoZ(st: Stamp): (s: string)
    requires ValidStamp(st)
    ensures |s| == 20
  {
    Pad4(st.year) + "-" + Pad2(st.month) + "-" + Pad2(st.day) + "T" + Pad2(st.hour) + ":" + Pad2(st.minute) + ":00Z"
  }

  predicate DigitsAt(s: string, i: nat, n: nat) { DigitsBetween(s, i, i + n) }

  /** `datetime.fromisoformat(s.replace('Z','+00:00'))` on the `YYYY-MM-DDTHH:MM:00Z` shape. */
  function ReadIsoZ(s: string): (r: Option<Stamp>)
    ensures r.Some? ==> ValidStamp(r.value)
  {
    if |s| == 20 && DigitsAt(s, 0, 4) && s[4] == '-' && DigitsAt(s, 5, 2) && s[7] == '-' && DigitsAt(s, 8, 2)
       && s[10] == 'T' && DigitsAt(s, 11, 2) && s[13] == ':' && DigitsAt(s, 14, 2) && s[16..] == ":00Z"
    then
      var st := Stamp(NumberOf(s[0..4]), NumberOf(s[5..7]), NumberOf(s[8..10]), NumberOf(s[11..13]), NumberOf(s[14..16]));
      if ValidStamp(st) then Some(st) else None
    else None
  }

  /** Reading a rendered stamp gives the stamp back. */
  lemma IsoRoundTrip(st: Stamp)
    requires ValidStamp(st)
    ensures ReadIsoZ(IsoZ(st)) == Some(st)
  {
    var s := IsoZ(st);
    assert s[0..4] == Pad4(st.year);
    assert s[5..7] == Pad2(st.month) && s[8..10] == Pad2(st.day);
    assert s[11..13] == Pad2(st.hour) && s[14..16] == Pad2(st.minute);
    assert s[16..] == ":00Z";
  }

  /** A text that reads as a stamp is exactly that stamp's rendering. */
  lemma IsoReadBack(s: string)
    requires ReadIsoZ(s).Some?
    ensures IsoZ(ReadIsoZ(s).value) == s
  {
    Pad4Of(s[0..4]);
    Pad2Of(s[5..7]);
    Pad2Of(s[8..10]);
    Pad2Of(s[11..13]);
    Pad2Of(s[14..16]);
    assert s == s[0..4] + "-" + s[5..7] + "-" + s[8..10] + "T" + s[11..13] + ":" + s[14..16] + s[16..];
  }

  // ---------------------------------------------------------------- combine

  /** `map(int, hhmm.split(':'))` unpacked into two names, with (0, 0) on any failure or absence. */
  function ReadTime(hhmm: Option<string>): (hm: (int, int))
    ensures hhmm.None? ==> hm == (0, 0)
  {
    if hhmm.None? || hhmm.value == [] then (0, 0)
    else
      var parts := Split(hhmm.value, ':');
      if |parts| == 2 && PyInt(parts[0]).Some? && PyInt(parts[1]).Some?
      then (PyInt(parts[0]).value, PyInt(parts[1]).value)
      else (0, 0)
  }

  /** A clock text is read back as its hour and minute. */
  lemma ReadClockText(s: string)
    requires IsClockText(s)
    ensures ReadTime(Some(s)) == (NumberOf(s[..2]), NumberOf(s[3..]))
  {
    ClockSplit(s);
    assert IsDigitString(s[..2]) && IsDigitString(s[3..]);
  }

  /** A clock text splits into its two digit pairs. */
  lemma ClockSplit(s: string)
    ensures IsClockText(s) ==> Split(s, ':') == [s[..2], s[3..]]
  {
    if IsClockText(s) {
      assert Before(s, c => c == ':') == s[..2];
      var rest := s[3..];
      assert ':' !in rest;
    }
  }

  /**
   * `combine_dof_time_iso` (backend/app/parser.py:125-148): the date's digits
   * are read as DD MM YY in the 21st century, the time as `int:int` (00:00
   * otherwise), and the result is rendered only when it is a real date and time.
   */
  function CombineStamp(dof: Option<string>, hhmm: Option<string>): (r: Option<Stamp>)
    ensures r.Some? ==> ValidStamp(r.value) && 2000 <= r.value.year <= 2099
  {
    if dof.None? || dof.value == [] then None
    else
      var d := Keep(dof.value, IsDigit);
      if |d| != 6 then None
      else
        var (h, mi) := ReadTime(hhmm);
        NumberOfBound(d[4..6]);
        var st := Stamp(2000 + NumberOf(d[4..6]), NumberOf(d[2..4]), NumberOf(d[0..2]), h, mi);
        if ValidStamp(st) then Some(st) else None
  }

  function Combine(dof: Option<string>, hhmm: Option<string>): (r: Option<string>)
    ensures r.Some? ==> |r.value| == 20 && ReadIsoZ(r.value) == CombineStamp(dof, hhmm)
    ensures r.None? <==> CombineStamp(dof, hhmm).None?
  {
    match CombineStamp(dof, hhmm)
    case None => None
    case Some(st) => IsoRoundTrip(st); Some(IsoZ(st))
  }

  /**
   * A date written DDMMYY and a clock time written HH:MM combine into that
   * day of 20YY at that time, exactly when such a day exists.
   */
  lemma CombineReadsDdMmYy(dd: nat, mm: nat, yy: nat, h: nat, mi: nat)
    requires dd < 100 && mm < 100 && yy < 100 && h < 24 && mi < 60
    ensures var st := Stamp(2000 + yy, mm, dd, h, mi);
      CombineStamp(Some(Pad2(dd) + Pad2(mm) + Pad2(yy)), Some(HhMm(h, mi))) == if ValidStamp(st) then Some(st) else None
  {
    var d := Pad2(dd) + Pad2(mm) + Pad2(yy);
    assert AllDigits(d);
    assert Keep(d, IsDigit) == d;
    SixSlices(Pad2(dd), Pad2(mm), Pad2(yy));
    ReadClockText(HhMm(h, mi));
  }

  lemma SixSlices(a: string, b: string, c: string)
    requires |a| == 2 && |b| == 2 && |c| == 2
    ensures var d := a + b + c; d[0..2] == a && d[2..4] == b && d[4..6] == c
  {
  }

  /** A combined stamp carries the clock text's hour and minute, and midnight without a time. */
  lemma CombineClock(dof: Option<string>, hhmm: Option<string>)
    requires hhmm.Some? ==> IsClockText(hhmm.value)
    ensures var s := CombineStamp(dof, hhmm);
      s.Some? && hhmm.Some? ==> s.value.hour == NumberOf(hhmm.value[..2]) && s.value.minute == NumberOf(hhmm.value[3..])
    ensures var s := CombineStamp(dof, hhmm);
      s.Some? && hhmm.None? ==> s.value.hour == 0 && s.value.minute == 0
  {
    if hhmm.Some? {
      ReadClockText(hhmm.value);
    }
  }

  /** Two stamps combined from the same date fall on the same day. */
  lemma CombineSameDay(dof: Option<string>, t1: Option<string>, t2: Option<string>)
    ensures var s, e := CombineStamp(dof, t1), CombineStamp(dof, t2);
      s.Some? && e.Some? ==> s.value.year == e.value.year && s.value.month == e.value.month && s.value.day == e.value.day
  {
  }

  /** A missing time and an unreadable one both mean midnight. */
  lemma CombineDefaultsToMidnight(dof: Option<string>, hhmm: string)
    requires Split(hhmm, ':') == [hhmm]
    ensures CombineStamp(dof, Some(hhmm)) == CombineStamp(dof, None)
    ensures CombineStamp(dof, None).Some? ==> CombineStamp(dof, None).value.hour == 0 && CombineStamp(dof, None).value.minute == 0
  {
  }

  /** The documented example: 25 January 2001 at 07:05. */
  lemma ExampleCombine()
    ensures Combine(Some("250101"), Some("07:05")) == Some("2001-01-25T07:05:00Z")
  {
    ExampleCombineOutput();
    ExampleCombineStamp();
  }

  lemma ExampleCombineStamp()
    ensures CombineStamp(Some("250101"), Some("07:05")) == Some(Stamp(2001, 1, 25, 7, 5))
  {
    assert ValidStamp(Stamp(2001, 1, 25, 7, 5));
    ExampleCombineInputs();
    CombineReadsDdMmYy(25, 1, 1, 7, 5);
  }

  lemma ExampleCombineInputs()
    ensures "250101" == Pad2(25) + Pad2(1) + Pad2(1) && "07:05" == HhMm(7, 5)
  {
  }

  lemma ExampleCombineOutput()
    ensures ValidStamp(Stamp(2001, 1, 25, 7, 5)) && IsoZ(Stamp(2001, 1, 25, 7, 5)) == "2001-01-25T07:05:00Z"
  {
    ExampleStampValid();
    ExampleYearText();
    ExampleFieldTexts();
  }

  lemma ExampleStampValid()
    ensures ValidStamp(Stamp(2001, 1, 25, 7, 5))
  {
  }

  lemma ExampleYearText()
    ensures Pad4(2001) == "2001"
  {
    assert Pad2(20) == "20" && Pad2(1) == "01";
  }

  lemma ExampleFieldTexts()
    ensures Pad2(1) == "01" && Pad2(25) == "25" && Pad2(7) == "07" && Pad2(5) == "05"
  {
  }

  /** A month outside 1..12 yields no stamp. */
  lemma ExampleBadMonth()
    ensures Combine(Some("011301"), None) == None
  {
    assert "011301" == Pad2(1) + Pad2(13) + Pad2(1);
    assert Keep("011301", IsDigit) == "011301";
  }

  // ---------------------------------------------------------------- ordering

  function YearDays(y: int): int { if IsLeap(y) then 366 else 365 }

  /** Days in the months of year `y` before month `m`. */
  function DaysBeforeMonth(y: int, m: int): (n: int)
    requires 1 <= m <= 13
    ensures 0 <= n
  {
    if m == 1 then 0 else DaysBeforeMonth(y, m - 1) + DaysInMonth(y, m - 1)
  }

  /** Days in the years from 1 up to (not including) `y`. */
  function DaysBeforeYear(y: int): (n: int)
    requires 1 <= y
    ensures 0 <= n
  {
    if y == 1 then 0 else DaysBeforeYear(y - 1) + YearDays(y - 1)
  }

  /** Minutes since 0001-01-01T00:00, the quantity `datetime` subtraction measures. */
  function Minutes(st: Stamp): int
    requires ValidStamp(st)
  {
    (DaysBeforeYear(st.year) + DaysBeforeMonth(st.year, st.month) + st.day - 1) * 1440 + st.hour * 60 + st.minute
  }

  /** Calendar order of stamps: year, then month, day, hour, minute. */
  predicate EarlierOrSame(a: Stamp, b: Stamp) {
    a.year < b.year || (a.year == b.year && (a.month < b.month || (a.month == b.month &&
    (a.day < b.day || (a.day == b.day && (a.hour < b.hour || (a.hour == b.hour && a.minute <= b.minute)))))))
  }

  lemma {:induction false} MonthsFillYear(y: int, m: int)
    requires 1 <= m <= 12
    ensures DaysBeforeMonth(y, m) + DaysInMonth(y, m) <= DaysBeforeMonth(y, 13)
    ensures DaysBeforeMonth(y, 13) == YearDays(y)
    decreases 13 - m
  {
    if m < 12 {
      MonthsFillYear(y, m + 1);
    } else {
      YearOfMonths(y);
    }
  }

  /** The twelve months add up to the length of the year. */
  lemma YearOfMonths(y: int)
    ensures DaysBeforeMonth(y, 13) == YearDays(y)
  {
    var leap := if IsLeap(y) then 1 else 0;
    assert DaysBeforeMonth(y, 2) == 31;
    assert DaysBeforeMonth(y, 3) == 59 + leap;
    assert DaysBeforeMonth(y, 4) == 90 + leap;
    assert DaysBeforeMonth(y, 5) == 120 + leap;
    assert DaysBeforeMonth(y, 6) == 151 + leap;
    assert DaysBeforeMonth(y, 7) == 181 + leap;
    assert DaysBeforeMonth(y, 8) == 212 + leap;
    assert DaysBeforeMonth(y, 9) == 243 + leap;
    assert DaysBeforeMonth(y, 10) == 273 + leap;
    assert DaysBeforeMonth(y, 11) == 304 + leap;
    assert DaysBeforeMonth(y, 12) == 334 + leap;
  }

  lemma {:induction false} MonthsIncrease(y: int, m1: int, m2: int)
    requires 1 <= m1 < m2 <= 13
    ensures DaysBeforeMonth(y, m1) + DaysInMonth(y, m1) <= DaysBeforeMonth(y, m2)
    decreases m2 - m1
  {
    if m1 + 1 < m2 {
      MonthsIncrease(y, m1, m2 - 1);
    }
  }

  lemma {:induction false} YearsIncrease(y1: int, y2: int)
    requires 1 <= y1 < y2
    ensures DaysBeforeYear(y1) + YearDays(y1) <= DaysBeforeYear(y2)
    decreases y2 - y1
  {
    if y1 + 1 < y2 {
      YearsIncrease(y1, y2 - 1);
    }
  }

  /** Minute counts order stamps exactly as the calendar does. */
  lemma MinutesOrder(a: Stamp, b: Stamp)
    requires ValidStamp(a) && ValidStamp(b)
    ensures Minutes(a) <= Minutes(b) <==> EarlierOrSame(a, b)
    ensures Minutes(a) == Minutes(b) <==> a == b
  {
    MonthsFillYear(a.year, a.month);
    MonthsFillYear(b.year, b.month);
    if a.year < b.year {
      YearsIncrease(a.year, b.year);
    } else if b.year < a.year {
      YearsIncrease(b.year, a.year);
    } else if a.month < b.month {
      MonthsIncrease(a.year, a.month, b.month);
    } else if b.month < a.month {
      MonthsIncrease(a.year, b.month, a.month);
    }
  }

  /**
   * The duration rule of `normalize_row` (backend/app/parser.py:265-274):
   * seconds from start to end when both stamps are present and end is not
   * earlier than start.
   */
  function DurationSeconds(start: Option<string>, end: Option<string>): (r: Option<int>)
    ensures r.Some? ==> r.value >= 0 && r.value % 60 == 0
    ensures r.Some? ==> start.Some? && end.Some? && ReadIsoZ(start.value).Some? && ReadIsoZ(end.value).Some?
    ensures r.Some? ==> EarlierOrSame(ReadIsoZ(start.value).value, ReadIsoZ(end.value).value)
  {
    if start.None? || end.None? || start.value == [] || end.value == [] then None
    else
      var ra, rb := ReadIsoZ(start.value), ReadIsoZ(end.value);
      if ra.None? || rb.None? then None
      else
        var delta := (Minutes(rb.value) - Minutes(ra.value)) * 60;
        MinutesOrder(ra.value, rb.value);
        WholeMinutes(Minutes(rb.value) - Minutes(ra.value));
        if delta >= 0 then Some(delta) else None
  }

  /** A whole number of minutes is a multiple of 60 seconds, of the same sign. */
  lemma WholeMinutes(d: int)
    ensures (d * 60) % 60 == 0 && (d * 60 >= 0 <==> d >= 0)
  {
  }

  /** Two combined stamps have a duration exactly when the second is not earlier. */
  lemma DurationOfStamps(a: Stamp, b: Stamp)
    requires ValidStamp(a) && ValidStamp(b)
    ensures DurationSeconds(Some(IsoZ(a)), Some(IsoZ(b))).Some? <==> EarlierOrSame(a, b)
    ensures DurationSeconds(Some(IsoZ(a)), Some(IsoZ(b))).Some? ==>
      DurationSeconds(Some(IsoZ(a)), Some(IsoZ(b))).value == (Minutes(b) - Minutes(a)) * 60
    ensures DurationSeconds(Some(IsoZ(a)), Some(IsoZ(a))) == Some(0)
  {
    IsoRoundTrip(a);
    IsoRoundTrip(b);
    MinutesOrder(a, b);
  }
}
