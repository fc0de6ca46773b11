/**
 * The live time reader of backend/app/parser.back.py (the definition at
 * line 163; the one at line 49 is shadowed by it) and the older date+time
 * combiner at line 65, which calls that live reader.
 */
module LegacyTime {
  import opened Options
  import opened Strings
  import opened Scan
  import opened Temporal

  /** The literal `lit` (upper case) at `p` of `txt`, compared without regard to case. */
  predicate AtFolded(txt: string, p: nat, lit: string) {
    At(Upper(txt), p, lit)
  }

  /**
   * `(?:\bATD\b|\bATA\b)[:\s\/-]?(\d{3,4})` at `p`, ignoring case. The
   * separator is taken when it is there (without it a non-digit stands
   * where the digits must start); the digits take four of a longer run, and
   * no boundary is asked for after them.
   */
  function MarkerTokenMatch(txt: string, p: nat): (r: Option<Span<string>>)
    ensures r.Some? ==> 3 <= |r.value.value| <= 4 && AllDigits(r.value.value)
  {
    if !(Boundary(txt, p) && (AtFolded(txt, p, "ATD") || AtFolded(txt, p, "ATA")) && Boundary(txt, p + 3)) then None
    else
      var k := if p + 3 < |txt| && IsTimeSep(txt[p + 3]) then p + 4 else p + 3;
      var d := DigitRun(txt, k);
      if d < 3 then None
      else
        var n := if d >= 4 then 4 else 3;
        DigitsSlice(txt, k, k + n);
        Some(Span(k + n, txt[k..k + n]))
  }

  /**
   * `\b(\d{3,4})\b` at `p`. No boundary falls between two digits, so the
   * whole digit run must be 3 or 4 long and end at a boundary.
   */
  function BareTokenMatch(txt: string, p: nat): (r: Option<Span<string>>)
    ensures r.Some? ==> 3 <= |r.value.value| <= 4 && AllDigits(r.value.value)
  {
    var d := DigitRun(txt, p);
    if Boundary(txt, p) && (d == 3 || d == 4) && Boundary(txt, p + d) then Some(Span(p + d, txt[p..p + d])) else None
  }

  /** The digits the reader picks: the first marker token, else the first standalone 3-4 digit run. */
  function LegacyToken(block: string): (r: Option<string>)
    ensures r.Some? ==> 3 <= |r.value| <= 4 && AllDigits(r.value)
    ensures r.None? <==> Search(block, 0, MarkerTokenMatch).None? && Search(block, 0, BareTokenMatch).None?
  {
    match Search(block, 0, MarkerTokenMatch)
    case Some(h) => Some(h.value)
    case None =>
      match Search(block, 0, BareTokenMatch)
      case Some(h) => Some(h.value)
      case None => None
  }

  /** `tok.zfill(4)` on a digit string. */
  function ZFill4(tok: string): (t: string)
    requires |tok| <= 4 && AllDigits(tok)
    decreases 4 - |tok|
    ensures |t| == 4 && AllDigits(t) && NumberOf(t) == NumberOf(tok)
  {
    if |tok| == 4 then tok
    else
      NumberOfConcat("0", tok);
      ZFill4("0" + tok)
  }

  /**
   * `parse_time_token` (backend/app/parser.back.py:163-182): the picked
   * digits, left-padded to four and cut into `HH:MM`, with no range check.
   */
  function ParseLegacyTimeToken(block: string): (r: Option<string>)
    ensures block == [] ==> r.None?
    ensures r.Some? <==> block != [] && LegacyToken(block).Some?
    ensures r.Some? ==> |r.value| == 5 && r.value[2] == ':' && AllDigits(r.value[..2]) && AllDigits(r.value[3..])
    ensures r.Some? ==> NumberOf(r.value[..2]) * 100 + NumberOf(r.value[3..]) == NumberOf(LegacyToken(block).value)
  {
    if block == [] then None
    else
      match LegacyToken(block)
      case None => None
      case Some(tok) => Some(Colon(ZFill4(tok)))
  }

  /** `f"{t[:2]}:{t[2:]}"`: four digits as `HH:MM`, reading the same number as `HH * 100 + MM`. */
  function Colon(t: string): (s: string)
    requires |t| == 4 && AllDigits(t)
    ensures |s| == 5 && s[2] == ':' && AllDigits(s[..2]) && AllDigits(s[3..])
    ensures s[..2] == t[..2] && s[3..] == t[2..]
    ensures NumberOf(s[..2]) * 100 + NumberOf(s[3..]) == NumberOf(t)
  {
    var s := t[..2] + ":" + t[2..];
    assert s[..2] == t[..2] && s[3..] == t[2..];
    NumberOfConcat(t[..2], t[2..]);
    assert t[..2] + t[2..] == t;
    s
  }

  /** The reader applied to an optional argument: `None` reads as nothing. */
  function TokenOf(hhmm: Option<string>): (r: Option<string>)
    ensures hhmm.None? ==> r.None?
  {
    if hhmm.None? then None else ParseLegacyTimeToken(hhmm.value)
  }

  // ---------------------------------------------------------------- properties

  /** A marker token always has a separator between the marker and the digits. */
  lemma MarkerNeedsSeparator(txt: string, p: nat)
    requires MarkerTokenMatch(txt, p).Some?
    ensures p + 3 < |txt| && IsTimeSep(txt[p + 3])
    ensures MarkerTokenMatch(txt, p).value.value == txt[p + 4..MarkerTokenMatch(txt, p).value.end]
  {
    var u := Upper(txt);
    var lit := if AtFolded(txt, p, "ATD") then "ATD" else "ATA";
    AtChars(u, p, lit);
    assert u[p + 2] == lit[2];
    assert IsWord(txt[p + 2]);
  }

  /** A text of `HH:MM` shape, in range or not, is read back as its two numbers by `int:int`. */
  lemma ReadDigitPair(s: string)
    requires |s| == 5 && s[2] == ':' && AllDigits(s[..2]) && AllDigits(s[3..])
    ensures ReadTime(Some(s)) == (NumberOf(s[..2]), NumberOf(s[3..]))
  {
    var a, b := s[..2], s[3..];
    assert s == a + [':'] + b;
    assert ':' !in a && ':' !in b;
    SplitCons(a, ':', b);
    assert IsDigitString(a) && IsDigitString(b);
  }

  // ---------------------------------------------------------------- combine

  /** The result of a call that may raise: a Python exception, or a returned value. */
  datatype Outcome<T> = Raises | Returns(value: T)

  /** The DOF digits when the date text is present and has exactly six of them. */
  function DofDigits(dof: Option<string>): (d: Option<string>)
    ensures d.Some? ==> |d.value| == 6 && AllDigits(d.value)
  {
    if dof.None? || dof.value == [] then None
    else
      var d := Keep(dof.value, IsDigit);
      if |d| == 6 then Some(d) else None
  }

  /** `datetime(2000 + YY, MM, DD, hh, mi)` rendered, or nothing when it is not a real date and time. */
  function DofAt(d: string, hh: int, mi: int): (r: Option<string>)
    requires |d| == 6 && AllDigits(d)
    ensures r.Some? ==> ReadIsoZ(r.value) == Some(DofStamp(d, hh, mi))
  {
    var st := DofStamp(d, hh, mi);
    if ValidStamp(st) then IsoRoundTrip(st); Some(IsoZ(st)) else None
  }

  /** The stamp of the date digits `DDMMYY` in the 21st century at `hh:mi`. */
  function DofStamp(d: string, hh: int, mi: int): Stamp
    requires |d| == 6 && AllDigits(d)
  {
    Stamp(2000 + NumberOf(d[4..6]), NumberOf(d[2..4]), NumberOf(d[0..2]), hh, mi)
  }

  /**
   * `combine_dof_and_time` (backend/app/parser.back.py:65-88) as written: a
   * missing or non-6-digit date gives `None`; otherwise a time argument in
   * which the reader finds a token raises (its `HH:MM` text is unpacked into
   * two names, outside the `try`), and without one the date is rendered at
   * midnight.
   */
  function LegacyCombine(dof: Option<string>, hhmm: Option<string>): (r: Outcome<Option<string>>)
    ensures r.Raises? <==> DofDigits(dof).Some? && TokenOf(hhmm).Some?
    ensures r.Returns? && r.value.Some? ==>
      (ReadIsoZ(r.value.value).Some? && ReadIsoZ(r.value.value).value.hour == 0 && ReadIsoZ(r.value.value).value.minute == 0)
  {
    match DofDigits(dof)
    case None => Returns(None)
    case Some(d) => if TokenOf(hhmm).Some? then Raises else Returns(DofAt(d, 0, 0))
  }

  /**
   * The combiner with the evident intent of line 80: the token's two numbers
   * as hour and minute (midnight without a token).
   */
  function LegacyCombineFixed(dof: Option<string>, hhmm: Option<string>): (r: Option<string>)
    ensures r.Some? ==> DofDigits(dof).Some?
  {
    match DofDigits(dof)
    case None => None
    case Some(d) =>
      match TokenOf(hhmm)
      case Some(t) => DofAt(d, NumberOf(t[..2]), NumberOf(t[3..]))
      case None => DofAt(d, 0, 0)
  }

  /** Whenever the combiner as written returns, the corrected one returns the same. */
  lemma FixedAgreesWhenNoRaise(dof: Option<string>, hhmm: Option<string>)
    requires LegacyCombine(dof, hhmm).Returns?
    ensures LegacyCombineFixed(dof, hhmm) == LegacyCombine(dof, hhmm).value
  {
  }

  /**
   * The corrected combiner is the current combiner of backend/app/parser.py
   * fed with this reader's token: out-of-range clock readings such as
   * `99:99` give `None` there as well.
   */
  lemma FixedIsCombine(dof: Option<string>, hhmm: Option<string>)
    ensures LegacyCombineFixed(dof, hhmm) == Combine(dof, TokenOf(hhmm))
  {
    var t := TokenOf(hhmm);
    if DofDigits(dof).None? {
      CombineWithoutDof(dof, t);
    } else if t.Some? {
      ReadDigitPair(t.value);
      CombineOfDof(dof, t, NumberOf(t.value[..2]), NumberOf(t.value[3..]));
    } else {
      CombineOfDof(dof, t, 0, 0);
    }
  }

  /** Without six date digits the current combiner gives nothing either. */
  lemma CombineWithoutDof(dof: Option<string>, hm: Option<string>)
    requires DofDigits(dof).None?
    ensures Combine(dof, hm).None?
  {
  }

  /** With six date digits and a time read as `hh:mi`, the current combiner renders that stamp. */
  lemma CombineOfDof(dof: Option<string>, hm: Option<string>, hh: int, mi: int)
    requires DofDigits(dof).Some? && ReadTime(hm) == (hh, mi)
    ensures Combine(dof, hm) == DofAt(DofDigits(dof).value, hh, mi)
  {
    var st := DofStamp(DofDigits(dof).value, hh, mi);
    CombineStampOfDof(dof, hm, hh, mi);
    if ValidStamp(st) {
      assert Combine(dof, hm) == Some(IsoZ(st));
    } else {
      assert Combine(dof, hm).None?;
    }
  }

  lemma CombineStampOfDof(dof: Option<string>, hm: Option<string>, hh: int, mi: int)
    requires DofDigits(dof).Some? && ReadTime(hm) == (hh, mi)
    ensures var st := DofStamp(DofDigits(dof).value, hh, mi);
      CombineStamp(dof, hm) == if ValidStamp(st) then Some(st) else None
  {
    assert Keep(dof.value, IsDigit) == DofDigits(dof).value;
  }

  /** The corrected stamp carries the token's digits as its hour and minute. */
  lemma FixedKeepsToken(dof: Option<string>, hhmm: Option<string>)
    requires LegacyCombineFixed(dof, hhmm).Some? && TokenOf(hhmm).Some?
    ensures var st := ReadIsoZ(LegacyCombineFixed(dof, hhmm).value);
      st.Some? && st.value.hour * 100 + st.value.minute == NumberOf(LegacyToken(hhmm.value).value)
  {
  }

  // ---------------------------------------------------------------- examples

  /**
   * A marker at the start, one separator and three or four digits to the end
   * of the text: the digits are the token.
   */
  lemma MarkerTokenAtStart(txt: string, lit: string)
    requires lit == "ATD" || lit == "ATA"
    requires 7 <= |txt| <= 8 && IsTimeSep(txt[3])
    requires UpperChar(txt[0]) == lit[0] && UpperChar(txt[1]) == lit[1] && UpperChar(txt[2]) == lit[2]
    requires forall k :: 4 <= k < |txt| ==> IsDigit(txt[k])
    ensures MarkerTokenMatch(txt, 0) == Some(Span(|txt|, txt[4..]))
  {
    var u := Upper(txt);
    AtChars(u, 0, lit);
    assert AtFolded(txt, 0, lit);
    assert IsWord(UpperChar(txt[0])) && IsWord(UpperChar(txt[2]));
    assert Boundary(txt, 0) && Boundary(txt, 3);
    RunIs(txt, 4, |txt| - 4, IsDigit);
    assert txt[4..4 + (|txt| - 4)] == txt[4..];
  }

  /** `ATD 0705`: the marker token is found at the start of the text. */
  lemma MarkerExampleMatch()
    ensures MarkerTokenMatch("ATD 0705", 0) == Some(Span(8, "0705"))
  {
    var txt := "ATD 0705";
    assert txt[4..] == "0705";
    MarkerTokenAtStart(txt, "ATD");
  }

  /** `ATD 0705` reads as `07:05`. */
  lemma MarkerExample()
    ensures ParseLegacyTimeToken("ATD 0705") == Some("07:05")
  {
    MarkerExampleMatch();
    SearchFinds("ATD 0705", 0, MarkerTokenMatch, 0);
    assert LegacyToken("ATD 0705") == Some("0705");
    assert ZFill4("0705") == "0705";
    assert "0705"[..2] + ":" + "0705"[2..] == "07:05";
  }

  /** `atd 705`: the marker is found in lower case and three digits are taken. */
  lemma ShortTokenExampleMatch()
    ensures MarkerTokenMatch("atd 705", 0) == Some(Span(7, "705"))
  {
    var txt := "atd 705";
    assert txt[4..] == "705";
    assert UpperChar('a') == 'A' && UpperChar('t') == 'T' && UpperChar('d') == 'D';
    MarkerTokenAtStart(txt, "ATD");
  }

  /** `atd 705` is left-padded to `07:05`. */
  lemma ShortTokenExample()
    ensures ParseLegacyTimeToken("atd 705") == Some("07:05")
  {
    ShortTokenExampleMatch();
    SearchFinds("atd 705", 0, MarkerTokenMatch, 0);
    assert LegacyToken("atd 705") == Some("705");
    assert ZFill4("705") == "0705";
    assert "0705"[..2] + ":" + "0705"[2..] == "07:05";
  }

  /** `ATA 9999`: the digits are cut into `99:99` though that is no clock time. */
  lemma NoRangeCheckExampleMatch()
    ensures MarkerTokenMatch("ATA 9999", 0) == Some(Span(8, "9999"))
  {
    var txt := "ATA 9999";
    assert txt[4..] == "9999";
    MarkerTokenAtStart(txt, "ATA");
  }

  lemma NoRangeCheckExample()
    ensures ParseLegacyTimeToken("ATA 9999") == Some("99:99")
    ensures !IsClockText("99:99")
  {
    NoRangeCheckExampleMatch();
    SearchFinds("ATA 9999", 0, MarkerTokenMatch, 0);
    assert LegacyToken("ATA 9999") == Some("9999");
    assert ZFill4("9999") == "9999";
    assert "9999"[..2] + ":" + "9999"[2..] == "99:99";
    assert "99:99"[..2] == "99";
    NumberOfConcat("9", "9");
  }

  /** The six DOF digits of `250101`. */
  lemma DofExample()
    ensures DofDigits(Some("250101")) == Some("250101")
  {
    assert AllDigits("250101");
  }

  /**
   * The combiner as written raises on a time argument that carries a token,
   * where the corrected one gives 25 January 2001 at 07:05.
   */
  lemma CombineRaisesExample()
    ensures LegacyCombine(Some("250101"), Some("ATD 0705")) == Raises
    ensures LegacyCombineFixed(Some("250101"), Some("ATD 0705")) == Some("2001-01-25T07:05:00Z")
  {
    DofExample();
    MarkerExample();
    FixedIsCombine(Some("250101"), Some("ATD 0705"));
    ExampleCombine();
  }
}
