/**
 * The flight-identifier extractor of backend/app/parser.py: a REG/ value, else
 * a SID/ number, else the first registration-shaped token.
 */
module FlightId {
  import opened Options
  import opened Strings
  import opened Scan

  /** Structural keywords that are never identifiers (line 70). */
  const Keywords: set<string> := {"TITLE", "IDEP", "IARR", "ADEP", "ARR", "DEP"}

  /** Tokens the registration-shaped rule also rejects (line 80). */
  const ShapeStopWords: set<string> := Keywords + {"M0000", "K0300"}

  /** `[/\s]` */
  predicate IsRegSep(c: char) { c == '/' || IsSpace(c) }

  /** `[A-Z0-9\-\_\,]` */
  predicate IsRegValueChar(c: char) { IsUpper(c) || IsDigit(c) || c == '-' || c == '_' || c == ',' }

  predicate IsUpperOrDigit(c: char) { IsUpper(c) || IsDigit(c) }

  predicate IsComma(c: char) { c == ',' }

  /** The characters an extracted identifier is made of: `[A-Z0-9_-]`. */
  predicate IsIdChar(c: char) { IsUpper(c) || IsDigit(c) || c == '-' || c == '_' }

  predicate IsIdText(v: string) { forall i :: 0 <= i < |v| ==> IsIdChar(v[i]) }

  /**
   * `\bREG[/\s]*([A-Z0-9\-\_\,]+)` at `p`. No separator character can start
   * the value, so giving back separators never helps: the value is the run
   * that follows the longest separator run.
   */
  function RegMatch(txt: string, p: nat): (r: Option<Span<string>>)
    ensures r.Some? ==> r.value.value != [] && Within(r.value.value, txt)
    ensures r.Some? ==> forall i :: 0 <= i < |r.value.value| ==> IsRegValueChar(r.value.value[i])
  {
    if !(Boundary(txt, p) && At(txt, p, "REG")) then None
    else
      var k := p + 3 + Run(txt, p + 3, IsRegSep);
      var n := Run(txt, k, IsRegValueChar);
      if n == 0 then None
      else
        SliceWithin(txt, k, k + n);
        Some(Span(k + n, txt[k..k + n]))
  }

  /**
   * `\bSID/(\d{4,})\b` at `p`: a shorter digit run would end between two
   * digits, where there is no `\b`, so the whole run is taken or nothing.
   */
  function SidMatch(txt: string, p: nat): (r: Option<Span<string>>)
    ensures r.Some? ==> |r.value.value| >= 4 && AllDigits(r.value.value) && Within(r.value.value, txt)
  {
    if !(Boundary(txt, p) && At(txt, p, "SID/")) then None
    else
      var n := DigitRun(txt, p + 4);
      if n >= 4 && Boundary(txt, p + 4 + n) then
        SliceWithin(txt, p + 4, p + 4 + n);
        Some(Span(p + 4 + n, txt[p + 4..p + 4 + n]))
      else None
  }

  /**
   * `\b([A-Z]{1,3}[-]?[0-9]{2,6}[A-Z0-9]{0,3})\b` at `p`. The letters must be
   * the whole letter run at `p` (a letter cannot be followed by the digits), the
   * hyphen is taken when present, and the closing `\b` can only fall at the end
   * of the alphanumeric run that follows; the match exists when some split of
   * that run into 2-6 digits and 0-3 further alphanumerics fits.
   */
  function ShapeMatch(txt: string, p: nat): (r: Option<Span<string>>)
    ensures r.Some? ==> r.value.value != [] && IsIdText(r.value.value) && Within(r.value.value, txt)
  {
    var letters := Run(txt, p, IsUpper);
    if !(Boundary(txt, p) && 1 <= letters <= 3) then None
    else
      var q := p + letters;
      var r := if q < |txt| && txt[q] == '-' then q + 1 else q;
      var digits := DigitRun(txt, r);
      var alnum := Run(txt, r, IsUpperOrDigit);
      if SplitFits(digits, alnum) && Boundary(txt, r + alnum) then
        ShapeText(txt, p, letters, r, alnum);
        Some(Span(r + alnum, txt[p..r + alnum]))
      else None
  }

  /** Letters, an optional hyphen and an alphanumeric run make an identifier text. */
  lemma ShapeText(txt: string, p: nat, letters: nat, r: nat, alnum: nat)
    requires 1 <= letters && p + letters <= r <= p + letters + 1 && r + alnum <= |txt|
    requires forall k :: p <= k < p + letters ==> IsUpper(txt[k])
    requires r == p + letters + 1 ==> txt[p + letters] == '-'
    requires forall k :: r <= k < r + alnum ==> IsUpperOrDigit(txt[k])
    ensures txt[p..r + alnum] != [] && IsIdText(txt[p..r + alnum]) && Within(txt[p..r + alnum], txt)
  {
    var v := txt[p..r + alnum];
    forall i | 0 <= i < |v| ensures IsIdChar(v[i]) {
      assert v[i] == txt[p + i];
    }
    assert Piece(txt, p, r + alnum - p) == v;
  }

  /**
   * Some `d` in 2..6 with `d <= digits` leaves `alnum - d` in 0..3 for
   * `[A-Z0-9]{0,3}` (the digit run is part of the alphanumeric run).
   */
  predicate SplitFits(digits: nat, alnum: nat) {
    2 <= digits && alnum <= 9 && alnum <= digits + 3
  }

  /**
   * Rule 1 (lines 67-71): the first comma segment of the leftmost REG match,
   * unless empty or a keyword. The value holds no white space, so `strip()`
   * leaves the segment as it is (see `RegRuleIsFirstSegment`).
   */
  function RegRule(txt: string): (r: Option<string>)
    ensures r.Some? ==> r.value != [] && r.value !in Keywords && IsIdText(r.value) && Within(r.value, txt)
    ensures Search(txt, 0, RegMatch).None? ==> r.None?
  {
    match Search(txt, 0, RegMatch)
    case None => None
    case Some(h) =>
      var b := Before(h.value, IsComma);
      FirstSegment(h.value);
      var v := Strip(b);
      WithinTrans(b, h.value, txt);
      if v != [] && v !in Keywords then Some(v) else None
  }

  /** The first comma segment of a REG value is an identifier text that `strip()` keeps whole. */
  lemma FirstSegment(value: string)
    requires forall i :: 0 <= i < |value| ==> IsRegValueChar(value[i])
    ensures IsIdText(Before(value, IsComma))
    ensures Strip(Before(value, IsComma)) == Before(value, IsComma)
  {
    var b := Before(value, IsComma);
    forall i | 0 <= i < |b| ensures IsIdChar(b[i]) {
      assert b[i] == value[i];
    }
    IdTextNoSpace(b);
  }

  lemma IdTextNoSpace(v: string)
    requires IsIdText(v)
    ensures forall i :: 0 <= i < |v| ==> !IsSpace(v[i])
  {
    forall i | 0 <= i < |v| ensures !IsSpace(v[i]) {
      assert IsIdChar(v[i]);
    }
  }

  /** Rule 2 (lines 73-75): the digits after the first `SID/` marker. */
  function SidRule(txt: string): (r: Option<string>)
    ensures r.Some? ==> |r.value| >= 4 && AllDigits(r.value) && Within(r.value, txt)
    ensures r.Some? <==> Search(txt, 0, SidMatch).Some?
  {
    match Search(txt, 0, SidMatch)
    case None => None
    case Some(h) => Some(h.value)
  }

  /** Rule 3 (lines 77-81): the leftmost registration-shaped token, unless it is a stop word. */
  function ShapeRule(txt: string): (r: Option<string>)
    ensures r.Some? ==> r.value != [] && r.value !in ShapeStopWords && IsIdText(r.value) && Within(r.value, txt)
  {
    match Search(txt, 0, ShapeMatch)
    case None => None
    case Some(h) => if h.value !in ShapeStopWords then Some(h.value) else None
  }

  /**
   * The REG rule gives a result exactly when the leftmost REG match has a
   * non-empty, non-keyword first comma segment, and the result is that segment.
   */
  lemma RegRuleIsFirstSegment(txt: string)
    ensures var m := Search(txt, 0, RegMatch);
      RegRule(txt).Some? <==> m.Some? && Before(m.value.value, IsComma) != [] && Before(m.value.value, IsComma) !in Keywords
    ensures RegRule(txt).Some? ==> RegRule(txt).value == Before(Search(txt, 0, RegMatch).value.value, IsComma)
  {
    match Search(txt, 0, RegMatch)
    case None =>
    case Some(h) => FirstSegment(h.value);
  }

  /**
   * The shape rule gives a result exactly when the leftmost registration-shaped
   * token is not a stop word, and the result is that token.
   */
  lemma ShapeRuleIsLeftmost(txt: string)
    ensures var m := Search(txt, 0, ShapeMatch);
      ShapeRule(txt).Some? <==> m.Some? && m.value.value !in ShapeStopWords
    ensures ShapeRule(txt).Some? ==> ShapeRule(txt).value == Search(txt, 0, ShapeMatch).value.value
  {
  }

  /** Every keyword starts with a letter. */
  lemma DigitsNotKeyword(v: Option<string>)
    requires v.Some? ==> v.value != [] && IsDigit(v.value[0])
    ensures v.Some? ==> v.value !in Keywords
  {
    assert forall w :: w in Keywords ==> w != [] && IsUpper(w[0]);
  }

  /** `extract_flight_id_from_text` (backend/app/parser.py:62-82). */
  function ExtractFlightId(text: string): (r: Option<string>)
    ensures text == [] ==> r.None?
    ensures r.Some? ==> r.value != [] && r.value !in Keywords && IsIdText(r.value)
    ensures r.Some? ==> Within(r.value, Upper(text))
    ensures text != [] && Search(Upper(text), 0, SidMatch).Some? ==> r.Some?
  {
    if text == [] then None
    else
      var txt := Upper(text);
      var sid := SidRule(txt);
      DigitsNotKeyword(sid);
      var later := Or(sid, ShapeRule(txt));
      Or(RegRule(txt), later)
  }

  // ---------------------------------------------------------------- precedence

  /** An accepted REG value wins over everything after it. */
  lemma RegFirst(text: string)
    requires text != [] && RegRule(Upper(text)).Some?
    ensures ExtractFlightId(text) == RegRule(Upper(text))
  {
  }

  /** Without an accepted REG value, a SID number wins over the shaped token. */
  lemma SidSecond(text: string)
    requires text != [] && RegRule(Upper(text)).None? && SidRule(Upper(text)).Some?
    ensures ExtractFlightId(text) == SidRule(Upper(text))
  {
  }

  /** Without REG and SID, the result is the shape rule's: the leftmost shaped token unless a stop word. */
  lemma ShapeThird(text: string)
    requires text != [] && RegRule(Upper(text)).None? && SidRule(Upper(text)).None?
    ensures ExtractFlightId(text) == ShapeRule(Upper(text))
  {
  }

  /** No identifier exactly when the text is empty or every rule fails. */
  lemma NoneIff(text: string)
    ensures ExtractFlightId(text).None? <==>
      (text == [] || (RegRule(Upper(text)).None? && SidRule(Upper(text)).None? && ShapeRule(Upper(text)).None?))
  {
  }

  /**
   * A REG match whose first segment is a keyword does not stop the search:
   * the later rules decide, even when another REG value follows.
   */
  lemma KeywordRegFallsThrough(text: string)
    requires text != [] && Search(Upper(text), 0, RegMatch).Some?
    requires Before(Search(Upper(text), 0, RegMatch).value.value, IsComma) in Keywords
    ensures ExtractFlightId(text) == Or(SidRule(Upper(text)), ShapeRule(Upper(text)))
  {
    RegRuleIsFirstSegment(Upper(text));
  }

  /** A message with a REG/ list ahead of a SID/ number (backend/tests/test_parser.py:10-13). */
  const ExampleText := "DOF/250101 OPR/X REG/FL123,FL124 SID/777777"

  /** The REG rule wins over the later SID/ number, and the first comma segment is taken. */
  lemma ExampleRegBeforeSid()
    ensures ExtractFlightId(ExampleText) == Some("FL123")
  {
    ExampleUpper();
    ExampleRegRule();
  }

  lemma ExampleRegRule()
    ensures RegRule(ExampleText) == Some("FL123")
  {
    ExampleRegHit();
    ExampleFirstSegment();
    ExampleStripped();
    RegRuleIsFirstSegment(ExampleText);
  }

  lemma ExampleStripped()
    ensures Strip("FL123") == "FL123" && "FL123" !in Keywords
  {
    var v := "FL123";
    assert forall i :: 0 <= i < |v| ==> !IsSpace(v[i]);
  }

  lemma ExampleUpper()
    ensures Upper(ExampleText) == ExampleText
  {
    assert forall i :: 0 <= i < |ExampleText| ==> !IsLower(ExampleText[i]);
  }

  lemma ExampleNoEarlierReg()
    ensures forall q :: 0 <= q < 17 ==> RegMatch(ExampleText, q).None?
  {
    var t := ExampleText;
    assert forall q :: 0 <= q < 17 ==> t[q] != 'R' || t[q + 1] != 'E';
  }

  lemma ExampleRegAt()
    ensures RegMatch(ExampleText, 17) == Some(Span(32, ExampleText[21..32]))
  {
    ExampleRegSep();
    ExampleRegValue();
    ExampleRegMarker();
  }

  lemma ExampleRegSep()
    ensures Run(ExampleText, 20, IsRegSep) == 1
  {
    var t := ExampleText;
    assert t[20] == '/' && t[21] == 'F';
    RunIs(t, 20, 1, IsRegSep);
  }

  lemma ExampleRegValue()
    ensures Run(ExampleText, 21, IsRegValueChar) == 11
  {
    assert ExampleText[32] == ' ';
    RunIs(ExampleText, 21, 11, IsRegValueChar);
  }

  lemma ExampleRegMarker()
    ensures At(ExampleText, 17, "REG") && Boundary(ExampleText, 17)
  {
  }

  lemma ExampleRegHit()
    ensures Search(ExampleText, 0, RegMatch) == Some(Hit(17, 32, ExampleText[21..32]))
  {
    ExampleNoEarlierReg();
    ExampleRegAt();
    SearchFinds(ExampleText, 0, RegMatch, 17);
  }

  lemma ExampleFirstSegment()
    ensures Before(ExampleText[21..32], IsComma) == "FL123"
  {
    ExampleValue();
    var v := "FL123,FL124";
    assert v[5] == ',' && forall i :: 0 <= i < 5 ==> v[i] != ',';
    BeforeAt(v, IsComma, 5);
    assert v[..5] == "FL123";
  }

  lemma ExampleValue()
    ensures ExampleText[21..32] == "FL123,FL124"
  {
    var v := ExampleText[21..32];
    assert forall k :: 0 <= k < 11 ==> v[k] == ExampleText[21 + k];
  }
}
