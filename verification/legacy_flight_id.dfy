/**
 * The live flight-identifier extractor of backend/app/parser.back.py (the
 * definition at line 184; the one at line 91 is shadowed by it): a REG
 * value, else a SID number, else the first token with a letter and a digit,
 * else the first token at all, skipping the words of a blacklist.
 */
module LegacyFlightId {
  import opened Options
  import opened Strings
  import opened Scan

  /** Words that never become an identifier (line 191). */
  const Blacklist: set<string> := {"TITLE", "IDEP", "IARR", "ADEP", "ARR", "DEP", "PAP", "RMK", "SHR", "DOF", "DEST", "SID"}

  /** `[/\s]` */
  predicate IsRegSep(c: char) { c == '/' || IsSpace(c) }

  /** `[A-Z0-9\-,]` */
  predicate IsRegChar(c: char) { IsUpper(c) || IsDigit(c) || c == '-' || c == ',' }

  predicate IsComma(c: char) { c == ',' }

  /** `[A-Z0-9\-]`: the characters of a token, and of every identifier this extractor returns. */
  predicate IsTokenChar(c: char) { IsUpper(c) || IsDigit(c) || c == '-' }

  predicate IsTokenText(v: string) { forall i :: 0 <= i < |v| ==> IsTokenChar(v[i]) }

  /**
   * `\bREG[/\s]?([A-Z0-9\-,]+)` at `p`. A separator cannot start the value,
   * so the separator is taken whenever it is there, and the value is the
   * whole run of value characters after it.
   */
  function RegMatch(txt: string, p: nat): (r: Option<Span<string>>)
    ensures r.Some? ==> r.value.value != [] && Within(r.value.value, txt)
    ensures r.Some? ==> forall i :: 0 <= i < |r.value.value| ==> IsRegChar(r.value.value[i])
  {
    if !(Boundary(txt, p) && At(txt, p, "REG")) then None
    else
      var k := if p + 3 < |txt| && IsRegSep(txt[p + 3]) then p + 4 else p + 3;
      var n := Run(txt, k, IsRegChar);
      if n == 0 then None
      else
        SliceWithin(txt, k, k + n);
        Some(Span(k + n, txt[k..k + n]))
  }

  /**
   * `\bSID/(\d+)\b` at `p`: no boundary falls between two digits, so the
   * whole digit run is taken, and it must end at a boundary.
   */
  function SidMatch(txt: string, p: nat): (r: Option<Span<string>>)
    ensures r.Some? ==> r.value.value != [] && AllDigits(r.value.value) && Within(r.value.value, txt)
  {
    if !(Boundary(txt, p) && At(txt, p, "SID/")) then None
    else
      var n := DigitRun(txt, p + 4);
      if n >= 1 && Boundary(txt, p + 4 + n) then
        SliceWithin(txt, p + 4, p + 4 + n);
        Some(Span(p + 4 + n, txt[p + 4..p + 4 + n]))
      else None
  }

  /** The longest length in `2..n` at which a token starting at `p` ends at a boundary. */
  function TokenEnd(txt: string, p: nat, n: nat): (r: Option<nat>)
    ensures r.Some? ==> 2 <= r.value <= n && Boundary(txt, p + r.value)
    ensures r.Some? ==> forall e :: p + r.value < e <= p + n ==> !Boundary(txt, e)
    ensures r.None? ==> forall e :: p + 2 <= e <= p + n ==> !Boundary(txt, e)
  {
    if n < 2 then None
    else if Boundary(txt, p + n) then Some(n)
    else TokenEnd(txt, p, n - 1)
  }

  /**
   * `\b[A-Z0-9\-]{2,20}\b` at `p`: greedy, so the longest stretch of at most
   * 20 token characters that ends at a boundary (a hyphen makes boundaries
   * inside a run possible).
   */
  function TokenMatch(txt: string, p: nat): (r: Option<Span<string>>)
    ensures r.Some? ==> 2 <= |r.value.value| <= 20 && IsTokenText(r.value.value) && Within(r.value.value, txt)
    ensures r.Some? ==> r.value.end == p + |r.value.value|
  {
    var run := Run(txt, p, IsTokenChar);
    if !Boundary(txt, p) then None
    else
      match TokenEnd(txt, p, if run < 20 then run else 20)
      case None => None
      case Some(n) =>
        SliceWithin(txt, p, p + n);
        Some(Span(p + n, txt[p..p + n]))
  }

  /** `re.findall` of the token pattern: the tokens in order. */
  function Tokens(txt: string): (ts: seq<string>)
    ensures forall k :: 0 <= k < |ts| ==> 2 <= |ts[k]| <= 20 && IsTokenText(ts[k]) && Within(ts[k], txt)
  {
    var hs := FindAll(txt, 0, TokenMatch);
    forall k | 0 <= k < |hs| ensures 2 <= |hs[k].value| <= 20 && IsTokenText(hs[k].value) && Within(hs[k].value, txt) {
      HitIsToken(txt, hs[k]);
    }
    seq(|hs|, k requires 0 <= k < |hs| => hs[k].value)
  }

  lemma HitIsToken(txt: string, h: Hit<string>)
    requires TokenMatch(txt, h.start) == Some(Span(h.end, h.value))
    ensures 2 <= |h.value| <= 20 && IsTokenText(h.value) && Within(h.value, txt)
  {
  }

  predicate HasLetter(t: string) { exists i :: 0 <= i < |t| && IsUpper(t[i]) }

  predicate HasDigit(t: string) { exists i :: 0 <= i < |t| && IsDigit(t[i]) }

  /** A token with both a letter and a digit that is not blacklisted. */
  predicate Mixed(t: string) { t !in Blacklist && HasLetter(t) && HasDigit(t) }

  /** The first token satisfying `ok`, if any. */
  function FirstWhere(ts: seq<string>, ok: string -> bool): (r: Option<string>)
    ensures r.Some? ==> r.value in ts && ok(r.value)
    ensures r.None? <==> forall k :: 0 <= k < |ts| ==> !ok(ts[k])
  {
    if ts == [] then None
    else if ok(ts[0]) then Some(ts[0])
    else
      assert forall k :: 1 <= k < |ts| ==> ts[k] == ts[1..][k - 1];
      FirstWhere(ts[1..], ok)
  }

  /** The token found is the first one satisfying `ok`: every earlier one fails it. */
  lemma {:induction false} FirstWhereIsFirst(ts: seq<string>, ok: string -> bool)
    requires FirstWhere(ts, ok).Some?
    ensures exists k :: 0 <= k < |ts| && ts[k] == FirstWhere(ts, ok).value && forall j :: 0 <= j < k ==> !ok(ts[j])
  {
    if !ok(ts[0]) {
      FirstWhereIsFirst(ts[1..], ok);
      var k :| 0 <= k < |ts[1..]| && ts[1..][k] == FirstWhere(ts, ok).value && forall j :: 0 <= j < k ==> !ok(ts[1..][j]);
      assert ts[k + 1] == ts[1..][k];
      forall j | 0 <= j < k + 1 ensures !ok(ts[j]) {
        if j > 0 {
          assert ts[j] == ts[1..][j - 1];
        }
      }
    } else {
      assert ts[0] == FirstWhere(ts, ok).value;
    }
  }

  predicate Allowed(t: string) { t !in Blacklist }

  /** Rule 1 (lines 193-200): the first REG value cut at its first comma, unless empty or blacklisted. */
  function RegRule(txt: string): (r: Option<string>)
    ensures r.Some? ==> r.value != [] && r.value !in Blacklist && IsTokenText(r.value) && Within(r.value, txt)
    ensures Search(txt, 0, RegMatch).None? ==> r.None?
  {
    match Search(txt, 0, RegMatch)
    case None => None
    case Some(h) =>
      var v := Before(h.value, IsComma);
      assert forall i :: 0 <= i < |v| ==> v[i] == h.value[i] && IsRegChar(v[i]) && !IsComma(v[i]);
      assert IsTokenText(v);
      assert forall i :: 0 <= i < |v| ==> !IsSpace(v[i]);
      assert Strip(v) == v;
      WithinTrans(v, h.value, txt);
      if v != [] && v !in Blacklist then Some(v) else None
  }

  /** Rule 2 (lines 202-205): the digits after the first `SID/` marker. */
  function SidRule(txt: string): (r: Option<string>)
    ensures r.Some? ==> r.value != [] && AllDigits(r.value) && Within(r.value, txt)
    ensures r.Some? <==> Search(txt, 0, SidMatch).Some?
  {
    match Search(txt, 0, SidMatch)
    case None => None
    case Some(h) => Some(h.value)
  }

  /** Every blacklisted word starts with a letter. */
  lemma DigitsNotBlacklisted(v: Option<string>)
    requires v.Some? ==> v.value != [] && IsDigit(v.value[0])
    ensures v.Some? ==> v.value !in Blacklist
  {
    assert forall w :: w in Blacklist ==> w != [] && IsUpper(w[0]);
  }

  /**
   * `extract_flight_id_from_text` (backend/app/parser.back.py:184-223): on
   * the upper-cased text, rule 1, else rule 2, else the first token with a
   * letter and a digit, else the first token, blacklisted words skipped.
   */
  function ExtractLegacyFlightId(text: string): (r: Option<string>)
    ensures text == [] ==> r.None?
    ensures r.Some? ==> r.value != [] && r.value !in Blacklist && IsTokenText(r.value) && Within(r.value, Upper(text))
    ensures r.None? <==>
      (text == [] || (RegRule(Upper(text)).None? && SidRule(Upper(text)).None?
        && forall k :: 0 <= k < |Tokens(Upper(text))| ==> Tokens(Upper(text))[k] in Blacklist))
  {
    if text == [] then None
    else
      var txt := Upper(text);
      var sid := SidRule(txt);
      DigitsNotBlacklisted(sid);
      assert forall i :: 0 <= i < |sid.GetOr([])| ==> IsTokenChar(sid.GetOr([])[i]);
      var ts := Tokens(txt);
      var mixed := FirstWhere(ts, Mixed);
      var allowed := FirstWhere(ts, Allowed);
      assert mixed.Some? ==> allowed.Some?;
      Or(RegRule(txt), Or(sid, Or(mixed, allowed)))
  }

  // ---------------------------------------------------------------- properties

  /** An accepted REG value wins over everything after it. */
  lemma RegFirst(text: string)
    requires text != [] && RegRule(Upper(text)).Some?
    ensures ExtractLegacyFlightId(text) == RegRule(Upper(text))
  {
  }

  /** Without an accepted REG value, a SID number wins over the tokens. */
  lemma SidSecond(text: string)
    requires text != [] && RegRule(Upper(text)).None? && SidRule(Upper(text)).Some?
    ensures ExtractLegacyFlightId(text) == SidRule(Upper(text))
  {
  }

  /**
   * Without REG and SID the result is a token of the text: the first with a
   * letter and a digit, every earlier token lacking one or blacklisted; and
   * when no token mixes both, the first token that is not blacklisted.
   */
  lemma TokenRules(text: string)
    requires text != [] && RegRule(Upper(text)).None? && SidRule(Upper(text)).None?
    ensures var ts := Tokens(Upper(text)); var r := ExtractLegacyFlightId(text);
      (exists k :: 0 <= k < |ts| && Mixed(ts[k])) ==>
        exists k :: 0 <= k < |ts| && ts[k] == r.value && Mixed(ts[k]) && forall j :: 0 <= j < k ==> !Mixed(ts[j])
    ensures var ts := Tokens(Upper(text)); var r := ExtractLegacyFlightId(text);
      (forall k :: 0 <= k < |ts| ==> !Mixed(ts[k])) && r.Some? ==>
        exists k :: 0 <= k < |ts| && ts[k] == r.value && forall j :: 0 <= j < k ==> ts[j] in Blacklist
  {
    var ts := Tokens(Upper(text));
    if FirstWhere(ts, Mixed).Some? {
      FirstWhereIsFirst(ts, Mixed);
    } else if FirstWhere(ts, Allowed).Some? {
      FirstWhereIsFirst(ts, Allowed);
    }
  }

  // ---------------------------------------------------------------- examples

  /** No `REG` anywhere in a text without the letter R. */
  lemma NoReg(txt: string)
    requires forall i :: 0 <= i < |txt| ==> txt[i] != 'R'
    ensures RegRule(txt).None?
  {
    forall q | 0 <= q <= |txt| ensures RegMatch(txt, q).None? {
      assert !At(txt, q, "REG");
    }
  }

  /** `SID/12`: a two-digit SID number is taken, which the current extractor would refuse. */
  lemma ShortSidExample()
    ensures ExtractLegacyFlightId("SID/12") == Some("12")
  {
    var txt := "SID/12";
    ShortSidText();
    NoReg(txt);
    ShortSidMatch();
    SearchFinds(txt, 0, SidMatch, 0);
  }

  lemma ShortSidText()
    ensures Upper("SID/12") == "SID/12"
    ensures forall i :: 0 <= i < |"SID/12"| ==> "SID/12"[i] != 'R'
  {
    var txt := "SID/12";
    assert txt[0] == 'S' && txt[1] == 'I' && txt[2] == 'D' && txt[3] == '/' && txt[4] == '1' && txt[5] == '2';
  }

  lemma ShortSidMatch()
    ensures SidMatch("SID/12", 0) == Some(Span(6, "12"))
  {
    var txt := "SID/12";
    assert txt[0] == 'S' && txt[1] == 'I' && txt[2] == 'D' && txt[3] == '/' && txt[4] == '1' && txt[5] == '2';
    AtChars(txt, 0, "SID/");
    RunIs(txt, 4, 2, IsDigit);
    assert txt[4..6] == "12";
  }

  /** `ZZZZ`: with no REG, SID or mixed token, the first non-blacklisted token is taken. */
  lemma FallbackTokenExample()
    ensures ExtractLegacyFlightId("ZZZZ") == Some("ZZZZ")
  {
    ZzzzNoReg();
    ZzzzNoSid();
    ZzzzTokens();
    ZzzzPicks();
    FallbackRule("ZZZZ");
  }

  lemma ZzzzNoReg()
    ensures Upper("ZZZZ") == "ZZZZ" && RegRule("ZZZZ").None?
  {
    ZzzzText();
    NoReg("ZZZZ");
  }

  /** With no REG, SID or mixed token, the result is the first token that is not blacklisted. */
  lemma FallbackRule(text: string)
    requires text != [] && RegRule(Upper(text)).None? && SidRule(Upper(text)).None?
    requires FirstWhere(Tokens(Upper(text)), Mixed).None?
    ensures ExtractLegacyFlightId(text) == FirstWhere(Tokens(Upper(text)), Allowed)
  {
  }

  lemma ZzzzPicks()
    ensures FirstWhere(["ZZZZ"], Mixed).None? && FirstWhere(["ZZZZ"], Allowed) == Some("ZZZZ")
  {
    ZzzzText();
    assert !HasDigit("ZZZZ");
  }

  lemma ZzzzText()
    ensures Upper("ZZZZ") == "ZZZZ"
    ensures forall i :: 0 <= i < 4 ==> "ZZZZ"[i] == 'Z'
  {
  }

  lemma ZzzzNoSid()
    ensures SidRule("ZZZZ").None?
  {
    var txt := "ZZZZ";
    ZzzzText();
    forall q | 0 <= q <= |txt| ensures SidMatch(txt, q).None? {
      assert !At(txt, q, "SID/");
    }
  }

  lemma ZzzzTokens()
    ensures Tokens("ZZZZ") == ["ZZZZ"]
  {
    var txt := "ZZZZ";
    ZzzzMatch();
    SearchFinds(txt, 0, TokenMatch, 0);
    assert TokenMatch(txt, 4).None?;
    assert FindAll(txt, 4, TokenMatch) == [];
    assert FindAll(txt, 0, TokenMatch) == [Hit(0, 4, txt)];
  }

  lemma ZzzzMatch()
    ensures TokenMatch("ZZZZ", 0) == Some(Span(4, "ZZZZ"))
  {
    var txt := "ZZZZ";
    ZzzzText();
    RunIs(txt, 0, 4, IsTokenChar);
    assert Boundary(txt, 0) && Boundary(txt, 4);
    assert TokenEnd(txt, 0, 4) == Some(4);
    assert txt[0..4] == txt;
  }
}
