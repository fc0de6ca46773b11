/**
 * backend/prepare_api_payload.py: a parsed record becomes the body the API
 * accepts, with a start stamp that is never missing.
 */
module PreparePayload {
  import opened Options
  import opened Strings
  import LegacyTime

  function Min(a: nat, b: nat): nat { if a <= b then a else b }

  /** The four clock digits of a stamp `{date}THH:MM:00Z` whose date has `n` characters. */
  function ClockDigits(stamp: string, n: nat): string
    requires |stamp| >= n + 6
  {
    stamp[n + 1..n + 3] + stamp[n + 4..n + 6]
  }

  /** The shape `{date}THH:MM:00Z`, with `HHMM` digits. */
  predicate IsStampOf(stamp: string, date: string) {
    && |stamp| == |date| + 10 && stamp[..|date|] == date && stamp[|date|] == 'T' && stamp[|date| + 3] == ':'
    && stamp[|date| + 6..] == ":00Z" && AllDigits(ClockDigits(stamp, |date|))
  }

  /**
   * `format_time_from_token` (backend/prepare_api_payload.py:18-30): a token
   * that is three or more digits once stripped becomes a stamp on the given
   * date whose `HHMM` reads the same number as the token's first four digits
   * (a three-digit token is left-padded); anything else gives nothing. There
   * is no range check on the hour or the minute.
   */
  function FormatTimeFromToken(token: Option<string>, date: string): (r: Option<string>)
    ensures r.Some? <==> token.Some? && |Strip(token.value)| >= 3 && IsDigitString(Strip(token.value))
  {
    if token.None? || token.value == [] then None else FormatStripped(Strip(token.value), date)
  }

  /** The stamp of an already stripped token. */
  function FormatStripped(s: string, date: string): (r: Option<string>)
    ensures r.Some? <==> |s| >= 3 && IsDigitString(s)
  {
    if |s| >= 3 && IsDigitString(s) then Some(StampOf(date, Padded(s))) else None
  }

  /** A three-character token gets a leading `0`. */
  function Padded(s: string): (p: string)
    requires |s| >= 3
    ensures |p| >= 4
  {
    if |s| == 3 then "0" + s else s
  }

  /** `f"{date}T{hh}:{mm}:00Z"` with `hh`, `mm` the first two pairs of `p`. */
  function StampOf(date: string, p: string): string
    requires |p| >= 4
  {
    date + "T" + p[..2] + ":" + p[2..4] + ":00Z"
  }

  /** A formatted stamp has the shape `{date}THH:MM:00Z`, and its `HHMM` reads the number of the token's first four digits. */
  lemma FormatStamp(token: Option<string>, date: string)
    ensures var r := FormatTimeFromToken(token, date);
      r.Some? ==> var s := Strip(token.value);
        IsStampOf(r.value, date) && NumberOf(ClockDigits(r.value, |date|)) == NumberOf(s[..Min(4, |s|)])
  {
    var r := FormatTimeFromToken(token, date);
    if r.Some? {
      var s := Strip(token.value);
      assert r == FormatStripped(s, date);
      var p := Padded(s);
      StampDigits(date, p);
      PaddedNumber(s, p);
    }
  }

  lemma StampDigits(date: string, p: string)
    requires |p| >= 4 && AllDigits(p)
    ensures var stamp := StampOf(date, p);
      IsStampOf(stamp, date) && ClockDigits(stamp, |date|) == p[..4]
  {
    var stamp := date + "T" + p[..2] + ":" + p[2..4] + ":00Z";
    var n := |date|;
    assert stamp[n + 1..n + 3] == p[..2];
    assert stamp[n + 4..n + 6] == p[2..4];
    assert p[..2] + p[2..4] == p[..4];
  }

  lemma PaddedNumber(s: string, p: string)
    requires |s| >= 3 && AllDigits(s) && p == (if |s| == 3 then "0" + s else s)
    ensures AllDigits(p[..4]) && NumberOf(p[..4]) == NumberOf(s[..Min(4, |s|)])
  {
    if |s| == 3 {
      NumberOfConcat("0", s);
      assert p[..4] == p && s[..3] == s;
    }
  }

  /** A token in which a colon separates the hour from the minute, such as `07:05`, is refused. */
  lemma ColonTokenRejected(token: string, date: string, i: nat)
    requires i < |token| && token[i] == ':' && forall k :: 0 <= k < |token| ==> !IsSpace(token[k])
    ensures FormatTimeFromToken(Some(token), date).None?
  {
    assert Strip(token) == token;
    assert !IsDigit(token[i]);
  }

  /** Every `HH:MM` token the older `parse_time_token` produces is refused. */
  lemma LegacyTokenRejected(block: string, date: string)
    ensures LegacyTime.ParseLegacyTimeToken(block).Some? ==>
      FormatTimeFromToken(LegacyTime.ParseLegacyTimeToken(block), date).None?
  {
    var t := LegacyTime.ParseLegacyTimeToken(block);
    if t.Some? {
      var v := t.value;
      forall k | 0 <= k < |v| ensures !IsSpace(v[k]) {
        if k < 2 {
          assert v[..2][k] == v[k];
        } else if k > 2 {
          assert v[3..][k - 3] == v[k];
        }
      }
      ColonTokenRejected(v, date, 2);
    }
  }

  lemma DigitNotSpace(c: char)
    requires IsDigit(c)
    ensures !IsSpace(c)
  {
  }

  /** Stripping a digit string changes nothing. */
  lemma StripDigits(s: string)
    requires AllDigits(s)
    ensures Strip(s) == s
  {
    forall k | 0 <= k < |s| ensures !IsSpace(s[k]) {
      DigitNotSpace(s[k]);
    }
  }

  /** A token of four or more digits is cut after its fourth digit. */
  lemma FormatDigits(s: string, date: string)
    requires |s| >= 4 && IsDigitString(s)
    ensures FormatTimeFromToken(Some(s), date) == Some(StampOf(date, s))
  {
    TokenLink(s, date);
    StrippedDigits(s, date);
  }

  /** A digit token is formatted as it stands. */
  lemma TokenLink(s: string, date: string)
    requires IsDigitString(s)
    ensures FormatTimeFromToken(Some(s), date) == FormatStripped(s, date)
  {
    StripDigits(s);
  }

  lemma StrippedDigits(s: string, date: string)
    requires |s| >= 4 && IsDigitString(s)
    ensures FormatStripped(s, date) == Some(StampOf(date, s))
  {
    assert Padded(s) == s;
  }

  /** Digits after the fourth are ignored. */
  lemma ExtraDigitsIgnored(s: string, date: string)
    requires |s| >= 4 && IsDigitString(s)
    ensures FormatTimeFromToken(Some(s), date) == FormatTimeFromToken(Some(s[..4]), date)
  {
    var f := s[..4];
    FormatDigits(s, date);
    FormatDigits(f, date);
    StampPrefix(date, s);
  }

  lemma StampPrefix(date: string, s: string)
    requires |s| >= 4
    ensures StampOf(date, s[..4]) == StampOf(date, s)
  {
    assert s[..4][..2] == s[..2] && s[..4][2..4] == s[2..4];
  }

  /** No range check: `9999` becomes hour 99, minute 99. */
  lemma NoRangeCheck(date: string)
    ensures FormatTimeFromToken(Some("9999"), date) == Some(date + "T99:99:00Z")
  {
    var s := "9999";
    FormatDigits(s, date);
    StampNines(date);
  }

  lemma StampNines(date: string)
    ensures StampOf(date, "9999") == date + "T99:99:00Z"
  {
    var s := "9999";
    assert s[..2] == "99" && s[2..4] == "99";
  }

  // ---------------------------------------------------------------- map_record

  /** A raw payload: block name to text (`None` for a missing block). */
  type Raw = map<string, Option<string>>

  /** The parsed record as read back from JSON; a missing key is `None`. */
  datatype ParsedRecord = ParsedRecord(
    flightId: Option<string>, uavType: Option<string>, startTime: Option<string>, endTime: Option<string>,
    durationSeconds: Option<int>, timeToken: Option<string>,
    startLat: Option<real>, startLon: Option<real>, endLat: Option<real>, endLon: Option<real>,
    rawPayload: Option<Raw>, raw: Option<Raw>)

  /** The API body. */
  datatype ApiRecord = ApiRecord(
    flightId: Option<string>, uavType: Option<string>, startTime: string, endTime: Option<string>,
    durationSeconds: Option<int>,
    startLat: Option<real>, startLon: Option<real>, endLat: Option<real>, endLon: Option<real>,
    raw: Raw)

  /** Python truthiness of an optional text and of an optional dictionary. */
  predicate Truthy(s: Option<string>) { s.Some? && s.value != [] }
  predicate TruthyRaw(m: Option<Raw>) { m.Some? && |m.value| > 0 }

  /**
   * `map_record` (backend/prepare_api_payload.py:32-49): the start time is
   * the record's own when non-empty, else the formatted token, else midnight
   * of the given date, so it is never missing; `raw` is the first non-empty
   * of `raw_payload` and `raw`, else empty; the other fields are copied.
   */
  function MapRecord(r: ParsedRecord, date: string): (a: ApiRecord)
    ensures a.startTime != []
    ensures Truthy(r.startTime) ==> a.startTime == r.startTime.value
    ensures !Truthy(r.startTime) && FormatTimeFromToken(r.timeToken, date).Some? ==>
      a.startTime == FormatTimeFromToken(r.timeToken, date).value
    ensures !Truthy(r.startTime) && FormatTimeFromToken(r.timeToken, date).None? ==> a.startTime == date + "T00:00:00Z"
    ensures TruthyRaw(r.rawPayload) ==> a.raw == r.rawPayload.value
    ensures !TruthyRaw(r.rawPayload) && TruthyRaw(r.raw) ==> a.raw == r.raw.value
    ensures !TruthyRaw(r.rawPayload) && !TruthyRaw(r.raw) ==> a.raw == map[]
    ensures a.flightId == r.flightId && a.uavType == r.uavType && a.endTime == r.endTime
    ensures a.durationSeconds == r.durationSeconds
  {
    var first := if Truthy(r.startTime) then r.startTime else FormatTimeFromToken(r.timeToken, date);
    var start := if first.None? then date + "T00:00:00Z" else first.value;
    var raw := if TruthyRaw(r.rawPayload) then r.rawPayload.value else if TruthyRaw(r.raw) then r.raw.value else map[];
    ApiRecord(r.flightId, r.uavType, start, r.endTime, r.durationSeconds, r.startLat, r.startLon, r.endLat, r.endLon, raw)
  }

  /**
   * A record of the older `normalize_row` (no start time, the DEP-else-SHR
   * token) always maps to midnight of the given date.
   */
  lemma LegacyRecordsStartAtMidnight(r: ParsedRecord, date: string, dep: string, shr: string)
    requires r.startTime.None?
    requires r.timeToken == Or(LegacyTime.ParseLegacyTimeToken(dep), LegacyTime.ParseLegacyTimeToken(shr))
    ensures MapRecord(r, date).startTime == date + "T00:00:00Z"
  {
    LegacyTokenRejected(dep, date);
    LegacyTokenRejected(shr, date);
  }
}
