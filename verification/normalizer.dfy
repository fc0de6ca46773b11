/**
 * `normalize_row` of backend/app/parser.py: three free-text blocks (SHR, DEP,
 * ARR) of a spreadsheet row become one flat record with an identifier,
 * vehicle type, start/end stamps, a duration, start/end coordinates, the
 * original texts and a fingerprint.
 */
module Normalizer {
  import opened Options
  import opened Strings
  import opened Scan
  import opened Rows
  import opened CompactCoord
  import opened FlightId
  import opened Temporal
  import opened Fingerprint

  // ---------------------------------------------------------------- blocks

  /** The four texts a row is read into. */
  datatype Blocks = Blocks(shr: Option<string>, dep: Option<string>, arr: Option<string>, center: Option<string>)

  /** `a or b or None` over optional texts: the first non-empty one. */
  function Pick(a: Option<string>, b: Option<string>): (r: Option<string>)
    ensures r.Some? ==> r.value != [] && (r == a || r == b)
    ensures r.None? <==> (a.None? || a.value == []) && (b.None? || b.value == [])
  {
    if a.Some? && a.value != [] then a else if b.Some? && b.value != [] then b else None
  }

  /** The Cyrillic spreadsheet header of the control-centre column. */
  const CenterHeader := "Центр ЕС ОрВД"

  /** The `raw` dict of backend/app/parser.py:167-172: upper-case header first, then the capitalised one. */
  function RawBlocks(row: Row): (b: Blocks)
    ensures b.shr.Some? ==> b.shr.value != []
    ensures b.dep.Some? ==> b.dep.value != []
    ensures b.arr.Some? ==> b.arr.value != []
  {
    Blocks(Pick(SafeGetStr(row, "SHR"), SafeGetStr(row, "Shr")),
           Pick(SafeGetStr(row, "DEP"), SafeGetStr(row, "Dep")),
           Pick(SafeGetStr(row, "ARR"), SafeGetStr(row, "Arr")),
           Pick(SafeGetStr(row, "center"), SafeGetStr(row, CenterHeader)))
  }

  /** `raw.get(k) or ''`. */
  function TextOf(o: Option<string>): string {
    if o.Some? then o.value else []
  }

  /** The first present value of a sequence of candidates. */
  function FirstSome(os: seq<Option<string>>): (r: Option<string>)
    ensures r.Some? <==> exists i :: 0 <= i < |os| && os[i].Some?
    ensures r.Some? ==> exists i :: 0 <= i < |os| && os[i] == r && forall j :: 0 <= j < i ==> os[j].None?
  {
    if os == [] then None
    else if os[0].Some? then os[0]
    else
      var r := FirstSome(os[1..]);
      assert forall i :: 1 <= i < |os| ==> os[i] == os[1..][i - 1];
      r
  }

  // ---------------------------------------------------------------- coordinate locator

  predicate IsZoneSep(c: char) { IsSpace(c) || c == '/' || c == ':' }

  /** `[0-9NSEWnsew\ \-]` */
  predicate IsZoneChar(c: char) { IsCoordChar(c) || c == ' ' || c == '-' }

  /** The last index in `[lo, hi)` holding a plain space. */
  function LastSpace(txt: string, lo: nat, hi: nat): (r: Option<nat>)
    requires hi <= |txt|
    decreases hi
    ensures r.Some? ==> lo <= r.value < hi && txt[r.value] == ' '
    ensures r.Some? ==> forall i :: r.value < i < hi ==> txt[i] != ' '
    ensures r.None? ==> forall i :: lo <= i < hi ==> txt[i] != ' '
  {
    if hi <= lo then None
    else if txt[hi - 1] == ' ' then Some(hi - 1)
    else LastSpace(txt, lo, hi - 1)
  }

  /**
   * `\b<marker>[\s/:]*([0-9NSEWnsew\ \-]+)` at `p`. The separator run is taken
   * whole when a group character follows it. Otherwise the engine gives back
   * separators until one of them is a group character, and the only such
   * character is the plain space: the group is then that last space alone.
   */
  function ZoneMatch(marker: string, txt: string, p: nat): (r: Option<Span<string>>)
    ensures r.Some? ==> r.value.value != [] && forall i :: 0 <= i < |r.value.value| ==> IsZoneChar(r.value.value[i])
  {
    if !(Boundary(txt, p) && At(txt, p, marker)) then None
    else
      var k := p + |marker|;
      var s := Run(txt, k, IsZoneSep);
      var g := Run(txt, k + s, IsZoneChar);
      if g > 0 then Some(Span(k + s + g, txt[k + s..k + s + g]))
      else if k + s <= |txt| then
        match LastSpace(txt, k, k + s)
        case Some(i) => Some(Span(i + 1, " "))
        case None => None
      else None
  }

  function AdepzMatch(txt: string, p: nat): (r: Option<Span<string>>)
    ensures r.Some? ==> r.value.value != []
  {
    ZoneMatch("ADEPZ", txt, p)
  }

  function AdarrzMatch(txt: string, p: nat): (r: Option<Span<string>>)
    ensures r.Some? ==> r.value.value != []
  {
    ZoneMatch("ADARRZ", txt, p)
  }

  /** The coordinate after the first `m` marker, stripped and decoded. */
  function ZoneCoord(txt: string, m: Matcher<string>): Option<LatLon> {
    match Search(txt, 0, m)
    case None => None
    case Some(h) => ParseCompactCoord(Strip(h.value))
  }

  predicate IsSlashColon(c: char) { c == '/' || c == ':' }

  /** Where `\s*[/:]*\s*` ends when started at `k` (each run taken greedily). */
  function SepEnd(txt: string, k: nat): (q: nat)
    ensures q >= k
  {
    var k1 := k + Run(txt, k, IsSpace);
    var k2 := k1 + Run(txt, k1, IsSlashColon);
    k2 + Run(txt, k2, IsSpace)
  }

  /** The alternatives of `(?:DEP|ADARR|ADEP|ADARRZ|DEP/)`, in the order the engine tries them. */
  const KeyAlternatives: seq<string> := ["DEP", "ADARR", "ADEP", "ADARRZ", "DEP/"]

  /**
   * `<alt>\s*[/:]*\s*([0-9]{4,15}[NSEWnsew0-9]*)` at `p`, trying the
   * alternatives in order. Digits can only begin where the separator runs
   * end, and the captured text is the whole run of `[0-9NSEWnsew]` there once
   * it starts with at least four digits.
   */
  function KeyMatchFrom(alts: seq<string>, txt: string, p: nat): (r: Option<Span<string>>)
    decreases |alts|
    ensures r.Some? ==> |r.value.value| >= 4 && forall i :: 0 <= i < |r.value.value| ==> IsCoordChar(r.value.value[i])
  {
    if alts == [] then None
    else
      var q := SepEnd(txt, p + |alts[0]|);
      if At(txt, p, alts[0]) && DigitRun(txt, q) >= 4 then
        var n := Run(txt, q, IsCoordChar);
        Some(Span(q + n, txt[q..q + n]))
      else KeyMatchFrom(alts[1..], txt, p)
  }

  function KeyMatch(txt: string, p: nat): (r: Option<Span<string>>)
    ensures r.Some? ==> |r.value.value| >= 4
  {
    KeyMatchFrom(KeyAlternatives, txt, p)
  }

  predicate IsHemisphereLetter(c: char) { c in "NSEWnsew" }

  /**
   * `([0-9]{4,15}[NSEWnsew])` at `p`: a run of 4 to 15 digits followed by a
   * hemisphere letter (inside a longer run only the last 15 digits can match).
   */
  function TokenMatch(txt: string, p: nat): (r: Option<Span<string>>)
    ensures r.Some? ==> 5 <= |r.value.value| <= 16
  {
    var d := DigitRun(txt, p);
    if 4 <= d <= 15 && p + d < |txt| && IsHemisphereLetter(txt[p + d])
    then Some(Span(p + d + 1, txt[p..p + d + 1])) else None
  }

  predicate IsLatLetter(c: char) { c in "NSns" }
  predicate IsLonLetter(c: char) { c in "EWew" }

  /** `(\d{4,6}[NSns]\d{5,7}[EWew])` at `p`. */
  function RmkMatch(txt: string, p: nat): (r: Option<Span<string>>)
    ensures r.Some? ==> 11 <= |r.value.value| <= 15
  {
    var d1 := DigitRun(txt, p);
    if !(4 <= d1 <= 6 && p + d1 < |txt| && IsLatLetter(txt[p + d1])) then None
    else
      var q := p + d1 + 1;
      var d2 := DigitRun(txt, q);
      if 5 <= d2 <= 7 && q + d2 < |txt| && IsLonLetter(txt[q + d2])
      then Some(Span(q + d2 + 1, txt[p..q + d2 + 1])) else None
  }

  /** The decoding of the first candidate that decodes. */
  function FirstParsed(hs: seq<Hit<string>>): (r: Option<LatLon>)
    ensures r.Some? ==> exists i :: 0 <= i < |hs| && ParseCompactCoord(hs[i].value) == r
    ensures r.None? <==> forall i :: 0 <= i < |hs| ==> ParseCompactCoord(hs[i].value).None?
  {
    if hs == [] then None
    else
      var r := ParseCompactCoord(hs[0].value);
      if r.Some? then r
      else
        assert forall i :: 1 <= i < |hs| ==> hs[i] == hs[1..][i - 1];
        FirstParsed(hs[1..])
  }

  /** The token of the marker rule, else the first compact-looking token. */
  function MarkerToken(txt: string): Option<string> {
    match Search(txt, 0, KeyMatch)
    case Some(h) => Some(h.value)
    case None =>
      match Search(txt, 0, TokenMatch)
      case Some(h) => Some(h.value)
      case None => None
  }

  /**
   * `find_coord_in_text` (backend/app/parser.py:191-224): the first of the
   * ADEPZ value, the ADARRZ value, the marker or compact-looking token, and
   * the first full coordinate pair anywhere, that decodes.
   */
  function FindCoordInText(txt: string): (r: Option<LatLon>)
    ensures txt == [] ==> r.None?
  {
    if txt == [] then None
    else
      var marker := MarkerToken(txt);
      Or(ZoneCoord(txt, AdepzMatch),
      Or(ZoneCoord(txt, AdarrzMatch),
      Or(if marker.Some? then ParseCompactCoord(marker.value) else None,
         FirstParsed(FindAll(txt, 0, RmkMatch)))))
  }

  /** The third rule: the marker or compact-looking token, decoded. */
  function MarkerCoord(txt: string): Option<LatLon> {
    match MarkerToken(txt)
    case Some(t) => ParseCompactCoord(t)
    case None => None
  }

  /** The fourth rule: the first full coordinate pair of the text that decodes (see `FirstParsed`). */
  function PairCoord(txt: string): Option<LatLon> {
    FirstParsed(FindAll(txt, 0, RmkMatch))
  }

  /** The locator's result is its four rules' results, taken in order. */
  lemma CoordRules(txt: string)
    requires txt != []
    ensures FindCoordInText(txt)
         == Or(ZoneCoord(txt, AdepzMatch), Or(ZoneCoord(txt, AdarrzMatch), Or(MarkerCoord(txt), PairCoord(txt))))
  {
  }

  /** An ADEPZ value that decodes wins. */
  lemma AdepzFirst(txt: string)
    requires txt != [] && ZoneCoord(txt, AdepzMatch).Some?
    ensures FindCoordInText(txt) == ZoneCoord(txt, AdepzMatch)
  {
    CoordRules(txt);
  }

  /** Without a decodable ADEPZ value, a decodable ADARRZ value wins. */
  lemma AdarrzSecond(txt: string)
    requires txt != [] && ZoneCoord(txt, AdepzMatch).None? && ZoneCoord(txt, AdarrzMatch).Some?
    ensures FindCoordInText(txt) == ZoneCoord(txt, AdarrzMatch)
  {
    CoordRules(txt);
  }

  /** Without a decodable ADEPZ or ADARRZ value, the marker or compact-looking token decides if it decodes. */
  lemma MarkerThird(txt: string)
    requires txt != [] && ZoneCoord(txt, AdepzMatch).None? && ZoneCoord(txt, AdarrzMatch).None?
    requires MarkerCoord(txt).Some?
    ensures FindCoordInText(txt) == MarkerCoord(txt)
  {
    CoordRules(txt);
  }

  /** When the first three rules give nothing, the result is the first full coordinate pair that decodes. */
  lemma PairFourth(txt: string)
    requires txt != [] && ZoneCoord(txt, AdepzMatch).None? && ZoneCoord(txt, AdarrzMatch).None?
    requires MarkerCoord(txt).None?
    ensures FindCoordInText(txt) == PairCoord(txt)
  {
    CoordRules(txt);
  }

  /**
   * No point exactly when the text is empty or no rule yields a text that
   * decodes; in particular no full coordinate pair of the text decodes.
   */
  lemma CoordNoneIff(txt: string)
    ensures FindCoordInText(txt).None? <==>
      (txt == [] || (ZoneCoord(txt, AdepzMatch).None? && ZoneCoord(txt, AdarrzMatch).None?
        && MarkerCoord(txt).None? && PairCoord(txt).None?))
    ensures FindCoordInText(txt).None? && txt != [] ==>
      var hs := FindAll(txt, 0, RmkMatch); forall i :: 0 <= i < |hs| ==> ParseCompactCoord(hs[i].value).None?
  {
    if txt != [] {
      CoordRules(txt);
    }
  }

  // ---------------------------------------------------------------- vehicle type

  /** `[A-Z0-9\-\_]` */
  predicate IsTypChar(c: char) { IsUpper(c) || IsDigit(c) || c == '-' || c == '_' }

  /** `\bTYP/([A-Z0-9\-\_]+)` at `p`. */
  function TypMatch(txt: string, p: nat): (r: Option<Span<string>>)
    ensures r.Some? ==> r.value.value != [] && forall i :: 0 <= i < |r.value.value| ==> IsTypChar(r.value.value[i])
  {
    if !(Boundary(txt, p) && At(txt, p, "TYP/")) then None
    else
      var n := Run(txt, p + 4, IsTypChar);
      if n == 0 then None else Some(Span(p + 4 + n, txt[p + 4..p + 4 + n]))
  }

  /** `\b<word>\b` at `p`. */
  function WordAt(word: string, txt: string, p: nat): (r: Option<Span<string>>)
    ensures r.Some? ==> r.value.value == word
  {
    if Boundary(txt, p) && At(txt, p, word) && Boundary(txt, p + |word|)
    then Some(Span(p + |word|, word)) else None
  }

  function BlaMatch(txt: string, p: nat): (r: Option<Span<string>>)
    ensures r.Some? ==> r.value.value == "BLA"
  {
    WordAt("BLA", txt, p)
  }

  function AerMatch(txt: string, p: nat): (r: Option<Span<string>>)
    ensures r.Some? ==> r.value.value == "AER"
  {
    WordAt("AER", txt, p)
  }

  function Found(h: Option<Hit<string>>): (r: Option<string>)
    ensures r.Some? <==> h.Some?
    ensures h.Some? ==> r.value == h.value.value
  {
    if h.Some? then Some(h.value.value) else None
  }

  /**
   * The vehicle type one block names (backend/app/parser.py:252-263): its
   * TYP/ value, else BLA, else AER, all read in upper case.
   */
  function BlockUavType(block: string): (r: Option<string>)
    ensures r.Some? ==> r.value != [] && forall i :: 0 <= i < |r.value| ==> IsTypChar(r.value[i])
    ensures block == [] ==> r.None?
  {
    if block == [] then None
    else
      var u := Upper(block);
      Or(Found(Search(u, 0, TypMatch)), Or(Found(Search(u, 0, BlaMatch)), Found(Search(u, 0, AerMatch))))
  }

  // ---------------------------------------------------------------- record

  /** The original texts kept beside the record (backend/app/parser.py:277-282). */
  datatype Payload = Payload(shr: Option<string>, dep: Option<string>, arr: Option<string>, center: Option<string>)

  /** The normalised record; coordinates are exact reals. */
  datatype Record = Record(
    flightId: Option<string>, uavType: Option<string>,
    startTime: Option<string>, endTime: Option<string>, durationSeconds: Option<int>,
    startLat: Option<real>, startLon: Option<real>, endLat: Option<real>, endLon: Option<real>,
    timeToken: Option<string>, rawPayload: Payload, fingerprint: Digest)

  function Lat(c: Option<LatLon>): Option<real> { if c.Some? then Some(c.value.lat) else None }
  function Lon(c: Option<LatLon>): Option<real> { if c.Some? then Some(c.value.lon) else None }

  /** The first present candidate at index `i` is what `FirstSome` returns. */
  lemma {:induction false} FirstSomeAt(os: seq<Option<string>>, i: nat)
    requires i < |os| && os[i].Some? && forall j :: 0 <= j < i ==> os[j].None?
    ensures FirstSome(os) == os[i]
  {
    if i > 0 {
      assert os[1..][i - 1] == os[i];
      FirstSomeAt(os[1..], i - 1);
    }
  }

  function IdOf(src: Option<string>): Option<string> {
    if src.Some? then ExtractFlightId(src.value) else None
  }

  /** The identifier loop's candidates: DEP, SHR, ARR (backend/app/parser.py:176). */
  function IdCandidates(b: Blocks): seq<Option<string>> { [IdOf(b.dep), IdOf(b.shr), IdOf(b.arr)] }

  function FlightIdOf(b: Blocks): Option<string> { FirstSome(IdCandidates(b)) }

  /** The vehicle-type loop's blocks: SHR, DEP, ARR (backend/app/parser.py:251). */
  function TypeBlocks(b: Blocks): seq<string> { [TextOf(b.shr), TextOf(b.dep), TextOf(b.arr)] }

  function UavTypeOf(b: Blocks): Option<string> {
    FirstSome([BlockUavType(TextOf(b.shr)), BlockUavType(TextOf(b.dep)), BlockUavType(TextOf(b.arr))])
  }

  function DepCoord(b: Blocks): Option<LatLon> { FindCoordInText(TextOf(b.dep)) }
  function ArrCoord(b: Blocks): Option<LatLon> { FindCoordInText(TextOf(b.arr)) }
  function ShrCoord(b: Blocks): Option<LatLon> { FindCoordInText(TextOf(b.shr)) }

  /** The start point: DEP's coordinate, else SHR's. */
  function StartCoord(b: Blocks): Option<LatLon> { Or(DepCoord(b), ShrCoord(b)) }

  /** The end point: ARR's coordinate, else SHR's. */
  function EndCoord(b: Blocks): Option<LatLon> { Or(ArrCoord(b), ShrCoord(b)) }

  /** The DOF date of SHR, else DEP, else ARR. */
  function DofOf(b: Blocks): Option<string> {
    Or(ParseDof(TextOf(b.shr)), Or(ParseDof(TextOf(b.dep)), ParseDof(TextOf(b.arr))))
  }

  /** The departure time token: DEP's, else SHR's. */
  function AtdOf(b: Blocks): Option<string> { Or(ParseTimeToken(TextOf(b.dep)), ParseTimeToken(TextOf(b.shr))) }

  /** The arrival time token: ARR's only. */
  function AtaOf(b: Blocks): Option<string> { ParseTimeToken(TextOf(b.arr)) }

  function StartTimeOf(b: Blocks): Option<string> { Combine(DofOf(b), AtdOf(b)) }
  function EndTimeOf(b: Blocks): Option<string> { Combine(DofOf(b), AtaOf(b)) }

  function PayloadOf(row: Row): Payload {
    Payload(SafeGetStr(row, "SHR"), SafeGetStr(row, "DEP"), SafeGetStr(row, "ARR"), SafeGetStr(row, "center"))
  }

  /** What `normalize_row` returns, as one expression; `render` stands for `str` on floats. */
  function NormalizeSpec(row: Row, render: real -> string): Record {
    var b := RawBlocks(row);
    var start, end := StartCoord(b), EndCoord(b);
    Record(FlightIdOf(b), UavTypeOf(b), StartTimeOf(b), EndTimeOf(b), DurationSeconds(StartTimeOf(b), EndTimeOf(b)),
           Lat(start), Lon(start), Lat(end), Lon(end), AtdOf(b), PayloadOf(row),
           MakeFingerprint(FlightIdOf(b), StartTimeOf(b), Lat(start), Lon(start), render))
  }

  /** The record's fields in terms of the blocks of its row. */
  lemma RecordParts(row: Row, render: real -> string)
    ensures var r, b := NormalizeSpec(row, render), RawBlocks(row);
      r.flightId == FlightIdOf(b) && r.uavType == UavTypeOf(b)
      && r.startTime == StartTimeOf(b) && r.endTime == EndTimeOf(b)
      && r.durationSeconds == DurationSeconds(StartTimeOf(b), EndTimeOf(b))
      && r.startLat == Lat(StartCoord(b)) && r.startLon == Lon(StartCoord(b))
      && r.endLat == Lat(EndCoord(b)) && r.endLon == Lon(EndCoord(b))
      && r.timeToken == AtdOf(b)
      && r.fingerprint == MakeFingerprint(r.flightId, r.startTime, r.startLat, r.startLon, render)
  {
  }

  /** The identifier is that of the first candidate, in the order DEP, SHR, ARR, that yields one. */
  lemma IdFound(b: Blocks, i: nat)
    requires i <= 3 && forall j :: 0 <= j < i ==> IdCandidates(b)[j].None?
    ensures i < 3 && IdCandidates(b)[i].Some? ==> FlightIdOf(b) == IdCandidates(b)[i]
    ensures i == 3 ==> FlightIdOf(b).None?
  {
    var cands := IdCandidates(b);
    if i < 3 && cands[i].Some? {
      FirstSomeAt(cands, i);
    } else if i == 3 {
      assert cands[0].None? && cands[1].None? && cands[2].None?;
    }
  }

  /** The identifier loop (backend/app/parser.py:175-180): the first block that yields an identifier. */
  method FirstFlightId(b: Blocks) returns (flightId: Option<string>)
    ensures flightId == FlightIdOf(b)
  {
    var sources := [b.dep, b.shr, b.arr];
    assert forall j :: 0 <= j < |sources| ==> IdCandidates(b)[j] == IdOf(sources[j]);
    flightId := None;
    var i := 0;
    while i < |sources|
      invariant 0 <= i <= |sources|
      invariant forall j :: 0 <= j < i ==> IdCandidates(b)[j].None?
    {
      var fid := IdOf(sources[i]);
      if fid.Some? && fid.value != [] {
        flightId := fid;
        IdFound(b, i);
        return;
      }
      i := i + 1;
    }
    IdFound(b, 3);
  }

  /** The vehicle-type loop (backend/app/parser.py:250-263): empty blocks are skipped, the first hit wins. */
  method DetectUavType(b: Blocks) returns (uav: Option<string>)
    ensures uav == UavTypeOf(b)
  {
    var blocks := TypeBlocks(b);
    ghost var cands := [BlockUavType(blocks[0]), BlockUavType(blocks[1]), BlockUavType(blocks[2])];
    uav := None;
    var k := 0;
    while k < |blocks|
      invariant 0 <= k <= |blocks|
      invariant uav.None? ==> forall j :: 0 <= j < k ==> cands[j].None?
      invariant uav.Some? ==> uav == FirstSome(cands)
    {
      if blocks[k] == [] {
        k := k + 1;
        continue;
      }
      var found := BlockUavType(blocks[k]);
      if found.Some? {
        uav := found;
        FirstSomeAt(cands, k);
        break;
      }
      k := k + 1;
    }
  }

  /**
   * `normalize_row` (backend/app/parser.py:159-307), step by step: the
   * identifier and vehicle-type loops, the start/end precedence, the times,
   * the duration, the payload and the fingerprint.
   */
  method NormalizeRow(row: Row, render: real -> string) returns (out: Record)
    ensures out == NormalizeSpec(row, render)
  {
    var b := RawBlocks(row);
    var flightId := FirstFlightId(b);

    var depCoord, arrCoord, shrCoord := DepCoord(b), ArrCoord(b), ShrCoord(b);
    var startLat, startLon, endLat, endLon: Option<real> := None, None, None, None;
    if depCoord.Some? {
      startLat, startLon := Some(depCoord.value.lat), Some(depCoord.value.lon);
    } else if shrCoord.Some? {
      startLat, startLon := Some(shrCoord.value.lat), Some(shrCoord.value.lon);
    }
    if arrCoord.Some? {
      endLat, endLon := Some(arrCoord.value.lat), Some(arrCoord.value.lon);
    } else if shrCoord.Some? {
      endLat, endLon := Some(shrCoord.value.lat), Some(shrCoord.value.lon);
    }
    assert startLat == Lat(StartCoord(b)) && startLon == Lon(StartCoord(b));
    assert endLat == Lat(EndCoord(b)) && endLon == Lon(EndCoord(b));

    var atd := AtdOf(b);
    var startTime := Combine(DofOf(b), atd);
    var endTime := Combine(DofOf(b), AtaOf(b));
    var uav := DetectUavType(b);

    var duration := DurationSeconds(startTime, endTime);
    var fingerprint := MakeFingerprint(flightId, startTime, startLat, startLon, render);
    out := Record(flightId, uav, startTime, endTime, duration, startLat, startLon, endLat, endLon, atd,
                  PayloadOf(row), fingerprint);
  }

  // ---------------------------------------------------------------- properties of the record

  /** The identifier comes from DEP, else SHR, else ARR, and is a clean upper-case token. */
  lemma FlightIdRule(b: Blocks)
    ensures FlightIdOf(b).Some? <==> IdOf(b.dep).Some? || IdOf(b.shr).Some? || IdOf(b.arr).Some?
    ensures IdOf(b.dep).Some? ==> FlightIdOf(b) == IdOf(b.dep)
    ensures IdOf(b.dep).None? && IdOf(b.shr).Some? ==> FlightIdOf(b) == IdOf(b.shr)
    ensures IdOf(b.dep).None? && IdOf(b.shr).None? ==> FlightIdOf(b) == IdOf(b.arr)
    ensures FlightIdOf(b).Some? ==>
      FlightIdOf(b).value != [] && FlightIdOf(b).value !in Keywords && IsIdText(FlightIdOf(b).value)
  {
    var f, d, h, a := FlightIdOf(b), IdOf(b.dep), IdOf(b.shr), IdOf(b.arr);
    FlightIdSource(b);
    if f.Some? {
      IdOfClean(if d.Some? then b.dep else if h.Some? then b.shr else b.arr);
    }
  }

  /** Which block the identifier comes from. */
  lemma FlightIdSource(b: Blocks)
    ensures IdOf(b.dep).Some? ==> FlightIdOf(b) == IdOf(b.dep)
    ensures IdOf(b.dep).None? && IdOf(b.shr).Some? ==> FlightIdOf(b) == IdOf(b.shr)
    ensures IdOf(b.dep).None? && IdOf(b.shr).None? ==> FlightIdOf(b) == IdOf(b.arr)
  {
    FirstOfThree(IdOf(b.dep), IdOf(b.shr), IdOf(b.arr));
  }

  /** The first present of three candidates. */
  lemma FirstOfThree(x: Option<string>, y: Option<string>, z: Option<string>)
    ensures FirstSome([x, y, z]) == if x.Some? then x else if y.Some? then y else z
  {
    var os := [x, y, z];
    if x.Some? {
      FirstSomeAt(os, 0);
    } else if y.Some? {
      FirstSomeAt(os, 1);
    } else if z.Some? {
      FirstSomeAt(os, 2);
    } else {
      assert forall i :: 0 <= i < |os| ==> os[i].None?;
    }
  }

  lemma IdOfClean(src: Option<string>)
    ensures IdOf(src).Some? ==> IdOf(src).value != [] && IdOf(src).value !in Keywords && IsIdText(IdOf(src).value)
  {
  }

  /**
   * Start and end points: DEP's coordinate, else SHR's, for the start; ARR's,
   * else SHR's, for the end. With neither DEP nor ARR located, both are SHR's.
   */
  lemma EndpointRule(b: Blocks)
    ensures DepCoord(b).Some? ==> StartCoord(b) == DepCoord(b)
    ensures DepCoord(b).None? ==> StartCoord(b) == ShrCoord(b)
    ensures ArrCoord(b).Some? ==> EndCoord(b) == ArrCoord(b)
    ensures ArrCoord(b).None? ==> EndCoord(b) == ShrCoord(b)
    ensures DepCoord(b).None? && ArrCoord(b).None? ==> StartCoord(b) == EndCoord(b)
  {
  }

  /** Latitude and longitude of a point are present together. */
  lemma LatLonTogether(c: Option<LatLon>)
    ensures Lat(c).None? <==> Lon(c).None?
    ensures c.Some? ==> Lat(c) == Some(c.value.lat) && Lon(c) == Some(c.value.lon)
  {
  }

  /**
   * The start stamp is on the DOF day at DEP's clock time, else SHR's, and at
   * midnight without one; the end stamp is on the same day at ARR's clock time
   * or at midnight.
   */
  lemma TimesRule(b: Blocks)
    ensures AtdOf(b).Some? ==> IsClockText(AtdOf(b).value)
    ensures ParseTimeToken(TextOf(b.dep)).Some? ==> AtdOf(b) == ParseTimeToken(TextOf(b.dep))
    ensures var s := CombineStamp(DofOf(b), AtdOf(b));
      s.Some? && AtdOf(b).Some? ==> s.value.hour == NumberOf(AtdOf(b).value[..2]) && s.value.minute == NumberOf(AtdOf(b).value[3..])
    ensures var s := CombineStamp(DofOf(b), AtdOf(b));
      s.Some? && AtdOf(b).None? ==> s.value.hour == 0 && s.value.minute == 0
    ensures var e := CombineStamp(DofOf(b), AtaOf(b));
      e.Some? && AtaOf(b).Some? ==> e.value.hour == NumberOf(AtaOf(b).value[..2]) && e.value.minute == NumberOf(AtaOf(b).value[3..])
    ensures var e := CombineStamp(DofOf(b), AtaOf(b));
      e.Some? && AtaOf(b).None? ==> e.value.hour == 0 && e.value.minute == 0
    ensures var s, e := CombineStamp(DofOf(b), AtdOf(b)), CombineStamp(DofOf(b), AtaOf(b));
      s.Some? && e.Some? ==> s.value.year == e.value.year && s.value.month == e.value.month && s.value.day == e.value.day
    ensures StartTimeOf(b).Some? ==> ReadIsoZ(StartTimeOf(b).value) == CombineStamp(DofOf(b), AtdOf(b))
    ensures EndTimeOf(b).Some? ==> ReadIsoZ(EndTimeOf(b).value) == CombineStamp(DofOf(b), AtaOf(b))
  {
    var dof, atd, ata := DofOf(b), AtdOf(b), AtaOf(b);
    CombineClock(dof, atd);
    CombineClock(dof, ata);
    CombineSameDay(dof, atd, ata);
  }

  /**
   * The duration is the minute difference of the two stamps in seconds, and
   * exists exactly when both stamps exist and the end is not earlier.
   * Without an ARR time the end falls back to midnight of the DOF day, so a
   * duration then exists only for a departure at midnight, and it is zero.
   */
  lemma DurationRule(b: Blocks)
    ensures var d := DurationSeconds(StartTimeOf(b), EndTimeOf(b));
      var s, e := CombineStamp(DofOf(b), AtdOf(b)), CombineStamp(DofOf(b), AtaOf(b));
      (d.Some? <==> s.Some? && e.Some? && EarlierOrSame(s.value, e.value))
      && (d.Some? ==> d.value == (Minutes(e.value) - Minutes(s.value)) * 60)
      && (d.Some? && AtaOf(b).None? ==> s.value.hour == 0 && s.value.minute == 0 && d.value == 0)
  {
    var s, e := CombineStamp(DofOf(b), AtdOf(b)), CombineStamp(DofOf(b), AtaOf(b));
    if s.Some? && e.Some? {
      assert StartTimeOf(b) == Some(IsoZ(s.value));
      assert EndTimeOf(b) == Some(IsoZ(e.value));
      DurationOfStamps(s.value, e.value);
      if AtaOf(b).None? && EarlierOrSame(s.value, e.value) {
        TimesRule(b);
        assert e.value == s.value.(hour := 0, minute := 0);
        MinutesOrder(s.value, e.value);
      }
    }
  }

  /** A rendered stamp holds no `|`. */
  lemma IsoZNoBar(st: Stamp)
    requires ValidStamp(st)
    ensures '|' !in IsoZ(st)
  {
    var parts := [Pad4(st.year), Pad2(st.month), Pad2(st.day), Pad2(st.hour), Pad2(st.minute)];
    assert forall k, i :: 0 <= k < 5 && 0 <= i < |parts[k]| ==> IsDigit(parts[k][i]);
  }

  /** The identifier holds no `|`. */
  lemma IdNoBar(b: Blocks)
    ensures '|' !in TextField(FlightIdOf(b))
    ensures FlightIdOf(b).Some? ==> FlightIdOf(b).value != []
  {
    FlightIdRule(b);
    var f := FlightIdOf(b);
    if f.Some? {
      assert forall i :: 0 <= i < |f.value| ==> IsIdChar(f.value[i]);
    }
  }

  /** The start stamp holds no `|`. */
  lemma StartNoBar(b: Blocks)
    ensures '|' !in TextField(StartTimeOf(b))
    ensures StartTimeOf(b).Some? ==> StartTimeOf(b).value != []
  {
    var s := CombineStamp(DofOf(b), AtdOf(b));
    if s.Some? {
      assert StartTimeOf(b) == Some(IsoZ(s.value));
      IsoZNoBar(s.value);
    }
  }

  /**
   * Two records share a fingerprint exactly when they share identifier,
   * start stamp and rendered start coordinates, given a float rendering that
   * never writes `|`.
   */
  lemma FingerprintRule(b1: Blocks, b2: Blocks, render: real -> string)
    requires forall x :: '|' !in render(x)
    ensures var l1, o1, l2, o2 := Lat(StartCoord(b1)), Lon(StartCoord(b1)), Lat(StartCoord(b2)), Lon(StartCoord(b2));
      MakeFingerprint(FlightIdOf(b1), StartTimeOf(b1), l1, o1, render)
        == MakeFingerprint(FlightIdOf(b2), StartTimeOf(b2), l2, o2, render) <==>
      FlightIdOf(b1) == FlightIdOf(b2) && StartTimeOf(b1) == StartTimeOf(b2)
      && CoordField(l1, render) == CoordField(l2, render) && CoordField(o1, render) == CoordField(o2, render)
  {
    var l1, o1, l2, o2 := Lat(StartCoord(b1)), Lon(StartCoord(b1)), Lat(StartCoord(b2)), Lon(StartCoord(b2));
    var f1, f2, t1, t2 := FlightIdOf(b1), FlightIdOf(b2), StartTimeOf(b1), StartTimeOf(b2);
    IdNoBar(b1);
    IdNoBar(b2);
    StartNoBar(b1);
    StartNoBar(b2);
    if MakeFingerprint(f1, t1, l1, o1, render) == MakeFingerprint(f2, t2, l2, o2, render) {
      FingerprintDeterminesFields(f1, t1, l1, o1, f2, t2, l2, o2, render);
      assert TextField(f1) == TextField(f2) && TextField(t1) == TextField(t2);
      assert f1 == f2;
      assert t1 == t2;
    }
  }
}
