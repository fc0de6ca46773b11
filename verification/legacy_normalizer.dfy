/**
 * `normalize_row` of backend/app/parser.py's older revision,
 * backend/app/parser.back.py: the SHR, DEP and ARR texts of a row become a
 * record with an identifier, start/end coordinates, the departure time token
 * and a fingerprint; the stamps and the vehicle type are always left empty.
 */
module LegacyNormalizer {
  import opened Options
  import opened Strings
  import opened Scan
  import opened Rows
  import opened CompactCoord
  import opened LegacyCoord
  import opened LegacyTime
  import opened LegacyFlightId
  import opened Fingerprint
  import Temporal
  import Normalizer

  // ---------------------------------------------------------------- _get

  /** `k.lower().strip() == key.lower().strip()`. */
  predicate SameName(k: string, key: string) {
    Strip(Lower(k)) == Strip(Lower(key))
  }

  /** The second loop: the value under the first column (from `i` on) whose name matches; `None` or NaN there gives nothing. */
  function ScanNames(row: Row, key: string, i: nat): (r: Option<string>)
    decreases |row| - i
    ensures r.Some? ==> exists j :: 0 <= j < |row| && SameName(row[j].0, key) && row[j].1 == Text(r.value)
    ensures (forall j :: i <= j < |row| ==> !SameName(row[j].0, key)) ==> r.None?
  {
    if i >= |row| then None
    else if SameName(row[i].0, key) then SafeStr(Lookup(row, row[i].0))
    else ScanNames(row, key, i + 1)
  }

  /** `str.lower()` of an upper-cased or lower-cased name is the name lower-cased. */
  lemma {:induction false} LowerForms(key: string)
    ensures Lower(Upper(key)) == Lower(key) && Lower(Lower(key)) == Lower(key)
  {
    var a, b, c := Lower(Upper(key)), Lower(Lower(key)), Lower(key);
    forall i | 0 <= i < |key| ensures a[i] == c[i] && b[i] == c[i] {
      var u := UpperChar(key[i]);
      assert a[i] == LowerChar(u);
    }
  }

  /** The names tried first, in order, returning the first that holds a usable value. */
  function TryNames(row: Row, names: seq<string>): (r: Option<string>)
    ensures r.Some? ==> exists g :: 0 <= g < |names| && Lookup(row, names[g]) == Some(Text(r.value))
  {
    if names == [] then None
    else
      var r := Or(SafeStr(Lookup(row, names[0])), TryNames(row, names[1..]));
      assert forall g :: 1 <= g < |names| ==> names[1..][g - 1] == names[g];
      r
  }

  /**
   * `_get` (backend/app/parser.back.py:242-254): the text under the key as
   * given, lower-cased or upper-cased, else under the first column whose
   * name matches ignoring case and surrounding white space.
   */
  function GetSpec(row: Row, key: string): Option<string> {
    Or(TryNames(row, [key, Lower(key), Upper(key)]), ScanNames(row, key, 0))
  }

  /** The two loops of `_get`, each returning on its first hit. */
  method Get(row: Row, key: string) returns (r: Option<string>)
    ensures r == GetSpec(row, key)
  {
    var names := [key, Lower(key), Upper(key)];
    var scan := ScanNames(row, key, 0);
    var f := 0;
    while f < |names|
      invariant 0 <= f <= |names|
      invariant GetSpec(row, key) == Or(TryNames(row, names[f..]), scan)
    {
      assert names[f..][1..] == names[f + 1..];
      var v := SafeStr(Lookup(row, names[f]));
      if v.Some? {
        return v;
      }
      f := f + 1;
    }
    var i := 0;
    while i < |row|
      invariant 0 <= i <= |row|
      invariant scan == ScanNames(row, key, i)
    {
      if SameName(row[i].0, key) {
        return SafeStr(Lookup(row, row[i].0));
      }
      i := i + 1;
    }
    return None;
  }

  /** The key as given, lower-cased and upper-cased all match the key. */
  lemma NameFormsMatch(key: string)
    ensures SameName(key, key) && SameName(Lower(key), key) && SameName(Upper(key), key)
  {
    LowerForms(key);
  }

  /** A name tried first is found only under a column whose name matches the key. */
  lemma TriedNamesMatch(row: Row, key: string)
    ensures var t := TryNames(row, [key, Lower(key), Upper(key)]);
      t.Some? ==> exists i :: 0 <= i < |row| && SameName(row[i].0, key) && row[i].1 == Text(t.value)
  {
    NameFormsMatch(key);
    var names := [key, Lower(key), Upper(key)];
    var t := TryNames(row, names);
    if t.Some? {
      var g :| 0 <= g < |names| && Lookup(row, names[g]) == Some(Text(t.value));
      var name := names[g];
      assert name == key || name == Lower(key) || name == Upper(key) by {
        assert g == 0 || g == 1 || g == 2;
      }
      FoundUnder(row, name, key, t.value);
    }
  }

  /** A text found under a name that matches the key sits in a column that matches the key. */
  lemma FoundUnder(row: Row, name: string, key: string, v: string)
    requires SameName(name, key) && Lookup(row, name) == Some(Text(v))
    ensures exists i :: 0 <= i < |row| && SameName(row[i].0, key) && row[i].1 == Text(v)
  {
    var i :| 0 <= i < |row| && row[i] == (name, Text(v));
    assert SameName(row[i].0, key);
  }

  /** A text is only ever found under a column whose name matches the key ignoring case and surrounding white space. */
  lemma GetNeedsMatchingName(row: Row, key: string)
    ensures GetSpec(row, key).Some? ==>
      exists i :: 0 <= i < |row| && SameName(row[i].0, key) && row[i].1 == Text(GetSpec(row, key).value)
  {
    TriedNamesMatch(row, key);
  }

  /** A text under the key itself is what `_get` returns. */
  lemma GetExact(row: Row, key: string, v: string)
    requires Lookup(row, key) == Some(Text(v))
    ensures GetSpec(row, key) == Some(v)
  {
  }

  /** `None` or NaN under every matching column means nothing is found. */
  lemma GetNothingUsable(row: Row, key: string)
    requires forall i :: 0 <= i < |row| && SameName(row[i].0, key) ==> !row[i].1.Text?
    ensures GetSpec(row, key).None?
  {
    GetNeedsMatchingName(row, key);
  }

  // ---------------------------------------------------------------- blocks

  /** The texts of the row after `_get(...) or _get(...) or ""`. */
  datatype Texts = Texts(shr: string, dep: string, arr: string, center: Option<string>)

  /** The `center` column under any of its three spellings. */
  const CenterName := "Центр"

  function TextsOf(row: Row): (t: Texts)
    ensures t.center.Some? ==> t.center.value != []
  {
    var shr := Normalizer.TextOf(Normalizer.Pick(GetSpec(row, "SHR"), GetSpec(row, "shr")));
    var dep := Normalizer.TextOf(Normalizer.Pick(GetSpec(row, "DEP"), GetSpec(row, "dep")));
    var arr := Normalizer.TextOf(Normalizer.Pick(GetSpec(row, "ARR"), GetSpec(row, "arr")));
    var center := Normalizer.Pick(Normalizer.Pick(GetSpec(row, "center"), GetSpec(row, "Center")), GetSpec(row, CenterName));
    Texts(shr, dep, arr, center)
  }

  /** `raw_payload`: the three texts as read (empty when absent) and the centre. */
  function PayloadOf(t: Texts): Normalizer.Payload {
    Normalizer.Payload(Some(t.shr), Some(t.dep), Some(t.arr), t.center)
  }

  // ---------------------------------------------------------------- identifier

  function IdOf(block: string): (r: Option<string>)
    ensures block == [] ==> r.None?
  {
    if block == [] then None else ExtractLegacyFlightId(block)
  }

  /** The identifier loop's candidates: DEP, ARR, SHR (backend/app/parser.back.py:262). */
  function IdBlocks(t: Texts): seq<string> { [t.dep, t.arr, t.shr] }

  function IdCandidates(t: Texts): (c: seq<Option<string>>)
    ensures |c| == 3 && forall i :: 0 <= i < 3 ==> c[i] == IdOf(IdBlocks(t)[i])
  {
    seq(3, i requires 0 <= i < 3 => IdOf(IdBlocks(t)[i]))
  }

  function LegacyFlightIdOf(t: Texts): Option<string> { Normalizer.FirstSome(IdCandidates(t)) }

  /** The identifier is that of the first block, in the order DEP, ARR, SHR, that yields one. */
  lemma IdFound(t: Texts, i: nat)
    requires i <= 3 && forall j :: 0 <= j < i ==> IdOf(IdBlocks(t)[j]).None?
    ensures i < 3 && IdOf(IdBlocks(t)[i]).Some? ==> LegacyFlightIdOf(t) == IdOf(IdBlocks(t)[i])
    ensures i == 3 ==> LegacyFlightIdOf(t).None?
  {
    var cands := IdCandidates(t);
    assert forall j :: 0 <= j < i ==> cands[j].None?;
    if i < 3 {
      if cands[i].Some? {
        Normalizer.FirstSomeAt(cands, i);
      }
    }
  }

  // ---------------------------------------------------------------- coordinates

  /**
   * `ADEPZ[:\s\/-]?([0-9NSWEnswe]+)` at `p`, ignoring case and with no
   * boundary. A separator cannot start the value, so the separator is taken
   * whenever it is there and the value is the whole run after it.
   */
  function AdepzMatch(txt: string, p: nat): (r: Option<Span<string>>)
    ensures r.Some? ==> r.value.value != [] && forall i :: 0 <= i < |r.value.value| ==> IsCoordChar(r.value.value[i])
  {
    if !AtFolded(txt, p, "ADEPZ") then None
    else
      var k := if p + 5 < |txt| && Temporal.IsTimeSep(txt[p + 5]) then p + 6 else p + 5;
      var n := Run(txt, k, IsCoordChar);
      if n == 0 then None else var v := txt[k..k + n]; RunSlice(txt, k, n, v, IsCoordChar); Some(Span(k + n, v))
  }

  /**
   * `<key>[:\s\/-]*([0-9NSWEnswe]+)` at `p`, case-sensitive: the value is
   * the run after the whole separator run (giving back separators would put
   * a separator where the value must start).
   */
  function KeyValueMatch(key: string, txt: string, p: nat): (r: Option<Span<string>>)
    ensures r.Some? ==> r.value.value != [] && forall i :: 0 <= i < |r.value.value| ==> IsCoordChar(r.value.value[i])
  {
    if !At(txt, p, key) then None
    else
      var k := p + |key| + Run(txt, p + |key|, Temporal.IsTimeSep);
      var n := Run(txt, k, IsCoordChar);
      if n == 0 then None else var v := txt[k..k + n]; RunSlice(txt, k, n, v, IsCoordChar); Some(Span(k + n, v))
  }

  function DepValueMatch(txt: string, p: nat): (r: Option<Span<string>>)
    ensures r.Some? ==> r.value.value != []
  {
    KeyValueMatch("DEP", txt, p)
  }

  function AdarrzValueMatch(txt: string, p: nat): (r: Option<Span<string>>)
    ensures r.Some? ==> r.value.value != []
  {
    KeyValueMatch("ADARRZ", txt, p)
  }

  /** The value after the first match of `m`, decoded. */
  function ValueCoord(txt: string, m: Matcher<string>): Option<LatLon> {
    match Search(txt, 0, m)
    case Some(h) => ParseLegacyCoord(h.value)
    case None => None
  }

  /**
   * `find_adepz` (backend/app/parser.back.py:278-289): the ADEPZ value,
   * decoded; without an ADEPZ value, the first compact coordinate, decoded.
   * A value that does not decode gives `None` without trying further.
   */
  function FindAdepz(block: string): (r: Option<LatLon>)
    ensures block == [] ==> r.None?
    ensures Search(block, 0, AdepzMatch).Some? ==> r == ParseLegacyCoord(Search(block, 0, AdepzMatch).value.value)
  {
    if block == [] then None
    else
      match Search(block, 0, AdepzMatch)
      case Some(h) => ParseLegacyCoord(h.value)
      case None =>
        match Search(block, 0, CompactMatch)
        case Some(h) => ParseLegacyCoord(GroupText(h.value))
        case None => None
  }

  /** `" ".join` of the non-empty texts among SHR, DEP, ARR. */
  function Combined(t: Texts): string {
    var parts := (if t.shr != [] then [t.shr] else []) + (if t.dep != [] then [t.dep] else []) + (if t.arr != [] then [t.arr] else []);
    if parts == [] then [] else Join(parts, ' ')
  }

  /** The results of `f` that are present, in order: a loop appending every result that is not `None`. */
  function Present<T, U>(xs: seq<T>, f: T -> Option<U>): (ys: seq<U>)
    ensures |ys| <= |xs|
  {
    if xs == [] then []
    else
      var last := f(xs[|xs| - 1]);
      var init := Present(xs[..|xs| - 1], f);
      if last.Some? then init + [last.value] else init
  }

  /** One more element: its result, when present, is appended. */
  lemma PresentStep<T, U>(xs: seq<T>, i: nat, f: T -> Option<U>)
    requires i < |xs|
    ensures Present(xs[..i + 1], f) == Present(xs[..i], f) + (if f(xs[i]).Some? then [f(xs[i]).value] else [])
  {
    assert xs[..i + 1][..i] == xs[..i];
  }

  /** Nothing present: nothing collected. */
  lemma {:induction false} PresentNone<T, U>(xs: seq<T>, f: T -> Option<U>)
    requires forall i :: 0 <= i < |xs| ==> f(xs[i]).None?
    ensures Present(xs, f) == []
  {
    if xs != [] {
      var init := xs[..|xs| - 1];
      assert forall i :: 0 <= i < |init| ==> init[i] == xs[i];
      PresentNone(init, f);
    }
  }

  /** The first collected value is the result at the first position where one is present. */
  lemma {:induction false} PresentFirst<T, U>(xs: seq<T>, f: T -> Option<U>, j: nat)
    requires j < |xs| && f(xs[j]).Some? && forall i :: 0 <= i < j ==> f(xs[i]).None?
    ensures Present(xs, f) != [] && Present(xs, f)[0] == f(xs[j]).value
  {
    var init := xs[..|xs| - 1];
    if j < |xs| - 1 {
      assert init[j] == xs[j];
      assert forall i :: 0 <= i < j ==> init[i] == xs[i];
      PresentFirst(init, f, j);
    } else {
      assert forall i :: 0 <= i < |init| ==> init[i] == xs[i];
      PresentNone(init, f);
    }
  }

  /** The second collected value is the result at the second position where one is present. */
  lemma {:induction false} PresentSecond<T, U>(xs: seq<T>, f: T -> Option<U>, j: nat, k: nat)
    requires j < k < |xs| && f(xs[j]).Some? && f(xs[k]).Some?
    requires forall i :: 0 <= i < k && i != j ==> f(xs[i]).None?
    ensures |Present(xs, f)| >= 2 && Present(xs, f)[1] == f(xs[k]).value
  {
    var init := xs[..|xs| - 1];
    if k < |xs| - 1 {
      assert init[j] == xs[j] && init[k] == xs[k];
      assert forall i :: 0 <= i < k ==> init[i] == xs[i];
      PresentSecond(init, f, j, k);
    } else {
      assert init[j] == xs[j];
      assert forall i :: 0 <= i < |init| ==> init[i] == xs[i];
      PresentOnly(init, f, j);
    }
  }

  /** Exactly one present result: exactly one collected value. */
  lemma {:induction false} PresentOnly<T, U>(xs: seq<T>, f: T -> Option<U>, j: nat)
    requires j < |xs| && f(xs[j]).Some? && forall i :: 0 <= i < |xs| && i != j ==> f(xs[i]).None?
    ensures Present(xs, f) == [f(xs[j]).value]
  {
    var init := xs[..|xs| - 1];
    assert forall i :: 0 <= i < |init| ==> init[i] == xs[i];
    if j < |xs| - 1 {
      PresentOnly(init, f, j);
    } else {
      PresentNone(init, f);
    }
  }

  /** The decoding of one compact match. */
  function Decode(h: Hit<Groups>): Option<LatLon> { ParseLegacyCoord(GroupText(h.value)) }

  /** The decodings of the matches that decode, in order. */
  function ParsedCoords(hs: seq<Hit<Groups>>): seq<LatLon> { Present(hs, Decode) }

  /** The compact coordinates of the combined texts that decode. */
  function AllParsed(t: Texts): seq<LatLon> { ParsedCoords(FindAll(Combined(t), 0, CompactMatch)) }

  /** Step 1: ADEPZ (or compact) in DEP, else in SHR. */
  function StartFirst(t: Texts): Option<LatLon> { Or(FindAdepz(t.dep), FindAdepz(t.shr)) }

  /** Step 1: ADEPZ (or compact) in ARR, else in SHR. */
  function EndFirst(t: Texts): Option<LatLon> { Or(FindAdepz(t.arr), FindAdepz(t.shr)) }

  /** Step 2: a missing start is the first parsed coordinate of the combined texts. */
  function StartSecond(t: Texts): Option<LatLon> {
    var ps := AllParsed(t);
    if StartFirst(t).Some? then StartFirst(t) else if ps != [] then Some(ps[0]) else None
  }

  /** Step 2: a missing end is the second parsed coordinate, or the only one. */
  function EndSecond(t: Texts): Option<LatLon> {
    var ps := AllParsed(t);
    if EndFirst(t).Some? then EndFirst(t)
    else if |ps| >= 2 then Some(ps[1])
    else if ps != [] then Some(ps[0])
    else None
  }

  /** Step 4: a start still missing is the value after `DEP` in the DEP text. */
  function LegacyStart(t: Texts): Option<LatLon> {
    if StartSecond(t).Some? then StartSecond(t) else ValueCoord(t.dep, DepValueMatch)
  }

  /** Step 4: an end still missing is the value after `ADARRZ` in the ARR text. */
  function LegacyEnd(t: Texts): Option<LatLon> {
    if EndSecond(t).Some? then EndSecond(t) else ValueCoord(t.arr, AdarrzValueMatch)
  }

  /** `parse_time_token(dep) or parse_time_token(shr)`. */
  function TimeTokenOf(t: Texts): Option<string> { Or(ParseLegacyTimeToken(t.dep), ParseLegacyTimeToken(t.shr)) }

  // ---------------------------------------------------------------- record

  /** The record of backend/app/parser.back.py:335-347; coordinates are exact reals. */
  datatype LegacyRecord = LegacyRecord(
    flightId: Option<string>,
    startLat: Option<real>, startLon: Option<real>, endLat: Option<real>, endLon: Option<real>,
    startTime: Option<string>, endTime: Option<string>, timeToken: Option<string>, uavType: Option<string>,
    rawPayload: Normalizer.Payload, fingerprint: Digest)

  /** What `normalize_row` returns, as one expression; `render` stands for `str` on floats. */
  function LegacyNormalizeSpec(row: Row, render: real -> string): LegacyRecord {
    var t := TextsOf(row);
    var start, end := LegacyStart(t), LegacyEnd(t);
    var fid, tok := LegacyFlightIdOf(t), TimeTokenOf(t);
    LegacyRecord(fid, Normalizer.Lat(start), Normalizer.Lon(start), Normalizer.Lat(end), Normalizer.Lon(end),
                 None, None, tok, None, PayloadOf(t),
                 MakeFingerprint(fid, tok, Normalizer.Lat(start), Normalizer.Lon(start), render))
  }

  /** One block read as `_get(upper) or _get(lower) or ""`. */
  method ReadBlock(row: Row, upper: string, lower: string) returns (text: string)
    ensures text == Normalizer.TextOf(Normalizer.Pick(GetSpec(row, upper), GetSpec(row, lower)))
  {
    var a := Get(row, upper);
    if a.Some? && a.value != [] {
      return a.value;
    }
    var b := Get(row, lower);
    if b.Some? && b.value != [] {
      return b.value;
    }
    return [];
  }

  /** The identifier loop (backend/app/parser.back.py:260-268): the first block that yields one. */
  method FirstFlightId(t: Texts) returns (flightId: Option<string>)
    ensures flightId == LegacyFlightIdOf(t)
  {
    var blocks := IdBlocks(t);
    flightId := None;
    var i := 0;
    while i < |blocks|
      invariant 0 <= i <= |blocks|
      invariant flightId.None?
      invariant forall j :: 0 <= j < i ==> IdOf(blocks[j]).None?
    {
      if blocks[i] != [] {
        var fid := ExtractLegacyFlightId(blocks[i]);
        if fid.Some? {
          flightId := fid;
          IdFound(t, i);
          return;
        }
      }
      assert IdOf(blocks[i]).None?;
      assert forall j :: 0 <= j < i + 1 ==> IdOf(blocks[j]).None? by {
        forall j | 0 <= j < i + 1 ensures IdOf(blocks[j]).None? {
          if j == i {}
        }
      }
      i := i + 1;
    }
    IdFound(t, 3);
  }

  /** The loop of backend/app/parser.back.py:301-305: the decodable matches, appended in order. */
  method ParseAll(all: seq<Hit<Groups>>) returns (parsed: seq<LatLon>)
    ensures parsed == ParsedCoords(all)
  {
    parsed := Collect(all, Decode);
  }

  /** Apply `f` to each element in order, appending every result that is not `None`. */
  method Collect<T, U>(xs: seq<T>, f: T -> Option<U>) returns (ys: seq<U>)
    ensures ys == Present(xs, f)
  {
    ys := [];
    var i := 0;
    while i < |xs|
      invariant 0 <= i <= |xs|
      invariant ys == Present(xs[..i], f)
    {
      PresentStep(xs, i, f);
      var y := f(xs[i]);
      if y.Some? {
        ys := ys + [y.value];
      }
      i := i + 1;
    }
    assert xs[..|xs|] == xs;
  }

  /** The texts of the row (backend/app/parser.back.py:256-259). */
  method ReadTexts(row: Row) returns (t: Texts)
    ensures t == TextsOf(row)
  {
    var shr := ReadBlock(row, "SHR", "shr");
    var dep := ReadBlock(row, "DEP", "dep");
    var arr := ReadBlock(row, "ARR", "arr");
    var c1 := Get(row, "center");
    var c2 := Get(row, "Center");
    var c3 := Get(row, CenterName);
    t := Texts(shr, dep, arr, Normalizer.Pick(Normalizer.Pick(c1, c2), c3));
  }

  /** Steps 1 and 2 (backend/app/parser.back.py:291-313): ADEPZ, then the parsed coordinates of the combined texts. */
  method FirstEndpoints(t: Texts) returns (startCoord: Option<LatLon>, endCoord: Option<LatLon>)
    ensures startCoord == StartSecond(t) && endCoord == EndSecond(t)
  {
    startCoord := Or(FindAdepz(t.dep), FindAdepz(t.shr));
    endCoord := Or(FindAdepz(t.arr), FindAdepz(t.shr));
    if startCoord.None? || endCoord.None? {
      var all := FindAll(Combined(t), 0, CompactMatch);
      if all != [] {
        var parsed := ParseAll(all);
        if parsed != [] {
          if startCoord.None? {
            startCoord := Some(parsed[0]);
          }
          if endCoord.None? {
            if |parsed| >= 2 {
              endCoord := Some(parsed[1]);
            } else {
              endCoord := Some(parsed[0]);
            }
          }
        }
      }
    }
  }

  /**
   * `normalize_row` (backend/app/parser.back.py:235-353), step by step: the
   * start and end points are reassigned through the ADEPZ search, the parsed
   * compact coordinates of the combined texts and the two key fallbacks.
   */
  method LegacyNormalizeRow(row: Row, render: real -> string) returns (out: LegacyRecord)
    ensures out == LegacyNormalizeSpec(row, render)
  {
    var t := ReadTexts(row);
    var flightId := FirstFlightId(t);
    var startCoord, endCoord := FirstEndpoints(t);
    var startTime := Or(ParseLegacyTimeToken(t.dep), ParseLegacyTimeToken(t.shr));
    if startCoord.None? {
      startCoord := ValueCoord(t.dep, DepValueMatch);
    }
    if endCoord.None? {
      endCoord := ValueCoord(t.arr, AdarrzValueMatch);
    }
    var startLat, startLon := Normalizer.Lat(startCoord), Normalizer.Lon(startCoord);
    var fingerprint := MakeFingerprint(flightId, startTime, startLat, startLon, render);
    out := LegacyRecord(flightId, startLat, startLon, Normalizer.Lat(endCoord), Normalizer.Lon(endCoord),
                        None, None, startTime, None, PayloadOf(t), fingerprint);
  }

  // ---------------------------------------------------------------- properties

  /** The compact matches of the combined texts. */
  function CombinedHits(t: Texts): seq<Hit<Groups>> { FindAll(Combined(t), 0, CompactMatch) }

  /** The start point: ADEPZ in DEP, else ADEPZ in SHR (backend/app/parser.back.py:291). */
  lemma StartFromAdepz(t: Texts)
    ensures FindAdepz(t.dep).Some? ==> LegacyStart(t) == FindAdepz(t.dep)
    ensures FindAdepz(t.dep).None? && FindAdepz(t.shr).Some? ==> LegacyStart(t) == FindAdepz(t.shr)
  {
  }

  /** The end point: ADEPZ in ARR, else ADEPZ in SHR (backend/app/parser.back.py:292). */
  lemma EndFromAdepz(t: Texts)
    ensures FindAdepz(t.arr).Some? ==> LegacyEnd(t) == FindAdepz(t.arr)
    ensures FindAdepz(t.arr).None? && FindAdepz(t.shr).Some? ==> LegacyEnd(t) == FindAdepz(t.shr)
  {
  }

  /** Without an ADEPZ start, the start is the first compact match of the combined texts that decodes. */
  lemma StartFromCombined(t: Texts, j: nat)
    requires StartFirst(t).None?
    requires j < |CombinedHits(t)| && Decode(CombinedHits(t)[j]).Some?
    requires forall i :: 0 <= i < j ==> Decode(CombinedHits(t)[i]).None?
    ensures LegacyStart(t) == Decode(CombinedHits(t)[j])
  {
    PresentFirst(CombinedHits(t), Decode, j);
  }

  /** Without an ADEPZ end, the end is the second compact match of the combined texts that decodes. */
  lemma EndFromCombined(t: Texts, j: nat, k: nat)
    requires EndFirst(t).None?
    requires j < k < |CombinedHits(t)| && Decode(CombinedHits(t)[j]).Some? && Decode(CombinedHits(t)[k]).Some?
    requires forall i :: 0 <= i < k && i != j ==> Decode(CombinedHits(t)[i]).None?
    ensures LegacyEnd(t) == Decode(CombinedHits(t)[k])
  {
    PresentSecond(CombinedHits(t), Decode, j, k);
  }

  /** With a single decodable compact match, a missing end is that same point. */
  lemma EndFromSingle(t: Texts, j: nat)
    requires EndFirst(t).None?
    requires j < |CombinedHits(t)| && Decode(CombinedHits(t)[j]).Some?
    requires forall i :: 0 <= i < |CombinedHits(t)| && i != j ==> Decode(CombinedHits(t)[i]).None?
    ensures LegacyEnd(t) == Decode(CombinedHits(t)[j])
  {
    var hs := CombinedHits(t);
    PresentOnly(hs, Decode, j);
    var ps := AllParsed(t);
    assert ps == [Decode(hs[j]).value];
    assert EndSecond(t) == Some(ps[0]);
  }

  /** With no ADEPZ start and no decodable compact match, the start is the value after `DEP`, and the end the value after `ADARRZ`. */
  lemma KeyFallbacks(t: Texts)
    requires forall i :: 0 <= i < |CombinedHits(t)| ==> Decode(CombinedHits(t)[i]).None?
    ensures StartFirst(t).None? ==> LegacyStart(t) == ValueCoord(t.dep, DepValueMatch)
    ensures EndFirst(t).None? ==> LegacyEnd(t) == ValueCoord(t.arr, AdarrzValueMatch)
  {
    PresentNone(CombinedHits(t), Decode);
  }

  /**
   * The record's fixed shape: no stamps and no vehicle type, latitude and
   * longitude present together, the token read from DEP before SHR, and the
   * fingerprint taken over the identifier, the token and the start point.
   */
  lemma LegacyRecordShape(row: Row, render: real -> string)
    ensures var r, t := LegacyNormalizeSpec(row, render), TextsOf(row);
      && r.startTime.None? && r.endTime.None? && r.uavType.None?
      && (r.startLat.Some? <==> r.startLon.Some?) && (r.endLat.Some? <==> r.endLon.Some?)
      && (ParseLegacyTimeToken(t.dep).Some? ==> r.timeToken == ParseLegacyTimeToken(t.dep))
      && (ParseLegacyTimeToken(t.dep).None? ==> r.timeToken == ParseLegacyTimeToken(t.shr))
      && r.fingerprint == MakeFingerprint(r.flightId, r.timeToken, r.startLat, r.startLon, render)
      && r.rawPayload.shr.Some? && r.rawPayload.dep.Some? && r.rawPayload.arr.Some?
  {
  }

  /** The identifier comes from the first of DEP, ARR, SHR that yields one. */
  lemma LegacyFlightIdRule(t: Texts)
    ensures IdOf(t.dep).Some? ==> LegacyFlightIdOf(t) == IdOf(t.dep)
    ensures IdOf(t.dep).None? && IdOf(t.arr).Some? ==> LegacyFlightIdOf(t) == IdOf(t.arr)
    ensures IdOf(t.dep).None? && IdOf(t.arr).None? ==> LegacyFlightIdOf(t) == IdOf(t.shr)
  {
    var b := IdBlocks(t);
    assert b[0] == t.dep && b[1] == t.arr && b[2] == t.shr;
    if IdOf(b[0]).Some? {
      IdFound(t, 0);
    } else {
      var n := if IdOf(b[1]).Some? then 1 else if IdOf(b[2]).Some? then 2 else 3;
      forall j | 0 <= j < n ensures IdOf(b[j]).None? {
        if j == 1 {} else if j == 2 {}
      }
      IdFound(t, n);
    }
  }

  /** An ADEPZ value is decoded as the legacy decoder reads it; for example `ADEPZ 5957N02905E`. */
  lemma AdepzExample()
    ensures FindAdepz("ADEPZ 5957N02905E") == Some(LatLon(59.0 + 57.0 / 60.0, 29.0 + 5.0 / 60.0))
  {
    var txt := "ADEPZ 5957N02905E";
    AdepzExampleMatch();
    SearchFinds(txt, 0, AdepzMatch, 0);
    ExampleMinutesToken();
  }

  lemma AdepzExampleMatch()
    ensures AdepzMatch("ADEPZ 5957N02905E", 0) == Some(Span(17, "5957N02905E"))
  {
    AdepzExampleValue();
    AdepzExampleText();
  }

  lemma AdepzExampleValue()
    ensures var txt := "ADEPZ 5957N02905E"; Temporal.IsTimeSep(txt[5]) && txt[6..17] == "5957N02905E"
  {
  }

  lemma AdepzExampleText()
    ensures AtFolded("ADEPZ 5957N02905E", 0, "ADEPZ")
    ensures Run("ADEPZ 5957N02905E", 6, IsCoordChar) == 11
  {
    AdepzExampleUpper();
    AdepzExampleRun();
  }

  lemma AdepzExampleUpper()
    ensures AtFolded("ADEPZ 5957N02905E", 0, "ADEPZ")
  {
    var txt := "ADEPZ 5957N02905E";
    var u := Upper(txt);
    assert u[0] == 'A' && u[1] == 'D' && u[2] == 'E' && u[3] == 'P' && u[4] == 'Z';
  }

  lemma AdepzExampleRun()
    ensures Run("ADEPZ 5957N02905E", 6, IsCoordChar) == 11
  {
    var txt := "ADEPZ 5957N02905E";
    assert forall k :: 6 <= k < 17 ==> IsCoordChar(txt[k]);
    RunIs(txt, 6, 11, IsCoordChar);
  }
}
