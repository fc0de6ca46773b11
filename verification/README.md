# Flight-plan message normaliser, modelled in Dafny

The system reads rows of a spreadsheet of flight-plan messages for unmanned
aircraft. Each row carries up to four text blocks (the `SHR` plan, the `DEP`
departure and the `ARR` arrival message, plus a `center` column). It turns
each row into one normalised flight record:

- a flight identifier (`REG/…`, `SID/…` or an aircraft-code shaped token);
- the aircraft type (the `TYP/` value, else the words `BLA` or `AER`);
- a departure and an arrival point decoded from compact coordinates such as
  `5957N02905E` (degrees and minutes) or `440846N0430829E` (degrees,
  minutes and seconds);
- a start and an end stamp `YYYY-MM-DDTHH:MM:00Z`, built from the date of
  flight (`DOF/DDMMYY`) and the `ATD`/`ATA` clock tokens;
- a duration in whole seconds;
- a SHA-256 fingerprint over identifier, start time and start point.

Around that parser sit:

- the older parser it replaced (`parser.back.py`);
- a back-filler for missing coordinates (`fill_missing_coords.py`);
- the step that maps parsed records to the API's body (`prepare_api_payload.py`);
- the regions-metrics cache and query builder of the API (`metrics.py`);
- four JSON sanitisers:
  - `full_runner.py` turns NaN and infinities into `None` at any depth;
  - `fix_nan.py` does the same, but only one level into each record;
  - `sanitize_json.py` and `import_to_api.py` drop dictionary entries that
    hold `None` or NaN, turn a NaN list element into `None`, and keep
    infinities;
- the NDJSON newline escaper (`normalize_ndjson.py`).

## How the model is built

- **Modules.** One Dafny module per source file or concern:
  - `CompactCoord`, `FlightId` and `Temporal` hold the pure parsers of
    `parser.py`;
  - `Normalizer` holds its `normalize_row`;
  - `Legacy*` hold `parser.back.py`;
  - `FillCoords`, `PreparePayload`, `Metrics`, `FullRunner`, `Sanitize`,
    `FixNan` and `NormalizeNdjson` hold the scripts.
  - `Strings`, `Scan`, `Options`, `Rows` and `Json` are shared helpers.
- **Regular expressions.** Only the concrete patterns are modelled. Each one
  is a matcher function that says whether the pattern matches at position `p`
  and where the match ends (with its groups). `Scan.Search` is
  `re.search`: the leftmost position where the matcher succeeds.
  `Scan.FindAll` is `re.finditer`: successive non-overlapping matches.
  `\b` is the ASCII word boundary.
- **Numbers.** Coordinates are exact `real`s. `round(…, 8)` and the text
  `str(float)` gives are not modelled: the fingerprint takes the rendering
  of a coordinate as a parameter `render`.
- **Hashing.** SHA-256 is symbolic: a digest is the constructor
  `Sha256(preimage)`, so the hash is idealised as collision-free and equal
  digests have equal preimages.
- **Cells.** A spreadsheet row is a list of (column, cell) pairs, and a
  cell is `Null`, `NaN` or `Text`.
- **JSON.** A JSON value (`Json.Value`) is null, a boolean, an integer, a
  finite float (an exact real), `NaN`, an infinity, a text, a list, a
  dictionary (its entries in insertion order) or a tuple. No script
  descends into a tuple.
- **Dates.** The code slices `DOF/DDMMYY` as day, month and year, left to
  right (backend/app/parser.py:133), as the docstring at
  backend/app/parser.back.py:66 says (`250201 (DDMMYY)`). So `250101` is
  25 January 2001, as `Temporal.ExampleCombine` states.
- **Clock.** `time.time()` becomes a `now` parameter of the cache methods.
- **State.** Where the source changes state step by step, the model does too:
  - `normalize_row`'s first-hit loops and `parser.back.py`'s fallback chain
    are methods with loops;
  - the metrics cache is a class whose `entries` map the methods update;
  - the NDJSON escaper is a method whose loop rewrites the dictionary's
    entries one by one.
  Each method is proved against a specification function, and the
  properties are proved as lemmas about that function.

## Model

| member | source | states |
|---|---|---|
| CompactCoord.Clean | backend/app/parser.py:30-31 | the cleaned text is no longer than the input and holds only digits, N/S and E/W |
| CompactCoord.ParseCompactCoord | backend/app/parser.py:27-59 | there is a point exactly when the text is non-empty and its cleaned form is in the minutes grammar or the seconds grammar |
| CompactCoord.ParseCleaned | backend/app/parser.py:33-59 | on a cleaned text, the two grammars are tried and a point comes back exactly when one of them matches |
| CompactCoord.ParseMinutes | backend/app/parser.py:33-48 | a text whose cleaned form is in the minutes grammar decodes as degrees plus minutes/60; group 1 loses its last two digits when it has more than two |
| CompactCoord.ParseSeconds | backend/app/parser.py:50-58 | a text whose cleaned form is in the seconds grammar decodes as deg + min/60 + sec/3600, signed by hemisphere |
| CompactCoord.LayoutUnique | backend/app/parser.py:33 | a coordinate text determines its split: the latitude is the leading digit run and the longitude the rest before E/W |
| CompactCoord.LayoutsOf | backend/app/parser.py:33 | every digit split of a coordinate text is the one LayoutUnique names |
| CompactCoord.CleanKeeps | backend/app/parser.py:30-31 | cleaning leaves a text of upper-case coordinate characters unchanged |
| CompactCoord.EncodeMinutes | backend/app/parser.py:32-33 | the canonical `DDMM[NS]DDDMM[EW]` token has 11 characters |
| CompactCoord.EncodeSeconds | backend/app/parser.py:49-50 | the canonical `DDMMSS[NS]DDDMMSS[EW]` token has 15 characters |
| CompactCoord.MinutesRoundTrip | backend/app/parser.py:33-48 | decoding inverts encoding: the minutes token of any degrees and minutes decodes to deg + min/60, negative to the south and west |
| CompactCoord.SecondsRoundTrip | backend/app/parser.py:50-58 | decoding inverts encoding: the seconds token decodes to deg + min/60 + sec/3600, signed the same way |
| CompactCoord.ExampleMinutes | backend/tests/test_parser.py:4-8 | the test's `5957N02905E` is 59°57′ N, 29°05′ E |
| CompactCoord.ExampleSeconds | backend/app/parser.py:49-58 | `440846N0430829E` has seven longitude digits, so it fails the minutes grammar and is read in the seconds grammar |
| FillCoords.FillClean | backend/fill_missing_coords.py:9 | the cleaned text holds only digits and N/S/E/W, and a text already made of them is unchanged |
| FillCoords.FirstGroupLen | backend/fill_missing_coords.py:10 | the greedy first group `\d{2,4}` takes the most digits that still leave nothing or 2 to 4 for the optional group |
| FillCoords.GeneralMatch | backend/fill_missing_coords.py:10 | a match of the six-group pattern has well-formed groups (2 to 4 digits each, the optional ones empty or 2 to 4) |
| FillCoords.SplitRun | backend/fill_missing_coords.py:10 | a run of 2 to 8 digits splits into a mandatory group of 2 to 4 digits and an optional group that is empty or 2 to 4 digits |
| FillCoords.FallbackUnreachable | backend/fill_missing_coords.py:10-23 | the fallback pattern only matches texts the general pattern already matches, so the fallback branch is dead |
| FillCoords.ParseCompactCoord | backend/fill_missing_coords.py:7-47 | as written: there is a point exactly when the cleaned text holds a general match, and its longitude is always whole degrees |
| FillCoords.WholeDegrees | backend/fill_missing_coords.py:37-46 | `conv_lon` of fewer than five digits is a whole number of degrees, so group 4 alone never carries minutes |
| FillCoords.ParseCompactCoordFixed | backend/fill_missing_coords.py:7-47 | the corrected decoder, which reads the longitude from groups 4 and 5, succeeds on exactly the same texts |
| FillCoords.MinutesTokenAsWritten | backend/fill_missing_coords.py:37-47 | as written, the canonical minutes token keeps its latitude and loses the longitude minutes |
| FillCoords.MinutesTokenFixed | backend/fill_missing_coords.py:37-47 | the corrected decoder reads every canonical minutes token back exactly |
| FillCoords.ExampleDropsMinutes | backend/fill_missing_coords.py:8 | the script's own `5957N02905E` gives longitude 29 as written and 29 + 5/60 when corrected |
| FillCoords.CoordTokenMatch | backend/fill_missing_coords.py:5 | a scanner match is the text at its span and has 2 to 4 digits, N/S, 2 to 4 digits and E/W |
| FillCoords.ShortTokenParses | backend/fill_missing_coords.py:49-55 | every scanner token decodes, and the correction changes nothing on such tokens |
| FillCoords.FirstParsed | backend/fill_missing_coords.py:51-55 | the first decodable match is the decoding of one of the matches |
| FillCoords.FindFirstCoordInText | backend/fill_missing_coords.py:49-56 | the loop over the matches returns the first decoding, as the specification function says |
| FillCoords.FirstCoordRule | backend/fill_missing_coords.py:49-56 | nothing comes back exactly for an empty text or one without a match; otherwise the result is the leftmost match's decoding, with whole-degree longitude |
| FillCoords.FirstHitParses | backend/fill_missing_coords.py:51-55 | the leftmost scanner match always decodes, so the loop never goes past it |
| FlightId.RegMatch | backend/app/parser.py:67 | a `REG` match has a non-empty value of `[A-Z0-9_,-]` characters taken from the text |
| FlightId.SidMatch | backend/app/parser.py:73 | a `SID/` match has a value of four or more digits taken from the text |
| FlightId.ShapeMatch | backend/app/parser.py:77 | an aircraft-code shaped match is a non-empty identifier text taken from the text |
| FlightId.RegRule | backend/app/parser.py:67-71 | the REG rule gives a non-empty, non-keyword identifier from the text, and nothing without a REG match |
| FlightId.RegRuleIsFirstSegment | backend/app/parser.py:67-71 | the REG rule gives a result exactly when the leftmost REG match exists and its first comma segment is non-empty and not a keyword, and the result is that segment |
| FlightId.SidRule | backend/app/parser.py:73-75 | the SID rule gives a result exactly when there is a `SID/` match, and the result is four or more digits from the text |
| FlightId.ShapeRule | backend/app/parser.py:77-81 | the shape rule gives a non-empty identifier that is not a stop word (`M0000`, `K0300` or a keyword) |
| FlightId.ShapeRuleIsLeftmost | backend/app/parser.py:77-81 | the shape rule gives a result exactly when the leftmost registration-shaped token exists and is not a stop word, and the result is that token |
| FlightId.DigitsNotKeyword | backend/app/parser.py:70-75 | a SID number can never be one of the keywords |
| FlightId.ExtractFlightId | backend/app/parser.py:62-82 | an empty text gives nothing; a result is a non-empty, non-keyword identifier found in the upper-cased text; a `SID/` match guarantees a result |
| FlightId.RegFirst | backend/app/parser.py:67-71 | an accepted REG segment is the result, whatever follows it |
| FlightId.SidSecond | backend/app/parser.py:73-75 | without an accepted REG segment, the SID number is the result |
| FlightId.ShapeThird | backend/app/parser.py:77-82 | without REG and SID, the result is the shape rule's |
| FlightId.NoneIff | backend/app/parser.py:62-82 | no identifier exactly when the text is empty or all three rules fail |
| FlightId.KeywordRegFallsThrough | backend/app/parser.py:67-82 | a REG match whose first segment is a keyword hands over to the SID and shape rules; no later REG match is looked at |
| FlightId.ExampleRegBeforeSid | backend/tests/test_parser.py:10-13 | the test text gives `FL123`: the REG rule wins over the SID number and the first comma segment is taken |
| Fingerprint.TextField | backend/app/parser.py:153 | a missing text is the empty field, a present one is itself |
| Fingerprint.CoordField | backend/app/parser.py:153 | a missing coordinate is the empty field, a present one its rendering |
| Fingerprint.MakeFingerprint | backend/app/parser.py:151-154 | the digest is SHA-256 of identifier, start time, latitude and longitude joined by `\|` |
| Fingerprint.AllMissing | backend/app/parser.back.py:230-232 | with every field missing the preimage is `\|\|\|` |
| Fingerprint.PreimageFields | backend/app/parser.py:153 | when no field holds a `\|`, splitting the preimage on `\|` gives back the four fields |
| Fingerprint.FingerprintDeterminesFields | backend/app/parser.py:151-154 | with the hash taken as collision-free, equal fingerprints mean equal identifier, start time and point fields |
| FullRunner.SafeConvert | backend/full_runner.py:11-21 | NaN and infinities become `None`; lists keep their length and dictionaries their keys, each element the conversion of the input's element at that place; anything else is kept; nothing non-finite is left |
| FullRunner.SafeConvertFixed | backend/full_runner.py:12-21 | a value is left unchanged exactly when nothing non-finite is reachable in it |
| FullRunner.SafeConvertIdempotent | backend/full_runner.py:12-21 | a second pass changes nothing |
| FullRunner.TupleKept | backend/full_runner.py:21 | a tuple is not descended into, so a NaN inside it survives |
| Sanitize.Kept | backend/sanitize_json.py:12 | the kept entries are exactly the entries whose value is neither `None` nor NaN |
| Sanitize.CleanObj | backend/sanitize_json.py:10-17 | dictionary entries holding `None` or NaN are dropped and each kept entry's value is the cleaned value of the input's kept entry at that place; lists keep their length, each element cleaned; a NaN becomes `None`; anything else is kept; the result has no NaN and no `None` entry |
| Sanitize.KeptAppend | backend/sanitize_json.py:12 | filtering keeps the entries' order: the kept entries of `a + b` are those of `a` followed by those of `b` |
| Sanitize.CleanObjFixed | backend/import_to_api.py:7-14 | a value is left unchanged exactly when it is already clean |
| Sanitize.CleanObjIdempotent | backend/sanitize_json.py:10-17 | a second pass changes nothing |
| Sanitize.InfinityKept | backend/import_to_api.py:14 | infinities pass through, unlike in `safe_convert` |
| Sanitize.NaNInListAndDict | backend/sanitize_json.py:12-16 | a NaN in a list becomes `None`, while a NaN entry of a dictionary is removed |
| FixNan.CleanValue | backend/fix_nan.py:8-12 | NaN and infinities become `None`, and every other value is kept |
| FixNan.CleanValueIsSafeConvert | backend/fix_nan.py:8-12 | on anything but a list or a dictionary, `clean_value` agrees with `safe_convert` |
| FixNan.CleanRow | backend/fix_nan.py:14-15 | the same keys in the same order, each value replaced by its `clean_value`; a value changes only when it is non-finite, and then to `None` |
| FixNan.NestedNotTraversed | backend/fix_nan.py:14-15 | a nested list or dictionary is kept as it is |
| FixNan.NestedNaNSurvives | backend/fix_nan.py:14-15 | a NaN inside a nested list survives the sweep |
| FixNan.CleanRowIdempotent | backend/fix_nan.py:14-15 | a second sweep changes nothing |
| FixNan.CleanData | backend/fix_nan.py:21 | the records keep their number and order, and each is its own `clean_row` |
| LegacyCoord.CompactMatch | backend/app/parser.back.py:116 | a compact match has 4 to 6 latitude digits, N/S, 5 to 7 longitude digits and E/W, and is the text at its span |
| LegacyCoord.ToDeg | backend/app/parser.back.py:131-148 | a value exactly for 4 or 6 latitude digits and 5 or 7 longitude digits (the other lengths give NaN), and it is never negative |
| LegacyCoord.DecodeGroups | backend/app/parser.back.py:150-158 | a point exactly when both groups have a valid length; it is the two degree values signed by hemisphere |
| LegacyCoord.ParseLegacyCoord | backend/app/parser.back.py:118-158 | the empty text and a text without a compact match give nothing; otherwise the result is the decoding of the first match, with no retry on a later one |
| LegacyCoord.CanonicalParse | backend/app/parser.back.py:122-158 | a laid-out token with valid group lengths is its own first match and decodes through its own groups |
| LegacyCoord.LegacyMinutesRoundTrip | backend/app/parser.back.py:113-158 | the canonical minutes token decodes to deg + min/60, signed by hemisphere |
| LegacyCoord.LegacySecondsRoundTrip | backend/app/parser.back.py:113-158 | the canonical seconds token decodes to deg + min/60 + sec/3600, signed by hemisphere |
| LegacyCoord.DecodersAgree | backend/app/parser.back.py:118-158 | on canonical tokens of either form the older and the current decoder of `parser.py` give the same point |
| LegacyCoord.FiveDigitLatitude | backend/app/parser.back.py:123-153 | the first match decides: `15957N02905E` matches with five latitude digits and gives nothing |
| LegacyCoord.ExampleTokens | backend/app/parser.back.py:112-115 | the two comment examples decode to 59°57′ N 29°05′ E and 44°08′46″ N 43°08′29″ E |
| LegacyFlightId.RegMatch | backend/app/parser.back.py:194 | a `REG` match has a non-empty value of `[A-Z0-9,-]` characters taken from the text |
| LegacyFlightId.SidMatch | backend/app/parser.back.py:203 | a `SID/` match has a non-empty digit value taken from the text |
| LegacyFlightId.TokenEnd | backend/app/parser.back.py:209 | the token length chosen is the longest one of at least two that ends at a word boundary |
| LegacyFlightId.TokenMatch | backend/app/parser.back.py:209 | a token match is 2 to 20 characters of `[A-Z0-9-]` taken from the text |
| LegacyFlightId.Tokens | backend/app/parser.back.py:209 | every token `findall` gives is 2 to 20 characters of `[A-Z0-9-]` from the text |
| LegacyFlightId.FirstWhere | backend/app/parser.back.py:210-221 | the token found is one of the tokens and passes the test, and nothing is found exactly when no token passes |
| LegacyFlightId.FirstWhereIsFirst | backend/app/parser.back.py:210-221 | every token before the one found fails the test |
| LegacyFlightId.RegRule | backend/app/parser.back.py:193-200 | the REG rule gives a non-empty, non-blacklisted token text from the text, and nothing without a REG match |
| LegacyFlightId.SidRule | backend/app/parser.back.py:202-205 | the SID rule gives a result exactly when there is a `SID/` match, and the result is digits from the text |
| LegacyFlightId.DigitsNotBlacklisted | backend/app/parser.back.py:191 | a SID number can never be blacklisted |
| LegacyFlightId.ExtractLegacyFlightId | backend/app/parser.back.py:184-223 | a result is a non-empty, non-blacklisted token text of the upper-cased text; there is none exactly when the text is empty, or when neither rule applies and every token is blacklisted |
| LegacyFlightId.RegFirst | backend/app/parser.back.py:193-200 | an accepted REG value wins over everything after it |
| LegacyFlightId.SidSecond | backend/app/parser.back.py:202-205 | without an accepted REG value, a SID number wins over the tokens |
| LegacyFlightId.TokenRules | backend/app/parser.back.py:207-221 | without REG and SID, the result is the first token that mixes a letter and a digit; failing that, the first token that is not blacklisted |
| LegacyFlightId.FallbackRule | backend/app/parser.back.py:218-221 | with no REG, SID or mixed token, the result is the first token that is not blacklisted |
| LegacyFlightId.ShortSidExample | backend/app/parser.back.py:203 | `SID/12` gives `12`, a two-digit number the current extractor would refuse |
| LegacyFlightId.FallbackTokenExample | backend/app/parser.back.py:218-221 | `ZZZZ` falls through to the last rule and is returned |
| LegacyTime.MarkerTokenMatch | backend/app/parser.back.py:160 | an `ATD`/`ATA` match, in any case, yields 3 or 4 digits |
| LegacyTime.BareTokenMatch | backend/app/parser.back.py:161 | a standalone match yields a whole run of 3 or 4 digits |
| LegacyTime.LegacyToken | backend/app/parser.back.py:167-175 | the digits picked are 3 or 4 digits, and there are none exactly when neither pattern matches |
| LegacyTime.ZFill4 | backend/app/parser.back.py:176 | left-padding gives four digits that read the same number |
| LegacyTime.ParseLegacyTimeToken | backend/app/parser.back.py:163-182 | an `HH:MM` text exactly when the block is non-empty and holds a token; `HH * 100 + MM` reads the token's number, with no range check |
| LegacyTime.Colon | backend/app/parser.back.py:177-180 | four digits become `HH:MM` with the same digits on either side of the colon |
| LegacyTime.TokenOf | backend/app/parser.back.py:79 | a missing time argument gives no token |
| LegacyTime.MarkerNeedsSeparator | backend/app/parser.back.py:160 | the `\b` after the marker forces a separator between the marker and the digits |
| LegacyTime.ReadDigitPair | backend/app/parser.py:139-143 | an `HH:MM` text, in range or not, is read back as its two numbers |
| LegacyTime.DofDigits | backend/app/parser.back.py:71-75 | a date is taken only when it is present and has exactly six digits once non-digits are removed |
| LegacyTime.DofAt | backend/app/parser.back.py:76-88 | a rendered stamp reads back as the 21st-century date of the digits at the given clock |
| LegacyTime.LegacyCombine | backend/app/parser.back.py:65-88 | as written: it raises exactly when there is a date and the time argument holds a token; a returned stamp is always midnight |
| LegacyTime.LegacyCombineFixed | backend/app/parser.back.py:65-88 | corrected: a stamp only comes with a six-digit date |
| LegacyTime.FixedAgreesWhenNoRaise | backend/app/parser.back.py:65-88 | whenever the combiner as written returns, the corrected one returns the same |
| LegacyTime.FixedIsCombine | backend/app/parser.back.py:79-88 | the corrected combiner is the current combiner of `parser.py` fed with this reader's token |
| LegacyTime.FixedKeepsToken | backend/app/parser.back.py:79-85 | the corrected stamp's hour and minute are the token's digits |
| LegacyTime.MarkerExample | backend/app/parser.back.py:160-180 | `ATD 0705` reads as `07:05` |
| LegacyTime.ShortTokenExample | backend/app/parser.back.py:176 | `atd 705` is found in lower case and padded to `07:05` |
| LegacyTime.NoRangeCheckExample | backend/app/parser.back.py:177-180 | `ATA 9999` reads as `99:99`, which is no clock time |
| LegacyTime.CombineRaisesExample | backend/app/parser.back.py:79-81 | with date `250101` and `ATD 0705` the combiner as written raises, where the corrected one gives `2001-01-25T07:05:00Z` |
| LegacyNormalizer.ScanNames | backend/app/parser.back.py:248-253 | a text is found only under a column whose name matches ignoring case and surrounding white space, and nothing is found when no column from the start position matches |
| LegacyNormalizer.TryNames | backend/app/parser.back.py:244-246 | a text is found only under one of the names tried |
| LegacyNormalizer.Get | backend/app/parser.back.py:242-254 | the two loops of `_get`, each returning on its first hit, compute the specification function |
| LegacyNormalizer.GetNeedsMatchingName | backend/app/parser.back.py:242-254 | a text is only ever found under a column whose name matches the key ignoring case and surrounding white space |
| LegacyNormalizer.GetExact | backend/app/parser.back.py:244-246 | a text under the key itself is what `_get` returns |
| LegacyNormalizer.GetNothingUsable | backend/app/parser.back.py:244-254 | `None` or NaN under every matching column means nothing is found |
| LegacyNormalizer.TextsOf | backend/app/parser.back.py:256-259 | the centre, when present, is a non-empty text |
| LegacyNormalizer.ReadBlock | backend/app/parser.back.py:256-258 | one block is `_get(upper) or _get(lower) or ""` |
| LegacyNormalizer.ReadTexts | backend/app/parser.back.py:256-259 | reading the four blocks gives the specification's texts |
| LegacyNormalizer.IdOf | backend/app/parser.back.py:266-268 | an empty block yields no identifier |
| LegacyNormalizer.FirstFlightId | backend/app/parser.back.py:264-271 | the identifier loop returns the identifier of the first block, in the order DEP, ARR, SHR, that yields one |
| LegacyNormalizer.LegacyFlightIdRule | backend/app/parser.back.py:264-271 | DEP wins, then ARR, then SHR |
| LegacyNormalizer.AdepzMatch | backend/app/parser.back.py:282 | an `ADEPZ` match, in any case, yields a non-empty run of coordinate characters |
| LegacyNormalizer.KeyValueMatch | backend/app/parser.back.py:321-325 | a key match yields a non-empty run of coordinate characters after the separators |
| LegacyNormalizer.FindAdepz | backend/app/parser.back.py:278-289 | an empty block gives nothing, and an ADEPZ value is decoded as the legacy decoder reads it, with no fall-back when it does not decode |
| LegacyNormalizer.Present | backend/app/parser.back.py:301-305 | at most one collected value per element |
| LegacyNormalizer.PresentFirst | backend/app/parser.back.py:306-308 | the first collected value is the result at the first position where one is present |
| LegacyNormalizer.PresentSecond | backend/app/parser.back.py:309-311 | the second collected value is the result at the second position where one is present |
| LegacyNormalizer.PresentOnly | backend/app/parser.back.py:312-313 | exactly one present result gives exactly one collected value |
| LegacyNormalizer.Collect | backend/app/parser.back.py:301-305 | the append loop collects the present results in order |
| LegacyNormalizer.ParseAll | backend/app/parser.back.py:301-305 | the loop over the matches keeps the decodings that succeed, in order |
| LegacyNormalizer.FirstEndpoints | backend/app/parser.back.py:291-313 | steps 1 and 2 reassign the start and end as the specification's ADEPZ-then-combined-texts values |
| LegacyNormalizer.LegacyNormalizeRow | backend/app/parser.back.py:235-354 | the step-by-step method computes the record the specification function describes |
| LegacyNormalizer.StartFromAdepz | backend/app/parser.back.py:291 | the start is ADEPZ in DEP, else ADEPZ in SHR |
| LegacyNormalizer.EndFromAdepz | backend/app/parser.back.py:292 | the end is ADEPZ in ARR, else ADEPZ in SHR |
| LegacyNormalizer.StartFromCombined | backend/app/parser.back.py:295-308 | without an ADEPZ start, the start is the first compact match of the combined texts that decodes |
| LegacyNormalizer.EndFromCombined | backend/app/parser.back.py:309-311 | without an ADEPZ end, the end is the second compact match of the combined texts that decodes |
| LegacyNormalizer.EndFromSingle | backend/app/parser.back.py:312-313 | with a single decodable compact match, a missing end is that same point |
| LegacyNormalizer.KeyFallbacks | backend/app/parser.back.py:319-327 | with no decodable compact match, a missing start is the value after `DEP` and a missing end the value after `ADARRZ` |
| LegacyNormalizer.LegacyRecordShape | backend/app/parser.back.py:316-353 | no stamps and no vehicle type; latitude and longitude present together; the token from DEP before SHR; the fingerprint over identifier, token and start point; the three payload texts present |
| LegacyNormalizer.AdepzExample | backend/app/parser.back.py:281 | `ADEPZ 5957N02905E` decodes to 59°57′ N, 29°05′ E |
| Metrics.GetCachedSpec | backend/app/metrics.py:16-24 | a value comes back exactly when the key has an entry at most 30 seconds old, and it is the stored value; an older entry is removed; no other key changes |
| Metrics.SetThenGet | backend/app/metrics.py:14-27 | a value stored at `t` is returned by a lookup at `now` while `now - t <= 30`; after that the lookup gives nothing and removes the entry |
| Metrics.SetOtherKey | backend/app/metrics.py:26-27 | storing under one key changes neither what a lookup of another key sees nor what that lookup leaves behind |
| Metrics.GetTwice | backend/app/metrics.py:16-24 | a second lookup at the same time sees what the first saw and changes nothing more |
| Metrics.ExpiredStaysExpired | backend/app/metrics.py:21-23 | an entry that has expired is not seen by any later lookup |
| Metrics.Shown | backend/app/metrics.py:34 | a missing date shows as `None` in the key, a present one as itself |
| Metrics.IntText | backend/app/metrics.py:34 | `str` of an integer is its decimal digits, after a `-` when negative |
| Metrics.IntTextInjective | backend/app/metrics.py:34 | different integers have different texts |
| Metrics.KeyFixesTop | backend/app/metrics.py:34 | requests that share a cache key ask for the same number of regions |
| Metrics.KeyCollision | backend/app/metrics.py:34-52 | the key does not separate the two dates: `from_dt="a:b"` and `from_dt="a", to_dt="b:None"` share a key although their parameters differ |
| Metrics.QueryParams | backend/app/metrics.py:46-54 | the parameters are `from_dt` if given, then `to_dt` if given, then `top`, in that order |
| Metrics.BindAppend | backend/app/metrics.py:58 | binding a statement in two parts, the first with one placeholder per parameter it is given, is binding each part |
| Metrics.BindRegions | backend/app/metrics.py:40-54 | the statement has one placeholder per parameter, and binding the parameters puts each value in its own condition |
| Metrics.BuildRegionsQuery | backend/app/metrics.py:40-54 | the appends build the statement and the parameter list, with one placeholder per parameter, bound in order |
| Metrics.RegionsStep | backend/app/metrics.py:29-63 | no query runs exactly when the cache holds a non-empty value for the key, and then the result is those cached rows and the cache is unchanged; otherwise the fetched rows are returned and stored under the key at the second clock reading, and the query binds to the statement with the values in place; entries under other keys are never touched |
| Metrics.RepeatServedFromCache | backend/app/metrics.py:35-37 | a repeated request within 30 seconds of a non-empty result is served from the cache without a query |
| Metrics.EmptyResultRequeried | backend/app/metrics.py:36 | an empty result is never served from the cache: the next request queries again |
| Metrics.RegionsCache.constructor | backend/app/metrics.py:13 | the cache starts empty |
| Metrics.RegionsCache.GetCached | backend/app/metrics.py:16-24 | the lookup returns and leaves behind what the specification function says |
| Metrics.RegionsCache.SetCache | backend/app/metrics.py:26-27 | the key's entry becomes (now, value) and no other entry changes |
| Metrics.RegionsCache.MetricsRegions | backend/app/metrics.py:29-63 | the handler's result, query and new cache are those of the specification function |
| NormalizeNdjson.EscapeNoNewline | data/normalize_ndjson.py:15 | no newline is left in an escaped text |
| NormalizeNdjson.EscapeFixed | data/normalize_ndjson.py:15 | escaping changes a text exactly when it holds a newline |
| NormalizeNdjson.Escaped | data/normalize_ndjson.py:12-18 | a dictionary keeps its keys, a text is escaped, and anything else, lists included, is kept |
| NormalizeNdjson.EscapedFields | data/normalize_ndjson.py:13-17 | the entries keep their keys, in order, and each value is the escaped value of the input's entry at that place |
| NormalizeNdjson.EscapedNoNewline | data/normalize_ndjson.py:13-17 | after escaping, no text reachable through dictionaries holds a newline |
| NormalizeNdjson.EscapedFixed | data/normalize_ndjson.py:13-17 | a value is left unchanged exactly when no text reachable through dictionaries holds a newline |
| NormalizeNdjson.EscapedIdempotent | data/normalize_ndjson.py:13-17 | escaping twice is escaping once |
| NormalizeNdjson.EscapeText | data/normalize_ndjson.py:12-18 | the loop rewrites each entry and returns the escaped dictionary |
| NormalizeNdjson.Find | data/normalize_ndjson.py:19 | the index of the first entry with the key, and none exactly when the key is absent |
| NormalizeNdjson.NormalizeSpec | data/normalize_ndjson.py:19 | a dictionary under `raw_payload` is escaped in place with keys and order kept; a missing one is added, empty; any other value makes the call fail |
| NormalizeNdjson.NormalizeTouchesOnlyPayload | data/normalize_ndjson.py:19 | only `raw_payload` changes, and afterwards it holds no newline reachable through dictionaries |
| NormalizeNdjson.NormalizeIdempotent | data/normalize_ndjson.py:19 | normalising a normalised record changes nothing |
| NormalizeNdjson.NormalizeRecord | data/normalize_ndjson.py:19 | one record of the loop is normalised as the specification function says |
| PreparePayload.FormatTimeFromToken | backend/prepare_api_payload.py:18-30 | a stamp exactly when the stripped token is three or more digits |
| PreparePayload.FormatStamp | backend/prepare_api_payload.py:24-29 | a stamp has the shape `{date}THH:MM:00Z`, and its `HHMM` reads the number of the token's first four digits |
| PreparePayload.ColonTokenRejected | backend/prepare_api_payload.py:23 | a token with a colon, such as `07:05`, is refused |
| PreparePayload.LegacyTokenRejected | backend/prepare_api_payload.py:23 | every `HH:MM` token of the older reader is refused |
| PreparePayload.ExtraDigitsIgnored | backend/prepare_api_payload.py:27-29 | digits after the fourth are ignored |
| PreparePayload.NoRangeCheck | backend/prepare_api_payload.py:24-29 | `9999` becomes hour 99, minute 99 |
| PreparePayload.MapRecord | backend/prepare_api_payload.py:32-49 | the start time is the record's own when non-empty, else the formatted token, else midnight of the date, so it is never empty; `raw` is the first non-empty of `raw_payload` and `raw`, else empty; the other fields are copied |
| PreparePayload.LegacyRecordsStartAtMidnight | backend/prepare_api_payload.py:36-38 | a record of the older parser (no start time, an `HH:MM` token) always starts at midnight of the given date |
| Rows.Lookup | backend/app/parser.py:23 | nothing exactly when no column has the key, else a cell stored under it |
| Rows.SafeStr | backend/app/parser.py:15-20 | `None` and NaN give nothing, and a text gives itself |
| Rows.SafeGetStr | backend/app/parser.py:22-24 | a result is a text stored under the key |
| Rows.SafeGetStrFirst | backend/app/parser.py:22-24 | a text in the first column named `key` is what `safe_get_str` returns |
| Rows.FirstColumn | backend/app/parser.py:23 | the lookup gives the cell of the first column named `key` |
| Normalizer.Pick | backend/app/parser.py:168-171 | `a or b or None`: the first non-empty of the two texts, and nothing exactly when both are missing or empty |
| Normalizer.RawBlocks | backend/app/parser.py:167-172 | each block read from the upper-case column, else the capitalised one, is non-empty when present |
| Normalizer.FirstSome | backend/app/parser.py:176-180 | a result exactly when some candidate is present, and it is the first present one |
| Normalizer.LastSpace | backend/app/parser.py:195 | the last plain space of a range, or none when the range has no space |
| Normalizer.ZoneMatch | backend/app/parser.py:195-201 | an `ADEPZ`/`ADARRZ` match yields a non-empty group of coordinate characters, spaces and hyphens |
| Normalizer.KeyMatchFrom | backend/app/parser.py:207 | a key match, trying the alternatives in order, yields at least four characters, all digits or hemisphere letters |
| Normalizer.TokenMatch | backend/app/parser.py:210 | a compact-looking token is 4 to 15 digits and a hemisphere letter |
| Normalizer.RmkMatch | backend/app/parser.py:219 | a full coordinate pair is 11 to 15 characters long |
| Normalizer.FirstParsed | backend/app/parser.py:219-223 | the result is the decoding of one candidate, and nothing exactly when none decodes |
| Normalizer.FindCoordInText | backend/app/parser.py:191-192 | an empty text gives nothing |
| Normalizer.CoordRules | backend/app/parser.py:191-224 | the locator's result is the first present of its four rules: the ADEPZ value, the ADARRZ value, the marker or compact-looking token, and the first full coordinate pair that decodes |
| Normalizer.AdepzFirst | backend/app/parser.py:195-200 | a decodable ADEPZ value is the result |
| Normalizer.AdarrzSecond | backend/app/parser.py:201-205 | without one, a decodable ADARRZ value is the result |
| Normalizer.MarkerThird | backend/app/parser.py:207-218 | without either, a decodable marker or compact-looking token is the result |
| Normalizer.PairFourth | backend/app/parser.py:219-224 | failing those, the result is the first full coordinate pair that decodes |
| Normalizer.CoordNoneIff | backend/app/parser.py:191-224 | no point exactly when the text is empty or every rule fails, and then no full pair of the text decodes |
| Normalizer.TypMatch | backend/app/parser.py:254 | a `TYP/` match yields a non-empty `[A-Z0-9_-]` value |
| Normalizer.WordAt | backend/app/parser.py:258-261 | a standalone-word match is the word itself |
| Normalizer.BlockUavType | backend/app/parser.py:252-263 | a non-empty block's type is its TYP/ value, else `BLA`, else `AER`, and is always a non-empty `[A-Z0-9_-]` text; an empty block has none |
| Normalizer.IdFound | backend/app/parser.py:175-180 | the identifier is that of the first candidate, in the order DEP, SHR, ARR, that yields one, and there is none when no candidate does |
| Normalizer.FirstFlightId | backend/app/parser.py:175-180 | the loop with `break` returns the identifier of the specification |
| Normalizer.DetectUavType | backend/app/parser.py:250-263 | the loop skips empty blocks, stops on its first hit, and returns the specification's type |
| Normalizer.NormalizeRow | backend/app/parser.py:159-300 | the step-by-step method computes the record of the specification function |
| Normalizer.RecordParts | backend/app/parser.py:174-300 | each field of the record in terms of the row's blocks, and the fingerprint over identifier, start stamp and start point |
| Normalizer.FlightIdRule | backend/app/parser.py:175-180 | an identifier exactly when some block yields one; DEP wins, then SHR, then ARR; it is a non-empty, non-keyword identifier |
| Normalizer.FirstOfThree | backend/app/parser.py:176-180 | the first present of three candidates |
| Normalizer.EndpointRule | backend/app/parser.py:226-239 | the start is DEP's point, else SHR's; the end is ARR's, else SHR's; with neither DEP nor ARR located, both are SHR's |
| Normalizer.LatLonTogether | backend/app/parser.py:230-239 | latitude and longitude are present together, and are the point's own |
| Normalizer.TimesRule | backend/app/parser.py:242-247 | the departure token is a clock text, DEP's before SHR's; the start stamp is at that clock time on the DOF day, or at midnight without a token; the end is on the same day at ARR's time or at midnight; each stamp reads back as its date and time |
| Normalizer.DurationRule | backend/app/parser.py:265-274 | a duration exactly when both stamps exist and the end is not earlier; it is the minute difference in seconds; without an ARR time it exists only for a midnight departure, and is zero |
| Normalizer.IdNoBar | backend/app/parser.py:285 | the identifier never holds a `\|` |
| Normalizer.StartNoBar | backend/app/parser.py:285 | the start stamp never holds a `\|` |
| Normalizer.FingerprintRule | backend/app/parser.py:285 | with a float rendering that never writes `\|`, with the hash taken as collision-free, two records share a fingerprint exactly when they share identifier, start stamp and rendered start point |
| NormalizerExample.MinimalRow | backend/tests/test_parser.py:15-19 | the test's minimal row gives identifier `777111`, start 59°57′ N 29°05′ E, token `07:05` and start `2001-01-25T07:05:00Z` |
| Temporal.DofMatch | backend/app/parser.py:88 | a DOF match yields six digits from the text |
| Temporal.ParseDof | backend/app/parser.py:85-91 | six digits from the text, present exactly when the text is non-empty and holds a DOF match, and taken from the leftmost DOF match |
| Temporal.HhMm | backend/app/parser.py:106 | `{hh:02d}:{mm:02d}` is a clock text that reads back as the hour and the minute |
| Temporal.ClockTextRoundTrip | backend/app/parser.py:106 | every clock text is the rendering of its own hour and minute |
| Temporal.AtdMatch | backend/app/parser.py:97 | an ATD match yields 3 or 4 digits |
| Temporal.AtaMatch | backend/app/parser.py:107 | an ATA match yields 3 or 4 digits |
| Temporal.BareMatch | backend/app/parser.py:117 | a standalone match yields exactly four digits |
| Temporal.DecodeClock | backend/app/parser.py:99-106 | a token decodes exactly when its number's hundreds are below 24 and its last two digits below 60, into the clock text whose `HH * 100 + MM` is that number |
| Temporal.FirstClock | backend/app/parser.py:97-106 | the decoding of the leftmost match, nothing without a match, and a clock text when present |
| Temporal.ParseTimeToken | backend/app/parser.py:93-123 | a result is always an in-range clock text; the empty text gives nothing; a valid first ATD token wins |
| Temporal.AtaSecond | backend/app/parser.py:107-115 | without a valid first ATD token, a valid first ATA token is the result |
| Temporal.BareThird | backend/app/parser.py:117-122 | without either, the first standalone four-digit run decides |
| Temporal.TimeNoneIff | backend/app/parser.py:93-123 | no time exactly when the text is empty or all three rules fail |
| Temporal.OutOfRangeAtdFallsThrough | backend/app/parser.py:97-106 | an out-of-range first ATD token hands over to the ATA and bare rules; later ATD tokens are not looked at |
| Temporal.LateAtdExample | backend/app/parser.py:97-123 | `ATD 2500 ATD 0705` gives no time, although its second ATD token is valid |
| Temporal.PyInt | backend/app/parser.py:136-141 | `int()` of a digit string is its number |
| Temporal.DaysInMonth | backend/app/parser.py:145 | a month has 28 to 31 days |
| Temporal.IsoZ | backend/app/parser.py:146 | the rendering of a stamp has 20 characters |
| Temporal.ReadIsoZ | backend/app/parser.py:269-270 | a text that reads as a stamp gives a real date and time |
| Temporal.IsoRoundTrip | backend/app/parser.py:269-270 | reading a rendered stamp gives the stamp back |
| Temporal.IsoReadBack | backend/app/parser.py:269-270 | a text that reads as a stamp is exactly that stamp's rendering |
| Temporal.ReadTime | backend/app/parser.py:138-143 | a missing time is (0, 0) |
| Temporal.ReadClockText | backend/app/parser.py:141 | a clock text is read back as its hour and minute |
| Temporal.CombineStamp | backend/app/parser.py:125-148 | a stamp is a real date and time in the years 2000-2099 |
| Temporal.Combine | backend/app/parser.py:125-148 | the rendering is 20 characters, reads back as the stamp, and is missing exactly when the stamp is |
| Temporal.CombineReadsDdMmYy | backend/app/parser.py:133-148 | a date DDMMYY and a time HH:MM give that day of 20YY at that time, exactly when such a day exists |
| Temporal.CombineClock | backend/app/parser.py:138-145 | a combined stamp carries the clock text's hour and minute, and midnight without a time |
| Temporal.CombineSameDay | backend/app/parser.py:136-145 | two stamps combined from the same date fall on the same day |
| Temporal.CombineDefaultsToMidnight | backend/app/parser.py:140-143 | a time without a colon fails to unpack and means midnight, as a missing one does |
| Temporal.ExampleCombine | backend/app/parser.py:127-129 | `250101` with `07:05` gives `2001-01-25T07:05:00Z` |
| Temporal.ExampleBadMonth | backend/app/parser.py:144-148 | month 13 gives no stamp |
| Temporal.DaysBeforeMonth | backend/app/parser.py:271 | a day count is never negative |
| Temporal.DaysBeforeYear | backend/app/parser.py:271 | a day count is never negative |
| Temporal.MinutesOrder | backend/app/parser.py:271 | minute counts order stamps exactly as the calendar does, and only equal stamps have equal counts |
| Temporal.DurationSeconds | backend/app/parser.py:265-274 | a duration is a non-negative multiple of 60, and only comes from two readable stamps with the end not earlier |
| Temporal.DurationOfStamps | backend/app/parser.py:267-272 | two stamps have a duration exactly when the second is not earlier; it is the minute difference in seconds, and zero from a stamp to itself |
| Scan.Search | backend/app/parser.py:67 | `re.search`: the match at the leftmost start at which the pattern matches, and none exactly when it matches nowhere |
| Scan.FindAll | backend/fill_missing_coords.py:51 | `re.finditer`: every element is a match of the pattern, and the first is the leftmost match |
| Scan.SearchFinds | backend/app/parser.py:67 | a match at `p` with no match before it is what `re.search` returns |
| Strings.Upper | backend/app/parser.py:65 | `str.upper()` on ASCII keeps the length, maps each character, and leaves a text without lower-case letters unchanged |
| Strings.Strip | backend/app/parser.py:69 | `str.strip()` gives a slice of the text with no surrounding white space, and keeps a text without white space whole |
| Strings.Split | backend/app/parser.py:141 | `str.split(sep)` gives at least one piece, and the text itself when it holds no separator |
| Strings.SplitOfJoin | backend/app/parser.py:141 | splitting the join of separator-free pieces gives the pieces back |
| Strings.SplitJoin | backend/app/parser.py:141 | joining the pieces of a split with the separator gives the text back |

## Left out
- Floating point: `round(…, 8)`, `str(float)`, `int(delta)` and the `float()` in `safe_float` are not modelled. Coordinates and durations are exact reals and integers. The text a float prints as is the parameter `render` of the fingerprint.
- `PreparePayload.MapRecord`: coordinates are copied as given. The `safe_float` coercion at backend/prepare_api_payload.py:44-47 relies on Python's float parsing.
- SHA-256 internals: `hashlib.sha256(...).hexdigest()` is the constructor `Sha256` of the preimage, so the hash is idealised as collision-free: equal digests have equal preimages. `FingerprintDeterminesFields` and the "only if" half of `FingerprintRule` rest on that idealisation.
- Unicode: `str.upper()`, `str.lower()`, `str.strip()`, `\b`, `\w`, `\d`, `\s` and `re.I` are taken over ASCII only. Cyrillic text in the `center` block is not matched as word characters, and `LegacyNormalizer.GetSpec` does not find a column such as `центр` or `ЦЕНТР` through the `key.lower()`/`key.upper()` forms of `_get("Центр")`.
- Cells: a cell is `None`, a NaN float or a text (`Rows.Cell`). Numbers and other objects in a DataFrame row are not modelled, and neither are the `isinstance` checks of backend/app/parser.back.py that reject them.
- The NaN sweep at backend/app/parser.py:302-305 is not modelled. No value `normalize_row` puts in its record is a NaN float, so the sweep never changes anything.
- The definitions at backend/app/parser.back.py:10-46, 49-63 and 91-110 are not modelled. Later definitions of the same names shadow them.
- `end_time` at backend/app/parser.back.py:316-317 is worked out and then dropped: the record always holds `None` there, as modelled.
- `datetime.fromisoformat` in the duration rule is modelled only on the `YYYY-MM-DDTHH:MM:00Z` texts that `combine_dof_time_iso` produces.
- `time.time()` in backend/app/metrics.py is the parameter `now`.
- The database call in `metrics_regions` (connect, execute, fetch) is not modelled: the rows it returns are the parameter `fetched`, and the second clock reading at `_set_cache` is the parameter `later`. The SQL text is a sequence of fixed pieces and placeholders, and psycopg2's quoting of bound values is not modelled.
- `NormalizeNdjson.EscapeText`: the method returns the new entries instead of changing the caller's dictionary. The aliasing between the argument and the result is not captured. Lists are left untouched, as in the source.
- The I/O scripts are not modelled, because they only read and write files, databases or HTTP. This covers the `main` of backend/fill_missing_coords.py, backend/prepare_api_payload.py and backend/fix_nan.py; `send_batch` and `main` of backend/import_to_api.py; the top level of backend/sanitize_json.py; `process` in backend/full_runner.py; and the line loop of data/normalize_ndjson.py. Only the record count and order of `fix_nan`'s `main` are kept, as `FixNan.CleanData`.
- The JSON load and dump around the sanitisers are not modelled. Values are already decoded into `Json.Value`.

## Findings
| source | as written | input that shows it | evidently intended | confidence | as-written member | corrected member |
|---|---|---|---|---|---|---|
| backend/app/parser.back.py:79-81 | the live `parse_time_token` returns the text `HH:MM`, which `hh, mi = t` unpacks character by character; this raises outside the `try` | dof `250101`, time `ATD 0705` | hour and minute read as integers, giving `2001-01-25T07:05:00Z` | not executed | LegacyTime.LegacyCombine, LegacyTime.CombineRaisesExample | LegacyTime.LegacyCombineFixed, LegacyTime.FixedIsCombine |
| backend/fill_missing_coords.py:37-47 | `conv_lon` splits off minutes only from 5 or more digits, but is given group 4, which holds at most 4 digits, so longitude is always whole degrees | `5957N02905E` gives longitude 29 | longitude 29 + 5/60 | not executed | FillCoords.ParseCompactCoord, FillCoords.MinutesTokenAsWritten, FillCoords.ExampleDropsMinutes | FillCoords.ParseCompactCoordFixed, FillCoords.MinutesTokenFixed |

The text scanner `find_first_coord_in_text` only passes tokens with 2 to 4 longitude digits. On those tokens the two decoders agree, as `FillCoords.ShortTokenParses` states. So the scanner's results are the same under either decoder.
