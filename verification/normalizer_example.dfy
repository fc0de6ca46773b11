/**
 * The minimal row of backend/tests/test_parser.py:15-19: an SHR block with a
 * DOF date and a SID number, and a DEP block with a departure time and an
 * ADEPZ coordinate. The record gets the SID number as identifier and the
 * ADEPZ point as start.
 */
module NormalizerExample {
  import opened Options
  import opened Strings
  import opened Scan
  import opened Rows
  import opened CompactCoord
  import opened FlightId
  import opened Temporal
  import opened Normalizer

  const MinShr := "(SHR-ZZZZZ\n-DOF/250101\nSID/777111)"
  const MinDep := "-ATD 0705 -ADEP ZZZZ -ADEPZ 5957N02905E"
  const MinRow: Row := [("SHR", Text(MinShr)), ("DEP", Text(MinDep))]

  /** The record of the minimal row: identifier 777111, start at 59°57'N 29°05'E. */
  lemma MinimalRow(render: real -> string)
    ensures NormalizeSpec(MinRow, render).flightId == Some("777111")
    ensures NormalizeSpec(MinRow, render).startLat == Some(59.0 + 57.0 / 60.0)
    ensures NormalizeSpec(MinRow, render).startLon == Some(29.0 + 5.0 / 60.0)
    ensures NormalizeSpec(MinRow, render).timeToken == Some("07:05")
    ensures NormalizeSpec(MinRow, render).startTime == Some("2001-01-25T07:05:00Z")
  {
    RecordParts(MinRow, render);
    MinFlightId();
    MinStart();
    MinStartTime();
  }

  lemma MinFlightId()
    ensures FlightIdOf(RawBlocks(MinRow)) == Some("777111")
  {
    var b := RawBlocks(MinRow);
    MinBlocks();
    MinShrId();
    FlightIdRule(b);
    assert IdOf(b.dep).None? by {
      MinDepNoId();
    }
  }

  lemma MinStart()
    ensures StartCoord(RawBlocks(MinRow)) == Some(LatLon(59.0 + 57.0 / 60.0, 29.0 + 5.0 / 60.0))
  {
    MinBlocks();
    MinDepCoord();
  }

  lemma MinBlocks()
    ensures RawBlocks(MinRow).shr == Some(MinShr) && RawBlocks(MinRow).dep == Some(MinDep)
  {
    SafeGetStrFirst(MinRow, "SHR", 0);
    SafeGetStrFirst(MinRow, "DEP", 1);
  }

  // ---------------------------------------------------------------- identifier

  lemma MinShrId()
    ensures ExtractFlightId(MinShr) == Some("777111")
  {
    MinShrUpper();
    MinNoReg();
    MinSidHit();
    assert SidRule(MinShr) == Some("777111");
  }

  lemma MinShrUpper()
    ensures Upper(MinShr) == MinShr
  {
    assert forall i :: 0 <= i < |MinShr| ==> !IsLower(MinShr[i]);
  }

  lemma MinNoReg()
    ensures RegRule(MinShr).None?
  {
    MinNoRegMarker();
    assert forall q :: 0 <= q <= |MinShr| ==> RegMatch(MinShr, q).None?;
  }

  lemma MinNoRegMarker()
    ensures forall q :: 0 <= q <= |MinShr| ==> !At(MinShr, q, "REG")
  {
    var t := MinShr;
    assert forall q :: 0 <= q < |t| - 1 ==> t[q] != 'R' || t[q + 1] != 'E';
    NotAtBefore(t, "REG", |t| - 1);
    assert t[|t| - 1] == ')';
  }

  lemma MinSidHit()
    ensures Search(MinShr, 0, SidMatch) == Some(Hit(23, 33, "777111"))
  {
    MinNoEarlierSid();
    MinSidAt();
    SearchFinds(MinShr, 0, SidMatch, 23);
  }

  lemma MinNoEarlierSid()
    ensures forall q :: 0 <= q < 23 ==> SidMatch(MinShr, q).None?
  {
    MinNoEarlierSidMarker();
  }

  lemma MinNoEarlierSidMarker()
    ensures forall q :: 0 <= q < 23 ==> !At(MinShr, q, "SID/")
  {
    var t := MinShr;
    assert forall q :: 0 <= q < 23 ==> t[q] != 'S' || t[q + 1] != 'I';
    NotAtBefore(t, "SID/", 23);
  }

  lemma MinSidAt()
    ensures SidMatch(MinShr, 23) == Some(Span(33, "777111"))
  {
    MinSidMarker();
    MinSidDigits();
    MinSidValue();
  }

  lemma MinSidMarker()
    ensures Boundary(MinShr, 23) && At(MinShr, 23, "SID/")
  {
    var t := MinShr;
    AtChars(t, 23, "SID/");
    assert t[22] == '\n' && t[23] == 'S' && t[24] == 'I' && t[25] == 'D' && t[26] == '/';
  }

  lemma MinSidDigits()
    ensures DigitRun(MinShr, 27) == 6 && Boundary(MinShr, 33)
  {
    var t := MinShr;
    assert t[27] == '7' && t[28] == '7' && t[29] == '7' && t[30] == '1' && t[31] == '1' && t[32] == '1';
    assert t[33] == ')';
    RunIs(t, 27, 6, IsDigit);
  }

  lemma MinSidValue()
    ensures MinShr[27..33] == "777111"
  {
    var t := MinShr;
    assert t[27] == '7' && t[28] == '7' && t[29] == '7' && t[30] == '1' && t[31] == '1' && t[32] == '1';
  }

  /** DEP names no identifier: no REG/, no SID/, and no word of 1-3 letters followed by digits. */
  lemma MinDepNoId()
    ensures ExtractFlightId(MinDep).None?
  {
    MinDepUpper();
    MinDepNoMarkers();
    MinDepNoShapes();
  }

  lemma MinDepUpper()
    ensures Upper(MinDep) == MinDep
  {
    assert forall i :: 0 <= i < |MinDep| ==> !IsLower(MinDep[i]);
  }

  lemma MinDepNoMarkers()
    ensures Search(MinDep, 0, RegMatch).None? && Search(MinDep, 0, SidMatch).None?
  {
    MinDepNoReg();
    MinDepNoSid();
  }

  lemma MinDepLetters()
    ensures forall i :: 0 <= i < |MinDep| ==> MinDep[i] != 'R' && MinDep[i] != 'S'
  {
  }

  lemma MinDepNoReg()
    ensures forall q :: 0 <= q <= |MinDep| ==> RegMatch(MinDep, q).None?
  {
    MinDepLetters();
    forall q | 0 <= q < |MinDep| ensures RegMatch(MinDep, q).None? {
      AtChars(MinDep, q, "REG");
    }
  }

  lemma MinDepNoSid()
    ensures forall q :: 0 <= q <= |MinDep| ==> SidMatch(MinDep, q).None?
  {
    MinDepLetters();
    forall q | 0 <= q < |MinDep| ensures SidMatch(MinDep, q).None? {
      AtChars(MinDep, q, "SID/");
    }
  }

  lemma MinDepNoShapes()
    ensures Search(MinDep, 0, ShapeMatch).None?
  {
    forall q | 0 <= q <= |MinDep| ensures ShapeMatch(MinDep, q).None? {
      MinDepNoShape(q);
    }
  }

  lemma MinDepNoShape(q: nat)
    requires q <= |MinDep|
    ensures ShapeMatch(MinDep, q).None?
  {
    if q == 1 {
      MinDepShapeAtd();
    } else if q == 11 || q == 16 || q == 22 {
      MinDepLongWords();
    } else if q < |MinDep| && IsUpper(MinDep[q]) {
      MinDepUpperPositions();
    }
  }

  /** `ATD` is followed by a space, not by digits. */
  lemma MinDepShapeAtd()
    ensures ShapeMatch(MinDep, 1).None?
  {
    var t := MinDep;
    MinDepHead();
    RunIs(t, 1, 3, IsUpper);
    RunIs(t, 4, 0, IsDigit);
  }

  /** `ADEP`, `ZZZZ` and `ADEPZ` have more than three letters. */
  lemma MinDepLongWords()
    ensures Run(MinDep, 11, IsUpper) == 4 && Run(MinDep, 16, IsUpper) == 4 && Run(MinDep, 22, IsUpper) == 5
  {
    MinDepAdep();
    MinDepZzzz();
    MinDepAdepz();
  }

  lemma MinDepAdep()
    ensures Run(MinDep, 11, IsUpper) == 4
  {
    var t := MinDep;
    assert t[11] == 'A' && t[12] == 'D' && t[13] == 'E' && t[14] == 'P' && t[15] == ' ';
    RunIs(t, 11, 4, IsUpper);
  }

  lemma MinDepZzzz()
    ensures Run(MinDep, 16, IsUpper) == 4
  {
    var t := MinDep;
    assert t[16] == 'Z' && t[17] == 'Z' && t[18] == 'Z' && t[19] == 'Z' && t[20] == ' ';
    RunIs(t, 16, 4, IsUpper);
  }

  lemma MinDepAdepz()
    ensures Run(MinDep, 22, IsUpper) == 5
  {
    var t := MinDep;
    assert t[22] == 'A' && t[23] == 'D' && t[24] == 'E' && t[25] == 'P' && t[26] == 'Z' && t[27] == ' ';
    RunIs(t, 22, 5, IsUpper);
  }

  /** Every other upper-case letter sits inside a word, where `\b` cannot hold. */
  lemma MinDepUpperPositions()
    ensures forall q :: 0 <= q < |MinDep| && IsUpper(MinDep[q]) && q != 1 && q != 11 && q != 16 && q != 22 ==>
      q > 0 && IsWord(MinDep[q - 1])
  {
  }

  // ---------------------------------------------------------------- start time

  lemma MinStartTime()
    ensures AtdOf(RawBlocks(MinRow)) == Some("07:05")
    ensures StartTimeOf(RawBlocks(MinRow)) == Some("2001-01-25T07:05:00Z")
  {
    MinBlocks();
    MinAtd();
    MinDof();
    ExampleCombine();
  }

  lemma MinAtd()
    ensures ParseTimeToken(MinDep) == Some("07:05")
  {
    MinAtdHit();
    MinClock();
  }

  lemma MinAtdHit()
    ensures Search(MinDep, 0, AtdMatch) == Some(Hit(1, 9, "0705"))
  {
    MinAtdAt();
    AtChars(MinDep, 0, "ATD");
    assert MinDep[0] == '-';
    SearchFinds(MinDep, 0, AtdMatch, 1);
  }

  lemma MinAtdAt()
    ensures AtdMatch(MinDep, 1) == Some(Span(9, "0705"))
  {
    MinAtdMarker();
    MinAtdDigits();
  }

  lemma MinAtdMarker()
    ensures Boundary(MinDep, 1) && At(MinDep, 1, "ATD") && IsTimeSep(MinDep[4])
  {
    var t := MinDep;
    MinDepHead();
    AtChars(t, 1, "ATD");
  }

  lemma MinAtdDigits()
    ensures DigitRun(MinDep, 5) == 4 && Boundary(MinDep, 9) && MinDep[5..9] == "0705"
  {
    var t := MinDep;
    MinDepHead();
    RunIs(t, 5, 4, IsDigit);
  }

  /** The first ten characters of the DEP block, `-ATD 0705 `. */
  lemma MinDepHead()
    ensures |MinDep| > 10
    ensures MinDep[0] == '-' && MinDep[1] == 'A' && MinDep[2] == 'T' && MinDep[3] == 'D' && MinDep[4] == ' '
    ensures MinDep[5] == '0' && MinDep[6] == '7' && MinDep[7] == '0' && MinDep[8] == '5' && MinDep[9] == ' '
  {
  }

  lemma MinClock()
    ensures DecodeClock("0705") == Some("07:05")
  {
    var v := "0705";
    assert v[..2] == "07" && v[2..] == "05";
    TwoDigits('0', '7');
    TwoDigits('0', '5');
    Pad2Of("07");
    Pad2Of("05");
    assert HhMm(7, 5) == "07:05";
  }

  lemma TwoDigits(a: char, b: char)
    requires IsDigit(a) && IsDigit(b)
    ensures NumberOf([a, b]) == DigitValue(a) * 10 + DigitValue(b)
  {
    NumberOfSnoc([], a);
    NumberOfSnoc([a], b);
    assert [a] + [b] == [a, b];
  }

  lemma MinDof()
    ensures ParseDof(MinShr) == Some("250101")
  {
    var t := MinShr;
    assert forall q :: 0 <= q < 12 ==> t[q] != 'D';
    forall q | 0 <= q < 12 ensures DofMatch(t, q).None? {
      AtChars(t, q, "DOF");
    }
    MinDofAt();
    SearchFinds(t, 0, DofMatch, 12);
  }

  lemma MinDofAt()
    ensures DofMatch(MinShr, 12) == Some(Span(22, "250101"))
  {
    MinDofMarker();
    MinDofDigits();
  }

  lemma MinDofMarker()
    ensures Boundary(MinShr, 12) && At(MinShr, 12, "DOF") && IsDofSep(MinShr[15])
  {
    var t := MinShr;
    assert t[11] == '-' && t[12] == 'D' && t[13] == 'O' && t[14] == 'F' && t[15] == '/';
    AtChars(t, 12, "DOF");
  }

  lemma MinDofDigits()
    ensures DigitsBetween(MinShr, 16, 22) && Boundary(MinShr, 22) && MinShr[16..22] == "250101"
  {
    var t := MinShr;
    assert t[16] == '2' && t[17] == '5' && t[18] == '0' && t[19] == '1' && t[20] == '0' && t[21] == '1' && t[22] == '\n';
  }

  // ---------------------------------------------------------------- start point

  lemma MinDepCoord()
    ensures FindCoordInText(MinDep) == Some(LatLon(59.0 + 57.0 / 60.0, 29.0 + 5.0 / 60.0))
  {
    MinAdepzHit();
    MinValue();
    ExampleMinutes();
  }

  lemma MinAdepzHit()
    ensures Search(MinDep, 0, AdepzMatch) == Some(Hit(22, 39, "5957N02905E"))
  {
    MinNoEarlierAdepz();
    MinAdepzAt();
    SearchFinds(MinDep, 0, AdepzMatch, 22);
  }

  lemma MinNoEarlierAdepz()
    ensures forall q :: 0 <= q < 22 ==> AdepzMatch(MinDep, q).None?
  {
    var t := MinDep;
    MinNoEarlierAZ();
    forall q | 0 <= q < 22 ensures AdepzMatch(t, q).None? {
      AtChars(t, q, "ADEPZ");
    }
  }

  lemma MinNoEarlierAZ()
    ensures |MinDep| == 39
    ensures forall q :: 0 <= q < 22 ==> MinDep[q] != 'A' || MinDep[q + 4] != 'Z'
  {
  }

  lemma MinAdepzAt()
    ensures AdepzMatch(MinDep, 22) == Some(Span(39, "5957N02905E"))
  {
    MinAdepzMarker();
    MinAdepzRuns();
    MinAdepzValue();
  }

  lemma MinAdepzMarker()
    ensures Boundary(MinDep, 22) && At(MinDep, 22, "ADEPZ")
  {
    var t := MinDep;
    AtChars(t, 22, "ADEPZ");
    assert t[21] == '-' && t[22] == 'A' && t[23] == 'D' && t[24] == 'E' && t[25] == 'P' && t[26] == 'Z';
  }

  lemma MinAdepzRuns()
    ensures Run(MinDep, 27, IsZoneSep) == 1 && Run(MinDep, 28, IsZoneChar) == 11
  {
    var t := MinDep;
    assert |t| == 39 && t[27] == ' ' && t[28] == '5';
    RunIs(t, 27, 1, IsZoneSep);
    assert forall k :: 28 <= k < 39 ==> IsZoneChar(t[k]);
    RunIs(t, 28, 11, IsZoneChar);
  }

  lemma MinAdepzValue()
    ensures MinDep[28..39] == "5957N02905E"
  {
    var t := MinDep;
    assert t[28] == '5' && t[29] == '9' && t[30] == '5' && t[31] == '7' && t[32] == 'N' && t[33] == '0';
    assert t[34] == '2' && t[35] == '9' && t[36] == '0' && t[37] == '5' && t[38] == 'E';
  }

  lemma MinValue()
    ensures Strip("5957N02905E") == "5957N02905E"
  {
    var v := "5957N02905E";
    assert forall i :: 0 <= i < |v| ==> !IsSpace(v[i]);
  }
}
