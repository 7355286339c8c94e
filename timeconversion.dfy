/** `time24H` of src/Septa.js: a display time such as "9:31p" or "11:05a"
    becomes an hour and a minute on a 24-hour scale. */
module TimeConversion {
  import opened Wrappers
  import opened JsText

  datatype Time = Time(hh: int, mm: int)

  /** What the source adds to the hour: 12 when the string contains a 'p'
      anywhere, and nothing otherwise (there is no correction for "12:xxa"). */
  function PmOffset(amPmTime: string): int {
    if 'p' in amPmTime then 12 else 0
  }

  /** The hour is read from the characters before index 1 (length 5) or 2
      (length 6), the minute from the two characters after that position;
      `None` when the length is neither 5 nor 6, or a field is NaN. */
  function Time24H(amPmTime: string): Option<Time> {
    if |amPmTime| != 5 && |amPmTime| != 6 then None
    else
      var hourText := if |amPmTime| == 5 then amPmTime[0..1] else amPmTime[0..2];
      var minuteText := if |amPmTime| == 5 then amPmTime[2..4] else amPmTime[3..5];
      match (ParseInt(hourText), ParseInt(minuteText))
      case (Some(hh), Some(mm)) => Some(Time(hh + PmOffset(amPmTime), mm))
      case _ => None
  }

  /** Strings of any other length are a format error. */
  lemma Time24HRejectsOtherLengths(amPmTime: string)
    requires |amPmTime| != 5 && |amPmTime| != 6
    ensures Time24H(amPmTime) == None
  {
  }

  lemma TwoDigitsValue(s: string)
    requires |s| == 2 && IsDecimal(s)
    ensures ParseInt(s) == Some(10 * DigitValue(s[0]) + DigitValue(s[1]))
  {
    ParseIntOfDecimal(s);
    var first := s[..1];
    assert first[..0] == [] && first[0] == s[0];
    assert DigitsValue(first, 10) == DigitValue(s[0]);
    assert DigitsValue(s, 10) == DigitsValue(first, 10) * 10 + DigitValue(s[1]);
  }

  /** "H:MMx": the hour is the digit at index 0, the minute the digits at
      indices 2 and 3; the characters at indices 1 and 4 are not read. */
  lemma Time24HShortForm(amPmTime: string)
    requires |amPmTime| == 5
    requires '0' <= amPmTime[0] <= '9' && '0' <= amPmTime[2] <= '9' && '0' <= amPmTime[3] <= '9'
    ensures Time24H(amPmTime) == Some(Time(DigitValue(amPmTime[0]) + PmOffset(amPmTime),
                                           10 * DigitValue(amPmTime[2]) + DigitValue(amPmTime[3])))
  {
    ParseIntOfDecimal(amPmTime[0..1]);
    TwoDigitsValue(amPmTime[2..4]);
  }

  /** "HH:MMx": the hour is the digits at indices 0 and 1, the minute the
      digits at indices 3 and 4; the characters at indices 2 and 5 are not read. */
  lemma Time24HLongForm(amPmTime: string)
    requires |amPmTime| == 6
    requires '0' <= amPmTime[0] <= '9' && '0' <= amPmTime[1] <= '9'
    requires '0' <= amPmTime[3] <= '9' && '0' <= amPmTime[4] <= '9'
    ensures Time24H(amPmTime) == Some(Time(10 * DigitValue(amPmTime[0]) + DigitValue(amPmTime[1]) + PmOffset(amPmTime),
                                           10 * DigitValue(amPmTime[3]) + DigitValue(amPmTime[4])))
  {
    TwoDigitsValue(amPmTime[0..2]);
    TwoDigitsValue(amPmTime[3..5]);
  }

  /** `t` with `n` added to its hour. */
  function AddHours(t: Option<Time>, n: int): Option<Time> {
    match t
    case None => None
    case Some(Time(hh, mm)) => Some(Time(hh + n, mm))
  }

  /** The marker only matters through the 'p' test: a 'p' adds 12 to what
      the same time with any other marker gives, and every other marker
      gives the same result as 'a'. */
  lemma Time24HMarker(clock: string, marker: char)
    requires |clock| == 4 || |clock| == 5
    requires 'p' !in clock
    ensures Time24H(clock + [marker]) == if marker == 'p' then AddHours(Time24H(clock + "a"), 12)
                                         else Time24H(clock + "a")
  {
    var s, a := clock + [marker], clock + "a";
    assert s[0..1] == a[0..1] && s[2..4] == a[2..4];
    assert |clock| == 5 ==> s[0..2] == a[0..2] && s[3..5] == a[3..5];
    assert 'p' !in a;
    assert 'p' in s <==> marker == 'p' by {
      if marker == 'p' { assert s[|clock|] == 'p'; }
    }
  }

  /** The display string the feed sends for hour `h` (1 to 12), minute `m`
      and meridiem marker `pm`. */
  function DisplayTime(h: nat, m: nat, pm: bool): (s: string)
    requires 1 <= h <= 12 && m < 60
    ensures |s| == if h < 10 then 5 else 6
  {
    NumberToString(h) + ":" + [DigitChar(m / 10), DigitChar(m % 10)] + (if pm then "p" else "a")
  }

  /** Reading a well-formed display time back gives its hour, plus 12 after
      noon, and its minute. */
  lemma Time24HOfDisplayTime(h: nat, m: nat, pm: bool)
    requires 1 <= h <= 12 && m < 60
    ensures Time24H(DisplayTime(h, m, pm)) == Some(Time(h + (if pm then 12 else 0), m))
  {
    var s := DisplayTime(h, m, pm);
    assert ('p' in s) == pm by {
      assert forall i :: 0 <= i < |s| - 1 ==> s[i] != 'p';
      assert s[|s| - 1] == if pm then 'p' else 'a';
    }
    if h < 10 {
      Time24HShortForm(s);
    } else {
      assert NumberToString(h) == [DigitChar(1), DigitChar(h % 10)];
      Time24HLongForm(s);
    }
  }

  /** The marker an hour on the 24-hour scale implies. */
  function Marker(hh: int): char {
    if hh >= 12 then 'p' else 'a'
  }

  /** For hours 1 to 11 the marker can be recovered from the converted hour. */
  lemma MarkerRecovered(h: nat, m: nat, pm: bool)
    requires 1 <= h <= 11 && m < 60
    ensures Time24H(DisplayTime(h, m, pm)).Some?
    ensures Marker(Time24H(DisplayTime(h, m, pm)).value.hh) == (if pm then 'p' else 'a')
  {
    Time24HOfDisplayTime(h, m, pm);
  }

  /** Hour 12 is not corrected: "12:xxa" stays at 12 and "12:xxp" becomes 24. */
  lemma TwelveNotCorrected(m: nat, pm: bool)
    requires m < 60
    ensures Time24H(DisplayTime(12, m, pm)) == Some(Time(if pm then 24 else 12, m))
  {
    Time24HOfDisplayTime(12, m, pm);
  }

  lemma Time24HEveningExample()
    ensures Time24H("9:31p") == Some(Time(21, 31))
  {
    assert "9:31p"[0] == '9' && "9:31p"[2] == '3' && "9:31p"[3] == '1';
    assert "9:31p"[4] == 'p';
    Time24HShortForm("9:31p");
  }

  lemma Time24HMorningExample()
    ensures Time24H("11:05a") == Some(Time(11, 5))
  {
    assert 'p' !in "11:05a";
    Time24HLongForm("11:05a");
  }

  /** No correction for the hour after midnight. */
  lemma Time24HMidnightExample()
    ensures Time24H("12:15a") == Some(Time(12, 15))
  {
    assert 'p' !in "12:15a";
    Time24HLongForm("12:15a");
  }

  /** Noon becomes hour 24. */
  lemma Time24HNoonExample()
    ensures Time24H("12:00p") == Some(Time(24, 0))
  {
    assert "12:00p"[5] == 'p';
    Time24HLongForm("12:00p");
  }

  /** A 'p' anywhere counts, not only in the marker position. */
  lemma Time24HStrayPExample()
    ensures Time24H("9p31a") == Some(Time(21, 31))
  {
    assert "9p31a"[1] == 'p';
    Time24HShortForm("9p31a");
  }

  /** A leading space is skipped by `parseInt` and the hour still reads. */
  lemma Time24HLeadingSpaceExample()
    ensures Time24H(" 9:31p") == Some(Time(21, 31))
  {
    var s := " 9:31p";
    assert s[0..2] == [' '] + "9";
    ParseIntSkipsWhiteSpace(' ', "9");
    ParseIntOfDecimal("9");
    TwoDigitsValue(s[3..5]);
    assert s[5] == 'p';
  }

  lemma Time24HFailureExamples()
    ensures Time24H("9:31") == None
    ensures Time24H("11:05pm") == None
    ensures Time24H("") == None
    ensures Time24H("ab:cdp") == None
    ensures Time24H("0x:15a") == None
  {
    assert "ab:cdp"[0..2] == "ab";
    assert "0x:15a"[0..2] == "0x";
  }
}
