/**
 * The time codec of the catalogue: `HH:MM:SS.mmm` timestamps to milliseconds
 * (`time_to_ms`), and milliseconds to the short `m:ss` duration
 * (`ms_to_duration`) and the full `hh:mm:ss` timecode (`ms_to_timecode`).
 */
module TimeCodec {
  import opened Wrappers
  import opened Numerals

  /**
   * The pattern `^(\d{2}):(\d{2}):(\d{2}).(\d{3})$`. The `.` before the
   * milliseconds is unescaped, so any character but a line terminator may
   * stand there.
   */
  predicate IsTimestamp(d: string) {
    && |d| == 12
    && AllDigits(d[0..2]) && d[2] == ':'
    && AllDigits(d[3..5]) && d[5] == ':'
    && AllDigits(d[6..8]) && !IsLineTerminator(d[8])
    && AllDigits(d[9..12])
  }

  /** `time_to_ms`: the millisecond count of a timestamp, or `None` (the source's `false`). */
  function TimeToMs(d: string): (r: Option<nat>)
    ensures r.Some? <==> IsTimestamp(d)
  {
    if IsTimestamp(d) then
      var hours, minutes, seconds, millis :=
        DecimalValue(d[0..2]), DecimalValue(d[3..5]), DecimalValue(d[6..8]), DecimalValue(d[9..12]);
      Some(hours * 60 * 60 * 1000 + minutes * 60 * 1000 + seconds * 1000 + millis)
    else None
  }

  /**
   * `Math.round(ms / 1000)`: the nearest whole second, halves rounded up
   * (towards +infinity, also for negative counts).
   */
  function RoundHalfUp(ms: int): (r: int)
    ensures 1000 * r - 500 <= ms < 1000 * r + 500
    ensures ms >= 0 ==> r >= 0
  {
    (ms + 500) / 1000
  }

  /** JavaScript's `a % 60`: the remainder takes the sign of the dividend. */
  function JsRem60(a: int): (r: int)
    ensures -60 < r < 60
    ensures a >= 0 ==> r >= 0
    ensures a <= 0 ==> r <= 0
    ensures (a - r) % 60 == 0
  {
    if a >= 0 then a % 60
    else
      var q := (-a) / 60;
      assert a + (-a) % 60 == -60 * q;
      -((-a) % 60)
  }

  /**
   * `ms_to_duration`: minutes unpadded, a colon, then the seconds prefixed
   * with "0" whenever they are below 10 (for a negative count that yields
   * strings such as "0-5", as in the source). It is defined on every integer,
   * since the caller passes an end minus a start that may be negative.
   */
  function MsToDuration(ms: int): (r: string)
    ensures |r| >= 4
  {
    var totalSecond := RoundHalfUp(ms);
    var second := JsRem60(totalSecond);
    var secondT := if second < 10 then "0" + IntToString(second) else IntToString(second);
    // Math.floor of a division by a positive number: Dafny's `/` already floors.
    IntToString(totalSecond / 60) + ":" + secondT
  }

  /**
   * `ms_to_timecode`: hours, minutes and seconds, each padded to two digits
   * (hours may take more). The only caller passes a non-negative count.
   */
  function MsToTimecode(ms: nat): (r: string)
    ensures |r| >= 8
    ensures RoundHalfUp(ms) < 100 * 3600 <==> |r| == 8
  {
    var totalSecond := RoundHalfUp(ms);
    Pad2(totalSecond / 3600) + ":" + Pad2(totalSecond / 60 % 60) + ":" + Pad2(totalSecond % 60)
  }

  // ------------------------------------------------------------ properties

  /**
   * For a non-negative count the duration reads back: minutes without leading
   * zeros, a colon, exactly two digits of seconds below 60, and
   * minutes * 60 + seconds is the rounded second count.
   */
  lemma DurationFields(ms: int)
    requires ms >= 0
    ensures var r := MsToDuration(ms); var k := |r| - 3;
      && r[k] == ':'
      && AllDigits(r[..k]) && (r[0] == '0' ==> k == 1)
      && AllDigits(r[k + 1..]) && DecimalValue(r[k + 1..]) < 60
      && DecimalValue(r[..k]) * 60 + DecimalValue(r[k + 1..]) == RoundHalfUp(ms)
  {
    var t := RoundHalfUp(ms);
    var minutes, seconds := t / 60, t % 60;
    assert MsToDuration(ms) == NatToString(minutes) + ":" + Pad2(seconds);
    SplitAtColon(NatToString(minutes), Pad2(seconds));
    DecimalValueOfNatToString(minutes);
    DecimalValueOfPad2(seconds);
  }

  /** Cutting `a + ":" + b` at its colon gives back `a` and `b`. */
  lemma SplitAtColon(a: string, b: string)
    ensures var r := a + ":" + b;
      |r| == |a| + 1 + |b| && r[|a|] == ':' && r[..|a|] == a && r[|a| + 1..] == b
  {
  }

  /**
   * For a negative rounded count the minutes carry a minus sign and floor
   * towards -infinity, while the seconds keep JavaScript's truncated remainder:
   * -61 seconds renders as "-2:0-1".
   */
  lemma NegativeDuration(ms: int)
    requires RoundHalfUp(ms) < 0
    ensures var t := RoundHalfUp(ms); var second := (-t) % 60;
      MsToDuration(ms) ==
        "-" + NatToString(-(t / 60)) + ":" + (if second == 0 then "00" else "0-" + NatToString(second))
  {
    var t := RoundHalfUp(ms);
    var second := (-t) % 60;
    assert JsRem60(t) == -second;
    assert IntToString(t / 60) == "-" + NatToString(-(t / 60));
    if second == 0 {
      assert IntToString(0) == "0";
    } else {
      assert IntToString(-second) == "-" + NatToString(second);
      assert "0" + ("-" + NatToString(second)) == "0-" + NatToString(second);
    }
  }

  /**
   * The timecode reads back: an hours field of two or more digits, then
   * two-digit minutes and seconds below 60, and
   * hh * 3600 + mm * 60 + ss is the rounded second count.
   */
  lemma TimecodeFields(ms: nat)
    ensures var r := MsToTimecode(ms); var k := |r| - 6;
      && k >= 2 && r[k] == ':' && r[k + 3] == ':'
      && AllDigits(r[..k]) && AllDigits(r[k + 1..k + 3]) && AllDigits(r[k + 4..])
      && DecimalValue(r[k + 1..k + 3]) < 60 && DecimalValue(r[k + 4..]) < 60
      && DecimalValue(r[..k]) * 3600 + DecimalValue(r[k + 1..k + 3]) * 60 + DecimalValue(r[k + 4..])
         == RoundHalfUp(ms)
  {
    var t := RoundHalfUp(ms);
    ClockFields(t);
    PaddedFields(t / 3600, t / 60 % 60, t % 60);
  }

  /** The three padded fields of a clock text, cut at its colons. */
  lemma PaddedFields(hours: nat, minutes: nat, seconds: nat)
    requires minutes < 60 && seconds < 60
    ensures var h := Pad2(hours); var r := h + ":" + Pad2(minutes) + ":" + Pad2(seconds); var k := |h|;
      && |r| == k + 6 && k >= 2 && r[k] == ':' && r[k + 3] == ':'
      && AllDigits(r[..k]) && AllDigits(r[k + 1..k + 3]) && AllDigits(r[k + 4..])
      && DecimalValue(r[..k]) == hours && DecimalValue(r[k + 1..k + 3]) == minutes
      && DecimalValue(r[k + 4..]) == seconds
  {
    var h, m, s := Pad2(hours), Pad2(minutes), Pad2(seconds);
    var r := h + ":" + m + ":" + s;
    var k := |h|;
    assert r == h + ":" + (m + ":" + s);
    SplitAtColon(h, m + ":" + s);
    SplitAtColon(m, s);
    assert r[..k] == h;
    assert r[k + 1..k + 3] == m;
    assert r[k + 4..] == s;
    DecimalValueOfPad2(hours);
    DecimalValueOfPad2(minutes);
    DecimalValueOfPad2(seconds);
  }

  /** Hours, minutes below 60 and seconds below 60 make up a second count. */
  lemma ClockFields(t: nat)
    ensures t / 60 % 60 < 60 && t % 60 < 60
    ensures (t / 3600) * 3600 + (t / 60 % 60) * 60 + t % 60 == t
  {
    assert t / 3600 == (t / 60) / 60;
  }

  /** A twelve-character timestamp assembled from its fields parses to their millisecond sum. */
  lemma TimeToMsOfFields(h: string, m: string, s: string, sep: char, x: string)
    requires |h| == 2 && |m| == 2 && |s| == 2 && |x| == 3
    requires AllDigits(h) && AllDigits(m) && AllDigits(s) && AllDigits(x) && !IsLineTerminator(sep)
    ensures TimeToMs(h + ":" + m + ":" + s + [sep] + x) ==
      Some(DecimalValue(h) * 3600000 + DecimalValue(m) * 60000 + DecimalValue(s) * 1000 + DecimalValue(x))
  {
    TimestampSlices(h, m, s, sep, x);
    var d := h + ":" + m + ":" + s + [sep] + x;
    assert IsTimestamp(d);
    TimeToMsValue(d);
  }

  /** The millisecond count of a timestamp, with the field weights multiplied out. */
  lemma TimeToMsValue(d: string)
    requires IsTimestamp(d)
    ensures TimeToMs(d) ==
      Some(DecimalValue(d[0..2]) * 3600000 + DecimalValue(d[3..5]) * 60000 + DecimalValue(d[6..8]) * 1000 + DecimalValue(d[9..12]))
  {
    var hours, minutes := DecimalValue(d[0..2]), DecimalValue(d[3..5]);
    assert hours * 60 * 60 * 1000 == hours * 3600000;
    assert minutes * 60 * 1000 == minutes * 60000;
  }

  /** The fields of an assembled timestamp sit at the positions the pattern expects. */
  lemma TimestampSlices(h: string, m: string, s: string, sep: char, x: string)
    requires |h| == 2 && |m| == 2 && |s| == 2 && |x| == 3
    ensures var d := h + ":" + m + ":" + s + [sep] + x;
      && |d| == 12 && d[0..2] == h && d[2] == ':' && d[3..5] == m && d[5] == ':'
      && d[6..8] == s && d[8] == sep && d[9..12] == x
  {
    var clock := h + ":" + m + ":" + s;
    var d := clock + [sep] + x;
    assert d[..8] == clock && d[9..12] == x;
    assert clock == h + ":" + (m + ":" + s);
    SplitAtColon(h, m + ":" + s);
    SplitAtColon(m, s);
    assert d[0..2] == clock[0..2];
    assert d[3..5] == clock[3..5];
    assert d[6..8] == clock[6..8];
  }

  /**
   * Round trip through both directions of the codec: a timecode with a
   * two-digit hours field, extended by ".000", parses back to the rounded
   * count in milliseconds.
   */
  lemma TimecodeParsesBack(ms: nat)
    requires RoundHalfUp(ms) < 100 * 3600
    ensures TimeToMs(MsToTimecode(ms) + ".000") == Some(RoundHalfUp(ms) * 1000)
  {
    var t := RoundHalfUp(ms);
    var hours, minutes, seconds := t / 3600, t / 60 % 60, t % 60;
    ClockFields(t);
    var h, m, s := Pad2(hours), Pad2(minutes), Pad2(seconds);
    assert MsToTimecode(ms) + ".000" == h + ":" + m + ":" + s + ['.'] + "000";
    assert DecimalValue(h) == hours by { DecimalValueOfPad2(hours); }
    assert DecimalValue(m) == minutes by { DecimalValueOfPad2(minutes); }
    assert DecimalValue(s) == seconds by { DecimalValueOfPad2(seconds); }
    assert DecimalValue("000") == 0 by {
      assert "000"[..2] == "00" && "00"[..1] == "0" && "0"[..0] == [];
    }
    TimeToMsOfFields(h, m, s, '.', "000");
  }

  /**
   * The other round trip: a timestamp whose minutes and seconds are below 60
   * and whose milliseconds are below 500 formats back to its own first eight
   * characters.
   */
  lemma TimestampFormatsBack(d: string)
    requires IsTimestamp(d)
    requires DecimalValue(d[3..5]) < 60 && DecimalValue(d[6..8]) < 60 && DecimalValue(d[9..12]) < 500
    ensures MsToTimecode(TimeToMs(d).value) == d[..8]
  {
    var hh, mm, ss, mmm := DecimalValue(d[0..2]), DecimalValue(d[3..5]), DecimalValue(d[6..8]), DecimalValue(d[9..12]);
    var ms := TimeToMs(d).value;
    var t := hh * 3600 + mm * 60 + ss;
    assert ms == t * 1000 + mmm by { TimeToMsValue(d); }
    assert RoundHalfUp(ms) == t;
    ClockOfFields(t, hh, mm, ss);
    assert MsToTimecode(ms) == Pad2(hh) + ":" + Pad2(mm) + ":" + Pad2(ss);
    assert Pad2(hh) == d[0..2] by { Pad2OfTwoDigits(d[0..2]); }
    assert Pad2(mm) == d[3..5] by { Pad2OfTwoDigits(d[3..5]); }
    assert Pad2(ss) == d[6..8] by { Pad2OfTwoDigits(d[6..8]); }
    assert d[..8] == d[0..2] + ":" + d[3..5] + ":" + d[6..8];
  }

  /** A second count made of hours, minutes below 60 and seconds below 60 splits back into them. */
  lemma ClockOfFields(t: nat, hh: nat, mm: nat, ss: nat)
    requires t == hh * 3600 + mm * 60 + ss && mm < 60 && ss < 60
    ensures t % 60 == ss && t / 60 % 60 == mm && t / 3600 == hh
  {
    assert t == (hh * 60 + mm) * 60 + ss;
    assert t / 60 == hh * 60 + mm;
    assert t / 3600 == (t / 60) / 60;
  }
}
