/**
 * The row normaliser `convert_song`: one row of the song table, already split
 * into columns by the CSV reader, becomes one song record.
 */
module Songs {
  import opened Wrappers
  import opened Numerals
  import opened TimeCodec
  import opened RefParser

  /** A row read with `columns: true`: column name to cell text. */
  type Row = map<string, string>

  /** The columns `convert_song` reads, and the cells they hold. */
  const SongName := "歌名"
  const ChineseName := "中文歌名"
  const Date := "日期"
  const StartTime := "起始时间点"
  const EndTime := "结束时间点"
  const Id := "id"
  const Source := "录播来源"
  const Part := "录播片段编号"
  const HasAudioFlag := "有没有音频"
  const HasSecondFlag := "有没有第二版本"
  const OriginalArtist := "原曲艺术家"
  const Artist := "演唱者"
  const Status := "演唱状态"
  const Language := "语言"
  const Note := "备注"
  const Reference := "参考路灯man"
  const Cutter := "谁切的"

  /** The CSV reader gives every row every header column; the header must name these. */
  predicate HasColumns(row: Row) {
    && SongName in row && ChineseName in row && Date in row && StartTime in row
    && EndTime in row && Id in row && Source in row && Part in row
    && HasAudioFlag in row && HasSecondFlag in row && OriginalArtist in row
    && Artist in row && Status in row && Language in row && Note in row
    && Reference in row && Cutter in row
  }

  /** The CSV's boolean convention: only the exact text "TRUE" is true. */
  predicate IsTrue(cell: string) {
    cell == "TRUE"
  }

  /** Days after the broadcast date before the audio is released. */
  const AvailableDaysLimit := 5

  const DurationPlaceholder := "--:--"

  /** Where in which archived broadcast (`bv`, part `p`) the performance starts. */
  datatype Record = Record(bv: string, p: Option<int>, timecode: string)

  datatype Song = Song(
    date: string,
    record: Record,
    recordStartMs: Option<nat>,
    name: string,
    originalArtist: string,
    artist: string,
    status: string,
    language: string,
    note: string,
    ref: Option<Ref>,
    refCut: Option<Ref>,
    duration: string,
    id: string,
    src: string,
    secondSrc: string,
    haveAudio: bool,
    daysBeforeAvailable: int)

  /**
   * The start offset as a number: `false` (an unparsable start time) is 0 in
   * JavaScript arithmetic, which is how the duration, the timecode and the
   * sort use it.
   */
  function StartOrZero(start: Option<nat>): nat {
    start.GetOr(0)
  }

  /** The song name, with the Chinese name in full-width parentheses when there is one. */
  function DisplayName(songName: string, chineseName: string): string {
    if chineseName != "" then songName + "（" + chineseName + "）" else songName
  }

  /** `time_to_ms` of the end column in a truthy test: a parsed, non-zero count. */
  predicate HasEnd(endCell: string) {
    var end := TimeToMs(endCell);
    end.Some? && end.value != 0
  }

  /**
   * The audio flag after the embargo: a row that marks audio present keeps it
   * only once no days are left before release, unless the backdoor is on.
   */
  function Availability(flag: string, daysBeforeAvailable: int, backdoor: bool): (haveAudio: bool)
    ensures haveAudio <==> IsTrue(flag) && (daysBeforeAvailable <= 0 || backdoor)
  {
    var haveAudio := IsTrue(flag);
    if daysBeforeAvailable > 0 && !backdoor then false else haveAudio
  }

  /**
   * The duration column: end minus start through `ms_to_duration` when the
   * audio is available and the end time parses to a non-zero count, and the
   * placeholder otherwise.
   */
  function SongDuration(haveAudio: bool, endCell: string, start: Option<nat>): (duration: string)
    ensures duration == DurationPlaceholder <==> !(haveAudio && HasEnd(endCell))
    ensures duration != DurationPlaceholder ==>
      duration == MsToDuration(TimeToMs(endCell).value - StartOrZero(start))
  {
    if haveAudio && HasEnd(endCell) then
      var ms := TimeToMs(endCell).value - StartOrZero(start);
      PlaceholderIsNoDuration(ms);
      MsToDuration(ms)
    else DurationPlaceholder
  }

  /**
   * `convert_song`. `today` and `dayOf` are the day numbers `dayjs()` and
   * `dayjs(date)` stand for, and `backdoor` is `window.meumy.backdoor`.
   */
  function ConvertSong(row: Row, today: int, backdoor: bool, dayOf: string -> int): (r: Song)
    requires HasColumns(row)
    ensures r.id == row[Id] && r.date == row[Date]
    ensures r.name == DisplayName(row[SongName], row[ChineseName])
    ensures r.recordStartMs == TimeToMs(row[StartTime])
    ensures r.record == Record(row[Source], ParseInt(row[Part]), MsToTimecode(StartOrZero(r.recordStartMs)))
    ensures r.daysBeforeAvailable == AvailableDaysLimit - (today - dayOf(r.date))
    ensures r.haveAudio <==> IsTrue(row[HasAudioFlag]) && (r.daysBeforeAvailable <= 0 || backdoor)
    ensures r.duration == SongDuration(r.haveAudio, row[EndTime], r.recordStartMs)
    ensures r.src == "/songs/" + r.id + ".mp3"
    ensures r.secondSrc == if IsTrue(row[HasSecondFlag]) then "/treated_songs/" + r.id + ".mp3" else ""
    ensures r.ref == ParseRef(row[Reference]) && r.refCut == ParseRef(row[Cutter])
    ensures r.originalArtist == row[OriginalArtist] && r.artist == row[Artist] && r.note == row[Note]
    ensures r.status == row[Status] && r.language == row[Language]
  {
    var date := row[Date];
    var recordStartMs := TimeToMs(row[StartTime]);
    var songId := row[Id];
    var record := Record(row[Source], ParseInt(row[Part]), MsToTimecode(StartOrZero(recordStartMs)));
    var daysBeforeAvailable := AvailableDaysLimit - (today - dayOf(date));
    var haveAudio := Availability(row[HasAudioFlag], daysBeforeAvailable, backdoor);
    var secondSrc := if IsTrue(row[HasSecondFlag]) then "/treated_songs/" + songId + ".mp3" else "";
    var duration := SongDuration(haveAudio, row[EndTime], recordStartMs);
    Song(date, record, recordStartMs, DisplayName(row[SongName], row[ChineseName]),
         row[OriginalArtist], row[Artist], row[Status], row[Language], row[Note],
         ParseRef(row[Reference]), ParseRef(row[Cutter]),
         duration, songId, "/songs/" + songId + ".mp3", secondSrc, haveAudio, daysBeforeAvailable)
  }

  // ------------------------------------------------------------ properties

  /**
   * No count renders as the placeholder: its second character is a digit
   * (a leading minus sign is followed by the minutes), so "--:--" alone means
   * "duration unknown".
   */
  lemma PlaceholderIsNoDuration(ms: int)
    ensures MsToDuration(ms) != DurationPlaceholder
  {
    var t := RoundHalfUp(ms);
    var r := MsToDuration(ms);
    if t >= 0 {
      assert r[0] == NatToString(t / 60)[0];
      assert IsDigit(r[0]);
    } else {
      assert r[1] == NatToString(-(t / 60))[0];
      assert IsDigit(r[1]);
    }
  }

  /**
   * The embargo: audio that the row marks present is withheld for the first
   * five days after the broadcast date (days 0 to 4), and the backdoor
   * switches the embargo off without touching anything but availability and
   * duration.
   */
  lemma Embargo(row: Row, today: int, dayOf: string -> int)
    requires HasColumns(row)
    ensures var closed, open := ConvertSong(row, today, false, dayOf), ConvertSong(row, today, true, dayOf);
      && (closed.haveAudio <==> IsTrue(row[HasAudioFlag]) && today - dayOf(row[Date]) >= AvailableDaysLimit)
      && (open.haveAudio <==> IsTrue(row[HasAudioFlag]))
      && (closed.haveAudio ==> open == closed)
      && open.(haveAudio := false, duration := DurationPlaceholder) == closed.(haveAudio := false, duration := DurationPlaceholder)
  {
  }

  /** An unparsable start time counts as 0: its timecode is "00:00:00". */
  lemma UnparsedStartTimecode(row: Row, today: int, backdoor: bool, dayOf: string -> int)
    requires HasColumns(row) && !IsTimestamp(row[StartTime])
    ensures ConvertSong(row, today, backdoor, dayOf).record.timecode == "00:00:00"
  {
    var r := ConvertSong(row, today, backdoor, dayOf);
    assert StartOrZero(r.recordStartMs) == 0;
    TimecodeOfZero();
  }

  lemma TimecodeOfZero()
    ensures MsToTimecode(0) == "00:00:00"
  {
    assert RoundHalfUp(0) == 0;
    assert Pad2(0) == "00" by {
      assert NatToString(0) == [DigitChar(0)];
    }
    assert MsToTimecode(0) == Pad2(0) + ":" + Pad2(0) + ":" + Pad2(0);
  }

  /**
   * The display name splits back: with a Chinese name it is the song name,
   * "（", the Chinese name and "）"; without one it is the song name unchanged.
   */
  lemma DisplayNameParts(songName: string, chineseName: string)
    ensures var n := DisplayName(songName, chineseName);
      if chineseName == "" then n == songName
      else && |n| == |songName| + |chineseName| + 2
           && n[..|songName|] == songName
           && n[|songName|] == '（' && n[|n| - 1] == '）'
           && n[|songName| + 1..|n| - 1] == chineseName
  {
  }
}
