/** Worked instances of the codec, the parser and the comparator. */
module Examples {
  import opened Wrappers
  import opened Numerals
  import opened TimeCodec
  import opened RefParser
  import opened Songs
  import opened SongOrder
  import opened Catalogue
  import opened Facets

  lemma TimestampExample()
    ensures TimeToMs("01:02:03.456") == Some(3723456)
    ensures TimeToMs("01:02:03,456") == Some(3723456)
    ensures TimeToMs("bad") == None
  {
    assert "01:02:03.456" == "01" + ":" + "02" + ":" + "03" + ['.'] + "456";
    assert "01:02:03,456" == "01" + ":" + "02" + ":" + "03" + [','] + "456";
    SeparatorExample('.');
    SeparatorExample(',');
    assert !IsTimestamp("bad");
  }

  lemma SeparatorExample(sep: char)
    requires sep == '.' || sep == ','
    ensures TimeToMs("01" + ":" + "02" + ":" + "03" + [sep] + "456") == Some(3723456)
  {
    assert DecimalValue("01") == 1 by { TwoDigitValue("01"); }
    assert DecimalValue("02") == 2 by { TwoDigitValue("02"); }
    assert DecimalValue("03") == 3 by { TwoDigitValue("03"); }
    assert DecimalValue("456") == 456 by { ThreeDigitValue("456"); }
    TimeToMsOfFields("01", "02", "03", sep, "456");
  }

  lemma TwoDigitValue(s: string)
    requires |s| == 2 && AllDigits(s)
    ensures DecimalValue(s) == 10 * DigitValue(s[0]) + DigitValue(s[1])
  {
    var p := s[..1];
    assert p[..0] == [] && p[0] == s[0];
    assert DecimalValue(p) == DigitValue(s[0]);
    assert DecimalValue(s) == 10 * DecimalValue(p) + DigitValue(s[1]);
  }

  lemma ThreeDigitValue(s: string)
    requires |s| == 3 && AllDigits(s)
    ensures DecimalValue(s) == 100 * DigitValue(s[0]) + 10 * DigitValue(s[1]) + DigitValue(s[2])
  {
    var p := s[..2];
    TwoDigitValue(p);
    assert p[0] == s[0] && p[1] == s[1];
    assert DecimalValue(s) == 10 * DecimalValue(p) + DigitValue(s[2]);
  }

  lemma DurationExample()
    ensures MsToDuration(65000) == "1:05"
    ensures MsToDuration(64499) == "1:04"
    ensures MsToDuration(-61000) == "-2:0-1"
  {
    assert MsToDuration(65000) == "1:05" by {
      assert RoundHalfUp(65000) == 65 && JsRem60(65) == 5;
      assert NatToString(1) == "1" && NatToString(5) == "5";
    }
    assert MsToDuration(64499) == "1:04" by {
      assert RoundHalfUp(64499) == 64 && JsRem60(64) == 4;
      assert NatToString(1) == "1" && NatToString(4) == "4";
    }
    assert MsToDuration(-61000) == "-2:0-1" by {
      assert RoundHalfUp(-61000) == -61 && JsRem60(-61) == -1;
      assert NatToString(2) == "2" && NatToString(1) == "1";
    }
  }

  lemma TimecodeExample()
    ensures MsToTimecode(3661000) == "01:01:01"
    ensures MsToTimecode(0) == "00:00:00"
  {
    assert MsToTimecode(3661000) == "01:01:01" by {
      assert RoundHalfUp(3661000) == 3661;
      assert Pad2(1) == "01";
    }
    TimecodeOfZero();
  }

  lemma RefExample()
    ensures ParseRef("Alice(UID:123)") == Some(Ref("Alice", "123"))
    ensures ParseRef("no-uid") == None
    ensures ParseRef("(UID:123)") == None
  {
    ParseFormatRef(Ref("Alice", "123"));
    assert FormatRef(Ref("Alice", "123")) == "Alice(UID:123)";
    var s := "(UID:123)";
    assert DigitRunStart(s, 8) == 5 by {
      assert s[5..8] == "123";
      DigitRunStartIs(s, 8, 5);
    }
  }

  /**
   * Later broadcasts come first, and within one day and one source the higher
   * part number comes first (every key of the comparator is descending).
   */
  lemma OrderExample(a: Song, b: Song, dayOf: string -> int, code: string -> int)
    requires a.record.bv == b.record.bv
    requires a.record.p == Some(2) && b.record.p == Some(1)
    ensures dayOf(a.date) > dayOf(b.date) ==> Compare(a, b, dayOf, code) < 0
    ensures dayOf(a.date) == dayOf(b.date) ==> Compare(a, b, dayOf, code) < 0 && Compare(b, a, dayOf, code) > 0
  {
  }

  /** A column `["p1", "", "p3"]` with only `p1` known binds to `[p1's song, undefined]`. */
  lemma PlaylistExample(song: Song)
    requires song.id == "p1"
    ensures var p := BindColumn([["mix"], ["p1"], [""], ["p3"]], 0, [song]);
      p.name == "mix" && |p.list| == 2 && p.list[0] == Some(song) && p.list[1] == None
  {
    ColumnExample();
    FindSongExample(song);
  }

  lemma ColumnExample()
    ensures DropBlank(Column([["mix"], ["p1"], [""], ["p3"]], 0)) == [Some("p1"), Some("p3")]
  {
    assert Column([["mix"], ["p1"], [""], ["p3"]], 0) == [Some("p1"), Some(""), Some("p3")];
    DropBlankExample();
  }

  lemma FindSongExample(song: Song)
    requires song.id == "p1"
    ensures FindSong([song], Some("p1")) == Some(song)
    ensures FindSong([song], Some("p3")) == None
  {
    assert song.id[1] != "p3"[1];
  }

  lemma DropBlankExample()
    ensures DropBlank([Some("p1"), Some(""), Some("p3")]) == [Some("p1"), Some("p3")]
  {
    var col := [Some("p1"), Some(""), Some("p3")];
    assert col[..2] == [Some("p1"), Some("")];
    assert col[..2][..1] == [Some("p1")];
    assert col[..2][..1][..0] == [];
    assert DropBlank(col[..2][..1]) == [Some("p1")];
    assert DropBlank(col[..2]) == [Some("p1")];
  }

  /**
   * A song three days old with the audio flag set is still embargoed for two
   * days; with the backdoor open its audio is available.
   */
  lemma EmbargoExample(row: Row, dayOf: string -> int)
    requires HasColumns(row) && row[HasAudioFlag] == "TRUE"
    ensures var today := dayOf(row[Date]) + 3;
      && ConvertSong(row, today, false, dayOf).daysBeforeAvailable == 2
      && !ConvertSong(row, today, false, dayOf).haveAudio
      && ConvertSong(row, today, false, dayOf).duration == DurationPlaceholder
      && ConvertSong(row, today, true, dayOf).haveAudio
  {
  }

  /** Statuses `["A", "B", "A"]` give the facet `["--", "A", "B"]`. */
  lemma FacetExample()
    ensures ValueFacet(["A", "B", "A"]) == ["--", "A", "B"]
  {
    var s := ["A", "B", "A"];
    assert s[..2] == ["A", "B"] && s[..2][..1] == ["A"] && s[..2][..1][..0] == [];
    assert Dedup(["A"]) == ["A"];
    assert Dedup(["A", "B"]) == ["A", "B"];
    assert Dedup(s) == ["A", "B"];
  }
}
