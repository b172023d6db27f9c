# Song catalogue loader of lite-web-studio, in Dafny

The site plays recorded live performances. At start-up it reads two CSV
tables: the song table (one row per performance) and the playlist table (one
column per predefined playlist). It turns them into the in-memory catalogue
that the rest of the front end shows and filters. This project models that
loader, `src/utils/data.js`, and proves properties of the model:

- the time codec: `time_to_ms` (an `hh:mm:ss.xxx` timestamp to milliseconds,
  or `false`), `ms_to_duration` (`m:ss`) and `ms_to_timecode` (`hh:mm:ss`);
- `parse_ref`, which reads user references of the form `name(UID:digits)`;
- `convert_song`, which turns one table row into a song record. It decides
  audio availability (a five-day embargo after the broadcast date, lifted by
  a backdoor switch), the duration, and the file paths;
- `parse_song_csv`: it refills the global song list, sorts it with the
  source's comparator and appends the four filter facets (status, language,
  artist, month);
- `parse_playlist_csv`: it appends one playlist per header column, each
  holding the songs its cells name.

Modules, one file each:

| file | module | models |
|---|---|---|
| `wrappers.dfy` | `Wrappers` | `Option` (JavaScript `false`, `NaN` and `undefined` become `None`) |
| `numerals.dfy` | `Numerals` | decimal digits, `Number.prototype.toString` on integers, `parseInt` |
| `time_codec.dfy` | `TimeCodec` | `time_to_ms`, `Math.round(ms / 1000)`, JavaScript `%`, `ms_to_duration`, `ms_to_timecode` |
| `ref_parser.dfy` | `RefParser` | `parse_ref` and the regular expression it matches |
| `songs.dfy` | `Songs` | the row and song records and `convert_song` |
| `song_order.dfy` | `SongOrder` | the sort comparator and a stable sort using it |
| `facets.dfy` | `Facets` | `Set` insertion order, `String.prototype.split` and the four facets |
| `catalogue.dfy` | `Catalogue` | the global song list, playlists and facets, `parse_song_csv` and `parse_playlist_csv` |
| `examples.dfy` | `Examples` | concrete inputs and outputs of the model |

The pure parts are functions and lemmas. The global objects
`window.AudioLists` and `window.FilterOptions`, which `parse_song_csv` and
`parse_playlist_csv` change in place, are the classes `Catalogue.AudioLists`
and `Catalogue.FilterOptions`. The two parsers are methods with the
source's loops, proved against specification functions
(`SortSongs(ConvertAll(csv))`, `ValueFacet`, `ArtistFacet`, `Playlists`).
The properties of those functions are proved as lemmas.

Decisions:

- Characters are Unicode scalar values (Dafny's `char`), not the UTF-16 code
  units of JavaScript; see "## Left out".
- `\d` is an ASCII digit.
- The regular expression `.` is any character except the four ECMAScript line
  terminators.
- `Math.round(x / 1000)` is written `(x + 500) / 1000` with floor division.
  That is JavaScript's round-half-up, also for negative `x`.
- `%` on a negative total keeps the dividend's sign, as in JavaScript.
  A negative duration therefore renders as the source renders it; for
  example -61000 ms gives `"-2:0-1"`.
- The current day and the calendar parsing of `dayjs` are parameters.
  `dayOf` maps a date text to a day number, and `today` is today's day number.
- `utils.str_to_code` is the parameter `code`.
- The backdoor flag `window.meumy.backdoor` is a boolean parameter.
- A comparator result of `NaN` is read as 0, which is what
  `Array.prototype.sort` does with it.

Two details of the code decide the model:

- The comparator is written `(s2, s1) => …` (src/utils/data.js:42), so a
  negative result puts `s2`, the first argument, first. Every key is
  therefore descending: date, then `str_to_code(bv)`, then `p`, then the
  start offset. The higher part number and the later start come first. The
  comment at src/utils/data.js:41 reads 按时间降序 ("by time, descending").
  `Examples.OrderExample` states this.
- An end time of 0 ms counts as missing, because src/utils/data.js:114 tests
  `if (record_end_ms)`, which is false for 0.

## Model

| member | source | states |
|---|---|---|
| `Numerals.NatToString` | src/utils/data.js:169 | the decimal text of a natural: digits only, no leading zero except for 0 itself, one digit exactly below 10 |
| `Numerals.DecimalValueOfNatToString` | src/utils/data.js:169-171 | the text `toString` gives reads back as the same number |
| `Numerals.NatToStringOfDecimalValue` | src/utils/data.js:169-171 | a digit text without a leading zero is the `toString` of its value |
| `Numerals.Pad2` | src/utils/data.js:176-186 | the zero-padded field of the timecode: digits only, at least two, exactly two below 100 |
| `Numerals.DecimalValueOfPad2` | src/utils/data.js:176-186 | a padded field reads back as the number it was made from |
| `Numerals.Pad2OfTwoDigits` | src/utils/data.js:155-159 | any two-digit field of a timestamp is the padded form of its own value |
| `Numerals.TrimStart` | src/utils/data.js:94 | `parseInt` skips leading white space: the result is a suffix of the input that does not start with white space, and every character dropped before it is white space |
| `Numerals.TrimStartSkips` | src/utils/data.js:94 | white space in front of a text that does not start with white space is exactly what is skipped |
| `Numerals.ParseInt` | src/utils/data.js:94 | `parseInt` of the part cell: the empty cell is `NaN` |
| `Numerals.MagnitudeDecimal` | src/utils/data.js:94 | a run of decimal digits ended by a non-digit (outside the `0x` prefix) reads as the value of the digits; the tail is ignored |
| `Numerals.ParseIntParts` | src/utils/data.js:94 | `parseInt` is white space, then an optional sign, then a magnitude: `NaN` when the magnitude is, otherwise the magnitude negated exactly after `-` |
| `Numerals.ParseIntDecimal` | src/utils/data.js:94 | white space, an optional sign, decimal digits and any tail not starting with a digit give the signed value of the digits (so " 3", "03" and "3a" are all 3) |
| `Numerals.ParseIntNaN` | src/utils/data.js:94 | outside the hexadecimal case, the result is `NaN` if and only if no decimal digit follows the white space and optional sign |
| `Numerals.IntToString` | src/utils/data.js:169-171 | `toString` of an integer: its meaning is carried by `ParseIntOfIntToString`, which reads every such text back to the integer |
| `Numerals.ParseIntOfIntToString` | src/utils/data.js:94 | `parseInt` reads the decimal text of every integer back to that integer |
| `TimeCodec.IsTimestamp` | src/utils/data.js:155 | the pattern `^(\d{2}):(\d{2}):(\d{2}).(\d{3})$`, position by position with `.` any character but a line terminator; `TimeToMsOfFields` shows every text of that shape is accepted |
| `TimeCodec.TimeToMs` | src/utils/data.js:152-163 | the result is a number exactly when the text matches `^\d\d:\d\d:\d\d.\d\d\d$` |
| `TimeCodec.RoundHalfUp` | src/utils/data.js:167 | `Math.round(ms / 1000)`: the nearest second, in the half-open interval of width one around it |
| `TimeCodec.JsRem60` | src/utils/data.js:168 | JavaScript `% 60`: below 60 in magnitude, with the sign of the dividend, congruent to it |
| `TimeCodec.MsToDuration` | src/utils/data.js:165-172 | `ms_to_duration` is at least four characters, the shortest being `m:ss` |
| `TimeCodec.MsToTimecode` | src/utils/data.js:174-187 | `ms_to_timecode` is at least eight characters, exactly eight below 100 hours |
| `TimeCodec.DurationFields` | src/utils/data.js:165-172 | for a non-negative input: minutes without leading zero, a colon, two-digit seconds below 60, and minutes·60 + seconds is the rounded second count |
| `TimeCodec.NegativeDuration` | src/utils/data.js:167-171 | for a negative rounded input the text is the floored minutes, then `00` or `0` followed by the negative remainder |
| `TimeCodec.TimecodeFields` | src/utils/data.js:174-187 | hours of two or more digits, minutes and seconds of two digits below 60, adding up to the rounded second count |
| `TimeCodec.TimeToMsOfFields` | src/utils/data.js:155-161 | a text of two digits, colon, two digits, colon, two digits, any non-line-terminator character and three digits parses to hours·3600000 + minutes·60000 + seconds·1000 + milliseconds |
| `TimeCodec.TimecodeParsesBack` | src/utils/data.js:152-187 | below 100 hours, a timecode with `.000` appended parses back to the rounded count in milliseconds |
| `TimeCodec.TimestampFormatsBack` | src/utils/data.js:152-187 | a timestamp with minutes and seconds below 60 and milliseconds below 500 formats back to its first eight characters |
| `RefParser.DigitRunStart` | src/utils/data.js:141 | the start of the longest run of digits ending at a position |
| `RefParser.ParseRef` | src/utils/data.js:139-150 | a parsed reference is well formed and formats back to the input text |
| `RefParser.ParseFormatRef` | src/utils/data.js:139-150 | every well-formed reference (name free of line terminators and non-empty, uid of digits) parses back to itself |
| `RefParser.ParseRefMatchesExactly` | src/utils/data.js:141-149 | the parse succeeds exactly when the text is `name(UID:digits)` for some well-formed reference |
| `Songs.StartOrZero` | src/utils/data.js:58 | an unparsable start time (`false`) counts as 0 ms in arithmetic, as at data.js:58, 95 and 115; `UnparsedStartTimecode` states the consequence for the timecode |
| `Songs.DisplayName` | src/utils/data.js:98 | the song name, followed by the Chinese name in full-width brackets when there is one; `DisplayNameParts` splits it back |
| `Songs.HasEnd` | src/utils/data.js:113-114 | the truthiness test `if (record_end_ms)`: the end time parses and is not 0 ms; `SongDuration` states the placeholder exactly when it fails |
| `Songs.Availability` | src/utils/data.js:100-109 | audio is available exactly when the flag is `TRUE` and the embargo is over or the backdoor is open |
| `Songs.SongDuration` | src/utils/data.js:110-116 | the placeholder `--:--` exactly when there is no audio or no usable end time, otherwise the duration from start to end |
| `Songs.ConvertSong` | src/utils/data.js:85-137 | every field of the song record: display name, record, days before release, availability, duration, audio paths, references, copied cells |
| `Songs.PlaceholderIsNoDuration` | src/utils/data.js:111-115 | no duration ever renders as the placeholder, so the placeholder always means there is no duration |
| `Songs.Embargo` | src/utils/data.js:106-109 | with the backdoor closed audio is released at five days after the date; opening it frees flagged audio and changes nothing else |
| `Songs.UnparsedStartTimecode` | src/utils/data.js:89-95 | an unparsable start time gives the timecode `00:00:00` |
| `Songs.DisplayNameParts` | src/utils/data.js:98 | the display name is the song name, followed by the Chinese name in full-width brackets when there is one |
| `SongOrder.Compare` | src/utils/data.js:42-61 | the `(s2, s1)` comparator, descending on every key; its meaning is stated by `CompareMeansKeys`, `CompareAntisymmetric` and `NaNPartBreaksOrder` |
| `SongOrder.CompareMeansKeys` | src/utils/data.js:42-61 | on coherent songs the comparator puts `a` first exactly when its (day, source, part, start) keys are lexicographically at least those of `b` |
| `SongOrder.CompareAntisymmetric` | src/utils/data.js:42-61 | swapping the two songs negates the comparator |
| `SongOrder.NaNPartBreaksOrder` | src/utils/data.js:56 | an unreadable part number makes the comparator inconsistent: the song ties with two songs that do not tie |
| `SongOrder.KeysTransitive` | src/utils/data.js:42-61 | the key order is transitive |
| `SongOrder.Insert` | src/utils/data.js:42 | inserting adds exactly the one song |
| `SongOrder.SortSongs` | src/utils/data.js:42-61 | the sort is a permutation of its input |
| `SongOrder.InsertSorted` | src/utils/data.js:42-61 | inserting a song coherent with a sorted list keeps it sorted |
| `SongOrder.SortSongsSorted` | src/utils/data.js:42-61 | when all songs are coherent, the sorted list has every song's keys at least those of every later song |
| `Facets.Dedup` | src/utils/data.js:66 | the elements of a `new Set`, in insertion order and never longer than the input; `DedupElements`, `DedupDistinct` and `DedupFirstOccurrenceOrder` state its contents and order |
| `Facets.DedupElements` | src/utils/data.js:66 | a value is in the `Set` exactly when it occurs in the input |
| `Facets.DedupDistinct` | src/utils/data.js:66 | the `Set` lists no value twice |
| `Facets.DedupFirstOccurrenceOrder` | src/utils/data.js:66 | the `Set` lists values in the order of their first occurrence |
| `Facets.DedupHead` | src/utils/data.js:74 | the first value added is the first value listed |
| `Facets.JoinSplit` | src/utils/data.js:76 | `split(",")` loses nothing: joining the pieces with commas gives the cell back |
| `Facets.Split` | src/utils/data.js:76 | `split(",")` gives at least one piece; `JoinSplit` and `SplitPiecesFree` fix the pieces |
| `Facets.SplitPiecesFree` | src/utils/data.js:76 | no piece of `split(",")` contains a comma |
| `Facets.Statuses` | src/utils/data.js:66 | the status of each song, in list order |
| `Facets.Languages` | src/utils/data.js:71 | the language of each song, in list order |
| `Facets.Month` | src/utils/data.js:81 | `substring(0, 7)`: a prefix of the date, of length 7 when the date is that long |
| `Facets.Months` | src/utils/data.js:81 | the month of each song, in list order |
| `Facets.ValueFacet` | src/utils/data.js:64-72 | a status, language or month facet: `--` then the `Set` of the values; `ValueFacetContents` states its contents |
| `Facets.ArtistFacet` | src/utils/data.js:74-77 | the artist facet: the `Set` seeded with `--` and filled with every performer name; `ArtistFacetContents` states its contents |
| `Facets.ArtistNamesComplete` | src/utils/data.js:75-76 | every comma-separated performer name of every song is collected |
| `Facets.ArtistNamesSound` | src/utils/data.js:75-76 | every collected name is a comma-separated performer name of some song |
| `Facets.ArtistFacetContents` | src/utils/data.js:74-77 | the artist facet starts with `--`, lists nothing twice, and holds exactly `--` and the performer names |
| `Facets.ValueFacetContents` | src/utils/data.js:64-72 | a status, language or month facet is `--` followed by every value once |
| `Catalogue.ConvertAll` | src/utils/data.js:40 | one song per row |
| `Catalogue.ConvertAllAt` | src/utils/data.js:40 | song `i` is the conversion of row `i` |
| `Catalogue.ConvertAllSnoc` | src/utils/data.js:40 | converting one more row appends one more song |
| `Catalogue.ParseSongCsv` | src/utils/data.js:35-83 | the list is refilled with the sorted conversions of all rows, as a permutation, sorted when coherent; each facet is appended with its contents; the playlists are unchanged |
| `Catalogue.PushFacets` | src/utils/data.js:63-82 | each facet gets `--` and its distinct values, the artist facet its `Set` |
| `Catalogue.SortedWhenCoherent` | src/utils/data.js:42-61 | the sorted list is sorted when its songs are coherent |
| `Catalogue.CollectArtists` | src/utils/data.js:74-77 | the nested loops build exactly the artist facet |
| `Catalogue.AddAll` | src/utils/data.js:76 | adding the names of one performer cell to the `Set` gives the `Set` of everything added so far followed by those names |
| `Catalogue.FindSong` | src/utils/data.js:200 | `find`: the first song with the id; none exactly when no song has it or the cell is `undefined` |
| `Catalogue.Cell` | src/utils/data.js:194 | `id[idx]`: the cell, or `undefined` past the end of a short row |
| `Catalogue.Column` | src/utils/data.js:193-195 | the cells of one column below the header, `undefined` past a short row |
| `Catalogue.DropBlank` | src/utils/data.js:196 | blank cells are removed and every other cell is kept as often as it occurs |
| `Catalogue.DropBlankAppend` | src/utils/data.js:196 | filtering a concatenation is the concatenation of the filtered parts, so kept cells stay in their original order |
| `Catalogue.DropBlankCons` | src/utils/data.js:196 | the first cell is dropped exactly when it is blank, and otherwise stays in front of the filtered rest |
| `Catalogue.BindColumn` | src/utils/data.js:197-202 | a playlist is named by its header cell and holds the song found for each non-blank cell |
| `Catalogue.Playlists` | src/utils/data.js:192-203 | one playlist per header column, in column order |
| `Catalogue.ParsePlaylistCsv` | src/utils/data.js:189-204 | the playlists are appended and the song list is unchanged; an empty table throws and changes nothing |
| `Catalogue.PushPlaylists` | src/utils/data.js:192-203 | the loop pushes the playlists one by one: the collection ends as before plus all of them in column order, and the song list is untouched |
| `Examples.TimestampExample` | src/utils/data.js:152-163 | concrete timestamps, including a `,` separator and an unparsable text |
| `Examples.DurationExample` | src/utils/data.js:165-172 | concrete durations, including rounding and a negative input |
| `Examples.TimecodeExample` | src/utils/data.js:174-187 | concrete timecodes |
| `Examples.RefExample` | src/utils/data.js:139-150 | concrete references, including an empty name |
| `Examples.EmbargoExample` | src/utils/data.js:106-116 | a flagged song three days old has two days left, no audio and the placeholder duration; the backdoor releases it |
| `Examples.FacetExample` | src/utils/data.js:64-67 | statuses `A`, `B`, `A` give the facet `--`, `A`, `B` |
| `Examples.OrderExample` | src/utils/data.js:42-61 | the later date first, and on one day and source the higher part first |
| `Examples.PlaylistExample` | src/utils/data.js:189-204 | a blank cell is dropped and an unknown id becomes `undefined` |

## Left out

- `fetch_csv` and `get_song_data`: network I/O and promises. `song_list.get_all` belongs to another file and is not part of this model.
- The CSV reader (`csv-parse`) is not part of this model. The song table arrives as rows of column name to cell, the playlist table as rows of cells.
- `Songs.ConvertSong`: it requires that the table's header names all seventeen columns it reads, so that the CSV reader gives every row every one of them. A missing column is not modelled. Its effects differ by column: a missing start time, reference or cutter column throws (src/utils/data.js:89, 128-129); a missing end time column throws only when the audio is available (src/utils/data.js:113); a missing Chinese name gives the name `"…（undefined）"` (src/utils/data.js:98); a missing part column gives `NaN` (src/utils/data.js:94); a missing audio flag column gives no audio (src/utils/data.js:101).
- `dayjs`: date parsing and the day difference are replaced by the parameters `dayOf` and `today`. An invalid date, which `isBefore` places neither before nor after any date, and whose day difference is `NaN`, is not modelled. Neither is the truncation of `diff` towards zero for a date later than today, where the `dayjs` difference is one more than the difference of day numbers (a partial day counts as none); the availability decision is the same either way, since both counts leave days before release.
- `utils.str_to_code` is the parameter `code`.
- Floating point: numbers are unbounded integers. A `parseInt` result beyond 2^53, which would lose precision, is not modelled.
- Characters outside the Basic Multilingual Plane count as one character, not as two UTF-16 code units. Lone surrogates, which a JavaScript string can hold, cannot be represented.
- `TimeCodec.MsToTimecode`: it is defined for non-negative input only. The source passes it a parsed start time or `false`, that is 0, never a negative number.
- `SongOrder.SortSongs`: sortedness is proved when every part number parses and distinct sources have distinct codes, which is enough to make the comparator consistent. A `NaN` part makes it inconsistent (a `NaN` result is never consistent), and the order `Array.prototype.sort` returns is then implementation-defined; the model returns one insertion sort's order and proves only that it is a permutation. Two different sources with one code can leave the comparator consistent; the order it then defines among such songs is not stated.
- `SongOrder.SortSongs`: stability is not stated as a property.
- `Catalogue.ParsePlaylistCsv`: the thrown `TypeError` becomes the result `false`.
