/**
 * The collection builder `parse_song_csv` and the playlist binder
 * `parse_playlist_csv`, over the two page-wide containers they update in
 * place (`window.AudioLists` and `window.FilterOptions`).
 */
module Catalogue {
  import opened Wrappers
  import opened Songs
  import opened SongOrder
  import opened Facets

  /** A predefined playlist: entries are songs, or `None` (`undefined`) for an unknown id. */
  datatype Playlist = Playlist(name: string, list: seq<Option<Song>>)

  /** `window.AudioLists`: the song list and the predefined playlists. */
  class AudioLists {
    var songList: seq<Song>
    var songCollection: seq<Playlist>

    constructor ()
      ensures songList == [] && songCollection == []
    {
      songList := [];
      songCollection := [];
    }
  }

  /** `window.FilterOptions`: the values offered by the four filters. */
  class FilterOptions {
    var status: seq<string>
    var language: seq<string>
    var artist: seq<string>
    var month: seq<string>

    constructor ()
      ensures status == [] && language == [] && artist == [] && month == []
    {
      status, language, artist, month := [], [], [], [];
    }
  }

  /** Every row converted, in table order. */
  function ConvertAll(rows: seq<Row>, today: int, backdoor: bool, dayOf: string -> int): (songs: seq<Song>)
    requires forall i :: 0 <= i < |rows| ==> HasColumns(rows[i])
    ensures |songs| == |rows|
  {
    if rows == [] then []
    else ConvertAll(rows[..|rows| - 1], today, backdoor, dayOf) + [ConvertSong(rows[|rows| - 1], today, backdoor, dayOf)]
  }

  /** The song at position `i` is the conversion of row `i`. */
  lemma {:induction false} ConvertAllAt(rows: seq<Row>, i: nat, today: int, backdoor: bool, dayOf: string -> int)
    requires i < |rows| && forall k :: 0 <= k < |rows| ==> HasColumns(rows[k])
    ensures ConvertAll(rows, today, backdoor, dayOf)[i] == ConvertSong(rows[i], today, backdoor, dayOf)
  {
    if i < |rows| - 1 {
      var p := rows[..|rows| - 1];
      assert p[i] == rows[i];
      ConvertAllAt(p, i, today, backdoor, dayOf);
    }
  }

  lemma ConvertAllSnoc(rows: seq<Row>, i: nat, today: int, backdoor: bool, dayOf: string -> int)
    requires i < |rows| && forall k :: 0 <= k < |rows| ==> HasColumns(rows[k])
    ensures ConvertAll(rows[..i + 1], today, backdoor, dayOf)
         == ConvertAll(rows[..i], today, backdoor, dayOf) + [ConvertSong(rows[i], today, backdoor, dayOf)]
  {
    assert rows[..i + 1][..i] == rows[..i];
  }

  /**
   * `parse_song_csv` on an already-read table: the song list is emptied and
   * refilled with the converted rows, sorted, and each facet gets "--" and its
   * values appended. `dayOf` and `code` stand for `dayjs` and
   * `utils.str_to_code`.
   */
  method ParseSongCsv(lists: AudioLists, options: FilterOptions, csv: seq<Row>,
                      today: int, backdoor: bool, dayOf: string -> int, code: string -> int)
    requires forall i :: 0 <= i < |csv| ==> HasColumns(csv[i])
    modifies lists, options
    ensures lists.songList == SortSongs(ConvertAll(csv, today, backdoor, dayOf), dayOf, code)
    ensures |lists.songList| == |csv|
    ensures multiset(lists.songList) == multiset(ConvertAll(csv, today, backdoor, dayOf))
    ensures AllCoherent(lists.songList, code) ==> Sorted(lists.songList, dayOf, code)
    ensures lists.songCollection == old(lists.songCollection)
    ensures options.status == old(options.status) + ValueFacet(Statuses(lists.songList))
    ensures options.language == old(options.language) + ValueFacet(Languages(lists.songList))
    ensures options.artist == old(options.artist) + ArtistFacet(lists.songList)
    ensures options.month == old(options.month) + ValueFacet(Months(lists.songList))
  {
    lists.songList := [];
    for i := 0 to |csv|
      invariant lists.songList == ConvertAll(csv[..i], today, backdoor, dayOf)
      invariant lists.songCollection == old(lists.songCollection)
      invariant unchanged(options)
    {
      var song := ConvertSong(csv[i], today, backdoor, dayOf);
      ConvertAllSnoc(csv, i, today, backdoor, dayOf);
      lists.songList := lists.songList + [song];
    }
    assert csv[..|csv|] == csv;
    var sorted := SortSongs(lists.songList, dayOf, code);
    SortedWhenCoherent(lists.songList, dayOf, code);
    lists.songList := sorted;

    PushFacets(options, sorted);
  }

  /** The facet half of `parse_song_csv`: each facet array gets "--" and its values pushed. */
  method PushFacets(options: FilterOptions, songs: seq<Song>)
    modifies options
    ensures options.status == old(options.status) + ValueFacet(Statuses(songs))
    ensures options.language == old(options.language) + ValueFacet(Languages(songs))
    ensures options.artist == old(options.artist) + ArtistFacet(songs)
    ensures options.month == old(options.month) + ValueFacet(Months(songs))
  {
    AppendFacet(options.status, Statuses(songs));
    options.status := options.status + [Any];
    options.status := options.status + Dedup(Statuses(songs));

    AppendFacet(options.language, Languages(songs));
    options.language := options.language + [Any];
    options.language := options.language + Dedup(Languages(songs));

    var artist := CollectArtists(songs);
    options.artist := options.artist + artist;

    AppendFacet(options.month, Months(songs));
    options.month := options.month + [Any];
    options.month := options.month + Dedup(Months(songs));
  }

  /** Pushing "--" and then the distinct values appends the facet. */
  lemma AppendFacet(facet: seq<string>, values: seq<string>)
    ensures facet + [Any] + Dedup(values) == facet + ValueFacet(values)
  {
  }

  /** Sorting keeps the songs, so coherence of the result is coherence of the input. */
  lemma SortedWhenCoherent(songs: seq<Song>, dayOf: string -> int, code: string -> int)
    ensures AllCoherent(SortSongs(songs, dayOf, code), code) ==> Sorted(SortSongs(songs, dayOf, code), dayOf, code)
  {
    var sorted := SortSongs(songs, dayOf, code);
    if AllCoherent(sorted, code) {
      forall a, b | a in songs && b in songs ensures Coherent(a, b, code) {
        assert a in multiset(sorted) && b in multiset(sorted);
        assert a in sorted && b in sorted;
      }
      SortSongsSorted(songs, dayOf, code);
    }
  }

  /**
   * The artist facet's nested loops: a `Set` seeded with "--", to which every
   * comma-separated name of every performer cell is added in list order.
   */
  method CollectArtists(songs: seq<Song>) returns (artist: seq<string>)
    ensures artist == ArtistFacet(songs)
  {
    artist := [Any];
    ghost var added: seq<string> := [Any];
    assert songs[..0] == [];
    for i := 0 to |songs|
      invariant added == [Any] + ArtistNames(songs[..i])
      invariant artist == Dedup(added)
    {
      var parts := Split(songs[i].artist, ',');
      ArtistNamesSnoc(songs, i);
      artist := AddAll(artist, added, parts);
      added := added + parts;
    }
    assert songs[..|songs|] == songs;
  }

  /** The inner loop: `artist.add(a)` for every name `a` of one performer cell. */
  method AddAll(set0: seq<string>, ghost added: seq<string>, names: seq<string>) returns (artist: seq<string>)
    requires set0 == Dedup(added)
    ensures artist == Dedup(added + names)
  {
    artist := set0;
    ghost var seen := added;
    assert added + names[..0] == added;
    for j := 0 to |names|
      invariant seen == added + names[..j]
      invariant artist == Dedup(seen)
    {
      DedupSnoc(seen, names[j]);
      if names[j] !in artist {
        artist := artist + [names[j]];
      }
      assert names[..j + 1] == names[..j] + [names[j]];
      seen := seen + [names[j]];
    }
    assert names[..|names|] == names;
  }

  /** Adding one more value to a `Set`: listed at the end if it is new. */
  lemma DedupSnoc<T>(s: seq<T>, x: T)
    ensures Dedup(s + [x]) == if x in Dedup(s) then Dedup(s) else Dedup(s) + [x]
  {
    assert (s + [x])[..|s|] == s;
  }

  /** The performer names of one more song follow those of the songs before it. */
  lemma ArtistNamesSnoc(songs: seq<Song>, i: nat)
    requires i < |songs|
    ensures [Any] + ArtistNames(songs[..i + 1]) == [Any] + ArtistNames(songs[..i]) + Split(songs[i].artist, ',')
  {
    assert songs[..i + 1][..i] == songs[..i];
  }

  // ------------------------------------------------------------ playlists

  /** `songs.find(s => s.id === id)`: the first song with that id; `undefined` matches none. */
  function FindSong(songs: seq<Song>, id: Option<string>): (r: Option<Song>)
    ensures r.Some? ==> id.Some? && r.value.id == id.value
    ensures r.Some? ==> exists k :: 0 <= k < |songs| && songs[k] == r.value &&
                                    forall j :: 0 <= j < k ==> songs[j].id != id.value
    ensures r.None? <==> id.None? || forall k :: 0 <= k < |songs| ==> songs[k].id != id.value
  {
    if id.None? || songs == [] then None
    else if songs[0].id == id.value then Some(songs[0])
    else
      var r := FindSong(songs[1..], id);
      assert forall k :: 1 <= k < |songs| ==> songs[k] == songs[1..][k - 1];
      r
  }

  /** `row[idx]`: a cell, or `undefined` past the end of a short row. */
  function Cell(row: seq<string>, idx: nat): Option<string> {
    if idx < |row| then Some(row[idx]) else None
  }

  /** The column below the header row: `csv.map(r => r[idx]).slice(1)`. */
  function Column(csv: seq<seq<string>>, idx: nat): (col: seq<Option<string>>)
    requires csv != []
    ensures |col| == |csv| - 1 && forall k :: 0 <= k < |col| ==> col[k] == Cell(csv[k + 1], idx)
  {
    seq(|csv| - 1, k requires 0 <= k < |csv| - 1 => Cell(csv[k + 1], idx))
  }

  /** `.filter(id => id !== "")`: blank cells dropped, the rest kept in order. */
  function DropBlank(col: seq<Option<string>>): (ids: seq<Option<string>>)
    ensures Some("") !in ids
    ensures |ids| == |col| - multiset(col)[Some("")]
    ensures forall x :: x != Some("") ==> multiset(ids)[x] == multiset(col)[x]
  {
    if col == [] then []
    else
      var rest := DropBlank(col[..|col| - 1]);
      assert col == col[..|col| - 1] + [col[|col| - 1]];
      if col[|col| - 1] == Some("") then rest else rest + [col[|col| - 1]]
  }

  /** Filtering a concatenation filters each part: kept cells keep their relative order. */
  lemma {:induction false} DropBlankAppend(a: seq<Option<string>>, b: seq<Option<string>>)
    ensures DropBlank(a + b) == DropBlank(a) + DropBlank(b)
    decreases |b|
  {
    if b == [] {
      assert a + b == a;
    } else {
      var front, last := b[..|b| - 1], b[|b| - 1];
      assert (a + b)[..|a + b| - 1] == a + front;
      assert (a + b)[|a + b| - 1] == last;
      DropBlankAppend(a, front);
    }
  }

  /** The first cell is dropped when blank and otherwise kept in front of the filtered rest. */
  lemma DropBlankCons(x: Option<string>, rest: seq<Option<string>>)
    ensures DropBlank([x] + rest) == (if x == Some("") then [] else [x]) + DropBlank(rest)
  {
    assert DropBlank([x]) == (if x == Some("") then [] else [x]) by {
      assert [x][..0] == [];
      assert DropBlank([x][..0]) == [];
    }
    DropBlankAppend([x], rest);
  }

  /** Playlist `idx`: named by the header cell, one entry per non-blank cell below it. */
  function BindColumn(csv: seq<seq<string>>, idx: nat, songs: seq<Song>): (p: Playlist)
    requires csv != [] && idx < |csv[0]|
    ensures p.name == csv[0][idx]
    ensures var ids := DropBlank(Column(csv, idx));
      |p.list| == |ids| && forall k :: 0 <= k < |ids| ==> p.list[k] == FindSong(songs, ids[k])
  {
    var ids := DropBlank(Column(csv, idx));
    Playlist(csv[0][idx], seq(|ids|, k requires 0 <= k < |ids| => FindSong(songs, ids[k])))
  }

  /** One playlist per header column, in column order. */
  function Playlists(csv: seq<seq<string>>, songs: seq<Song>): (ps: seq<Playlist>)
    requires csv != []
    ensures |ps| == |csv[0]| && forall idx :: 0 <= idx < |csv[0]| ==> ps[idx] == BindColumn(csv, idx, songs)
  {
    seq(|csv[0]|, idx requires 0 <= idx < |csv[0]| => BindColumn(csv, idx, songs))
  }

  /**
   * `parse_playlist_csv` on an already-read table. An empty table has no
   * header row, and `csv[0].length` throws: `ok` is false and nothing changes.
   */
  method ParsePlaylistCsv(lists: AudioLists, csv: seq<seq<string>>) returns (ok: bool)
    modifies lists
    ensures ok <==> csv != []
    ensures lists.songList == old(lists.songList)
    ensures ok ==> lists.songCollection == old(lists.songCollection) + Playlists(csv, lists.songList)
    ensures !ok ==> lists.songCollection == old(lists.songCollection)
  {
    if csv == [] {
      return false;
    }
    PushPlaylists(lists, Playlists(csv, lists.songList));
    return true;
  }

  /** The loop over the header columns: `song_collection.push` of each playlist in turn. */
  method PushPlaylists(lists: AudioLists, ps: seq<Playlist>)
    modifies lists
    ensures lists.songList == old(lists.songList)
    ensures lists.songCollection == old(lists.songCollection) + ps
  {
    var idx := 0;
    while idx < |ps|
      invariant 0 <= idx <= |ps|
      invariant lists.songList == old(lists.songList)
      invariant lists.songCollection == old(lists.songCollection) + ps[..idx]
    {
      assert ps[..idx + 1] == ps[..idx] + [ps[idx]];
      lists.songCollection := lists.songCollection + [ps[idx]];
      idx := idx + 1;
    }
    assert ps[..idx] == ps;
  }
}
