/**
 * The filter facets `parse_song_csv` derives from the sorted song list:
 * distinct values in the order a JavaScript `Set` keeps (first insertion),
 * the comma split of the performer column, and the month of a date.
 */
module Facets {
  import opened Songs

  /** The filter value meaning "any". */
  const Any := "--"

  /** The elements of a `Set` built from `s`, in insertion order. */
  function Dedup<T(==)>(s: seq<T>): (r: seq<T>)
    ensures |r| <= |s|
  {
    if s == [] then []
    else
      var d := Dedup(s[..|s| - 1]);
      if s[|s| - 1] in d then d else d + [s[|s| - 1]]
  }

  predicate Distinct<T(==)>(s: seq<T>) {
    forall i, j :: 0 <= i < j < |s| ==> s[i] != s[j]
  }

  /** The index of the first occurrence of `x` in `s`. */
  function FirstIndex<T(==)>(s: seq<T>, x: T): (k: nat)
    requires x in s
    ensures k < |s| && s[k] == x && x !in s[..k]
  {
    if s[0] == x then 0
    else
      var k := FirstIndex(s[1..], x);
      assert s[1..][..k] == s[1..k + 1];
      k + 1
  }

  /** A value is in the set exactly when it occurs in the input. */
  lemma {:induction false} DedupElements<T>(s: seq<T>, x: T)
    ensures x in Dedup(s) <==> x in s
  {
    if s != [] {
      var p := s[..|s| - 1];
      DedupElements(p, x);
      assert s == p + [s[|s| - 1]];
    }
  }

  /** No value is listed twice. */
  lemma {:induction false} DedupDistinct<T>(s: seq<T>)
    ensures Distinct(Dedup(s))
  {
    if s != [] {
      var p := s[..|s| - 1];
      DedupDistinct(p);
      DedupElements(p, s[|s| - 1]);
    }
  }

  /** Values are listed in the order of their first occurrence in the input. */
  lemma {:induction false} DedupFirstOccurrenceOrder<T>(s: seq<T>, i: nat, j: nat)
    requires i < j < |Dedup(s)|
    ensures Dedup(s)[i] in s && Dedup(s)[j] in s
    ensures FirstIndex(s, Dedup(s)[i]) < FirstIndex(s, Dedup(s)[j])
  {
    var p := s[..|s| - 1];
    var d := Dedup(p);
    var r := Dedup(s);
    DedupElements(s, r[i]);
    DedupElements(s, r[j]);
    DedupElements(p, r[i]);
    assert s == p + [s[|s| - 1]];
    if j < |d| {
      assert r[i] == d[i] && r[j] == d[j];
      DedupFirstOccurrenceOrder(p, i, j);
      DedupElements(p, r[j]);
      FirstIndexPrefix(p, s, r[i]);
      FirstIndexPrefix(p, s, r[j]);
    } else {
      // r[j] is the last element of s, new to the prefix
      DedupElements(p, s[|s| - 1]);
      assert r[j] == s[|s| - 1] && r[j] !in p;
      assert r[i] == d[i];
      DedupElements(p, r[i]);
      FirstIndexPrefix(p, s, r[i]);
    }
  }

  lemma FirstIndexPrefix<T>(p: seq<T>, s: seq<T>, x: T)
    requires p <= s && x in p
    ensures x in s && FirstIndex(s, x) == FirstIndex(p, x)
  {
    var k := FirstIndex(p, x);
    assert s[k] == x;
    assert s[..k] == p[..k];
  }

  // ------------------------------------------------------------ split

  /** `s.split(sep)` for a one-character separator: the pieces between separators. */
  function Split(s: string, sep: char): (parts: seq<string>)
    ensures |parts| >= 1
  {
    if s == [] then [""]
    else
      var parts := Split(s[..|s| - 1], sep);
      var last := s[|s| - 1];
      if last == sep then parts + [""]
      else parts[..|parts| - 1] + [parts[|parts| - 1] + [last]]
  }

  /** `parts.join(sep)`. */
  function Join(parts: seq<string>, sep: char): string
    requires |parts| >= 1
  {
    if |parts| == 1 then parts[0] else Join(parts[..|parts| - 1], sep) + [sep] + parts[|parts| - 1]
  }

  /** Splitting loses nothing: the pieces joined by the separator give the text back. */
  lemma {:induction false} JoinSplit(s: string, sep: char)
    ensures Join(Split(s, sep), sep) == s
  {
    if s != [] {
      var p := s[..|s| - 1];
      var last := s[|s| - 1];
      assert s == p + [last];
      var parts := Split(p, sep);
      var n := |parts|;
      JoinSplit(p, sep);
      if last == sep {
        var q := parts + [""];
        assert q[..n] == parts;
        assert Join(q, sep) == Join(parts, sep) + [sep] + "";
      } else {
        var q := parts[..n - 1] + [parts[n - 1] + [last]];
        if n == 1 {
          assert Join(q, sep) == parts[0] + [last];
        } else {
          assert q[..n - 1] == parts[..n - 1];
          assert Join(q, sep) == Join(parts[..n - 1], sep) + [sep] + (parts[n - 1] + [last]);
          assert Join(parts, sep) == Join(parts[..n - 1], sep) + [sep] + parts[n - 1];
        }
      }
    }
  }

  /** No piece contains the separator. */
  lemma {:induction false} SplitPiecesFree(s: string, sep: char, i: nat)
    requires i < |Split(s, sep)|
    ensures sep !in Split(s, sep)[i]
  {
    if s != [] {
      var p := s[..|s| - 1];
      var parts := Split(p, sep);
      if s[|s| - 1] == sep {
        if i < |parts| {
          SplitPiecesFree(p, sep, i);
        }
      } else {
        SplitPiecesFree(p, sep, i);
        if i == |parts| - 1 {
          assert Split(s, sep)[i] == parts[i] + [s[|s| - 1]];
        } else {
          assert Split(s, sep)[i] == parts[i];
        }
      }
    }
  }

  // ------------------------------------------------------------ the facets

  function Statuses(songs: seq<Song>): (r: seq<string>)
    ensures |r| == |songs| && forall i :: 0 <= i < |songs| ==> r[i] == songs[i].status
  {
    seq(|songs|, i requires 0 <= i < |songs| => songs[i].status)
  }

  function Languages(songs: seq<Song>): (r: seq<string>)
    ensures |r| == |songs| && forall i :: 0 <= i < |songs| ==> r[i] == songs[i].language
  {
    seq(|songs|, i requires 0 <= i < |songs| => songs[i].language)
  }

  /** `date.substring(0, 7)`: the `YYYY-MM` part of a date; a shorter text is kept whole. */
  function Month(date: string): (m: string)
    ensures |m| <= 7 && m <= date
    ensures |date| >= 7 ==> |m| == 7
  {
    if |date| >= 7 then date[..7] else date
  }

  function Months(songs: seq<Song>): (r: seq<string>)
    ensures |r| == |songs| && forall i :: 0 <= i < |songs| ==> r[i] == Month(songs[i].date)
  {
    seq(|songs|, i requires 0 <= i < |songs| => Month(songs[i].date))
  }

  /** The performer names of all songs, in order: each performer cell split at commas. */
  function ArtistNames(songs: seq<Song>): seq<string> {
    if songs == [] then [] else ArtistNames(songs[..|songs| - 1]) + Split(songs[|songs| - 1].artist, ',')
  }

  /** The artist facet: a `Set` seeded with "--" to which every performer name is added. */
  function ArtistFacet(songs: seq<Song>): seq<string> {
    Dedup([Any] + ArtistNames(songs))
  }

  /** A facet the source builds as "--" followed by the distinct values. */
  function ValueFacet(values: seq<string>): seq<string> {
    [Any] + Dedup(values)
  }

  lemma {:induction false} ArtistNamesComplete(songs: seq<Song>, k: nat, name: string)
    requires k < |songs| && name in Split(songs[k].artist, ',')
    ensures name in ArtistNames(songs)
  {
    if k < |songs| - 1 {
      assert songs[..|songs| - 1][k] == songs[k];
      ArtistNamesComplete(songs[..|songs| - 1], k, name);
    }
  }

  lemma {:induction false} ArtistNamesSound(songs: seq<Song>, name: string)
    requires name in ArtistNames(songs)
    ensures exists k :: 0 <= k < |songs| && name in Split(songs[k].artist, ',')
  {
    var p := songs[..|songs| - 1];
    if name in ArtistNames(p) {
      ArtistNamesSound(p, name);
      var k :| 0 <= k < |p| && name in Split(p[k].artist, ',');
      assert songs[k] == p[k];
    }
  }

  /**
   * The artist facet starts with "--", lists nothing twice ("--" included),
   * and holds exactly the comma-separated performer names beside it.
   */
  lemma ArtistFacetContents(songs: seq<Song>, name: string)
    ensures |ArtistFacet(songs)| >= 1 && ArtistFacet(songs)[0] == Any
    ensures Distinct(ArtistFacet(songs))
    ensures name in ArtistFacet(songs) <==>
      name == Any || exists k :: 0 <= k < |songs| && name in Split(songs[k].artist, ',')
  {
    var s := [Any] + ArtistNames(songs);
    DedupDistinct(s);
    DedupElements(s, name);
    DedupHead(s);
    if name in ArtistNames(songs) {
      ArtistNamesSound(songs, name);
    }
    if exists k :: 0 <= k < |songs| && name in Split(songs[k].artist, ',') {
      var k :| 0 <= k < |songs| && name in Split(songs[k].artist, ',');
      ArtistNamesComplete(songs, k, name);
    }
  }

  /** The first element of the input is the first element of the set. */
  lemma {:induction false} DedupHead<T>(s: seq<T>)
    requires |s| >= 1
    ensures |Dedup(s)| >= 1 && Dedup(s)[0] == s[0]
  {
    if |s| > 1 {
      var p := s[..|s| - 1];
      DedupHead(p);
    }
  }

  /**
   * The status, language and month facets: "--", then every value once, in
   * first-occurrence order. The values themselves are not checked against
   * "--", so a value "--" in the data shows up a second time.
   */
  lemma ValueFacetContents(values: seq<string>, x: string)
    ensures var f := ValueFacet(values);
      && f[0] == Any && Distinct(f[1..])
      && (x in f[1..] <==> x in values)
  {
    DedupDistinct(values);
    DedupElements(values, x);
    assert ValueFacet(values)[1..] == Dedup(values);
  }
}
