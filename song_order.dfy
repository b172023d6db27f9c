/**
 * The order of the song list: the comparator `parse_song_csv` hands to
 * `Array.prototype.sort`, and a sort that realises it.
 */
module SongOrder {
  import opened Wrappers
  import opened Songs

  /**
   * The comparator. Its parameters are named `(s2, s1)`, so `a` is `s2` and
   * `b` is `s1`; a negative result puts `a` first. Every key is descending:
   * the broadcast day (`dayOf` stands for `dayjs(date, "YYYY-MM-DD")`), then
   * `str_to_code` of the source (`code`, only when the sources differ), then
   * the part number, then the start offset. A part that `parseInt` could not
   * read is `NaN`: the subtraction yields `NaN`, which the sort reads as 0.
   */
  function Compare(a: Song, b: Song, dayOf: string -> int, code: string -> int): int {
    var d1, d2 := dayOf(b.date), dayOf(a.date);
    if d1 < d2 then -1
    else if d2 < d1 then 1
    else if a.record.bv != b.record.bv then code(b.record.bv) - code(a.record.bv)
    else if a.record.p.None? || b.record.p.None? then 0
    else if a.record.p.value != b.record.p.value then b.record.p.value - a.record.p.value
    else StartOrZero(b.recordStartMs) - StartOrZero(a.recordStartMs)
  }

  /**
   * `a` may stand before `b`: the keys (day, source code, part, start) of `a`
   * are lexicographically at least those of `b`.
   */
  predicate KeysAtLeast(a: Song, b: Song, dayOf: string -> int, code: string -> int) {
    var pa, pb := a.record.p.GetOr(0), b.record.p.GetOr(0);
    var sa, sb := StartOrZero(a.recordStartMs), StartOrZero(b.recordStartMs);
    || dayOf(a.date) > dayOf(b.date)
    || (dayOf(a.date) == dayOf(b.date) &&
        (|| code(a.record.bv) > code(b.record.bv)
         || (code(a.record.bv) == code(b.record.bv) &&
             (pa > pb || (pa == pb && sa >= sb)))))
  }

  /**
   * A sufficient condition for the comparator to be a consistent one on two
   * songs: both part numbers are numbers and `str_to_code` tells their sources
   * apart whenever they differ. (Two sources sharing one code can leave it
   * consistent too; a `NaN` part never does.)
   */
  predicate Coherent(a: Song, b: Song, code: string -> int) {
    && a.record.p.Some? && b.record.p.Some?
    && (a.record.bv != b.record.bv ==> code(a.record.bv) != code(b.record.bv))
  }

  predicate AllCoherent(s: seq<Song>, code: string -> int) {
    forall a, b :: a in s && b in s ==> Coherent(a, b, code)
  }

  /** Every song is at least as high in the order as every song after it. */
  predicate Sorted(s: seq<Song>, dayOf: string -> int, code: string -> int) {
    forall i, j :: 0 <= i < j < |s| ==> KeysAtLeast(s[i], s[j], dayOf, code)
  }

  /** On coherent songs a non-positive comparator result means exactly "keys at least". */
  lemma CompareMeansKeys(a: Song, b: Song, dayOf: string -> int, code: string -> int)
    requires Coherent(a, b, code)
    ensures Compare(a, b, dayOf, code) <= 0 <==> KeysAtLeast(a, b, dayOf, code)
  {
  }

  /** Whatever the songs, swapping the arguments negates the comparator. */
  lemma CompareAntisymmetric(a: Song, b: Song, dayOf: string -> int, code: string -> int)
    ensures Compare(a, b, dayOf, code) == -Compare(b, a, dayOf, code)
  {
  }

  /**
   * Without coherence the comparator is not a consistent one, and
   * `Array.prototype.sort` may then return any permutation: two songs of the
   * same day and source, one with an unreadable part number, compare equal to
   * each other and to both of two songs that themselves compare unequal.
   */
  lemma NaNPartBreaksOrder(a: Song, b: Song, c: Song, dayOf: string -> int, code: string -> int)
    requires dayOf(a.date) == dayOf(b.date) == dayOf(c.date)
    requires a.record.bv == b.record.bv == c.record.bv
    requires a.record.p.None? && b.record.p == Some(2) && c.record.p == Some(1)
    ensures Compare(a, b, dayOf, code) == 0 && Compare(a, c, dayOf, code) == 0
    ensures Compare(b, c, dayOf, code) < 0
  {
  }

  // ------------------------------------------------------------- the sort

  /**
   * Insert `x` in front of the first song it may precede. Putting it before
   * songs that compare equal keeps the sort stable, as the language requires
   * of `Array.prototype.sort`.
   */
  function Insert(x: Song, s: seq<Song>, dayOf: string -> int, code: string -> int): (r: seq<Song>)
    ensures multiset(r) == multiset(s) + multiset{x}
  {
    if s == [] then [x]
    else if Compare(x, s[0], dayOf, code) <= 0 then [x] + s
    else
      assert s == [s[0]] + s[1..];
      [s[0]] + Insert(x, s[1..], dayOf, code)
  }

  /** Insertion sort with the source's comparator. */
  function SortSongs(s: seq<Song>, dayOf: string -> int, code: string -> int): (r: seq<Song>)
    ensures multiset(r) == multiset(s) && |r| == |s|
  {
    if s == [] then []
    else
      assert s == [s[0]] + s[1..];
      Insert(s[0], SortSongs(s[1..], dayOf, code), dayOf, code)
  }

  lemma KeysTransitive(a: Song, b: Song, c: Song, dayOf: string -> int, code: string -> int)
    requires KeysAtLeast(a, b, dayOf, code) && KeysAtLeast(b, c, dayOf, code)
    ensures KeysAtLeast(a, c, dayOf, code)
  {
  }

  lemma {:induction false} InsertSorted(x: Song, s: seq<Song>, dayOf: string -> int, code: string -> int)
    requires Sorted(s, dayOf, code)
    requires forall b :: b in s ==> Coherent(x, b, code)
    ensures Sorted(Insert(x, s, dayOf, code), dayOf, code)
  {
    if s == [] {
    } else if Compare(x, s[0], dayOf, code) <= 0 {
      CompareMeansKeys(x, s[0], dayOf, code);
      HeadBound(x, s, dayOf, code);
      ConsSorted(x, s, dayOf, code);
    } else {
      CompareMeansKeys(x, s[0], dayOf, code);
      CompareAntisymmetric(x, s[0], dayOf, code);
      assert Coherent(s[0], x, code);
      CompareMeansKeys(s[0], x, dayOf, code);
      var rest := s[1..];
      assert forall b :: b in rest ==> b in s;
      InsertSorted(x, rest, dayOf, code);
      assert forall k :: 0 <= k < |rest| ==> KeysAtLeast(s[0], rest[k], dayOf, code) by {
        forall k | 0 <= k < |rest| ensures KeysAtLeast(s[0], rest[k], dayOf, code) {
          assert rest[k] == s[k + 1];
        }
      }
      var t := Insert(x, rest, dayOf, code);
      BoundAfterInsert(s[0], x, rest, t, dayOf, code);
      ConsSorted(s[0], t, dayOf, code);
    }
  }

  /** A song at least as high as the first of a sorted list is at least as high as all of it. */
  lemma HeadBound(a: Song, s: seq<Song>, dayOf: string -> int, code: string -> int)
    requires Sorted(s, dayOf, code) && s != [] && KeysAtLeast(a, s[0], dayOf, code)
    ensures forall k :: 0 <= k < |s| ==> KeysAtLeast(a, s[k], dayOf, code)
  {
    forall k | 0 < k < |s| ensures KeysAtLeast(a, s[k], dayOf, code) {
      KeysTransitive(a, s[0], s[k], dayOf, code);
    }
  }

  /** A song at least as high as every song of a sorted list can go in front of it. */
  lemma ConsSorted(a: Song, t: seq<Song>, dayOf: string -> int, code: string -> int)
    requires Sorted(t, dayOf, code)
    requires forall k :: 0 <= k < |t| ==> KeysAtLeast(a, t[k], dayOf, code)
    ensures Sorted([a] + t, dayOf, code)
  {
    var r := [a] + t;
    forall i, j | 0 <= i < j < |r| ensures KeysAtLeast(r[i], r[j], dayOf, code) {
      assert r[j] == t[j - 1];
      if i > 0 {
        assert r[i] == t[i - 1];
      }
    }
  }

  /** Inserting a lower song keeps a song an upper bound of the list. */
  lemma BoundAfterInsert(a: Song, x: Song, s: seq<Song>, t: seq<Song>, dayOf: string -> int, code: string -> int)
    requires t == Insert(x, s, dayOf, code) && KeysAtLeast(a, x, dayOf, code)
    requires forall k :: 0 <= k < |s| ==> KeysAtLeast(a, s[k], dayOf, code)
    ensures forall k :: 0 <= k < |t| ==> KeysAtLeast(a, t[k], dayOf, code)
  {
    forall k | 0 <= k < |t| ensures KeysAtLeast(a, t[k], dayOf, code) {
      assert t[k] in multiset(s) + multiset{x};
      if t[k] != x {
        assert t[k] in s;
        var m :| 0 <= m < |s| && s[m] == t[k];
      }
    }
  }

  /** With coherent songs the sort puts them in descending key order. */
  lemma {:induction false} SortSongsSorted(s: seq<Song>, dayOf: string -> int, code: string -> int)
    requires AllCoherent(s, code)
    ensures Sorted(SortSongs(s, dayOf, code), dayOf, code)
  {
    if s != [] {
      var rest := SortSongs(s[1..], dayOf, code);
      assert AllCoherent(s[1..], code) by {
        forall a, b | a in s[1..] && b in s[1..] ensures Coherent(a, b, code) {
          assert a in s && b in s;
        }
      }
      SortSongsSorted(s[1..], dayOf, code);
      forall b | b in rest ensures Coherent(s[0], b, code) {
        assert b in multiset(s[1..]);
        assert b in s[1..];
        assert b in s;
      }
      InsertSorted(s[0], rest, dayOf, code);
    }
  }
}
