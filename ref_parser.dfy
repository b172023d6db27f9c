/**
 * The attribution parser `parse_ref`: a contributor written as
 * `name(UID:digits)` becomes a `{name, uid}` pair.
 */
module RefParser {
  import opened Wrappers
  import opened Numerals

  datatype Ref = Ref(name: string, uid: string)

  predicate NoLineTerminator(s: string) {
    forall i :: 0 <= i < |s| ==> !IsLineTerminator(s[i])
  }

  /**
   * What `^(.+)\(UID:(\d+)\)$` can capture: a non-empty name of characters
   * that `.` matches, and a non-empty run of ASCII digits.
   */
  predicate WellFormed(r: Ref) {
    |r.name| >= 1 && NoLineTerminator(r.name) && |r.uid| >= 1 && AllDigits(r.uid)
  }

  /** The attribution text a pair is written as. */
  function FormatRef(r: Ref): string {
    r.name + "(UID:" + r.uid + ")"
  }

  /** The start of the longest run of digits that ends just before index `end`. */
  function DigitRunStart(s: string, end: nat): (j: nat)
    requires end <= |s|
    ensures j <= end && AllDigits(s[j..end])
    ensures j > 0 ==> !IsDigit(s[j - 1])
  {
    if end > 0 && IsDigit(s[end - 1]) then
      var j := DigitRunStart(s, end - 1);
      assert s[j..end] == s[j..end - 1] + [s[end - 1]];
      j
    else end
  }

  /**
   * `parse_ref`: the end of the text must be `(UID:` + digits + `)`, with at
   * least one character in front; the digits are the maximal run before the
   * closing parenthesis, which is the only split the pattern can take.
   * `None` is the source's `false`.
   */
  function ParseRef(s: string): (r: Option<Ref>)
    ensures r.Some? ==> WellFormed(r.value) && FormatRef(r.value) == s
  {
    if |s| < 1 || s[|s| - 1] != ')' then None
    else
      var j := DigitRunStart(s, |s| - 1);
      if j == |s| - 1 || j < 6 || s[j - 5..j] != "(UID:" || !NoLineTerminator(s[..j - 5]) then None
      else
        assert s == s[..j - 5] + s[j - 5..j] + s[j..|s| - 1] + [s[|s| - 1]];
        Some(Ref(s[..j - 5], s[j..|s| - 1]))
  }

  lemma {:induction false} DigitRunStartIs(s: string, end: nat, j: nat)
    requires j <= end <= |s| && AllDigits(s[j..end])
    requires j > 0 ==> !IsDigit(s[j - 1])
    ensures DigitRunStart(s, end) == j
    decreases end - j
  {
    if end > j {
      assert IsDigit(s[j..end][end - 1 - j]);
      assert s[j..end - 1] == s[j..end][..end - 1 - j];
      DigitRunStartIs(s, end - 1, j);
    }
  }

  /** Cutting `a + m + u + ")"` back into its pieces. */
  lemma Pieces(a: string, m: string, u: string, s: string)
    requires s == a + m + u + ")"
    ensures |s| == |a| + |m| + |u| + 1 && s[|s| - 1] == ')'
    ensures s[..|a|] == a && s[|a|..|a| + |m|] == m && s[|a| + |m|..|s| - 1] == u
  {
  }

  /** Every well-formed pair is recovered from its attribution text. */
  lemma ParseFormatRef(r: Ref)
    requires WellFormed(r)
    ensures ParseRef(FormatRef(r)) == Some(r)
  {
    var s := FormatRef(r);
    var n := |r.name|;
    Pieces(r.name, "(UID:", r.uid, s);
    assert s[n + 4] == s[n..n + 5][4] == ':';
    DigitRunStartIs(s, |s| - 1, n + 5);
    var j := DigitRunStart(s, |s| - 1);
    assert j == n + 5 && j != |s| - 1 && j >= 6;
    assert s[j - 5..j] == "(UID:";
    assert s[..j - 5] == r.name;
    assert s[j..|s| - 1] == r.uid;
  }

  /** `parse_ref` matches exactly the texts that some well-formed pair is written as. */
  lemma ParseRefMatchesExactly(s: string)
    ensures ParseRef(s).Some? <==> exists r :: WellFormed(r) && FormatRef(r) == s
  {
    if exists r :: WellFormed(r) && FormatRef(r) == s {
      var r :| WellFormed(r) && FormatRef(r) == s;
      ParseFormatRef(r);
    }
  }
}
