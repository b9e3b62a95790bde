/** The `java.lang.String` operations the authentication code relies on:
    `startsWith`, `contains`, `substring`, `trim`, `strip` and `isBlank`.
    Strings are sequences of Unicode scalar values; the UTF-16 surrogate
    representation of Java strings is not modelled. */
module JavaString {
  import opened Wrappers

  /** `s.startsWith(prefix)`. */
  predicate StartsWith(s: string, prefix: string) {
    |prefix| <= |s| && s[..|prefix|] == prefix
  }

  /** `s.contains(part)`: `part` occurs in `s` at some offset. */
  predicate Contains(s: string, part: string)
    decreases |s|
  {
    StartsWith(s, part) || (s != [] && Contains(s[1..], part))
  }

  /** `s.substring(begin, end)`, which throws StringIndexOutOfBoundsException
      unless `0 <= begin <= end <= s.length()`. */
  function Substring(s: string, begin: int, end: int): (r: Result<string, ()>)
    ensures r.Success? <==> 0 <= begin <= end <= |s|
    ensures r.Success? ==> |r.value| == end - begin
    ensures r.Success? ==> forall k :: 0 <= k < |r.value| ==> r.value[k] == s[begin + k]
  {
    if 0 <= begin <= end <= |s| then Success(s[begin..end]) else Failure(())
  }

  /** The characters `String.trim` removes: every code point up to U+0020. */
  predicate IsTrimmed(c: char) {
    c <= ' '
  }

  /** `Character.isWhitespace`: the Unicode space, line and paragraph
      separators except the three no-break spaces (U+00A0, U+2007, U+202F),
      plus the controls U+0009..U+000D and U+001C..U+001F. */
  predicate IsWhitespace(c: char) {
    || ('\t' <= c <= '\r')
    || ('\U{1C}' <= c <= ' ')
    || c == '\U{1680}'
    || ('\U{2000}' <= c <= '\U{2006}')
    || ('\U{2008}' <= c <= '\U{200A}')
    || c == '\U{2028}'
    || c == '\U{2029}'
    || c == '\U{205F}'
    || c == '\U{3000}'
  }

  function DropLeading(s: string, drop: char -> bool): string
    decreases |s|
  {
    if s != [] && drop(s[0]) then DropLeading(s[1..], drop) else s
  }

  function DropTrailing(s: string, drop: char -> bool): string
    decreases |s|
  {
    if s != [] && drop(s[|s| - 1]) then DropTrailing(s[..|s| - 1], drop) else s
  }

  /** Removes every leading and every trailing character satisfying `drop`. */
  function StripEnds(s: string, drop: char -> bool): string {
    DropTrailing(DropLeading(s, drop), drop)
  }

  /** `s.trim()`. */
  function Trim(s: string): string {
    StripEnds(s, IsTrimmed)
  }

  /** `s.strip()`. */
  function Strip(s: string): string {
    StripEnds(s, IsWhitespace)
  }

  /** `s.isBlank()`: empty or white space only. */
  predicate IsBlank(s: string) {
    forall k :: 0 <= k < |s| ==> IsWhitespace(s[k])
  }

  // ---------------------------------------------------------------------------
  // Properties

  /** `part` occurs in `s` starting at index `i`. */
  predicate OccursAt(s: string, part: string, i: int) {
    0 <= i && i + |part| <= |s| && s[i..i + |part|] == part
  }

  /** `contains` agrees with the textbook definition: an occurrence at some offset. */
  lemma {:induction false} ContainsIffOccurrence(s: string, part: string)
    ensures Contains(s, part) <==> exists i :: OccursAt(s, part, i)
  {
    if StartsWith(s, part) {
      assert OccursAt(s, part, 0);
    } else if s != [] {
      ContainsIffOccurrence(s[1..], part);
      assert !OccursAt(s, part, 0);
      forall i | OccursAt(s, part, i) ensures OccursAt(s[1..], part, i - 1) {
        assert s[1..][i - 1..i - 1 + |part|] == s[i..i + |part|];
      }
      forall i | OccursAt(s[1..], part, i) ensures OccursAt(s, part, i + 1) {
        assert s[i + 1..i + 1 + |part|] == s[1..][i..i + |part|];
      }
    }
  }

  /** A string that contains `part` is at least as long as `part`. */
  lemma {:induction false} ContainsIsLongEnough(s: string, part: string)
    requires Contains(s, part)
    ensures |part| <= |s|
  {
    if !StartsWith(s, part) {
      ContainsIsLongEnough(s[1..], part);
    }
  }

  /** A string cannot contain `part` if it lacks one of `part`'s characters. */
  lemma {:induction false} MissingCharNotContained(s: string, part: string, c: char)
    requires c in part && c !in s
    ensures !Contains(s, part)
  {
    if |part| <= |s| {
      var k :| 0 <= k < |part| && part[k] == c;
      assert s[..|part|][k] == s[k] != c;
    }
    if s != [] {
      forall k | 0 <= k < |s| - 1 ensures s[1..][k] != c {
        assert s[1..][k] == s[k + 1];
      }
      MissingCharNotContained(s[1..], part, c);
    }
  }

  lemma {:induction false} LeadingSplit(s: string, drop: char -> bool) returns (i: nat)
    ensures i <= |s| && DropLeading(s, drop) == s[i..]
    ensures forall k :: 0 <= k < i ==> drop(s[k])
    ensures i < |s| ==> !drop(s[i])
  {
    if s != [] && drop(s[0]) {
      var i' := LeadingSplit(s[1..], drop);
      i := i' + 1;
      assert s[1..][i'..] == s[i..];
      forall k | 0 <= k < i ensures drop(s[k]) {
        if k > 0 {
          assert s[k] == s[1..][k - 1];
        }
      }
    } else {
      i := 0;
    }
  }

  lemma {:induction false} TrailingSplit(s: string, drop: char -> bool) returns (j: nat)
    ensures j <= |s| && DropTrailing(s, drop) == s[..j]
    ensures forall k :: j <= k < |s| ==> drop(s[k])
    ensures 0 < j ==> !drop(s[j - 1])
  {
    if s != [] && drop(s[|s| - 1]) {
      j := TrailingSplit(s[..|s| - 1], drop);
      assert s[..|s| - 1][..j] == s[..j];
      forall k | j <= k < |s| ensures drop(s[k]) {
        if k < |s| - 1 {
          assert s[k] == s[..|s| - 1][k];
        }
      }
    } else {
      j := |s|;
    }
  }

  /** Stripping keeps one contiguous slice `s[i..j]` of the input: everything
      before `i` and from `j` on is dropped, and the slice neither starts nor
      ends with a dropped character. */
  lemma {:induction false} StripEndsIsSlice(s: string, drop: char -> bool) returns (i: nat, j: nat)
    ensures i <= j <= |s| && StripEnds(s, drop) == s[i..j]
    ensures forall k :: 0 <= k < i ==> drop(s[k])
    ensures forall k :: j <= k < |s| ==> drop(s[k])
    ensures i < j ==> !drop(s[i]) && !drop(s[j - 1])
  {
    i := LeadingSplit(s, drop);
    var t := s[i..];
    var j' := TrailingSplit(t, drop);
    j := i + j';
    assert t[..j'] == s[i..j];
    forall k | j <= k < |s| ensures drop(s[k]) {
      assert s[k] == t[k - i];
    }
    if i < j {
      assert s[j - 1] == t[j' - 1];
    }
  }

  /** Stripping leaves a string alone when neither end can be dropped. */
  lemma StripEndsKeepsClean(s: string, drop: char -> bool)
    requires s == [] || (!drop(s[0]) && !drop(s[|s| - 1]))
    ensures StripEnds(s, drop) == s
  {
  }

  /** Stripping is idempotent. */
  lemma StripEndsIdempotent(s: string, drop: char -> bool)
    ensures StripEnds(StripEnds(s, drop), drop) == StripEnds(s, drop)
  {
    var i, j := StripEndsIsSlice(s, drop);
    StripEndsKeepsClean(s[i..j], drop);
  }

  /** `isBlank()` holds exactly when `strip()` leaves the empty string. */
  lemma BlankIffStripsToEmpty(s: string)
    ensures IsBlank(s) <==> Strip(s) == []
  {
    var i, j := StripEndsIsSlice(s, IsWhitespace);
  }
}
