/** The parts of Python's `str` behaviour the extractor relies on:
    `isspace`, `strip`, ASCII `lower` and the substring test `needle in hay`. */
module PyStr {

  /** The characters for which `str.isspace()` holds, which is also the class
      `\s` matches in a `str` regular expression. */
  predicate IsSpace(c: char) {
    || ('\t' <= c <= '\r')
    || ('\U{1C}' <= c <= '\U{1F}')
    || c == ' ' || c == '\U{85}' || c == '\U{A0}' || c == '\U{1680}'
    || ('\U{2000}' <= c <= '\U{200A}')
    || c == '\U{2028}' || c == '\U{2029}' || c == '\U{202F}' || c == '\U{205F}'
    || c == '\U{3000}'
  }

  /** Every character of `s` in positions `lo` to `hi - 1` satisfies `p`. */
  predicate RunOf(s: string, lo: int, hi: int, p: char -> bool)
    requires 0 <= lo && hi <= |s|
  {
    forall k :: lo <= k < hi ==> p(s[k])
  }

  /** Every character of `s` satisfies `p`. */
  predicate AllSat(s: string, p: char -> bool) {
    RunOf(s, 0, |s|, p)
  }

  /** `r` is `s` with a run of `p`-characters (possibly empty) cut from each end. */
  ghost predicate StrippedFrom(s: string, r: string, p: char -> bool) {
    exists i, j :: 0 <= i <= j <= |s| && r == s[i..j] && RunOf(s, 0, i, p) && RunOf(s, j, |s|, p)
  }

  /** Neither end of `r` is a `p`-character. */
  predicate Clean(r: string, p: char -> bool) {
    r == [] || (!p(r[0]) && !p(r[|r| - 1]))
  }

  /** The first position at or after `i` that does not hold a `p`-character. */
  function SkipForward(s: string, p: char -> bool, i: nat): (k: nat)
    requires i <= |s|
    ensures i <= k <= |s| && RunOf(s, i, k, p)
    ensures k < |s| ==> !p(s[k])
    decreases |s| - i
  {
    if i < |s| && p(s[i]) then SkipForward(s, p, i + 1) else i
  }

  /** The start of the run of `p`-characters that ends at `j`, looking no
      further back than `lo`. */
  function SkipBackward(s: string, p: char -> bool, lo: nat, j: nat): (k: nat)
    requires lo <= j <= |s|
    ensures lo <= k <= j && RunOf(s, k, j, p)
    ensures lo < k ==> !p(s[k - 1])
    decreases j - lo
  {
    if lo < j && p(s[j - 1]) then SkipBackward(s, p, lo, j - 1) else j
  }

  /** Python's `s.strip(chars)`, `p` being membership in `chars`: the result is
      what is left between the two runs of `p`-characters, and it is empty
      exactly when every character of `s` is one of them. */
  function Strip(s: string, p: char -> bool): (r: string)
    ensures StrippedFrom(s, r, p) && Clean(r, p)
    ensures |r| == 0 <==> AllSat(s, p)
  {
    var i := SkipForward(s, p, 0);
    var j := SkipBackward(s, p, i, |s|);
    assert RunOf(s, 0, i, p) && RunOf(s, j, |s|, p);
    s[i..j]
  }

  /** Any way of cutting `p`-runs from the two ends that leaves a clean string
      gives `Strip`'s answer: the contract of `Strip` determines it. */
  lemma StripUnique(s: string, r: string, p: char -> bool)
    requires StrippedFrom(s, r, p) && Clean(r, p)
    ensures Strip(s, p) == r
  {
    var i, j :| 0 <= i <= j <= |s| && r == s[i..j] && RunOf(s, 0, i, p) && RunOf(s, j, |s|, p);
    if r == [] {
      assert AllSat(s, p) by {
        forall k | 0 <= k < |s| ensures p(s[k]) {
          if k < i { assert RunOf(s, 0, i, p); } else { assert RunOf(s, j, |s|, p); }
        }
      }
    } else {
      assert !p(s[i]) && !p(s[j - 1]) by { assert s[i] == r[0] && s[j - 1] == r[|r| - 1]; }
      CutPointsUnique(s, p, i, j);
    }
  }

  /** Two cut points that leave non-`p` characters at both ends of a
      non-empty middle are the ones `Strip` finds. */
  lemma CutPointsUnique(s: string, p: char -> bool, i: nat, j: nat)
    requires i < j <= |s| && RunOf(s, 0, i, p) && RunOf(s, j, |s|, p)
    requires !p(s[i]) && !p(s[j - 1])
    ensures SkipForward(s, p, 0) == i && SkipBackward(s, p, i, |s|) == j
  {
    var f := SkipForward(s, p, 0);
    assert i <= f;
    var b := SkipBackward(s, p, i, |s|);
    assert b <= j;
  }

  predicate IsAsciiUpper(c: char) { 'A' <= c <= 'Z' }

  predicate IsAsciiLower(c: char) { 'a' <= c <= 'z' }

  function AsciiLowerChar(c: char): (d: char)
    ensures !IsAsciiUpper(d)
    ensures IsAsciiUpper(c) ==> IsAsciiLower(d) && d as int == c as int + 32
    ensures !IsAsciiUpper(c) ==> d == c
  {
    if IsAsciiUpper(c) then (c as int + 32) as char else c
  }

  function AsciiUpperChar(c: char): (d: char)
    ensures !IsAsciiLower(d)
    ensures IsAsciiLower(c) ==> IsAsciiUpper(d) && d as int == c as int - 32
    ensures !IsAsciiLower(c) ==> d == c
  {
    if IsAsciiLower(c) then (c as int - 32) as char else c
  }

  /** `s.lower()` restricted to the letters A-Z. */
  function AsciiLower(s: string): (r: string)
    ensures |r| == |s|
    ensures forall k :: 0 <= k < |r| ==> !IsAsciiUpper(r[k])
  {
    seq(|s|, k requires 0 <= k < |s| => AsciiLowerChar(s[k]))
  }

  /** `s.upper()` restricted to the letters a-z. */
  function AsciiUpper(s: string): (r: string)
    ensures |r| == |s|
    ensures forall k :: 0 <= k < |r| ==> !IsAsciiLower(r[k])
  {
    seq(|s|, k requires 0 <= k < |s| => AsciiUpperChar(s[k]))
  }

  /** Lower-casing forgets whether a word was written in capitals. */
  lemma LowerOfUpper(s: string)
    ensures AsciiLower(AsciiUpper(s)) == AsciiLower(s)
  {
    var u := AsciiUpper(s);
    forall k | 0 <= k < |s| ensures AsciiLower(u)[k] == AsciiLower(s)[k] {
      assert u[k] == AsciiUpperChar(s[k]);
    }
  }

  /** `needle` starts at position `i` of `hay`. */
  predicate OccursAt(needle: string, hay: string, i: int) {
    0 <= i && i + |needle| <= |hay| && hay[i..i + |needle|] == needle
  }

  /** `needle` is a substring of `hay`. */
  ghost predicate OccursIn(needle: string, hay: string) {
    exists i :: OccursAt(needle, hay, i)
  }

  /** Dropping the first character of `hay` loses no occurrence of `needle`
      other than one at position 0. */
  lemma OccursInTail(needle: string, hay: string)
    requires 0 < |hay| && !OccursAt(needle, hay, 0)
    ensures OccursIn(needle, hay) <==> OccursIn(needle, hay[1..])
  {
    if OccursIn(needle, hay[1..]) {
      var i :| OccursAt(needle, hay[1..], i);
      assert hay[i + 1..i + 1 + |needle|] == hay[1..][i..i + |needle|];
      assert OccursAt(needle, hay, i + 1);
    }
    if OccursIn(needle, hay) {
      var i :| OccursAt(needle, hay, i);
      assert 0 < i;
      assert hay[1..][i - 1..i - 1 + |needle|] == hay[i..i + |needle|];
      assert OccursAt(needle, hay[1..], i - 1);
    }
  }

  /** Python's `needle in hay` on strings. */
  function Contains(hay: string, needle: string): (b: bool)
    ensures b <==> OccursIn(needle, hay)
    decreases |hay|
  {
    if |needle| > |hay| then
      false
    else if hay[..|needle|] == needle then
      assert OccursAt(needle, hay, 0);
      true
    else
      OccursInTail(needle, hay);
      Contains(hay[1..], needle)
  }
}
