/**
 * Normalisation of the player's raw input: `lowercased()` followed by
 * `trimmingCharacters(in: .whitespacesAndNewlines)`.
 *
 * A letter is a Dafny `char` (one code point); lowercasing is modelled on
 * ASCII `A`..`Z` only.
 */
module Text {

  /** Foundation's `whitespacesAndNewlines`: Unicode general category Z,
      the controls U+0009..U+000D, and U+0085 (NEXT LINE). */
  predicate IsWhitespace(c: char) {
    var n := c as int;
    || n == 0x20 || (0x09 <= n <= 0x0D) || n == 0x85 || n == 0xA0 || n == 0x1680
    || (0x2000 <= n <= 0x200A) || n == 0x2028 || n == 0x2029 || n == 0x202F
    || n == 0x205F || n == 0x3000
  }

  /** Lowercase mapping of one letter, restricted to ASCII. */
  function Lower(c: char): char {
    if 'A' <= c <= 'Z' then (c as int + 32) as char else c
  }

  /** Lowering twice is lowering once, and whitespace is left alone. */
  lemma LowerFacts(c: char)
    ensures Lower(Lower(c)) == Lower(c)
    ensures IsWhitespace(c) ==> Lower(c) == c
    ensures IsWhitespace(Lower(c)) <==> IsWhitespace(c)
  {
  }

  /** `String.lowercased()`, letter by letter. */
  function Lowercased(s: string): (r: string)
    ensures |r| == |s|
    ensures forall i :: 0 <= i < |s| ==> r[i] == Lower(s[i])
  {
    if s == [] then [] else [Lower(s[0])] + Lowercased(s[1..])
  }

  /** The first position at or after `i` that does not hold whitespace
      (`|s|` if there is none). */
  function SkipLeading(s: string, i: nat): (k: nat)
    requires i <= |s|
    ensures i <= k <= |s|
    ensures forall j :: i <= j < k ==> IsWhitespace(s[j])
    ensures k == |s| || !IsWhitespace(s[k])
    decreases |s| - i
  {
    if i < |s| && IsWhitespace(s[i]) then SkipLeading(s, i + 1) else i
  }

  /** The end of `s[lo..j]` once its trailing whitespace is dropped: the
      position just past the last non-whitespace character (`lo` if none). */
  function SkipTrailing(s: string, lo: nat, j: nat): (k: nat)
    requires lo <= j <= |s|
    ensures lo <= k <= j
    ensures forall i :: k <= i < j ==> IsWhitespace(s[i])
    ensures k == lo || !IsWhitespace(s[k - 1])
    decreases j
  {
    if lo < j && IsWhitespace(s[j - 1]) then SkipTrailing(s, lo, j - 1) else j
  }

  /** Everything of `s` outside `s[lo..hi]` is whitespace. */
  predicate Padding(s: string, lo: nat, hi: nat)
    requires lo <= hi <= |s|
  {
    && (forall i :: 0 <= i < lo ==> IsWhitespace(s[i]))
    && (forall i :: hi <= i < |s| ==> IsWhitespace(s[i]))
  }

  /** `trimmingCharacters(in: .whitespacesAndNewlines)`: the piece of `s` left
      once the whitespace at both ends is dropped, and nothing else. */
  function Trim(s: string): (r: string)
    ensures exists lo: nat, hi: nat :: lo <= hi <= |s| && Padding(s, lo, hi) && r == s[lo..hi]
    ensures r == [] || (!IsWhitespace(r[0]) && !IsWhitespace(r[|r| - 1]))
  {
    var lo := SkipLeading(s, 0);
    var hi := SkipTrailing(s, lo, |s|);
    assert Padding(s, lo, hi);
    s[lo..hi]
  }

  /** A string of whitespace trims to the empty string. */
  lemma TrimBlank(s: string)
    requires forall i :: 0 <= i < |s| ==> IsWhitespace(s[i])
    ensures Trim(s) == []
  {
    var r := Trim(s);
    var lo: nat, hi: nat :| lo <= hi <= |s| && Padding(s, lo, hi) && r == s[lo..hi];
  }

  /** A string with whitespace at neither end is its own trimmed form. */
  lemma TrimTrimmed(s: string)
    requires s == [] || (!IsWhitespace(s[0]) && !IsWhitespace(s[|s| - 1]))
    ensures Trim(s) == s
  {
    var r := Trim(s);
    var lo: nat, hi: nat :| lo <= hi <= |s| && Padding(s, lo, hi) && r == s[lo..hi];
    if s != [] {
      assert lo == 0;
      assert hi == |s|;
    }
  }

  /** Whitespace is the same before and after lowercasing. */
  lemma LowercasedPadding(s: string, lo: nat, hi: nat)
    requires lo <= hi <= |s|
    ensures Padding(Lowercased(s), lo, hi) <==> Padding(s, lo, hi)
  {
    var l := Lowercased(s);
    forall i | 0 <= i < |s|
      ensures IsWhitespace(l[i]) == IsWhitespace(s[i])
    {
      LowerFacts(s[i]);
    }
    assert Padding(l, lo, hi) == Padding(s, lo, hi);
  }

  /** The answer `addNewWord` works with: the input lowercased, then
      trimmed. It is never longer than the input and has whitespace at
      neither end; `NormalizeSpec` says exactly what is removed. */
  function Normalize(s: string): (r: string)
    ensures |r| <= |s|
    ensures r == [] || (!IsWhitespace(r[0]) && !IsWhitespace(r[|r| - 1]))
  {
    Trim(Lowercased(s))
  }

  /** Normalising lowercases the input and removes the whitespace around it,
      and nothing else: the answer is the lowercased input cut to a piece
      outside of which the input holds only whitespace. */
  lemma NormalizeSpec(s: string)
    ensures exists lo: nat, hi: nat :: lo <= hi <= |s| && Padding(s, lo, hi) && Normalize(s) == Lowercased(s)[lo..hi]
  {
    var l := Lowercased(s);
    var lo: nat, hi: nat :| lo <= hi <= |l| && Padding(l, lo, hi) && Trim(l) == l[lo..hi];
    LowercasedPadding(s, lo, hi);
  }

  /** Normalising an answer that is already normalised changes nothing. */
  lemma NormalizeIdempotent(s: string)
    ensures Normalize(Normalize(s)) == Normalize(s)
  {
    var l := Lowercased(s);
    var t := Trim(l);
    var lo: nat, hi: nat :| lo <= hi <= |l| && Padding(l, lo, hi) && t == l[lo..hi];
    forall i | 0 <= i < |t|
      ensures Lower(t[i]) == t[i]
    {
      assert t[i] == Lower(s[lo + i]);
      LowerFacts(s[lo + i]);
    }
    NormalizeNormal(t);
  }

  /** An answer already in lower case and without surrounding whitespace is
      its own normal form. */
  lemma NormalizeNormal(s: string)
    requires forall i :: 0 <= i < |s| ==> Lower(s[i]) == s[i]
    requires s == [] || (!IsWhitespace(s[0]) && !IsWhitespace(s[|s| - 1]))
    ensures Normalize(s) == s
  {
    assert Lowercased(s) == s;
    TrimTrimmed(s);
  }

  /** Input made of whitespace alone (the empty input included) normalises
      to the empty answer, which `addNewWord` ignores. */
  lemma NormalizeBlank(s: string)
    requires forall i :: 0 <= i < |s| ==> IsWhitespace(s[i])
    ensures Normalize(s) == []
  {
    var l := Lowercased(s);
    forall i | 0 <= i < |l|
      ensures IsWhitespace(l[i])
    {
      LowerFacts(s[i]);
    }
    TrimBlank(l);
  }
}
