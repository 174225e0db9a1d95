/**
 * Character classes and the small string operations of the standard library
 * that the extraction layer relies on: `str::trim`, `split("/").last()`,
 * and the character classes `\s` and `\d` of the regular expressions.
 */
module Text {

  /**
   * Unicode White_Space: what `char::is_whitespace` (and so `str::trim`)
   * and the Unicode-aware regular expression class `\s` accept.
   */
  predicate IsSpace(c: char) {
    var n := c as int;
    (0x09 <= n <= 0x0D) || n == 0x20 || n == 0x85 || n == 0xA0 || n == 0x1680
    || (0x2000 <= n <= 0x200A) || n == 0x2028 || n == 0x2029 || n == 0x202F
    || n == 0x205F || n == 0x3000
  }

  /**
   * The Unicode-aware regular expression class `\d`: general category Nd
   * (decimal digits) as of Unicode 15.0, sixty-three runs of ten code points
   * and the fifty mathematical digits U+1D7CE..U+1D7FF.
   */
  predicate IsDigit(c: char) {
    var n := c as int;
    (0x0030 <= n <= 0x0039) || (0x0660 <= n <= 0x0669) || (0x06F0 <= n <= 0x06F9) || (0x07C0 <= n <= 0x07C9)
    || (0x0966 <= n <= 0x096F) || (0x09E6 <= n <= 0x09EF) || (0x0A66 <= n <= 0x0A6F) || (0x0AE6 <= n <= 0x0AEF)
    || (0x0B66 <= n <= 0x0B6F) || (0x0BE6 <= n <= 0x0BEF) || (0x0C66 <= n <= 0x0C6F) || (0x0CE6 <= n <= 0x0CEF)
    || (0x0D66 <= n <= 0x0D6F) || (0x0DE6 <= n <= 0x0DEF) || (0x0E50 <= n <= 0x0E59) || (0x0ED0 <= n <= 0x0ED9)
    || (0x0F20 <= n <= 0x0F29) || (0x1040 <= n <= 0x1049) || (0x1090 <= n <= 0x1099) || (0x17E0 <= n <= 0x17E9)
    || (0x1810 <= n <= 0x1819) || (0x1946 <= n <= 0x194F) || (0x19D0 <= n <= 0x19D9) || (0x1A80 <= n <= 0x1A89)
    || (0x1A90 <= n <= 0x1A99) || (0x1B50 <= n <= 0x1B59) || (0x1BB0 <= n <= 0x1BB9) || (0x1C40 <= n <= 0x1C49)
    || (0x1C50 <= n <= 0x1C59) || (0xA620 <= n <= 0xA629) || (0xA8D0 <= n <= 0xA8D9) || (0xA900 <= n <= 0xA909)
    || (0xA9D0 <= n <= 0xA9D9) || (0xA9F0 <= n <= 0xA9F9) || (0xAA50 <= n <= 0xAA59) || (0xABF0 <= n <= 0xABF9)
    || (0xFF10 <= n <= 0xFF19) || (0x104A0 <= n <= 0x104A9) || (0x10D30 <= n <= 0x10D39) || (0x11066 <= n <= 0x1106F)
    || (0x110F0 <= n <= 0x110F9) || (0x11136 <= n <= 0x1113F) || (0x111D0 <= n <= 0x111D9) || (0x112F0 <= n <= 0x112F9)
    || (0x11450 <= n <= 0x11459) || (0x114D0 <= n <= 0x114D9) || (0x11650 <= n <= 0x11659) || (0x116C0 <= n <= 0x116C9)
    || (0x11730 <= n <= 0x11739) || (0x118E0 <= n <= 0x118E9) || (0x11950 <= n <= 0x11959) || (0x11C50 <= n <= 0x11C59)
    || (0x11D50 <= n <= 0x11D59) || (0x11DA0 <= n <= 0x11DA9) || (0x11F50 <= n <= 0x11F59) || (0x16A60 <= n <= 0x16A69)
    || (0x16AC0 <= n <= 0x16AC9) || (0x16B50 <= n <= 0x16B59) || (0x1E140 <= n <= 0x1E149) || (0x1E2F0 <= n <= 0x1E2F9)
    || (0x1E4F0 <= n <= 0x1E4F9) || (0x1E950 <= n <= 0x1E959) || (0x1FBF0 <= n <= 0x1FBF9)
    || (0x1D7CE <= n <= 0x1D7FF)
  }

  /** The two classes are disjoint: no digit is a space. */
  lemma DigitIsNotSpace(c: char)
    ensures IsDigit(c) ==> !IsSpace(c)
  {
  }

  predicate AllSpace(s: string) {
    forall k | 0 <= k < |s| :: IsSpace(s[k])
  }

  /** `str::trim_start`: drops the leading whitespace. */
  function TrimStart(s: string): (r: string)
    ensures |r| <= |s| && r == s[|s| - |r|..]
    ensures AllSpace(s[..|s| - |r|])
    ensures r == [] || !IsSpace(r[0])
  {
    if s != [] && IsSpace(s[0]) then
      var r := TrimStart(s[1..]);
      assert s[..|s| - |r|] == [s[0]] + s[1..][..|s| - 1 - |r|];
      r
    else s
  }

  /** `str::trim_end`: drops the trailing whitespace. */
  function TrimEnd(s: string): (r: string)
    ensures |r| <= |s| && r == s[..|r|]
    ensures AllSpace(s[|r|..])
    ensures r == [] || !IsSpace(r[|r| - 1])
  {
    if s != [] && IsSpace(s[|s| - 1]) then
      var r := TrimEnd(s[..|s| - 1]);
      assert s[|r|..] == s[..|s| - 1][|r|..] + [s[|s| - 1]];
      r
    else s
  }

  /** `str::trim`: drops whitespace at both ends. */
  function Trim(s: string): (r: string)
    ensures |r| <= |s|
    ensures r == [] || (!IsSpace(r[0]) && !IsSpace(r[|r| - 1]))
  {
    TrimStart(TrimEnd(s))
  }

  /** The input is the trimmed text surrounded by whitespace. */
  lemma TrimSplit(s: string) returns (pre: string, post: string)
    ensures s == pre + Trim(s) + post
    ensures AllSpace(pre) && AllSpace(post)
  {
    var e := TrimEnd(s);
    var r := TrimStart(e);
    assert r == Trim(s);
    pre, post := e[..|e| - |r|], s[|e|..];
    assert AllSpace(pre) && AllSpace(post);
    assert e + post == s;
    assert pre + r == e;
  }

  /** Trailing whitespace after a part that does not end in whitespace is exactly what trim_end drops. */
  lemma {:induction false} TrimEndUnique(x: string, post: string)
    requires AllSpace(post)
    requires x == [] || !IsSpace(x[|x| - 1])
    ensures TrimEnd(x + post) == x
  {
    if post == [] {
      assert x + post == x;
    } else {
      var s := x + post;
      assert s[|s| - 1] == post[|post| - 1];
      assert s[..|s| - 1] == x + post[..|post| - 1];
      TrimEndUnique(x, post[..|post| - 1]);
    }
  }

  /** Leading whitespace before a part that does not start with whitespace is exactly what trim_start drops. */
  lemma {:induction false} TrimStartUnique(pre: string, y: string)
    requires AllSpace(pre)
    requires y == [] || !IsSpace(y[0])
    ensures TrimStart(pre + y) == y
  {
    if pre == [] {
      assert pre + y == y;
    } else {
      var s := pre + y;
      assert s[0] == pre[0];
      assert s[1..] == pre[1..] + y;
      TrimStartUnique(pre[1..], y);
    }
  }

  /** Any split of the input into whitespace, a part with no whitespace at its ends, and whitespace is the one trim finds. */
  lemma TrimUnique(pre: string, mid: string, post: string)
    requires AllSpace(pre) && AllSpace(post)
    requires mid == [] || (!IsSpace(mid[0]) && !IsSpace(mid[|mid| - 1]))
    ensures Trim(pre + mid + post) == mid
  {
    if mid == [] {
      TrimEndUnique([], pre + post);
      assert pre + mid + post == [] + (pre + post);
    } else {
      TrimEndUnique(pre + mid, post);
      TrimStartUnique(pre, mid);
    }
  }

  /** Trimming twice is trimming once. */
  lemma TrimIdempotent(s: string)
    ensures Trim(Trim(s)) == Trim(s)
  {
    var r := Trim(s);
    assert r == [] + r + [];
    TrimUnique([], r, []);
  }

  /**
   * `s.split("/").last()`: the text after the last `/`, the whole string when it
   * holds no `/`, and the empty string when it ends in `/`. The split always
   * yields at least one segment, so there is always a result.
   */
  function LastSegment(s: string): (r: string)
    ensures |r| <= |s| && r == s[|s| - |r|..]
    ensures '/' !in r
    ensures |r| == |s| || s[|s| - |r| - 1] == '/'
  {
    if s == [] || s[|s| - 1] == '/' then []
    else
      var init := s[..|s| - 1];
      var r := LastSegment(init);
      assert init[|init| - |r|..] + [s[|s| - 1]] == s[|s| - |r| - 1..];
      r + [s[|s| - 1]]
  }

  /** The first position at or after `i` whose character is not in class `p`. */
  function SkipWhile(s: string, i: nat, p: char -> bool): (j: nat)
    requires i <= |s|
    ensures i <= j <= |s|
    ensures forall k | i <= k < j :: p(s[k])
    ensures j == |s| || !p(s[j])
    decreases |s| - i
  {
    if i < |s| && p(s[i]) then SkipWhile(s, i + 1, p) else i
  }

  /** A position reached through characters of the class and stopping at one outside it is where the skip ends. */
  lemma SkipWhileStops(s: string, i: nat, p: char -> bool, j: nat)
    requires i <= j <= |s|
    requires forall k | i <= k < j :: p(s[k])
    requires j == |s| || !p(s[j])
    ensures SkipWhile(s, i, p) == j
  {
  }

  /** Skipping goes at least past a run of characters of the class. */
  lemma SkipWhilePast(s: string, i: nat, p: char -> bool, j: nat)
    requires i <= j <= |s|
    requires forall k | i <= k < j :: p(s[k])
    ensures j <= SkipWhile(s, i, p)
  {
  }

  predicate StartsWith(s: string, prefix: string) {
    |prefix| <= |s| && s[..|prefix|] == prefix
  }
}
