/** The pieces of .NET string behaviour the controllers rely on:
    `string.IsNullOrWhiteSpace` (also what `[Required]` tests on a string),
    `string.Trim()`, both built on `char.IsWhiteSpace`, and `string.Length`
    (what `[StringLength]` bounds), which counts UTF-16 code units. */
module Text {

  /** `char.IsWhiteSpace`: the Unicode space, line and paragraph separators
      (categories Zs, Zl, Zp) plus the controls U+0009..U+000D and U+0085. */
  predicate IsWhiteSpace(c: char) {
    || ('\t' <= c <= '\r')
    || c == ' '
    || c == '\U{85}'
    || c == '\U{A0}'
    || c == '\U{1680}'
    || ('\U{2000}' <= c <= '\U{200A}')
    || c == '\U{2028}'
    || c == '\U{2029}'
    || c == '\U{202F}'
    || c == '\U{205F}'
    || c == '\U{3000}'
  }

  /** `string.IsNullOrWhiteSpace`; a null string is modelled as the empty one. */
  predicate IsNullOrWhiteSpace(s: string) {
    forall i :: 0 <= i < |s| ==> IsWhiteSpace(s[i])
  }

  /** The first index at or after `i` whose character is not white space,
      or `|s|` when there is none. */
  function SkipWhiteSpace(s: string, i: nat): (j: nat)
    requires i <= |s|
    ensures i <= j <= |s|
    ensures forall k :: i <= k < j ==> IsWhiteSpace(s[k])
    ensures j < |s| ==> !IsWhiteSpace(s[j])
    decreases |s| - i
  {
    if i == |s| || !IsWhiteSpace(s[i]) then i
    else SkipWhiteSpace(s, i + 1)
  }

  /** The end of `s[lo..j]` once its trailing white space is cut off. */
  function SkipWhiteSpaceBack(s: string, lo: nat, j: nat): (e: nat)
    requires lo <= j <= |s|
    ensures lo <= e <= j
    ensures forall k :: e <= k < j ==> IsWhiteSpace(s[k])
    ensures lo < e ==> !IsWhiteSpace(s[e - 1])
  {
    if j == lo || !IsWhiteSpace(s[j - 1]) then j
    else SkipWhiteSpaceBack(s, lo, j - 1)
  }

  /** `string.Trim()`: the longest slice of `s` that neither starts nor ends
      with white space, obtained by cutting only white space off both ends. */
  function Trim(s: string): (r: string)
    ensures |r| <= |s|
    ensures r == [] <==> IsNullOrWhiteSpace(s)
    ensures r != [] ==> !IsWhiteSpace(r[0]) && !IsWhiteSpace(r[|r| - 1])
    ensures exists a :: 0 <= a <= |s| - |r| && r == s[a..a + |r|]
              && IsNullOrWhiteSpace(s[..a]) && IsNullOrWhiteSpace(s[a + |r|..])
  {
    var a := SkipWhiteSpace(s, 0);
    var e := SkipWhiteSpaceBack(s, a, |s|);
    TrimCutsOnlyWhiteSpace(s, a, e);
    s[a..e]
  }

  /** Cutting white space off the front of `s` up to the first other
      character, and off the back down to the last one, leaves a slice that
      is empty exactly when `s` is blank and otherwise starts and ends with a
      non-white-space character. */
  lemma TrimCutsOnlyWhiteSpace(s: string, a: nat, e: nat)
    requires a <= e <= |s|
    requires forall k :: 0 <= k < a ==> IsWhiteSpace(s[k])
    requires forall k :: e <= k < |s| ==> IsWhiteSpace(s[k])
    requires a < |s| ==> !IsWhiteSpace(s[a])
    requires a < e ==> !IsWhiteSpace(s[e - 1])
    ensures var r := s[a..e];
            && (r == [] <==> IsNullOrWhiteSpace(s))
            && (r != [] ==> !IsWhiteSpace(r[0]) && !IsWhiteSpace(r[|r| - 1]))
            && exists a' :: 0 <= a' <= |s| - |r| && r == s[a'..a' + |r|]
                 && IsNullOrWhiteSpace(s[..a']) && IsNullOrWhiteSpace(s[a' + |r|..])
  {
    var r := s[a..e];
    assert r == s[a..a + |r|];
    assert IsNullOrWhiteSpace(s[..a]) && IsNullOrWhiteSpace(s[e..]);
    if a == e {
      assert a == |s|;
    } else {
      assert r[0] == s[a] && r[|r| - 1] == s[e - 1];
    }
  }

  /** `string.Length`: the number of UTF-16 code units. A character outside
      the Basic Multilingual Plane is stored as a surrogate pair and counts
      twice. */
  function Utf16Length(s: string): (n: nat)
    ensures |s| <= n <= 2 * |s|
    ensures (forall i :: 0 <= i < |s| ==> s[i] as int <= 0xFFFF) ==> n == |s|
    ensures (forall i :: 0 <= i < |s| ==> s[i] as int > 0xFFFF) ==> n == 2 * |s|
  {
    if s == [] then 0
    else (if s[0] as int > 0xFFFF then 2 else 1) + Utf16Length(s[1..])
  }

  /** Twenty emoji are twenty characters but forty UTF-16 code units, so
      `[StringLength(20)]` refuses them. */
  lemma TwentyEmojiExceedTwentyUnits()
    ensures var s := seq(20, _ => '\U{1F600}');
            |s| == 20 && Utf16Length(s) == 40
  {
    var s := seq(20, _ => '\U{1F600}');
    assert forall i :: 0 <= i < |s| ==> s[i] as int > 0xFFFF;
  }
}
