/** The .NET string predicates the source relies on: `char.IsWhiteSpace`,
    `string.IsNullOrWhiteSpace`, `string.Length` (in UTF-16 code units) and
    `string.Contains(char)`. A C# `string` that may be null is an
    `Option<string>`. */
module Text {
  import opened Wrappers

  type NullableString = Option<string>

  /** Exactly the characters .NET's `char.IsWhiteSpace` accepts: the Unicode
      separator categories Zs, Zl and Zp plus the control characters
      U+0009..U+000D and U+0085. */
  predicate IsWhiteSpace(c: char) {
    || c == ' '
    || ('\t' <= c <= '\r')
    || c == '\U{85}'
    || c == '\U{A0}'
    || c == '\U{1680}'
    || ('\U{2000}' <= c <= '\U{200A}')
    || c == '\U{2028}'
    || c == '\U{2029}'
    || c == '\U{202F}'
    || c == '\U{205F}'
    || c == '\U{3000}'
  }

  /** Every character of `s` is white space (vacuously true of ""). */
  predicate AllWhiteSpace(s: string) {
    forall i :: 0 <= i < |s| ==> IsWhiteSpace(s[i])
  }

  /** `string.IsNullOrWhiteSpace`. */
  predicate IsNullOrWhiteSpace(s: NullableString) {
    s.None? || AllWhiteSpace(s.value)
  }

  /** `string.Length`: the number of UTF-16 code units, so a character outside
      the Basic Multilingual Plane counts twice. */
  function Utf16Length(s: string): (n: nat)
    ensures |s| <= n <= 2 * |s|
    ensures (forall i :: 0 <= i < |s| ==> s[i] <= '\U{FFFF}') ==> n == |s|
  {
    if |s| == 0 then 0
    else (if s[0] <= '\U{FFFF}' then 1 else 2) + Utf16Length(s[1..])
  }

  /** `string.Contains(c, StringComparison.Ordinal)`. */
  predicate ContainsChar(s: string, c: char) {
    exists i :: 0 <= i < |s| && s[i] == c
  }

  /** The text a C# interpolation `$"{s}"` produces: null becomes "". */
  function Interpolate(s: NullableString): string
  {
    s.GetOr("")
  }
}
