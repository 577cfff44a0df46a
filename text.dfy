/** String helpers with the semantics of the .NET and JavaScript library calls the modelled
    code relies on. A `null` string of the source is modelled as the empty string wherever
    the source treats both alike (IsNullOrEmpty, IsNullOrWhiteSpace, NotEmpty). */
module Text {

  /** `char.IsWhiteSpace`: the Unicode separator categories plus the ASCII control
      characters tab to carriage return, U+0085 and U+00A0. */
  predicate IsWhiteSpace(c: char) {
    c == ' ' || ('\t' <= c <= '\r') || c == '\U{0085}' || c == '\U{00A0}' || c == '\U{1680}'
    || ('\U{2000}' <= c <= '\U{200A}') || c == '\U{2028}' || c == '\U{2029}'
    || c == '\U{202F}' || c == '\U{205F}' || c == '\U{3000}'
  }

  /** `string.IsNullOrWhiteSpace`. */
  predicate IsBlank(s: string) {
    forall i :: 0 <= i < |s| ==> IsWhiteSpace(s[i])
  }

  /** `string.Contains(sub)` with ordinal comparison. */
  predicate Contains(s: string, sub: string) {
    (|sub| <= |s| && s[..|sub|] == sub) || (s != [] && Contains(s[1..], sub))
  }

  /** A database collation, seen through the key it compares strings by: two strings are equal
      under it exactly when their keys are, and `LIKE '%k%'` matches a text exactly when the
      key of `k` occurs in the key of the text. The identity is the ordinal comparison; MySQL's
      default `utf8mb4_0900_ai_ci` gives letters that differ only in case or accent one key. */
  type Collation = string -> string

  /** `a = b` under the collation. */
  predicate Collates(collation: Collation, a: string, b: string) {
    collation(a) == collation(b)
  }

  /** `s LIKE '%sub%'` under the collation (`string.Contains` translated to SQL). */
  predicate ContainsUnder(collation: Collation, s: string, sub: string) {
    Contains(collation(s), collation(sub))
  }

  /** `string.ToLower` restricted to the letters A to Z. */
  function LowerChar(c: char): char {
    if 'A' <= c <= 'Z' then (c as int + 32) as char else c
  }

  function ToLower(s: string): (r: string)
    ensures |r| == |s|
    ensures forall i :: 0 <= i < |s| ==> r[i] == LowerChar(s[i])
  {
    if s == [] then [] else [LowerChar(s[0])] + ToLower(s[1..])
  }

  function TrimStart(s: string): (r: string)
    ensures r == [] || !IsWhiteSpace(r[0])
    ensures |r| <= |s| && r == s[|s| - |r|..]
  {
    if s != [] && IsWhiteSpace(s[0]) then TrimStart(s[1..]) else s
  }

  function TrimEnd(s: string): (r: string)
    ensures r == [] || !IsWhiteSpace(r[|r| - 1])
    ensures |r| <= |s| && r == s[..|r|]
  {
    if s != [] && IsWhiteSpace(s[|s| - 1]) then TrimEnd(s[..|s| - 1]) else s
  }

  /** `string.Trim()`. */
  function Trim(s: string): string {
    TrimEnd(TrimStart(s))
  }

  /** The first segment of `s` before `sep` (all of `s` when `sep` does not occur). */
  function Segment(s: string, sep: char): (r: string)
    ensures |r| <= |s| && r == s[..|r|] && sep !in r
    ensures |r| < |s| ==> s[|r|] == sep
  {
    if s == [] || s[0] == sep then [] else [s[0]] + Segment(s[1..], sep)
  }

  /** `s.Split(sep, StringSplitOptions.RemoveEmptyEntries)`: the maximal runs of characters
      other than `sep`, in order, without the empty ones. */
  function SplitNonEmpty(s: string, sep: char): (parts: seq<string>)
    ensures forall k :: 0 <= k < |parts| ==> parts[k] != [] && sep !in parts[k]
    decreases |s|
  {
    if s == [] then []
    else if s[0] == sep then SplitNonEmpty(s[1..], sep)
    else
      var head := Segment(s, sep);
      [head] + SplitNonEmpty(s[|head|..], sep)
  }

  /** `string.Join(sep, parts)`. */
  function Join(sep: string, parts: seq<string>): string {
    if parts == [] then ""
    else if |parts| == 1 then parts[0]
    else parts[0] + sep + Join(sep, parts[1..])
  }

  /** `long.ToString()`: optional minus sign, then decimal digits without leading zeros. */
  function DecimalText(n: int): (r: string)
    ensures r != []
  {
    if n < 0 then "-" + NaturalText(-n) else NaturalText(n)
  }

  function NaturalText(n: nat): (r: string)
    ensures r != [] && forall i :: 0 <= i < |r| ==> '0' <= r[i] <= '9'
  {
    if n < 10 then [DigitChar(n)] else NaturalText(n / 10) + [DigitChar(n % 10)]
  }

  function DigitChar(d: nat): (c: char)
    requires d < 10
    ensures '0' <= c <= '9' && c as int - '0' as int == d
  {
    ('0' as int + d) as char
  }

  /** The number a string of decimal digits denotes. */
  function DigitsValue(s: string): nat
    requires forall i :: 0 <= i < |s| ==> '0' <= s[i] <= '9'
  {
    if s == [] then 0 else DigitsValue(s[..|s| - 1]) * 10 + (s[|s| - 1] as int - '0' as int)
  }

  lemma {:induction false} NaturalTextValue(n: nat)
    ensures DigitsValue(NaturalText(n)) == n
  {
    if n >= 10 {
      NaturalTextValue(n / 10);
      var r := NaturalText(n);
      assert r[..|r| - 1] == NaturalText(n / 10);
    }
  }
}
