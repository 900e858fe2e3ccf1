/**
  Strings as both tiers see them, and trimming of surrounding white space.

  .NET `string` and JavaScript strings are both sequences of UTF-16 code
  units, and both `Length` and `.length` count code units, so that is what a
  `Text` is here. Trimming removes the longest leading and trailing runs of
  white space. What counts as white space is a parameter `ws`, because it
  depends on the platform and the two platforms of this system do not agree
  on it: `IsDotNetWhitespace` is `char.IsWhiteSpace` (used by `string.Trim`
  and `string.IsNullOrWhiteSpace`), `IsEcmaWhitespace` is what ECMAScript's
  `String.prototype.trim` strips.
 */
module Text {

  /** One UTF-16 code unit. */
  newtype CodeUnit = c: int | 0 <= c < 0x1_0000

  type Text = seq<CodeUnit>

  /** Unicode general category Zs (space separators). */
  predicate IsSpaceSeparator(c: CodeUnit)
  {
    c == 0x20 || c == 0xA0 || c == 0x1680 || 0x2000 <= c <= 0x200A
    || c == 0x202F || c == 0x205F || c == 0x3000
  }

  /** `char.IsWhiteSpace`: Zs, Zl, Zp, U+0009 to U+000D, and U+0085 (NEXT LINE). */
  predicate IsDotNetWhitespace(c: CodeUnit)
  {
    IsSpaceSeparator(c) || 0x09 <= c <= 0x0D || c == 0x85 || c == 0x2028 || c == 0x2029
  }

  /** ECMAScript WhiteSpace (TAB, VT, FF, ZWNBSP, Zs) and LineTerminator (LF, CR, LS, PS). */
  predicate IsEcmaWhitespace(c: CodeUnit)
  {
    IsSpaceSeparator(c) || c == 0x09 || c == 0x0B || c == 0x0C || c == 0xFEFF
    || c == 0x0A || c == 0x0D || c == 0x2028 || c == 0x2029
  }

  /** The union of the two platforms' white space. */
  predicate IsDotNetOrEcmaWhitespace(c: CodeUnit)
  {
    IsDotNetWhitespace(c) || IsEcmaWhitespace(c)
  }

  /** Every code unit `inner` treats as white space, `outer` does too. */
  predicate Covers(outer: CodeUnit -> bool, inner: CodeUnit -> bool)
  {
    forall c: CodeUnit :: inner(c) ==> outer(c)
  }

  /** `string.IsNullOrWhiteSpace` on a non-null string: nothing but white space (or empty). */
  predicate AllWhitespace(ws: CodeUnit -> bool, s: Text)
  {
    forall i :: 0 <= i < |s| ==> ws(s[i])
  }

  /** Neither the first nor the last code unit is white space. */
  predicate IsTrimmed(ws: CodeUnit -> bool, s: Text)
  {
    |s| == 0 || (!ws(s[0]) && !ws(s[|s| - 1]))
  }

  /** The length of the longest white-space prefix. */
  function LeadingWhitespace(ws: CodeUnit -> bool, s: Text): (n: nat)
    ensures n <= |s|
    ensures forall i :: 0 <= i < n ==> ws(s[i])
    ensures n < |s| ==> !ws(s[n])
  {
    if |s| > 0 && ws(s[0]) then
      var n := 1 + LeadingWhitespace(ws, s[1..]);
      assert forall i :: 1 <= i < n ==> s[1..][i - 1] == s[i];
      n
    else 0
  }

  /** The length of the longest white-space suffix. */
  function TrailingWhitespace(ws: CodeUnit -> bool, s: Text): (n: nat)
    ensures n <= |s|
    ensures forall i :: |s| - n <= i < |s| ==> ws(s[i])
    ensures n < |s| ==> !ws(s[|s| - 1 - n])
  {
    if |s| > 0 && ws(s[|s| - 1]) then
      var n := 1 + TrailingWhitespace(ws, s[..|s| - 1]);
      assert forall i :: |s| - n <= i < |s| - 1 ==> s[..|s| - 1][i] == s[i];
      n
    else 0
  }

  /**
    Where `Trim` ends: before the white-space suffix, or at the start when the
    whole string is white space (the two runs then overlap).
   */
  function TrimEndIndex(ws: CodeUnit -> bool, s: Text): (b: nat)
    ensures LeadingWhitespace(ws, s) <= b <= |s|
  {
    var a := LeadingWhitespace(ws, s);
    if a == |s| then a else |s| - TrailingWhitespace(ws, s)
  }

  /**
    `Trim`: the longest white-space prefix and suffix removed. The result is
    the piece of `s` between the two indices; everything outside it is white
    space, and it neither starts nor ends with white space.
   */
  function Trim(ws: CodeUnit -> bool, s: Text): (r: Text)
    ensures |r| <= |s|
    ensures r == s[LeadingWhitespace(ws, s)..TrimEndIndex(ws, s)]
    ensures forall i :: 0 <= i < LeadingWhitespace(ws, s) ==> ws(s[i])
    ensures forall i :: TrimEndIndex(ws, s) <= i < |s| ==> ws(s[i])
    ensures IsTrimmed(ws, r)
  {
    var a := LeadingWhitespace(ws, s);
    var b := TrimEndIndex(ws, s);
    s[a..b]
  }

  /**
    `Trim` is the only piece of `s` that neither starts nor ends with white
    space and has only white space outside it.
   */
  lemma TrimUnique(ws: CodeUnit -> bool, s: Text, a: nat, b: nat)
    requires a <= b <= |s|
    requires forall i :: 0 <= i < a ==> ws(s[i])
    requires forall i :: b <= i < |s| ==> ws(s[i])
    requires IsTrimmed(ws, s[a..b])
    ensures Trim(ws, s) == s[a..b]
  {
    if a < b {
      assert s[a..b][0] == s[a] && s[a..b][b - a - 1] == s[b - 1];
    }
  }

  /** Trimming a string that is already trimmed changes nothing. */
  lemma TrimOfTrimmed(ws: CodeUnit -> bool, s: Text)
    requires IsTrimmed(ws, s)
    ensures Trim(ws, s) == s
  {
  }

  /** Trimming is idempotent. */
  lemma TrimIdempotent(ws: CodeUnit -> bool, s: Text)
    ensures Trim(ws, Trim(ws, s)) == Trim(ws, s)
  {
    TrimOfTrimmed(ws, Trim(ws, s));
  }

  /** A string trimmed with a wider class of white space is left alone by a narrower one. */
  lemma TrimNarrowerAfterWider(outer: CodeUnit -> bool, inner: CodeUnit -> bool, s: Text)
    requires Covers(outer, inner)
    ensures Trim(inner, Trim(outer, s)) == Trim(outer, s)
  {
    var t := Trim(outer, s);
    assert IsTrimmed(inner, t);
    TrimOfTrimmed(inner, t);
  }

  /** Trimming leaves nothing exactly when the string is all white space. */
  lemma TrimEmptyIffAllWhitespace(ws: CodeUnit -> bool, s: Text)
    ensures |Trim(ws, s)| == 0 <==> AllWhitespace(ws, s)
  {
    if |Trim(ws, s)| > 0 {
      assert Trim(ws, s)[0] == s[LeadingWhitespace(ws, s)];
    }
  }

  /** The union covers each of its parts. */
  lemma UnionCovers()
    ensures Covers(IsDotNetOrEcmaWhitespace, IsDotNetWhitespace)
    ensures Covers(IsDotNetOrEcmaWhitespace, IsEcmaWhitespace)
  {
  }
}
