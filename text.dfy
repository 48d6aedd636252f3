/**
 * The string normalisation applied on both sides of the position comparison:
 * `s.trim().toLowerCase()`.
 *
 * `trim` removes the ECMAScript WhiteSpace and LineTerminator code points from
 * both ends; the set below is that list in full.  `toLowerCase` is modelled on
 * ASCII only: 'A'..'Z' become 'a'..'z' and every other character is kept.
 */
module Text {

  /** WhiteSpace (TAB, VT, FF, ZWNBSP and the Zs category) and LineTerminator (LF, CR, LS, PS). */
  predicate IsWhiteSpace(c: char) {
    || c == '\t' || c == '\U{B}' || c == '\U{C}' || c == ' ' || c == '\U{A0}' || c == '\U{FEFF}'
    || c == '\U{1680}' || ('\U{2000}' <= c <= '\U{200A}') || c == '\U{202F}' || c == '\U{205F}' || c == '\U{3000}'
    || c == '\n' || c == '\r' || c == '\U{2028}' || c == '\U{2029}'
  }

  predicate IsUpperAscii(c: char) {
    'A' <= c <= 'Z'
  }

  /** `c` and `d` are the same character, or an ASCII capital and its small letter. */
  predicate SameUpToCase(c: char, d: char) {
    || c == d
    || (IsUpperAscii(c) && d as int == c as int + 32)
    || (IsUpperAscii(d) && c as int == d as int + 32)
  }

  /** The result is a case variant of `c` that is not a capital, which leaves exactly one choice. */
  function LowerChar(c: char): (d: char)
    ensures !IsUpperAscii(d)
    ensures SameUpToCase(c, d)
  {
    if IsUpperAscii(c) then (c as int + 32) as char else c
  }

  /** Lower-casing merges two characters exactly when they differ at most in ASCII case. */
  lemma LowerCharMergesOnlyCasePairs(c: char, d: char)
    ensures LowerChar(c) == LowerChar(d) <==> SameUpToCase(c, d)
  {
  }

  /** Lower-casing neither creates nor removes white space. */
  lemma LowerCharKeepsWhiteSpace(s: string)
    ensures forall i :: 0 <= i < |s| ==> (IsWhiteSpace(s[i]) <==> IsWhiteSpace(ToLower(s)[i]))
  {
  }

  /** How many white-space characters `s` starts with. */
  function LeadingWhiteSpace(s: string): (n: nat)
    ensures n <= |s|
    ensures forall i :: 0 <= i < n ==> IsWhiteSpace(s[i])
    ensures n < |s| ==> !IsWhiteSpace(s[n])
  {
    if s != [] && IsWhiteSpace(s[0]) then 1 + LeadingWhiteSpace(s[1..]) else 0
  }

  /** How many white-space characters `s` ends with. */
  function TrailingWhiteSpace(s: string): (n: nat)
    ensures n <= |s|
    ensures forall i :: |s| - n <= i < |s| ==> IsWhiteSpace(s[i])
    ensures n < |s| ==> !IsWhiteSpace(s[|s| - n - 1])
  {
    if s != [] && IsWhiteSpace(s[|s| - 1]) then 1 + TrailingWhiteSpace(s[..|s| - 1]) else 0
  }

  /** `r` is `s[a..a + |r|]` and everything of `s` before and after that slice is white space. */
  ghost predicate IsSliceBetweenWhiteSpace(r: string, s: string, a: int) {
    && 0 <= a <= |s| - |r|
    && r == s[a..a + |r|]
    && (forall i :: 0 <= i < a ==> IsWhiteSpace(s[i]))
    && (forall i :: a + |r| <= i < |s| ==> IsWhiteSpace(s[i]))
  }

  /** `String.prototype.trim`: drop the leading and the trailing white space. */
  function Trim(s: string): string {
    var a := LeadingWhiteSpace(s);
    if a == |s| then [] else s[a..|s| - TrailingWhiteSpace(s)]
  }

  /**
   * What `trim` returns is the slice of `s` left after removing the longest
   * all-white-space prefix and suffix: it neither starts nor ends with white space,
   * and only white space lies around it.
   */
  lemma TrimIsSliceBetweenWhiteSpace(s: string)
    ensures Trim(s) == [] || (!IsWhiteSpace(Trim(s)[0]) && !IsWhiteSpace(Trim(s)[|Trim(s)| - 1]))
    ensures exists a :: IsSliceBetweenWhiteSpace(Trim(s), s, a)
  {
    var a := LeadingWhiteSpace(s);
    if a == |s| {
      assert IsSliceBetweenWhiteSpace([], s, a);
    } else {
      assert IsSliceBetweenWhiteSpace(Trim(s), s, a);
    }
  }

  /** `String.prototype.toLowerCase` on the ASCII letters: every character lower-cased in place. */
  function ToLower(s: string): string {
    seq(|s|, i requires 0 <= i < |s| => LowerChar(s[i]))
  }

  /** `s.trim().toLowerCase()`, the key under which positions are compared. */
  function Normalize(s: string): string {
    ToLower(Trim(s))
  }

  lemma ToLowerIdempotent(s: string)
    ensures ToLower(ToLower(s)) == ToLower(s)
  {
    assert forall i :: 0 <= i < |s| ==> ToLower(ToLower(s))[i] == ToLower(s)[i];
  }

  /** Two strings with white space at the same positions start with the same amount of it. */
  lemma LeadingWhiteSpaceAgrees(s: string, t: string)
    requires |s| == |t| && forall i :: 0 <= i < |s| ==> (IsWhiteSpace(s[i]) <==> IsWhiteSpace(t[i]))
    ensures LeadingWhiteSpace(s) == LeadingWhiteSpace(t)
  {
  }

  /** Two strings with white space at the same positions end with the same amount of it. */
  lemma TrailingWhiteSpaceAgrees(s: string, t: string)
    requires |s| == |t| && forall i :: 0 <= i < |s| ==> (IsWhiteSpace(s[i]) <==> IsWhiteSpace(t[i]))
    ensures TrailingWhiteSpace(s) == TrailingWhiteSpace(t)
  {
  }

  lemma ToLowerSlice(s: string, a: nat, b: nat)
    requires a <= b <= |s|
    ensures ToLower(s[a..b]) == ToLower(s)[a..b]
  {
    var l, r := ToLower(s[a..b]), ToLower(s)[a..b];
    forall i | 0 <= i < b - a
      ensures l[i] == r[i]
    {
      assert s[a..b][i] == s[a + i];
    }
  }

  /** Lower-casing keeps the amount of leading and trailing white space. */
  lemma ToLowerKeepsWhiteSpaceCounts(s: string)
    ensures LeadingWhiteSpace(ToLower(s)) == LeadingWhiteSpace(s)
    ensures TrailingWhiteSpace(ToLower(s)) == TrailingWhiteSpace(s)
  {
    LowerCharKeepsWhiteSpace(s);
    LeadingWhiteSpaceAgrees(s, ToLower(s));
    TrailingWhiteSpaceAgrees(s, ToLower(s));
  }

  /** A string that is not all white space trims to the slice between its leading and trailing white space. */
  lemma TrimIsSlice(s: string)
    requires LeadingWhiteSpace(s) < |s|
    ensures LeadingWhiteSpace(s) <= |s| - TrailingWhiteSpace(s)
    ensures Trim(s) == s[LeadingWhiteSpace(s)..|s| - TrailingWhiteSpace(s)]
  {
  }

  /** Lower-casing never creates nor removes white space, so trimming and lower-casing commute. */
  lemma TrimCommutesWithLower(s: string)
    ensures Trim(ToLower(s)) == ToLower(Trim(s))
  {
    var u := ToLower(s);
    ToLowerKeepsWhiteSpaceCounts(s);
    var a := LeadingWhiteSpace(s);
    if a < |s| {
      var b := |s| - TrailingWhiteSpace(s);
      TrimIsSlice(s);
      TrimIsSlice(u);
      ToLowerSlice(s, a, b);
      calc {
        Trim(u);
        u[a..b];
        ToLower(s[a..b]);
        ToLower(Trim(s));
      }
    } else {
      assert Trim(s) == [];
      assert Trim(u) == [];
      assert ToLower([]) == [];
    }
  }

  lemma TrimIdempotent(s: string)
    ensures Trim(Trim(s)) == Trim(s)
  {
    TrimIsSliceBetweenWhiteSpace(s);
    var r := Trim(s);
    if r != [] {
      assert LeadingWhiteSpace(r) == 0;
      assert TrailingWhiteSpace(r) == 0;
      assert r[0..|r|] == r;
    }
  }

  /** Normalising twice is normalising once: a normalised selection selects what the raw one does. */
  lemma NormalizeIdempotent(s: string)
    ensures Normalize(Normalize(s)) == Normalize(s)
  {
    var t := Trim(s);
    TrimCommutesWithLower(t);
    TrimIdempotent(s);
    ToLowerIdempotent(t);
  }

  /** The comparison ignores ASCII case. */
  lemma NormalizeIgnoresCase(s: string)
    ensures Normalize(ToLower(s)) == Normalize(s)
  {
    TrimCommutesWithLower(s);
    ToLowerIdempotent(Trim(s));
  }

  /** Two strings of equal length lower-case alike exactly when they agree up to ASCII case at every position. */
  lemma ToLowerEqualIff(s: string, t: string)
    requires |s| == |t|
    ensures ToLower(s) == ToLower(t) <==> forall i :: 0 <= i < |s| ==> SameUpToCase(s[i], t[i])
  {
    forall i | 0 <= i < |s|
      ensures ToLower(s)[i] == ToLower(t)[i] <==> SameUpToCase(s[i], t[i])
    {
      LowerCharMergesOnlyCasePairs(s[i], t[i]);
    }
  }

  /**
   * Two strings normalise alike exactly when their trimmed forms have the same length
   * and agree up to ASCII case at every position: no other characters are merged.
   */
  lemma NormalizeEqualIff(s: string, t: string)
    ensures Normalize(s) == Normalize(t) <==>
              |Trim(s)| == |Trim(t)| && forall i :: 0 <= i < |Trim(s)| ==> SameUpToCase(Trim(s)[i], Trim(t)[i])
  {
    if |Trim(s)| == |Trim(t)| {
      ToLowerEqualIff(Trim(s), Trim(t));
    }
  }

  /** Normalising removes exactly the white space around the text: an all-white-space string becomes empty. */
  lemma NormalizeEmptyIffBlank(s: string)
    ensures Normalize(s) == [] <==> forall i :: 0 <= i < |s| ==> IsWhiteSpace(s[i])
  {
    var a := LeadingWhiteSpace(s);
    if a < |s| {
      assert !IsWhiteSpace(s[a]);
      assert |Trim(s)| > 0;
    }
  }
}
