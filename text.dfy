/**
 * The string operations the referee applies to user input and to move
 * names: Python's `str.lower()`, `str.strip()` and `str.capitalize()`.
 */
module Text {

  /** The characters Python's `str.isspace()` accepts, which `str.strip()` removes. */
  predicate IsSpace(c: char)
  {
    ('\t' <= c <= '\r') || ('\U{1C}' <= c <= '\U{1F}') || c == ' '
    || c == '\U{85}' || c == '\U{A0}' || c == '\U{1680}'
    || ('\U{2000}' <= c <= '\U{200A}') || c == '\U{2028}' || c == '\U{2029}'
    || c == '\U{202F}' || c == '\U{205F}' || c == '\U{3000}'
  }

  predicate IsLowerAscii(c: char) { 'a' <= c <= 'z' }

  /**
   * Lower-casing of one character: ASCII capitals, and the Kelvin sign, the one
   * non-ASCII character whose lower-case form is a single ASCII letter. Every
   * other character is kept as it is.
   */
  function LowerChar(c: char): (d: char)
    ensures 'A' <= c <= 'Z' ==> IsLowerAscii(d) && d as int == c as int + 32
    ensures !('A' <= d <= 'Z') && d != '\U{212A}'
  {
    if 'A' <= c <= 'Z' then (c as int + 32) as char
    else if c == '\U{212A}' then 'k'
    else c
  }

  function UpperChar(c: char): (d: char)
    ensures IsLowerAscii(c) ==> 'A' <= d <= 'Z' && LowerChar(d) == c
  {
    if IsLowerAscii(c) then (c as int - 32) as char else c
  }

  /** Python's `s.lower()`, character by character. */
  function Lower(s: string): (r: string)
    ensures |r| == |s|
    ensures forall i :: 0 <= i < |s| ==> r[i] == LowerChar(s[i])
  {
    seq(|s|, i requires 0 <= i < |s| => LowerChar(s[i]))
  }

  /** Python's `s.capitalize()` on ASCII text: the first letter upper-cased, the rest
      lower-cased. On a lower-case word only the first letter changes, to its capital. */
  function Capitalize(s: string): (r: string)
    ensures |r| == |s|
    ensures (forall i :: 0 <= i < |s| ==> IsLowerAscii(s[i])) ==>
              Lower(r) == s && (s != [] ==> 'A' <= r[0] <= 'Z')
    ensures s != [] && (forall i :: 0 <= i < |s| ==> IsLowerAscii(s[i])) ==>
              r[0] == UpperChar(s[0]) && r[1..] == s[1..]
  {
    if s == [] then [] else [UpperChar(s[0])] + Lower(s[1..])
  }

  /** Drops leading whitespace. */
  function TrimStart(s: string): (r: string)
    ensures |r| <= |s| && r == s[|s| - |r|..]
    ensures r == [] || !IsSpace(r[0])
    ensures forall i :: 0 <= i < |s| - |r| ==> IsSpace(s[i])
    decreases |s|
  {
    if s != [] && IsSpace(s[0]) then TrimStart(s[1..]) else s
  }

  /** Drops trailing whitespace. */
  function TrimEnd(s: string): (r: string)
    ensures |r| <= |s| && r == s[..|r|]
    ensures r == [] || !IsSpace(r[|r| - 1])
    ensures forall i :: |r| <= i < |s| ==> IsSpace(s[i])
    decreases |s|
  {
    if s != [] && IsSpace(s[|s| - 1]) then TrimEnd(s[..|s| - 1]) else s
  }

  /** Where `Strip(s)` starts within `s`: the number of leading whitespace characters. */
  function StripStart(s: string): (k: nat)
    ensures k <= |s|
  {
    |s| - |TrimStart(s)|
  }

  /** Python's `s.strip()`: a slice of `s` that neither starts nor ends with whitespace,
      with only whitespace cut off on either side. */
  function Strip(s: string): (r: string)
    ensures StripStart(s) + |r| <= |s|
    ensures r == s[StripStart(s)..StripStart(s) + |r|]
    ensures forall i :: 0 <= i < StripStart(s) ==> IsSpace(s[i])
    ensures forall i :: StripStart(s) + |r| <= i < |s| ==> IsSpace(s[i])
    ensures r == [] || (!IsSpace(r[0]) && !IsSpace(r[|r| - 1]))
  {
    TrimEnd(TrimStart(s))
  }

  /** `s.lower().strip()`, the normal form the referee compares against move names. */
  function Normalize(s: string): (r: string)
  {
    Strip(Lower(s))
  }

  /** The normalized text is the lower-cased form of one contiguous slice of the input. */
  lemma {:induction false} NormalizeIsLoweredSlice(s: string)
    ensures var k := StripStart(Lower(s)); var r := Normalize(s);
      k + |r| <= |s| && r == Lower(s[k..k + |r|])
  {
    var n := Normalize(s);
    var k := StripStart(Lower(s));
    SliceOfLowered(s, n, k, k + |n|);
  }

  lemma {:induction false} TrimStartOfUnpadded(s: string)
    requires s == [] || !IsSpace(s[0])
    ensures TrimStart(s) == s
  {
  }

  lemma {:induction false} TrimEndOfUnpadded(s: string)
    requires s == [] || !IsSpace(s[|s| - 1])
    ensures TrimEnd(s) == s
  {
  }

  /** Stripping twice is stripping once. */
  lemma {:induction false} StripIdempotent(s: string)
    ensures Strip(Strip(s)) == Strip(s)
  {
    var t := Strip(s);
    TrimStartOfUnpadded(t);
    TrimEndOfUnpadded(t);
  }

  /** Lower-casing commutes with taking a slice. */
  lemma LowerSlice(s: string, i: nat, j: nat)
    requires i <= j <= |s|
    ensures Lower(s[i..j]) == Lower(s)[i..j]
  {
  }

  /** A slice of lower-cased text is the lower-cased slice. */
  lemma {:induction false} SliceOfLowered(s: string, t: string, i: nat, j: nat)
    requires i <= j <= |s| && t == Lower(s)[i..j]
    ensures t == Lower(s[i..j])
  {
    LowerSlice(s, i, j);
  }

  /** Lower-casing twice is lower-casing once. */
  lemma {:induction false} LowerIdempotent(s: string)
    ensures Lower(Lower(s)) == Lower(s)
  {
    var l := Lower(s);
    forall i | 0 <= i < |l| ensures Lower(l)[i] == l[i] {
      assert l[i] == LowerChar(s[i]);
    }
  }

  /** Any slice of lower-cased text is itself lower-cased text. */
  lemma {:induction false} LowerOfLoweredSlice(s: string, t: string, i: nat, j: nat)
    requires i <= j <= |s| && t == Lower(s)[i..j]
    ensures Lower(t) == t
  {
    LowerSlice(Lower(s), i, j);
    LowerIdempotent(s);
  }

  /** Normalized text is already lower-case: lower-casing it changes nothing. */
  lemma {:induction false} LowerOfNormalized(s: string)
    ensures Lower(Normalize(s)) == Normalize(s)
  {
    var n := Normalize(s);
    var k := StripStart(Lower(s));
    LowerOfLoweredSlice(s, n, k, k + |n|);
  }

  /** Normalizing twice is normalizing once, so `validate_move` re-normalizing the
      referee's already normalized input sees the same string. */
  lemma {:induction false} NormalizeIdempotent(s: string)
    ensures Normalize(Normalize(s)) == Normalize(s)
  {
    LowerOfNormalized(s);
    StripIdempotent(Lower(s));
  }

  /** A lower-case ASCII word without padding is its own normal form. */
  lemma {:induction false} NormalizeOfLowerWord(s: string)
    requires forall i :: 0 <= i < |s| ==> IsLowerAscii(s[i])
    ensures Normalize(s) == s
  {
    assert Lower(s) == s;
    TrimStartOfUnpadded(s);
    TrimEndOfUnpadded(s);
  }
}
