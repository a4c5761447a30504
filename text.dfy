/**
 * The two Python string operations the backend applies to currency codes:
 * `str.upper()` and `str.strip()`.  `strip()` without arguments removes the
 * characters for which `str.isspace()` holds, at both ends.
 */
module Text {

  /** Python's `str.isspace()` for a single character (the Unicode White_Space
      characters and the separators \x1c-\x1f). */
  predicate IsSpace(c: char) {
    var n := c as int;
    n == 0x20 || 0x09 <= n <= 0x0D || 0x1C <= n <= 0x1F || n == 0x85 || n == 0xA0 ||
    n == 0x1680 || 0x2000 <= n <= 0x200A || n == 0x2028 || n == 0x2029 ||
    n == 0x202F || n == 0x205F || n == 0x3000
  }

  predicate IsLowerAscii(c: char) {
    'a' <= c <= 'z'
  }

  function UpperChar(c: char): (u: char)
    ensures !IsLowerAscii(u)
    ensures IsSpace(u) <==> IsSpace(c)
    ensures IsLowerAscii(c) ==> u as int == c as int - 32
    ensures !IsLowerAscii(c) ==> u == c
  {
    if IsLowerAscii(c) then (c as int - 32) as char else c
  }

  /** `s.upper()`, restricted to the ASCII letters: every `a`-`z` becomes the
      matching capital, every other character is left as it is. */
  function Upper(s: string): (r: string)
    ensures |r| == |s|
    ensures forall k :: 0 <= k < |s| ==> r[k] == UpperChar(s[k])
    ensures forall k :: 0 <= k < |r| ==> !IsLowerAscii(r[k])
  {
    seq(|s|, k requires 0 <= k < |s| => UpperChar(s[k]))
  }

  /** `s.lstrip()`: the suffix of `s` left after its longest whitespace prefix. */
  function StripLeft(s: string): (r: string)
    ensures |r| <= |s| && r == s[|s| - |r|..]
    ensures r == [] || !IsSpace(r[0])
    ensures forall k :: 0 <= k < |s| - |r| ==> IsSpace(s[k])
  {
    if s != [] && IsSpace(s[0]) then StripLeft(s[1..]) else s
  }

  /** `s.rstrip()`: the prefix of `s` left after its longest whitespace suffix. */
  function StripRight(s: string): (r: string)
    ensures |r| <= |s| && r == s[..|r|]
    ensures r == [] || !IsSpace(r[|r| - 1])
    ensures forall k :: |r| <= k < |s| ==> IsSpace(s[k])
  {
    if s != [] && IsSpace(s[|s| - 1]) then StripRight(s[..|s| - 1]) else s
  }

  /** `s.strip()`. */
  function Strip(s: string): (r: string)
    ensures |r| <= |s|
    ensures r == [] || (!IsSpace(r[0]) && !IsSpace(r[|r| - 1]))
  {
    StripRight(StripLeft(s))
  }

  /** `s.upper().strip()`, the normalisation applied to currency codes. */
  function Normalize(s: string): (r: string)
    ensures |r| <= |s|
    ensures forall k :: 0 <= k < |r| ==> !IsLowerAscii(r[k])
    ensures r == [] || (!IsSpace(r[0]) && !IsSpace(r[|r| - 1]))
  {
    var u := Upper(s);
    var l := StripLeft(u);
    NoLowerSlice(u, |u| - |l|, |u|);
    NoLowerSlice(l, 0, |Strip(u)|);
    Strip(u)
  }

  /** Strip returns a contiguous slice, so it keeps "no lower-case letters". */
  lemma NoLowerSlice(s: string, i: nat, j: nat)
    requires i <= j <= |s|
    requires forall k :: 0 <= k < |s| ==> !IsLowerAscii(s[k])
    ensures forall k :: 0 <= k < j - i ==> !IsLowerAscii(s[i..j][k])
  {
    assert forall k :: 0 <= k < j - i ==> s[i..j][k] == s[i + k];
  }

  /** A string with no whitespace at either end is left alone by `strip()`. */
  lemma StripNoEdgeSpace(s: string)
    requires s == [] || (!IsSpace(s[0]) && !IsSpace(s[|s| - 1]))
    ensures Strip(s) == s
  {
    assert StripLeft(s) == s;
    assert StripRight(s) == s;
  }

  /** A string without lower-case ASCII letters is left alone by `upper()`. */
  lemma UpperNoLower(s: string)
    requires forall k :: 0 <= k < |s| ==> !IsLowerAscii(s[k])
    ensures Upper(s) == s
  {
  }

  /** A string already in normal form is its own normal form. */
  lemma NormalizeOfNormal(t: string)
    requires forall k :: 0 <= k < |t| ==> !IsLowerAscii(t[k])
    requires t == [] || (!IsSpace(t[0]) && !IsSpace(t[|t| - 1]))
    ensures Normalize(t) == t
  {
    UpperNoLower(t);
    StripNoEdgeSpace(t);
    assert Normalize(t) == Strip(Upper(t));
  }

  /** Normalising twice is normalising once. */
  lemma NormalizeIdempotent(s: string)
    ensures Normalize(Normalize(s)) == Normalize(s)
  {
    var t := Normalize(s);
    assert forall k :: 0 <= k < |t| ==> !IsLowerAscii(t[k]);
    assert t == [] || (!IsSpace(t[0]) && !IsSpace(t[|t| - 1]));
    NormalizeOfNormal(t);
  }

  /** `strip()` removes exactly the whitespace around a string that has no
      whitespace at either end. */
  lemma StripPadded(pre: string, t: string, post: string)
    requires forall k :: 0 <= k < |pre| ==> IsSpace(pre[k])
    requires forall k :: 0 <= k < |post| ==> IsSpace(post[k])
    requires t == [] || (!IsSpace(t[0]) && !IsSpace(t[|t| - 1]))
    ensures Strip(pre + t + post) == t
  {
    if t == [] {
      assert pre + t + post == pre + post + [];
      StripLeftPrefix(pre + post, []);
    } else {
      assert pre + t + post == pre + (t + post);
      StripLeftPrefix(pre, t + post);
      StripRightSuffix(t, post);
    }
  }

  /** Whitespace around a string does not change its normal form. */
  lemma NormalizeIgnoresSurroundingSpace(pre: string, s: string, post: string)
    requires forall k :: 0 <= k < |pre| ==> IsSpace(pre[k])
    requires forall k :: 0 <= k < |post| ==> IsSpace(post[k])
    requires s == [] || (!IsSpace(s[0]) && !IsSpace(s[|s| - 1]))
    ensures Normalize(pre + s + post) == Upper(s)
  {
    var up, us, uq := Upper(pre), Upper(s), Upper(post);
    assert Upper(pre + s + post) == up + us + uq;
    StripPadded(up, us, uq);
  }

  lemma {:induction false} StripLeftPrefix(pre: string, s: string)
    requires forall k :: 0 <= k < |pre| ==> IsSpace(pre[k])
    requires s == [] || !IsSpace(s[0])
    ensures StripLeft(pre + s) == s
  {
    if pre != [] {
      assert (pre + s)[1..] == pre[1..] + s;
      StripLeftPrefix(pre[1..], s);
    } else {
      assert pre + s == s;
    }
  }

  lemma {:induction false} StripRightSuffix(s: string, post: string)
    requires forall k :: 0 <= k < |post| ==> IsSpace(post[k])
    requires s == [] || !IsSpace(s[|s| - 1])
    ensures StripRight(s + post) == s
  {
    if post != [] {
      assert (s + post)[..|s + post| - 1] == s + post[..|post| - 1];
      StripRightSuffix(s, post[..|post| - 1]);
    } else {
      assert s + post == s;
    }
  }
}
