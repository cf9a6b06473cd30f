/** Character classes and small string operations with Python `str` semantics. */
module Text {

  /** Concatenation is associative (stated once so that proofs can call it on opaque terms). */
  lemma ConcatAssoc<T>(a: seq<T>, b: seq<T>, c: seq<T>)
    ensures a + (b + c) == (a + b) + c
  {
  }

  /** A sequence is its prefix followed by the rest. */
  lemma SplitAt<T>(s: seq<T>, n: nat)
    requires n <= |s|
    ensures s == s[..n] + s[n..]
  {
  }

  /** Past the head, a consed sequence is its tail shifted by one. */
  lemma ConsIndex<T>(x: T, xs: seq<T>)
    ensures forall i :: 1 <= i < |[x] + xs| ==> ([x] + xs)[i] == xs[i - 1]
  {
  }

  /** A non-empty sequence is its head followed by its tail. */
  lemma HeadTail<T>(s: seq<T>)
    requires s != []
    ensures s == [s[0]] + s[1..]
  {
  }

  /** Python's `str.isspace` (the same set `\s` matches in a `str` pattern). */
  predicate IsSpace(c: char) {
    || ('\t' <= c <= '\r')
    || ('\U{1c}' <= c <= '\U{1f}')
    || c == ' ' || c == '\U{85}' || c == '\U{a0}' || c == '\U{1680}'
    || ('\U{2000}' <= c <= '\U{200a}')
    || c == '\U{2028}' || c == '\U{2029}' || c == '\U{202f}' || c == '\U{205f}' || c == '\U{3000}'
  }

  /** An ASCII decimal digit, the class `\d` is taken to be here. */
  predicate IsDigit(c: char) {
    '0' <= c <= '9'
  }

  /** `\w`: letters, digits and `_`, exact on Latin-1; characters above U+00FF are taken as non-word. */
  predicate IsWordChar(c: char) {
    || IsDigit(c) || ('A' <= c <= 'Z') || ('a' <= c <= 'z') || c == '_'
    || c == 'ª' || c == '²' || c == '³' || c == 'µ'
    || c == '¹' || c == 'º' || ('¼' <= c <= '¾')
    || ('À' <= c <= 'Ö') || ('Ø' <= c <= 'ö') || ('ø' <= c <= 'ÿ')
  }

  /** `str.upper` on one character, for ASCII and the Latin-1 letters that map to Latin-1. */
  function UpperChar(c: char): (u: char)
    ensures IsSpace(u) <==> IsSpace(c)
    ensures IsWordChar(u) <==> IsWordChar(c)
  {
    if 'a' <= c <= 'z' then (c as int - 32) as char
    else if 'à' <= c <= 'þ' && c != '÷' then (c as int - 32) as char
    else c
  }

  /** `str.upper`, applied character by character. */
  function Upper(s: string): (u: string)
    ensures |u| == |s|
    ensures forall i :: 0 <= i < |s| ==> u[i] == UpperChar(s[i])
  {
    seq(|s|, i requires 0 <= i < |s| => UpperChar(s[i]))
  }

  /** `s` holds `pat` starting at index `i`. */
  predicate OccursAt(s: string, pat: string, i: int) {
    0 <= i && i + |pat| <= |s| && s[i..i + |pat|] == pat
  }

  /** Python's `pat in s`. */
  predicate Contains(s: string, pat: string) {
    exists i | 0 <= i <= |s| - |pat| :: OccursAt(s, pat, i)
  }

  /** An occurrence of `pat` starts with the first character of `pat`. */
  lemma OccursHead(s: string, pat: string, i: int)
    requires pat != [] && OccursAt(s, pat, i)
    ensures s[i] == pat[0]
  {
    assert s[i..i + |pat|][0] == s[i];
  }

  /** Python's `s.startswith(pat)`. */
  predicate StartsWith(s: string, pat: string) {
    |pat| <= |s| && s[..|pat|] == pat
  }

  /** Python's `s.endswith(pat)`. */
  predicate EndsWith(s: string, pat: string) {
    |pat| <= |s| && s[|s| - |pat|..] == pat
  }

  /** A concatenation ends with its last part. */
  lemma EndsWithAppend(a: string, b: string)
    ensures EndsWith(a + b, b)
  {
    assert (a + b)[|a|..] == b;
  }

  /**
   * Python's `s.find(pat, from)` for a non-empty `pat`: the first index at or after `from`
   * where `pat` occurs, or -1.
   */
  function Find(s: string, pat: string, from: nat): (k: int)
    requires pat != []
    ensures k == -1 || (from <= k && OccursAt(s, pat, k))
    ensures forall j :: from <= j < (if k == -1 then |s| else k) ==> !OccursAt(s, pat, j)
    decreases |s| - from
  {
    if from + |pat| > |s| then -1
    else if OccursAt(s, pat, from) then from
    else Find(s, pat, from + 1)
  }

  /** `s.lstrip()`: the leading whitespace removed. */
  function LStrip(s: string): (r: string)
    ensures |r| <= |s| && r == s[|s| - |r|..]
    ensures r == [] || !IsSpace(r[0])
    ensures s != [] && IsSpace(s[0]) ==> |r| < |s|
  {
    if s != [] && IsSpace(s[0]) then LStrip(s[1..]) else s
  }

  /** `s.rstrip()`: the trailing whitespace removed. */
  function RStrip(s: string): (r: string)
    ensures |r| <= |s| && r == s[..|r|]
    ensures r == [] || !IsSpace(r[|r| - 1])
  {
    if s != [] && IsSpace(s[|s| - 1]) then RStrip(s[..|s| - 1]) else s
  }

  /** Everything `lstrip` removes is whitespace. */
  lemma {:induction false} LStripDropsSpaces(s: string)
    ensures forall k :: 0 <= k < |s| - |LStrip(s)| ==> IsSpace(s[k])
    decreases |s|
  {
    if s != [] && IsSpace(s[0]) {
      LStripDropsSpaces(s[1..]);
      forall k | 0 <= k < |s| - |LStrip(s)|
        ensures IsSpace(s[k])
      {
        if k > 0 {
          assert s[k] == s[1..][k - 1];
        }
      }
    }
  }

  /** Everything `rstrip` removes is whitespace. */
  lemma {:induction false} RStripDropsSpaces(s: string)
    ensures forall k :: |RStrip(s)| <= k < |s| ==> IsSpace(s[k])
    decreases |s|
  {
    if s != [] && IsSpace(s[|s| - 1]) {
      var t := s[..|s| - 1];
      RStripDropsSpaces(t);
      forall k | |RStrip(s)| <= k < |s|
        ensures IsSpace(s[k])
      {
        if k < |s| - 1 {
          assert s[k] == t[k];
        }
      }
    }
  }

  /** `s.strip()` is a slice of `s` with only whitespace outside it. */
  lemma StripIsSlice(s: string) returns (lo: nat, hi: nat)
    ensures lo <= hi <= |s| && Strip(s) == s[lo..hi]
    ensures forall k :: 0 <= k < |s| && !(lo <= k < hi) ==> IsSpace(s[k])
  {
    var t := LStrip(s);
    LStripDropsSpaces(s);
    RStripDropsSpaces(t);
    lo := |s| - |t|;
    hi := lo + |RStrip(t)|;
    SliceOfSuffix(s, lo, |RStrip(t)|);
    forall k | hi <= k < |s|
      ensures IsSpace(s[k])
    {
      assert s[k] == t[k - lo];
    }
  }

  /** A slice that lies within the first part of a concatenation. */
  lemma SliceOfConcat<T>(a: seq<T>, b: seq<T>, lo: nat, hi: nat)
    requires lo <= hi <= |a|
    ensures (a + b)[lo..hi] == a[lo..hi]
  {
  }

  /** A prefix of a suffix is a slice. */
  lemma SliceOfSuffix<T>(s: seq<T>, lo: nat, m: nat)
    requires lo + m <= |s|
    ensures s[lo..][..m] == s[lo..lo + m]
  {
  }

  /** `s.strip()`. */
  function Strip(s: string): (r: string)
    ensures r == [] || (!IsSpace(r[0]) && !IsSpace(r[|r| - 1]))
  {
    RStrip(LStrip(s))
  }

  /** `s.replace(from, to)` for one-character `from` and `to`. */
  function ReplaceChar(s: string, from: char, to: char): (r: string)
    ensures |r| == |s|
    ensures forall i :: 0 <= i < |s| ==> r[i] == (if s[i] == from then to else s[i])
  {
    seq(|s|, i requires 0 <= i < |s| => if s[i] == from then to else s[i])
  }

  /** How many times `c` occurs in `s`. */
  function CountChar(s: string, c: char): (n: nat)
    ensures n == 0 <==> c !in s
  {
    if s == [] then 0 else (if s[0] == c then 1 else 0) + CountChar(s[1..], c)
  }

  /** Python's `str(i)` for an integer. */
  function IntToString(i: int): (r: string)
    ensures r != []
  {
    if i < 0 then "-" + NatToString(-i) else NatToString(i)
  }

  /** The decimal digits of `n`, most significant first. */
  function NatToString(n: nat): (r: string)
    ensures r != [] && forall k :: 0 <= k < |r| ==> IsDigit(r[k])
    decreases n
  {
    if n < 10 then [(n + '0' as int) as char] else NatToString(n / 10) + [(n % 10 + '0' as int) as char]
  }
}
