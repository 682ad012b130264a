/** The string normalisation the store applies before comparing names and emojis:
    `String.prototype.trim` and `String.prototype.toLowerCase`. */
module Text {

  /** The code points ECMAScript's `trim` removes: WhiteSpace and LineTerminator. */
  predicate IsTrimmable(c: char)
  {
    || c == '\t' || c == '\n' || c == '\U{B}' || c == '\U{C}' || c == '\r'
    || c == ' ' || c == '\U{A0}' || c == '\U{1680}'
    || ('\U{2000}' <= c <= '\U{200A}')
    || c == '\U{2028}' || c == '\U{2029}' || c == '\U{202F}' || c == '\U{205F}'
    || c == '\U{3000}' || c == '\U{FEFF}'
  }

  /** How many whitespace characters `s` starts with. */
  function LeadingBlanks(s: string): (n: nat)
    ensures n <= |s|
    ensures forall k :: 0 <= k < n ==> IsTrimmable(s[k])
    ensures n < |s| ==> !IsTrimmable(s[n])
  {
    if |s| == 0 || !IsTrimmable(s[0]) then 0
    else
      var n := 1 + LeadingBlanks(s[1..]);
      assert forall k :: 1 <= k < |s| ==> s[k] == s[1..][k - 1];
      n
  }

  /** Where the trailing whitespace of `s` begins. */
  function ContentEnd(s: string): (e: nat)
    ensures e <= |s|
    ensures forall k :: e <= k < |s| ==> IsTrimmable(s[k])
    ensures e > 0 ==> !IsTrimmable(s[e - 1])
  {
    if |s| == 0 || !IsTrimmable(s[|s| - 1]) then |s|
    else
      var e := ContentEnd(s[..|s| - 1]);
      assert forall k :: 0 <= k < |s| - 1 ==> s[k] == s[..|s| - 1][k];
      e
  }

  /** `r` sits at offset `i` of `s` and everything around it is whitespace. */
  ghost predicate SliceWithin(s: string, r: string, i: int)
  {
    && 0 <= i <= |s| - |r|
    && r == s[i..i + |r|]
    && (forall k :: 0 <= k < i ==> IsTrimmable(s[k]))
    && (forall k :: i + |r| <= k < |s| ==> IsTrimmable(s[k]))
  }

  /** `r` is empty or starts and ends with a non-blank character. */
  predicate Bounded(r: string)
  {
    r == [] || (!IsTrimmable(r[0]) && !IsTrimmable(r[|r| - 1]))
  }

  /** `s.trim()`: the slice of `s` left after removing whitespace from both ends. */
  function Trim(s: string): (r: string)
    ensures SliceWithin(s, r, LeadingBlanks(s))
    ensures Bounded(r)
  {
    var a := LeadingBlanks(s);
    if a == |s| then ""
    else
      var e := ContentEnd(s);
      assert a < e;
      s[a..e]
  }

  /** The trim is the only bounded slice with nothing but whitespace around it. */
  lemma {:induction false} TrimUnique(s: string, r: string, i: int)
    requires SliceWithin(s, r, i) && Bounded(r)
    ensures Trim(s) == r
  {
    var a := LeadingBlanks(s);
    if r == [] {
      assert forall k :: 0 <= k < |s| ==> IsTrimmable(s[k]);
      assert a == |s|;
    } else {
      assert s[i] == r[0] && s[i + |r| - 1] == r[|r| - 1];
      assert a == i;
      assert ContentEnd(s) == i + |r|;
    }
  }

  /** A string already trimmed is its own trim, so trimming twice changes nothing. */
  lemma {:induction false} TrimIdempotent(s: string)
    ensures Trim(Trim(s)) == Trim(s)
  {
    var r := Trim(s);
    assert r == r[0..|r|];
    TrimUnique(r, r, 0);
  }

  /** Simple case mapping restricted to ASCII letters. */
  function LowerChar(c: char): char
  {
    if 'A' <= c <= 'Z' then (c as int + 32) as char else c
  }

  /** `s.toLowerCase()` on the ASCII range. */
  function ToLower(s: string): (r: string)
    ensures |r| == |s|
    ensures forall i :: 0 <= i < |s| ==> r[i] == LowerChar(s[i])
  {
    if |s| == 0 then [] else [LowerChar(s[0])] + ToLower(s[1..])
  }

  /** `(name || '').trim().toLowerCase()`: the form under which the store compares names. */
  function NormalizeName(name: string): (r: string)
    ensures |r| == |Trim(name)| <= |name|
    ensures forall i :: 0 <= i < |r| ==> !('A' <= r[i] <= 'Z')
    ensures r == "" <==> Trim(name) == ""
  {
    ToLower(Trim(name))
  }

  /** `w` consists of whitespace only. */
  predicate AllBlank(w: string)
  {
    forall k :: 0 <= k < |w| ==> IsTrimmable(w[k])
  }

  /** Names that differ only in surrounding whitespace trim, and so compare, equal. */
  lemma {:induction false} NormalizeNameIgnoresPadding(name: string, pre: string, post: string)
    requires AllBlank(pre) && AllBlank(post)
    ensures Trim(pre + name + post) == Trim(name)
    ensures NormalizeName(pre + name + post) == NormalizeName(name)
  {
    PaddedSlice(name, Trim(name), LeadingBlanks(name), pre, post);
    TrimUnique(pre + name + post, Trim(name), LeadingBlanks(name) + |pre|);
  }

  /** Wrapping `s` in whitespace keeps a slice with whitespace around it such a slice,
      shifted by the length of the added prefix. */
  lemma {:induction false} PaddedSlice(s: string, r: string, i: int, pre: string, post: string)
    requires SliceWithin(s, r, i) && AllBlank(pre) && AllBlank(post)
    ensures SliceWithin(pre + s + post, r, i + |pre|)
  {
    var p := pre + s + post;
    var n := |pre|;
    assert forall k :: 0 <= k < |s| ==> p[k + n] == s[k];
    assert r == p[i + n..i + n + |r|];
    forall k | 0 <= k < i + n
      ensures IsTrimmable(p[k])
    {
      if k >= n {
        assert p[k] == s[k - n];
      } else {
        assert p[k] == pre[k];
      }
    }
    forall k | i + n + |r| <= k < |p|
      ensures IsTrimmable(p[k])
    {
      if k < n + |s| {
        assert p[k] == s[k - n];
      } else {
        assert p[k] == post[k - n - |s|];
      }
    }
  }
}
