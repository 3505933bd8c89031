/**
  E-mail comparison for invite acceptance: both addresses are stripped of
  surrounding whitespace and lower-cased before they are compared.

  Whitespace is the ASCII whitespace Python's `str.strip` removes, and case
  mapping covers the ASCII letters.
 */
module Emails {

  predicate IsSpace(c: char) {
    c == ' ' || ('\t' <= c <= '\r') || ('\U{1C}' <= c <= '\U{1F}')
  }

  /** A string made of whitespace only (possibly empty). */
  predicate IsBlank(s: string) {
    forall i :: 0 <= i < |s| ==> IsSpace(s[i])
  }

  function TrimStart(s: string): (r: string)
    ensures |r| <= |s|
    ensures r == s[|s| - |r|..]
    ensures IsBlank(s[..|s| - |r|])
    ensures r != [] ==> !IsSpace(r[0])
  {
    if |s| > 0 && IsSpace(s[0]) then
      var r := TrimStart(s[1..]);
      BlankPrefixGrows(s, |s[1..]| - |r|);
      r
    else s
  }

  /** A blank prefix of `s[1..]` behind a leading space is a blank prefix of `s`. */
  lemma BlankPrefixGrows(s: string, m: nat)
    requires 0 < |s| && IsSpace(s[0]) && m <= |s| - 1
    requires IsBlank(s[1..][..m])
    ensures IsBlank(s[..m + 1])
    ensures s[1..][m..] == s[m + 1..]
  {
    forall i | 0 < i < m + 1
      ensures IsSpace(s[i])
    {
      assert s[1..][..m][i - 1] == s[i];
    }
  }

  function TrimEnd(s: string): (r: string)
    ensures |r| <= |s|
    ensures r == s[..|r|]
    ensures IsBlank(s[|r|..])
    ensures r != [] ==> !IsSpace(r[|r| - 1])
  {
    if |s| > 0 && IsSpace(s[|s| - 1]) then
      var r := TrimEnd(s[..|s| - 1]);
      BlankSuffixGrows(s, |r|);
      r
    else s
  }

  /** A blank suffix of `s` without its trailing space, followed by that space, is a blank suffix of `s`. */
  lemma BlankSuffixGrows(s: string, m: nat)
    requires 0 < |s| && IsSpace(s[|s| - 1]) && m <= |s| - 1
    requires IsBlank(s[..|s| - 1][m..])
    ensures IsBlank(s[m..])
    ensures s[..|s| - 1][..m] == s[..m]
  {
    forall i | m <= i < |s| - 1
      ensures IsSpace(s[i])
    {
      assert s[..|s| - 1][m..][i - m] == s[i];
    }
  }

  /** `s` without leading and trailing whitespace (Python `s.strip()`). */
  function Strip(s: string): string {
    TrimEnd(TrimStart(s))
  }

  function LowerChar(c: char): (d: char)
    ensures IsSpace(d) <==> IsSpace(c)
  {
    if 'A' <= c <= 'Z' then (c as int + 32) as char else c
  }

  function UpperChar(c: char): (d: char)
    ensures IsSpace(d) <==> IsSpace(c)
  {
    if 'a' <= c <= 'z' then (c as int - 32) as char else c
  }

  /** `s` lower-cased (Python `s.lower()`). */
  function Lower(s: string): (r: string)
    ensures |r| == |s|
    ensures forall i :: 0 <= i < |s| ==> r[i] == LowerChar(s[i])
  {
    seq(|s|, i requires 0 <= i < |s| => LowerChar(s[i]))
  }

  function Upper(s: string): (r: string)
    ensures |r| == |s|
    ensures forall i :: 0 <= i < |s| ==> r[i] == UpperChar(s[i])
  {
    seq(|s|, i requires 0 <= i < |s| => UpperChar(s[i]))
  }

  /** The form in which an invite's address and the user's address are compared. */
  function Normalize(s: string): string {
    Lower(Strip(s))
  }

  /** Whether an invite addressed to `invited` is meant for the user whose address is `actual`. */
  predicate EmailsMatch(invited: string, actual: string) {
    Normalize(invited) == Normalize(actual)
  }

  // ---------------------------------------------------------------------------
  // Properties of the comparison

  lemma {:induction false} TrimStartPadded(pre: string, s: string)
    requires IsBlank(pre)
    ensures TrimStart(pre + s) == TrimStart(s)
  {
    if |pre| > 0 {
      assert (pre + s)[1..] == pre[1..] + s;
      TrimStartPadded(pre[1..], s);
    } else {
      assert pre + s == s;
    }
  }

  lemma {:induction false} TrimEndPadded(s: string, post: string)
    requires IsBlank(post)
    ensures TrimEnd(s + post) == TrimEnd(s)
  {
    if |post| > 0 {
      var n := |post| - 1;
      assert (s + post)[..|s + post| - 1] == s + post[..n];
      TrimEndPadded(s, post[..n]);
    } else {
      assert s + post == s;
    }
  }

  /** Trailing whitespace after the text does not survive trimming at the start and end. */
  lemma StripTrailing(s: string, post: string)
    requires IsBlank(post)
    ensures Strip(s + post) == Strip(s)
  {
    var t := TrimStart(s);
    var lead := s[..|s| - |t|];
    assert s == lead + t;
    assert s + post == lead + (t + post);
    TrimStartPadded(lead, t + post);
    if t == [] {
      assert t + post == post;
      TrimStartPadded(post, []);
      assert post + [] == post;
      assert TrimStart(s + post) == [];
    } else {
      assert TrimStart(t + post) == t + post;
    }
    TrimEndPadded(t, post);
  }

  /** Whitespace around an address does not change its normal form. */
  lemma StripPadded(pre: string, s: string, post: string)
    requires IsBlank(pre) && IsBlank(post)
    ensures Strip(pre + s + post) == Strip(s)
  {
    assert pre + s + post == pre + (s + post);
    TrimStartPadded(pre, s + post);
    assert Strip(pre + s + post) == Strip(s + post);
    StripTrailing(s, post);
  }

  lemma LowerOfUpper(s: string)
    ensures Lower(Upper(s)) == Lower(s)
  {
    var a := Lower(Upper(s));
    var b := Lower(s);
    assert forall i :: 0 <= i < |s| ==> a[i] == b[i];
  }

  /** Trimming at the start removes as much from two strings with whitespace at the same places. */
  lemma {:induction false} TrimStartSameShape(a: string, b: string)
    requires |a| == |b|
    requires forall i :: 0 <= i < |a| ==> (IsSpace(a[i]) <==> IsSpace(b[i]))
    ensures |TrimStart(a)| == |TrimStart(b)|
  {
    if |a| > 0 && IsSpace(a[0]) {
      assert forall i :: 0 <= i < |a| - 1 ==> a[1..][i] == a[i + 1] && b[1..][i] == b[i + 1];
      TrimStartSameShape(a[1..], b[1..]);
    }
  }

  /** Upper-casing commutes with dropping a prefix. */
  lemma UpperSuffix(s: string, k: nat)
    requires k <= |s|
    ensures Upper(s[k..]) == Upper(s)[k..]
  {
    var v := Upper(s[k..]);
    var w := Upper(s)[k..];
    assert |v| == |w|;
    forall i | 0 <= i < |v|
      ensures v[i] == w[i]
    {
      assert s[k..][i] == s[k + i];
    }
  }

  lemma TrimStartUpper(s: string)
    ensures TrimStart(Upper(s)) == Upper(TrimStart(s))
  {
    var u := Upper(s);
    var t := TrimStart(s);
    var k := |s| - |t|;
    assert t == s[k..];
    TrimStartSameShape(u, s);
    assert TrimStart(u) == u[k..];
    UpperSuffix(s, k);
  }

  lemma {:induction false} TrimEndUpper(s: string)
    ensures TrimEnd(Upper(s)) == Upper(TrimEnd(s))
  {
    if |s| > 0 {
      var n := |s| - 1;
      assert Upper(s)[..n] == Upper(s[..n]);
      TrimEndUpper(s[..n]);
    }
  }

  lemma StripOfUpper(s: string)
    ensures Strip(Upper(s)) == Upper(Strip(s))
  {
    TrimStartUpper(s);
    TrimEndUpper(TrimStart(s));
  }

  /**
    An invite matches an account whose address differs only by surrounding
    whitespace and letter case: " Bob@X.com\n" is meant for "bob@x.com".
   */
  lemma MatchIgnoresPaddingAndCase(pre: string, e: string, post: string)
    requires IsBlank(pre) && IsBlank(post)
    ensures EmailsMatch(pre + Upper(e) + post, e)
    ensures EmailsMatch(e, pre + Upper(e) + post)
  {
    StripPadded(pre, Upper(e), post);
    StripOfUpper(e);
    LowerOfUpper(Strip(e));
  }
}
