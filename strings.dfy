/**
 * The string operations the login flow relies on: `String#downcase` (on the
 * ASCII letters), ActiveSupport's `blank?`, and first/last index of a
 * character.
 */
module Strings {
  import opened Wrappers

  predicate IsUpper(c: char) { 'A' <= c <= 'Z' }

  /** The lower-case form of one character: A-Z map to a-z, all else is kept. */
  function Lower(c: char): (r: char)
    ensures !IsUpper(r)
    ensures !IsUpper(c) ==> r == c
  {
    if IsUpper(c) then (c as int + 32) as char else c
  }

  /** No upper-case letter anywhere in `s`. */
  predicate IsLowercase(s: string) {
    forall i :: 0 <= i < |s| ==> !IsUpper(s[i])
  }

  /** `a` and `b` are the same string once case is ignored. */
  predicate EqualIgnoringCase(a: string, b: string) {
    |a| == |b| && forall i :: 0 <= i < |a| ==> Lower(a[i]) == Lower(b[i])
  }

  /** `String#downcase`: the result has no upper-case letter and differs from `s` only in case. */
  function Downcase(s: string): (r: string)
    ensures IsLowercase(r)
    ensures EqualIgnoringCase(r, s)
  {
    if s == [] then [] else [Lower(s[0])] + Downcase(s[1..])
  }

  /** There is exactly one lower-case string equal to `s` ignoring case, and Downcase finds it. */
  lemma DowncaseUnique(s: string, t: string)
    requires IsLowercase(t) && EqualIgnoringCase(t, s)
    ensures t == Downcase(s)
  {
    var d := Downcase(s);
    forall i | 0 <= i < |t|
      ensures t[i] == d[i]
    {
      assert Lower(t[i]) == Lower(s[i]) == Lower(d[i]);
    }
  }

  /** Downcasing a string that is already lower case changes nothing; so downcasing twice is downcasing once. */
  lemma DowncaseIdempotent(s: string)
    ensures IsLowercase(s) ==> Downcase(s) == s
    ensures Downcase(Downcase(s)) == Downcase(s)
  {
    if IsLowercase(s) {
      DowncaseUnique(s, s);
    }
    var d := Downcase(s);
    assert EqualIgnoringCase(d, d);
    DowncaseUnique(d, d);
  }

  /** Two strings downcase alike exactly when they differ only in case. */
  lemma SameDowncaseIffCaseVariants(s: string)
    ensures forall t :: Downcase(t) == Downcase(s) <==> EqualIgnoringCase(t, s)
  {
    forall t
      ensures Downcase(t) == Downcase(s) <==> EqualIgnoringCase(t, s)
    {
      if EqualIgnoringCase(t, s) {
        CaseVariantsDowncaseAlike(t, s);
      }
      if Downcase(t) == Downcase(s) {
        var dt, ds := Downcase(t), Downcase(s);
        forall i | 0 <= i < |t|
          ensures Lower(t[i]) == Lower(s[i])
        {
          assert Lower(t[i]) == Lower(dt[i]) == Lower(ds[i]) == Lower(s[i]);
        }
      }
    }
  }

  /** Two strings that differ only in case downcase to the same string. */
  lemma CaseVariantsDowncaseAlike(a: string, b: string)
    requires EqualIgnoringCase(a, b)
    ensures Downcase(a) == Downcase(b)
  {
    var d := Downcase(b);
    assert EqualIgnoringCase(d, a) by {
      forall i | 0 <= i < |d|
        ensures Lower(d[i]) == Lower(a[i])
      {
        assert Lower(d[i]) == Lower(b[i]) == Lower(a[i]);
      }
    }
    DowncaseUnique(a, d);
  }

  /**
   * The characters of Unicode's White_Space property, which the `[[:space:]]`
   * class of ActiveSupport's `blank?` matches.
   */
  predicate IsSpace(c: char) {
    || '\t' <= c <= '\r'
    || c == ' '
    || c == '\U{0085}'
    || c == '\U{00A0}'
    || c == '\U{1680}'
    || '\U{2000}' <= c <= '\U{200A}'
    || c == '\U{2028}'
    || c == '\U{2029}'
    || c == '\U{202F}'
    || c == '\U{205F}'
    || c == '\U{3000}'
  }

  /** `blank?` on a string: a scan that stops at the first character outside `[[:space:]]`. */
  function Blank(s: string): (b: bool)
    ensures b <==> forall i :: 0 <= i < |s| ==> IsSpace(s[i])
  {
    s == [] || (IsSpace(s[0]) && Blank(s[1..]))
  }

  /** Position of the first `c` in `s`, if any. */
  function IndexOf(s: string, c: char): (r: Option<nat>)
    ensures r.Some? ==> r.value < |s| && s[r.value] == c
    ensures r.Some? ==> forall m :: 0 <= m < r.value ==> s[m] != c
    ensures r.None? ==> forall m :: 0 <= m < |s| ==> s[m] != c
  {
    if s == [] then None
    else if s[0] == c then Some(0)
    else
      match IndexOf(s[1..], c)
      case None => None
      case Some(k) => Some(k + 1)
  }

  /** Position of the last `c` in `s`, if any. */
  function LastIndexOf(s: string, c: char): (r: Option<nat>)
    ensures r.Some? ==> r.value < |s| && s[r.value] == c
    ensures r.Some? ==> forall m :: r.value < m < |s| ==> s[m] != c
    ensures r.None? ==> forall m :: 0 <= m < |s| ==> s[m] != c
  {
    if s == [] then None
    else if s[|s| - 1] == c then Some(|s| - 1)
    else LastIndexOf(s[..|s| - 1], c)
  }
}
