/**
 * The address shape `VALID_EMAIL_REGEX` of the User model:
 * `\A[\w+\-.]+@[a-z\d\-]+(\.[a-z\d\-]+)*\.[a-z]+\z` with the `i` flag.
 * In Ruby `\w` and `\d` are ASCII classes, and `i` lets `[a-z]` match A-Z too.
 *
 * The pattern is written twice: once term by term as the regex reads
 * (MatchesPattern, with the existential splits a regex engine searches), and
 * once as a deterministic check that cuts at the first `@` and at dots
 * (IsValidEmail). FormatMatchesPattern proves they accept the same strings.
 */
module EmailFormat {
  import opened Wrappers
  import opened Strings

  predicate IsLetter(c: char) { 'a' <= c <= 'z' || 'A' <= c <= 'Z' }

  predicate IsDigit(c: char) { '0' <= c <= '9' }

  /** `[\w+\-.]`: a character allowed before the `@`. */
  predicate IsLocalChar(c: char) {
    IsLetter(c) || IsDigit(c) || c == '_' || c == '+' || c == '-' || c == '.'
  }

  /** `[a-z\d\-]` under the `i` flag: a character of a domain label. */
  predicate IsLabelChar(c: char) {
    IsLetter(c) || IsDigit(c) || c == '-'
  }

  /** `[\w+\-.]+` */
  predicate LocalPart(s: string) {
    |s| > 0 && forall i :: 0 <= i < |s| ==> IsLocalChar(s[i])
  }

  /** `[a-z\d\-]+` */
  predicate Label(s: string) {
    |s| > 0 && forall i :: 0 <= i < |s| ==> IsLabelChar(s[i])
  }

  /** `[a-z]+` under the `i` flag: the top-level domain. */
  predicate TopLevel(s: string) {
    |s| > 0 && forall i :: 0 <= i < |s| ==> IsLetter(s[i])
  }

  /** `[a-z\d\-]+(\.[a-z\d\-]+)*`: one label, or a label, a dot and again a run of labels. */
  ghost predicate LabelRun(s: string)
    decreases |s|
  {
    || Label(s)
    || exists k :: 0 <= k < |s| && s[k] == '.' && Label(s[..k]) && LabelRun(s[k + 1..])
  }

  /** `[a-z\d\-]+(\.[a-z\d\-]+)*\.[a-z]+`: a run of labels, a dot and a top-level domain. */
  ghost predicate DomainPattern(s: string) {
    exists j :: 0 <= j < |s| && s[j] == '.' && LabelRun(s[..j]) && TopLevel(s[j + 1..])
  }

  /** The whole anchored regex. */
  ghost predicate MatchesPattern(s: string) {
    exists i :: 0 <= i < |s| && s[i] == '@' && LocalPart(s[..i]) && DomainPattern(s[i + 1..])
  }

  /** Labels separated by single dots, checked from the first dot onwards. */
  function LabelsOk(s: string): (ok: bool)
    decreases |s|
  {
    match IndexOf(s, '.')
    case None => Label(s)
    case Some(k) => Label(s[..k]) && LabelsOk(s[k + 1..])
  }

  /** The domain: labels up to the last dot, letters after it. */
  function DomainOk(s: string): (ok: bool) {
    match LastIndexOf(s, '.')
    case None => false
    case Some(j) => LabelsOk(s[..j]) && TopLevel(s[j + 1..])
  }

  /** The format validation of the `email` attribute. */
  function IsValidEmail(s: string): (ok: bool) {
    match IndexOf(s, '@')
    case None => false
    case Some(i) => LocalPart(s[..i]) && DomainOk(s[i + 1..])
  }

  lemma {:induction false} LabelsOkMatchesRun(s: string)
    ensures LabelsOk(s) <==> LabelRun(s)
    decreases |s|
  {
    match IndexOf(s, '.')
    case None =>
    case Some(k) =>
      assert !Label(s) by { assert !IsLabelChar(s[k]); }
      LabelsOkMatchesRun(s[k + 1..]);
      if LabelsOk(s) {
        assert s[k] == '.' && Label(s[..k]) && LabelRun(s[k + 1..]);
      }
      if LabelRun(s) {
        var k' :| 0 <= k' < |s| && s[k'] == '.' && Label(s[..k']) && LabelRun(s[k' + 1..]);
        // the label before k' holds no dot, so k' is the first dot
        forall m | 0 <= m < k' ensures s[m] != '.' { assert s[..k'][m] == s[m]; }
        assert k' == k;
      }
  }

  /** With its last '.' at `j`, a domain matches exactly when it splits there. */
  lemma SplitAtLastDot(s: string, j: nat)
    requires j < |s| && s[j] == '.'
    requires forall m :: j < m < |s| ==> s[m] != '.'
    ensures DomainPattern(s) <==> LabelRun(s[..j]) && TopLevel(s[j + 1..])
  {
    if LabelRun(s[..j]) && TopLevel(s[j + 1..]) {
      assert s[j] == '.' && LabelRun(s[..j]) && TopLevel(s[j + 1..]);
    }
    if DomainPattern(s) {
      var j' :| 0 <= j' < |s| && s[j'] == '.' && LabelRun(s[..j']) && TopLevel(s[j' + 1..]);
      // the top-level domain after j' holds no dot, so j' is the last dot
      forall m | j' < m < |s| ensures s[m] != '.' { assert s[j' + 1..][m - j' - 1] == s[m]; }
      assert j' == j;
    }
  }

  lemma DomainOkMatchesPattern(s: string)
    ensures DomainOk(s) <==> DomainPattern(s)
  {
    match LastIndexOf(s, '.')
    case None =>
    case Some(j) =>
      SplitAtLastDot(s, j);
      LabelsOkMatchesRun(s[..j]);
  }

  /** With its first '@' at `i`, a string matches exactly when it splits there. */
  lemma SplitAtFirstAt(s: string, i: nat)
    requires i < |s| && s[i] == '@'
    requires forall m :: 0 <= m < i ==> s[m] != '@'
    ensures MatchesPattern(s) <==> LocalPart(s[..i]) && DomainPattern(s[i + 1..])
  {
    if MatchesPattern(s) {
      var i' :| 0 <= i' < |s| && s[i'] == '@' && LocalPart(s[..i']) && DomainPattern(s[i' + 1..]);
      // the local part before i' holds no '@', so i' is the first '@'
      forall m | 0 <= m < i' ensures s[m] != '@' { assert s[..i'][m] == s[m]; }
      assert i' == i;
    }
  }

  /** The deterministic check accepts exactly the strings the regex matches. */
  lemma FormatMatchesPattern(s: string)
    ensures IsValidEmail(s) <==> MatchesPattern(s)
  {
    match IndexOf(s, '@')
    case None =>
    case Some(i) =>
      SplitAtFirstAt(s, i);
      DomainOkMatchesPattern(s[i + 1..]);
  }
}
