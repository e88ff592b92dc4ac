/**
 * The string operations Hash-Matcher.py relies on, with the meaning Python gives
 * them, restricted to ASCII: `str.isspace`, `str.strip`, `str.lower` and
 * `str.endswith`.
 */
module Text {

  /** `str.isspace()` of one ASCII character: space, TAB through CR, and the separators FS, GS, RS and US. */
  predicate IsSpace(c: char) {
    c == ' ' || ('\t' <= c <= '\r') || ('\U{1C}' <= c <= '\U{1F}')
  }

  predicate AllSpace(s: string) {
    forall i :: 0 <= i < |s| ==> IsSpace(s[i])
  }

  /** Neither end of `s` is whitespace: what `str.strip()` leaves behind. */
  predicate Trimmed(s: string) {
    s == [] || (!IsSpace(s[0]) && !IsSpace(s[|s| - 1]))
  }

  /** The left scan of `str.strip()`: the first index at or after `i` that is not whitespace, or `|s|`. */
  function SkipSpace(s: string, i: nat): (k: nat)
    requires i <= |s|
    ensures i <= k <= |s|
    ensures forall m :: i <= m < k ==> IsSpace(s[m])
    ensures k < |s| ==> !IsSpace(s[k])
    decreases |s| - i
  {
    if i < |s| && IsSpace(s[i]) then SkipSpace(s, i + 1) else i
  }

  /** The right scan of `str.strip()`: moving down from `j`, never below `lo`, the end of the last non-whitespace character. */
  function BackSpace(s: string, lo: nat, j: nat): (k: nat)
    requires lo <= j <= |s|
    ensures lo <= k <= j
    ensures forall m :: k <= m < j ==> IsSpace(s[m])
    ensures k > lo ==> !IsSpace(s[k - 1])
    decreases j
  {
    if j > lo && IsSpace(s[j - 1]) then BackSpace(s, lo, j - 1) else j
  }

  /** Where the text that `Strip` keeps begins in `s`. */
  function StripStart(s: string): nat
  {
    SkipSpace(s, 0)
  }

  /** `str.strip()`: the slice of `s` between its leading and its trailing whitespace. */
  function Strip(s: string): (r: string)
    ensures Trimmed(r)
    ensures StripStart(s) + |r| <= |s| && r == s[StripStart(s)..StripStart(s) + |r|]
    ensures forall m :: 0 <= m < StripStart(s) ==> IsSpace(s[m])
    ensures forall m :: StripStart(s) + |r| <= m < |s| ==> IsSpace(s[m])
  {
    var a := SkipSpace(s, 0);
    s[a..BackSpace(s, a, |s|)]
  }

  /** Whitespace around a trimmed text is exactly what `Strip` removes. */
  lemma StripPadded(pre: string, t: string, post: string)
    requires AllSpace(pre) && AllSpace(post) && Trimmed(t)
    ensures Strip(pre + t + post) == t
  {
    var s := pre + t + post;
    var a := SkipSpace(s, 0);
    var b := BackSpace(s, a, |s|);
    if t == [] {
      assert forall m :: 0 <= m < |s| ==> IsSpace(s[m]) by {
        forall m | 0 <= m < |s| ensures IsSpace(s[m]) {
          if m < |pre| { assert s[m] == pre[m]; } else { assert s[m] == post[m - |pre|]; }
        }
      }
      assert a == |s|;
    } else {
      assert s[|pre|] == t[0];
      assert forall m :: 0 <= m < |pre| ==> s[m] == pre[m];
      assert a == |pre|;
      var e := |pre| + |t|;
      assert s[e - 1] == t[|t| - 1];
      assert forall m :: e <= m < |s| ==> s[m] == post[m - e];
      assert b == e;
      assert s[a..b] == t;
    }
  }

  /** `str.lower()` of one ASCII character. */
  function LowerChar(c: char): char {
    if 'A' <= c <= 'Z' then (c as int + 32) as char else c
  }

  /** `str.lower()`: lower-cases every ASCII letter and leaves every other character alone. */
  function Lower(s: string): string {
    seq(|s|, i requires 0 <= i < |s| => LowerChar(s[i]))
  }

  /** `str.endswith(suffix)`. */
  predicate EndsWith(s: string, suffix: string) {
    |suffix| <= |s| && s[|s| - |suffix|..] == suffix
  }
}
