/** The operations of Go's `strings` package that the decoder relies on, over
    strings as sequences of Unicode characters. */
module GoStrings {

  /** `unicode.IsSpace`: the characters with the Unicode White_Space
      property, written as the ranges they form. */
  predicate IsSpace(c: char) {
    ('\t' <= c <= '\r') || c == ' ' || c == '\U{0085}' || c == '\U{00A0}' || c == '\U{1680}'
    || ('\U{2000}' <= c <= '\U{200A}') || c == '\U{2028}' || c == '\U{2029}'
    || c == '\U{202F}' || c == '\U{205F}' || c == '\U{3000}'
  }

  predicate AllSpace(s: string) {
    forall k :: 0 <= k < |s| ==> IsSpace(s[k])
  }

  /** The position of the first non-space character at or after `i`, or |s|. */
  function SkipSpaceForward(s: string, i: nat): (j: nat)
    requires i <= |s|
    ensures i <= j <= |s|
    ensures forall k :: i <= k < j ==> IsSpace(s[k])
    ensures j == |s| || !IsSpace(s[j])
    decreases |s| - i
  {
    if i < |s| && IsSpace(s[i]) then SkipSpaceForward(s, i + 1) else i
  }

  /** The end of `s[lo..j]` once its trailing white space is dropped. */
  function SkipSpaceBackward(s: string, lo: nat, j: nat): (e: nat)
    requires lo <= j <= |s|
    ensures lo <= e <= j
    ensures forall k :: e <= k < j ==> IsSpace(s[k])
    ensures e == lo || !IsSpace(s[e - 1])
    decreases j
  {
    if j > lo && IsSpace(s[j - 1]) then SkipSpaceBackward(s, lo, j - 1) else j
  }

  /** `strings.TrimSpace`: drops the white space at both ends. */
  function TrimSpace(s: string): (r: string)
    ensures |r| <= |s|
    ensures r == [] || (!IsSpace(r[0]) && !IsSpace(r[|r| - 1]))
    ensures r == [] <==> AllSpace(s)
  {
    var i := SkipSpaceForward(s, 0);
    var e := SkipSpaceBackward(s, i, |s|);
    assert i < |s| ==> i < e;
    s[i..e]
  }

  lemma AllSpaceAppend(a: string, b: string)
    ensures AllSpace(a + b) <==> AllSpace(a) && AllSpace(b)
  {
    if AllSpace(a) && AllSpace(b) {
      forall k | 0 <= k < |a + b| ensures IsSpace((a + b)[k]) {
        if k < |a| { assert (a + b)[k] == a[k]; } else { assert (a + b)[k] == b[k - |a|]; }
      }
    }
    if AllSpace(a + b) {
      forall k | 0 <= k < |a| ensures IsSpace(a[k]) { assert (a + b)[k] == a[k]; }
      forall k | 0 <= k < |b| ensures IsSpace(b[k]) { assert (a + b)[k + |a|] == b[k]; }
    }
  }

  /** `p` occurs in `s` starting at position `i`. */
  predicate OccursAt(s: string, p: string, i: int) {
    0 <= i && i + |p| <= |s| && s[i..i + |p|] == p
  }

  /** The first position at or after `k` at which `p` occurs in `s`, or -1. */
  function IndexFrom(s: string, p: string, k: nat): (r: int)
    ensures -1 <= r <= |s|
    ensures r == -1 <==> forall i :: k <= i <= |s| ==> !OccursAt(s, p, i)
    ensures r >= 0 ==> k <= r && OccursAt(s, p, r) && forall i :: k <= i < r ==> !OccursAt(s, p, i)
    decreases |s| - k
  {
    if k + |p| > |s| then -1
    else if OccursAt(s, p, k) then k
    else IndexFrom(s, p, k + 1)
  }

  /** `strings.Index`: the first position at which `p` occurs in `s`, or -1. */
  function Index(s: string, p: string): (r: int)
    ensures -1 <= r <= |s|
    ensures r == -1 <==> forall i :: 0 <= i <= |s| ==> !OccursAt(s, p, i)
    ensures r >= 0 ==> OccursAt(s, p, r) && forall i :: 0 <= i < r ==> !OccursAt(s, p, i)
  {
    IndexFrom(s, p, 0)
  }

  /** The last position at or before `k` at which `p` occurs in `s`, or -1. */
  function LastIndexFrom(s: string, p: string, k: int): (r: int)
    requires -1 <= k
    ensures -1 <= r <= |s|
    ensures r == -1 <==> forall i :: 0 <= i <= k ==> !OccursAt(s, p, i)
    ensures r >= 0 ==> r <= k && OccursAt(s, p, r) && forall i :: r < i <= k ==> !OccursAt(s, p, i)
    decreases k + 1
  {
    if k < 0 then -1
    else if OccursAt(s, p, k) then k
    else LastIndexFrom(s, p, k - 1)
  }

  /** `strings.LastIndex`: the last position at which `p` occurs in `s`, or -1. */
  function LastIndex(s: string, p: string): (r: int)
    ensures -1 <= r <= |s|
    ensures r == -1 <==> forall i :: 0 <= i <= |s| ==> !OccursAt(s, p, i)
    ensures r >= 0 ==> OccursAt(s, p, r) && forall i :: r < i <= |s| ==> !OccursAt(s, p, i)
  {
    if |p| > |s| then -1 else LastIndexFrom(s, p, |s| - |p|)
  }

  predicate HasPrefix(s: string, p: string) {
    |p| <= |s| && s[..|p|] == p
  }

  predicate HasSuffix(s: string, p: string) {
    |p| <= |s| && s[|s| - |p|..] == p
  }

  /** `strings.TrimPrefix`. */
  function TrimPrefix(s: string, p: string): string {
    if HasPrefix(s, p) then s[|p|..] else s
  }

  /** `strings.TrimSuffix`. */
  function TrimSuffix(s: string, p: string): string {
    if HasSuffix(s, p) then s[..|s| - |p|] else s
  }

  /** `unicode.ToLower`, for the ASCII letters. */
  function LowerChar(c: char): char {
    if 'A' <= c <= 'Z' then (c as int - 'A' as int + 'a' as int) as char else c
  }

  /** `strings.ToLower`, for the ASCII letters. */
  function ToLower(s: string): (r: string)
    ensures |r| == |s|
  {
    seq(|s|, i requires 0 <= i < |s| => LowerChar(s[i]))
  }
}
