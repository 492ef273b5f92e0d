/** Substring search shared by the scanners. */
module Strings {
  /** `r` stands in `s` at offset `i`. */
  predicate Sits(s: string, i: nat, r: string) {
    i + |r| <= |s| && s[i..i + |r|] == r
  }

  /** First offset at or after `i` where `pat` stands, or `|s|` when there is none. */
  function Find(s: string, pat: string, i: nat): (k: nat)
    requires i <= |s| && 0 < |pat|
    ensures i <= k <= |s|
    ensures k < |s| ==> Sits(s, k, pat)
    ensures forall j | i <= j < k :: !Sits(s, j, pat)
    ensures k == |s| ==> forall j | i <= j <= |s| :: !Sits(s, j, pat)
    decreases |s| - i
  {
    if i == |s| || Sits(s, i, pat) then i else Find(s, pat, i + 1)
  }

  /** `Find` is pinned down by its contract. */
  lemma FindIs(s: string, pat: string, i: nat, k: nat)
    requires i <= k <= |s| && 0 < |pat|
    requires k < |s| ==> Sits(s, k, pat)
    requires forall j | i <= j < k :: !Sits(s, j, pat)
    ensures Find(s, pat, i) == k
  {
  }

  lemma SitsParts(s: string, i: nat, a: string, b: string)
    requires Sits(s, i, a + b)
    ensures Sits(s, i, a) && Sits(s, i + |a|, b)
  {
    assert s[i..i + |a|] == (a + b)[..|a|];
    assert s[i + |a|..i + |a| + |b|] == (a + b)[|a|..];
  }

  lemma SitsJoin(s: string, i: nat, a: string, b: string)
    requires Sits(s, i, a) && Sits(s, i + |a|, b)
    ensures Sits(s, i, a + b)
  {
  }

  lemma SitsChar(s: string, i: nat, r: string, k: nat)
    requires Sits(s, i, r) && k < |r|
    ensures s[i + k] == r[k]
  {
  }

  predicate At(s: string, i: nat, a: char, b: char)
  {
    i + 1 < |s| && s[i] == a && s[i + 1] == b
  }

  /** Length of the maximal run of `#` starting at `i`. */
  function HashRun(s: string, i: nat): (n: nat)
    requires i <= |s|
    ensures i + n <= |s|
    ensures 0 < n ==> s[i + n - 1] == '#'
    decreases |s| - i
  {
    if i < |s| && s[i] == '#' then 1 + HashRun(s, i + 1) else 0
  }

  lemma {:induction false} HashRunIs(s: string, i: nat, n: nat)
    requires i + n <= |s|
    requires forall k | i <= k < i + n :: s[k] == '#'
    requires i + n < |s| ==> s[i + n] != '#'
    ensures HashRun(s, i) == n
    decreases n
  {
    if 0 < n { HashRunIs(s, i + 1, n - 1); }
  }

  /** White space as Python's `str` methods and patterns see it. */
  predicate IsSpace(c: char) {
    || '\t' <= c <= '\r' || '\U{1C}' <= c <= ' ' || c == '\U{85}' || c == '\U{A0}' || c == '\U{1680}'
    || '\U{2000}' <= c <= '\U{200A}' || c == '\U{2028}' || c == '\U{2029}' || c == '\U{202F}'
    || c == '\U{205F}' || c == '\U{3000}'
  }

  /** Where `splitlines` cuts. */
  predicate IsBreak(c: char) {
    '\n' <= c <= '\r' || '\U{1C}' <= c <= '\U{1E}' || c == '\U{85}' || c == '\U{2028}' || c == '\U{2029}'
  }

  /** Both classes, one by one. */
  lemma CharClasses(c: char)
    ensures IsBreak(c) <==> c in "\n\U{0B}\U{0C}\r\U{1C}\U{1D}\U{1E}\U{85}\U{2028}\U{2029}"
    ensures IsSpace(c) <==>
              || c in "\t\n\U{0B}\U{0C}\r\U{1C}\U{1D}\U{1E}\U{1F} \U{85}\U{A0}\U{1680}"
              || c in "\U{2000}\U{2001}\U{2002}\U{2003}\U{2004}\U{2005}\U{2006}\U{2007}\U{2008}\U{2009}\U{200A}"
              || c in "\U{2028}\U{2029}\U{202F}\U{205F}\U{3000}"
  {
  }

  function FirstBreak(s: string, i: nat): (k: nat)
    requires i <= |s|
    ensures i <= k <= |s| && (k < |s| ==> IsBreak(s[k])) && forall j | i <= j < k :: !IsBreak(s[j])
    decreases |s| - i
  {
    if i == |s| || IsBreak(s[i]) then i else FirstBreak(s, i + 1)
  }

  function SplitLines(s: string): seq<string>
    decreases |s|
  {
    if s == "" then []
    else
      var k := FirstBreak(s, 0);
      if k == |s| then [s]
      else [s[..k]] + SplitLines(s[if At(s, k, '\r', '\n') then k + 2 else k + 1..])
  }

  predicate Unbroken(s: string) {
    forall k | 0 <= k < |s| :: !IsBreak(s[k])
  }

  lemma SplitOnce(s: string)
    requires s != ""
    ensures var k := FirstBreak(s, 0);
            SplitLines(s) == if k == |s| then [s]
                             else [s[..k]] + SplitLines(s[if At(s, k, '\r', '\n') then k + 2 else k + 1..])
  {
    hide FirstBreak, At;
  }

  lemma NoLines()
    ensures SplitLines("") == []
  {
  }

  lemma {:induction false} LinesAreUnbroken(s: string, k: nat)
    requires k < |SplitLines(s)|
    ensures Unbroken(SplitLines(s)[k])
    decreases |s|
  {
    hide SplitLines, FirstBreak;
    NoLines();
    SplitOnce(s);
    var b := FirstBreak(s, 0);
    if b < |s| && 0 < k {
      LinesAreUnbroken(s[if At(s, b, '\r', '\n') then b + 2 else b + 1..], k - 1);
    }
  }
}
