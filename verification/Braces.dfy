/**
 Brace matching behind the test regions and drop spans of tools/check_no_poison_expect.py.
 */
module Braces {
  import opened Strings

  /** Opening braces minus closing ones in `s[a..b]`. */
  function Depth(s: string, a: nat, b: nat): int
    requires a <= b <= |s|
  {
    if a == b then 0
    else Depth(s, a, b - 1) + if s[b - 1] == '{' then 1 else if s[b - 1] == '}' then -1 else 0
  }

  lemma {:induction false} DepthSplits(s: string, a: nat, b: nat, c: nat)
    requires a <= b <= c <= |s|
    ensures Depth(s, a, c) == Depth(s, a, b) + Depth(s, b, c)
    decreases c
  {
    if b < c { DepthSplits(s, a, b, c - 1); }
  }

  /** The brace at `a` is still open at every point up to and including `e`. */
  predicate OpenUntil(s: string, a: nat, e: nat)
    requires a <= e <= |s|
  {
    forall k | a < k <= e :: Depth(s, a, k) > 0
  }

  /** `e` ends the shortest balanced segment from `a`, or the text when there is none. */
  predicate ClosesAt(s: string, a: nat, e: nat) {
    && a < e <= |s|
    && ((Depth(s, a, e) == 0 && s[e - 1] == '}' && OpenUntil(s, a, e - 1)) || (e == |s| && OpenUntil(s, a, e)))
  }

  /** Depth in terms of how many braces of each kind there are. */
  lemma {:induction false} DepthCounts(s: string, a: nat, b: nat)
    requires a <= b <= |s|
    ensures multiset(s[a..b])['{'] == multiset(s[a..b])['}'] + Depth(s, a, b)
  {
    if a < b {
      DepthCounts(s, a, b - 1);
      assert s[a..b] == s[a..b - 1] + [s[b - 1]];
    }
  }

  /**
   Ends the shortest segment that closes as many braces as it opens: every shorter one opens more, and this
   one closes the last, or is all the text when none does.
   */
  method MatchBrace(s: string, open: nat) returns (e: nat)
    requires open < |s| && s[open] == '{'
    ensures ClosesAt(s, open, e)
    ensures open < e <= |s| && forall k | open < k < e :: multiset(s[open..k])['{'] > multiset(s[open..k])['}']
    ensures multiset(s[open..e])['{'] == multiset(s[open..e])['}']
         || (e == |s| && multiset(s[open..e])['{'] > multiset(s[open..e])['}'])
  {
    var depth := 0;
    for i := open to |s|
      invariant depth == Depth(s, open, i) && OpenUntil(s, open, i)
    {
      if s[i] == '{' {
        depth := depth + 1;
      } else if s[i] == '}' {
        depth := depth - 1;
        if depth == 0 {
          e := i + 1;
          ClosingCounts(s, open, e);
          return;
        }
      }
      assert Depth(s, open, i + 1) > 0;
    }
    e := |s|;
    ClosingCounts(s, open, e);
  }

  lemma ClosingCounts(s: string, a: nat, e: nat)
    requires ClosesAt(s, a, e)
    ensures forall k | a < k < e :: multiset(s[a..k])['{'] > multiset(s[a..k])['}']
    ensures multiset(s[a..e])['{'] == multiset(s[a..e])['}']
         || (e == |s| && multiset(s[a..e])['{'] > multiset(s[a..e])['}'])
  {
    hide Depth;
    DepthCounts(s, a, e);
    forall k | a < k < e ensures multiset(s[a..k])['{'] > multiset(s[a..k])['}'] {
      DepthCounts(s, a, k);
      assert Depth(s, a, k) > 0;
    }
  }

  /** The regions of any two opening braces are disjoint or one lies inside the other. */
  lemma RegionsAreLaminar(s: string, a: nat, ea: nat, b: nat, eb: nat)
    requires a < b < |s| && s[a] == '{' && s[b] == '{' && ClosesAt(s, a, ea) && ClosesAt(s, b, eb)
    ensures ea <= b || eb <= ea
    ensures b < ea && ea == eb ==> ea == |s| && OpenUntil(s, a, ea)
  {
    if b < ea {
      assert Depth(s, a, b) > 0;
      forall k | b < k <= eb && k <= ea ensures Depth(s, a, k) > 0 {
        DepthSplits(s, a, b, k);
        if k < eb { assert Depth(s, b, k) > 0; }
      }
    }
  }

  /** A span found by a pattern: where its match starts and ends in the original text. */
  datatype Match = Match(start: nat, end: nat)
  datatype Span = Span(start: nat, end: nat)

  /** The span of one match: from its start to the close of the first brace after it. */
  predicate IsSpan(stripped: string, m: Match, r: Span)
    requires m.end <= |stripped|
  {
    var open := Find(stripped, "{", m.end);
    open < |stripped| && r.start == m.start && ClosesAt(stripped, open, r.end)
  }

  /**
   The regions are those of the matches `at`, all among the first `n`, in order, and every such match with a
   brace after it is there.
   */
  ghost predicate RegionsAre(stripped: string, matches: seq<Match>, n: nat, regions: seq<Span>, at: seq<nat>) {
    && n <= |matches| && |at| == |regions|
    && (forall j | 0 <= j < |at| ::
          at[j] < n && matches[at[j]].end <= |stripped| && IsSpan(stripped, matches[at[j]], regions[j]))
    && (forall j, k | 0 <= j < k < |at| :: at[j] < at[k])
    && (forall k | 0 <= k < n && matches[k].end <= |stripped| && '{' in stripped[matches[k].end..] :: k in at)
  }

  /** One span for each match that has a brace after it, on stripped text whose offsets are the original's. */
  method Regions(stripped: string, matches: seq<Match>) returns (regions: seq<Span>)
    requires forall m | m in matches :: m.end <= |stripped|
    ensures exists at :: RegionsAre(stripped, matches, |matches|, regions, at)
  {
    hide IsSpan, Find;
    regions := [];
    ghost var at: seq<nat> := [];
    for i := 0 to |matches|
      invariant RegionsAre(stripped, matches, i, regions, at)
    {
      var open := Find(stripped, "{", matches[i].end);
      FirstBrace(stripped, matches[i].end);
      if open < |stripped| {
        var e := MatchBrace(stripped, open);
        var r := Span(matches[i].start, e);
        assert IsSpan(stripped, matches[i], r) by { SpanIs(stripped, matches[i], r); }
        OneMoreRegion(stripped, matches, i, regions, at, r);
        regions := regions + [r];
        at := at + [i];
      } else {
        NoMoreRegion(stripped, matches, i, regions, at);
      }
    }
  }

  lemma SpanIs(stripped: string, m: Match, r: Span)
    requires m.end <= |stripped| && Find(stripped, "{", m.end) < |stripped|
    requires r.start == m.start && ClosesAt(stripped, Find(stripped, "{", m.end), r.end)
    ensures IsSpan(stripped, m, r)
  {
  }

  lemma OneMoreRegion(stripped: string, matches: seq<Match>, i: nat, regions: seq<Span>, at: seq<nat>, r: Span)
    requires RegionsAre(stripped, matches, i, regions, at) && i < |matches| && matches[i].end <= |stripped|
    requires IsSpan(stripped, matches[i], r)
    ensures RegionsAre(stripped, matches, i + 1, regions + [r], at + [i])
  {
    hide IsSpan;
    assert (at + [i])[|at|] == i;
  }

  lemma NoMoreRegion(stripped: string, matches: seq<Match>, i: nat, regions: seq<Span>, at: seq<nat>)
    requires RegionsAre(stripped, matches, i, regions, at) && i < |matches| && matches[i].end <= |stripped|
    requires '{' !in stripped[matches[i].end..]
    ensures RegionsAre(stripped, matches, i + 1, regions, at)
  {
    hide IsSpan;
  }

  lemma FirstBrace(s: string, i: nat)
    requires i <= |s|
    ensures var open := Find(s, "{", i);
            && (open < |s| <==> '{' in s[i..]) && (open < |s| ==> s[open] == '{')
            && forall k | i <= k < open :: s[k] != '{'
  {
    var open := Find(s, "{", i);
    forall k | i <= k < open ensures s[k] != '{' {
      assert !Sits(s, k, "{");
      assert s[k..k + 1] == [s[k]];
    }
    if open < |s| { SitsChar(s, open, "{", 0); assert s[i..][open - i] == '{'; }
  }

  /** A span starts with its match and ends where the first brace after the match closes. */
  lemma SpanMeans(stripped: string, m: Match, r: Span)
    requires m.end <= |stripped| && IsSpan(stripped, m, r)
    ensures r.start == m.start
    ensures exists open | m.end <= open < r.end <= |stripped| ::
              && stripped[open] == '{' && '{' !in stripped[m.end..open]
              && (multiset(stripped[open..r.end])['{'] == multiset(stripped[open..r.end])['}'] || r.end == |stripped|)
  {
    var open := Find(stripped, "{", m.end);
    FirstBrace(stripped, m.end);
    DepthCounts(stripped, open, r.end);
    hide Depth, OpenUntil, Find;
    assert forall k | 0 <= k < open - m.end :: stripped[m.end..open][k] == stripped[m.end + k];
    assert m.end <= open < r.end <= |stripped|;
  }

  /** The brace parts of any two spans are disjoint or nested. */
  lemma SpansAreLaminar(stripped: string, m: Match, r: Span, n: Match, t: Span)
    requires m.end <= |stripped| && n.end <= |stripped| && IsSpan(stripped, m, r) && IsSpan(stripped, n, t)
    ensures var a, b := Find(stripped, "{", m.end), Find(stripped, "{", n.end);
            || (a <= b && (r.end <= b || t.end <= r.end))
            || (b <= a && (t.end <= a || r.end <= t.end))
  {
    hide ClosesAt, OpenUntil, Depth;
    var a, b := Find(stripped, "{", m.end), Find(stripped, "{", n.end);
    SitsChar(stripped, a, "{", 0);
    SitsChar(stripped, b, "{", 0);
    EndsAreLaminar(stripped, a, r.end, b, t.end);
  }

  lemma EndsAreLaminar(s: string, a: nat, ea: nat, b: nat, eb: nat)
    requires a < |s| && b < |s| && s[a] == '{' && s[b] == '{' && ClosesAt(s, a, ea) && ClosesAt(s, b, eb)
    ensures (a <= b && (ea <= b || eb <= ea)) || (b <= a && (eb <= a || ea <= eb))
  {
    hide OpenUntil, Depth;
    if a < b { RegionsAreLaminar(s, a, ea, b, eb); }
    else if b < a { RegionsAreLaminar(s, b, eb, a, ea); }
  }
}
