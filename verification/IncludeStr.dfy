/**
 The production-image check (tools/check_include_str.py): which `include_str!` calls are live, and when a
 path they name lies under a copied one.
 */
module IncludeStr {
  import opened Wrappers
  import opened Strings
  import opened MaskTokens
  import opened MaskSource

  const CALL := "include_str!("

  function SkipSpace(s: string, i: nat): (k: nat)
    requires i <= |s|
    ensures i <= k <= |s|
    decreases |s| - i
  {
    if i < |s| && IsSpace(s[i]) then SkipSpace(s, i + 1) else i
  }

  /** The quoted operand that follows offset `e`, if one does. */
  function Operand(s: string, e: nat): Option<string>
    requires e <= |s|
  {
    var k := SkipSpace(s, e);
    if k < |s| && s[k] == '"' && k + 1 < Find(s, "\"", k + 1) < |s|
    then Some(s[k + 1..Find(s, "\"", k + 1)]) else None
  }

  /** An operand written after a call, with any white space before it, is read back. */
  lemma {:induction false} OperandReadsBack(pre: string, gap: string, op: string, post: string)
    requires (forall k | 0 <= k < |gap| :: IsSpace(gap[k])) && op != "" && '"' !in op
    ensures var s := pre + gap + "\"" + op + "\"" + post; Operand(s, |pre|) == Some(op)
  {
    var s := pre + gap + "\"" + op + "\"" + post;
    var k := |pre| + |gap|;
    assert s[k] == '"' && s[k + 1 + |op|] == '"' && s[k + 1..k + 1 + |op|] == op;
    SkipsGap(s, |pre|, k);
    forall j | k + 1 <= j < k + 1 + |op| ensures s[j] != '"' { assert s[j] == op[j - k - 1]; }
    FindCharIs(s, '"', k + 1, k + 1 + |op|);
  }

  lemma {:induction false} SkipsGap(s: string, i: nat, k: nat)
    requires i <= k < |s| && !IsSpace(s[k]) && forall j | i <= j < k :: IsSpace(s[j])
    ensures SkipSpace(s, i) == k
    decreases k - i
  {
    if i < k { SkipsGap(s, i + 1, k); }
  }

  lemma {:induction false} SkipSpaceIs(s: string, i: nat)
    requires i <= |s|
    ensures var k := SkipSpace(s, i); (forall j | i <= j < k :: IsSpace(s[j])) && (k < |s| ==> !IsSpace(s[k]))
    decreases |s| - i
  {
    if i < |s| && IsSpace(s[i]) { SkipSpaceIs(s, i + 1); }
  }

  /** After white space from `e` to `k`, a quote, at least one character that is none, and a quote. */
  predicate OperandAt(s: string, e: nat, k: nat, op: string) {
    && e <= k <= |s| && (forall j | e <= j < k :: IsSpace(s[j]))
    && op != "" && '"' !in op && Sits(s, k, "\"" + (op + "\""))
  }

  lemma OperandRead(s: string, e: nat, op: string)
    requires e <= |s| && Operand(s, e) == Some(op)
    ensures OperandAt(s, e, SkipSpace(s, e), op)
  {
    hide SkipSpace, Find;
    var k := SkipSpace(s, e);
    SkipSpaceIs(s, e);
    var f := Find(s, "\"", k + 1);
    FindChar(s, '"', k + 1);
    assert s[k..k + 1] == "\"" && s[f..f + 1] == "\"";
    Enclosed(s, k, "\"", f, "\"");
  }

  lemma OperandWritten(s: string, e: nat, k: nat, op: string)
    requires OperandAt(s, e, k, op)
    ensures Operand(s, e) == Some(op)
  {
    hide SkipSpace, Find;
    Opened(s, k, "\"", op, "\"");
    SitsChar(s, k, "\"", 0);
    SitsChar(s, k + 1 + |op|, "\"", 0);
    forall j | k + 1 <= j < k + 1 + |op| ensures s[j] != '"' { SitsChar(s, k + 1, op, j - k - 1); }
    SkipsGap(s, e, k);
    FindCharIs(s, '"', k + 1, k + 1 + |op|);
  }

  /** What an operand is, in full. */
  lemma OperandIs(s: string, e: nat, op: string)
    requires e <= |s|
    ensures Operand(s, e) == Some(op) <==> exists k :: OperandAt(s, e, k, op)
  {
    hide Operand, OperandAt;
    if Operand(s, e) == Some(op) { OperandRead(s, e, op); }
    if k :| OperandAt(s, e, k, op) { OperandWritten(s, e, k, op); }
  }

  /** The call stands verbatim in the source at `k`, every character of it code. */
  predicate Live(s: string, k: nat) {
    Sits(s, k, CALL) && forall j | k <= j < k + |CALL| :: CodeAt(s, 0, j)
  }

  /** A live call at `k` with an operand after it. */
  predicate SiteAt(s: string, k: nat) {
    Live(s, k) && k + |CALL| <= |s| && Operand(s, k + |CALL|).Some?
  }

  /**
   `sites` are the operands of the live calls before `n`, at the positions `at`: one each, in order, and no
   call left out.
   */
  ghost predicate SitesBefore(s: string, n: nat, sites: seq<string>, at: seq<nat>) {
    && |at| == |sites|
    && (forall j | 0 <= j < |at| ::
          at[j] < n && SiteAt(s, at[j]) && Operand(s, at[j] + |CALL|) == Some(sites[j]))
    && (forall j, k | 0 <= j < k < |at| :: at[j] < at[k])
    && (forall k: nat | k < n && SiteAt(s, k) :: k in at)
  }

  /** Calls found in the masked text are exactly the live calls of the source. */
  lemma FoundIsLive(s: string, k: nat)
    ensures Sits(Mask(s), k, CALL) <==> Live(s, k)
  {
    hide Mask, CodeAt, PlainAt;
    MaskIsAligned(s);
    var m := Mask(s);
    if Sits(m, k, CALL) {
      forall j | k <= j < k + |CALL| ensures j < |s| && s[j] == CALL[j - k] && CodeAt(s, 0, j) {
        SitsChar(m, k, CALL, j - k);
        assert Kept(s, 0, j, m[j]);
      }
      assert CodeAt(s, 0, k + |CALL| - 1);
      assert s[k..k + |CALL|] == CALL;
    }
    if Live(s, k) {
      forall j | k <= j < k + |CALL| ensures m[j] == CALL[j - k] {
        assert Kept(s, 0, j, m[j]);
        SitsChar(s, k, CALL, j - k);
      }
      assert m[k..k + |CALL|] == CALL;
    }
  }

  /** Two occurrences of the call never overlap. */
  lemma NoOverlap(m: string, k: nat, j: nat)
    requires Sits(m, k, CALL) && k < j < k + |CALL|
    ensures !Sits(m, j, CALL)
  {
    if Sits(m, j, CALL) {
      SitsChar(m, j, CALL, 0);
      SitsChar(m, k, CALL, j - k);
    }
  }

  /** The skipped stretch between two searches holds no live call. */
  lemma NoLiveBetween(s: string, i: nat, k: nat)
    requires i <= k <= |Mask(s)| && forall j | i <= j < k :: !Sits(Mask(s), j, CALL)
    ensures forall j | i <= j < k :: !Live(s, j)
  {
    forall j | i <= j < k ensures !Live(s, j) { FoundIsLive(s, j); }
  }

  lemma MaskLength(s: string)
    ensures |s| <= |Mask(s)|
  {
    MaskIsAligned(s);
  }

  /**
   Finds each call in the masked text and reads its operand from the source at the same offset. There are
   strictly increasing positions, one for each site, where a live call stands whose operand is that site, and
   every live call that has an operand is among them.
   */
  method IncludeSites(source: string) returns (sites: seq<string>)
    ensures exists at :: SitesBefore(source, |source|, sites, at)
  {
    hide Mask, Operand, Live, SitesBefore, Find;
    var masked := MaskText(source);
    MaskLength(source);
    NoSitesYet(source);
    sites := [];
    ghost var at: seq<nat> := [];
    var i := 0;
    while i < |source|
      invariant i <= |source| <= |masked| && SitesBefore(source, i, sites, at)
    {
      var k := Find(masked, CALL, i);
      NoLiveBetween(source, i, k);
      if k >= |source| {
        NoMoreSites(source, i, |source|, sites, at);
        i := |source|;
        break;
      }
      FoundIsLive(source, k);
      LiveFits(source, k);
      NoMoreSites(source, i, k, sites, at);
      OneMoreSite(source, k, sites, at);
      var op := Operand(source, k + |CALL|);
      if op.Some? {
        sites := sites + [op.value];
        at := at + [k];
      }
      i := k + |CALL|;
    }
  }

  lemma NoSitesYet(s: string)
    ensures SitesBefore(s, 0, [], [])
  {
  }

  lemma NoMoreSites(s: string, i: nat, k: nat, sites: seq<string>, at: seq<nat>)
    requires SitesBefore(s, i, sites, at) && i <= k && forall j | i <= j < k :: !Live(s, j)
    ensures SitesBefore(s, k, sites, at)
  {
    hide Live, Operand;
  }

  lemma OneMoreSite(s: string, k: nat, sites: seq<string>, at: seq<nat>)
    requires SitesBefore(s, k, sites, at) && Live(s, k) && k + |CALL| <= |s|
    ensures var op := Operand(s, k + |CALL|);
            if op.Some? then SitesBefore(s, k + |CALL|, sites + [op.value], at + [k])
            else SitesBefore(s, k + |CALL|, sites, at)
  {
    hide Live, Operand;
    NoneInside(s, k);
    var op := Operand(s, k + |CALL|);
    forall m: nat | m < k + |CALL| && SiteAt(s, m) ensures m in at || (m == k && op.Some?) {
      assert m < k || m == k;
    }
    if op.Some? { assert (at + [k])[|at|] == k; }
  }

  /** After a live call, the search goes on past it. */
  lemma NoneInside(s: string, k: nat)
    requires Live(s, k)
    ensures forall j | k < j < k + |CALL| :: !Live(s, j)
  {
    hide Mask, Live;
    FoundIsLive(s, k);
    forall j | k < j < k + |CALL| ensures !Live(s, j) {
      NoOverlap(Mask(s), k, j);
      FoundIsLive(s, j);
    }
  }

  lemma LiveFits(s: string, k: nat)
    requires Live(s, k)
    ensures k + |CALL| <= |s|
  {
  }

  lemma {:induction false} PlainIsCode(s: string, i: nat, k: nat)
    requires i <= k < |s| && forall j | i <= j <= k :: PlainAt(s, j)
    ensures CodeAt(s, i, k)
    decreases k - i
  {
    hide PlainAt, First, Spell;
    FirstCode(s, i);
    CodeWidth(s[i]);
    if i < k { PlainIsCode(s, i + 1, k); }
  }

  lemma CodeWidth(c: char)
    ensures |Spell(CodeChar(c))| == 1
  {
  }

  lemma CallIsPlain(s: string, k: nat, n: nat)
    requires Sits(s, k, CALL) && n < |CALL|
    ensures k + n < |s| && PlainAt(s, k + n)
  {
    SitsChar(s, k, CALL, n);
    if s[k + n] == 'r' { SitsChar(s, k, CALL, n + 1); }
  }

  lemma {:induction false} ReachedCode(s: string, j: nat, i: nat, k: nat)
    requires j <= |s| && Reaches(s, j, i) && i <= k && i < |s| && CodeAt(s, i, k)
    ensures CodeAt(s, j, k)
    decreases |s| - j
  {
    hide First, Spell, MaskFrom;
    if j != i {
      FirstStands(s, j);
      StandsFits(First(s, j), s, j);
      MaskReaches(s, j + |Spell(First(s, j))|, i);
      ReachedCode(s, j + |Spell(First(s, j))|, i, k);
    }
  }

  /** A call that the masker comes to outside comments and literals is live. */
  lemma ReachedCallIsLive(s: string, k: nat)
    requires Reaches(s, 0, k) && Sits(s, k, CALL)
    ensures Live(s, k)
  {
    hide PlainAt, Reaches;
    forall j | k <= j < k + |CALL| ensures CodeAt(s, 0, j) {
      forall m | k <= m <= j ensures m < |s| && PlainAt(s, m) { CallIsPlain(s, k, m - k); }
      PlainIsCode(s, k, j);
      ReachedCode(s, 0, k, j);
    }
  }

  /**
   A call written out in the source, met by the masker outside comments and literals, with any white space
   before its quoted operand: the operand is among the sites, at that place.
   */
  lemma WrittenCallIsFound(pre: string, gap: string, op: string, post: string, sites: seq<string>, at: seq<nat>)
    requires (forall k | 0 <= k < |gap| :: IsSpace(gap[k])) && op != "" && '"' !in op
    requires var s := pre + CALL + gap + "\"" + op + "\"" + post;
             Reaches(s, 0, |pre|) && SitesBefore(s, |s|, sites, at)
    ensures exists j | 0 <= j < |at| :: at[j] == |pre| && sites[j] == op
  {
    hide Reaches, Operand, Live;
    var s := pre + CALL + gap + "\"" + op + "\"" + post;
    assert s[|pre|..|pre| + |CALL|] == CALL;
    ReachedCallIsLive(s, |pre|);
    OperandReadsBack(pre + CALL, gap, op, post);
    assert SiteAt(s, |pre|);
    var j :| 0 <= j < |at| && at[j] == |pre|;
  }

  // ---------------------------------------------------------------------------------------------
  // Path prefixes
  // ---------------------------------------------------------------------------------------------

  function Join(parts: seq<string>): string
    requires 0 < |parts|
  {
    if |parts| == 1 then parts[0] else parts[0] + "/" + Join(parts[1..])
  }

  function Split(p: string): (parts: seq<string>)
    ensures 0 < |parts|
    decreases |p|
  {
    var k := Find(p, "/", 0);
    if k == |p| then [p] else [p[..k]] + Split(p[k + 1..])
  }

  /** The components of a resolved path: at least one, none empty, none with a slash. */
  predicate Components(parts: seq<string>) {
    0 < |parts| && forall k | 0 <= k < |parts| :: parts[k] != "" && '/' !in parts[k]
  }

  /** The string test: the path itself, or something under it. */
  predicate Under(p: string, q: string) {
    p == q || p + "/" <= q
  }

  lemma FirstSlash(p: string)
    ensures var k := Find(p, "/", 0); '/' !in p[..k] && (k < |p| ==> p[k] == '/')
  {
    FindChar(p, '/', 0);
  }

  /** Two texts that agree up to their first slash agree on what comes before it. */
  lemma SameHead(a: string, b: string, x: string, y: string)
    requires '/' !in a && '/' !in b
    ensures a + "/" + x == b + "/" + y ==> a == b && x == y
  {
    if a + "/" + x == b + "/" + y {
      var t := a + "/" + x;
      assert t[|a|] == '/' && t[|b|] == '/';
      assert t[..|a|] == a && t[..|b|] == b;
      assert t[|a| + 1..] == x && t[|b| + 1..] == y;
    }
  }

  lemma HeadOnly(p: string, parts: seq<string>)
    requires Components(parts) && '/' !in p
    ensures Under(p, Join(parts)) <==> p == parts[0]
  {
    var q := Join(parts);
    if p + "/" <= q {
      assert q[|p|] == '/';
      if |parts| > 1 {
        assert q == p + "/" + q[|p| + 1..];
        SameHead(p, parts[0], q[|p| + 1..], Join(parts[1..]));
      }
    }
  }

  lemma PrefixHas(p: string, q: string, k: nat)
    requires p <= q && k < |p|
    ensures p[k] in q
  {
  }

  lemma SlashlessHoldsNothing(p: string, q: string)
    requires '/' in p && '/' !in q
    ensures !Under(p, q)
  {
    if p + "/" <= q {
      PrefixHas(p + "/", q, |p|);
    }
  }

  lemma SameHeadUnder(a: string, rest: string, b: string, tail: string)
    requires '/' !in a && '/' !in b
    ensures Under(a + "/" + rest, b + "/" + tail) <==> a == b && Under(rest, tail)
  {
    var p, q := a + "/" + rest, b + "/" + tail;
    SameHead(a, b, rest, tail);
    if p + "/" <= q {
      var more := q[|p| + 1..];
      assert q == a + "/" + (rest + "/" + more);
      SameHead(a, b, rest + "/" + more, tail);
    }
    if a == b && rest + "/" <= tail {
      assert q == p + "/" + tail[|rest| + 1..];
    }
  }

  lemma HeadAndRest(a: string, rest: string, parts: seq<string>)
    requires Components(parts) && '/' !in a
    ensures Under(a + "/" + rest, Join(parts))
       <==> |parts| > 1 && a == parts[0] && Under(rest, Join(parts[1..]))
  {
    if |parts| == 1 {
      assert (a + "/" + rest)[|a|] == '/';
      SlashlessHoldsNothing(a + "/" + rest, Join(parts));
    } else {
      SameHeadUnder(a, rest, parts[0], Join(parts[1..]));
    }
  }

  /** The string test on any copied path is component-wise prefix. */
  lemma {:induction false} UnderIsPrefix(p: string, parts: seq<string>)
    requires Components(parts)
    ensures Under(p, Join(parts)) <==> Split(p) <= parts
    decreases |p|
  {
    hide Under, Join;
    FirstSlash(p);
    var k := Find(p, "/", 0);
    if k == |p| {
      HeadOnly(p, parts);
    } else {
      var a, rest := p[..k], p[k + 1..];
      assert p == a + "/" + rest;
      HeadAndRest(a, rest, parts);
      if |parts| > 1 {
        UnderIsPrefix(rest, parts[1..]);
        assert parts == [parts[0]] + parts[1..];
      }
    }
  }

  function TrimSlashes(c: string): string {
    if c != "" && c[|c| - 1] == '/' then TrimSlashes(c[..|c| - 1]) else c
  }

  lemma {:induction false} TrimSlashesIs(p: string, m: nat)
    requires p == "" || p[|p| - 1] != '/'
    ensures TrimSlashes(p + seq(m, _ => '/')) == p
  {
    var c := p + seq(m, _ => '/');
    if m == 0 {
      assert c == p;
    } else {
      assert c[..|c| - 1] == p + seq(m - 1, _ => '/');
      TrimSlashesIs(p, m - 1);
    }
  }

  lemma {:induction false} SplitInvertsJoin(parts: seq<string>)
    requires Components(parts)
    ensures Split(Join(parts)) == parts && Join(parts) != "" && Join(parts)[|Join(parts)| - 1] != '/'
  {
    var p := Join(parts);
    if |parts| == 1 {
      FindCharIs(p, '/', 0, |p|);
    } else {
      var rest := Join(parts[1..]);
      SplitInvertsJoin(parts[1..]);
      assert p == parts[0] + "/" + rest;
      FindCharIs(p, '/', 0, |parts[0]|);
      assert p[..|parts[0]|] == parts[0] && p[|parts[0]| + 1..] == rest;
    }
  }

  /** A copied directory, spelled with any number of slashes after it, covers exactly what lies under it. */
  lemma CopiedDirectory(dir: seq<string>, m: nat, parts: seq<string>)
    requires Components(dir) && Components(parts)
    ensures Copied([Join(dir) + seq(m, _ => '/')], parts) <==> dir <= parts
  {
    var c := Join(dir) + seq(m, _ => '/');
    SplitInvertsJoin(dir);
    TrimSlashesIs(Join(dir), m);
    assert c in [c];
    if dir <= parts { assert Split(TrimSlashes(c)) <= parts; }
  }

  /** One `include_str!` site and where its operand resolves to, if inside the repository. */
  datatype Site = Site(file: string, needle: string, resolved: Option<seq<string>>)
  datatype Problem = Outside(site: Site) | NotCopied(site: Site)

  predicate Copied(copied: seq<string>, parts: seq<string>) {
    exists c | c in copied :: Split(TrimSlashes(c)) <= parts
  }

  function ProblemsOf(copied: seq<string>, sites: seq<Site>): seq<Problem> {
    if sites == [] then []
    else
      var s := sites[|sites| - 1];
      ProblemsOf(copied, sites[..|sites| - 1])
      + if s.resolved.None? then [Outside(s)]
        else if !Copied(copied, s.resolved.value) then [NotCopied(s)] else []
  }

  predicate IsReport(copied: seq<string>, sites: seq<Site>, p: Problem) {
    match p
    case Outside(s) => s in sites && s.resolved.None?
    case NotCopied(s) => s in sites && s.resolved.Some? && !Copied(copied, s.resolved.value)
  }

  lemma {:induction false} ReportsAre(copied: seq<string>, sites: seq<Site>, p: Problem)
    ensures p in ProblemsOf(copied, sites) <==> IsReport(copied, sites, p)
  {
    hide Copied;
    if sites != [] { ReportsAre(copied, sites[..|sites| - 1], p); }
  }

  /** Reports each site outside the repository or under no copied path, component by component. */
  method Problems(copied: seq<string>, sites: seq<Site>) returns (out: seq<Problem>)
    requires forall s | s in sites :: s.resolved.Some? ==> Components(s.resolved.value)
    ensures out == ProblemsOf(copied, sites)
    ensures forall s :: Outside(s) in out <==> s in sites && s.resolved.None?
    ensures forall s :: NotCopied(s) in out <==> s in sites && s.resolved.Some? && !Copied(copied, s.resolved.value)
  {
    forall p ensures p in ProblemsOf(copied, sites) <==> IsReport(copied, sites, p) { ReportsAre(copied, sites, p); }
    out := [];
    for i := 0 to |sites|
      invariant out == ProblemsOf(copied, sites[..i])
    {
      var s := sites[i];
      assert sites[..i + 1][..i] == sites[..i];
      if s.resolved.None? {
        out := out + [Outside(s)];
        continue;
      }
      var rel := Join(s.resolved.value);
      forall c | c in copied ensures Under(TrimSlashes(c), rel) <==> Split(TrimSlashes(c)) <= s.resolved.value {
        UnderIsPrefix(TrimSlashes(c), s.resolved.value);
      }
      if !exists c | c in copied :: Under(TrimSlashes(c), rel) {
        out := out + [NotCopied(s)];
      }
    }
    assert sites[..|sites|] == sites;
  }

  /** Silence means every site resolves under a copied path. */
  lemma {:induction false} SilenceMeansCopied(copied: seq<string>, sites: seq<Site>)
    ensures ProblemsOf(copied, sites) == []
       <==> forall k | 0 <= k < |sites| ::
              sites[k].resolved.Some? && Copied(copied, sites[k].resolved.value)
  {
    if sites != [] {
      var n := |sites| - 1;
      SilenceMeansCopied(copied, sites[..n]);
      forall k | 0 <= k < n ensures sites[..n][k] == sites[k] { }
    }
  }
}
