/**
 Whole files and whole trees of the unsafe-code audit (`scan` and `validate_scan` in
 tools/audit_unsafe.py): threading the walker over lines, bucketing the pattern matches, and what a
 silent validation certifies.
 */
module AuditScan {
  import opened Wrappers
  import opened Strings
  import opened RustModes
  import opened AuditUnsafe

  /** Offset of line `k`. */
  function Start(lines: seq<string>, k: nat): nat
    requires k <= |lines|
  {
    if k == 0 then 0 else Start(lines, k - 1) + |lines[k - 1]|
  }

  /** The state threaded into line `k`. */
  function Entry(lines: seq<string>, k: nat): Carry
    requires k <= |lines|
  {
    if k == 0 then NOTHING_OPEN
    else Walk(lines[k - 1], |lines[k - 1]|, Entry(lines, k - 1)).carry
  }

  function Lines(text: string): seq<string> {
    ReadLines(text, 0)
  }

  lemma {:induction false} StartOfTail(line: string, rest: seq<string>, k: nat)
    requires k <= |rest|
    ensures Start([line] + rest, k + 1) == |line| + Start(rest, k)
  {
    if 0 < k { StartOfTail(line, rest, k - 1); }
  }

  lemma FirstLine(text: string, off: nat)
    requires off < |text| && (off == 0 || text[off - 1] == '\n')
    ensures IsLine(text, off, text[off..LineEnd(text, off)])
  {
  }

  /** `readlines` cuts the text at its newlines and drops nothing. */
  lemma {:induction false} ReadLinesCuts(text: string, off: nat, k: nat)
    requires off <= |text| && (off == 0 || off == |text| || text[off - 1] == '\n')
    requires k <= |ReadLines(text, off)|
    ensures off + Start(ReadLines(text, off), k) <= |text|
    ensures k < |ReadLines(text, off)| ==>
              IsLine(text, off + Start(ReadLines(text, off), k), ReadLines(text, off)[k])
    ensures k == |ReadLines(text, off)| ==> off + Start(ReadLines(text, off), k) == |text|
    decreases |text| - off
  {
    hide IsLine;
    if off < |text| {
      var e := LineEnd(text, off);
      if k == 0 {
        FirstLine(text, off);
      } else {
        StartOfTail(text[off..e], ReadLines(text, e), k - 1);
        ReadLinesCuts(text, e, k - 1);
      }
    }
  }

  /** From the start of one line to the start of the next. */
  lemma NextEntry(text: string, off: nat, line: string, q: Place)
    requires IsLine(text, off, line) && Run(text, 0, Code, off) == q && q.pos == off && LineStart(q.mode)
    ensures var e := Run(text, 0, Code, off + |line|);
            && e.pos == off + |line|
            && Walk(line, |line|, Open(q.mode)).carry == Open(e.mode)
            && (off + |line| < |text| ==> LineStart(e.mode))
  {
    hide Step, Advance, LineEnd;
    LineMatches(text, off, line, q.mode);
    RunVia(text, 0, Code, off, off + |line|, q);
  }

  lemma StartsInCode(text: string)
    ensures Run(text, 0, Code, 0) == Place(0, Code) && LineStart(Code) && Open(Code) == NOTHING_OPEN
  {
  }

  /** Where line `k` starts, the threaded state is what the whole text has open there. */
  lemma {:induction false} EntryMatches(text: string, k: nat)
    requires k < |Lines(text)|
    ensures Start(Lines(text), k) <= |text|
    ensures var q := Run(text, 0, Code, Start(Lines(text), k));
            q.pos == Start(Lines(text), k) && LineStart(q.mode) && Entry(Lines(text), k) == Open(q.mode)
  {
    hide Run, Walk, ReadLines, LineStart;
    ReadLinesCuts(text, 0, k);
    if k == 0 {
      StartsInCode(text);
    } else {
      EntryMatches(text, k - 1);
      ReadLinesCuts(text, 0, k - 1);
      var off := Start(Lines(text), k - 1);
      NextEntry(text, off, Lines(text)[k - 1], Run(text, 0, Code, off));
    }
  }

  /**
   At every position of every line, the threaded line scan and the single whole-text scan give the same
   code-or-prose verdict.
   */
  lemma ThreadedVerdict(text: string, k: nat, idx: nat)
    requires k < |Lines(text)| && idx < |Lines(text)[k]|
    ensures Start(Lines(text), k) + idx < |text|
    ensures Walk(Lines(text)[k], idx, Entry(Lines(text), k)).prose
         == Prose(ModeAt(text, Start(Lines(text), k) + idx))
  {
    hide Run, WalkFrom, ReadLines, Entry, Start;
    ReadLinesCuts(text, 0, k);
    EntryMatches(text, k);
    var off := Start(Lines(text), k);
    var q := Run(text, 0, Code, off);
    RunVia(text, 0, Code, off, off + idx, q);
    WalkMatches(text, off, Lines(text)[k], idx, 0, q.mode);
  }

  /** After the last line, the threaded state is what the whole text leaves open. */
  lemma ThreadedEnd(text: string)
    ensures Entry(Lines(text), |Lines(text)|) == Open(ModeAt(text, |text|))
  {
    hide Step, Advance, LineEnd;
    var ls := Lines(text);
    ReadLinesCuts(text, 0, |ls|);
    if |ls| > 0 {
      var k := |ls| - 1;
      ReadLinesCuts(text, 0, k);
      EntryMatches(text, k);
      NextEntry(text, Start(ls, k), ls[k], Run(text, 0, Code, Start(ls, k)));
    }
  }

  /** Where the whole-text scan passes a place at `i` in code, a line position is judged by the run from there. */
  lemma VerdictFrom(text: string, i: nat, k: nat, idx: nat)
    requires i <= |text| && Run(text, 0, Code, i) == Place(i, Code) && k < |Lines(text)| && idx < |Lines(text)[k]|
    requires i <= Start(Lines(text), k) + idx
    ensures Start(Lines(text), k) + idx < |text|
    ensures Walk(Lines(text)[k], idx, Entry(Lines(text), k)).prose
         == Prose(Run(text, i, Code, Start(Lines(text), k) + idx).mode)
  {
    hide Walk, Run, Lines, Entry, Start;
    ThreadedVerdict(text, k, idx);
    RunVia(text, 0, Code, i, Start(Lines(text), k) + idx, Place(i, Code));
  }

  /**
   A nested block comment spread over any number of lines: the line scan calls every position inside it
   prose, and is back in code at its closer.
   */
  lemma NestedCommentHidesLines(text: string, i: nat, b: Body, k: nat, idx: nat)
    requires Readable(b) && Sits(text, i, "/*" + Render(b)) && Run(text, 0, Code, i) == Place(i, Code)
    requires k < |Lines(text)| && idx < |Lines(text)[k]|
    requires i < Start(Lines(text), k) + idx <= i + 2 + |Render(b)|
    ensures Walk(Lines(text)[k], idx, Entry(Lines(text), k)).prose
       <==> Start(Lines(text), k) + idx < i + 1 + |Render(b)|
  {
    hide Walk, Run, Lines, Entry, Start, Render, Readable, Sits;
    VerdictFrom(text, i, k, idx);
    NestedCommentIsProse(text, i, b);
  }

  /**
   A raw string spread over any number of lines: the line scan calls every position between its quotes
   prose, and is back in code after its closing quote when no further hash follows the literal.
   */
  lemma RawStringHidesLines(text: string, i: nat, prefix: string, n: nat, content: string, k: nat, idx: nat)
    requires RawStringAt(text, i, prefix, n, content) && Run(text, 0, Code, i) == Place(i, Code)
    requires k < |Lines(text)| && idx < |Lines(text)[k]|
    requires i + |prefix| + n < Start(Lines(text), k) + idx <= i + |RawLiteral(prefix, n, content)|
    ensures Start(Lines(text), k) + idx <= i + |prefix| + n + 1 + |content| ==>
              Walk(Lines(text)[k], idx, Entry(Lines(text), k)).prose
    ensures NoHashAfter(text, i, prefix, n, content) ==>
              Start(Lines(text), k) + idx > i + |prefix| + n + 1 + |content| ==>
                !Walk(Lines(text)[k], idx, Entry(Lines(text), k)).prose
  {
    hide Walk, Run, Lines, Entry, Start, RawLiteral, RawStringAt, NoHashAfter;
    var p := Start(Lines(text), k) + idx;
    VerdictFrom(text, i, k, idx);
    if p <= i + |prefix| + n + 1 + |content| {
      RawInside(text, i, prefix, n, content, p);
    } else if NoHashAfter(text, i, prefix, n, content) {
      RawEnds(text, i, prefix, n, content, p);
    }
  }

  // ---------------------------------------------------------------------------------------------
  // Bucketing
  // ---------------------------------------------------------------------------------------------

  datatype Pattern = CodeForm(name: string) | AllowAttr | CfgAttrAllow | ForbidAttr(inner: bool)
  datatype Match = Match(idx: nat, pattern: Pattern)
  datatype Bucket = CodeHit | ProseHit | LintHit
  datatype Hit = Hit(rel: seq<string>, line: nat, kind: string)
  datatype File = File(rel: seq<string>, text: string, found: seq<seq<Match>>) {
    /** Every match lies on a line of the file. */
    predicate Valid() {
      && |found| == |Lines(text)|
      && forall k, j | 0 <= k < |found| && 0 <= j < |found[k]| :: found[k][j].idx < |Lines(text)[k]|
    }
  }

  predicate IsEntrypoint(parts: seq<string>) {
    && 2 <= |parts| <= 5
    && ((|parts| == 2 && parts[1] == "build.rs")
        || (3 <= |parts| && parts[1] == "src"
            && ((|parts| == 3 && parts[2] in ["lib.rs", "main.rs"])
                || (|parts| == 4 && parts[2] == "bin" && EndsWithRs(parts[3]))
                || (|parts| == 5 && parts[2] == "bin" && parts[4] == "main.rs"))))
  }

  predicate EndsWithRs(name: string) {
    3 <= |name| && name[|name| - 3..] == ".rs"
  }

  function KindOf(p: Pattern, rel: seq<string>): string {
    match p
    case CodeForm(name) => name
    case AllowAttr => "allow_attr"
    case CfgAttrAllow => "cfg_attr_allow"
    case ForbidAttr(inner) =>
      if !inner then "forbid_item" else if !IsEntrypoint(rel) then "forbid_elsewhere" else "forbid_attr"
  }

  function NameOf(p: Pattern): string {
    match p
    case CodeForm(name) => name
    case AllowAttr => "allow_attr"
    case CfgAttrAllow => "cfg_attr_allow"
    case ForbidAttr(_) => "forbid_attr"
  }

  lemma MatchInText(f: File, k: nat, j: nat)
    requires f.Valid() && k < |f.found| && j < |f.found[k]|
    ensures Start(Lines(f.text), k) + f.found[k][j].idx < |f.text|
  {
    ReadLinesCuts(f.text, 0, k);
  }

  /** The mode of the whole text where match `j` of line `k` starts. */
  function MatchMode(f: File, k: nat, j: nat): Mode
    requires f.Valid() && k < |f.found| && j < |f.found[k]|
  {
    MatchInText(f, k, j);
    ModeAt(f.text, Start(Lines(f.text), k) + f.found[k][j].idx)
  }

  /** The bucket a match belongs in, by the whole-text reading of the file. */
  function BucketOf(f: File, k: nat, j: nat): Bucket
    requires f.Valid() && k < |f.found| && j < |f.found[k]|
  {
    if Prose(MatchMode(f, k, j)) then ProseHit
    else if f.found[k][j].pattern.CodeForm? then CodeHit else LintHit
  }

  function HitOf(f: File, k: nat, m: Match, b: Bucket): Hit {
    Hit(f.rel, k + 1, if b == LintHit then KindOf(m.pattern, f.rel) else NameOf(m.pattern))
  }

  /** The hits of bucket `b` among the first `j` matches of line `k`. */
  function LineHits(f: File, k: nat, j: nat, b: Bucket): seq<Hit>
    requires f.Valid() && k < |f.found| && j <= |f.found[k]|
    decreases j
  {
    if j == 0 then []
    else LineHits(f, k, j - 1, b) + if BucketOf(f, k, j - 1) == b then [HitOf(f, k, f.found[k][j - 1], b)] else []
  }

  /** The hits of bucket `b` on the first `k` lines. */
  function FileHits(f: File, k: nat, b: Bucket): seq<Hit>
    requires f.Valid() && k <= |f.found|
  {
    if k == 0 then [] else FileHits(f, k - 1, b) + LineHits(f, k - 1, |f.found[k - 1]|, b)
  }

  function Unterminated(f: File): seq<(seq<string>, string)> {
    match ModeAt(f.text, |f.text|)
    case Block(_) => [(f.rel, "block comment")]
    case Str(_) => [(f.rel, "string")]
    case Raw(_) => [(f.rel, "raw string")]
    case _ => []
  }

  datatype Buckets = Buckets(code: seq<Hit>, prose: seq<Hit>, lint: seq<Hit>)

  /** Which bucket a match goes to, and under which kind, once its position is judged. */
  method FileMatch(rel: seq<string>, m: Match, prose: bool) returns (bucket: Bucket, kind: string)
    ensures bucket == if prose then ProseHit else if m.pattern.CodeForm? then CodeHit else LintHit
    ensures kind == if bucket == LintHit then KindOf(m.pattern, rel) else NameOf(m.pattern)
  {
    kind := NameOf(m.pattern);
    if m.pattern.CodeForm? {
      bucket := if prose then ProseHit else CodeHit;
    } else if prose {
      bucket := ProseHit;
    } else {
      if m.pattern.ForbidAttr? {
        if !m.pattern.inner {
          kind := "forbid_item";
        } else if !IsEntrypoint(rel) {
          kind := "forbid_elsewhere";
        }
      }
      bucket := LintHit;
    }
  }

  /** Files every match of one line, given the state at the line's start. */
  method ScanLine(f: File, lines: seq<string>, k: nat, entry: Carry) returns (b: Buckets)
    requires f.Valid() && lines == Lines(f.text) && k < |lines| && entry == Entry(lines, k)
    ensures var n := |f.found[k]|;
            b == Buckets(LineHits(f, k, n, CodeHit), LineHits(f, k, n, ProseHit), LineHits(f, k, n, LintHit))
  {
    hide Walk, Run, ReadLines, Start, KindOf, NameOf;
    b := Buckets([], [], []);
    for j := 0 to |f.found[k]|
      invariant b == Buckets(LineHits(f, k, j, CodeHit), LineHits(f, k, j, ProseHit), LineHits(f, k, j, LintHit))
    {
      var m := f.found[k][j];
      var prose, _, _, _ := WalkLine(lines[k], m.idx, entry.depth, entry.inString, entry.raw);
      ThreadedVerdict(f.text, k, m.idx);
      var bucket, kind := FileMatch(f.rel, m, prose);
      assert bucket == BucketOf(f, k, j);
      var hit := Hit(f.rel, k + 1, kind);
      assert hit == HitOf(f, k, m, bucket);
      match bucket
      case CodeHit => b := b.(code := b.code + [hit]);
      case ProseHit => b := b.(prose := b.prose + [hit]);
      case LintHit => b := b.(lint := b.lint + [hit]);
    }
  }

  /**
   Scans one file: each bucket holds exactly the matches the whole-text reading puts there, and the file
   is reported unterminated exactly when the whole text ends inside a comment or string.
   */
  method ScanFile(f: File) returns (b: Buckets, open: seq<(seq<string>, string)>)
    requires f.Valid()
    ensures var n := |f.found|;
            b == Buckets(FileHits(f, n, CodeHit), FileHits(f, n, ProseHit), FileHits(f, n, LintHit))
    ensures open == Unterminated(f)
  {
    var lines := Lines(f.text);
    var entry := NOTHING_OPEN;
    b := Buckets([], [], []);
    for k := 0 to |lines|
      invariant entry == Entry(lines, k)
      invariant b == Buckets(FileHits(f, k, CodeHit), FileHits(f, k, ProseHit), FileHits(f, k, LintHit))
    {
      var found := ScanLine(f, lines, k, entry);
      b := Buckets(b.code + found.code, b.prose + found.prose, b.lint + found.lint);
      var _, depth, inString, raw := WalkLine(lines[k], |lines[k]|, entry.depth, entry.inString, entry.raw);
      entry := Carry(depth, inString, raw);
    }
    ThreadedEnd(f.text);
    DepthStaysPositive(f.text, 0, Code, |f.text|);
    open := [];
    if entry.depth > 0 { open := open + [(f.rel, "block comment")]; }
    if entry.inString { open := open + [(f.rel, "string")]; }
    if entry.raw.Some? { open := open + [(f.rel, "raw string")]; }
  }

  // ---------------------------------------------------------------------------------------------
  // What a silent audit certifies
  // ---------------------------------------------------------------------------------------------

  datatype Problem =
    | NoFiles
    | NoRoots
    | Uncovered(entrypoint: seq<string>)
    | EndsInside(rel: seq<string>, what: string)

  predicate Covered(lint: seq<Hit>, rel: seq<string>) {
    exists h | h in lint :: h.kind == "forbid_attr" && h.rel == rel
  }

  /** What is reported, case by case. */
  predicate IsProblem(
    files: nat, lint: seq<Hit>, entrypoints: seq<seq<string>>, open: seq<(seq<string>, string)>, p: Problem)
  {
    match p
    case NoFiles => files == 0
    case NoRoots => forall h | h in lint :: h.kind != "forbid_attr"
    case Uncovered(ep) => ep in entrypoints && forall h | h in lint :: h.kind == "forbid_attr" ==> h.rel != ep
    case EndsInside(rel, what) => (rel, what) in open
  }

  method ValidateScan(files: nat, lint: seq<Hit>, entrypoints: seq<seq<string>>, open: seq<(seq<string>, string)>)
    returns (problems: seq<Problem>)
    ensures forall p :: p in problems <==> IsProblem(files, lint, entrypoints, open, p)
    ensures problems == [] <==>
              && 0 < files
              && (exists h | h in lint :: h.kind == "forbid_attr")
              && (forall ep | ep in entrypoints :: Covered(lint, ep))
              && open == []
  {
    problems := [];
    if files == 0 { problems := [NoFiles]; }
    var covered := set h | h in lint && h.kind == "forbid_attr" :: h.rel;
    assert forall h | h in lint && h.kind == "forbid_attr" :: h.rel in covered;
    if covered == {} {
      problems := problems + [NoRoots];
    } else {
      var rel :| rel in covered;
    }
    for i := 0 to |entrypoints|
      invariant forall p :: p in problems <==>
                  || (!p.Uncovered? && !p.EndsInside? && IsProblem(files, lint, entrypoints, open, p))
                  || (p.Uncovered? && p.entrypoint !in covered && p.entrypoint in entrypoints[..i])
    {
      if entrypoints[i] !in covered { problems := problems + [Uncovered(entrypoints[i])]; }
    }
    assert entrypoints[..|entrypoints|] == entrypoints;
    for i := 0 to |open|
      invariant forall p :: p in problems <==>
                  || (!p.EndsInside? && IsProblem(files, lint, entrypoints, open, p))
                  || (p.EndsInside? && (p.rel, p.what) in open[..i])
    {
      problems := problems + [EndsInside(open[i].0, open[i].1)];
    }
    assert open[..|open|] == open;
    NoProblem(files, lint, entrypoints, open, problems);
  }

  lemma NoProblem(
    files: nat, lint: seq<Hit>, entrypoints: seq<seq<string>>, open: seq<(seq<string>, string)>, problems: seq<Problem>)
    requires forall p :: p in problems <==> IsProblem(files, lint, entrypoints, open, p)
    ensures problems == [] <==>
              && 0 < files
              && (exists h | h in lint :: h.kind == "forbid_attr")
              && (forall ep | ep in entrypoints :: Covered(lint, ep))
              && open == []
  {
    assert open != [] ==> (open[0].0, open[0].1) in open;
    if problems == [] {
      assert NoFiles !in problems && NoRoots !in problems;
      forall ep | ep in entrypoints ensures Covered(lint, ep) { assert Uncovered(ep) !in problems; }
      forall rel, what ensures (rel, what) !in open { assert EndsInside(rel, what) !in problems; }
    } else {
      assert IsProblem(files, lint, entrypoints, open, problems[0]);
    }
  }

  function TreeHits(files: seq<File>, n: nat, b: Bucket): seq<Hit>
    requires n <= |files| && forall f | f in files :: f.Valid()
  {
    if n == 0 then [] else TreeHits(files, n - 1, b) + FileHits(files[n - 1], |files[n - 1].found|, b)
  }

  function TreeOpen(files: seq<File>, n: nat): seq<(seq<string>, string)>
    requires n <= |files|
  {
    if n == 0 then [] else TreeOpen(files, n - 1) + Unterminated(files[n - 1])
  }

  /** Match `j` of line `k` in `f` is an inner `forbid` that the whole-text reading calls code. */
  predicate LiveForbid(f: File, k: nat, j: nat)
    requires f.Valid()
  {
    && k < |f.found| && j < |f.found[k]| && f.found[k][j].pattern == ForbidAttr(true)
    && MatchMode(f, k, j) == Code
  }

  /** Which hits a line has in a bucket: those of the matches that belong there. */
  lemma {:induction false} LineHitsAre(f: File, k: nat, n: nat, b: Bucket, h: Hit)
    requires f.Valid() && k < |f.found| && n <= |f.found[k]|
    ensures h in LineHits(f, k, n, b) <==> exists j | 0 <= j < n :: Filed(f, k, j, b, h)
    decreases n
  {
    hide BucketOf, HitOf;
    if 0 < n {
      LineHitsAre(f, k, n - 1, b, h);
      assert h in LineHits(f, k, n, b) <==> h in LineHits(f, k, n - 1, b) || Filed(f, k, n - 1, b, h);
    }
  }

  /** Match `j` of line `k` belongs in bucket `b` and is recorded as `h`. */
  predicate Filed(f: File, k: nat, j: nat, b: Bucket, h: Hit)
    requires f.Valid() && k < |f.found| && j < |f.found[k]|
  {
    BucketOf(f, k, j) == b && h == HitOf(f, k, f.found[k][j], b)
  }

  lemma {:induction false} FileHitsAre(f: File, n: nat, b: Bucket, h: Hit)
    requires f.Valid() && n <= |f.found|
    ensures h in FileHits(f, n, b) <==> exists k, j | 0 <= k < n && 0 <= j < |f.found[k]| :: Filed(f, k, j, b, h)
  {
    hide LineHits, Filed;
    if 0 < n {
      FileHitsAre(f, n - 1, b, h);
      LineHitsAre(f, n - 1, |f.found[n - 1]|, b, h);
    }
  }

  lemma {:induction false} TreeHitsAre(files: seq<File>, n: nat, b: Bucket, h: Hit)
    requires n <= |files| && forall f | f in files :: f.Valid()
    ensures h in TreeHits(files, n, b) <==> exists i | 0 <= i < n :: h in FileHits(files[i], |files[i].found|, b)
  {
    hide FileHits;
    if 0 < n { TreeHitsAre(files, n - 1, b, h); }
  }

  /** The `forbid_attr` hits of a file are its live inner `forbid`s, if it is an entrypoint. */
  lemma FileForbids(f: File)
    requires f.Valid()
    ensures Covered(FileHits(f, |f.found|, LintHit), f.rel)
       <==> IsEntrypoint(f.rel) && exists k, j | 0 <= k < |f.found| && 0 <= j < |f.found[k]| :: LiveForbid(f, k, j)
    ensures forall h | h in FileHits(f, |f.found|, LintHit) :: h.rel == f.rel
  {
    hide FileHits, IsEntrypoint, MatchMode;
    var hits := FileHits(f, |f.found|, LintHit);
    forall h | h in hits
      ensures h.rel == f.rel
      ensures h.kind == "forbid_attr" ==>
                IsEntrypoint(f.rel) && exists k, j | 0 <= k < |f.found| && 0 <= j < |f.found[k]| :: LiveForbid(f, k, j)
    {
      FileHitsAre(f, |f.found|, LintHit, h);
      var k, j :| 0 <= k < |f.found| && 0 <= j < |f.found[k]| && Filed(f, k, j, LintHit, h);
      FiledForbid(f, k, j);
    }
    if IsEntrypoint(f.rel) {
      forall k, j | 0 <= k < |f.found| && 0 <= j < |f.found[k]| && LiveForbid(f, k, j) ensures Covered(hits, f.rel) {
        FiledForbid(f, k, j);
        FileHitsAre(f, |f.found|, LintHit, Hit(f.rel, k + 1, "forbid_attr"));
      }
    }
  }

  lemma FiledForbid(f: File, k: nat, j: nat)
    requires f.Valid() && k < |f.found| && j < |f.found[k]|
    ensures BucketOf(f, k, j) == LintHit ==>
              var h := HitOf(f, k, f.found[k][j], LintHit);
              h.rel == f.rel && (h.kind == "forbid_attr" <==> IsEntrypoint(f.rel) && LiveForbid(f, k, j))
    ensures LiveForbid(f, k, j) && IsEntrypoint(f.rel) ==> Filed(f, k, j, LintHit, Hit(f.rel, k + 1, "forbid_attr"))
  {
    hide IsEntrypoint;
  }

  /** Every unsafe form the patterns found in the file is prose in the whole text. */
  predicate OnlyInProse(f: File)
    requires f.Valid()
  {
    forall k, j | 0 <= k < |f.found| && 0 <= j < |f.found[k]| && f.found[k][j].pattern.CodeForm? ::
      Prose(MatchMode(f, k, j))
  }

  lemma FileInProse(f: File)
    requires f.Valid()
    ensures FileHits(f, |f.found|, CodeHit) == [] <==> OnlyInProse(f)
  {
    hide FileHits, MatchMode;
    var hits := FileHits(f, |f.found|, CodeHit);
    if hits != [] {
      FileHitsAre(f, |f.found|, CodeHit, hits[0]);
      var k, j :| 0 <= k < |f.found| && 0 <= j < |f.found[k]| && Filed(f, k, j, CodeHit, hits[0]);
      assert f.found[k][j].pattern.CodeForm? && !Prose(MatchMode(f, k, j));
    } else {
      forall k, j | 0 <= k < |f.found| && 0 <= j < |f.found[k]| && f.found[k][j].pattern.CodeForm?
        ensures Prose(MatchMode(f, k, j))
      {
        var h := HitOf(f, k, f.found[k][j], CodeHit);
        FileHitsAre(f, |f.found|, CodeHit, h);
        assert !Filed(f, k, j, CodeHit, h);
      }
    }
  }

  lemma {:induction false} NoTreeCode(files: seq<File>, n: nat)
    requires n <= |files| && forall f | f in files :: f.Valid()
    ensures TreeHits(files, n, CodeHit) == [] <==> forall i | 0 <= i < n :: OnlyInProse(files[i])
  {
    hide FileHits, OnlyInProse;
    if 0 < n {
      NoTreeCode(files, n - 1);
      FileInProse(files[n - 1]);
    }
  }

  lemma {:induction false} NothingOpen(files: seq<File>, n: nat)
    requires n <= |files|
    ensures TreeOpen(files, n) == [] <==> forall i | 0 <= i < n :: Unterminated(files[i]) == []
  {
    hide Unterminated;
    if 0 < n { NothingOpen(files, n - 1); }
  }

  /** Some file at this path, an entrypoint, has an inner `forbid` standing in code. */
  predicate Forbids(files: seq<File>, rel: seq<string>)
    requires forall f | f in files :: f.Valid()
  {
    && IsEntrypoint(rel)
    && exists i, k, j | 0 <= i < |files| && 0 <= k < |files[i].found| && 0 <= j < |files[i].found[k]| ::
         files[i].rel == rel && LiveForbid(files[i], k, j)
  }

  lemma CoveredIsForbidden(files: seq<File>, ep: seq<string>)
    requires forall f | f in files :: f.Valid()
    ensures Covered(TreeHits(files, |files|, LintHit), ep) <==> Forbids(files, ep)
  {
    hide TreeHits, FileHits, IsEntrypoint, LiveForbid;
    var hits := TreeHits(files, |files|, LintHit);
    if h :| h in hits && h.kind == "forbid_attr" && h.rel == ep {
      TreeHitsAre(files, |files|, LintHit, h);
      var i :| 0 <= i < |files| && h in FileHits(files[i], |files[i].found|, LintHit);
      FileForbids(files[i]);
    }
    if Forbids(files, ep) {
      var i, k, j :| 0 <= i < |files| && 0 <= k < |files[i].found| && 0 <= j < |files[i].found[k]|
                     && files[i].rel == ep && LiveForbid(files[i], k, j);
      FileForbids(files[i]);
      var h :| h in FileHits(files[i], |files[i].found|, LintHit) && h.kind == "forbid_attr" && h.rel == ep;
      TreeHitsAre(files, |files|, LintHit, h);
    }
  }

  /** The audit's verdict, in terms of the whole texts. */
  predicate Sound(files: seq<File>, entrypoints: seq<seq<string>>)
    requires forall f | f in files :: f.Valid()
  {
    && files != []
    && (exists i | 0 <= i < |files| :: Forbids(files, files[i].rel))
    && (forall ep | ep in entrypoints :: Forbids(files, ep))
    && forall i | 0 <= i < |files| :: Unterminated(files[i]) == []
  }

  lemma RootsExist(files: seq<File>)
    requires forall f | f in files :: f.Valid()
    ensures (exists h | h in TreeHits(files, |files|, LintHit) :: h.kind == "forbid_attr")
       <==> exists i | 0 <= i < |files| :: Forbids(files, files[i].rel)
  {
    hide TreeHits, FileHits, LiveForbid, IsEntrypoint, Forbids;
    var hits := TreeHits(files, |files|, LintHit);
    if h :| h in hits && h.kind == "forbid_attr" {
      TreeHitsAre(files, |files|, LintHit, h);
      var i :| 0 <= i < |files| && h in FileHits(files[i], |files[i].found|, LintHit);
      FileForbids(files[i]);
      assert Covered(hits, files[i].rel);
      CoveredIsForbidden(files, files[i].rel);
    }
    if i :| 0 <= i < |files| && Forbids(files, files[i].rel) { CoveredIsForbidden(files, files[i].rel); }
  }

  /** What validation tests on the collected hits is what holds of the texts. */
  lemma SilenceIsSound(files: seq<File>, entrypoints: seq<seq<string>>)
    requires forall f | f in files :: f.Valid()
    ensures var lint := TreeHits(files, |files|, LintHit);
            (&& 0 < |files|
             && (exists h | h in lint :: h.kind == "forbid_attr")
             && (forall ep | ep in entrypoints :: Covered(lint, ep))
             && TreeOpen(files, |files|) == [])
            <==> Sound(files, entrypoints)
  {
    hide TreeHits, TreeOpen, Forbids, Unterminated, Covered;
    RootsExist(files);
    NothingOpen(files, |files|);
    forall ep | ep in entrypoints ensures Covered(TreeHits(files, |files|, LintHit), ep) <==> Forbids(files, ep) {
      CoveredIsForbidden(files, ep);
    }
  }

  /** The hits and open ends of a whole tree, file by file. */
  method ScanTree(files: seq<File>) returns (code: seq<Hit>, lint: seq<Hit>, open: seq<(seq<string>, string)>)
    requires forall f | f in files :: f.Valid()
    ensures code == TreeHits(files, |files|, CodeHit) && lint == TreeHits(files, |files|, LintHit)
    ensures open == TreeOpen(files, |files|)
  {
    hide FileHits, Unterminated;
    code, lint, open := [], [], [];
    for n := 0 to |files|
      invariant code == TreeHits(files, n, CodeHit) && lint == TreeHits(files, n, LintHit)
      invariant open == TreeOpen(files, n)
    {
      var b, o := ScanFile(files[n]);
      code, lint, open := code + b.code, lint + b.lint, open + o;
    }
  }

  /**
   The audit from texts to verdict, by the whole-text reading. It is silent exactly when there are files,
   some entrypoint and every listed one carries an inner `forbid` standing in code, and no file ends inside a
   comment or string; it has no code hit exactly when every unsafe form in the tree stands in prose.
   */
  method Audit(files: seq<File>, entrypoints: seq<seq<string>>)
    returns (problems: seq<Problem>, code: seq<Hit>)
    requires forall f | f in files :: f.Valid()
    ensures problems == [] <==> Sound(files, entrypoints)
    ensures forall ep :: Uncovered(ep) in problems <==> ep in entrypoints && !Forbids(files, ep)
    ensures forall rel, what :: EndsInside(rel, what) in problems <==>
              exists i | 0 <= i < |files| :: (rel, what) in Unterminated(files[i])
    ensures NoFiles in problems <==> files == []
    ensures NoRoots in problems <==> forall i | 0 <= i < |files| :: !Forbids(files, files[i].rel)
    ensures code == [] <==> forall i | 0 <= i < |files| :: OnlyInProse(files[i])
    ensures forall h :: h in code <==> exists i | 0 <= i < |files| :: IsCodeHit(files[i], h)
  {
    hide TreeHits, TreeOpen, OnlyInProse, Sound, Covered, Forbids, Unterminated, IsCodeHit;
    var lint, open;
    code, lint, open := ScanTree(files);
    problems := ValidateScan(|files|, lint, entrypoints, open);
    SilenceIsSound(files, entrypoints);
    NoTreeCode(files, |files|);
    forall ep ensures Uncovered(ep) in problems <==> ep in entrypoints && !Forbids(files, ep) {
      UncoveredMeans(files, entrypoints, open, ep);
    }
    forall rel, what
      ensures (rel, what) in open <==> exists i | 0 <= i < |files| :: (rel, what) in Unterminated(files[i])
    {
      OpenIs(files, |files|, rel, what);
    }
    RootsExist(files);
    forall h ensures h in code <==> exists i | 0 <= i < |files| :: IsCodeHit(files[i], h) { CodeHitsAre(files, h); }
  }

  lemma UncoveredMeans(
    files: seq<File>, entrypoints: seq<seq<string>>, open: seq<(seq<string>, string)>, ep: seq<string>)
    requires forall f | f in files :: f.Valid()
    ensures IsProblem(|files|, TreeHits(files, |files|, LintHit), entrypoints, open, Uncovered(ep))
       <==> ep in entrypoints && !Forbids(files, ep)
  {
    hide TreeHits, Forbids;
    CoveredIsForbidden(files, ep);
  }

  lemma {:induction false} OpenIs(files: seq<File>, n: nat, rel: seq<string>, what: string)
    requires n <= |files|
    ensures (rel, what) in TreeOpen(files, n) <==> exists i | 0 <= i < n :: (rel, what) in Unterminated(files[i])
  {
    hide Unterminated;
    if 0 < n { OpenIs(files, n - 1, rel, what); }
  }

  /** A code hit of a file: an unsafe form that stands in code, with its line number and name. */
  ghost predicate IsCodeHit(f: File, h: Hit)
    requires f.Valid()
  {
    exists k, j | 0 <= k < |f.found| && 0 <= j < |f.found[k]| ::
      && f.found[k][j].pattern.CodeForm? && MatchMode(f, k, j) == Code
      && h == Hit(f.rel, k + 1, f.found[k][j].pattern.name)
  }

  lemma CodeHitsAre(files: seq<File>, h: Hit)
    requires forall f | f in files :: f.Valid()
    ensures h in TreeHits(files, |files|, CodeHit) <==> exists i | 0 <= i < |files| :: IsCodeHit(files[i], h)
  {
    hide TreeHits, FileHits, IsCodeHit;
    TreeHitsAre(files, |files|, CodeHit, h);
    forall i | 0 <= i < |files| ensures h in FileHits(files[i], |files[i].found|, CodeHit) <==> IsCodeHit(files[i], h) {
      FileCodeHits(files[i], h);
    }
  }

  lemma FileCodeHits(f: File, h: Hit)
    requires f.Valid()
    ensures h in FileHits(f, |f.found|, CodeHit) <==> IsCodeHit(f, h)
  {
    hide FileHits, MatchMode;
    FileHitsAre(f, |f.found|, CodeHit, h);
    forall k, j | 0 <= k < |f.found| && 0 <= j < |f.found[k]|
      ensures Filed(f, k, j, CodeHit, h)
         <==> && f.found[k][j].pattern.CodeForm? && MatchMode(f, k, j) == Code
              && h == Hit(f.rel, k + 1, f.found[k][j].pattern.name) { }
  }

  /** What an unterminated file is reported as. */
  lemma UnterminatedIs(f: File, rel: seq<string>, what: string)
    ensures (rel, what) in Unterminated(f) <==>
              && rel == f.rel
              && var m := ModeAt(f.text, |f.text|);
                 || (m.Block? && what == "block comment") || (m.Str? && what == "string")
                 || (m.Raw? && what == "raw string")
  {
    hide ModeAt;
  }

  /** Under which kind a match is recorded. */
  lemma HitKinds(f: File, k: nat, m: Match)
    ensures forall b :: HitOf(f, k, m, b).rel == f.rel && HitOf(f, k, m, b).line == k + 1
    ensures m.pattern.AllowAttr? ==> forall b :: HitOf(f, k, m, b).kind == "allow_attr"
    ensures m.pattern.CfgAttrAllow? ==> forall b :: HitOf(f, k, m, b).kind == "cfg_attr_allow"
    ensures m.pattern.CodeForm? ==> forall b :: HitOf(f, k, m, b).kind == m.pattern.name
    ensures m.pattern.ForbidAttr? ==>
              && HitOf(f, k, m, ProseHit).kind == "forbid_attr"
              && HitOf(f, k, m, LintHit).kind
              == (if !m.pattern.inner then "forbid_item"
                  else if IsEntrypoint(f.rel) then "forbid_attr" else "forbid_elsewhere")
  {
  }
}
