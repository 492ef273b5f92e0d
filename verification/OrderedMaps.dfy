/**
 The comment stripper of the ordered-map audit (tools/check_ordered_maps.py), and its agreement with the
 unsafe audit's line walker on nested comments.
 */
module OrderedMaps {
  import opened Wrappers
  import opened Strings
  import opened RustModes
  import opened AuditUnsafe
  import opened AuditScan
  import opened MaskTokens

  datatype Stripped = Stripped(code: string, depth: nat)

  /** Just past the quote that closes a string body starting at `i`, or the end of the line. */
  function StringEnd(line: string, i: nat): (e: nat)
    requires i <= |line|
    ensures i <= e <= |line|
    decreases |line| - i
  {
    if i == |line| then i
    else if line[i] == '"' then i + 1
    else if line[i] == '\\' && i + 1 < |line| then StringEnd(line, i + 2)
    else StringEnd(line, i + 1)
  }

  /** Where a raw string that opens at `i` ends: past its closer, or with the line. */
  function RawEnd(line: string, i: nat): (e: nat)
    requires i < |line| && RawHead(line, i)
    ensures i < e <= |line|
  {
    var n := HashRun(line, i + 1);
    var found := Find(line, Closer(n), i + 2 + n);
    if found == |line| then |line| else found + 1 + n
  }

  /** What one turn of the loop keeps, where it goes on, and at which depth; `Halt` at a line comment. */
  datatype Turn = Halt | Turn(head: string, next: nat, depth: nat)

  function TurnAt(line: string, i: nat, depth: nat): (t: Turn)
    requires i < |line|
    ensures t.Turn? ==> i < t.next <= |line|
  {
    if depth > 0 then
      if At(line, i, '/', '*') then Turn("", i + 2, depth + 1)
      else if At(line, i, '*', '/') then Turn("", i + 2, depth - 1)
      else Turn("", i + 1, depth)
    else if line[i] == '"' then Turn("\"\"", StringEnd(line, i + 1), 0)
    else if RawHead(line, i) then Turn("r\"\"", RawEnd(line, i), 0)
    else if line[i] == '\'' && i + 2 < |line| && line[i + 2] == '\'' then Turn("'?'", i + 3, 0)
    else if line[i] == '\'' && i + 3 < |line| && line[i + 1] == '\\' && line[i + 3] == '\'' then Turn("'?'", i + 4, 0)
    else if At(line, i, '/', '/') then Halt
    else if At(line, i, '/', '*') then Turn("", i + 2, 1)
    else Turn([line[i]], i + 1, 0)
  }

  /** The code left of the line from `i` on, and the comment depth it ends at. */
  function Strip(line: string, i: nat, depth: nat): Stripped
    requires i <= |line|
    decreases |line| - i
  {
    if i == |line| then Stripped("", depth)
    else match TurnAt(line, i, depth)
         case Halt => Stripped("", 0)
         case Turn(head, next, d) => var rest := Strip(line, next, d); Stripped(head + rest.code, rest.depth)
  }

  /** One turn outside comments. */
  method CodeTurn(line: string, i: nat) returns (t: Turn)
    requires i < |line|
    ensures t == TurnAt(line, i, 0)
  {
    var ch := line[i];
    if ch == '"' {
      var j := SkipString(line, i + 1);
      return Turn("\"\"", j, 0);
    }
    if ch == 'r' && i + 1 < |line| && line[i + 1] in "\"#" {
      var hashes := CountHashes(line, i + 1);
      var j := i + 1 + hashes;
      if j < |line| && line[j] == '"' {
        var end := Find(line, Closer(hashes), j + 1);
        return Turn("r\"\"", if end == |line| then |line| else end + 1 + hashes, 0);
      }
    }
    if ch == '\'' && i + 2 < |line| && line[i + 2] == '\'' {
      return Turn("'?'", i + 3, 0);
    }
    if ch == '\'' && i + 3 < |line| && line[i + 1] == '\\' && line[i + 3] == '\'' {
      return Turn("'?'", i + 4, 0);
    }
    if At(line, i, '/', '/') {
      return Halt;
    }
    if At(line, i, '/', '*') {
      return Turn("", i + 2, 1);
    }
    return Turn([ch], i + 1, 0);
  }

  /** One turn inside a comment. */
  method BlockTurn(line: string, i: nat, depth: nat) returns (t: Turn)
    requires i < |line| && 0 < depth
    ensures t == TurnAt(line, i, depth)
  {
    if At(line, i, '/', '*') {
      return Turn("", i + 2, depth + 1);
    }
    if At(line, i, '*', '/') {
      return Turn("", i + 2, depth - 1);
    }
    return Turn("", i + 1, depth);
  }

  method StripComments(line: string, inBlock: nat) returns (code: string, depth: nat)
    ensures Stripped(code, depth) == Strip(line, 0, inBlock)
  {
    code, depth := "", inBlock;
    var i := 0;
    while i < |line|
      invariant i <= |line|
      invariant var rest := Strip(line, i, depth); Stripped(code + rest.code, rest.depth) == Strip(line, 0, inBlock)
    {
      var t;
      if depth > 0 {
        t := BlockTurn(line, i, depth);
      } else {
        t := CodeTurn(line, i);
      }
      if t.Halt? {
        break;
      }
      code, i, depth := code + t.head, t.next, t.depth;
    }
  }

  method SkipString(line: string, from: nat) returns (i: nat)
    requires from <= |line|
    ensures i == StringEnd(line, from)
  {
    i := from;
    while i < |line| && line[i] != '"'
      invariant from <= i <= |line| && StringEnd(line, i) == StringEnd(line, from)
    {
      i := i + if line[i] == '\\' && i + 1 < |line| then 2 else 1;
    }
    if i < |line| { i := i + 1; }
  }

  // ---------------------------------------------------------------------------------------------
  // Agreement with the line walker
  // ---------------------------------------------------------------------------------------------

  predicate QuoteFree(s: string) {
    '"' !in s && '\'' !in s
  }

  /** The depth threaded into stripped line `k`. */
  function BlockEntry(lines: seq<string>, k: nat): nat
    requires k <= |lines|
  {
    if k == 0 then 0 else Strip(lines[k - 1], 0, BlockEntry(lines, k - 1)).depth
  }

  function Codes(lines: seq<string>): seq<string> {
    seq(|lines|, k requires 0 <= k < |lines| => Strip(lines[k], 0, BlockEntry(lines, k)).code)
  }

  method StrippedLines(text: string) returns (codes: seq<string>)
    ensures codes == Codes(SplitLines(text))
  {
    hide Strip, SplitLines;
    var lines := SplitLines(text);
    codes := [];
    var inBlock := 0;
    for k := 0 to |lines|
      invariant |codes| == k && inBlock == BlockEntry(lines, k)
      invariant forall j | 0 <= j < k :: codes[j] == Strip(lines[j], 0, BlockEntry(lines, j)).code
    {
      var code;
      code, inBlock := StripComments(lines[k], inBlock);
      codes := codes + [code];
    }
  }

  function Chomp(line: string): string {
    if line != "" && line[|line| - 1] == '\n' then line[..|line| - 1] else line
  }

  function Chomped(lines: seq<string>): seq<string> {
    seq(|lines|, k requires 0 <= k < |lines| => Chomp(lines[k]))
  }

  predicate OnlyNewlines(text: string) {
    forall k | 0 <= k < |text| :: IsBreak(text[k]) ==> text[k] == '\n'
  }

  lemma SameCut(text: string, off: nat)
    requires off < |text| && OnlyNewlines(text)
    ensures NextCut(text, off) == LineEnd(text, off) && Piece(text, off) == Chomp(text[off..LineEnd(text, off)])
  {
    hide FirstBreak, LineEnd;
    var b, e := FirstBreak(text, off), LineEnd(text, off);
    assert b == if text[e - 1] == '\n' then e - 1 else e;
    assert text[off..e][|text[off..e]| - 1] == text[e - 1];
  }

  lemma ChompCons(line: string, rest: seq<string>)
    ensures Chomped([line] + rest) == [Chomp(line)] + Chomped(rest)
  {
  }

  lemma {:induction false} NewlineCuts(text: string, off: nat)
    requires off <= |text| && OnlyNewlines(text)
    ensures SplitLines(text[off..]) == Chomped(ReadLines(text, off))
    decreases |text| - off
  {
    if off == |text| {
      assert text[off..] == "" && ReadLines(text, off) == [];
      NoLines();
    } else {
      var e := LineEnd(text, off);
      SplitAt(text, off);
      SameCut(text, off);
      NewlineCuts(text, e);
      ChompCons(text[off..e], ReadLines(text, e));
    }
  }

  /** A character that ends no line for `readlines` is in one of its lines. */
  lemma {:induction false} InSomeLine(text: string, off: nat, t: nat) returns (k: nat)
    requires off <= t < |text| && text[t] != '\n'
    ensures k < |ReadLines(text, off)| && text[t] in Chomp(ReadLines(text, off)[k])
    decreases |text| - off
  {
    hide LineEnd;
    var e := LineEnd(text, off);
    var line := text[off..e];
    assert ReadLines(text, off) == [line] + ReadLines(text, e);
    if t < e {
      assert line[t - off] == text[t] && Chomp(line)[t - off] == line[t - off];
      k := 0;
    } else {
      k := InSomeLine(text, e, t);
      k := k + 1;
    }
  }

  /** Both ways of cutting a text into lines agree exactly when only newlines break its lines. */
  lemma CutsAgree(text: string)
    ensures SplitLines(text) == Chomped(Lines(text)) <==> OnlyNewlines(text)
  {
    hide SplitLines, Chomp, ReadLines;
    if OnlyNewlines(text) {
      NewlineCuts(text, 0);
      assert text[0..] == text;
    }
    if SplitLines(text) == Chomped(Lines(text)) {
      forall t | 0 <= t < |text| && text[t] != '\n' ensures !IsBreak(text[t]) {
        var k := InSomeLine(text, 0, t);
        assert SplitLines(text)[k] == Chomp(Lines(text)[k]);
        LinesAreUnbroken(text, k);
      }
    }
  }

  // ---------------------------------------------------------------------------------------------
  // Where the stripped lines stand in the text
  // ---------------------------------------------------------------------------------------------

  function NextCut(text: string, p: nat): (c: nat)
    requires p < |text|
    ensures p < c <= |text|
  {
    var b := FirstBreak(text, p);
    if b == |text| then b else if At(text, b, '\r', '\n') then b + 2 else b + 1
  }

  /** Offset of stripped line `j`. */
  function CutStart(text: string, j: nat): (p: nat)
    ensures p <= |text|
  {
    if j == 0 then 0 else var p := CutStart(text, j - 1); if p == |text| then p else NextCut(text, p)
  }

  function Piece(text: string, p: nat): string
    requires p <= |text|
  {
    text[p..FirstBreak(text, p)]
  }

  lemma SplitAt(text: string, p: nat)
    requires p < |text|
    ensures SplitLines(text[p..]) == [Piece(text, p)] + SplitLines(text[NextCut(text, p)..])
  {
    hide SplitLines;
    var s, b := text[p..], FirstBreak(text, p);
    assert FirstBreak(s, 0) == b - p;
    SplitOnce(s);
    if b < |text| {
      assert At(s, b - p, '\r', '\n') <==> At(text, b, '\r', '\n');
      assert s[..b - p] == Piece(text, p) && s[NextCut(text, p) - p..] == text[NextCut(text, p)..];
    } else {
      NoLines();
      assert text[b..] == "" && s == Piece(text, p);
    }
  }

  lemma {:induction false} PieceIs(text: string, j: nat)
    requires j <= |SplitLines(text)|
    ensures SplitLines(text)[j..] == SplitLines(text[CutStart(text, j)..])
    ensures j < |SplitLines(text)| <==> CutStart(text, j) < |text|
    ensures j < |SplitLines(text)| ==> SplitLines(text)[j] == Piece(text, CutStart(text, j))
  {
    hide SplitLines, NextCut, Piece;
    var p := CutStart(text, j);
    if j == 0 {
      assert text[0..] == text;
    } else {
      PieceIs(text, j - 1);
      SplitAt(text, CutStart(text, j - 1));
    }
    NoLines();
    if p < |text| {
      SplitAt(text, p);
    } else {
      assert text[p..] == "";
    }
  }

  // ---------------------------------------------------------------------------------------------
  // The stripper and the whole-text machine, line by line
  // ---------------------------------------------------------------------------------------------

  function ModeOf(depth: nat): Mode {
    if depth == 0 then Code else Block(depth)
  }

  /** On a stripped line, one turn of the stripper is one step of the machine on the text around it. */
  lemma TurnIsTextStep(text: string, p: nat, i: nat, depth: nat)
    requires QuoteFree(text) && p <= |text| && p <= i < FirstBreak(text, p)
    ensures var q := Step(text, i, ModeOf(depth));
            match TurnAt(Piece(text, p), i - p, depth)
            case Halt => q == Place(i + 1, LineComment) && depth == 0
            case Turn(_, next, d) => q == Place(p + next, ModeOf(d))
  {
    hide FirstBreak, StringEnd, RawEnd;
    var line, b := Piece(text, p), FirstBreak(text, p);
    assert line[i - p] == text[i];
    assert b < |text| ==> text[b] != '*' && text[b] != '/';
    if i + 1 < b { assert line[i - p + 1] == text[i + 1]; }
    assert text[i] != '"' && text[i] != '\'';
  }

  /** Where a line ends, the machine is at the stripper's depth, or in a line comment where that is 0. */
  predicate Level(m: Mode, depth: nat) {
    m == ModeOf(depth) || (m == LineComment && depth == 0)
  }

  lemma {:induction false} PieceRuns(text: string, p: nat, i: nat, depth: nat)
    requires QuoteFree(text) && p <= |text| && p <= i <= FirstBreak(text, p)
    ensures var r := Run(text, i, ModeOf(depth), FirstBreak(text, p));
            r.pos == FirstBreak(text, p) && Level(r.mode, Strip(Piece(text, p), i - p, depth).depth)
    decreases FirstBreak(text, p) - i
  {
    hide TurnAt, Step, FirstBreak;
    var b := FirstBreak(text, p);
    if i < b {
      TurnIsTextStep(text, p, i, depth);
      match TurnAt(Piece(text, p), i - p, depth)
      case Halt =>
        assert forall k | i < k < b :: !IsBreak(text[k]);
        CommentRuns(text, i + 1, b);
      case Turn(_, next, d) => PieceRuns(text, p, p + next, d);
    }
  }

  /** A break that ends a stripped line and no line of `readlines`. */
  predicate OtherBreak(text: string, q: nat) {
    q < |text| && IsBreak(text[q]) && text[q] != '\n' && !At(text, q, '\r', '\n')
  }

  lemma BreakSteps(text: string, b: nat, m: Mode, depth: nat)
    requires b < |text| && IsBreak(text[b]) && Level(m, depth)
    ensures var c := if At(text, b, '\r', '\n') then b + 2 else b + 1;
            Run(text, b, m, c) == Place(c, if OtherBreak(text, b) then m else ModeOf(depth))
  {
    var q := Step(text, b, m);
    if At(text, b, '\r', '\n') {
      assert q == Place(b + 1, m);
      assert Step(text, b + 1, m) == Place(b + 2, ModeOf(depth));
      assert Run(text, b + 1, m, b + 2) == Run(text, b + 2, ModeOf(depth), b + 2);
    }
  }

  /** From the start of one stripped line to the start of the next. */
  lemma CutSteps(text: string, p: nat, depth: nat)
    requires QuoteFree(text) && p < |text|
    ensures var d := Strip(Piece(text, p), 0, depth).depth;
            var b, c := FirstBreak(text, p), NextCut(text, p);
            var m := Run(text, p, ModeOf(depth), b).mode;
            && Level(m, d)
            && Run(text, p, ModeOf(depth), c) == Place(c, if b < |text| && !OtherBreak(text, b) then ModeOf(d) else m)
  {
    hide Strip, Step, FirstBreak, Level;
    var d := Strip(Piece(text, p), 0, depth).depth;
    var b, c := FirstBreak(text, p), NextCut(text, p);
    PieceRuns(text, p, p, depth);
    var r := Run(text, p, ModeOf(depth), b);
    RunVia(text, p, ModeOf(depth), b, c, r);
    if b < |text| { BreakSteps(text, b, r.mode, d); }
  }

  /** No line comment runs over a break that only the stripper cuts at. */
  predicate NoBreakInComment(text: string) {
    forall q | 0 <= q < |text| - 1 && OtherBreak(text, q) :: ModeAt(text, q) != LineComment
  }

  /** Where stripped line `j` starts, the machine is at the stripper's depth. */
  predicate InStep(text: string, j: nat)
    requires j <= |SplitLines(text)|
  {
    ModeAt(text, CutStart(text, j)) == ModeOf(BlockEntry(SplitLines(text), j))
  }

  /** In code and in comments the machine takes one character, or a comment delimiter: never past a break. */
  lemma {:induction false} StopsAfterBreak(text: string, i: nat, m: Mode, p: nat)
    requires QuoteFree(text) && i <= p <= |text| && (i == p || IsBreak(text[p - 1]))
    requires m == Code || m == LineComment || m.Block?
    ensures Run(text, i, m, p).pos == p
    decreases p - i
  {
    if i < p {
      var q := Step(text, i, m);
      assert q.pos <= p by { if i + 1 == p { assert text[i] != '/' && text[i] != '*'; } }
      StopsAfterBreak(text, q.pos, q.mode, p);
    }
  }

  lemma CutPlace(text: string, j: nat)
    requires QuoteFree(text) && CutStart(text, j) < |text|
    ensures Run(text, 0, Code, CutStart(text, j)).pos == CutStart(text, j)
  {
    StopsAfterBreak(text, 0, Code, CutStart(text, j));
  }

  /** In step at one stripped line, the scanners come to the next one as `CutSteps` says. */
  lemma NextInStep(text: string, j: nat)
    requires QuoteFree(text) && j < |SplitLines(text)| && InStep(text, j)
    ensures var p := CutStart(text, j); p < |text|
    ensures var b := FirstBreak(text, CutStart(text, j));
            var d := BlockEntry(SplitLines(text), j + 1);
            && CutStart(text, j + 1) == NextCut(text, CutStart(text, j))
            && Level(ModeAt(text, b), d)
            && ModeAt(text, CutStart(text, j + 1))
            == if b < |text| && !OtherBreak(text, b) then ModeOf(d) else ModeAt(text, b)
  {
    hide SplitLines, Strip, Step, FirstBreak, Level, Run, Piece;
    PieceIs(text, j);
    CutPlace(text, j);
    var p := CutStart(text, j);
    var depth := BlockEntry(SplitLines(text), j);
    CutSteps(text, p, depth);
    RunVia(text, 0, Code, p, FirstBreak(text, p), Place(p, ModeOf(depth)));
    RunVia(text, 0, Code, p, NextCut(text, p), Place(p, ModeOf(depth)));
  }

  lemma {:induction false} StaysInStep(text: string, j: nat)
    requires QuoteFree(text) && NoBreakInComment(text) && j < |SplitLines(text)|
    ensures InStep(text, j)
  {
    hide SplitLines, FirstBreak, CutStart, OtherBreak, BlockEntry, ModeAt;
    if j == 0 {
      FirstInStep(text);
    } else {
      StaysInStep(text, j - 1);
      NextInStep(text, j - 1);
      PieceIs(text, j);
      var b := FirstBreak(text, CutStart(text, j - 1));
      assert b < |text| - 1;
      if OtherBreak(text, b) { assert ModeAt(text, b) != LineComment; }
    }
  }

  lemma FirstInStep(text: string)
    ensures InStep(text, 0) && CutStart(text, 0) == 0
  {
  }

  /** Every break that ends a stripped line is found by counting cuts. */
  lemma {:induction false} BreakEndsPiece(text: string, q: nat, from: nat) returns (j: nat)
    requires q < |text| && IsBreak(text[q]) && !At(text, q, '\r', '\n') && CutStart(text, from) <= q
    ensures CutStart(text, j) <= q && CutStart(text, j + 1) == q + 1
    decreases |text| - CutStart(text, from)
  {
    var c := NextCut(text, CutStart(text, from));
    if c == q + 1 {
      j := from;
    } else {
      j := BreakEndsPiece(text, q, from + 1);
    }
  }

  lemma {:induction false} CutsAreLines(text: string, j: nat)
    requires j == 0 || CutStart(text, j - 1) < |text|
    ensures j <= |SplitLines(text)|
  {
    hide SplitLines, NextCut;
    if 0 < j {
      CutsAreLines(text, j - 1);
      PieceIs(text, j - 1);
    }
  }

  /**
   On a text without quotes the stripper is at the whole-text machine's depth where every one of its lines
   starts, exactly when no line comment runs over a break that only the stripper cuts at.
   */
  lemma InStepExactly(text: string)
    requires QuoteFree(text)
    ensures (forall j: nat | j < |SplitLines(text)| :: InStep(text, j)) <==> NoBreakInComment(text)
  {
    hide SplitLines, InStep, CutStart, NextCut, ModeAt, IsBreak;
    if NoBreakInComment(text) {
      forall j: nat | j < |SplitLines(text)| ensures InStep(text, j) { StaysInStep(text, j); }
    }
    if forall j: nat | j < |SplitLines(text)| :: InStep(text, j) {
      forall q | 0 <= q < |text| - 1 && OtherBreak(text, q) ensures ModeAt(text, q) != LineComment {
        InStepNoComment(text, q);
      }
    }
  }

  lemma InStepNoComment(text: string, q: nat)
    requires QuoteFree(text) && q + 1 < |text| && OtherBreak(text, q)
    requires forall j: nat | j < |SplitLines(text)| :: InStep(text, j)
    ensures ModeAt(text, q) != LineComment
  {
    hide SplitLines, ModeAt, BlockEntry, CutStart, FirstBreak, NextCut, IsBreak, Level;
    FirstInStep(text);
    var j := BreakEndsPiece(text, q, 0);
    CutsAreLines(text, j + 1);
    PieceIs(text, j);
    PieceIs(text, j + 1);
    assert InStep(text, j) && InStep(text, j + 1);
    NextInStep(text, j);
    EndsAtOtherBreak(text, j, q);
  }

  lemma EndsAtOtherBreak(text: string, j: nat, q: nat)
    requires OtherBreak(text, q) && CutStart(text, j) <= q && CutStart(text, j + 1) == q + 1
    ensures FirstBreak(text, CutStart(text, j)) == q
  {
  }

  lemma EndDepth(text: string)
    requires QuoteFree(text) && NoBreakInComment(text)
    ensures var ls := SplitLines(text); Open(ModeAt(text, |text|)) == Carry(BlockEntry(ls, |ls|), false, None)
  {
    hide SplitLines, BlockEntry, ModeAt, FirstBreak, NoBreakInComment, CutStart, NextCut, OtherBreak;
    var n := |SplitLines(text)|;
    PieceIs(text, n);
    if n == 0 {
      FirstInStep(text);
    } else {
      StaysInStep(text, n - 1);
      NextInStep(text, n - 1);
    }
  }

  /**
   Two scanners written apart: on a text without quotes whose line comments end where the stripper cuts,
   the line walker and the stripper are at the same comment depth where every line starts, and after the
   last. `j` is the stripped line that starts where line `k` does.
   */
  lemma CommentDepthsAgree(text: string, k: nat) returns (j: nat)
    requires QuoteFree(text) && NoBreakInComment(text) && k <= |Lines(text)|
    ensures j <= |SplitLines(text)| && CutStart(text, j) == Start(Lines(text), k)
    ensures Entry(Lines(text), k) == Carry(BlockEntry(SplitLines(text), j), false, None)
  {
    hide SplitLines, ReadLines, Run, NoBreakInComment, CutStart, BlockEntry, Entry, Start;
    FirstInStep(text);
    ReadLinesCuts(text, 0, k);
    if k == |Lines(text)| {
      j := |SplitLines(text)|;
      PieceIs(text, j);
      EndDepth(text);
      ThreadedEnd(text);
    } else {
      EntryMatches(text, k);
      var p := Start(Lines(text), k);
      if p == 0 {
        j := 0;
        PieceIs(text, 0);
      } else {
        j := BreakEndsPiece(text, p - 1, 0);
        j := j + 1;
        CutsAreLines(text, j);
        PieceIs(text, j);
      }
      StaysInStep(text, j);
    }
  }

  /** A form feed ends a line for one scanner and not for the other, and then they part. */
  lemma FormFeedParts()
    ensures var text := "//\U{0C}/*";
            && Entry(Lines(text), |Lines(text)|).depth == 0
            && BlockEntry(SplitLines(text), |SplitLines(text)|) == 1
  {
    var text := "//\U{0C}/*";
    assert LineEnd(text, 4) == 5 && LineEnd(text, 3) == 5 && LineEnd(text, 2) == 5 && LineEnd(text, 1) == 5;
    assert LineEnd(text, 0) == 5;
    assert text[0..5] == text;
    assert Lines(text) == [text];
    assert Advance(text, 0, Enter(NOTHING_OPEN)) == Stop;
    assert FirstBreak(text, 0) == 2 && text[..2] == "//" && text[3..] == "/*";
    assert FirstBreak("/*", 0) == 2;
    assert SplitLines(text) == ["//", "/*"];
    assert Strip("//", 0, 0) == Stripped("", 0);
    assert Strip("/*", 2, 1) == Stripped("", 1);
    assert Strip("/*", 0, 0) == Stripped("", 1);
    assert BlockEntry(["//", "/*"], 1) == 0;
  }

  // ---------------------------------------------------------------------------------------------
  // What is left of a line
  // ---------------------------------------------------------------------------------------------

  /** The text a run of the whole-text machine reads without leaving code. */
  function CodeText(s: string, i: nat, m: Mode): string
    requires i <= |s|
    decreases |s| - i
  {
    if i == |s| then ""
    else
      var q := Step(s, i, m);
      (if m == Code && q.mode == Code then s[i..q.pos] else "") + CodeText(s, q.pos, q.mode)
  }

  lemma TurnIsStep(line: string, i: nat, depth: nat)
    requires i < |line| && QuoteFree(line)
    ensures var q := Step(line, i, ModeOf(depth));
            match TurnAt(line, i, depth)
            case Halt => q == Place(i + 1, LineComment) && depth == 0
            case Turn(head, next, d) =>
              q == Place(next, ModeOf(d))
              && head == if ModeOf(depth) == Code && q.mode == Code then line[i..next] else ""
  {
  }

  lemma {:induction false} CommentHasNoCode(line: string, i: nat)
    requires i <= |line| && '\n' !in line
    ensures CodeText(line, i, LineComment) == ""
    decreases |line| - i
  {
    if i < |line| { CommentHasNoCode(line, i + 1); }
  }

  /** On a line without quotes the stripper keeps exactly the text the whole-text machine reads as code. */
  lemma {:induction false} KeepsExactlyCode(line: string, i: nat, depth: nat)
    requires i <= |line| && QuoteFree(line) && '\n' !in line
    ensures Strip(line, i, depth).code == CodeText(line, i, ModeOf(depth))
    decreases |line| - i
  {
    hide TurnAt, Step;
    if i < |line| {
      TurnIsStep(line, i, depth);
      match TurnAt(line, i, depth)
      case Halt => CommentHasNoCode(line, i + 1);
      case Turn(head, next, d) => KeepsExactlyCode(line, next, d);
    }
  }

  // ---------------------------------------------------------------------------------------------
  // Lines with literals and nested comments
  // ---------------------------------------------------------------------------------------------

  /** A piece of a line: a token, a comment with its nesting, or a comment the line leaves open. */
  datatype Bit = Whole(t: Token) | Comment(body: Body) | OpenComment

  /** A char escape of at most one character, as the stripper's patterns have it. */
  predicate Short(t: Token) {
    t.CharEsc? ==> |t.body| <= 1
  }

  predicate BitAt(b: Bit, line: string, i: nat) {
    match b
    case Whole(t) => Stands(t, line, i) && !t.BlockNote? && Short(t)
    case Comment(body) => Readable(body) && Sits(line, i, "/*" + Render(body))
    case OpenComment => At(line, i, '/', '*') && Parse(line, i + 2).NoBody?
  }

  function BitEnd(b: Bit, line: string, i: nat): nat {
    match b
    case Whole(t) => i + |Spell(t)|
    case Comment(body) => i + 2 + |Render(body)|
    case OpenComment => |line|
  }

  /** The pieces, one after another, spell the line from `i` to its end. */
  predicate BitsSpell(bits: seq<Bit>, line: string, i: nat) {
    if bits == [] then i == |line|
    else BitAt(bits[0], line, i) && BitsSpell(bits[1..], line, BitEnd(bits[0], line, i))
  }

  /** What stripping leaves of a piece. */
  function Residue(b: Bit): string {
    match b
    case Whole(CodeChar(c)) => [c]
    case Whole(RawText(_, _, _)) => "r\"\""
    case Whole(CharLit(_)) => "'?'"
    case Whole(CharEsc(_)) => "'?'"
    case Whole(StrLit(_, _)) => "\"\""
    case _ => ""
  }

  function ResidueAll(bits: seq<Bit>): string {
    if bits == [] then "" else Residue(bits[0]) + ResidueAll(bits[1..])
  }

  lemma BlockTurns(line: string, i: nat, d: nat)
    requires i < |line| && 1 <= d
    ensures At(line, i, '*', '/') ==> Strip(line, i, d) == Strip(line, i + 2, d - 1)
    ensures At(line, i, '/', '*') ==> Strip(line, i, d) == Strip(line, i + 2, d + 1)
    ensures !At(line, i, '*', '/') && !At(line, i, '/', '*') ==> Strip(line, i, d) == Strip(line, i + 1, d)
  {
  }

  /** A comment body of any nesting is stripped whole, one level out. */
  lemma {:induction false} BodyStripped(line: string, i: nat, b: Body, d: nat)
    requires 1 <= d && Readable(b) && Sits(line, i, Render(b))
    ensures Strip(line, i, d) == Strip(line, i + |Render(b)|, d - 1)
    decreases b
  {
    hide Strip;
    match b
    case Close =>
      SitsChar(line, i, "*/", 0);
      SitsChar(line, i, "*/", 1);
      BlockTurns(line, i, d);
    case Text(c, rest) =>
      TextSits(line, i, c, rest);
      BlockTurns(line, i, d);
      BodyStripped(line, i + 1, rest, d);
    case Nested(inner, rest) =>
      NestedSits(line, i, inner, rest);
      BlockTurns(line, i, d);
      BodyStripped(line, i + 2, inner, d + 1);
      BodyStripped(line, i + 2 + |Render(inner)|, rest, d);
  }

  /** A comment with no body to its end leaves nothing, and the line ends inside it. */
  lemma {:induction false} NoBodyStripped(line: string, i: nat, d: nat)
    requires 1 <= d && i <= |line| && Parse(line, i).NoBody?
    ensures Strip(line, i, d).code == "" && Strip(line, i, d).depth >= d
    decreases |line| - i
  {
    hide TurnAt, ReadsTo;
    if i < |line| {
      BlockTurns(line, i, d);
      if At(line, i, '/', '*') {
        var inner := Parse(line, i + 2);
        if inner.NoBody? {
          NoBodyStripped(line, i + 2, d + 1);
        } else {
          ParsedIsStripped(line, i + 2, d + 1);
          NoBodyStripped(line, inner.end, d);
        }
      } else {
        NoBodyStripped(line, i + 1, d);
      }
    }
  }

  lemma ParsedIsStripped(line: string, i: nat, d: nat)
    requires 1 <= d && i <= |line| && Parse(line, i).Reading?
    ensures Strip(line, i, d) == Strip(line, Parse(line, i).end, d - 1)
  {
    hide Strip, Parse;
    ParseReads(line, i);
    BodyStripped(line, i, Parse(line, i).body, d);
  }

  lemma CommentOpens(line: string, i: nat)
    requires At(line, i, '/', '*')
    ensures Strip(line, i, 0) == Strip(line, i + 2, 1)
  {
  }

  lemma {:induction false} StringEndIs(s: string, i: nat)
    requires i <= |s|
    ensures var r := StringTail(s, i); StringEnd(s, i) == i + |SpellItems(r.items)| + |SpellEnd(r.end)|
    decreases |s| - i
  {
    if i < |s| && s[i] != '"' {
      if s[i] == '\\' {
        if i + 1 < |s| {
          StringEndIs(s, i + 2);
          assert ([Esc(s[i + 1])] + StringTail(s, i + 2).items)[1..] == StringTail(s, i + 2).items;
        } else {
          assert StringEnd(s, i + 1) == i + 1;
        }
      } else {
        StringEndIs(s, i + 1);
        assert ([Plain(s[i])] + StringTail(s, i + 1).items)[1..] == StringTail(s, i + 1).items;
      }
    }
  }

  /** Outside comments, one turn takes a token whole and leaves its residue. */
  lemma TurnTakesToken(line: string, i: nat)
    requires i < |line| && Short(First(line, i)) && !At(line, i, '/', '/') && !At(line, i, '/', '*')
    ensures var t := First(line, i); TurnAt(line, i, 0) == Turn(Residue(Whole(t)), i + |Spell(t)|, 0)
  {
    if line[i] == '"' {
      StrTurn(line, i);
    } else if EscHead(line, i) || CharHead(line, i) {
      CharTurn(line, i);
    } else if !RawHead(line, i) {
      FirstCode(line, i);
      PlainTurn(line, i);
    }
  }

  lemma StrTurn(line: string, i: nat)
    requires i < |line| && line[i] == '"'
    ensures var t := First(line, i); TurnAt(line, i, 0) == Turn(Residue(Whole(t)), i + |Spell(t)|, 0)
  {
    hide First, StringTail, StringEnd, SpellItems;
    FirstStr(line, i);
    StringEndIs(line, i + 1);
  }

  lemma CharTurn(line: string, i: nat)
    requires i < |line| && (EscHead(line, i) || CharHead(line, i)) && Short(First(line, i))
    ensures var t := First(line, i); TurnAt(line, i, 0) == Turn(Residue(Whole(t)), i + |Spell(t)|, 0)
  {
    hide First;
    FirstChar(line, i);
    if EscHead(line, i) { FindChar(line, '\'', i + 2); }
  }

  lemma PlainTurn(line: string, i: nat)
    requires i < |line| && PlainAt(line, i)
    ensures TurnAt(line, i, 0) == Turn([line[i]], i + 1, 0)
  {
    if At(line, i, '\'', '\\') { FindChar(line, '\'', i + 2); }
  }

  lemma TokenStripped(line: string, i: nat, t: Token)
    requires BitAt(Whole(t), line, i) && '\n' !in line
    ensures var e := i + |Spell(t)|;
            && i < e <= |line|
            && Strip(line, i, 0).code == Residue(Whole(t)) + Strip(line, e, 0).code
            && Strip(line, i, 0).depth == Strip(line, e, 0).depth
  {
    hide StringEnd, RawEnd, Stands, Find, First, Spell, TurnAt;
    StandsFits(t, line, i);
    FirstIs(t, line, i);
    if At(line, i, '/', '/') {
      LineStripped(line, i);
    } else if At(line, i, '/', '*') {
      FirstBlock(line, i);
    } else {
      TurnTakesToken(line, i);
    }
  }

  lemma LineStripped(line: string, i: nat)
    requires At(line, i, '/', '/') && '\n' !in line
    ensures var t := First(line, i); t.LineNote? && i + |Spell(t)| == |line|
    ensures Strip(line, i, 0) == Stripped("", 0) == Strip(line, |line|, 0)
  {
    MaskTokens.FirstLine(line, i);
    FindChar(line, '\n', i + 2);
  }

  lemma BitStripped(line: string, i: nat, b: Bit)
    requires BitAt(b, line, i) && '\n' !in line
    ensures var e := BitEnd(b, line, i); var d := if b.OpenComment? then Strip(line, i, 0).depth else 0;
            && i < e <= |line| && (b.OpenComment? ==> 0 < d)
            && Strip(line, i, 0) == Stripped(Residue(b) + Strip(line, e, d).code, Strip(line, e, d).depth)
  {
    hide Spell, Stands, TurnAt, Parse;
    match b
    case Whole(t) => TokenStripped(line, i, t);
    case Comment(body) =>
      SitsParts(line, i, "/*", Render(body));
      SitsChar(line, i, "/*", 0);
      SitsChar(line, i, "/*", 1);
      CommentOpens(line, i);
      BodyStripped(line, i + 2, body, 1);
    case OpenComment =>
      CommentOpens(line, i);
      NoBodyStripped(line, i + 2, 1);
  }

  /**
   A line spelled by tokens and comments of any nesting strips to their residues: literals emptied, comments
   gone, code kept. It ends in a comment exactly when it leaves one open.
   */
  lemma {:induction false} StripsToResidues(bits: seq<Bit>, line: string, i: nat)
    requires BitsSpell(bits, line, i) && '\n' !in line
    ensures i <= |line| && Strip(line, i, 0).code == ResidueAll(bits)
    ensures Strip(line, i, 0).depth > 0 <==> bits != [] && bits[|bits| - 1].OpenComment?
    decreases |bits|
  {
    hide TurnAt, BitAt, Residue, BitEnd;
    if bits != [] {
      BitStripped(line, i, bits[0]);
      if bits[0].OpenComment? {
        OpenIsLast(bits, line, i);
      } else {
        StripsToResidues(bits[1..], line, BitEnd(bits[0], line, i));
      }
    }
  }

  lemma OpenIsLast(bits: seq<Bit>, line: string, i: nat)
    requires bits != [] && bits[0].OpenComment? && BitsSpell(bits, line, i)
    ensures bits == [OpenComment]
  {
  }

  /** The pieces of a line, as a lexer that nests comments finds them. */
  function BitsOf(line: string, i: nat): seq<Bit>
    requires i <= |line|
    decreases |line| - i
  {
    if i == |line| then []
    else if At(line, i, '/', '*') then
      match Parse(line, i + 2)
      case Reading(body, e) => [Comment(body)] + BitsOf(line, e)
      case NoBody => [OpenComment]
    else
      FirstStands(line, i);
      StandsFits(First(line, i), line, i);
      [Whole(First(line, i))] + BitsOf(line, i + |Spell(First(line, i))|)
  }

  predicate ShortBits(bits: seq<Bit>) {
    forall k | 0 <= k < |bits| && bits[k].Whole? :: Short(bits[k].t)
  }

  /** Every line is spelled by its pieces, unless a char escape is longer than one character. */
  lemma {:induction false} LineIsSpelled(line: string, i: nat)
    requires i <= |line| && ShortBits(BitsOf(line, i))
    ensures BitsSpell(BitsOf(line, i), line, i)
    decreases |line| - i
  {
    hide First, Spell, Stands, Short, Parse;
    if i < |line| {
      var bits := BitsOf(line, i);
      var b := bits[0];
      assert bits == [b] + bits[1..];
      assert b.Whole? ==> Short(b.t);
      assert ShortBits(bits[1..]) by {
        forall k | 0 <= k < |bits[1..]| && bits[1..][k].Whole? ensures Short(bits[1..][k].t) {
          assert bits[k + 1] == bits[1..][k];
        }
      }
      BitStands(line, i);
      if !b.OpenComment? { LineIsSpelled(line, BitEnd(b, line, i)); }
    }
  }

  lemma BitStands(line: string, i: nat)
    requires i < |line| && ShortBits(BitsOf(line, i))
    ensures var b := BitsOf(line, i)[0]; var e := BitEnd(b, line, i);
            && BitAt(b, line, i) && i < e <= |line|
            && BitsOf(line, i)[1..] == if b.OpenComment? then [] else BitsOf(line, e)
  {
    hide Parse, Spell, Stands, First, Sits, Readable, Render, Short;
    if At(line, i, '/', '*') {
      if Parse(line, i + 2).Reading? { CommentSits(line, i); }
    } else {
      TokenSits(line, i);
      assert Short(BitsOf(line, i)[0].t);
    }
  }

  lemma CommentSits(line: string, i: nat)
    requires At(line, i, '/', '*') && Parse(line, i + 2).Reading?
    ensures var body := Parse(line, i + 2).body;
            Readable(body) && Sits(line, i, "/*" + Render(body)) && Parse(line, i + 2).end == i + 2 + |Render(body)|
  {
    hide Parse, Readable, Render;
    ParseReads(line, i + 2);
    assert line[i..i + 2] == "/*";
    SitsJoin(line, i, "/*", Render(Parse(line, i + 2).body));
  }

  lemma TokenSits(line: string, i: nat)
    requires i < |line| && !At(line, i, '/', '*')
    ensures var t := First(line, i); Stands(t, line, i) && !t.BlockNote? && i + |Spell(t)| <= |line|
  {
    hide Stands;
    FirstStands(line, i);
    StandsFits(First(line, i), line, i);
  }
}
