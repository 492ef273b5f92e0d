/**
 The line scanner behind the unsafe-code audit (tools/audit_unsafe.py) and its agreement with the
 whole-text reading of `RustModes`.
 */
module AuditUnsafe {
  import opened Wrappers
  import opened Strings
  import opened RustModes

  /** What one line hands to the next. */
  datatype Carry = Carry(depth: nat, inString: bool, raw: Option<nat>)

  const NOTHING_OPEN := Carry(0, false, None)

  /** The walker's five variables. Nothing in the type keeps two of them from being set at once. */
  datatype Regs = Regs(depth: nat, raw: Option<nat>, inString: bool, inChar: bool, escaped: bool) {
    predicate Prose() {
      inString || inChar || depth > 0 || raw.Some?
    }

    function Out(): Carry {
      Carry(depth, inString, raw)
    }
  }

  datatype Verdict = Verdict(prose: bool, carry: Carry)

  datatype Move = Stop | Go(i: nat, regs: Regs)

  /** The hash count the opener pattern captures on `line[..i]`; `$` also matches before a final newline. */
  function PatternRaw(line: string, i: nat): Option<nat>
    requires i <= |line|
  {
    RawOpener(line, if 0 < i && line[i - 1] == '\n' then i - 1 else i)
  }

  predicate CharCloses(line: string, i: nat)
    requires i < |line|
  {
    '\'' in line[i + 1..if i + 4 <= |line| then i + 4 else |line|]
  }

  /** One turn of the walker's loop, on its own variables. */
  function Advance(line: string, i: nat, r: Regs): (m: Move)
    requires i < |line|
    ensures m.Go? ==> i < m.i <= |line|
  {
    if r.depth > 0 then
      if At(line, i, '/', '*') then Go(i + 2, r.(depth := r.depth + 1))
      else if At(line, i, '*', '/') then Go(i + 2, r.(depth := r.depth - 1))
      else Go(i + 1, r)
    else if r.raw.Some? then
      if line[i] == '"' && HashRun(line, i + 1) == r.raw.value
      then Go(i + 1 + HashRun(line, i + 1), r.(raw := None)) else Go(i + 1, r)
    else if r.escaped then Go(i + 1, r.(escaped := false))
    else if line[i] == '\\' && (r.inString || r.inChar) then Go(i + 1, r.(escaped := true))
    else if r.inString then Go(i + 1, r.(inString := line[i] != '"'))
    else if r.inChar then Go(i + 1, r.(inChar := line[i] != '\''))
    else if line[i] == '"' then
      Go(i + 1, if PatternRaw(line, i).Some? then r.(raw := PatternRaw(line, i)) else r.(inString := true))
    else if line[i] == '\'' then Go(i + 1, r.(inChar := CharCloses(line, i)))
    else if At(line, i, '/', '/') then Stop
    else if At(line, i, '/', '*') then Go(i + 2, r.(depth := 1))
    else Go(i + 1, r)
  }

  function WalkFrom(line: string, idx: nat, i: nat, r: Regs): Verdict
    requires idx <= |line|
    decreases |line| - i
  {
    if idx <= i then Verdict(r.Prose(), r.Out())
    else match Advance(line, i, r)
         case Stop => Verdict(true, r.Out())
         case Go(j, r') => WalkFrom(line, idx, j, r')
  }

  function Enter(c: Carry): Regs {
    Regs(c.depth, c.raw, c.inString, false, false)
  }

  function Walk(line: string, idx: nat, c: Carry): Verdict
    requires idx <= |line|
  {
    WalkFrom(line, idx, 0, Enter(c))
  }

  lemma WalkTurn(line: string, idx: nat, i: nat, r: Regs)
    requires i < idx <= |line|
    ensures WalkFrom(line, idx, i, r)
         == match Advance(line, i, r)
            case Stop => Verdict(true, r.Out())
            case Go(j, r') => WalkFrom(line, idx, j, r')
  {
  }

  lemma WalkDone(line: string, idx: nat, i: nat, r: Regs)
    requires idx <= |line| && idx <= i
    ensures WalkFrom(line, idx, i, r) == Verdict(r.Prose(), r.Out())
  {
  }

  method WalkLine(line: string, idx: nat, depthIn: nat, stringIn: bool, rawIn: Option<nat>)
    returns (prose: bool, depth: nat, inString: bool, raw: Option<nat>)
    requires idx <= |line|
    ensures Verdict(prose, Carry(depth, inString, raw)) == Walk(line, idx, Carry(depthIn, stringIn, rawIn))
  {
    hide PatternRaw, CharCloses, HashRun, WalkFrom;
    inString, raw, depth := stringIn, rawIn, depthIn;
    var inChar, escaped := false, false;
    var i := 0;
    while i < idx
      invariant i <= |line|
      invariant WalkFrom(line, idx, i, Regs(depth, raw, inString, inChar, escaped))
             == Walk(line, idx, Carry(depthIn, stringIn, rawIn))
      decreases |line| - i
    {
      WalkTurn(line, idx, i, Regs(depth, raw, inString, inChar, escaped));
      var ch := line[i];
      var nxt := if i + 1 < |line| then [line[i + 1]] else "";
      if depth > 0 {
        if ch == '/' && nxt == "*" {
          depth := depth + 1;
          i := i + 2;
        } else if ch == '*' && nxt == "/" {
          depth := depth - 1;
          i := i + 2;
        } else {
          i := i + 1;
        }
        continue;
      }
      if raw.Some? {
        if ch == '"' {
          var hashes := CountHashes(line, i + 1);
          if hashes == raw.value {
            raw := None;
            i := i + 1 + hashes;
            continue;
          }
        }
        i := i + 1;
        continue;
      }
      if escaped {
        escaped := false;
      } else if ch == '\\' && (inString || inChar) {
        escaped := true;
      } else if inString {
        if ch == '"' { inString := false; }
      } else if inChar {
        if ch == '\'' { inChar := false; }
      } else if ch == '"' {
        var opener := PatternRaw(line, i);
        if opener.Some? { raw := opener; } else { inString := true; }
      } else if ch == '\'' {
        if CharCloses(line, i) { inChar := true; }
      } else if ch == '/' && nxt == "/" {
        return true, depth, inString, raw;
      } else if ch == '/' && nxt == "*" {
        depth := depth + 1;
        i := i + 2;
        continue;
      }
      i := i + 1;
    }
    prose := inString || inChar || depth > 0 || raw.Some?;
    WalkDone(line, idx, i, Regs(depth, raw, inString, inChar, escaped));
  }

  method CountHashes(line: string, from: nat) returns (hashes: nat)
    requires from <= |line|
    ensures hashes == HashRun(line, from)
  {
    hashes := 0;
    while from + hashes < |line| && line[from + hashes] == '#'
      invariant from + hashes <= |line|
      invariant hashes + HashRun(line, from + hashes) == HashRun(line, from)
    {
      hashes := hashes + 1;
    }
  }

  // ---------------------------------------------------------------------------------------------
  // Lines of a text
  // ---------------------------------------------------------------------------------------------

  /** Just past the newline that ends the line containing `i`, or the end of the text. */
  function LineEnd(text: string, i: nat): (e: nat)
    requires i < |text|
    ensures i < e <= |text|
    ensures forall k | i <= k < e - 1 :: text[k] != '\n'
    ensures e == |text| || text[e - 1] == '\n'
    decreases |text| - i
  {
    if text[i] == '\n' || i + 1 == |text| then i + 1 else LineEnd(text, i + 1)
  }

  /** The lines from offset `off` on, each with its newline, as `readlines` yields them. */
  function ReadLines(text: string, off: nat): seq<string>
    requires off <= |text|
    decreases |text| - off
  {
    if off == |text| then []
    else [text[off..LineEnd(text, off)]] + ReadLines(text, LineEnd(text, off))
  }

  predicate IsLine(text: string, off: nat, line: string) {
    && 0 < |line| && off + |line| <= |text| && text[off..off + |line|] == line
    && (off == 0 || text[off - 1] == '\n')
    && (forall k | 0 <= k < |line| - 1 :: line[k] != '\n')
    && (off + |line| == |text| || line[|line| - 1] == '\n')
  }

  /** Every pair of neighbours the machine may look at from inside a line is in the line. */
  predicate Inside(text: string, off: nat, line: string, i: nat)
  {
    i < |line| || (i == |line| && off + |line| == |text|)
  }

  lemma CharAt(text: string, off: nat, line: string, i: nat)
    requires IsLine(text, off, line) && i < |line|
    ensures text[off + i] == line[i]
  {
  }

  lemma {:induction false} HashRunInLine(text: string, off: nat, line: string, i: nat)
    requires IsLine(text, off, line) && Inside(text, off, line, i)
    ensures HashRun(text, off + i) == HashRun(line, i)
    decreases |line| - i
  {
    if i < |line| {
      CharAt(text, off, line, i);
      if line[i] == '#' { HashRunInLine(text, off, line, i + 1); }
    }
  }

  lemma {:induction false} HashesBeforeInLine(text: string, off: nat, line: string, i: nat)
    requires IsLine(text, off, line) && i <= |line|
    ensures HashesBefore(text, off + i) == HashesBefore(line, i)
  {
    if 0 < i {
      CharAt(text, off, line, i - 1);
      HashesBeforeInLine(text, off, line, i - 1);
    }
  }

  lemma RawOpenerInLine(text: string, off: nat, line: string, i: nat)
    requires IsLine(text, off, line) && i < |line|
    ensures RawOpener(text, off + i) == PatternRaw(line, i)
  {
    HashesBeforeInLine(text, off, line, i);
    var e := i - HashesBefore(line, i);
    if 1 <= e { CharAt(text, off, line, e - 1); }
    if 2 <= e { CharAt(text, off, line, e - 2); }
    if 3 <= e { CharAt(text, off, line, e - 3); }
  }

  lemma {:induction false} QuoteInLine(text: string, off: nat, line: string, j: nat, n: nat)
    requires IsLine(text, off, line) && Inside(text, off, line, j)
    ensures QuoteWithin(text, off + j, n) <==> '\'' in line[j..if j + n <= |line| then j + n else |line|]
    decreases n
  {
    var e := if j + n <= |line| then j + n else |line|;
    if 0 < n && j < |line| {
      CharAt(text, off, line, j);
      assert line[j..e] == [line[j]] + line[j + 1..e];
      if line[j] != '\n' { QuoteInLine(text, off, line, j + 1, n - 1); }
      else { assert line[j + 1..e] == []; }
    }
  }

  lemma PairInLine(text: string, off: nat, line: string, i: nat, a: char, b: char)
    requires IsLine(text, off, line) && i < |line| && a != '\n'
    ensures At(text, off + i, a, b) == At(line, i, a, b)
  {
  }

  // ---------------------------------------------------------------------------------------------
  // The walker refines the whole-text machine
  // ---------------------------------------------------------------------------------------------

  /** The walker's variables when the text is in mode `m`; a `//` comment has no such state. */
  function RegsOf(m: Mode): Regs {
    match m
    case Code => Regs(0, None, false, false, false)
    case LineComment => Regs(0, None, false, false, false)
    case Block(d) => Regs(d, None, false, false, false)
    case Str(e) => Regs(0, None, true, false, e)
    case Raw(n) => Regs(0, Some(n), false, false, false)
    case Chr(e) => Regs(0, None, false, true, e)
  }

  /** What mode `m` leaves open for the next line: a char literal or a `//` comment never is. */
  function Open(m: Mode): Carry {
    match m
    case Block(d) => Carry(d, false, None)
    case Str(_) => Carry(0, true, None)
    case Raw(n) => Carry(0, false, Some(n))
    case _ => NOTHING_OPEN
  }

  predicate Sane(m: Mode) {
    !m.LineComment? && (m.Block? ==> 1 <= m.depth)
  }

  /** Where the part of a line before its newline ends. */
  function Limit(line: string): nat {
    if 0 < |line| && line[|line| - 1] == '\n' then |line| - 1 else |line|
  }

  predicate Matches(off: nat, line: string, i: nat, m: Mode, mv: Move, q: Place) {
    match mv
    case Stop => m == Code && q == Place(off + i + 1, LineComment)
    case Go(j, r) => q.pos == off + j && j <= Limit(line) && Sane(q.mode) && r == RegsOf(q.mode)
  }

  lemma CodeMatches(text: string, off: nat, line: string, i: nat)
    requires IsLine(text, off, line) && i < Limit(line)
    ensures Matches(off, line, i, Code, Advance(line, i, RegsOf(Code)), Step(text, off + i, Code))
  {
    CharAt(text, off, line, i);
    PairInLine(text, off, line, i, '/', '*');
    PairInLine(text, off, line, i, '/', '/');
    RawOpenerInLine(text, off, line, i);
    QuoteInLine(text, off, line, i + 1, 3);
  }

  lemma RawMatches(text: string, off: nat, line: string, i: nat, n: nat)
    requires IsLine(text, off, line) && i < Limit(line)
    ensures Matches(off, line, i, Raw(n), Advance(line, i, RegsOf(Raw(n))), Step(text, off + i, Raw(n)))
  {
    CharAt(text, off, line, i);
    HashRunInLine(text, off, line, i + 1);
  }

  lemma AdvanceMatches(text: string, off: nat, line: string, i: nat, m: Mode)
    requires IsLine(text, off, line) && i < Limit(line) && Sane(m)
    ensures Matches(off, line, i, m, Advance(line, i, RegsOf(m)), Step(text, off + i, m))
  {
    match m
    case Code => CodeMatches(text, off, line, i);
    case Raw(n) => RawMatches(text, off, line, i, n);
    case _ =>
      CharAt(text, off, line, i);
      PairInLine(text, off, line, i, '/', '*');
      PairInLine(text, off, line, i, '*', '/');
  }

  /** The newline that ends a line: char state and `//` comments end with it, the rest goes on. */
  lemma NewlineMatches(text: string, i: nat, m: Mode)
    requires i < |text| && text[i] == '\n' && (Sane(m) || m == LineComment)
    ensures var q := Step(text, i, m);
            q.pos == i + 1 && Sane(q.mode) && Open(q.mode) == Open(m) && RegsOf(q.mode) == Enter(Open(q.mode))
  {
  }

  lemma {:induction false} CommentRuns(text: string, i: nat, p: nat)
    requires i <= p <= |text| && forall k | i <= k < p :: text[k] != '\n'
    ensures Run(text, i, LineComment, p) == Place(p, LineComment)
    decreases p - i
  {
    if i < p { CommentRuns(text, i + 1, p); }
  }

  /** One turn of the loop is one step of the machine, with `p` still ahead. */
  lemma OneTurn(text: string, off: nat, line: string, idx: nat, i: nat, m: Mode)
    returns (stopped: bool, j: nat, m': Mode)
    requires IsLine(text, off, line) && i < idx <= Limit(line) && Sane(m)
    ensures stopped ==> WalkFrom(line, idx, i, RegsOf(m)) == Verdict(true, NOTHING_OPEN)
    ensures stopped ==> Run(text, off + i, m, off + idx) == Run(text, off + i + 1, LineComment, off + idx)
    ensures !stopped ==> i < j <= Limit(line) && Sane(m')
    ensures !stopped ==> WalkFrom(line, idx, i, RegsOf(m)) == WalkFrom(line, idx, j, RegsOf(m'))
    ensures !stopped ==> Run(text, off + i, m, off + idx) == Run(text, off + j, m', off + idx)
  {
    hide Step, Advance;
    AdvanceMatches(text, off, line, i, m);
    var q := Step(text, off + i, m);
    stopped, j, m' := Advance(line, i, RegsOf(m)).Stop?, q.pos - off, q.mode;
  }

  predicate Agree(w: Verdict, m: Mode) {
    w.prose == Prose(m) && w.carry == Open(m) && (Sane(m) || m == LineComment)
  }

  /** Up to any position of the line, walking the line is running the whole text. */
  lemma {:induction false} WalkMatches(text: string, off: nat, line: string, idx: nat, i: nat, m: Mode)
    requires IsLine(text, off, line) && i <= Limit(line) && Sane(m) && idx <= Limit(line)
    ensures var q := Run(text, off + i, m, off + idx);
            Agree(WalkFrom(line, idx, i, RegsOf(m)), q.mode) && q.pos <= off + Limit(line)
    decreases |line| - i
  {
    hide Step, Advance;
    if i < idx {
      var stopped, j, m' := OneTurn(text, off, line, idx, i, m);
      if stopped {
        forall k | off + i + 1 <= k < off + idx ensures text[k] != '\n' { CharAt(text, off, line, k - off); }
        CommentRuns(text, off + i + 1, off + idx);
      } else {
        WalkMatches(text, off, line, idx, j, m');
      }
    }
  }

  /** The walker's last turn on a line that ends in a newline leaves what was open before it. */
  lemma {:induction false} WalkEnd(line: string, i: nat, r: Regs)
    requires 0 < |line| && i <= |line| && line[|line| - 1] == '\n'
    ensures WalkFrom(line, |line|, i, r).carry == WalkFrom(line, |line| - 1, i, r).carry
    decreases |line| - i
  {
    if i < |line| - 1 {
      var m := Advance(line, i, r);
      if m.Go? { WalkEnd(line, m.i, m.regs); }
    }
  }

  predicate LineStart(m: Mode) {
    Sane(m) && RegsOf(m) == Enter(Open(m))
  }

  /** A whole line: the state handed on is what the text has open where the next line starts. */
  lemma LineMatches(text: string, off: nat, line: string, m: Mode)
    requires IsLine(text, off, line) && LineStart(m)
    ensures var q := Run(text, off, m, off + |line|);
            && Walk(line, |line|, Open(m)).carry == Open(q.mode)
            && q.pos == off + |line|
            && (off + |line| < |text| ==> LineStart(q.mode))
  {
    hide Step, Advance;
    WalkMatches(text, off, line, Limit(line), 0, m);
    if line[|line| - 1] == '\n' {
      WalkEnd(line, 0, RegsOf(m));
      var e := off + |line| - 1;
      RunVia(text, off, m, e, e + 1, Run(text, off, m, e));
      CharAt(text, off, line, |line| - 1);
      NewlineMatches(text, e, Run(text, off, m, e).mode);
    }
  }
}
