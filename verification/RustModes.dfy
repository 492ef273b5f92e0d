/**
 The reading of Rust source that the audit's line scanner is judged by: one mode at a time over the whole
 text, with no per-line state to carry and no flags that could contradict each other. It shares the
 scanner's guess that a char literal closes within three characters; `CodeReadings` says what that costs.
 */
module RustModes {
  import opened Wrappers
  import opened Strings

  datatype Mode =
    | Code
    | LineComment
    | Block(depth: nat)
    | Str(escaped: bool)
    | Raw(hashes: nat)
    | Chr(escaped: bool)

  /** A place in the text and the mode there. */
  datatype Place = Place(pos: nat, mode: Mode)

  predicate Prose(m: Mode) {
    m != Code
  }

  predicate IsWord(c: char) {
    'A' <= c <= 'Z' || 'a' <= c <= 'z' || '0' <= c <= '9' || c == '_'
  }

  /** Length of the maximal run of `#` ending just before `i`. */
  function HashesBefore(s: string, i: nat): (n: nat)
    requires i <= |s|
    ensures n <= i
  {
    if 0 < i && s[i - 1] == '#' then 1 + HashesBefore(s, i - 1) else 0
  }

  /** No identifier runs into position `p` from the left. */
  predicate Boundary(s: string, p: nat)
    requires p <= |s|
  {
    p == 0 || !IsWord(s[p - 1])
  }

  /** The hash count of the raw-string opener that ends just before `i`, if there is one. */
  function RawOpener(s: string, i: nat): Option<nat>
    requires i <= |s|
  {
    var h := HashesBefore(s, i);
    var e := i - h;
    if 1 <= e && s[e - 1] == 'r'
       && (Boundary(s, e - 1) || (2 <= e && s[e - 2] in "bc" && Boundary(s, e - 2)))
    then Some(h) else None
  }

  /** Where the ranges of identifier characters begin and end. */
  lemma WordEdges()
    ensures forall c | c in "AZaz09_MNmn5" :: IsWord(c)
    ensures forall c | c in "@[`{/: #\"'" :: !IsWord(c)
  {
  }

  /** `prefix` and `n` hashes stand just before `i`, with no identifier character before them. */
  predicate OpensRaw(s: string, i: nat, prefix: string, n: nat) {
    && |prefix| + n <= i <= |s| && Sits(s, i - n - |prefix|, prefix) && (forall k | i - n <= k < i :: s[k] == '#')
    && (i - n - |prefix| == 0 || !IsWord(s[i - n - |prefix| - 1]))
  }

  /** A raw-string opener is `r`, `br` or `cr` at an identifier boundary, and hashes up to the quote. */
  lemma RawOpenerIs(s: string, i: nat, n: nat)
    requires i <= |s|
    ensures RawOpener(s, i) == Some(n)
       <==> OpensRaw(s, i, "r", n) || OpensRaw(s, i, "br", n) || OpensRaw(s, i, "cr", n)
  {
    hide OpensRaw, RawOpener;
    if RawOpener(s, i) == Some(n) { OpenerOpens(s, i, n); }
    if OpensRaw(s, i, "r", n) { OpensIsOpener(s, i, n, "r"); }
    if OpensRaw(s, i, "br", n) { OpensIsOpener(s, i, n, "br"); }
    if OpensRaw(s, i, "cr", n) { OpensIsOpener(s, i, n, "cr"); }
  }

  lemma OpenerOpens(s: string, i: nat, n: nat)
    requires i <= |s| && RawOpener(s, i) == Some(n)
    ensures OpensRaw(s, i, "r", n) || OpensRaw(s, i, "br", n) || OpensRaw(s, i, "cr", n)
  {
    hide IsWord, HashesBefore;
    HashesBeforeAre(s, i);
    assert s[i - n - 1..i - n] == "r";
    if !Boundary(s, i - n - 1) { assert s[i - n - 2..i - n] == [s[i - n - 2], 'r']; }
  }

  lemma OpensIsOpener(s: string, i: nat, n: nat, prefix: string)
    requires prefix in ["r", "br", "cr"] && OpensRaw(s, i, prefix, n)
    ensures RawOpener(s, i) == Some(n)
  {
    hide IsWord, HashesBefore, Sits;
    HashesMeet(s, i, n, prefix);
  }

  lemma {:induction false} HashesBeforeAre(s: string, i: nat)
    requires i <= |s|
    ensures forall k | i - HashesBefore(s, i) <= k < i :: s[k] == '#'
    ensures HashesBefore(s, i) < i ==> s[i - HashesBefore(s, i) - 1] != '#'
  {
    if 0 < i && s[i - 1] == '#' { HashesBeforeAre(s, i - 1); }
  }

  lemma HashesMeet(s: string, i: nat, n: nat, prefix: string)
    requires OpensRaw(s, i, prefix, n) && 0 < |prefix| && prefix[|prefix| - 1] == 'r'
    ensures HashesBefore(s, i) == n && s[i - n - 1] == 'r'
    ensures 1 < |prefix| ==> s[i - n - 2] == prefix[|prefix| - 2]
  {
    HashesBeforeAre(s, i);
    SitsChar(s, i - n - |prefix|, prefix, |prefix| - 1);
    if 1 < |prefix| { SitsChar(s, i - n - |prefix|, prefix, |prefix| - 2); }
  }

  /** Whether a `'` follows within `n` characters of `j` on the same line. */
  predicate QuoteWithin(s: string, j: nat, n: nat)
    requires j <= |s|
    decreases n
  {
    0 < n && j < |s| && s[j] != '\n' && (s[j] == '\'' || QuoteWithin(s, j + 1, n - 1))
  }

  /** One move of the reference machine. */
  function Step(s: string, i: nat, m: Mode): (p: Place)
    requires i < |s|
    ensures i < p.pos <= |s|
  {
    match m
    case Block(d) =>
      if At(s, i, '/', '*') then Place(i + 2, Block(d + 1))
      else if At(s, i, '*', '/') then Place(i + 2, if d <= 1 then Code else Block(d - 1))
      else Place(i + 1, m)
    case LineComment =>
      Place(i + 1, if s[i] == '\n' then Code else LineComment)
    case Raw(n) =>
      if s[i] == '"' && HashRun(s, i + 1) == n then Place(i + 1 + n, Code) else Place(i + 1, m)
    case Str(escaped) =>
      Place(i + 1, if escaped then Str(false) else if s[i] == '\\' then Str(true)
                   else if s[i] == '"' then Code else m)
    case Chr(escaped) =>
      Place(i + 1, if s[i] == '\n' then Code
                   else if escaped then Chr(false) else if s[i] == '\\' then Chr(true)
                   else if s[i] == '\'' then Code else m)
    case Code =>
      if s[i] == '"' then
        Place(i + 1, if RawOpener(s, i).Some? then Raw(RawOpener(s, i).value) else Str(false))
      else if s[i] == '\'' && QuoteWithin(s, i + 1, 3) then Place(i + 1, Chr(false))
      else if At(s, i, '/', '/') then Place(i + 1, LineComment)
      else if At(s, i, '/', '*') then Place(i + 2, Block(1))
      else Place(i + 1, Code)
  }

  /** Runs the machine from `(i, m)` until it has passed every position before `p`. */
  function Run(s: string, i: nat, m: Mode, p: nat): (r: Place)
    requires p <= |s|
    ensures i <= r.pos && p <= r.pos
    ensures i <= |s| ==> r.pos <= |s|
    decreases p - i
  {
    if p <= i then Place(i, m)
    else var q := Step(s, i, m); Run(s, q.pos, q.mode, p)
  }

  /** The mode the whole text is in at position `p`. */
  function ModeAt(s: string, p: nat): Mode
    requires p <= |s|
  {
    Run(s, 0, Code, p).mode
  }

  /** A run that has come to `r` by position `p` goes on from `r`. */
  lemma {:induction false} RunVia(s: string, i: nat, m: Mode, p: nat, q: nat, r: Place)
    requires p <= q <= |s| && Run(s, i, m, p) == r
    ensures Run(s, i, m, q) == Run(s, r.pos, r.mode, q)
    decreases p - i
  {
    if i < p {
      var n := Step(s, i, m);
      RunVia(s, n.pos, n.mode, p, q, r);
    }
  }

  predicate InBlock(m: Mode) {
    m.Block? && 1 <= m.depth
  }

  /** A run from code is never in a comment of depth zero. */
  lemma {:induction false} DepthStaysPositive(s: string, i: nat, m: Mode, p: nat)
    requires p <= |s| && (m.Block? ==> InBlock(m))
    ensures Run(s, i, m, p).mode.Block? ==> InBlock(Run(s, i, m, p).mode)
    decreases p - i
  {
    if i < p {
      var q := Step(s, i, m);
      DepthStaysPositive(s, q.pos, q.mode, p);
    }
  }

  // ---------------------------------------------------------------------------------------------
  // Nested block comments
  // ---------------------------------------------------------------------------------------------

  /** The inside of a block comment up to and including its own closer. */
  datatype Body =
    | Close
    | Text(c: char, rest: Body)
    | Nested(inner: Body, rest: Body)

  function Render(b: Body): (r: string)
    ensures |r| >= 2
  {
    match b
    case Close => "*/"
    case Text(c, rest) => [c] + Render(rest)
    case Nested(inner, rest) => "/*" + Render(inner) + Render(rest)
  }

  /** No text character joins its right neighbour into a comment delimiter. */
  predicate Readable(b: Body) {
    match b
    case Close => true
    case Text(c, rest) =>
      Readable(rest) && !(c == '/' && Render(rest)[0] == '*') && !(c == '*' && Render(rest)[0] == '/')
    case Nested(inner, rest) => Readable(inner) && Readable(rest)
  }

  function Outside(d: nat): Mode {
    if d <= 1 then Code else Block(d - 1)
  }

  lemma BlockStep(s: string, i: nat, d: nat, p: nat)
    requires i < p <= |s| && 1 <= d
    ensures At(s, i, '/', '*') ==> Run(s, i, Block(d), p) == Run(s, i + 2, Block(d + 1), p)
    ensures At(s, i, '*', '/') ==> Run(s, i, Block(d), p) == Run(s, i + 2, Outside(d), p)
    ensures !At(s, i, '/', '*') && !At(s, i, '*', '/') ==> Run(s, i, Block(d), p) == Run(s, i + 1, Block(d), p)
  {
  }

  /** A text character is followed by more body, and reads as one plain step. */
  lemma TextSits(s: string, i: nat, c: char, rest: Body)
    requires Readable(Text(c, rest)) && Sits(s, i, Render(Text(c, rest)))
    ensures Sits(s, i + 1, Render(rest)) && !At(s, i, '/', '*') && !At(s, i, '*', '/')
  {
    SitsParts(s, i, [c], Render(rest));
    assert s[i..i + 1][0] == s[i] && s[i + 1..i + 1 + |Render(rest)|][0] == s[i + 1];
  }

  lemma NestedSits(s: string, i: nat, inner: Body, rest: Body)
    requires Sits(s, i, Render(Nested(inner, rest)))
    ensures At(s, i, '/', '*') && Sits(s, i + 2, Render(inner)) && Sits(s, i + 2 + |Render(inner)|, Render(rest))
  {
    SitsParts(s, i, "/*" + Render(inner), Render(rest));
    SitsParts(s, i, "/*", Render(inner));
    assert s[i..i + 2][0] == s[i] && s[i..i + 2][1] == s[i + 1];
  }

  /** Reading a comment body at depth `d` ends exactly at its closer, one level out. */
  lemma {:induction false} BodyCloses(s: string, i: nat, b: Body, d: nat, p: nat)
    requires Readable(b) && 1 <= d && Sits(s, i, Render(b))
    requires i + |Render(b)| - 1 <= p <= i + |Render(b)|
    ensures Run(s, i, Block(d), p) == Place(i + |Render(b)|, Outside(d))
    decreases b, 1
  {
    hide Step;
    BlockStep(s, i, d, p);
    match b
    case Close =>
      assert s[i..i + 2][0] == s[i] && s[i..i + 2][1] == s[i + 1];
    case Text(c, rest) =>
      TextSits(s, i, c, rest);
      BodyCloses(s, i + 1, rest, d, p);
    case Nested(inner, rest) =>
      NestedSits(s, i, inner, rest);
      NestedCloses(s, i + 2, inner, rest, d, p);
  }

  lemma {:induction false} NestedCloses(s: string, i: nat, inner: Body, rest: Body, d: nat, p: nat)
    requires Readable(inner) && Readable(rest) && 1 <= d
    requires Sits(s, i, Render(inner)) && Sits(s, i + |Render(inner)|, Render(rest))
    requires 0 <= i + |Render(inner)| + |Render(rest)| - p <= 1
    ensures Run(s, i, Block(d + 1), p) == Place(i + |Render(inner)| + |Render(rest)|, Outside(d))
    decreases Nested(inner, rest), 0
  {
    hide Step;
    var j := i + |Render(inner)|;
    BodyCloses(s, i, inner, d + 1, j);
    RunVia(s, i, Block(d + 1), j, p, Place(j, Block(d)));
    BodyCloses(s, j, rest, d, p);
  }

  /** Every position before the closer is still inside a comment. */
  lemma {:induction false} BodyIsProse(s: string, i: nat, b: Body, d: nat, p: nat)
    requires Readable(b) && 1 <= d && Sits(s, i, Render(b))
    requires i <= p < i + |Render(b)| - 1
    ensures InBlock(Run(s, i, Block(d), p).mode)
    decreases b, 1
  {
    hide Step;
    if i < p {
      BlockStep(s, i, d, p);
      match b
      case Close =>
      case Text(c, rest) =>
        TextSits(s, i, c, rest);
        BodyIsProse(s, i + 1, rest, d, p);
      case Nested(inner, rest) =>
        NestedSits(s, i, inner, rest);
        NestedIsProse(s, i + 2, inner, rest, d, p);
    }
  }

  /** The inside of a nested comment, its closer, and the body that goes on after it. */
  lemma {:induction false} NestedIsProse(s: string, i: nat, inner: Body, rest: Body, d: nat, p: nat)
    requires Readable(inner) && Readable(rest) && 1 <= d
    requires Sits(s, i, Render(inner)) && Sits(s, i + |Render(inner)|, Render(rest))
    requires p < i + |Render(inner)| + |Render(rest)| - 1
    ensures InBlock(Run(s, i, Block(d + 1), p).mode)
    decreases Nested(inner, rest), 0
  {
    hide Step;
    var j := i + |Render(inner)|;
    if i <= p < j - 1 {
      BodyIsProse(s, i, inner, d + 1, p);
    } else if p == j - 1 {
      BodyCloses(s, i, inner, d + 1, p);
    } else if j <= p {
      NestedResumes(s, i, inner, d, p);
      BodyIsProse(s, j, rest, d, p);
    }
  }

  lemma NestedResumes(s: string, i: nat, inner: Body, d: nat, p: nat)
    requires Readable(inner) && 1 <= d && Sits(s, i, Render(inner)) && i + |Render(inner)| <= p <= |s|
    ensures Run(s, i, Block(d + 1), p) == Run(s, i + |Render(inner)|, Block(d), p)
  {
    hide Step;
    var j := i + |Render(inner)|;
    BodyCloses(s, i, inner, d + 1, j);
    RunVia(s, i, Block(d + 1), j, p, Place(j, Block(d)));
  }

  /**
   A comment of any nesting, met in code: everything after its opening slash and before its final
   slash is prose, and the text is back in code exactly at its end.
   */
  lemma NestedCommentIsProse(s: string, i: nat, b: Body)
    requires Readable(b) && Sits(s, i, "/*" + Render(b))
    ensures var e := i + 2 + |Render(b)|;
            && Run(s, i, Code, e - 1) == Run(s, i, Code, e) == Place(e, Code)
            && forall p | i < p < e - 1 :: Prose(Run(s, i, Code, p).mode)
  {
    hide Render, Readable;
    SitsParts(s, i, "/*", Render(b));
    assert s[i..i + 2][0] == s[i] && s[i..i + 2][1] == s[i + 1];
    var e := i + 2 + |Render(b)|;
    BodyCloses(s, i + 2, b, 1, e - 1);
    BodyCloses(s, i + 2, b, 1, e);
    forall p | i < p < e - 1 ensures Prose(Run(s, i, Code, p).mode) {
      if i + 2 <= p { BodyIsProse(s, i + 2, b, 1, p); }
    }
  }

  /** The body spelled at `i` and where it ends, if one is. */
  datatype Reading = NoBody | Reading(body: Body, end: nat)

  function Parse(s: string, i: nat): (r: Reading)
    requires i <= |s|
    ensures r.Reading? ==> i < r.end <= |s|
    decreases |s| - i
  {
    if i == |s| then NoBody
    else if At(s, i, '*', '/') then Reading(Close, i + 2)
    else if At(s, i, '/', '*') then
      var inner := Parse(s, i + 2);
      if inner.NoBody? then NoBody
      else
        var rest := Parse(s, inner.end);
        if rest.NoBody? then NoBody else Reading(Nested(inner.body, rest.body), rest.end)
    else
      var rest := Parse(s, i + 1);
      if rest.NoBody? then NoBody else Reading(Text(s[i], rest.body), rest.end)
  }

  /** `b` is readable and spelled from `i` to `e`. */
  predicate ReadsTo(s: string, i: nat, b: Body, e: nat) {
    Readable(b) && Sits(s, i, Render(b)) && e == i + |Render(b)|
  }

  lemma TextReads(s: string, i: nat, rest: Body, e: nat)
    requires i < |s| && !At(s, i, '/', '*') && !At(s, i, '*', '/') && ReadsTo(s, i + 1, rest, e)
    ensures ReadsTo(s, i, Text(s[i], rest), e)
  {
    assert s[i..i + 1] == [s[i]];
    SitsJoin(s, i, [s[i]], Render(rest));
    SitsChar(s, i + 1, Render(rest), 0);
  }

  lemma NestedReads(s: string, i: nat, inner: Body, j: nat, rest: Body, e: nat)
    requires At(s, i, '/', '*') && ReadsTo(s, i + 2, inner, j) && ReadsTo(s, j, rest, e)
    ensures ReadsTo(s, i, Nested(inner, rest), e)
  {
    assert s[i..i + 2] == "/*";
    SitsJoin(s, i, "/*", Render(inner));
    SitsJoin(s, i, "/*" + Render(inner), Render(rest));
  }

  /** What is parsed is a readable body, spelled there. */
  lemma {:induction false} ParseReads(s: string, i: nat)
    requires i <= |s| && Parse(s, i).Reading?
    ensures ReadsTo(s, i, Parse(s, i).body, Parse(s, i).end)
    decreases |s| - i
  {
    if At(s, i, '/', '*') {
      var inner := Parse(s, i + 2);
      ParseReads(s, i + 2);
      ParseReads(s, inner.end);
      NestedReads(s, i, inner.body, inner.end, Parse(s, inner.end).body, Parse(s, i).end);
    } else if !At(s, i, '*', '/') {
      ParseReads(s, i + 1);
      TextReads(s, i, Parse(s, i + 1).body, Parse(s, i).end);
    }
  }

  /** Where no body is spelled, a comment never ends. */
  lemma {:induction false} NoBodyNeverCloses(s: string, i: nat, d: nat, p: nat)
    requires i <= p <= |s| && 1 <= d && Parse(s, i).NoBody?
    ensures InBlock(Run(s, i, Block(d), p).mode)
    decreases |s| - i
  {
    hide Step, Render, Readable;
    if i < p {
      BlockStep(s, i, d, p);
      if At(s, i, '/', '*') {
        var inner := Parse(s, i + 2);
        if inner.NoBody? {
          if i + 2 <= p { NoBodyNeverCloses(s, i + 2, d + 1, p); }
        } else if p < inner.end {
          InnerIsProse(s, i + 2, d, p);
        } else {
          InnerResumes(s, i + 2, d, p);
          NoBodyNeverCloses(s, inner.end, d, p);
        }
      } else {
        NoBodyNeverCloses(s, i + 1, d, p);
      }
    }
  }

  lemma InnerIsProse(s: string, i: nat, d: nat, p: nat)
    requires i <= |s| && Parse(s, i).Reading? && 1 <= d && p < Parse(s, i).end
    ensures InBlock(Run(s, i, Block(d + 1), p).mode)
  {
    hide Step, Render, Readable, Parse;
    ParseReads(s, i);
    var r := Parse(s, i);
    if i <= p < r.end - 1 {
      BodyIsProse(s, i, r.body, d + 1, p);
    } else if i <= p {
      BodyCloses(s, i, r.body, d + 1, p);
    }
  }

  lemma InnerResumes(s: string, i: nat, d: nat, p: nat)
    requires i <= |s| && Parse(s, i).Reading? && 1 <= d && Parse(s, i).end <= p <= |s|
    ensures Run(s, i, Block(d + 1), p) == Run(s, Parse(s, i).end, Block(d), p)
  {
    hide Step, Render, Readable, Parse;
    ParseReads(s, i);
    NestedResumes(s, i, Parse(s, i).body, d, p);
  }

  /**
   A comment opened at `i` ends exactly where a readable body spelled after it ends, and when none is
   spelled there the text is inside a comment from there on.
   */
  lemma CommentEndsExactly(s: string, i: nat)
    requires At(s, i, '/', '*')
    ensures var r := Parse(s, i + 2);
            r.Reading? ==> Run(s, i, Code, r.end) == Place(r.end, Code)
    ensures forall p | i < p <= |s| && (Parse(s, i + 2).Reading? ==> p < Parse(s, i + 2).end - 1) ::
              InBlock(Run(s, i, Code, p).mode)
  {
    forall p | i < p <= |s| ensures Run(s, i, Code, p) == Run(s, i + 2, Block(1), p) { }
    hide Step, Parse;
    var r := Parse(s, i + 2);
    if r.Reading? {
      ParseReads(s, i + 2);
      BodyCloses(s, i + 2, r.body, 1, r.end);
    }
    forall p | i < p <= |s| && (r.Reading? ==> p < r.end - 1) ensures InBlock(Run(s, i, Code, p).mode) {
      if i + 2 <= p {
        if r.Reading? { BodyIsProse(s, i + 2, r.body, 1, p); } else { NoBodyNeverCloses(s, i + 2, 1, p); }
      }
    }
  }

  // ---------------------------------------------------------------------------------------------
  // Raw strings
  // ---------------------------------------------------------------------------------------------

  function Hashes(n: nat): (r: string)
    ensures |r| == n && forall k | 0 <= k < n :: r[k] == '#'
  {
    seq(n, _ => '#')
  }

  function RawLiteral(prefix: string, n: nat, content: string): string {
    prefix + Hashes(n) + "\"" + content + "\"" + Hashes(n)
  }

  /** No quote in `content` is followed by a run of exactly `n` hashes. */
  predicate KeepsOpen(content: string, n: nat) {
    forall k | 0 <= k < |content| :: content[k] == '"' ==> HashRun(content, k + 1) != n
  }

  /** A hash run inside a window that ends at a quote is the window's own. */
  lemma {:induction false} HashRunWindow(s: string, a: nat, w: string, k: nat)
    requires a + |w| < |s| && s[a..a + |w|] == w && s[a + |w|] != '#' && k <= |w|
    ensures HashRun(s, a + k) == HashRun(w, k)
    decreases |w| - k
  {
    if k < |w| {
      assert s[a..a + |w|][k] == s[a + k];
      HashRunWindow(s, a, w, k + 1);
    }
  }

  /** Inside a raw string nothing but the exact closer matters. */
  lemma {:induction false} RawContentStays(s: string, a: nat, content: string, n: nat, k: nat, p: nat)
    requires a + |content| < |s| && s[a..a + |content|] == content && s[a + |content|] == '"'
    requires KeepsOpen(content, n) && k <= |content| && a + k <= p <= a + |content|
    ensures Run(s, a + k, Raw(n), p) == Place(p, Raw(n))
    decreases p - (a + k)
  {
    if a + k < p {
      assert s[a..a + |content|][k] == s[a + k];
      HashRunWindow(s, a, content, k + 1);
      RawContentStays(s, a, content, n, k + 1, p);
    }
  }

  /** Prefix letters and hashes are ordinary code on the way to the opening quote. */
  lemma {:induction false} OpenerIsCode(s: string, i: nat, q: nat)
    requires i <= q <= |s| && forall k | i <= k < q :: s[k] in "brc#"
    ensures Run(s, i, Code, q) == Place(q, Code)
    decreases q - i
  {
    if i < q { OpenerIsCode(s, i + 1, q); }
  }

  /** A raw string is spelled at `i`, where an identifier does not run into its prefix. */
  predicate RawStringAt(s: string, i: nat, prefix: string, n: nat, content: string) {
    && prefix in ["r", "br", "cr"]
    && Sits(s, i, RawLiteral(prefix, n, content))
    && Boundary(s, i)
    && KeepsOpen(content, n)
  }

  /** No further `#` follows the literal. */
  predicate NoHashAfter(s: string, i: nat, prefix: string, n: nat, content: string) {
    i + |RawLiteral(prefix, n, content)| < |s| ==> s[i + |RawLiteral(prefix, n, content)|] != '#'
  }

  /** Where each piece of a rendered raw string lies. */
  lemma RawPieces(s: string, i: nat, prefix: string, n: nat, content: string)
    requires RawStringAt(s, i, prefix, n, content)
    ensures var q := i + |prefix| + n;
            && q + 1 + |content| + 1 + n == i + |RawLiteral(prefix, n, content)| <= |s|
            && s[i..i + |prefix|] == prefix
            && (forall k | i + |prefix| <= k < q :: s[k] == '#')
            && s[q] == '"'
            && s[q + 1..q + 1 + |content|] == content
            && s[q + 1 + |content|] == '"'
            && (forall k | q + 2 + |content| <= k < q + 2 + |content| + n :: s[k] == '#')
  {
    var q := i + |prefix| + n;
    var h := Hashes(n);
    SitsParts(s, i, prefix + h + "\"" + content + "\"", h);
    SitsParts(s, i, prefix + h + "\"" + content, "\"");
    SitsParts(s, i, prefix + h + "\"", content);
    SitsParts(s, i, prefix + h, "\"");
    SitsParts(s, i, prefix, h);
    forall k | i + |prefix| <= k < q ensures s[k] == '#' {
      assert s[i + |prefix|..q][k - i - |prefix|] == s[k];
    }
    var c := q + 2 + |content|;
    forall k | c <= k < c + n ensures s[k] == '#' {
      assert s[c..c + n][k - c] == s[k];
    }
    assert s[q..q + 1][0] == s[q];
    assert s[c - 1..c][0] == s[c - 1];
  }

  lemma RawOpenerFound(s: string, i: nat, prefix: string, n: nat, content: string)
    requires RawStringAt(s, i, prefix, n, content)
    ensures var q := i + |prefix| + n; q < |s| && RawOpener(s, q) == Some(n)
  {
    RawPieces(s, i, prefix, n, content);
    OpensIsOpener(s, i + |prefix| + n, n, prefix);
  }

  lemma RawOpening(s: string, i: nat, prefix: string, n: nat, content: string, p: nat)
    requires RawStringAt(s, i, prefix, n, content) && i <= p <= i + |prefix| + n
    ensures p < |s| && Run(s, i, Code, p) == Place(p, Code)
    ensures RawOpener(s, i + |prefix| + n) == Some(n)
  {
    RawPieces(s, i, prefix, n, content);
    RawOpenerFound(s, i, prefix, n, content);
    forall k | i <= k < p ensures s[k] in "brc#" {
      if k < i + |prefix| { assert s[i..i + |prefix|][k - i] == s[k]; }
    }
    OpenerIsCode(s, i, p);
  }

  lemma QuoteOpensRaw(s: string, q: nat, n: nat, p: nat)
    requires q < p <= |s| && s[q] == '"' && RawOpener(s, q) == Some(n)
    ensures Run(s, q, Code, p) == Run(s, q + 1, Raw(n), p)
  {
  }

  lemma RawCloses(s: string, c: nat, n: nat, p: nat)
    requires c < |s| && s[c] == '"' && HashRun(s, c + 1) == n && c < p <= c + 1 + n
    ensures Run(s, c, Raw(n), p) == Place(c + 1 + n, Code)
  {
  }

  /** The machine is in the raw string from its opening quote to its closing one. */
  lemma RawInside(s: string, i: nat, prefix: string, n: nat, content: string, p: nat)
    requires RawStringAt(s, i, prefix, n, content)
    requires i + |prefix| + n < p <= i + |prefix| + n + 1 + |content|
    ensures p <= |s| && Run(s, i, Code, p) == Place(p, Raw(n))
  {
    hide Step;
    RawPieces(s, i, prefix, n, content);
    var q := i + |prefix| + n;
    RawOpening(s, i, prefix, n, content, q);
    RunVia(s, i, Code, q, p, Place(q, Code));
    QuoteOpensRaw(s, q, n, p);
    RawContentStays(s, q + 1, content, n, 0, p);
  }

  lemma RawEnds(s: string, i: nat, prefix: string, n: nat, content: string, p: nat)
    requires RawStringAt(s, i, prefix, n, content) && NoHashAfter(s, i, prefix, n, content)
    requires i + |prefix| + n + 1 + |content| < p <= i + |RawLiteral(prefix, n, content)|
    ensures Run(s, i, Code, p) == Place(i + |RawLiteral(prefix, n, content)|, Code)
  {
    hide Step;
    RawPieces(s, i, prefix, n, content);
    var c := i + |prefix| + n + 1 + |content|;
    RawInside(s, i, prefix, n, content, c);
    HashRunIs(s, c + 1, n);
    RunVia(s, i, Code, c, p, Place(c, Raw(n)));
    RawCloses(s, c, n, p);
  }

  /**
   A raw string of any hash count, met in code at an identifier boundary: everything after its opening
   quote is prose whatever quotes and backslashes it holds, and code resumes right after its closer.
   */
  lemma RawStringIsProse(s: string, i: nat, prefix: string, n: nat, content: string)
    requires RawStringAt(s, i, prefix, n, content) && NoHashAfter(s, i, prefix, n, content)
    ensures var e := i + |RawLiteral(prefix, n, content)|;
            var q := i + |prefix| + n;
            && q + 1 + |content| < e <= |s|
            && (forall p | i <= p <= q :: Run(s, i, Code, p) == Place(p, Code))
            && (forall p | q < p <= q + 1 + |content| :: Run(s, i, Code, p) == Place(p, Raw(n)))
            && (forall p | q + 1 + |content| < p <= e :: Run(s, i, Code, p) == Place(e, Code))
  {
    hide Step;
    RawPieces(s, i, prefix, n, content);
    var q := i + |prefix| + n;
    forall p | i <= p <= q ensures Run(s, i, Code, p) == Place(p, Code) {
      RawOpening(s, i, prefix, n, content, p);
    }
    forall p | q < p <= q + 1 + |content| ensures Run(s, i, Code, p) == Place(p, Raw(n)) {
      RawInside(s, i, prefix, n, content, p);
    }
    var e := i + |RawLiteral(prefix, n, content)|;
    forall p | q + 1 + |content| < p <= e ensures Run(s, i, Code, p) == Place(e, Code) {
      RawEnds(s, i, prefix, n, content, p);
    }
  }

  /** A longer run of hashes than the closer's is never read as a closer. */
  lemma {:induction false} HashRunExceeds(s: string, i: nat, n: nat)
    requires i + n < |s| && forall k | i <= k <= i + n :: s[k] == '#'
    ensures HashRun(s, i) > n
    decreases n
  {
    if 0 < n { HashRunExceeds(s, i + 1, n - 1); }
  }

  lemma {:induction false} HashesStayRaw(s: string, i: nat, n: nat, p: nat)
    requires i <= p <= |s| && forall k | i <= k < p :: s[k] == '#'
    ensures Run(s, i, Raw(n), p) == Place(p, Raw(n))
    decreases p - i
  {
    if i < p { HashesStayRaw(s, i + 1, n, p); }
  }

  lemma NoCloserSteps(s: string, c: nat, n: nat, p: nat)
    requires c < p <= |s| && HashRun(s, c + 1) != n
    ensures Run(s, c, Raw(n), p) == Run(s, c + 1, Raw(n), p)
  {
  }

  /**
   The condition on what follows is exact: with one more `#` after it, the literal is not closed at its
   closer, and the machine is still in the raw string where the literal ends.
   */
  lemma ExtraHashKeepsOpen(s: string, i: nat, prefix: string, n: nat, content: string)
    requires RawStringAt(s, i, prefix, n, content) && !NoHashAfter(s, i, prefix, n, content)
    ensures var e := i + |RawLiteral(prefix, n, content)|; Run(s, i, Code, e) == Place(e, Raw(n))
  {
    hide RawLiteral, KeepsOpen, RawOpener, Step;
    RawPieces(s, i, prefix, n, content);
    var c := i + |prefix| + n + 1 + |content|;
    var e := c + 1 + n;
    RawInside(s, i, prefix, n, content, c);
    RunVia(s, i, Code, c, e, Place(c, Raw(n)));
    HashRunExceeds(s, c + 1, n);
    NoCloserSteps(s, c, n, e);
    HashesStayRaw(s, c + 1, n, e);
  }
}
