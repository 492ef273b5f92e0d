/**
 Two readings of Rust text compared: the one-mode machine the unsafe audit agrees with, and the tokens of
 `mask_source`. When both call the same characters code, and what a char literal costs each of them.
 */
module CodeReadings {
  import opened Wrappers
  import opened Strings
  import opened RustModes
  import opened MaskTokens
  import opened MaskSource
  import AuditUnsafe
  import IncludeStr

  /** The machine, in code at `i`, reads the character at `k` as code. */
  predicate Reads(s: string, i: nat, k: nat) {
    k < |s| && Run(s, i, Code, k) == Place(k, Code) && Step(s, k, Code) == Place(k + 1, Code)
  }

  // ---------------------------------------------------------------------------------------------
  // Strings
  // ---------------------------------------------------------------------------------------------

  /** One item of a string body leaves the machine in the string. */
  lemma ItemStays(s: string, i: nat, it: Item, p: nat)
    requires Sits(s, i, SpellItem(it)) && PlainItem(it) && i < p <= |s|
    ensures p <= i + |SpellItem(it)| ==> Run(s, i, Str(false), p).mode.Str?
    ensures i + |SpellItem(it)| <= p ==>
              Run(s, i, Str(false), p) == Run(s, i + |SpellItem(it)|, Str(false), p)
  {
    SitsChar(s, i, SpellItem(it), 0);
    if it.Esc? {
      assert Step(s, i, Str(false)) == Place(i + 1, Str(true));
      if i + 1 < p { assert Run(s, i + 1, Str(true), p) == Run(s, i + 2, Str(false), p); }
    }
  }

  /** Between its quotes a string is prose, whatever it escapes. */
  lemma {:induction false} ItemsStay(s: string, i: nat, items: seq<Item>, p: nat)
    requires Sits(s, i, SpellItems(items)) && (forall k | 0 <= k < |items| :: PlainItem(items[k]))
    requires i <= p <= i + |SpellItems(items)|
    ensures Run(s, i, Str(false), p).mode.Str?
    ensures p == i + |SpellItems(items)| ==> Run(s, i, Str(false), p) == Place(p, Str(false))
    decreases |items|
  {
    hide Step, SpellItem, PlainItem;
    if i < p {
      var it := items[0];
      SitsParts(s, i, SpellItem(it), SpellItems(items[1..]));
      ItemStays(s, i, it, p);
      if i + |SpellItem(it)| <= p { ItemsStay(s, i + |SpellItem(it)|, items[1..], p); }
    }
  }

  lemma QuoteOpens(s: string, i: nat, p: nat)
    requires i < p <= |s| && s[i] == '"' && RawOpener(s, i).None?
    ensures Run(s, i, Code, p) == Run(s, i + 1, Str(false), p) && Step(s, i, Code).mode == Str(false)
  {
  }

  /**
   A string met in code that no raw-string opener precedes: prose from its opening quote to its closing
   one, whatever it escapes, and code right after it; without a closing quote, prose to the end.
   */
  lemma StringIsProse(s: string, i: nat, items: seq<Item>, end: Ending, p: nat)
    requires Stands(StrLit(items, end), s, i) && RawOpener(s, i).None?
    requires i < p <= i + |Spell(StrLit(items, end))|
    ensures p < i + |Spell(StrLit(items, end))| || end != Closed ==> Prose(Run(s, i, Code, p).mode)
    ensures p == i + |Spell(StrLit(items, end))| && end == Closed ==> Run(s, i, Code, p) == Place(p, Code)
  {
    hide Step, SpellItems, Stands, Spell, RawOpener;
    StringPieces(s, i, items, end);
    QuoteOpens(s, i, p);
    var f := i + 1 + |SpellItems(items)|;
    if p <= f {
      ItemsStay(s, i + 1, items, p);
    } else {
      ItemsStay(s, i + 1, items, f);
      RunVia(s, i + 1, Str(false), f, p, Place(f, Str(false)));
      StringEnds(s, f);
    }
  }

  lemma StringPieces(s: string, i: nat, items: seq<Item>, end: Ending)
    requires Stands(StrLit(items, end), s, i)
    ensures var f := i + 1 + |SpellItems(items)|;
            && s[i] == '"' && Sits(s, i + 1, SpellItems(items)) && Ends(s, f, end)
            && i + |Spell(StrLit(items, end))| == (if end == Unclosed then f else f + 1) <= |s|
    ensures forall k | 0 <= k < |items| :: PlainItem(items[k])
  {
    hide SpellItems, PlainItem, Sits, Ends, SpellEnd;
    Opened(s, i, "\"", SpellItems(items), SpellEnd(end));
    SitsChar(s, i, "\"", 0);
    EndSits(s, i + 1 + |SpellItems(items)|, end);
    EndWidth(s, i + 1 + |SpellItems(items)|, end);
  }

  lemma EndWidth(s: string, f: nat, end: Ending)
    requires Ends(s, f, end)
    ensures |SpellEnd(end)| == (if end == Unclosed then 0 else 1) && f + |SpellEnd(end)| <= |s|
  {
  }

  lemma StringEnds(s: string, f: nat)
    requires f < |s|
    ensures s[f] == '"' ==> Run(s, f, Str(false), f + 1) == Place(f + 1, Code)
    ensures s[f] == '\\' ==> Run(s, f, Str(false), f + 1) == Place(f + 1, Str(true))
  {
  }

  // ---------------------------------------------------------------------------------------------
  // Char literals
  // ---------------------------------------------------------------------------------------------

  /** What may stand between the quotes of a char literal: one character, or a backslash and an escape. */
  predicate CharContent(content: string) {
    || (|content| == 1 && content[0] !in "'\\\n")
    || (1 < |content| && content[0] == '\\' && CharEscape(content[1..]) && content[1] != '\n')
  }

  lemma CharPieces(s: string, i: nat, content: string)
    requires CharContent(content) && Sits(s, i, "'" + (content + "'"))
    ensures var e := i + 2 + |content|;
            && e <= |s| && s[i] == '\'' && s[e - 1] == '\''
            && (forall k | 0 <= k < |content| :: s[i + 1 + k] == content[k])
            && (|content| > 2 ==> forall k | 0 <= k < |content| :: content[k] !in "'\"/\n")
  {
    Opened(s, i, "'", content, "'");
    SitsChar(s, i, "'", 0);
    SitsChar(s, i + 1 + |content|, "'", 0);
    forall k | 0 <= k < |content| ensures s[i + 1 + k] == content[k] { SitsChar(s, i + 1, content, k); }
    if |content| > 2 {
      forall k | 0 <= k < |content| ensures content[k] !in "'\"/\n" {
        if 0 < k { assert content[k] == content[1..][k - 1]; }
      }
    }
  }

  /** Characters that open nothing leave the machine in code. */
  lemma {:induction false} PlainRuns(s: string, i: nat, p: nat)
    requires i <= p <= |s| && forall k | i <= k < p :: s[k] !in "'\"/"
    ensures Run(s, i, Code, p) == Place(p, Code)
    decreases p - i
  {
    if i < p { PlainRuns(s, i + 1, p); }
  }

  lemma ShortLiteral(s: string, i: nat, content: string, p: nat)
    requires CharContent(content) && Sits(s, i, "'" + (content + "'")) && |content| <= 2
    requires i < p <= i + 2 + |content|
    ensures p < i + 2 + |content| ==> Run(s, i, Code, p).mode.Chr?
    ensures p == i + 2 + |content| ==> Run(s, i, Code, p) == Place(p, Code)
  {
    CharPieces(s, i, content);
    assert s[i + 1] == content[0];
    if |content| == 1 {
      BareSteps(s, i, p);
    } else {
      assert s[i + 2] == content[1] == content[1..][0];
      EscapedSteps(s, i, p);
    }
  }

  lemma BareSteps(s: string, i: nat, p: nat)
    requires i + 3 <= |s| && s[i] == '\'' && s[i + 1] !in "'\\\n" && s[i + 2] == '\'' && i < p <= i + 3
    ensures p < i + 3 ==> Run(s, i, Code, p) == Place(p, Chr(false))
    ensures p == i + 3 ==> Run(s, i, Code, p) == Place(p, Code)
  {
    assert QuoteWithin(s, i + 1, 3) by { assert QuoteWithin(s, i + 2, 2); }
    assert Step(s, i, Code) == Place(i + 1, Chr(false));
    if i + 1 < p { assert Run(s, i + 1, Chr(false), p) == Run(s, i + 2, Chr(false), p); }
  }

  lemma EscapedSteps(s: string, i: nat, p: nat)
    requires i + 4 <= |s| && s[i] == '\'' && s[i + 1] == '\\' && s[i + 2] != '\n' && s[i + 3] == '\'' && i < p <= i + 4
    ensures p < i + 4 ==> Run(s, i, Code, p).mode.Chr?
    ensures p == i + 4 ==> Run(s, i, Code, p) == Place(p, Code)
  {
    assert QuoteWithin(s, i + 1, 3) by { assert QuoteWithin(s, i + 3, 1) && QuoteWithin(s, i + 2, 2); }
    assert Step(s, i, Code) == Place(i + 1, Chr(false));
    if i + 1 < p { assert Run(s, i + 1, Chr(false), p) == Run(s, i + 2, Chr(true), p); }
    if i + 2 < p { assert Run(s, i + 2, Chr(true), p) == Run(s, i + 3, Chr(false), p); }
    if i + 3 < p { assert Run(s, i + 3, Chr(false), p) == Run(s, i + 4, Code, p); }
  }

  lemma LongLiteral(s: string, i: nat, content: string, p: nat)
    requires CharContent(content) && Sits(s, i, "'" + (content + "'")) && |content| > 2
    requires i <= p <= i + 2 + |content|
    ensures p < i + 2 + |content| ==> Run(s, i, Code, p) == Place(p, Code)
    ensures p == i + 2 + |content| ==> Run(s, i, Code, p) == Place(p, if QuoteWithin(s, p, 3) then Chr(false) else Code)
  {
    CharPieces(s, i, content);
    var e := i + 2 + |content|;
    assert !QuoteWithin(s, i + 1, 3) by {
      assert s[i + 1] == content[0] && s[i + 2] == content[1] && s[i + 3] == content[2];
      assert !QuoteWithin(s, i + 4, 0);
    }
    hide CharContent, Sits, QuoteWithin;
    if i < p {
      var q := if p < e then p else e - 1;
      forall k | i + 1 <= k < q ensures s[k] !in "'\"/" { assert s[k] == content[k - i - 1]; }
      PlainRuns(s, i + 1, q);
      assert Run(s, i, Code, q) == Place(q, Code);
      RunVia(s, i, Code, q, p, Place(q, Code));
    }
  }

  /**
   A char literal met in code is prose between its quotes, and code resumes right after it, exactly when
   its closing quote is within three characters of the opening one. A longer one is read as code, and its
   closing quote opens a char literal when another quote follows within three characters.
   */
  lemma CharLiteralRead(s: string, i: nat, content: string)
    requires CharContent(content) && Sits(s, i, "'" + (content + "'"))
    ensures var e := i + 2 + |content|;
            && e <= |s|
            && ((forall p | i < p < e :: Prose(Run(s, i, Code, p).mode)) && Run(s, i, Code, e) == Place(e, Code)
                <==> |content| <= 2)
            && (|content| > 2 ==>
                  && (forall p | i <= p < e :: Run(s, i, Code, p) == Place(p, Code))
                  && Run(s, i, Code, e) == Place(e, if QuoteWithin(s, e, 3) then Chr(false) else Code))
  {
    hide Run, CharContent, QuoteWithin;
    CharPieces(s, i, content);
    var e := i + 2 + |content|;
    if |content| <= 2 {
      forall p | i < p <= e ensures p < e ==> Prose(Run(s, i, Code, p).mode) { ShortLiteral(s, i, content, p); }
      ShortLiteral(s, i, content, e);
    } else {
      forall p | i <= p < e ensures Run(s, i, Code, p) == Place(p, Code) { LongLiteral(s, i, content, p); }
      LongLiteral(s, i, content, e);
      assert !Prose(Run(s, i, Code, i + 1).mode);
    }
  }

  /**
   What a longer literal costs: with a character and the char literal of a double quote after it, its
   closing quote pairs with the next one and the double quote opens a string, which hides everything up to
   the next double quote, as in `'\x41','"'unsafe`.
   */
  lemma LongLiteralHidesCode(s: string, i: nat, content: string, c: char, p: nat)
    requires CharContent(content) && |content| > 2 && Sits(s, i, "'" + (content + "'"))
    requires c !in "'\\\n" && Sits(s, i + 2 + |content|, [c, '\'', '"'])
    requires i + 5 + |content| <= p <= |s| && forall k | i + 5 + |content| <= k < p :: s[k] != '"'
    ensures Prose(Run(s, i, Code, p).mode)
  {
    hide CharContent, Sits, Step, Run, RawOpener;
    var e := i + 2 + |content|;
    SitsChar(s, e, [c, '\'', '"'], 0);
    SitsChar(s, e, [c, '\'', '"'], 1);
    SitsChar(s, e, [c, '\'', '"'], 2);
    assert QuoteWithin(s, e, 3) by { assert QuoteWithin(s, e + 1, 2); }
    LongLiteral(s, i, content, e);
    PhantomOpens(s, e);
    RunVia(s, i, Code, e, p, Place(e, Chr(false)));
    RunVia(s, e, Chr(false), e + 3, p, Place(e + 3, Str(false)));
    OpenStringStays(s, e + 3, false, p);
  }

  lemma PhantomOpens(s: string, e: nat)
    requires e + 3 <= |s| && s[e] !in "'\\\n" && s[e + 1] == '\'' && s[e + 2] == '"'
    ensures Run(s, e, Chr(false), e + 3) == Place(e + 3, Str(false))
  {
    assert Step(s, e, Chr(false)) == Place(e + 1, Chr(false));
    assert Step(s, e + 1, Chr(false)) == Place(e + 2, Code);
    assert RawOpener(s, e + 2).None?;
    assert Step(s, e + 2, Code) == Place(e + 3, Str(false));
    assert Run(s, e + 2, Code, e + 3) == Place(e + 3, Str(false));
  }

  lemma {:induction false} OpenStringStays(s: string, i: nat, escaped: bool, p: nat)
    requires i <= p <= |s| && forall k | i <= k < p :: s[k] != '"'
    ensures Run(s, i, Str(escaped), p).mode.Str?
    decreases p - i
  {
    if i < p { OpenStringStays(s, i + 1, Step(s, i, Str(escaped)).mode.escaped, p); }
  }

  // ---------------------------------------------------------------------------------------------
  // Token by token
  // ---------------------------------------------------------------------------------------------

  /** No comment opens inside the comment that `BlockNote` reads, counting its closer. */
  predicate Unnested(body: string, closed: bool) {
    NoOpenerBefore(body + if closed then "*/" else "", |body|)
  }

  predicate NoOpenerBefore(s: string, n: nat) {
    forall k | 0 <= k < n :: !At(s, k, '/', '*')
  }

  /**
   A token the machine reads as the masker does: comments not nested, raw strings at an identifier boundary
   and closed by no longer run of hashes, char literals of one character or escaped character, and no
   lifetime with a quote within three characters.
   */
  predicate Alike(t: Token, s: string, i: nat) {
    match t
    case CodeChar(c) => i < |s| && (c == '\'' ==> !QuoteWithin(s, i + 1, 3))
    case LineNote(_) => true
    case BlockNote(body, closed) => closed ==> Unnested(body, closed)
    case RawText(n, body, closed) =>
      && i + 2 + n + |body| <= |s|
      && RawOpener(s, i + 1 + n) == Some(n)
      && (closed ==> i + 3 + n + |body| <= |s| && HashRun(s, i + 3 + n + |body|) == n)
    case CharLit(c) => c != '\'' && c != '\n'
    case CharEsc(body) => |body| == 1 && body[0] != '\n'
    case StrLit(_, _) => true
  }

  /** Every token from `i` on is read alike. */
  predicate AllAlike(s: string, i: nat)
    decreases |s| - i
  {
    i < |s| ==> Alike(First(s, i), s, i) && AllAlike(s, i + |Spell(First(s, i))|)
  }

  predicate Ended(t: Token) {
    match t
    case BlockNote(_, closed) => closed
    case RawText(_, _, closed) => closed
    case StrLit(_, end) => end == Closed
    case _ => true
  }

  /** Where the part of a token starts that the machine does not read as code. */
  function HiddenFrom(t: Token, i: nat): nat {
    if t.RawText? then i + 1 + t.hashes else i
  }

  /** Up to `p` in a token that is no code: past its head nothing is code, and its end is back in code. */
  predicate Crossed(t: Token, s: string, i: nat, p: nat) {
    var e := i + |Spell(t)|;
    && p <= |s|
    && if p < e then HiddenFrom(t, i) < p ==> Run(s, i, Code, p) != Place(p, Code)
       else if Ended(t) then Run(s, i, Code, p) == Place(p, if t.LineNote? then LineComment else Code)
       else Run(s, i, Code, p) != Place(p, Code)
  }

  lemma LineRuns(s: string, i: nat, p: nat)
    requires At(s, i, '/', '/') && i < p <= Find(s, "\n", i + 2)
    ensures Run(s, i, Code, p) == Place(p, LineComment)
  {
    FindChar(s, '\n', i + 2);
    AuditUnsafe.CommentRuns(s, i + 1, p);
  }

  lemma {:induction false} CommentStays(s: string, j: nat, d: nat, p: nat)
    requires j <= p <= |s| && 1 <= d && forall k | j <= k < p :: !At(s, k, '*', '/')
    ensures Run(s, j, Block(d), p).mode.Block?
    ensures (forall k | j <= k < p :: !At(s, k, '/', '*')) ==> Run(s, j, Block(d), p) == Place(p, Block(d))
    decreases p - j
  {
    if j < p {
      var q := Step(s, j, Block(d));
      if q.pos <= p { CommentStays(s, q.pos, q.mode.depth, p); }
    }
  }

  lemma BlockRuns(s: string, i: nat, p: nat)
    requires At(s, i, '/', '*') && i < p <= |s|
    ensures var f := Find(s, "*/", i + 2);
            && (p <= f ==> Run(s, i, Code, p).mode.Block?)
            && (f < p <= f + 2 && (forall k | i + 2 <= k < f :: !At(s, k, '/', '*')) ==>
                  Run(s, i, Code, p) == Place(f + 2, Code))
  {
    var f := Find(s, "*/", i + 2);
    forall k | i + 2 <= k < f ensures !At(s, k, '*', '/') {
      assert !Sits(s, k, "*/");
      SitsIsAt(s, k, "*/");
    }
    assert Step(s, i, Code) == Place(i + 2, Block(1));
    hide Step, Find, Sits;
    if i + 2 <= p <= f {
      CommentStays(s, i + 2, 1, p);
    } else if f < p <= f + 2 && forall k | i + 2 <= k < f :: !At(s, k, '/', '*') {
      CommentStays(s, i + 2, 1, f);
      RunVia(s, i + 2, Block(1), f, p, Place(f, Block(1)));
      SitsIsAt(s, f, "*/");
      BlockStep(s, f, 1, p);
    }
  }

  lemma UnnestedIs(s: string, a: nat, f: nat, closed: bool)
    requires a <= f <= |s| && Unnested(s[a..f], closed) && if closed then Sits(s, f, "*/") else f == |s|
    ensures forall k | a <= k < f :: !At(s, k, '/', '*')
  {
    var whole := s[a..f] + if closed then "*/" else "";
    if closed { SitsIsAt(s, f, "*/"); }
    forall k | a <= k < f ensures !At(s, k, '/', '*') {
      assert !At(whole, k - a, '/', '*');
      assert whole[k - a] == s[k];
      if k + 1 < |s| { assert whole[k + 1 - a] == s[k + 1]; }
    }
  }

  lemma SitsIsAt(s: string, k: nat, r: string)
    requires |r| == 2
    ensures Sits(s, k, r) <==> At(s, k, r[0], r[1])
  {
    if k + 2 <= |s| { assert s[k..k + 2] == [s[k], s[k + 1]] && r == [r[0], r[1]]; }
  }

  /** A raw string stays open until a quote with exactly its hashes. */
  lemma {:induction false} RawStays(s: string, j: nat, n: nat, p: nat)
    requires j <= p <= |s| && forall k | j <= k < p :: !Sits(s, k, Closer(n))
    ensures Run(s, j, Raw(n), p) == Place(p, Raw(n))
    decreases p - j
  {
    if j < p {
      if s[j] == '"' && HashRun(s, j + 1) == n { CloserSits(s, j, n); }
      RawStays(s, j + 1, n, p);
    }
  }

  lemma CloserSits(s: string, j: nat, n: nat)
    requires j < |s| && s[j] == '"' && HashRun(s, j + 1) == n
    ensures Sits(s, j, Closer(n))
  {
    HashRunChars(s, j + 1);
    assert s[j..j + 1 + n] == Closer(n);
  }

  lemma RawRuns(s: string, i: nat, n: nat, f: nat, p: nat)
    requires i + 1 + n < f <= |s| && i < p <= |s| && s[i] == 'r' && s[i + 1 + n] == '"'
    requires (forall k | i < k < i + 1 + n :: s[k] == '#') && RawOpener(s, i + 1 + n) == Some(n)
    requires forall k | i + 2 + n <= k < f :: !Sits(s, k, Closer(n))
    ensures p <= i + 1 + n ==> Run(s, i, Code, p) == Place(p, Code)
    ensures i + 1 + n < p <= f ==> Run(s, i, Code, p) == Place(p, Raw(n))
    ensures f < p <= f + 1 + n && Sits(s, f, Closer(n)) && HashRun(s, f + 1) == n ==>
              Run(s, i, Code, p) == Place(f + 1 + n, Code)
  {
    hide Step, RawOpener, Closer, Sits, HashRun;
    var q := i + 1 + n;
    OpenerIsCode(s, i, if p < q then p else q);
    if q < p {
      RunVia(s, i, Code, q, p, Place(q, Code));
      QuoteOpensRaw(s, q, n, p);
      RawStays(s, q + 1, n, if p < f then p else f);
      if f < p <= f + 1 + n && Sits(s, f, Closer(n)) && HashRun(s, f + 1) == n {
        RunVia(s, q + 1, Raw(n), f, p, Place(f, Raw(n)));
        SitsChar(s, f, Closer(n), 0);
        RawCloses(s, f, n, p);
      }
    }
  }

  // ---------------------------------------------------------------------------------------------
  // Tokens crossed
  // ---------------------------------------------------------------------------------------------

  lemma LineCrossed(s: string, i: nat, p: nat)
    requires At(s, i, '/', '/') && i < p <= i + |Spell(First(s, i))|
    ensures Crossed(First(s, i), s, i, p)
  {
    hide Find, Run;
    LineRuns(s, i, p);
  }

  lemma BlockCrossed(s: string, i: nat, p: nat)
    requires At(s, i, '/', '*') && Alike(First(s, i), s, i) && i < p <= i + |Spell(First(s, i))|
    ensures Crossed(First(s, i), s, i, p)
  {
    hide Run, Unnested, Sits, Find;
    var f := Find(s, "*/", i + 2);
    if f < |s| { UnnestedIs(s, i + 2, f, true); }
    BlockFits(s, f);
    BlockRuns(s, i, p);
  }

  lemma BlockFits(s: string, f: nat)
    ensures Sits(s, f, "*/") ==> f + 2 <= |s|
  {
  }

  lemma RawCrossed(s: string, i: nat, p: nat)
    requires i < |s| && RawHead(s, i) && Alike(First(s, i), s, i) && i < p <= i + |Spell(First(s, i))|
    ensures Crossed(First(s, i), s, i, p)
  {
    hide Run, Sits, Find, RawOpener, Closer, First, Spell, HashRun;
    var n := HashRun(s, i + 1);
    var f := Find(s, Closer(n), i + 2 + n);
    HashRunChars(s, i + 1);
    RawShape(s, i);
    RawRuns(s, i, n, f, p);
  }

  lemma RawShape(s: string, i: nat)
    requires i < |s| && RawHead(s, i)
    ensures var n := HashRun(s, i + 1); var f := Find(s, Closer(n), i + 2 + n);
            && First(s, i) == RawText(n, s[i + 2 + n..f], f < |s|)
            && i + |Spell(First(s, i))| == (if f < |s| then f + 1 + n else f) <= |s|
  {
    hide Find, Sits;
    FirstRaw(s, i);
    var n := HashRun(s, i + 1);
    var f := Find(s, Closer(n), i + 2 + n);
    if f < |s| { RawFits(s, f, n); }
  }

  lemma RawFits(s: string, f: nat, n: nat)
    requires Sits(s, f, Closer(n))
    ensures f + 1 + n <= |s|
  {
  }

  lemma CharCrossed(s: string, i: nat, p: nat)
    requires i < |s| && (EscHead(s, i) || CharHead(s, i)) && Alike(First(s, i), s, i)
    requires i < p <= i + |Spell(First(s, i))|
    ensures Crossed(First(s, i), s, i, p)
  {
    hide Run, Find;
    if EscHead(s, i) {
      FindChar(s, '\'', i + 2);
      EscapedSteps(s, i, p);
    } else {
      BareSteps(s, i, p);
    }
  }

  lemma StringCrossed(s: string, i: nat, p: nat)
    requires i < |s| && s[i] == '"' && RawOpener(s, i).None? && i < p <= i + |Spell(First(s, i))|
    ensures Crossed(First(s, i), s, i, p)
  {
    hide Run, StringTail, RawOpener, Stands, Spell;
    FirstStr(s, i);
    StrStands(s, i);
    StandsFits(First(s, i), s, i);
    var t := First(s, i);
    StringIsProse(s, i, t.items, t.end, p);
  }

  lemma TokenCrossed(s: string, i: nat, p: nat)
    requires i < |s| && !First(s, i).CodeChar? && Alike(First(s, i), s, i) && i < p <= i + |Spell(First(s, i))|
    requires s[i] == '"' ==> RawOpener(s, i).None?
    ensures Crossed(First(s, i), s, i, p)
  {
    hide Crossed, Alike, Spell, RawHead, EscHead, CharHead, RawOpener;
    if At(s, i, '/', '/') {
      LineCrossed(s, i, p);
    } else if At(s, i, '/', '*') {
      BlockCrossed(s, i, p);
    } else if RawHead(s, i) {
      RawCrossed(s, i, p);
    } else if EscHead(s, i) || CharHead(s, i) {
      CharCrossed(s, i, p);
    } else {
      StringCrossed(s, i, p);
    }
  }

  // ---------------------------------------------------------------------------------------------
  // A string token is never taken for a raw string
  // ---------------------------------------------------------------------------------------------

  lemma {:induction false} ReachesNext(s: string, j: nat, i: nat)
    requires Reaches(s, j, i) && i < |s|
    ensures Reaches(s, j, i + |Spell(First(s, i))|)
    decreases |s| - j
  {
    hide First, Spell;
    if j != i { ReachesNext(s, j + |Spell(First(s, j))|, i); }
  }

  /** A raw-string opener from `r` to the quote at `i`. */
  predicate OpenerFrom(s: string, r: nat, i: nat) {
    r < i < |s| && s[r] == 'r' && s[i] == '"' && forall k | r < k < i :: s[k] == '#'
  }

  /** How a token that is no code ends: not in what could open a raw string. */
  lemma TokenEnds(t: Token, s: string, j: nat)
    requires Stands(t, s, j) && !t.CodeChar? && !t.RawText? && j + |Spell(t)| < |s|
    ensures var e := j + |Spell(t)|; s[e] == '\n' || s[e - 1] in "/'\""
  {
    hide SpellItems;
    var r := Spell(t);
    hide Sits;
    SitsChar(s, j, r, |r| - 1);
  }

  lemma RawEndsInHashes(n: nat, body: string, s: string, j: nat)
    requires Stands(RawText(n, body, true), s, j)
    ensures var e := j + |Spell(RawText(n, body, true))|;
            e <= |s| && n < e && s[e - 1 - n] == '"' && forall k | e - 1 - n < k < e :: s[k] == '#'
  {
    var e := j + |Spell(RawText(n, body, true))|;
    Opened(s, j, Opener(n), body, Closer(n));
    hide Stands, Sits, Opener;
    SitsChar(s, e - 1 - n, Closer(n), 0);
    forall k | e - 1 - n < k < e ensures s[k] == '#' { SitsChar(s, e - 1 - n, Closer(n), k - (e - 1 - n)); }
  }

  lemma NotInToken(t: Token, s: string, j: nat, r: nat, i: nat)
    requires Stands(t, s, j) && OpenerFrom(s, r, i) && j + |Spell(t)| <= i
    ensures r < j || j + |Spell(t)| <= r
  {
    hide Spell, Stands;
    var e := j + |Spell(t)|;
    if j <= r < e {
      match t
      case CodeChar(c) => CodeIsNoHead(s, j, c, i);
      case RawText(n, body, closed) =>
        ClosedHere(t, s, j);
        RawEndsInHashes(n, body, s, j);
      case _ => TokenEnds(t, s, j);
    }
  }

  lemma ClosedHere(t: Token, s: string, j: nat)
    requires Stands(t, s, j) && j + |Spell(t)| < |s|
    ensures Ended(t)
  {
    hide SpellItems, Opener, Closer;
  }

  lemma CodeIsNoHead(s: string, j: nat, c: char, i: nat)
    requires Stands(CodeChar(c), s, j)
    ensures |Spell(CodeChar(c))| == 1 && !OpenerFrom(s, j, i)
  {
    if OpenerFrom(s, j, i) { HashRunIs(s, j + 1, i - j - 1); }
  }

  lemma {:induction false} NoOpenerReached(s: string, j: nat, r: nat, i: nat)
    requires j <= r && Reaches(s, j, i)
    ensures !OpenerFrom(s, r, i)
    decreases |s| - j
  {
    hide First, Spell, Stands, MaskFrom;
    if OpenerFrom(s, r, i) {
      var t := First(s, j);
      FirstStands(s, j);
      StandsFits(t, s, j);
      MaskReaches(s, j + |Spell(t)|, i);
      NotInToken(t, s, j, r, i);
      NoOpenerReached(s, j + |Spell(t)|, r, i);
    }
  }

  /** Where the masker reads a string, no raw-string opener ends. */
  lemma StringIsNotRaw(s: string, i: nat)
    requires Reaches(s, 0, i) && i < |s| && s[i] == '"'
    ensures RawOpener(s, i).None?
  {
    hide Reaches;
    var h := HashesBefore(s, i);
    HashesBeforeAre(s, i);
    if RawOpener(s, i).Some? {
      assert OpenerFrom(s, i - h - 1, i);
      NoOpenerReached(s, 0, i - h - 1, i);
    }
  }

  // ---------------------------------------------------------------------------------------------
  // Whole texts
  // ---------------------------------------------------------------------------------------------

  /** A character the machine reads as code while the masker blanks it: the opener of a raw string. */
  predicate InRawHead(s: string, k: nat)
    requires k < |s|
  {
    s[k] == '#' || RawHead(s, k)
  }

  lemma CodeCharReads(s: string, i: nat)
    requires i < |s| && First(s, i).CodeChar? && Alike(First(s, i), s, i)
    ensures Step(s, i, Code) == Place(i + 1, Code) && |Spell(First(s, i))| == 1
  {
  }

  /** Within a token that is no code, only the opener of a raw string is read as code. */
  lemma TokenHides(s: string, i: nat, k: nat)
    requires Reaches(s, 0, i) && i < |s| && !First(s, i).CodeChar? && Alike(First(s, i), s, i)
    requires i <= k < i + |Spell(First(s, i))| && k < |s| && Reads(s, i, k)
    ensures InRawHead(s, k)
  {
    hide First, Spell, Alike, RawOpener, Step, Reaches, RawHead;
    var t := First(s, i);
    var e := i + |Spell(t)|;
    if s[i] == '"' { StringIsNotRaw(s, i); }
    TokenCrossed(s, i, k + 1);
    if i < k { TokenCrossed(s, i, k); }
    RunVia(s, i, Code, k, k + 1, Place(k, Code));
    assert k < HiddenFrom(t, i) by { TokenWidth(s, i); }
    if t.RawText? { RawHeadChars(s, i, k); }
  }

  lemma TokenWidth(s: string, i: nat)
    requires i < |s| && !First(s, i).CodeChar?
    ensures Ended(First(s, i)) ==> HiddenFrom(First(s, i), i) + 2 <= i + |Spell(First(s, i))|
  {
    hide SpellItems, StringTail, Find;
  }

  lemma RawHeadChars(s: string, i: nat, k: nat)
    requires i < |s| && First(s, i).RawText? && i <= k < i + 1 + First(s, i).hashes
    ensures k < |s| && InRawHead(s, k)
  {
    HashRunChars(s, i + 1);
  }

  /** Once a token is crossed the machine goes on in code, after a line comment at the newline's end. */
  lemma TokenLeaves(s: string, i: nat) returns (j: nat)
    requires Reaches(s, 0, i) && i < |s| && Alike(First(s, i), s, i) && i + |Spell(First(s, i))| < |s|
    ensures var e := i + |Spell(First(s, i))|;
            && i < j <= |s| && Run(s, i, Code, j) == Place(j, Code) && Reaches(s, 0, j)
            && (j == e || (j == e + 1 && s[e] == '\n' && First(s, e) == CodeChar('\n') && !Reads(s, i, e)))
  {
    hide Alike, RawOpener, Spell, Stands;
    var t := First(s, i);
    var e := i + |Spell(t)|;
    ReachesNext(s, 0, i);
    if t.CodeChar? {
      CodeCharReads(s, i);
      return e;
    }
    if s[i] == '"' { StringIsNotRaw(s, i); }
    TokenCrossed(s, i, e);
    FirstStands(s, i);
    ClosedHere(t, s, i);
    if t.LineNote? {
      NewlineAfter(s, i);
      RunVia(s, i, Code, e, e + 1, Place(e, LineComment));
      ReachesNext(s, 0, e);
      return e + 1;
    }
    return e;
  }

  lemma NewlineAfter(s: string, i: nat)
    requires i < |s| && First(s, i).LineNote? && i + |Spell(First(s, i))| < |s|
    ensures var e := i + |Spell(First(s, i))|;
            s[e] == '\n' && First(s, e) == CodeChar('\n') && |Spell(First(s, e))| == 1
            && Step(s, e, LineComment) == Place(e + 1, Code)
  {
    hide Find, First, Step;
    LineNoteIs(s, i);
    FindChar(s, '\n', i + 2);
    PlainNewline(s, i + |Spell(First(s, i))|);
  }

  lemma LineNoteIs(s: string, i: nat)
    requires i < |s| && First(s, i).LineNote?
    ensures At(s, i, '/', '/') && First(s, i) == LineToken(s, i)
  {
  }

  lemma PlainNewline(s: string, e: nat)
    requires e < |s| && s[e] == '\n'
    ensures First(s, e) == CodeChar('\n') && Step(s, e, LineComment) == Place(e + 1, Code)
  {
  }

  /**
   On a text whose tokens are read alike, the two readings call the same characters code, but for newlines
   after line comments and the openers of raw strings.
   */
  lemma {:induction false} ReadingsAgree(s: string, i: nat, k: nat)
    requires i <= k < |s| && Reaches(s, 0, i) && AllAlike(s, i)
    ensures CodeAt(s, i, k) && s[k] != '\n' ==> Reads(s, i, k)
    ensures Reads(s, i, k) ==> CodeAt(s, i, k) || InRawHead(s, k)
    decreases |s| - i
  {
    hide First, Spell, Alike, Step, InRawHead, Reaches;
    var t := First(s, i);
    var e := i + |Spell(t)|;
    if k < e {
      if t.CodeChar? {
        CodeCharReads(s, i);
      } else if Reads(s, i, k) {
        TokenHides(s, i, k);
      }
    } else {
      var j := TokenLeaves(s, i);
      if j <= k {
        IncludeStr.CodeWidth('\n');
        assert AllAlike(s, e) && CodeAt(s, i, k) == CodeAt(s, e, k);
        assert j == e + 1 ==> AllAlike(s, j) && CodeAt(s, e, k) == CodeAt(s, j, k);
        RunVia(s, i, Code, j, k, Place(j, Code));
        ReadingsAgree(s, j, k);
      }
    }
  }

  lemma {:induction false} CallRuns(s: string, k: nat, n: nat)
    requires Sits(s, k, IncludeStr.CALL) && n < |IncludeStr.CALL|
    ensures k + n < |s| && Run(s, k, Code, k + n) == Place(k + n, Code)
    ensures Step(s, k + n, Code) == Place(k + n + 1, Code)
    ensures !InRawHead(s, k + n) && s[k + n] != '\n'
  {
    forall j | k <= j < k + |IncludeStr.CALL| ensures s[j] !in "'\"/#\n" { SitsChar(s, k, IncludeStr.CALL, j - k); }
    PlainRuns(s, k, k + n);
    SitsChar(s, k, IncludeStr.CALL, n);
    if s[k + n] == 'r' { SitsChar(s, k, IncludeStr.CALL, n + 1); }
  }

  /**
   So on such a text an `include_str!` call is found exactly when it stands where the unsafe audit's
   whole-text reading is in code.
   */
  lemma LiveIsCode(s: string, k: nat)
    requires AllAlike(s, 0)
    ensures IncludeStr.Live(s, k) <==> Sits(s, k, IncludeStr.CALL) && Run(s, 0, Code, k) == Place(k, Code)
  {
    hide AllAlike, CodeAt, Step, InRawHead;
    var n := |IncludeStr.CALL|;
    if Sits(s, k, IncludeStr.CALL) {
      assert Reaches(s, 0, 0);
      forall j | k <= j < k + n ensures CodeAt(s, 0, j) <==> Reads(s, 0, j) {
        CallRuns(s, k, j - k);
        ReadingsAgree(s, 0, j);
      }
      if Run(s, 0, Code, k) == Place(k, Code) {
        forall j | k <= j < k + n ensures Reads(s, 0, j) {
          CallRuns(s, k, j - k);
          RunVia(s, 0, Code, k, j, Place(k, Code));
        }
      }
      if IncludeStr.Live(s, k) { assert CodeAt(s, 0, k) && Reads(s, 0, k); }
    }
  }

  /**
   What nesting costs: a call that stands after the inner closer of a nested comment is found, although it
   is inside the comment.
   */
  lemma NestedCommentLeaks(s: string)
    requires Sits(s, 0, "/*/**/") && Sits(s, 6, IncludeStr.CALL)
    ensures IncludeStr.Live(s, 6) && Prose(ModeAt(s, 6))
  {
    NestedHead(s);
    forall j | 6 <= j < 6 + |IncludeStr.CALL| ensures CodeAt(s, 0, j) {
      forall m | 6 <= m <= j ensures PlainAt(s, m) { IncludeStr.CallIsPlain(s, 6, m - 6); }
      IncludeStr.PlainIsCode(s, 6, j);
    }
  }

  lemma NestedHead(s: string)
    requires Sits(s, 0, "/*/**/")
    ensures First(s, 0).BlockNote? && |Spell(First(s, 0))| == 6 && ModeAt(s, 6) == Block(1)
  {
    var r := "/*/**/";
    forall j: nat | j < 6 ensures s[j] == r[j] { SitsChar(s, 0, r, j); }
    assert s[0] == '/' && s[1] == '*' && s[2] == '/' && s[3] == '*' && s[4] == '*' && s[5] == '/';
    forall j | 2 <= j < 4 ensures !Sits(s, j, "*/") { SitsIsAt(s, j, "*/"); }
    SitsIsAt(s, 4, "*/");
    FindIs(s, "*/", 2, 4);
    assert Run(s, 0, Code, 6) == Run(s, 2, Block(1), 6) == Run(s, 4, Block(2), 6) == Place(6, Block(1));
  }
}
