/**
 The token structure `mask_source` (tools/check_api_examples.py) reads Rust text as: how each token is
 spelled, what blanking leaves of it, and the lexer that splits any text into exactly one such spelling.
 */
module MaskTokens {
  import opened Strings

  datatype Item = Plain(c: char) | Esc(c: char)

  /** How a string ends: at its quote, at the end of the text, or there after a lone backslash. */
  datatype Ending = Closed | Unclosed | Dangling

  datatype Token =
    | CodeChar(c: char)
    | LineNote(body: string)
    | BlockNote(body: string, closed: bool)
    | RawText(hashes: nat, body: string, closed: bool)
    | CharLit(c: char)
    | CharEsc(body: string)
    | StrLit(items: seq<Item>, end: Ending)

  function SpellItems(items: seq<Item>): string {
    if items == [] then ""
    else SpellItem(items[0]) + SpellItems(items[1..])
  }

  function Closer(hashes: nat): (r: string)
    ensures |r| == 1 + hashes && r[0] == '"' && forall k | 0 < k <= hashes :: r[k] == '#'
  {
    seq(1 + hashes, k => if k == 0 then '"' else '#')
  }

  function Opener(hashes: nat): (r: string)
    ensures |r| == 2 + hashes && r[0] == 'r' && r[1 + hashes] == '"'
    ensures forall k | 0 < k <= hashes :: r[k] == '#'
  {
    seq(2 + hashes, k => if k == 0 then 'r' else if k <= hashes then '#' else '"')
  }

  function Spell(t: Token): (r: string)
    ensures 0 < |r|
  {
    match t
    case CodeChar(c) => [c]
    case LineNote(body) => "//" + body
    case BlockNote(body, closed) => "/*" + (body + if closed then "*/" else "")
    case RawText(n, body, closed) => Opener(n) + (body + if closed then Closer(n) else "")
    case CharLit(c) => ['\'', c, '\'']
    case CharEsc(body) => "'\\" + (body + "'")
    case StrLit(items, end) => "\"" + (SpellItems(items) + SpellEnd(end))
  }

  function SpellEnd(end: Ending): string {
    match end case Closed => "\"" case Unclosed => "" case Dangling => "\\"
  }

  function Spaces(n: nat): (r: string)
    ensures |r| == n && forall k | 0 <= k < n :: r[k] == ' '
  {
    seq(n, _ => ' ')
  }

  function BlankChar(c: char): char {
    if c == '\n' then '\n' else ' '
  }

  /** Spaces for everything but newlines. */
  function BlankText(s: string): (r: string)
    ensures |r| == |s| && forall k | 0 <= k < |s| :: r[k] == BlankChar(s[k])
  {
    seq(|s|, k requires 0 <= k < |s| => BlankChar(s[k]))
  }

  function BlankItems(items: seq<Item>): string {
    if items == [] then ""
    else (match items[0] case Plain(c) => [BlankChar(c)] case Esc(_) => "  ") + BlankItems(items[1..])
  }

  datatype Tail = Tail(items: seq<Item>, end: Ending)

  function BlankTail(r: Tail): string {
    BlankItems(r.items) + if r.end == Dangling then "   " else " "
  }

  function Blank(t: Token): string {
    match t
    case CodeChar(c) => [c]
    case LineNote(body) => Spaces(2 + |body|)
    case BlockNote(body, _) => "  " + (BlankText(body) + "  ")
    case RawText(n, body, closed) => Spaces(2 + n) + (BlankText(body) + Spaces(if closed then 1 + n else 0))
    case CharLit(_) => "   "
    case CharEsc(body) => Spaces(3 + |body|)
    case StrLit(items, end) => " " + BlankTail(Tail(items, end))
  }

  // ---------------------------------------------------------------------------------------------
  // Spelling
  // ---------------------------------------------------------------------------------------------

  predicate RawHead(s: string, i: nat)
    requires i < |s|
  {
    s[i] == 'r' && i + 1 + HashRun(s, i + 1) < |s| && s[i + 1 + HashRun(s, i + 1)] == '"'
  }

  predicate EscHead(s: string, i: nat) {
    At(s, i, '\'', '\\') && Find(s, "'", i + 2) < |s|
  }

  predicate CharHead(s: string, i: nat) {
    i + 2 < |s| && s[i] == '\'' && s[i + 1] != '\\' && s[i + 2] == '\''
  }

  /** Nothing that blanking removes starts at `i`. */
  predicate PlainAt(s: string, i: nat)
    requires i < |s|
  {
    && !At(s, i, '/', '/') && !At(s, i, '/', '*') && s[i] != '"'
    && !RawHead(s, i) && !EscHead(s, i) && !CharHead(s, i)
  }

  predicate PlainItem(it: Item) {
    it.Plain? ==> it.c != '"' && it.c != '\\'
  }

  /** `body` goes from `a` to the first place `close` stands, or to the end of the text if it never does. */
  predicate RunsTo(s: string, a: nat, body: string, close: string, closed: bool)
    requires 0 < |close|
  {
    && a + |body| <= |s|
    && (forall j | a <= j < a + |body| :: !Sits(s, j, close))
    && (!closed ==> a + |body| == |s|)
  }

  /** Token `t`, spelled at `i`, is what the text means there. */
  predicate Stands(t: Token, s: string, i: nat) {
    && Sits(s, i, Spell(t))
    && match t
       case CodeChar(_) => PlainAt(s, i)
       case LineNote(body) =>
         '\n' !in body && (i + |Spell(t)| == |s| || s[i + |Spell(t)|] == '\n')
       case BlockNote(body, closed) => RunsTo(s, i + 2, body, "*/", closed)
       case RawText(n, body, closed) => RunsTo(s, i + 2 + n, body, Closer(n), closed)
       case CharLit(c) => c != '\\'
       case CharEsc(body) => '\'' !in body
       case StrLit(items, end) =>
         && (forall k | 0 <= k < |items| :: PlainItem(items[k]))
         && (end != Closed ==> i + |Spell(t)| == |s|)
  }

  /** The tokens, one after another, spell the text from `i` to its end. */
  predicate Spells(toks: seq<Token>, s: string, i: nat) {
    if toks == [] then i == |s|
    else Stands(toks[0], s, i) && Spells(toks[1..], s, i + |Spell(toks[0])|)
  }

  // ---------------------------------------------------------------------------------------------
  // Lexing
  // ---------------------------------------------------------------------------------------------

  function StringTail(s: string, i: nat): Tail
    requires i <= |s|
    decreases |s| - i
  {
    if i == |s| then Tail([], Unclosed)
    else if s[i] == '"' then Tail([], Closed)
    else if s[i] == '\\' then
      if i + 1 == |s| then Tail([], Dangling)
      else var r := StringTail(s, i + 2); Tail([Esc(s[i + 1])] + r.items, r.end)
    else var r := StringTail(s, i + 1); Tail([Plain(s[i])] + r.items, r.end)
  }

  function LineToken(s: string, i: nat): Token
    requires At(s, i, '/', '/')
  {
    LineNote(s[i + 2..Find(s, "\n", i + 2)])
  }

  function BlockToken(s: string, i: nat): Token
    requires At(s, i, '/', '*')
  {
    var e := Find(s, "*/", i + 2);
    BlockNote(s[i + 2..e], e < |s|)
  }

  function RawToken(s: string, i: nat): Token
    requires i < |s| && RawHead(s, i)
  {
    var n := HashRun(s, i + 1);
    var e := Find(s, Closer(n), i + 2 + n);
    RawText(n, s[i + 2 + n..e], e < |s|)
  }

  function CharToken(s: string, i: nat): Token
    requires EscHead(s, i) || CharHead(s, i)
  {
    if EscHead(s, i) then CharEsc(s[i + 2..Find(s, "'", i + 2)]) else CharLit(s[i + 1])
  }

  function StrToken(s: string, i: nat): Token
    requires i < |s|
  {
    var r := StringTail(s, i + 1);
    StrLit(r.items, r.end)
  }

  /** The token that starts at `i`. */
  function First(s: string, i: nat): Token
    requires i < |s|
  {
    if At(s, i, '/', '/') then LineToken(s, i)
    else if At(s, i, '/', '*') then BlockToken(s, i)
    else if RawHead(s, i) then RawToken(s, i)
    else if EscHead(s, i) || CharHead(s, i) then CharToken(s, i)
    else if s[i] == '"' then StrToken(s, i)
    else CodeChar(s[i])
  }

  function SpellItem(it: Item): string {
    match it case Plain(c) => [c] case Esc(c) => ['\\', c]
  }

  predicate Ends(s: string, e: nat, end: Ending) {
    match end
    case Closed => e < |s| && s[e] == '"'
    case Unclosed => e == |s|
    case Dangling => e + 1 == |s| && s[e] == '\\'
  }

  /** The items, all plain or escaped, spell the string body at `i`, which then ends as `r` says. */
  predicate TailAt(s: string, i: nat, r: Tail) {
    && (forall k | 0 <= k < |r.items| :: PlainItem(r.items[k]))
    && Sits(s, i, SpellItems(r.items))
    && Ends(s, i + |SpellItems(r.items)|, r.end)
  }

  lemma TailCons(s: string, i: nat, it: Item, r: Tail)
    requires PlainItem(it)
    ensures TailAt(s, i, Tail([it] + r.items, r.end))
       <==> Sits(s, i, SpellItem(it)) && TailAt(s, i + |SpellItem(it)|, r)
  {
    var items := [it] + r.items;
    if TailAt(s, i, Tail(items, r.end)) {
      SitsParts(s, i, SpellItem(it), SpellItems(r.items));
      forall k | 0 <= k < |r.items| ensures PlainItem(r.items[k]) { assert PlainItem(items[k + 1]); }
    } else if Sits(s, i, SpellItem(it)) && TailAt(s, i + |SpellItem(it)|, r) {
      SitsJoin(s, i, SpellItem(it), SpellItems(r.items));
    }
  }

  lemma {:induction false} StringTailStands(s: string, i: nat)
    requires i <= |s|
    ensures TailAt(s, i, StringTail(s, i))
    decreases |s| - i
  {
    if i < |s| && s[i] != '"' && s[i] != '\\' {
      StringTailStands(s, i + 1);
      PlainCons(s, i, StringTail(s, i + 1));
    } else if i + 1 < |s| && s[i] == '\\' {
      StringTailStands(s, i + 2);
      EscCons(s, i, StringTail(s, i + 2));
    }
  }

  lemma PlainCons(s: string, i: nat, r: Tail)
    requires i < |s| && s[i] != '"' && s[i] != '\\' && TailAt(s, i + 1, r)
    ensures TailAt(s, i, Tail([Plain(s[i])] + r.items, r.end))
  {
  }

  lemma EscCons(s: string, i: nat, r: Tail)
    requires i + 1 < |s| && s[i] == '\\' && TailAt(s, i + 2, r)
    ensures TailAt(s, i, Tail([Esc(s[i + 1])] + r.items, r.end))
  {
  }

  lemma {:induction false} StringTailIs(s: string, i: nat, r: Tail)
    requires TailAt(s, i, r)
    ensures StringTail(s, i) == r
    decreases |r.items|
  {
    if r.items != [] {
      var it, rest := r.items[0], Tail(r.items[1..], r.end);
      assert [it] + rest.items == r.items;
      assert PlainItem(it);
      TailCons(s, i, it, rest);
      SitsChar(s, i, SpellItem(it), 0);
      if it.Esc? { SitsChar(s, i, SpellItem(it), 1); }
      StringTailIs(s, i + |SpellItem(it)|, rest);
    }
  }

  // ---------------------------------------------------------------------------------------------
  // Lexing and spelling are inverse
  // ---------------------------------------------------------------------------------------------

  lemma FindChar(s: string, c: char, i: nat)
    requires i <= |s|
    ensures forall j | i <= j < Find(s, [c], i) :: s[j] != c
    ensures Find(s, [c], i) < |s| ==> s[Find(s, [c], i)] == c
  {
    forall j | i <= j < Find(s, [c], i) ensures s[j] != c {
      assert !Sits(s, j, [c]);
      assert s[j..j + 1] == [s[j]];
    }
  }

  lemma FindCharIs(s: string, c: char, i: nat, k: nat)
    requires i <= k <= |s| && (k < |s| ==> s[k] == c) && forall j | i <= j < k :: s[j] != c
    ensures Find(s, [c], i) == k
  {
    FindChar(s, c, i);
  }

  /** A head, whatever follows it up to `e`, and a closer there are spelled together. */
  lemma Enclosed(s: string, i: nat, head: string, e: nat, close: string)
    requires Sits(s, i, head) && i + |head| <= e && Sits(s, e, close)
    ensures Sits(s, i, head + (s[i + |head|..e] + close))
  {
  }

  lemma LineStands(s: string, i: nat)
    requires i < |s| && At(s, i, '/', '/')
    ensures Stands(LineToken(s, i), s, i)
  {
    var e := Find(s, "\n", i + 2);
    FindChar(s, '\n', i + 2);
    assert s[i..i + 2] == "//";
    SitsJoin(s, i, "//", s[i + 2..e]);
  }

  lemma BlockStands(s: string, i: nat)
    requires i < |s| && At(s, i, '/', '*')
    ensures Stands(BlockToken(s, i), s, i)
  {
    var e := Find(s, "*/", i + 2);
    assert s[i..i + 2] == "/*";
    Enclosed(s, i, "/*", e, if e < |s| then "*/" else "");
  }

  lemma RawHeadSits(s: string, i: nat)
    requires i < |s| && RawHead(s, i)
    ensures Sits(s, i, Opener(HashRun(s, i + 1)))
  {
    var n := HashRun(s, i + 1);
    HashRunChars(s, i + 1);
    assert s[i..i + 2 + n] == Opener(n);
  }

  lemma RawSpelled(s: string, i: nat, n: nat, body: string, closed: bool)
    requires Sits(s, i, Opener(n) + (body + if closed then Closer(n) else ""))
    requires RunsTo(s, i + 2 + n, body, Closer(n), closed)
    ensures Stands(RawText(n, body, closed), s, i)
  {
  }

  lemma RawStands(s: string, i: nat)
    requires i < |s| && RawHead(s, i)
    ensures Stands(RawToken(s, i), s, i)
  {
    hide Stands, RunsTo, Opener, Closer, HashRun, RawHead, Find;
    var n := HashRun(s, i + 1);
    RawHeadSits(s, i);
    var e := Find(s, Closer(n), i + 2 + n);
    Enclosed(s, i, Opener(n), e, if e < |s| then Closer(n) else "");
    RawSpelled(s, i, n, s[i + 2 + n..e], e < |s|);
  }

  lemma {:induction false} HashRunChars(s: string, i: nat)
    requires i <= |s|
    ensures forall k | i <= k < i + HashRun(s, i) :: s[k] == '#'
    decreases |s| - i
  {
    if i < |s| && s[i] == '#' { HashRunChars(s, i + 1); }
  }

  lemma EscStands(s: string, i: nat)
    requires EscHead(s, i)
    ensures var e := Find(s, "'", i + 2); e < |s| && Stands(CharEsc(s[i + 2..e]), s, i)
  {
    hide Find;
    var e := Find(s, "'", i + 2);
    FindChar(s, '\'', i + 2);
    assert s[i..i + 2] == "'\\";
    assert s[e..e + 1] == "'";
    Enclosed(s, i, "'\\", e, "'");
  }

  lemma CharStands(s: string, i: nat)
    requires i < |s| && (EscHead(s, i) || CharHead(s, i))
    ensures Stands(CharToken(s, i), s, i)
  {
    if EscHead(s, i) {
      EscStands(s, i);
    } else {
      assert s[i..i + 3] == ['\'', s[i + 1], '\''];
    }
  }

  lemma EndSits(s: string, e: nat, end: Ending)
    ensures Ends(s, e, end) <==> Sits(s, e, SpellEnd(end)) && (end != Closed ==> e + |SpellEnd(end)| == |s|)
  {
  }

  lemma StrSpelled(s: string, i: nat, items: seq<Item>, end: Ending)
    requires Sits(s, i, "\"" + (SpellItems(items) + SpellEnd(end)))
    requires forall k | 0 <= k < |items| :: PlainItem(items[k])
    requires end != Closed ==> i + 1 + |SpellItems(items)| + |SpellEnd(end)| == |s|
    ensures Stands(StrLit(items, end), s, i)
  {
  }

  lemma StrStands(s: string, i: nat)
    requires i < |s| && s[i] == '"'
    ensures Stands(StrToken(s, i), s, i)
  {
    hide StringTail, SpellItems, SpellEnd, Stands, PlainItem;
    StringTailStands(s, i + 1);
    var r := StringTail(s, i + 1);
    var body := SpellItems(r.items);
    EndSits(s, i + 1 + |body|, r.end);
    SitsJoin(s, i + 1, body, SpellEnd(r.end));
    assert s[i..i + 1] == "\"";
    SitsJoin(s, i, "\"", body + SpellEnd(r.end));
    StrSpelled(s, i, r.items, r.end);
  }

  /** The token the lexer finds is one the text spells. */
  lemma FirstStands(s: string, i: nat)
    requires i < |s|
    ensures Stands(First(s, i), s, i)
  {
    if At(s, i, '/', '/') { LineStands(s, i); }
    else if At(s, i, '/', '*') { BlockStands(s, i); }
    else if RawHead(s, i) { RawStands(s, i); }
    else if EscHead(s, i) || CharHead(s, i) { CharStands(s, i); }
    else if s[i] == '"' { StrStands(s, i); }
    else { assert s[i..i + 1] == [s[i]]; }
  }

  /** Splits a spelled head, body and closer, and names the body as a slice of the text. */
  lemma Opened(s: string, i: nat, head: string, body: string, close: string)
    requires Sits(s, i, head + (body + close))
    ensures Sits(s, i, head) && Sits(s, i + |head|, body) && Sits(s, i + |head| + |body|, close)
    ensures s[i + |head|..i + |head| + |body|] == body
  {
    SitsParts(s, i, head, body + close);
    SitsParts(s, i + |head|, body, close);
  }

  lemma LineIs(s: string, i: nat, body: string)
    requires Sits(s, i, "//" + body) && '\n' !in body && (i + 2 + |body| == |s| || s[i + 2 + |body|] == '\n')
    ensures At(s, i, '/', '/') && LineToken(s, i) == LineNote(body)
  {
    SitsParts(s, i, "//", body);
    SitsChar(s, i, "//", 0);
    SitsChar(s, i, "//", 1);
    var e := i + 2 + |body|;
    forall j | i + 2 <= j < e ensures s[j] != '\n' { SitsChar(s, i + 2, body, j - i - 2); }
    FindCharIs(s, '\n', i + 2, e);
  }

  lemma RunsToFind(s: string, a: nat, body: string, close: string, closed: bool)
    requires 0 < |close| && RunsTo(s, a, body, close, closed) && (closed ==> Sits(s, a + |body|, close))
    ensures Find(s, close, a) == a + |body| && (a + |body| < |s| <==> closed)
  {
  }

  lemma BlockIs(s: string, i: nat, body: string, closed: bool)
    requires Sits(s, i, "/*" + (body + if closed then "*/" else "")) && RunsTo(s, i + 2, body, "*/", closed)
    ensures At(s, i, '/', '*') && BlockToken(s, i) == BlockNote(body, closed)
  {
    hide RunsTo, Find;
    Opened(s, i, "/*", body, if closed then "*/" else "");
    SitsChar(s, i, "/*", 0);
    SitsChar(s, i, "/*", 1);
    RunsToFind(s, i + 2, body, "*/", closed);
  }

  lemma RawHeadIs(s: string, i: nat, n: nat)
    requires Sits(s, i, Opener(n))
    ensures i < |s| && RawHead(s, i) && HashRun(s, i + 1) == n
  {
    SitsChar(s, i, Opener(n), 0);
    SitsChar(s, i, Opener(n), n + 1);
    forall k | i + 1 <= k < i + 1 + n ensures s[k] == '#' { SitsChar(s, i, Opener(n), k - i); }
    HashRunIs(s, i + 1, n);
  }

  lemma RawIs(s: string, i: nat, n: nat, body: string, closed: bool)
    requires Sits(s, i, Opener(n) + (body + if closed then Closer(n) else ""))
    requires RunsTo(s, i + 2 + n, body, Closer(n), closed)
    ensures i < |s| && RawHead(s, i) && RawToken(s, i) == RawText(n, body, closed)
  {
    hide Opener, Closer, RunsTo, Find, HashRun;
    Opened(s, i, Opener(n), body, if closed then Closer(n) else "");
    RawHeadIs(s, i, n);
    RunsToFind(s, i + 2 + n, body, Closer(n), closed);
  }

  lemma CharLitIs(s: string, i: nat, c: char)
    requires Sits(s, i, ['\'', c, '\'']) && c != '\\'
    ensures CharHead(s, i) && CharToken(s, i) == CharLit(c)
  {
  }

  lemma CharEscIs(s: string, i: nat, body: string)
    requires Sits(s, i, "'\\" + (body + "'")) && '\'' !in body
    ensures EscHead(s, i) && CharToken(s, i) == CharEsc(body)
  {
    Opened(s, i, "'\\", body, "'");
    SitsChar(s, i, "'\\", 0);
    SitsChar(s, i, "'\\", 1);
    var e := i + 2 + |body|;
    SitsChar(s, e, "'", 0);
    forall j | i + 2 <= j < e ensures s[j] != '\'' { SitsChar(s, i + 2, body, j - i - 2); }
    FindCharIs(s, '\'', i + 2, e);
  }

  lemma StrIs(s: string, i: nat, items: seq<Item>, end: Ending)
    requires Sits(s, i, "\"" + (SpellItems(items) + SpellEnd(end)))
    requires forall k | 0 <= k < |items| :: PlainItem(items[k])
    requires end != Closed ==> i + 1 + |SpellItems(items)| + |SpellEnd(end)| == |s|
    ensures i < |s| && s[i] == '"' && StrToken(s, i) == StrLit(items, end)
  {
    hide StringTail, SpellItems, SpellEnd;
    Opened(s, i, "\"", SpellItems(items), SpellEnd(end));
    SitsChar(s, i, "\"", 0);
    EndSits(s, i + 1 + |SpellItems(items)|, end);
    assert TailAt(s, i + 1, Tail(items, end));
    StringTailIs(s, i + 1, Tail(items, end));
  }

  // Which branch of the lexer each head selects.

  lemma FirstLine(s: string, i: nat)
    requires i < |s| && At(s, i, '/', '/')
    ensures First(s, i) == LineToken(s, i)
  {
  }

  lemma FirstBlock(s: string, i: nat)
    requires i < |s| && At(s, i, '/', '*')
    ensures First(s, i) == BlockToken(s, i)
  {
  }

  lemma FirstRaw(s: string, i: nat)
    requires i < |s| && RawHead(s, i)
    ensures First(s, i) == RawToken(s, i)
  {
  }

  lemma FirstChar(s: string, i: nat)
    requires i < |s| && (EscHead(s, i) || CharHead(s, i))
    ensures First(s, i) == CharToken(s, i)
  {
  }

  lemma FirstStr(s: string, i: nat)
    requires i < |s| && s[i] == '"'
    ensures First(s, i) == StrToken(s, i)
  {
  }

  lemma FirstCode(s: string, i: nat)
    requires i < |s| && PlainAt(s, i)
    ensures First(s, i) == CodeChar(s[i])
  {
  }

  lemma LineFirst(s: string, i: nat, body: string)
    requires Stands(LineNote(body), s, i)
    ensures i < |s| && First(s, i) == LineNote(body)
  {
    hide First, LineToken, Find, Sits;
    LineIs(s, i, body);
    FirstLine(s, i);
  }

  lemma BlockFirst(s: string, i: nat, body: string, closed: bool)
    requires Stands(BlockNote(body, closed), s, i)
    ensures i < |s| && First(s, i) == BlockNote(body, closed)
  {
    hide First, BlockToken, RunsTo, Find;
    BlockIs(s, i, body, closed);
    FirstBlock(s, i);
  }

  lemma RawFirst(s: string, i: nat, n: nat, body: string, closed: bool)
    requires Stands(RawText(n, body, closed), s, i)
    ensures i < |s| && First(s, i) == RawText(n, body, closed)
  {
    hide First, RawToken, RunsTo, Find, RawHead, Opener, Closer;
    RawIs(s, i, n, body, closed);
    FirstRaw(s, i);
  }

  lemma CharFirst(t: Token, s: string, i: nat)
    requires Stands(t, s, i) && (t.CharLit? || t.CharEsc?)
    ensures i < |s| && First(s, i) == t
  {
    hide First, CharToken, Find, RawHead, CharHead;
    if t.CharLit? { CharLitIs(s, i, t.c); } else { CharEscIs(s, i, t.body); }
    FirstChar(s, i);
  }

  lemma StrFirst(s: string, i: nat, items: seq<Item>, end: Ending)
    requires Stands(StrLit(items, end), s, i)
    ensures i < |s| && First(s, i) == StrLit(items, end)
  {
    hide First, StrToken, SpellItems, SpellEnd, PlainItem;
    StrIs(s, i, items, end);
    FirstStr(s, i);
  }

  lemma CodeFirst(s: string, i: nat, c: char)
    requires Stands(CodeChar(c), s, i)
    ensures i < |s| && First(s, i) == CodeChar(c)
  {
  }

  /** A token that stands at `i` is the one the lexer finds there. */
  lemma FirstIs(t: Token, s: string, i: nat)
    requires Stands(t, s, i)
    ensures i < |s| && First(s, i) == t
  {
    hide First, Stands;
    match t
    case CodeChar(c) => CodeFirst(s, i, c);
    case LineNote(body) => LineFirst(s, i, body);
    case BlockNote(body, closed) => BlockFirst(s, i, body, closed);
    case RawText(n, body, closed) => RawFirst(s, i, n, body, closed);
    case CharLit(_) => CharFirst(t, s, i);
    case CharEsc(_) => CharFirst(t, s, i);
    case StrLit(items, end) => StrFirst(s, i, items, end);
  }

  lemma StandsFits(t: Token, s: string, i: nat)
    requires Stands(t, s, i)
    ensures i + |Spell(t)| <= |s|
  {
  }

  /** All tokens from `i` on. */
  function Lex(s: string, i: nat): seq<Token>
    requires i <= |s|
    decreases |s| - i
  {
    if i == |s| then []
    else
      FirstStands(s, i);
      [First(s, i)] + Lex(s, i + |Spell(First(s, i))|)
  }

  /** Every text is spelled by the tokens the lexer finds. */
  lemma {:induction false} LexSpells(s: string, i: nat)
    requires i <= |s|
    ensures Spells(Lex(s, i), s, i)
    decreases |s| - i
  {
    hide Stands, First, Spell;
    if i < |s| {
      FirstStands(s, i);
      var t := First(s, i);
      StandsFits(t, s, i);
      LexSpells(s, i + |Spell(t)|);
      assert Lex(s, i)[1..] == Lex(s, i + |Spell(t)|);
    }
  }

  lemma LexCons(s: string, i: nat)
    requires i < |s|
    ensures i + |Spell(First(s, i))| <= |s| && Lex(s, i) == [First(s, i)] + Lex(s, i + |Spell(First(s, i))|)
  {
    hide First, Spell, Stands;
    FirstStands(s, i);
    StandsFits(First(s, i), s, i);
  }

  lemma LexEnd(s: string)
    ensures Lex(s, |s|) == []
  {
  }

  /** No other tokens spell it: lexing inverts spelling. */
  lemma {:induction false} SpellingIsUnique(toks: seq<Token>, s: string, i: nat)
    requires i <= |s| && Spells(toks, s, i)
    ensures toks == Lex(s, i)
    decreases |toks|
  {
    hide Stands, First, Spell, Lex;
    if toks == [] {
      LexEnd(s);
    } else {
      FirstIs(toks[0], s, i);
      LexCons(s, i);
      SpellingIsUnique(toks[1..], s, i + |Spell(toks[0])|);
      assert toks == [toks[0]] + toks[1..];
    }
  }

  function SpellAll(toks: seq<Token>): string {
    if toks == [] then "" else Spell(toks[0]) + SpellAll(toks[1..])
  }

  lemma {:induction false} SpelledText(toks: seq<Token>, s: string, i: nat)
    requires i <= |s| && Spells(toks, s, i)
    ensures s[i..] == SpellAll(toks)
    decreases |toks|
  {
    hide Spell;
    if toks != [] {
      var e := i + |Spell(toks[0])|;
      SpelledText(toks[1..], s, e);
      assert s[i..] == s[i..e] + s[e..];
    }
  }
}
