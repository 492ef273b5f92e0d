/**
 `mask_source` (tools/check_api_examples.py): the imperative masker, proved to blank exactly the tokens
 of `MaskTokens`, and what its callers rely on: aligned offsets, idempotence, and when lines survive.
 */
module MaskSource {
  import opened Strings
  import opened MaskTokens

  function BlankAll(toks: seq<Token>): string {
    if toks == [] then "" else Blank(toks[0]) + BlankAll(toks[1..])
  }

  function MaskFrom(s: string, i: nat): string
    requires i <= |s|
  {
    BlankAll(Lex(s, i))
  }

  function Mask(s: string): string {
    MaskFrom(s, 0)
  }

  lemma MaskUnfold(s: string, i: nat)
    requires i < |s|
    ensures Stands(First(s, i), s, i) && i + |Spell(First(s, i))| <= |s|
    ensures MaskFrom(s, i) == Blank(First(s, i)) + MaskFrom(s, i + |Spell(First(s, i))|)
  {
    hide First, Spell, Blank, Stands;
    FirstStands(s, i);
    StandsFits(First(s, i), s, i);
    var t := First(s, i);
    assert ([t] + Lex(s, i + |Spell(t)|))[1..] == Lex(s, i + |Spell(t)|);
  }

  lemma MaskEnd(s: string)
    ensures MaskFrom(s, |s|) == ""
  {
  }

  // ---------------------------------------------------------------------------------------------
  // What blanking does to one token
  // ---------------------------------------------------------------------------------------------

  lemma {:induction false} ItemsBlank(items: seq<Item>, k: nat)
    ensures |BlankItems(items)| == |SpellItems(items)|
    ensures k < |SpellItems(items)| ==>
              BlankItems(items)[k] == ' ' || (BlankItems(items)[k] == '\n' && SpellItems(items)[k] == '\n')
  {
    if items != [] {
      var w := |SpellItem(items[0])|;
      ItemsBlank(items[1..], if w <= k then k - w else 0);
    }
  }

  /** A blanked token is as long as its spelling, unless the text ends inside it. */
  lemma BlankLength(t: Token)
    ensures |Spell(t)| <= |Blank(t)| <= |Spell(t)| + 2
    ensures |Blank(t)| == |Spell(t)| <==>
              !(t.BlockNote? && !t.closed) && !(t.StrLit? && t.end != Closed)
  {
    if t.StrLit? { ItemsBlank(t.items, 0); }
  }

  predicate Faded(b: char, k: nat, r: string) {
    b == ' ' || (b == '\n' && k < |r| && r[k] == '\n')
  }

  lemma BlankFades(t: Token, k: nat)
    requires !t.CodeChar? && k < |Blank(t)|
    ensures Faded(Blank(t)[k], k, Spell(t))
  {
    match t
    case StrLit(items, end) => StringFades(items, end, k);
    case BlockNote(body, closed) => BodyFades("  ", "/*", body, "  ", if closed then "*/" else "", k);
    case RawText(n, body, closed) =>
      var tail := if closed then Closer(n) else "";
      BodyFades(Spaces(2 + n), Opener(n), body, Spaces(if closed then 1 + n else 0), tail, k);
    case _ =>
  }

  /** A head and a tail blanked to spaces around a body that keeps its newlines. */
  lemma BodyFades(b1: string, r1: string, body: string, b2: string, r2: string, k: nat)
    requires |b1| == |r1| && (forall j | 0 <= j < |b1| :: b1[j] == ' ') && (forall j | 0 <= j < |b2| :: b2[j] == ' ')
    requires k < |b1| + |body| + |b2|
    ensures Faded((b1 + (BlankText(body) + b2))[k], k, r1 + (body + r2))
  {
  }

  lemma StringFades(items: seq<Item>, end: Ending, k: nat)
    requires k < |Blank(StrLit(items, end))|
    ensures Faded(Blank(StrLit(items, end))[k], k, Spell(StrLit(items, end)))
  {
    hide SpellItems, BlankItems, SpellEnd;
    ItemsBlank(items, if 1 <= k then k - 1 else 0);
  }

  /** Blanking lengthens a token only at the end of the text. */
  lemma UnclosedIsLast(s: string, i: nat)
    requires i < |s|
    ensures var t := First(s, i);
            |Spell(t)| <= |Blank(t)| <= |Spell(t)| + 2 && (|Blank(t)| == |Spell(t)| || i + |Spell(t)| == |s|)
  {
    hide First;
    FirstStands(s, i);
    BlankLength(First(s, i));
  }

  lemma TokenStep(s: string, i: nat)
    requires i < |s|
    ensures var t := First(s, i); var j := i + |Blank(t)|;
            && i < j <= |s| + 2
            && (j <= |s| ==> MaskFrom(s, i) == Blank(t) + MaskFrom(s, j))
            && (j > |s| ==> MaskFrom(s, i) == Blank(t))
  {
    hide First, Spell, Blank, Stands, BlankAll, Lex;
    MaskUnfold(s, i);
    UnclosedIsLast(s, i);
    MaskEnd(s);
  }

  // ---------------------------------------------------------------------------------------------
  // The masker
  // ---------------------------------------------------------------------------------------------

  method MaskLine(text: string, i: nat) returns (out: string)
    requires At(text, i, '/', '/')
    ensures out == Blank(LineToken(text, i))
  {
    out := "";
    var j := i;
    while j < |text| && text[j] != '\n'
      invariant i <= j <= |text| && out == Spaces(j - i)
      invariant forall k | i <= k < j :: text[k] != '\n'
    {
      out := out + " ";
      j := j + 1;
    }
    FindCharIs(text, '\n', i + 2, j);
  }

  method MaskBlock(text: string, i: nat) returns (out: string)
    requires At(text, i, '/', '*')
    ensures out == Blank(BlockToken(text, i))
  {
    out := "  ";
    var j := i + 2;
    while j < |text| && !(text[j] == '*' && j + 1 < |text| && text[j + 1] == '/')
      invariant i + 2 <= j <= |text| && out == "  " + BlankText(text[i + 2..j])
      invariant forall k | i + 2 <= k < j :: !Sits(text, k, "*/")
    {
      assert !Sits(text, j, "*/");
      assert text[i + 2..j + 1] == text[i + 2..j] + [text[j]];
      out := out + if text[j] == '\n' then "\n" else " ";
      j := j + 1;
    }
    if j < |text| { assert text[j..j + 2] == "*/"; }
    FindIs(text, "*/", i + 2, j);
    out := out + "  ";
  }

  /** The number of hashes of the raw string that starts at `i`, if one does. */
  method ProbeRaw(text: string, i: nat) returns (raw: bool, hashes: nat)
    requires i < |text|
    ensures raw == RawHead(text, i)
    ensures raw ==> hashes == HashRun(text, i + 1)
  {
    hashes := 0;
    if !(text[i] == 'r' && i + 1 < |text| && text[i + 1] in "\"#") {
      return false, 0;
    }
    var j := i + 1;
    while j < |text| && text[j] == '#'
      invariant j == i + 1 + hashes <= |text|
      invariant hashes + HashRun(text, j) == HashRun(text, i + 1)
    {
      hashes := hashes + 1;
      j := j + 1;
    }
    raw := j < |text| && text[j] == '"';
  }

  /** Spaces for a stretch of text, newlines kept. */
  method BlankRange(text: string, i: nat, end: nat) returns (out: string)
    requires i <= end <= |text|
    ensures out == BlankText(text[i..end])
  {
    out := "";
    for k := i to end
      invariant out == BlankText(text[i..k])
    {
      assert text[i..k + 1] == text[i..k] + [text[k]];
      out := out + if text[k] == '\n' then "\n" else " ";
    }
  }

  method MaskRaw(text: string, i: nat, hashes: nat) returns (out: string)
    requires i < |text| && RawHead(text, i) && hashes == HashRun(text, i + 1)
    ensures out == Blank(RawToken(text, i))
  {
    hide Blank, BlankText, HashRun, Opener, Closer;
    var found := Find(text, Closer(hashes), i + 2 + hashes);
    var end := if found == |text| then |text| else found + 1 + hashes;
    out := BlankRange(text, i, end);
    RawHeadSits(text, i);
    if found < |text| {
      RawFades(text, i, hashes, found);
    } else {
      OpenRawFades(text, i, hashes);
    }
  }

  /** Only the content of a raw string can hold newlines. */
  lemma RawFades(text: string, i: nat, n: nat, found: nat)
    requires Sits(text, i, Opener(n)) && i + 2 + n <= found <= |text| && Sits(text, found, Closer(n))
    ensures BlankText(text[i..found + 1 + n]) == Blank(RawText(n, text[i + 2 + n..found], true))
  {
    hide Opener, Closer, BlankText, Spaces, Blank;
    var end := found + 1 + n;
    BlankJoin(text, i, i + 2 + n, end);
    BlankJoin(text, i + 2 + n, found, end);
    RawBlankIs(n, text[i + 2 + n..found], true);
  }

  lemma OpenRawFades(text: string, i: nat, n: nat)
    requires Sits(text, i, Opener(n))
    ensures BlankText(text[i..|text|]) == Blank(RawText(n, text[i + 2 + n..|text|], false))
  {
    hide Opener, Closer, BlankText, Spaces, Blank;
    BlankJoin(text, i, i + 2 + n, |text|);
    RawBlankIs(n, text[i + 2 + n..|text|], false);
  }

  lemma RawBlankIs(n: nat, body: string, closed: bool)
    ensures Blank(RawText(n, body, closed))
         == Spaces(2 + n) + if closed then BlankText(body) + Spaces(1 + n) else BlankText(body)
  {
  }

  lemma BlankJoin(s: string, a: nat, b: nat, c: nat)
    requires a <= b <= c <= |s|
    ensures BlankText(s[a..c]) == BlankText(s[a..b]) + BlankText(s[b..c])
  {
  }

  /** The width of the char literal that starts at `i`, or 0 when the quote opens a lifetime. */
  method ProbeChar(text: string, i: nat) returns (width: nat)
    requires i < |text| && text[i] == '\''
    ensures 0 < width <==> EscHead(text, i) || CharHead(text, i)
    ensures 0 < width ==> Blank(CharToken(text, i)) == Spaces(width)
  {
    width := 0;
    var j := i + 1;
    if j < |text| && text[j] == '\\' {
      j := j + 1;
      while j < |text| && text[j] != '\''
        invariant i + 2 <= j <= |text|
        invariant forall k | i + 2 <= k < j :: text[k] != '\''
      {
        j := j + 1;
      }
      FindCharIs(text, '\'', i + 2, j);
      if j < |text| { width := j + 1 - i; }
    } else if j + 1 < |text| && text[j + 1] == '\'' {
      width := 3;
    }
  }

  /** What is still to be put out for a string body from `j` on; an escape may step past the end. */
  function Rest(s: string, j: nat): string {
    if j <= |s| then BlankTail(StringTail(s, j)) else " "
  }

  /** What one character or escape of a string body is blanked to. */
  function BlankUnit(c: char): string {
    if c == '\\' then "  " else if c == '\n' then "\n" else " "
  }

  lemma RestStep(s: string, j: nat)
    requires j < |s| && s[j] != '"'
    ensures Rest(s, j) == BlankUnit(s[j]) + Rest(s, j + |BlankUnit(s[j])|)
  {
    TailUnfold(s, j);
    if s[j] != '\\' {
      BlankCons(Plain(s[j]), StringTail(s, j + 1));
    } else if j + 1 < |s| {
      BlankCons(Esc(s[j + 1]), StringTail(s, j + 2));
    }
  }

  lemma TailUnfold(s: string, j: nat)
    requires j < |s| && s[j] != '"'
    ensures s[j] != '\\' ==>
              var r := StringTail(s, j + 1); StringTail(s, j) == Tail([Plain(s[j])] + r.items, r.end)
    ensures s[j] == '\\' && j + 1 < |s| ==>
              var r := StringTail(s, j + 2); StringTail(s, j) == Tail([Esc(s[j + 1])] + r.items, r.end)
    ensures s[j] == '\\' && j + 1 == |s| ==> StringTail(s, j) == Tail([], Dangling)
  {
  }

  lemma BlankCons(it: Item, r: Tail)
    ensures BlankTail(Tail([it] + r.items, r.end))
         == (match it case Plain(c) => [BlankChar(c)] case Esc(_) => "  ") + BlankTail(r)
  {
    assert ([it] + r.items)[1..] == r.items;
  }

  lemma RestEnd(s: string, j: nat)
    requires j < |s| ==> s[j] == '"'
    ensures Rest(s, j) == " "
  {
  }

  lemma RestStart(s: string, i: nat)
    requires i < |s|
    ensures Blank(StrToken(s, i)) == " " + Rest(s, i + 1)
  {
  }

  method MaskString(text: string, i: nat) returns (out: string)
    requires i < |text| && text[i] == '"'
    ensures out == Blank(StrToken(text, i))
  {
    hide Rest, Blank, StrToken;
    RestStart(text, i);
    out := " ";
    var j := i + 1;
    while j < |text| && text[j] != '"'
      invariant i + 1 <= j <= |text| + 1
      invariant out + Rest(text, j) == Blank(StrToken(text, i))
    {
      RestStep(text, j);
      var piece := if text[j] == '\\' then "  " else if text[j] == '\n' then "\n" else " ";
      out := out + piece;
      j := j + |piece|;
    }
    RestEnd(text, j);
    out := out + " ";
  }

  /** Masks the token that starts at `i`, whichever it is. */
  method MaskOne(text: string, i: nat) returns (out: string)
    requires i < |text|
    ensures out == Blank(First(text, i))
  {
    if text[i] == '/' && i + 1 < |text| && text[i + 1] == '/' {
      out := MaskLine(text, i);
    } else if text[i] == '/' && i + 1 < |text| && text[i + 1] == '*' {
      out := MaskBlock(text, i);
    } else {
      var raw, hashes := ProbeRaw(text, i);
      if raw {
        out := MaskRaw(text, i, hashes);
        return;
      }
      if text[i] == '\'' {
        var width := ProbeChar(text, i);
        if 0 < width {
          out := Spaces(width);
          return;
        }
      }
      if text[i] == '"' {
        out := MaskString(text, i);
      } else {
        out := [text[i]];
      }
    }
  }

  method MaskText(text: string) returns (masked: string)
    ensures masked == Mask(text)
  {
    hide First, Blank, Lex;
    masked := "";
    var i := 0;
    while i < |text|
      invariant |masked| == i <= |text| + 2
      invariant i <= |text| ==> masked + MaskFrom(text, i) == Mask(text)
      invariant i > |text| ==> masked == Mask(text)
      decreases |text| + 2 - i
    {
      var out := MaskOne(text, i);
      TokenStep(text, i);
      masked := masked + out;
      i := i + |out|;
    }
    MaskEnd(text);
  }

  // ---------------------------------------------------------------------------------------------
  // Aligned offsets
  // ---------------------------------------------------------------------------------------------

  /** A code character of the text stands at `k`, counting tokens from `i`. */
  predicate CodeAt(s: string, i: nat, k: nat)
    requires i <= |s|
    decreases |s| - i
  {
    && i < |s|
    && (FirstStands(s, i);
        var e := i + |Spell(First(s, i))|;
        if k < e then First(s, i).CodeChar? && k == i else CodeAt(s, e, k))
  }

  /** What the masked text may hold at `k`: code kept as it was, a kept newline, or a space. */
  predicate Kept(s: string, i: nat, k: nat, c: char)
    requires i <= |s|
  {
    if CodeAt(s, i, k) then k < |s| && c == s[k] && PlainAt(s, k)
    else c == ' ' || (c == '\n' && k < |s| && s[k] == '\n')
  }

  lemma FirstKept(s: string, i: nat, k: nat)
    requires i < |s| && i <= k < i + |Blank(First(s, i))|
    requires k < i + |Spell(First(s, i))| || i + |Spell(First(s, i))| == |s|
    ensures Kept(s, i, k, Blank(First(s, i))[k - i])
  {
    hide First;
    FirstStands(s, i);
    var t := First(s, i);
    if !t.CodeChar? {
      hide Spell, Blank;
      BlankFades(t, k - i);
      if k < i + |Spell(t)| { SitsChar(s, i, Spell(t), k - i); } else { assert !CodeAt(s, i + |Spell(t)|, k); }
    } else {
      SitsChar(s, i, Spell(t), 0);
    }
  }

  lemma {:induction false} AlignedFrom(s: string, i: nat, k: nat)
    requires i <= |s|
    ensures |s| - i <= |MaskFrom(s, i)| <= |s| - i + 2
    ensures i <= k < i + |MaskFrom(s, i)| ==> Kept(s, i, k, MaskFrom(s, i)[k - i])
    decreases |s| - i
  {
    hide First, Spell, Blank, BlankAll, Lex, Stands;
    MaskEnd(s);
    if i < |s| {
      MaskUnfold(s, i);
      var t := First(s, i);
      var e := i + |Spell(t)|;
      UnclosedIsLast(s, i);
      AlignedFrom(s, e, k);
      if i <= k < i + |MaskFrom(s, i)| {
        if k < i + |Blank(t)| {
          if e == |s| || k < e { FirstKept(s, i, k); }
        }
      }
    }
  }

  /**
   Offsets align: the mask is at most two characters longer than the text, every code character is kept
   where it stands, and every other position is a space or an original newline.
   */
  lemma MaskIsAligned(s: string)
    ensures |s| <= |Mask(s)| <= |s| + 2
    ensures forall k | 0 <= k < |Mask(s)| :: Kept(s, 0, k, Mask(s)[k])
  {
    hide Lex, BlankAll, CodeAt, PlainAt;
    AlignedFrom(s, 0, 0);
    forall k | 0 <= k < |Mask(s)| ensures Kept(s, 0, k, Mask(s)[k]) {
      AlignedFrom(s, 0, k);
    }
  }

  lemma NoQuoteSurvives(s: string)
    ensures '"' !in Mask(s)
  {
    MaskIsAligned(s);
    forall k | 0 <= k < |Mask(s)| ensures Mask(s)[k] != '"' {
      assert Kept(s, 0, k, Mask(s)[k]);
    }
  }

  // ---------------------------------------------------------------------------------------------
  // Idempotence
  // ---------------------------------------------------------------------------------------------

  predicate Inert(m: string) {
    forall k | 0 <= k < |m| :: PlainAt(m, k)
  }

  /** `m` keeps plain characters of `s`, and is blank everywhere else. */
  predicate Covers(s: string, m: string) {
    forall k | 0 <= k < |m| ::
      m[k] == ' ' || m[k] == '\n' || (k < |s| && m[k] == s[k] && PlainAt(s, k))
  }

  /** No char literal appears: a `'` that was no literal before cannot become one by blanking around it. */
  lemma NoNewChar(s: string, m: string, k: nat)
    requires Covers(s, m) && k < |m| && m[k] == '\''
    ensures !EscHead(m, k) && !CharHead(m, k)
  {
    assert PlainAt(s, k);
    if EscHead(m, k) {
      var j := Find(m, "'", k + 2);
      FindChar(m, '\'', k + 2);
      assert m[k + 1] == s[k + 1] && m[j] == s[j];
      FindChar(s, '\'', k + 2);
    }
    if CharHead(m, k) {
      assert m[k + 2] == s[k + 2];
      if s[k + 1] == '\\' { FindChar(s, '\'', k + 2); }
    }
  }

  lemma CoverIsInert(s: string, m: string)
    requires Covers(s, m)
    ensures Inert(m)
  {
    forall k | 0 <= k < |m| ensures PlainAt(m, k) {
      forall j | 0 <= j < |m| ensures m[j] != '"' {
        assert m[j] == ' ' || m[j] == '\n' || PlainAt(s, j);
      }
      if m[k] == '\'' { NoNewChar(s, m, k); }
      if m[k] == '/' {
        assert PlainAt(s, k);
        if k + 1 < |m| { assert m[k + 1] == ' ' || m[k + 1] == '\n' || m[k + 1] == s[k + 1]; }
      }
    }
  }

  lemma {:induction false} InertIsFixed(m: string, i: nat)
    requires i <= |m| && Inert(m)
    ensures MaskFrom(m, i) == m[i..]
    decreases |m| - i
  {
    hide First, Lex, BlankAll, PlainAt, Stands;
    MaskEnd(m);
    if i < |m| {
      assert PlainAt(m, i);
      FirstCode(m, i);
      MaskUnfold(m, i);
      InertIsFixed(m, i + 1);
    }
  }

  /** Masking masked text changes nothing: no comment, string or char literal is ever created. */
  lemma MaskIsIdempotent(s: string)
    ensures Mask(Mask(s)) == Mask(s)
  {
    MaskIsAligned(s);
    var m := Mask(s);
    forall k | 0 <= k < |m|
      ensures m[k] == ' ' || m[k] == '\n' || (k < |s| && m[k] == s[k] && PlainAt(s, k))
    {
      assert Kept(s, 0, k, m[k]);
    }
    CoverIsInert(s, m);
    InertIsFixed(m, 0);
  }

  // ---------------------------------------------------------------------------------------------
  // When lines survive
  // ---------------------------------------------------------------------------------------------

  /** The token holds no newline that blanking turns into a space. */
  predicate KeepsLines(t: Token) {
    match t
    case CharLit(c) => c != '\n'
    case CharEsc(body) => '\n' !in body
    case StrLit(items, _) => forall k | 0 <= k < |items| :: items[k] != Esc('\n')
    case _ => true
  }

  /** Every newline of `r` is a newline of `b`. */
  predicate NewlinesIn(r: string, b: string)
    requires |r| <= |b|
  {
    forall k | 0 <= k < |r| :: r[k] == '\n' ==> b[k] == '\n'
  }

  lemma NewlinesJoin(r1: string, r2: string, b1: string, b2: string)
    requires |r1| == |b1| && |r2| <= |b2|
    ensures NewlinesIn(r1 + r2, b1 + b2) <==> NewlinesIn(r1, b1) && NewlinesIn(r2, b2)
  {
    var r, b := r1 + r2, b1 + b2;
    if NewlinesIn(r, b) {
      forall k | 0 <= k < |r1| ensures r1[k] == '\n' ==> b1[k] == '\n' { assert r[k] == r1[k] && b[k] == b1[k]; }
      forall k | 0 <= k < |r2| ensures r2[k] == '\n' ==> b2[k] == '\n' {
        assert r[|r1| + k] == r2[k] && b[|r1| + k] == b2[k];
      }
    }
  }

  lemma {:induction false} ItemsKeepLines(items: seq<Item>)
    ensures |BlankItems(items)| == |SpellItems(items)|
    ensures NewlinesIn(SpellItems(items), BlankItems(items))
       <==> forall k | 0 <= k < |items| :: items[k] != Esc('\n')
  {
    ItemsBlank(items, 0);
    if items != [] {
      ItemsBlank(items[1..], 0);
      ItemsKeepLines(items[1..]);
      var b := match items[0] case Plain(c) => [BlankChar(c)] case Esc(_) => "  ";
      var r := SpellItem(items[0]);
      NewlinesJoin(r, SpellItems(items[1..]), b, BlankItems(items[1..]));
      if items[0].Esc? { assert r[1] == items[0].c; }
      assert NewlinesIn(r, b) <==> items[0] != Esc('\n');
      assert items == [items[0]] + items[1..];
    }
  }

  lemma StringKeepsLines(items: seq<Item>, end: Ending)
    ensures var t := StrLit(items, end);
            |Spell(t)| <= |Blank(t)| && (NewlinesIn(Spell(t), Blank(t)) <==> KeepsLines(t))
  {
    var t := StrLit(items, end);
    BlankLength(t);
    ItemsKeepLines(items);
    var gap := if end == Dangling then "   " else " ";
    NewlinesJoin(SpellItems(items), SpellEnd(end), BlankItems(items), gap);
    NewlinesJoin("\"", SpellItems(items) + SpellEnd(end), " ", BlankTail(Tail(items, end)));
  }

  /** Head, body and tail of a comment or raw string: the body keeps its newlines and the rest has none. */
  lemma BodyKeepsLines(r1: string, b1: string, body: string, r2: string, b2: string)
    requires |r1| == |b1| && |r2| <= |b2| && '\n' !in r1 && '\n' !in r2
    ensures NewlinesIn(r1 + (body + r2), b1 + (BlankText(body) + b2))
  {
  }

  lemma CharKeepsLines(t: Token)
    requires t.CharLit? || t.CharEsc?
    ensures |Spell(t)| <= |Blank(t)|
    ensures NewlinesIn(Spell(t), Blank(t)) <==> KeepsLines(t)
  {
    match t
    case CharLit(c) => assert Spell(t)[1] == c;
    case CharEsc(body) =>
      if '\n' in body {
        var k :| 0 <= k < |body| && body[k] == '\n';
        assert Spell(t)[2 + k] == body[k];
      }
  }

  lemma TokenKeepsLines(t: Token)
    requires t.LineNote? ==> '\n' !in t.body
    ensures |Spell(t)| <= |Blank(t)|
    ensures NewlinesIn(Spell(t), Blank(t)) <==> KeepsLines(t)
  {
    BlankLength(t);
    match t
    case CharLit(_) => CharKeepsLines(t);
    case CharEsc(_) => CharKeepsLines(t);
    case StrLit(items, end) => StringKeepsLines(items, end);
    case BlockNote(body, closed) => BodyKeepsLines("/*", "  ", body, if closed then "*/" else "", "  ");
    case RawText(n, body, closed) =>
      var tail := if closed then Closer(n) else "";
      BodyKeepsLines(Opener(n), Spaces(2 + n), body, tail, Spaces(if closed then 1 + n else 0));
    case _ =>
  }

  predicate AllKeepLines(toks: seq<Token>) {
    forall k | 0 <= k < |toks| :: KeepsLines(toks[k])
  }

  lemma AllKeepLinesCons(t: Token, rest: seq<Token>)
    ensures AllKeepLines([t] + rest) <==> KeepsLines(t) && AllKeepLines(rest)
  {
    var toks := [t] + rest;
    if AllKeepLines(toks) {
      assert KeepsLines(toks[0]);
      forall k | 0 <= k < |rest| ensures KeepsLines(rest[k]) { assert KeepsLines(toks[k + 1]); }
    }
  }

  lemma {:induction false} LinesKeptFrom(s: string, i: nat)
    requires i <= |s|
    ensures |s| - i <= |MaskFrom(s, i)|
    ensures NewlinesIn(s[i..], MaskFrom(s, i)) <==> AllKeepLines(Lex(s, i))
    decreases |s| - i
  {
    hide First, Spell, Blank, BlankAll, KeepsLines, Stands;
    AlignedFrom(s, i, 0);
    if i < |s| {
      var t := First(s, i);
      var e := i + |Spell(t)|;
      MaskUnfold(s, i);
      UnclosedIsLast(s, i);
      StandsSits(t, s, i);
      TokenKeepsLines(t);
      LinesKeptFrom(s, e);
      assert s[i..] == Spell(t) + s[e..];
      assert Lex(s, i) == [t] + Lex(s, e);
      AllKeepLinesCons(t, Lex(s, e));
      if e == |s| {
        MaskEnd(s);
        assert Lex(s, e) == [];
      } else {
        NewlinesJoin(Spell(t), s[e..], Blank(t), MaskFrom(s, e));
      }
    }
  }

  lemma StandsSits(t: Token, s: string, i: nat)
    requires Stands(t, s, i)
    ensures i + |Spell(t)| <= |s| && s[i..i + |Spell(t)|] == Spell(t)
    ensures t.LineNote? ==> '\n' !in t.body
  {
  }

  /**
   Line structure survives masking exactly when no string escapes a newline and no char literal holds
   one.
   */
  lemma LinesSurvive(s: string)
    ensures |s| <= |Mask(s)|
    ensures (forall k | 0 <= k < |s| :: s[k] == '\n' <==> Mask(s)[k] == '\n')
       <==> AllKeepLines(Lex(s, 0))
  {
    hide Lex, AllKeepLines, MaskFrom, CodeAt;
    MaskIsAligned(s);
    LinesKeptFrom(s, 0);
    assert s[0..] == s;
    forall k | 0 <= k < |s| ensures Mask(s)[k] == '\n' ==> s[k] == '\n' {
      assert Kept(s, 0, k, Mask(s)[k]);
    }
  }

  /** A string continued over a line end loses that line end. */
  lemma ContinuedStringLosesLine()
    ensures Mask("\"a\\\nb\"") == "      "
  {
    var s := "\"a\\\nb\"";
    var t := StrLit([Plain('a'), Esc('\n'), Plain('b')], Closed);
    assert SpellItems([Plain('b')]) == "b";
    assert SpellItems([Esc('\n'), Plain('b')]) == "\\\nb" by { assert [Esc('\n'), Plain('b')][1..] == [Plain('b')]; }
    assert SpellItems(t.items) == "a\\\nb" by { assert t.items[1..] == [Esc('\n'), Plain('b')]; }
    assert Stands(t, s, 0);
    assert [t][1..] == [];
    SpellingIsUnique([t], s, 0);
    assert BlankItems([Plain('b')]) == " ";
    assert BlankItems([Esc('\n'), Plain('b')]) == "   " by { assert [Esc('\n'), Plain('b')][1..] == [Plain('b')]; }
    assert BlankItems(t.items) == "    " by { assert t.items[1..] == [Esc('\n'), Plain('b')]; }
  }

  // ---------------------------------------------------------------------------------------------
  // Escapes in char literals
  // ---------------------------------------------------------------------------------------------

  /** The masker, started at `j`, comes to a token that starts at `i`. */
  predicate Reaches(s: string, j: nat, i: nat)
    decreases |s| - j
  {
    j == i || (j < |s| && Reaches(s, j + |Spell(First(s, j))|, i))
  }

  lemma {:induction false} MaskReaches(s: string, j: nat, i: nat)
    requires j <= |s| && i < |s| && Reaches(s, j, i)
    ensures j <= i && i - j <= |MaskFrom(s, j)| && MaskFrom(s, j)[i - j..] == MaskFrom(s, i)
    decreases |s| - j
  {
    hide First, Spell, Blank, BlankAll, Lex, Stands, MaskFrom;
    if j < i || i < j {
      var e := j + |Spell(First(s, j))|;
      MaskUnfold(s, j);
      MaskReaches(s, e, i);
      UnclosedIsLast(s, j);
    }
  }

  /** A digit of a numeric escape. */
  predicate EscapeDigit(c: char) {
    '0' <= c <= '9' || 'a' <= c <= 'f' || 'A' <= c <= 'F' || c == '_'
  }

  /** What may follow the backslash of a char literal: one character, `x` and digits, or `u{digits}`. */
  predicate CharEscape(body: string) {
    || |body| == 1
    || (1 < |body| && body[0] == 'x' && forall k | 1 <= k < |body| :: EscapeDigit(body[k]))
    || (3 < |body| && body[0] == 'u' && body[1] == '{' && body[|body| - 1] == '}'
        && forall k | 2 <= k < |body| - 1 :: EscapeDigit(body[k]))
  }

  lemma OnlyEscapedQuote(body: string)
    requires CharEscape(body)
    ensures body != "" && ('\'' in body <==> body == "'")
  {
  }

  /**
   A char literal whose escape stands between its quotes is read whole, and blanked to spaces, exactly
   when the escape is not the quote itself. The escaped quote is read one character short.
   */
  lemma EscapeReadWhole(s: string, i: nat, body: string)
    requires CharEscape(body) && Sits(s, i, Spell(CharEsc(body)))
    ensures First(s, i) == CharEsc(body) <==> body != "'"
    ensures body == "'" ==> First(s, i) == CharEsc("")
  {
    OnlyEscapedQuote(body);
    if body != "'" {
      FirstIs(CharEsc(body), s, i);
    } else {
      var t := CharEsc("");
      assert Spell(CharEsc(body)) == Spell(t) + "'";
      SitsParts(s, i, Spell(t), "'");
      FirstIs(t, s, i);
    }
  }

  /** A leftover quote: kept, unless it can open a char literal of its own. */
  predicate OpensChar(s: string, i: nat) {
    EscHead(s, i) || CharHead(s, i)
  }

  lemma QuoteLeft(s: string, i: nat)
    requires i < |s| && s[i] == '\''
    ensures |MaskFrom(s, i)| > 0 && (MaskFrom(s, i)[0] == '\'' <==> !OpensChar(s, i))
  {
    MaskUnfold(s, i);
    var t := First(s, i);
    assert t.CodeChar? <==> !OpensChar(s, i);
    BlankLength(t);
    if !t.CodeChar? { BlankFades(t, 0); }
  }

  /**
   What masking makes of a char literal with an escape: spaces over the whole of it, unless the escape is
   a quote. Then the literal's last quote is left over, and stays in the output exactly when it does not
   open another char literal with what follows.
   */
  lemma EscapeIsBlanked(s: string, i: nat, body: string)
    requires Reaches(s, 0, i) && CharEscape(body) && Sits(s, i, Spell(CharEsc(body)))
    ensures i + 3 < |Mask(s)|
    ensures body != "'" ==> Mask(s)[i..] == Spaces(3 + |body|) + MaskFrom(s, i + 3 + |body|)
    ensures body == "'" ==> Mask(s)[i..] == "   " + MaskFrom(s, i + 3)
    ensures body == "'" ==> (Mask(s)[i + 3] == '\'' <==> !OpensChar(s, i + 3))
  {
    hide Reaches, First, BlankAll, Lex, Stands, MaskFrom, OpensChar, CharEscape;
    EscapeReadWhole(s, i, body);
    MaskReaches(s, 0, i);
    MaskUnfold(s, i);
    if body == "'" {
      SitsChar(s, i, Spell(CharEsc(body)), 3);
      QuoteLeft(s, i + 3);
      assert Spaces(3) == "   ";
    } else {
      OnlyEscapedQuote(body);
    }
  }

  lemma {:induction false} NoQuoteNoClose(s: string, j: nat)
    requires j <= |s| && forall k | j <= k < |s| :: s[k] != '"'
    ensures StringTail(s, j).end != Closed
    decreases |s| - j
  {
    if j < |s| {
      if s[j] != '\\' {
        NoQuoteNoClose(s, j + 1);
      } else if j + 1 < |s| {
        NoQuoteNoClose(s, j + 2);
      }
    }
  }

  /** From an opening quote that nothing closes, only spaces and newlines come out. */
  lemma OpenStringBlanks(s: string, i: nat)
    requires i < |s| && s[i] == '"' && forall k | i < k < |s| :: s[k] != '"'
    ensures forall k | 0 <= k < |MaskFrom(s, i)| :: MaskFrom(s, i)[k] == ' ' || MaskFrom(s, i)[k] == '\n'
  {
    hide Spell, Blank, BlankAll, Lex, MaskFrom;
    var t := First(s, i);
    NoQuoteNoClose(s, i + 1);
    FirstStands(s, i);
    MaskUnfold(s, i);
    MaskEnd(s);
    forall k | 0 <= k < |MaskFrom(s, i)| ensures MaskFrom(s, i)[k] == ' ' || MaskFrom(s, i)[k] == '\n' {
      BlankFades(t, k);
    }
  }

  /**
   The leftover quote does harm: with a character and the char literal of a double quote after it, it
   pairs with the quote of that literal, and the double quote then opens a string. Everything up to the
   next double quote is blanked, code or not; with none, all the rest of the text is, as in
   `'\'','"'fn f(){}`.
   */
  lemma PhantomString(s: string, i: nat, c: char)
    requires Reaches(s, 0, i) && c != '\\' && Sits(s, i, "'\\''" + ([c] + "'\"'"))
    ensures First(s, i) == CharEsc("") && First(s, i + 3) == CharLit(c) && First(s, i + 6).StrLit?
    ensures (forall k | i + 6 < k < |s| :: s[k] != '"') ==>
              forall k | i <= k < |Mask(s)| :: Mask(s)[k] == ' ' || Mask(s)[k] == '\n'
  {
    hide Reaches, BlankAll, Lex, MaskFrom, First, Stands, Sits;
    EscapedQuoteSits(s, i, c);
    EscapeReadWhole(s, i, "'");
    EscapeIsBlanked(s, i, "'");
    PhantomPair(s, i, c);
    PairIsBlanked(s, i + 3, c);
    if forall k | i + 6 < k < |s| :: s[k] != '"' {
      OpenStringBlanks(s, i + 6);
    }
  }

  lemma EscapedQuoteSits(s: string, i: nat, c: char)
    requires Sits(s, i, "'\\''" + ([c] + "'\"'"))
    ensures i + 7 < |s| && Sits(s, i, Spell(CharEsc("'"))) && CharEscape("'")
  {
    SitsParts(s, i, "'\\''", [c] + "'\"'");
    assert "'\\''" == Spell(CharEsc("'"));
  }

  lemma PairIsBlanked(s: string, i: nat, c: char)
    requires i < |s| && First(s, i) == CharLit(c)
    ensures i + 3 <= |s| && MaskFrom(s, i) == "   " + MaskFrom(s, i + 3)
  {
    hide First, BlankAll, Lex, MaskFrom, Stands;
    MaskUnfold(s, i);
  }

  lemma PhantomPair(s: string, i: nat, c: char)
    requires c != '\\' && Sits(s, i, "'\\''" + ([c] + "'\"'"))
    ensures First(s, i + 3) == CharLit(c) && First(s, i + 6).StrLit? && s[i + 6] == '"'
  {
    var r := "'\\''" + ([c] + "'\"'");
    forall k: nat | k < 8 ensures s[i + k] == r[k] { SitsChar(s, i, r, k); }
    assert s[i + 3] == r[3] && s[i + 4] == r[4] && s[i + 5] == r[5] && s[i + 6] == r[6];
  }

  /** The defect at its smallest: the last quote of `'\''` survives. */
  lemma EscapedQuoteLeaks()
    ensures Mask("'\\''") == "   '"
  {
    hide First, BlankAll, Lex, MaskFrom, Stands;
    var s := "'\\''";
    assert s[0..4] == Spell(CharEsc("'"));
    EscapeIsBlanked(s, 0, "'");
    LastQuote(s, 3);
    assert Mask(s) == Mask(s)[0..];
  }

  lemma LastQuote(s: string, i: nat)
    requires i + 1 == |s| && s[i] == '\''
    ensures MaskFrom(s, i) == "'"
  {
    hide BlankAll, Lex, MaskFrom, Stands;
    MaskUnfold(s, i);
    MaskEnd(s);
  }
}
