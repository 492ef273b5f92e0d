/**
 `_strip_text` (tools/check_no_poison_expect.py), a second masker written apart from `mask_source`: its
 alignment on every text, and its agreement with the first on the texts both were written for.
 */
module StripText {
  import opened Strings
  import opened MaskTokens
  import opened MaskSource

  predicate IsHex(c: char) {
    '0' <= c <= '9' || 'a' <= c <= 'f' || 'A' <= c <= 'F'
  }

  lemma HexDigits(c: char)
    ensures IsHex(c) <==> c in "0123456789abcdefABCDEF"
  {
  }

  function HexRun(s: string, i: nat): (n: nat)
    requires i <= |s|
    ensures i + n <= |s| && forall k | i <= k < i + n :: IsHex(s[k])
    ensures i + n < |s| ==> !IsHex(s[i + n])
    decreases |s| - i
  {
    if i < |s| && IsHex(s[i]) then 1 + HexRun(s, i + 1) else 0
  }

  predicate HexLit(s: string, i: nat) {
    && i + 4 <= |s| && s[i] == '\'' && s[i + 1] == '\\' && s[i + 2] == 'u' && s[i + 3] == '{'
    && var n := HexRun(s, i + 4);
    1 <= n && At(s, i + 4 + n, '}', '\'')
  }

  /** Width of the char literal the pattern matches at `i`, or 0. */
  function LitWidth(s: string, i: nat): (w: nat)
    ensures 0 < w ==> i + w <= |s|
  {
    if HexLit(s, i) then 6 + HexRun(s, i + 4)
    else if i + 3 < |s| && s[i] == '\'' && s[i + 1] == '\\' && s[i + 2] != '\n' && s[i + 3] == '\'' then 4
    else if i + 2 < |s| && s[i] == '\'' && s[i + 1] != '\'' && s[i + 1] != '\\' && s[i + 2] == '\'' then 3
    else 0
  }

  /** What the stripper puts out for the piece of text that starts at `i`. */
  function Piece(s: string, i: nat): string
    requires i < |s|
  {
    if At(s, i, '/', '/') then Spaces(Find(s, "\n", i) - i)
    else if At(s, i, '/', '*') then BlankText(s[i..Find(s, "*/", i)]) + "  "
    else if s[i] == '"' then Blank(StrToken(s, i))
    else if LitWidth(s, i) > 0 then Spaces(LitWidth(s, i))
    else [s[i]]
  }

  lemma PieceAdvances(s: string, i: nat)
    requires i < |s|
    ensures 0 < |Piece(s, i)| && i + |Piece(s, i)| <= |s| + 2
  {
    if At(s, i, '/', '/') {
      assert s[i..i + 1] == "/";
      assert !Sits(s, i, "\n");
    } else if s[i] == '"' {
      StrStands(s, i);
      BlankLength(StrToken(s, i));
    }
  }

  function StripFrom(s: string, i: nat): string
    decreases |s| - i
  {
    if i >= |s| then ""
    else
      PieceAdvances(s, i);
      Piece(s, i) + StripFrom(s, i + |Piece(s, i)|)
  }

  method StripBlock(text: string, i: nat) returns (out: string)
    requires At(text, i, '/', '*')
    ensures out == BlankText(text[i..Find(text, "*/", i)]) + "  "
  {
    out := "";
    var j := i;
    while j < |text| && !(text[j] == '*' && j + 1 < |text| && text[j + 1] == '/')
      invariant i <= j <= |text| && out == BlankText(text[i..j])
      invariant forall k | i <= k < j :: !Sits(text, k, "*/")
    {
      assert !Sits(text, j, "*/");
      assert text[i..j + 1] == text[i..j] + [text[j]];
      out := out + if text[j] == '\n' then "\n" else " ";
      j := j + 1;
    }
    if j < |text| { assert text[j..j + 2] == "*/"; }
    FindIs(text, "*/", i, j);
    out := out + "  ";
  }

  method StripOne(text: string, i: nat) returns (out: string)
    requires i < |text|
    ensures out == Piece(text, i)
  {
    if At(text, i, '/', '/') {
      out := "";
      var j := i;
      while j < |text| && text[j] != '\n'
        invariant i <= j <= |text| && out == Spaces(j - i)
        invariant forall k | i <= k < j :: text[k] != '\n'
      {
        out := out + " ";
        j := j + 1;
      }
      FindCharIs(text, '\n', i, j);
    } else if At(text, i, '/', '*') {
      out := StripBlock(text, i);
    } else if text[i] == '"' {
      out := MaskString(text, i);
    } else if text[i] == '\'' {
      var w := LitWidth(text, i);
      out := if w > 0 then Spaces(w) else "'";
    } else {
      out := [text[i]];
    }
  }

  method Strip(text: string) returns (out: string)
    ensures out == StripFrom(text, 0)
  {
    hide Piece;
    out := "";
    var i := 0;
    while i < |text|
      invariant |out| == i <= |text| + 2
      invariant out + StripFrom(text, i) == StripFrom(text, 0)
      decreases |text| + 2 - i
    {
      var piece := StripOne(text, i);
      PieceAdvances(text, i);
      out := out + piece;
      i := i + |piece|;
    }
  }

  // ---------------------------------------------------------------------------------------------
  // Alignment on every text
  // ---------------------------------------------------------------------------------------------

  /** A character of the stripped text: a space, or the original in its place. */
  predicate Kept(s: string, k: nat, c: char) {
    c == ' ' || (k < |s| && c == s[k])
  }

  lemma PieceKept(s: string, i: nat, k: nat)
    requires i < |s| && k < |Piece(s, i)|
    ensures Kept(s, i + k, Piece(s, i)[k])
  {
    if s[i] == '"' {
      StrStands(s, i);
      var t := StrToken(s, i);
      BlankFades(t, k);
      hide Spell, Blank;
      if k < |Spell(t)| { SitsChar(s, i, Spell(t), k); }
    }
  }

  /** Stripping keeps offsets: at most two characters longer, and every position a space or the original. */
  lemma {:induction false} StripIsAligned(s: string, i: nat, k: nat)
    requires i <= |s| + 2
    ensures |s| <= i + |StripFrom(s, i)| <= |s| + 2
    ensures i <= k < i + |StripFrom(s, i)| ==> Kept(s, k, StripFrom(s, i)[k - i])
    decreases |s| - i
  {
    hide Piece;
    if i < |s| {
      PieceAdvances(s, i);
      StripIsAligned(s, i + |Piece(s, i)|, k);
      if i <= k < i + |Piece(s, i)| { PieceKept(s, i, k - i); }
    }
  }

  // ---------------------------------------------------------------------------------------------
  // Agreement with mask_source
  // ---------------------------------------------------------------------------------------------

  /** A token both maskers were written for. */
  predicate Tame(t: Token) {
    match t
    case RawText(_, _, _) => false
    case BlockNote(body, _) => body == "" || body[0] != '/'
    case CharLit(c) => c != '\''
    case CharEsc(body) =>
      || (|body| == 1 && body[0] != '\n')
      || (4 <= |body| && body[..2] == "u{" && body[|body| - 1] == '}'
          && forall k | 2 <= k < |body| - 1 :: IsHex(body[k]))
    case _ => true
  }

  predicate AllTame(toks: seq<Token>) {
    forall k | 0 <= k < |toks| :: Tame(toks[k])
  }

  lemma LinePiece(s: string, i: nat)
    requires At(s, i, '/', '/')
    ensures Piece(s, i) == Blank(LineToken(s, i))
  {
    FindChar(s, '\n', i + 2);
    FindCharIs(s, '\n', i, Find(s, "\n", i + 2));
  }

  lemma BlockPiece(s: string, i: nat)
    requires At(s, i, '/', '*') && Tame(BlockToken(s, i))
    ensures Piece(s, i) == Blank(BlockToken(s, i))
  {
    hide Find;
    var e := Find(s, "*/", i + 2);
    if e < |s| { SitsChar(s, e, "*/", 0); }
    SameCloser(s, i);
    BlankJoin(s, i, i + 2, e);
    assert BlankText(s[i..i + 2]) == "  ";
    assert ("  " + BlankText(s[i + 2..e])) + "  " == "  " + (BlankText(s[i + 2..e]) + "  ");
  }

  lemma SameCloser(s: string, i: nat)
    requires At(s, i, '/', '*') && (i + 2 < |s| ==> s[i + 2] != '/')
    ensures Find(s, "*/", i) == Find(s, "*/", i + 2)
  {
    assert s[i..i + 2] == "/*";
    assert "/*"[0] != "*/"[0];
    if i + 3 <= |s| { assert s[i + 1..i + 3][1] == s[i + 2]; }
    FindIs(s, "*/", i, Find(s, "*/", i + 2));
  }

  /** A quote that starts no literal for the first masker starts none for the second. */
  lemma PlainQuote(s: string, i: nat)
    requires i < |s| && PlainAt(s, i)
    ensures LitWidth(s, i) == 0
  {
    if At(s, i, '\'', '\\') { FindChar(s, '\'', i + 2); }
  }

  lemma CharPiece(s: string, i: nat)
    requires i < |s| && (EscHead(s, i) || CharHead(s, i)) && Tame(CharToken(s, i))
    ensures LitWidth(s, i) == |Spell(CharToken(s, i))|
  {
    if EscHead(s, i) {
      FindChar(s, '\'', i + 2);
    }
  }

  lemma PieceIsBlank(s: string, i: nat)
    requires i < |s| && Tame(First(s, i))
    ensures Piece(s, i) == Blank(First(s, i))
  {
    if At(s, i, '/', '/') {
      LinePiece(s, i);
    } else if At(s, i, '/', '*') {
      BlockPiece(s, i);
    } else if EscHead(s, i) || CharHead(s, i) {
      CharPiece(s, i);
    } else if PlainAt(s, i) {
      PlainQuote(s, i);
    }
  }

  lemma TameTail(s: string, i: nat)
    requires i < |s| && AllTame(Lex(s, i)) && i + |Spell(First(s, i))| <= |s|
    ensures Tame(First(s, i)) && AllTame(Lex(s, i + |Spell(First(s, i))|))
  {
    hide First, Spell, Tame;
    var e := i + |Spell(First(s, i))|;
    assert Lex(s, i) == [First(s, i)] + Lex(s, e);
    assert Tame(Lex(s, i)[0]);
    assert forall k | 0 <= k < |Lex(s, e)| :: Lex(s, e)[k] == Lex(s, i)[k + 1];
  }

  /** On a text of tame tokens the two maskers, written apart, produce the same text. */
  lemma {:induction false} MaskersAgree(s: string, i: nat)
    requires i <= |s| && AllTame(Lex(s, i))
    ensures StripFrom(s, i) == MaskFrom(s, i)
    decreases |s| - i
  {
    hide First, Blank, Spell, Piece, AllTame, BlankAll, MaskFrom, Lex;
    MaskEnd(s);
    if i < |s| {
      MaskUnfold(s, i);
      UnclosedIsLast(s, i);
      TameTail(s, i);
      PieceIsBlank(s, i);
      PieceAdvances(s, i);
      MaskersAgree(s, i + |Spell(First(s, i))|);
    }
  }

  /** A token at which the maskers cannot part company and still put out the same text. */
  predicate Telling(t: Token) {
    (t.BlockNote? ==> t.body == "" || t.body[0] != '/') && t != CharEsc("")
  }

  predicate AllTelling(toks: seq<Token>) {
    forall k | 0 <= k < |toks| :: Telling(toks[k])
  }

  /** A literal the second masker reads as one starts with a tame token of the first. */
  lemma LiteralIsTame(s: string, i: nat)
    requires EscHead(s, i)
    ensures LitWidth(s, i) > 0 ==> Tame(CharToken(s, i)) || CharToken(s, i) == CharEsc("")
  {
    FindChar(s, '\'', i + 2);
    if HexLit(s, i) {
      var n := HexRun(s, i + 4);
      FindCharIs(s, '\'', i + 2, i + 5 + n);
      var body := s[i + 2..i + 5 + n];
      assert body[..2] == "u{";
      assert forall k | 2 <= k < |body| - 1 :: body[k] == s[i + 2 + k];
    } else if LitWidth(s, i) > 0 {
      var e := Find(s, "'", i + 2);
      assert e <= i + 3;
    }
  }

  lemma UntameChar(s: string, i: nat)
    requires i < |s| && (EscHead(s, i) || CharHead(s, i)) && !Tame(CharToken(s, i)) && Telling(CharToken(s, i))
    ensures LitWidth(s, i) == 0
  {
    if EscHead(s, i) {
      hide LitWidth, Tame, CharToken;
      LiteralIsTame(s, i);
    }
  }

  /** Where they part, the second masker keeps a character that the first one blanks. */
  lemma UntameShows(s: string, i: nat)
    requires i < |s| && !Tame(First(s, i)) && Telling(First(s, i))
    ensures Piece(s, i) == [s[i]] && s[i] != ' ' && |Blank(First(s, i))| > 0 && Blank(First(s, i))[0] == ' '
  {
    BlankLength(First(s, i));
    BlankFades(First(s, i), 0);
    if !RawHead(s, i) { UntameChar(s, i); }
  }

  /**
   The token condition is exact, unless a comment body starts with a slash or a char literal is an escaped
   quote: the maskers produce the same text from `i` on exactly when every token is tame.
   */
  lemma {:induction false} MaskersAgreeExactly(s: string, i: nat)
    requires i <= |s| && AllTelling(Lex(s, i))
    ensures StripFrom(s, i) == MaskFrom(s, i) <==> AllTame(Lex(s, i))
    decreases |s| - i
  {
    hide First, Blank, Spell, Piece, BlankAll, MaskFrom, Tame, Telling;
    if i < |s| {
      MaskUnfold(s, i);
      UnclosedIsLast(s, i);
      PieceAdvances(s, i);
      var t := First(s, i);
      var e := i + |Spell(t)|;
      LexCons(s, i);
      assert Telling(t) by { assert Telling(Lex(s, i)[0]); }
      if Tame(t) {
        assert AllTelling(Lex(s, e)) by { TellingTail(t, Lex(s, e)); }
        MaskersAgreeExactly(s, e);
        PieceIsBlank(s, i);
        TameCons(t, Lex(s, e));
        SameHead(s, i);
      } else {
        UntameShows(s, i);
        assert !Tame(Lex(s, i)[0]);
        assert StripFrom(s, i)[0] == s[i] && MaskFrom(s, i)[0] == ' ';
      }
    } else {
      MaskEnd(s);
    }
  }

  lemma TameCons(t: Token, rest: seq<Token>)
    ensures AllTame([t] + rest) <==> Tame(t) && AllTame(rest)
  {
    hide Tame;
    var toks := [t] + rest;
    if AllTame(toks) {
      assert Tame(toks[0]);
      forall k | 0 <= k < |rest| ensures Tame(rest[k]) { assert Tame(toks[k + 1]); }
    }
  }

  lemma TellingTail(t: Token, rest: seq<Token>)
    requires AllTelling([t] + rest)
    ensures AllTelling(rest)
  {
    hide Telling;
    forall k | 0 <= k < |rest| ensures Telling(rest[k]) { assert Telling(([t] + rest)[k + 1]); }
  }

  /** After a token both maskers blank alike, they agree exactly when they agree on what follows. */
  lemma SameHead(s: string, i: nat)
    requires i < |s| && Piece(s, i) == Blank(First(s, i))
    ensures var e := i + |Spell(First(s, i))|;
            e <= |s| && (StripFrom(s, i) == MaskFrom(s, i) <==> StripFrom(s, e) == MaskFrom(s, e))
  {
    hide First, Blank, Spell, Piece, BlankAll, MaskFrom, Lex, Stands;
    MaskUnfold(s, i);
    UnclosedIsLast(s, i);
    PieceAdvances(s, i);
    MaskEnd(s);
    var e, p := i + |Spell(First(s, i))|, Piece(s, i);
    var x, y := StripFrom(s, i + |p|), MaskFrom(s, e);
    assert StripFrom(s, i) == p + x && MaskFrom(s, i) == p + y;
    if p + x == p + y { assert (p + x)[|p|..] == x && (p + y)[|p|..] == y; }
    assert x == StripFrom(s, e);
  }

  /** A comment whose body starts with a slash is read differently, and can still come out the same. */
  lemma UnlikeTokensBlankAlike()
    ensures var s := "/*///*/"; StripFrom(s, 0) == Mask(s) && !AllTame(Lex(s, 0))
  {
    hide First, Spell, Blank, BlankAll, Lex, StripFrom;
    var s := "/*///*/";
    FarApart(s);
    SlashComment(s);
    MaskUnfold(s, 0);
    MaskEnd(s);
    LexCons(s, 0);
    assert !Tame(Lex(s, 0)[0]);
  }

  /** So can a char literal that is an escaped quote. */
  lemma EscapedQuoteBlanksAlike()
    ensures var s := "'\\''\"' //\""; StripFrom(s, 0) == Mask(s) && !AllTame(Lex(s, 0))
  {
    hide First, Spell, Blank, BlankAll, Lex, StripFrom, Piece, MaskFrom;
    var s := "'\\''\"' //\"";
    QuoteTokens(s);
    MaskUnfold(s, 0);
    MaskUnfold(s, 3);
    MaskUnfold(s, 6);
    MaskUnfold(s, 7);
    MaskEnd(s);
    LexCons(s, 0);
    assert !Tame(Lex(s, 0)[0]);
    QuotePieces(s);
  }

  lemma QuoteTokens(s: string)
    requires s == "'\\''\"' //\""
    ensures First(s, 0) == CharEsc("") && First(s, 3) == CharLit('"') && First(s, 6) == CodeChar(' ')
    ensures First(s, 7) == LineNote("\"")
    ensures var t := [First(s, 0), First(s, 3), First(s, 6), First(s, 7)];
            && |Spell(t[0])| == 3 && |Spell(t[1])| == 3 && |Spell(t[2])| == 1 && |Spell(t[3])| == 3
            && Blank(t[0]) == "   " && Blank(t[1]) == "   " && Blank(t[2]) == " " && Blank(t[3]) == "   "
  {
    FindCharIs(s, '\'', 2, 2);
    FindCharIs(s, '\n', 9, 10);
    assert s[9..10] == "\"";
  }

  lemma QuotePieces(s: string)
    requires s == "'\\''\"' //\""
    ensures StripFrom(s, 0) == "          "
  {
    hide Rest, StrToken;
    RestStart(s, 4);
    RestStep(s, 5);
    RestStep(s, 6);
    RestStep(s, 7);
    RestStep(s, 8);
    RestEnd(s, 9);
    assert Piece(s, 0) == "    ";
    assert Piece(s, 4) == "      ";
    assert StripFrom(s, 10) == "" && StripFrom(s, 4) == Piece(s, 4) + "";
  }

  lemma SlashComment(s: string)
    requires s == "/*///*/"
    ensures var t := First(s, 0); t.BlockNote? && !Tame(t) && |Spell(t)| == 7 && Blank(t) == Spaces(7)
  {
    assert s[5..7] == "*/";
    forall j | 2 <= j < 5 ensures !Sits(s, j, "*/") { assert s[j..j + 2][0] == s[j]; }
    FindIs(s, "*/", 2, 5);
    assert First(s, 0) == BlockNote(s[2..5], true) && s[2..5] == "///";
  }

  lemma FarApart(s: string)
    requires s == "/*///*/"
    ensures StripFrom(s, 0) == Spaces(7)
  {
    assert s[0..2][0] == '/' && s[1..3] == "*/";
    FindIs(s, "*/", 0, 1);
    assert Piece(s, 0) == "   ";
    forall j | 3 <= j < 7 ensures s[j] != '\n' { }
    FindCharIs(s, '\n', 3, 7);
    assert Piece(s, 3) == Spaces(4);
    assert StripFrom(s, 7) == "";
    assert StripFrom(s, 3) == Spaces(4) + "";
  }

  /** So every brace the region finder matches is a brace of the code, at its own offset. */
  lemma BracesAreCode(s: string, k: nat)
    requires AllTame(Lex(s, 0)) && k < |StripFrom(s, 0)| && StripFrom(s, 0)[k] in "{}"
    ensures k < |s| && s[k] == StripFrom(s, 0)[k] && CodeAt(s, 0, k)
  {
    MaskersAgree(s, 0);
    MaskIsAligned(s);
    hide MaskFrom, Lex, CodeAt, StripFrom;
    assert MaskSource.Kept(s, 0, k, Mask(s)[k]);
  }
}
