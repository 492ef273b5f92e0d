/**
 The batch-first check (tools/check_batch_first.py): reading the error type and the batch parameter out of
 a printed WIT signature.
 */
module BatchFirst {
  import opened Wrappers
  import opened Strings
  import opened WitTypes

  const ARROW := "-> result<"

  function StripLeft(s: string): string {
    if s != "" && IsSpace(s[0]) then StripLeft(s[1..]) else s
  }

  function StripRight(s: string): string {
    if s != "" && IsSpace(s[|s| - 1]) then StripRight(s[..|s| - 1]) else s
  }

  function Strip(s: string): string {
    StripRight(StripLeft(s))
  }

  // ---------------------------------------------------------------------------------------------
  // error_type
  // ---------------------------------------------------------------------------------------------

  /** The error half of the text between the brackets of `result<...>`. */
  function ErrorHalf(inside: string): Option<string> {
    var j := TopComma(inside, 0, 0);
    if j == |inside| then None else Some(Strip(inside[j + 1..]))
  }

  function ErrorTypeOf(decl: string): Option<string> {
    var at := Find(decl, ARROW, 0);
    if at == |decl| then None
    else
      var inner := decl[at + |ARROW|..];
      var e := MatchClose(inner, 0, 1);
      if e == |inner| then None else ErrorHalf(inner[..e])
  }

  method CloseOf(inner: string) returns (e: nat)
    ensures e == MatchClose(inner, 0, 1)
  {
    var depth := 1;
    for i := 0 to |inner|
      invariant 1 <= depth && MatchClose(inner, i, depth) == MatchClose(inner, 0, 1)
    {
      if inner[i] == '<' {
        depth := depth + 1;
      } else if inner[i] == '>' {
        depth := depth - 1;
        if depth == 0 { return i; }
      }
    }
    return |inner|;
  }

  /** A declaration that returns no `result<...>` has no error type. */
  lemma NoResultNoErrorType(decl: string)
    requires forall k: nat | k < |decl| :: !Sits(decl, k, ARROW)
    ensures ErrorTypeOf(decl) == None
  {
    assert Find(decl, ARROW, 0) == |decl|;
  }

  method ErrorType(decl: string) returns (r: Option<string>)
    ensures r == ErrorTypeOf(decl)
  {
    var at := Find(decl, ARROW, 0);
    if at == |decl| {
      return None;
    }
    var inner := decl[at + |ARROW|..];
    var e := CloseOf(inner);
    if e == |inner| {
      return None;
    }
    var inside := inner[..e];
    var d := 0;
    for j := 0 to |inside|
      invariant TopComma(inside, j, d) == TopComma(inside, 0, 0)
    {
      if inside[j] == '<' {
        d := d + 1;
      } else if inside[j] == '>' {
        d := d - 1;
      } else if inside[j] == ',' && d == 0 {
        return Some(Strip(inside[j + 1..]));
      }
    }
    return None;
  }

  lemma StripsToType(t: Ty)
    requires Named(t)
    ensures Strip(" " + Show(t)) == Show(t) && Strip(Show(t)) == Show(t)
  {
    assert (" " + Show(t))[1..] == Show(t);
    assert StripLeft(" " + Show(t)) == StripLeft(Show(t));
  }

  /** No arrow of its own in what comes before the result type. */
  predicate NoArrowIn(pre: string) {
    Find(pre + ARROW, ARROW, 0) == |pre|
  }

  lemma FirstArrow(pre: string, rest: string)
    requires NoArrowIn(pre)
    ensures Find(pre + ARROW + rest, ARROW, 0) == |pre|
  {
    var decl := pre + ARROW + rest;
    assert decl[|pre|..|pre| + |ARROW|] == ARROW;
    forall j | 0 <= j < |pre| ensures !Sits(decl, j, ARROW) {
      assert !Sits(pre + ARROW, j, ARROW);
      assert decl[j..j + |ARROW|] == (pre + ARROW)[j..j + |ARROW|];
    }
    FindIs(decl, ARROW, 0, |pre|);
  }

  /** What is read between the brackets of `result<...>` is what was printed there. */
  lemma InsideIsPrinted(ts: seq<Ty>, post: string)
    requires AllNamed(ts)
    ensures var inner := ShowArgs(ts) + ">" + post;
            MatchClose(inner, 0, 1) == |ShowArgs(ts)| < |inner| && inner[..|ShowArgs(ts)|] == ShowArgs(ts)
  {
    var inner := ShowArgs(ts) + ">" + post;
    assert Sits(inner, 0, ShowArgs(ts));
    ArgsPassed(inner, 0, ts, 1);
    assert inner[|ShowArgs(ts)|] == '>';
  }

  lemma ShowTwo(ok: Ty, err: Ty)
    ensures ShowArgs([ok, err]) == Show(ok) + (", " + Show(err)) && ShowArgs([ok]) == Show(ok)
  {
    assert [ok, err][1..] == [err];
  }

  lemma ErrorHalfIs(ok: Ty, err: Ty)
    requires Named(ok) && Named(err)
    ensures ErrorHalf(ShowArgs([ok, err])) == Some(Show(err))
    ensures ErrorHalf(ShowArgs([ok])) == None
  {
    hide Strip, Show, ShowArgs, Named;
    var inside := Show(ok) + (", " + Show(err));
    ShowTwo(ok, err);
    TypePassed(inside, 0, ok, 0);
    var j := |Show(ok)|;
    assert inside[j] == ',';
    assert inside[j + 1..] == " " + Show(err);
    StripsToType(err);
    TypePassed(Show(ok), 0, ok, 0);
  }

  lemma ReadResult(pre: string, ts: seq<Ty>, post: string)
    requires AllNamed(ts) && NoArrowIn(pre)
    ensures ErrorTypeOf(pre + ARROW + (ShowArgs(ts) + ">" + post)) == ErrorHalf(ShowArgs(ts))
  {
    var inner := ShowArgs(ts) + ">" + post;
    FirstArrow(pre, inner);
    var decl := pre + ARROW + inner;
    assert decl[|pre| + |ARROW|..] == inner;
    InsideIsPrinted(ts, post);
  }

  lemma ResultText(pre: string, ts: seq<Ty>, post: string)
    requires ts != []
    ensures pre + "-> " + Show(Ty("result", ts)) + post == pre + ARROW + (ShowArgs(ts) + ">" + post)
  {
  }

  /** Reading the error type of a printed signature gives back the printed error type. */
  lemma ErrorTypeInvertsShow(pre: string, ok: Ty, err: Ty, post: string)
    requires Named(ok) && Named(err) && NoArrowIn(pre)
    ensures ErrorTypeOf(pre + "-> " + Show(Ty("result", [ok, err])) + post) == Some(Show(err))
    ensures ErrorTypeOf(pre + "-> " + Show(Ty("result", [ok])) + post) == None
  {
    hide Show, ShowArgs, ErrorTypeOf, ErrorHalf, NoArrowIn;
    ErrorHalfIs(ok, err);
    ReadResult(pre, [ok, err], post);
    ResultText(pre, [ok, err], post);
    ReadResult(pre, [ok], post);
    ResultText(pre, [ok], post);
  }

  // ---------------------------------------------------------------------------------------------
  // takes_a_collection
  // ---------------------------------------------------------------------------------------------

  /** The element types the check takes for those of a buffer. */
  predicate IsScalar(x: string) {
    || x == "u8" || x == "u16" || x == "u32" || x == "u64" || x == "s32"
    || x == "s64" || x == "f32" || x == "f64" || x == "bool" || x == "char"
  }

  function LastParen(s: string): (r: int)
    ensures -1 <= r < |s| && (r >= 0 ==> s[r] == ')') && forall k | r < k < |s| :: s[k] != ')'
  {
    if s == "" then -1 else if s[|s| - 1] == ')' then |s| - 1 else LastParen(s[..|s| - 1])
  }

  /** The text between the first `(` and the last `)`; a missing `)` cuts off the last character. */
  function Params(decl: string): string {
    var a := Find(decl, "(", 0) + 1;
    var b := if LastParen(decl) < 0 then |decl| - 1 else LastParen(decl);
    if a <= b then decl[a..b] else ""
  }

  /** Where the parameters are read: from the first `(` to the last `)`, or to the last character without one. */
  lemma ParamsAre(decl: string, a: nat, b: nat)
    requires a < |decl| && decl[a] == '(' && '(' !in decl[..a]
    requires b < |decl| && ')' !in decl[b + 1..] && (decl[b] == ')' || (')' !in decl && b == |decl| - 1))
    ensures Params(decl) == if a < b then decl[a + 1..b] else ""
  {
    forall j | 0 <= j < a ensures !Sits(decl, j, "(") { assert decl[j..j + 1] == [decl[..a][j]]; }
    assert decl[a..a + 1] == "(";
    FindIs(decl, "(", 0, a);
    assert forall j | b < j < |decl| :: decl[j] == decl[b + 1..][j - b - 1];
  }

  /** The element text of the list whose bracket opens just before `i`. */
  function Element(params: string, i: nat): Option<string>
    requires i <= |params|
  {
    var e := MatchClose(params, i, 1);
    if e == |params| then None else Some(Strip(params[i..e]))
  }

  predicate BatchAt(params: string, k: nat) {
    Sits(params, k, "list<") && Element(params, k + 5).Some? && !IsScalar(Element(params, k + 5).value)
  }

  /** The signature streams, or lists something that is no scalar. */
  predicate Collects(params: string) {
    || (exists k | 0 <= k <= |params| :: Sits(params, k, "stream<"))
    || (exists k | 0 <= k <= |params| :: BatchAt(params, k))
  }

  lemma {:induction false} CloseShifts(s: string, i: nat, k: nat, d: nat)
    requires i <= k <= |s| && 1 <= d
    ensures MatchClose(s, k, d) == i + MatchClose(s[i..], k - i, d)
    decreases |s| - k
  {
    if k < |s| {
      assert s[i..][k - i] == s[k];
      var c := s[k];
      if c == '<' { CloseShifts(s, i, k + 1, d + 1); }
      else if c == '>' { if d > 1 { CloseShifts(s, i, k + 1, d - 1); } }
      else { CloseShifts(s, i, k + 1, d); }
    }
  }

  lemma ListsDoNotOverlap(s: string, k: nat, j: nat)
    requires Sits(s, k, "list<") && k < j < k + 5
    ensures !Sits(s, j, "list<")
  {
    if Sits(s, j, "list<") {
      SitsChar(s, j, "list<", 0);
      SitsChar(s, k, "list<", j - k);
    }
  }

  method TakesACollection(decl: string) returns (ok: bool)
    ensures ok <==> '(' in decl && Collects(Params(decl))
  {
    hide Params, IsScalar, Strip, MatchClose;
    if '(' !in decl {
      return false;
    }
    var params := Params(decl);
    if Find(params, "stream<", 0) < |params| {
      assert Sits(params, Find(params, "stream<", 0), "stream<");
      return true;
    }
    var k := Find(params, "list<", 0);
    while k < |params|
      invariant k <= |params| && (k < |params| ==> Sits(params, k, "list<"))
      invariant forall j | 0 <= j < k :: !BatchAt(params, j)
      invariant k == |params| ==> !BatchAt(params, k)
    {
      var inner := params[k + 5..];
      CloseShifts(params, k + 5, k + 5, 1);
      var e := CloseOf(inner);
      if e < |inner| {
        var element := Strip(inner[..e]);
        assert inner[..e] == params[k + 5..k + 5 + e];
        if !IsScalar(element) {
          assert BatchAt(params, k);
          return true;
        }
      }
      var next := Find(params, "list<", k + 5);
      forall j | k <= j < next ensures !BatchAt(params, j) {
        if k < j < k + 5 { ListsDoNotOverlap(params, k, j); }
      }
      k := next;
    }
    assert !BatchAt(params, |params|);
    return false;
  }

  datatype Param = Param(name: string, ty: Ty)

  predicate ParamNamed(p: Param) {
    IsName(p.name) && Named(p.ty)
  }

  function ShowParam(p: Param): string {
    (p.name + ": ") + Show(p.ty)
  }

  function ShowParams(ps: seq<Param>): string {
    if ps == [] then "" else if |ps| == 1 then ShowParam(ps[0]) else ShowParam(ps[0]) + (", " + ShowParams(ps[1..]))
  }

  predicate EndsWith(id: string, tail: string) {
    |tail| <= |id| && id[|id| - |tail|..] == tail
  }

  /** What the check takes for a batch: a name ending in `stream`, or in `list` over no element of that set. */
  predicate Batches(u: Ty) {
    && u.args != []
    && (|| EndsWith(u.id, "stream")
        || (EndsWith(u.id, "list") && !(|u.args| == 1 && u.args[0].args == [] && IsScalar(u.args[0].id))))
  }

  /** Some type at any depth of some parameter batches. */
  predicate HasBatch(ps: seq<Param>, u: Ty) {
    Batches(u) && exists k | 0 <= k < |ps| :: Within(u, ps[k].ty)
  }

  lemma TagPieces(s: string, i: nat, p: Param)
    requires Sits(s, i, ShowParam(p)) && ParamNamed(p)
    ensures var j := i + |p.name| + 2;
            && Sits(s, j, Show(p.ty)) && LeftEdge(s, j) && |ShowParam(p)| == |p.name| + 2 + |Show(p.ty)|
            && (forall k | i <= k < j :: s[k] != '<')
  {
    hide Show, Named;
    var tag := p.name + ": ";
    SitsParts(s, i, tag, Show(p.ty));
    forall k | i <= k < i + |tag| ensures s[k] != '<' {
      SitsChar(s, i, tag, k - i);
      if k - i < |p.name| { assert tag[k - i] == p.name[k - i]; }
    }
    SitsChar(s, i, tag, |tag| - 1);
  }

  lemma ParamRest(s: string, i: nat, ps: seq<Param>)
    requires ps != [] && Sits(s, i, ShowParams(ps))
    ensures var e := i + |ShowParam(ps[0])|;
            && Sits(s, i, ShowParam(ps[0]))
            && (|ps| == 1 ==> e == i + |ShowParams(ps)|)
            && (|ps| > 1 ==> Sits(s, e, ", ") && Sits(s, e + 2, ShowParams(ps[1..]))
                             && e + 2 + |ShowParams(ps[1..])| == i + |ShowParams(ps)|)
  {
    hide ShowParam;
    if |ps| > 1 {
      SitsParts(s, i, ShowParam(ps[0]), ", " + ShowParams(ps[1..]));
      SitsParts(s, i + |ShowParam(ps[0])|, ", ", ShowParams(ps[1..]));
    }
  }

  lemma ParamPieces(s: string, i: nat, ps: seq<Param>)
    requires ps != [] && Sits(s, i, ShowParams(ps)) && ParamNamed(ps[0])
    ensures var j := i + |ps[0].name| + 2; var e := i + |ShowParam(ps[0])|;
            && Sits(s, j, Show(ps[0].ty)) && LeftEdge(s, j) && e == j + |Show(ps[0].ty)|
            && (forall k | i <= k < j :: s[k] != '<')
            && (|ps| == 1 ==> e == i + |ShowParams(ps)|)
            && (|ps| > 1 ==> Sits(s, e, ", ") && Sits(s, e + 2, ShowParams(ps[1..]))
                             && e + 2 + |ShowParams(ps[1..])| == i + |ShowParams(ps)|)
  {
    hide Show, ShowParam, ShowParams, ParamNamed;
    ParamRest(s, i, ps);
    TagPieces(s, i, ps[0]);
  }

  /** Each `<` of a printed parameter list belongs to an application in one of its types. */
  lemma {:induction false} BracketInParams(s: string, i: nat, ps: seq<Param>, q: nat)
    requires Sits(s, i, ShowParams(ps)) && (forall p | p in ps :: ParamNamed(p))
    requires i <= q < i + |ShowParams(ps)| && s[q] == '<'
    ensures exists k, u, j :: 0 <= k < |ps| && OpensAt(s, q, u, j) && Within(u, ps[k].ty)
    decreases |ps|
  {
    hide Show, ShowParam, Named, Within, OpensAt;
    ParamPieces(s, i, ps);
    var e := i + |ShowParam(ps[0])|;
    if q < e {
      BracketIsApplication(s, i + |ps[0].name| + 2, ps[0].ty, q);
    } else {
      SitsChar(s, e, ", ", 0);
      SitsChar(s, e, ", ", 1);
      BracketInParams(s, e + 2, ps[1..], q);
      var k, u, j :| 0 <= k < |ps[1..]| && OpensAt(s, q, u, j) && Within(u, ps[1..][k].ty);
      assert Within(u, ps[k + 1].ty);
    }
  }

  lemma {:induction false} WithinParams(s: string, i: nat, ps: seq<Param>, k: nat, u: Ty)
    requires Sits(s, i, ShowParams(ps)) && (forall p | p in ps :: ParamNamed(p)) && k < |ps| && Within(u, ps[k].ty)
    ensures exists j :: PrintedAt(s, j, u)
    decreases |ps|
  {
    hide Show, ShowParam, Named, Within;
    ParamPieces(s, i, ps);
    if k == 0 {
      WithinIsPrinted(s, i + |ps[0].name| + 2, ps[0].ty, u);
    } else {
      WithinParams(s, i + |ShowParam(ps[0])| + 2, ps[1..], k - 1, u);
    }
  }

  /** A word before a `<` ends the name printed there: names have an edge on their left. */
  lemma WordEndsName(s: string, j: nat, u: Ty, word: string)
    requires Sits(s, j, Show(u)) && LeftEdge(s, j) && Named(u) && u.args != []
    requires forall k | 0 <= k < |word| :: word[k] !in " <"
    ensures j + |u.id| - |word| >= 0 && Sits(s, j + |u.id| - |word|, word + "<") <==> EndsWith(u.id, word)
  {
    hide Show, ShowArgs, Named, LeftEdge, EndsWith;
    ShowPieces(s, j, u);
    WordEndsId(s, j, u.id, word);
  }

  lemma WordEndsId(s: string, j: nat, id: string, word: string)
    requires Sits(s, j, id) && j + |id| < |s| && s[j + |id|] == '<' && LeftEdge(s, j)
    requires forall k | 0 <= k < |word| :: word[k] !in " <"
    ensures j + |id| - |word| >= 0 && Sits(s, j + |id| - |word|, word + "<") <==> EndsWith(id, word)
  {
    hide Sits, EndsWith;
    var q := j + |id|;
    if |word| <= |id| {
      WordFits(s, j, id, word);
    } else {
      NotLonger(id, word);
      if q - |word| >= 0 && Sits(s, q - |word|, word + "<") {
        var k := |word| - |id| - 1;
        SitsChar(s, q - |word|, word + "<", k);
      }
    }
  }

  lemma NotLonger(id: string, word: string)
    requires |id| < |word|
    ensures !EndsWith(id, word)
  {
  }

  lemma WordFits(s: string, j: nat, id: string, word: string)
    requires Sits(s, j, id) && j + |id| < |s| && s[j + |id|] == '<' && |word| <= |id|
    ensures Sits(s, j + |id| - |word|, word + "<") <==> EndsWith(id, word)
  {
    var q := j + |id|;
    var k := q - |word|;
    assert s[k..q] == id[|id| - |word|..] by { assert s[j..q] == id; }
    assert s[q..q + 1] == "<";
    if EndsWith(id, word) { SitsJoin(s, k, word, "<"); }
    if Sits(s, k, word + "<") { SitsParts(s, k, word, "<"); }
  }

  /** The element a printed list reads back as. */
  lemma ElementIsPrinted(s: string, j: nat, u: Ty)
    requires Sits(s, j, Show(u)) && Named(u) && u.args != []
    ensures j + |u.id| + 1 <= |s| && Element(s, j + |u.id| + 1) == Some(Strip(ShowArgs(u.args)))
  {
    hide Show, ShowArgs, Strip, Named, AllNamed;
    ShowPieces(s, j, u);
    ArgsNamed(u);
    var a := j + |u.id| + 1;
    ArgsPassed(s, a, u.args, 1);
    assert MatchClose(s, a, 1) == a + |ShowArgs(u.args)|;
  }

  lemma ArgsEdges(ts: seq<Ty>)
    requires ts != [] && AllNamed(ts)
    ensures Strip(ShowArgs(ts)) == ShowArgs(ts)
  {
    ArgsEnd(ts);
    assert ShowArgs(ts)[0] == Show(ts[0])[0];
  }

  lemma {:induction false} ArgsEnd(ts: seq<Ty>)
    requires ts != [] && AllNamed(ts)
    ensures ShowArgs(ts) != "" && !IsSpace(ShowArgs(ts)[|ShowArgs(ts)| - 1])
  {
    if |ts| > 1 { ArgsEnd(ts[1..]); }
  }

  /** Arguments print as a scalar only if they are that one scalar. */
  lemma ScalarArgs(ts: seq<Ty>)
    requires ts != [] && AllNamed(ts)
    ensures IsScalar(ShowArgs(ts)) <==> |ts| == 1 && ts[0].args == [] && IsScalar(ts[0].id)
  {
    var r := ShowArgs(ts);
    assert Sits(r, 0, r);
    ArgsPieces(r, 0, ts);
    if |ts| > 1 {
      SitsChar(r, |Show(ts[0])|, ", ", 0);
      ScalarIsPlain(r, |Show(ts[0])|);
    } else if ts[0].args != [] {
      ShowPieces(r, 0, ts[0]);
      ScalarIsPlain(r, |ts[0].id|);
    }
  }

  lemma ScalarIsPlain(x: string, k: nat)
    requires k < |x| && (x[k] == ',' || x[k] == '<')
    ensures !IsScalar(x)
  {
  }

  lemma BatchIsList(s: string, j: nat, u: Ty)
    requires Sits(s, j, Show(u)) && LeftEdge(s, j) && Named(u) && u.args != []
    ensures (j + |u.id| - 6 >= 0 && Sits(s, j + |u.id| - 6, "stream<"))
            || (j + |u.id| - 4 >= 0 && BatchAt(s, j + |u.id| - 4))
       <==> Batches(u)
  {
    hide Show, ShowArgs, Strip, MatchClose;
    assert "stream" + "<" == "stream<" && "list" + "<" == "list<";
    WordEndsName(s, j, u, "stream");
    WordEndsName(s, j, u, "list");
    ElementIsPrinted(s, j, u);
    ArgsEdges(u.args);
    ScalarArgs(u.args);
  }

  /**
   The check finds a batch parameter in a printed parameter list exactly when some type in it, at any
   depth, batches.
   */
  lemma CollectsIffBatch(ps: seq<Param>)
    requires forall p | p in ps :: ParamNamed(p)
    ensures Collects(ShowParams(ps)) <==> exists u :: HasBatch(ps, u)
  {
    var s := ShowParams(ps);
    assert Sits(s, 0, s);
    if Collects(s) {
      CollectsHasBatch(ps);
    }
    if exists u :: HasBatch(ps, u) {
      var u :| HasBatch(ps, u);
      BatchCollects(ps, u);
    }
  }

  lemma CollectsHasBatch(ps: seq<Param>)
    requires (forall p | p in ps :: ParamNamed(p)) && Collects(ShowParams(ps))
    ensures exists u :: HasBatch(ps, u)
  {
    hide Show, ShowParams, Batches, Within;
    var s := ShowParams(ps);
    var k: nat, w := 0, "stream";
    if exists i | 0 <= i <= |s| :: Sits(s, i, "stream<") {
      k :| 0 <= k <= |s| && Sits(s, k, "stream<");
    } else {
      k :| 0 <= k <= |s| && BatchAt(s, k);
      w := "list";
    }
    WordHasBatch(ps, k, w);
  }

  /** The name before the bracket of a found word is one that batches. */
  lemma WordHasBatch(ps: seq<Param>, k: nat, w: string)
    requires forall p | p in ps :: ParamNamed(p)
    requires var s := ShowParams(ps); (w == "stream" && Sits(s, k, "stream<")) || (w == "list" && BatchAt(s, k))
    ensures exists u :: HasBatch(ps, u)
  {
    hide Show, ShowParams, Batches, Within, Element;
    var s := ShowParams(ps);
    assert "stream" + "<" == "stream<" && "list" + "<" == "list<";
    assert Sits(s, 0, s);
    BracketInParams(s, 0, ps, k + |w|);
    var m, u, j :| 0 <= m < |ps| && OpensAt(s, k + |w|, u, j) && Within(u, ps[m].ty);
    BatchIsList(s, j, u);
    assert HasBatch(ps, u);
  }

  lemma BatchCollects(ps: seq<Param>, u: Ty)
    requires (forall p | p in ps :: ParamNamed(p)) && HasBatch(ps, u)
    ensures Collects(ShowParams(ps))
  {
    hide Show, ShowParams, Within, Element;
    var s := ShowParams(ps);
    var k :| 0 <= k < |ps| && Within(u, ps[k].ty);
    assert Sits(s, 0, s);
    WithinParams(s, 0, ps, k, u);
    var j :| PrintedAt(s, j, u);
    BatchIsList(s, j, u);
  }

  /**
   On a whole printed declaration: the parameters between its first `(` and last `)` are what was printed,
   so the check says yes exactly when a parameter type batches.
   */
  lemma TakesIffBatch(pre: string, ps: seq<Param>, post: string)
    requires (forall p | p in ps :: ParamNamed(p)) && '(' !in pre && ')' !in post
    ensures var decl := pre + "(" + ShowParams(ps) + ")" + post;
            '(' in decl && (Collects(Params(decl)) <==> exists u :: HasBatch(ps, u))
  {
    hide ShowParams, HasBatch, Collects;
    var text := ShowParams(ps);
    var decl := pre + "(" + text + ")" + post;
    var a, b := |pre|, |pre| + 1 + |text|;
    assert decl[a] == '(' && decl[b] == ')';
    forall j | 0 <= j < a ensures !Sits(decl, j, "(") { assert decl[j..j + 1] == [pre[j]]; }
    assert decl[a..a + 1] == "(";
    FindIs(decl, "(", 0, a);
    assert decl[a + 1..b] == text;
    CollectsIffBatch(ps);
  }

  // ---------------------------------------------------------------------------------------------
  // WIT's own type constructors
  // ---------------------------------------------------------------------------------------------

  /** The names WIT applies to arguments. */
  predicate BuiltIn(id: string) {
    || id == "list" || id == "stream" || id == "option" || id == "result"
    || id == "tuple" || id == "future" || id == "borrow" || id == "own"
  }

  /** A type that applies only WIT's own constructors. */
  predicate Proper(t: Ty) {
    (t.args != [] ==> BuiltIn(t.id)) && forall k | 0 <= k < |t.args| :: Proper(t.args[k])
  }

  /** A stream, or a list over no element of the check's set. */
  predicate IsBatch(u: Ty) {
    && u.args != []
    && (u.id == "stream" || (u.id == "list" && !(|u.args| == 1 && u.args[0].args == [] && IsScalar(u.args[0].id))))
  }

  lemma BuiltInBatch(u: Ty)
    requires Proper(u)
    ensures Batches(u) <==> IsBatch(u)
  {
    hide BuiltIn, EndsWith, IsScalar;
    if u.args != [] { BuiltInEnds(u.id); }
  }

  lemma BuiltInEnds(id: string)
    requires BuiltIn(id)
    ensures EndsWith(id, "stream") <==> id == "stream"
    ensures EndsWith(id, "list") <==> id == "list"
  {
  }

  lemma {:induction false} ProperWithin(u: Ty, t: Ty)
    requires Proper(t) && Within(u, t)
    ensures Proper(u)
    decreases t
  {
    if u != t {
      var k :| 0 <= k < |t.args| && Within(u, t.args[k]);
      ProperWithin(u, t.args[k]);
    }
  }

  predicate HoldsBatch(ps: seq<Param>, u: Ty) {
    IsBatch(u) && exists k | 0 <= k < |ps| :: Within(u, ps[k].ty)
  }

  lemma ProperBatches(ps: seq<Param>)
    requires forall p | p in ps :: Proper(p.ty)
    ensures (exists u :: HasBatch(ps, u)) <==> exists u :: HoldsBatch(ps, u)
  {
    hide Within, Batches, IsBatch, Proper;
    forall u ensures HasBatch(ps, u) <==> HoldsBatch(ps, u) {
      if k :| 0 <= k < |ps| && Within(u, ps[k].ty) {
        ProperWithin(u, ps[k].ty);
        BuiltInBatch(u);
      }
    }
  }

  // ---------------------------------------------------------------------------------------------
  // Both readers on one declaration
  // ---------------------------------------------------------------------------------------------

  /** In a printed parameter list a `>` is never followed by a space. */
  lemma {:induction false} CloseInParams(s: string, i: nat, ps: seq<Param>, q: nat)
    requires Sits(s, i, ShowParams(ps)) && (forall p | p in ps :: ParamNamed(p))
    requires i <= q < i + |ShowParams(ps)| && s[q] == '>'
    ensures q + 1 == i + |ShowParams(ps)| || s[q + 1] == '>' || s[q + 1] == ','
    decreases |ps|
  {
    hide Show, ShowParam, Named;
    ParamPieces(s, i, ps);
    ParamRest(s, i, ps);
    NoCloseInTag(s, i, ps[0]);
    var e := i + |ShowParam(ps[0])|;
    if q < e {
      CloseInType(s, i + |ps[0].name| + 2, ps[0].ty, q);
      if |ps| > 1 { SitsChar(s, e, ", ", 0); }
    } else {
      SitsChar(s, e, ", ", 0);
      SitsChar(s, e, ", ", 1);
      CloseInParams(s, e + 2, ps[1..], q);
    }
  }

  lemma NoCloseInTag(s: string, i: nat, p: Param)
    requires Sits(s, i, ShowParam(p)) && ParamNamed(p)
    ensures i + |p.name| + 2 <= |s| && forall k | i <= k < i + |p.name| + 2 :: s[k] != '>'
  {
    hide Show, Named;
    var tag := p.name + ": ";
    SitsParts(s, i, tag, Show(p.ty));
    forall k | i <= k < i + |tag| ensures s[k] != '>' {
      SitsChar(s, i, tag, k - i);
      if k - i < |p.name| { assert tag[k - i] == p.name[k - i]; }
    }
  }

  /** Everything of a declaration before its arrow. */
  function Head(name: string, ps: seq<Param>): string {
    name + ": func(" + (ShowParams(ps) + ") ")
  }

  lemma NoArrowInHead(name: string, ps: seq<Param>)
    requires IsName(name) && forall p | p in ps :: ParamNamed(p)
    ensures NoArrowIn(Head(name, ps))
  {
    hide ShowParams, ParamNamed;
    var pre := Head(name, ps);
    var s := pre + ARROW;
    var a := |name| + 7;
    assert s[|pre|..|pre| + |ARROW|] == ARROW;
    forall j | 0 <= j < |pre| ensures !Sits(s, j, ARROW) {
      if Sits(s, j, ARROW) {
        SitsChar(s, j, ARROW, 1);
        SitsChar(s, j, ARROW, 2);
        CloseInHead(name, ps, j + 1);
      }
    }
    FindIs(s, ARROW, 0, |pre|);
  }

  lemma CloseInHead(name: string, ps: seq<Param>, q: nat)
    requires IsName(name) && (forall p | p in ps :: ParamNamed(p)) && q <= |Head(name, ps)|
    requires (Head(name, ps) + ARROW)[q] == '>'
    ensures (Head(name, ps) + ARROW)[q + 1] != ' '
  {
    hide ShowParams, ParamNamed;
    var pre, text := Head(name, ps), ShowParams(ps);
    var s, lead := pre + ARROW, name + ": func(";
    var a := |lead|;
    assert forall k | 0 <= k < a :: s[k] == lead[k] && lead[k] != '>';
    assert s[a + |text|] == ')' && s[a + |text| + 1] == ' ' && s[a + |text| + 2] == '-';
    assert Sits(s, a, text);
    if q < a + |text| { CloseInParams(s, a, ps, q); }
  }

  /** A whole declaration, as WIT files print it. */
  function Declaration(name: string, ps: seq<Param>, ok: Ty, err: Ty): string {
    Head(name, ps) + "-> " + Show(Ty("result", [ok, err])) + ";"
  }

  lemma DeclarationParts(name: string, ps: seq<Param>, ok: Ty, err: Ty)
    ensures Declaration(name, ps, ok, err)
         == (name + ": func") + "(" + ShowParams(ps) + ")" + (" -> " + Show(Ty("result", [ok, err])) + ";")
  {
    hide ShowParams, Show;
  }

  /**
   Both readers on one printed declaration: the error type read back is the one printed, and the check
   finds a batch exactly when some parameter type, at any depth, is a stream or a list over no element of
   the check's set.
   */
  lemma DeclarationReadBack(name: string, ps: seq<Param>, ok: Ty, err: Ty)
    requires IsName(name) && (forall p | p in ps :: ParamNamed(p) && Proper(p.ty)) && Named(ok) && Named(err)
    ensures var decl := Declaration(name, ps, ok, err);
            && ErrorTypeOf(decl) == Some(Show(err))
            && '(' in decl
            && (Collects(Params(decl)) <==> exists u :: HoldsBatch(ps, u))
  {
    hide ShowParams, Show, ErrorTypeOf, Collects, Params, NoArrowIn, HasBatch, HoldsBatch, Named, Proper, ParamNamed;
    NoArrowInHead(name, ps);
    ErrorTypeInvertsShow(Head(name, ps), ok, err, ";");
    DeclarationParts(name, ps, ok, err);
    NoParenInType(Ty("result", [ok, err]));
    TakesIffBatch(name + ": func", ps, " -> " + Show(Ty("result", [ok, err])) + ";");
    ProperBatches(ps);
  }

  // ---------------------------------------------------------------------------------------------
  // Against WIT's scalars
  // ---------------------------------------------------------------------------------------------

  /** The scalars of WIT: integers of 8 to 64 bits, floats, booleans and characters. */
  predicate WitScalar(x: string) {
    || x == "bool" || x == "char" || x == "f32" || x == "f64" || x == "s8" || x == "s16" || x == "s32"
    || x == "s64" || x == "u8" || x == "u16" || x == "u32" || x == "u64"
  }

  /** A batch as the check means it: a stream, or a list of something other than a scalar. */
  predicate TrueBatch(u: Ty) {
    && u.args != []
    && (u.id == "stream" || (u.id == "list" && !(|u.args| == 1 && u.args[0].args == [] && WitScalar(u.args[0].id))))
  }

  /** A buffer of a scalar that the check's set leaves out. */
  predicate SmallBuffer(u: Ty) {
    u == Ty("list", [Ty("s8", [])]) || u == Ty("list", [Ty("s16", [])])
  }

  ghost predicate Holds(ps: seq<Param>, P: Ty -> bool) {
    exists u, k | 0 <= k < |ps| :: P(u) && Within(u, ps[k].ty)
  }

  lemma FoundBatches(u: Ty)
    ensures IsBatch(u) <==> TrueBatch(u) || SmallBuffer(u)
  {
    if u.id == "list" && |u.args| == 1 && u.args[0].args == [] {
      assert u == Ty("list", [Ty(u.args[0].id, [])]);
    }
  }

  /**
   The verdict on a printed declaration is right exactly when the parameters hold a batch or no buffer of
   `s8` or `s16`.
   */
  lemma VerdictIsRight(name: string, ps: seq<Param>, ok: Ty, err: Ty)
    requires IsName(name) && (forall p | p in ps :: ParamNamed(p) && Proper(p.ty)) && Named(ok) && Named(err)
    ensures (Collects(Params(Declaration(name, ps, ok, err))) <==> Holds(ps, TrueBatch))
       <==> Holds(ps, TrueBatch) || !Holds(ps, SmallBuffer)
  {
    hide Declaration, Collects, Params, Named, Proper, ParamNamed, Within, IsBatch, TrueBatch, SmallBuffer;
    DeclarationReadBack(name, ps, ok, err);
    forall u ensures IsBatch(u) <==> TrueBatch(u) || SmallBuffer(u) { FoundBatches(u); }
    assert (exists u :: HoldsBatch(ps, u)) <==> Holds(ps, TrueBatch) || Holds(ps, SmallBuffer) by {
      if u :| HoldsBatch(ps, u) {
        var k :| 0 <= k < |ps| && Within(u, ps[k].ty);
        assert TrueBatch(u) || SmallBuffer(u);
      }
      if Holds(ps, TrueBatch) {
        var u, k :| 0 <= k < |ps| && TrueBatch(u) && Within(u, ps[k].ty);
        assert HoldsBatch(ps, u);
      }
      if Holds(ps, SmallBuffer) {
        var u, k :| 0 <= k < |ps| && SmallBuffer(u) && Within(u, ps[k].ty);
        assert HoldsBatch(ps, u);
      }
    }
  }

  /** A declaration whose only parameter is a buffer of `s8`: the check finds a batch, and there is none. */
  lemma SmallBufferIsFound(name: string, param: string, ok: Ty, err: Ty)
    requires IsName(name) && IsName(param) && Named(ok) && Named(err)
    ensures var ps := [Param(param, Ty("list", [Ty("s8", [])]))];
            Collects(Params(Declaration(name, ps, ok, err))) && !Holds(ps, TrueBatch)
  {
    hide Declaration, Collects, Params, Named, Proper, IsName, TrueBatch, Within;
    var u := Ty("list", [Ty("s8", [])]);
    var ps := [Param(param, u)];
    BufferOfS8(u);
    VerdictIsRight(name, ps, ok, err);
    assert Within(u, ps[0].ty) && SmallBuffer(u);
    assert Holds(ps, SmallBuffer);
  }

  lemma BufferOfS8(u: Ty)
    requires u == Ty("list", [Ty("s8", [])])
    ensures Named(u) && Proper(u) && Within(u, u) && forall t | Within(t, u) :: !TrueBatch(t)
  {
    assert Named(u.args[0]) && Proper(u.args[0]);
    forall t | Within(t, u) ensures !TrueBatch(t) { assert t == u || Within(t, u.args[0]); }
  }
}
