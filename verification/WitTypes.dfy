/**
 WIT type trees and their printed form, with what a bracket-counting scan sees of it.
 */
module WitTypes {
  import opened Strings

  /** A WIT type: a name and its arguments, none for a plain type. */
  datatype Ty = Ty(id: string, args: seq<Ty>)

  /** A name: not empty, free of brackets, commas and white space. */
  predicate IsName(id: string) {
    id != "" && forall k | 0 <= k < |id| :: id[k] !in "<>,()" && !IsSpace(id[k])
  }

  predicate Named(t: Ty)
  {
    IsName(t.id) && forall k | 0 <= k < |t.args| :: Named(t.args[k])
  }

  predicate AllNamed(ts: seq<Ty>) {
    forall k | 0 <= k < |ts| :: Named(ts[k])
  }

  function Show(t: Ty): string
    decreases t, 1
  {
    if t.args == [] then t.id else t.id + ("<" + (ShowArgs(t.args) + ">"))
  }

  function ShowArgs(ts: seq<Ty>): string
    decreases ts, 0
  {
    if ts == [] then "" else if |ts| == 1 then Show(ts[0]) else Show(ts[0]) + (", " + ShowArgs(ts[1..]))
  }

  // ---------------------------------------------------------------------------------------------
  // Bracket scans
  // ---------------------------------------------------------------------------------------------

  /** Offset of the `>` that brings the depth from `d` to zero, or `|s|` when none does. */
  function MatchClose(s: string, i: nat, d: nat): (e: nat)
    requires i <= |s| && 1 <= d
    ensures i <= e <= |s|
    decreases |s| - i
  {
    if i == |s| then i
    else if s[i] == '<' then MatchClose(s, i + 1, d + 1)
    else if s[i] == '>' then (if d == 1 then i else MatchClose(s, i + 1, d - 1))
    else MatchClose(s, i + 1, d)
  }

  /** Offset of the first comma outside brackets, or `|s|`. */
  function TopComma(s: string, i: nat, d: int): (e: nat)
    requires i <= |s|
    ensures i <= e <= |s|
    decreases |s| - i
  {
    if i == |s| then i
    else if s[i] == '<' then TopComma(s, i + 1, d + 1)
    else if s[i] == '>' then TopComma(s, i + 1, d - 1)
    else if s[i] == ',' && d == 0 then i
    else TopComma(s, i + 1, d)
  }

  /** A text the scans read past without noticing: no brackets, and no comma where commas count. */
  lemma {:induction false} PlainPassed(s: string, i: nat, r: string, k: nat, d: nat)
    requires Sits(s, i, r) && k <= |r| && forall j | 0 <= j < |r| :: r[j] != '<' && r[j] != '>'
    ensures 1 <= d ==> MatchClose(s, i + k, d) == MatchClose(s, i + |r|, d)
    ensures (1 <= d || ',' !in r) ==> TopComma(s, i + k, d) == TopComma(s, i + |r|, d)
    decreases |r| - k
  {
    if k < |r| {
      SitsChar(s, i, r, k);
      PlainPassed(s, i, r, k + 1, d);
    }
  }

  lemma BracketPassed(s: string, i: nat, d: nat)
    requires i < |s|
    ensures s[i] == '<' && 1 <= d ==> MatchClose(s, i, d) == MatchClose(s, i + 1, d + 1)
    ensures s[i] == '<' ==> TopComma(s, i, d) == TopComma(s, i + 1, d + 1)
    ensures s[i] == '>' && 1 <= d ==> MatchClose(s, i, d + 1) == MatchClose(s, i + 1, d)
    ensures s[i] == '>' ==> TopComma(s, i, d + 1) == TopComma(s, i + 1, d)
  {
  }

  /** Where the pieces of a printed application lie. */
  lemma ShowPieces(s: string, i: nat, t: Ty)
    requires Sits(s, i, Show(t))
    ensures Sits(s, i, t.id)
    ensures t.args != [] ==>
              var q := i + |t.id|;
              && |Show(t)| == |t.id| + 1 + |ShowArgs(t.args)| + 1
              && q < |s| && s[q] == '<' && Sits(s, q + 1, ShowArgs(t.args))
              && q + 1 + |ShowArgs(t.args)| < |s| && s[q + 1 + |ShowArgs(t.args)|] == '>'
  {
    hide ShowArgs;
    if t.args != [] {
      var q := i + |t.id|;
      SitsParts(s, i, t.id, "<" + (ShowArgs(t.args) + ">"));
      SitsParts(s, q, "<", ShowArgs(t.args) + ">");
      SitsParts(s, q + 1, ShowArgs(t.args), ">");
      SitsChar(s, q, "<", 0);
      SitsChar(s, q + 1 + |ShowArgs(t.args)|, ">", 0);
    }
  }

  lemma ArgsPieces(s: string, i: nat, ts: seq<Ty>)
    requires Sits(s, i, ShowArgs(ts)) && ts != []
    ensures Sits(s, i, Show(ts[0]))
    ensures |ts| == 1 ==> |ShowArgs(ts)| == |Show(ts[0])|
    ensures |ts| > 1 ==>
              var j := i + |Show(ts[0])|;
              Sits(s, j, ", ") && Sits(s, j + 2, ShowArgs(ts[1..])) && j + 2 + |ShowArgs(ts[1..])| == i + |ShowArgs(ts)|
  {
    if |ts| > 1 {
      var j := i + |Show(ts[0])|;
      SitsParts(s, i, Show(ts[0]), ", " + ShowArgs(ts[1..]));
      SitsParts(s, j, ", ", ShowArgs(ts[1..]));
    }
  }

  /** A printed type is balanced, and keeps its commas inside brackets. */
  lemma {:induction false} TypePassed(s: string, i: nat, t: Ty, d: nat)
    requires Sits(s, i, Show(t)) && Named(t)
    ensures 1 <= d ==> MatchClose(s, i, d) == MatchClose(s, i + |Show(t)|, d)
    ensures TopComma(s, i, d) == TopComma(s, i + |Show(t)|, d)
    decreases t, 1
  {
    hide MatchClose, TopComma;
    ShowPieces(s, i, t);
    PlainPassed(s, i, t.id, 0, d);
    if t.args != [] {
      var q := i + |t.id|;
      BracketPassed(s, q, d);
      ArgsPassed(s, q + 1, t.args, d + 1);
      BracketPassed(s, q + 1 + |ShowArgs(t.args)|, d);
    }
  }

  lemma {:induction false} ArgsPassed(s: string, i: nat, ts: seq<Ty>, d: nat)
    requires Sits(s, i, ShowArgs(ts)) && AllNamed(ts) && 1 <= d
    ensures MatchClose(s, i, d) == MatchClose(s, i + |ShowArgs(ts)|, d)
    ensures TopComma(s, i, d) == TopComma(s, i + |ShowArgs(ts)|, d)
    decreases ts, 0
  {
    hide MatchClose, TopComma, Show;
    if ts != [] {
      ArgsPieces(s, i, ts);
      TypePassed(s, i, ts[0], d);
      if |ts| > 1 {
        var j := i + |Show(ts[0])|;
        PlainPassed(s, j, ", ", 0, d);
        ArgsPassed(s, j + 2, ts[1..], d);
      }
    }
  }

  // ---------------------------------------------------------------------------------------------
  // Which applications a printed tree holds
  // ---------------------------------------------------------------------------------------------

  /** `u` is the tree itself or below it. */
  predicate Within(u: Ty, t: Ty) {
    u == t || exists k | 0 <= k < |t.args| :: Within(u, t.args[k])
  }

  /** The character before `i` cannot belong to a name. */
  predicate LeftEdge(s: string, i: nat) {
    i == 0 || (i <= |s| && s[i - 1] in " <")
  }

  lemma NameHasNoBracket(s: string, i: nat, id: string)
    requires Sits(s, i, id) && IsName(id)
    ensures forall k | i <= k < i + |id| :: s[k] != '<' && s[k] != '>'
  {
    forall k | i <= k < i + |id| ensures s[k] != '<' && s[k] != '>' { SitsChar(s, i, id, k - i); }
  }

  /** Type `u` is printed at `j`, after a character that cannot belong to its name. */
  predicate PrintedAt(s: string, j: nat, u: Ty) {
    Sits(s, j, Show(u)) && Named(u) && LeftEdge(s, j)
  }

  /** The `<` at `q` is that of the application `u`, printed at `j`. */
  predicate OpensAt(s: string, q: nat, u: Ty, j: nat) {
    PrintedAt(s, j, u) && u.args != [] && q == j + |u.id|
  }

  /** Each `<` of a printed type belongs to an application below it, printed there. */
  lemma {:induction false} BracketIsApplication(s: string, i: nat, t: Ty, q: nat)
    requires PrintedAt(s, i, t) && i <= q < i + |Show(t)| && s[q] == '<'
    ensures exists u, j :: OpensAt(s, q, u, j) && Within(u, t)
    decreases t, 1
  {
    ShowPieces(s, i, t);
    var a := i + |t.id|;
    NameHasNoBracket(s, i, t.id);
    if q == a {
      assert OpensAt(s, q, t, i) && Within(t, t);
    } else {
      BracketInArgs(s, a + 1, t.args, q);
      var k, u, j :| 0 <= k < |t.args| && OpensAt(s, q, u, j) && Within(u, t.args[k]);
      assert Within(u, t);
    }
  }

  lemma {:induction false} BracketInArgs(s: string, i: nat, ts: seq<Ty>, q: nat)
    requires Sits(s, i, ShowArgs(ts)) && AllNamed(ts) && LeftEdge(s, i)
    requires i <= q < i + |ShowArgs(ts)| && s[q] == '<'
    ensures exists k, u, j :: 0 <= k < |ts| && OpensAt(s, q, u, j) && Within(u, ts[k])
    decreases ts, 0
  {
    hide Show, Named, Within, IsName, OpensAt;
    ArgsPieces(s, i, ts);
    var a := i + |Show(ts[0])|;
    if q < a {
      BracketIsApplication(s, i, ts[0], q);
    } else {
      SitsChar(s, a, ", ", 0);
      SitsChar(s, a, ", ", 1);
      BracketInArgs(s, a + 2, ts[1..], q);
      var k, u, j :| 0 <= k < |ts[1..]| && OpensAt(s, q, u, j) && Within(u, ts[1..][k]);
      assert Within(u, ts[k + 1]);
    }
  }

  /** Every type below a tree is printed somewhere inside it. */
  lemma {:induction false} WithinIsPrinted(s: string, i: nat, t: Ty, u: Ty)
    requires PrintedAt(s, i, t) && Within(u, t)
    ensures exists j :: PrintedAt(s, j, u)
    decreases t, 1
  {
    hide Show, ShowArgs;
    if u != t {
      ShowPieces(s, i, t);
      ArgsNamed(t);
      var k :| 0 <= k < |t.args| && Within(u, t.args[k]);
      WithinArgs(s, i + |t.id| + 1, t.args, k, u);
    }
  }

  lemma {:induction false} WithinArgs(s: string, i: nat, ts: seq<Ty>, k: nat, u: Ty)
    requires Sits(s, i, ShowArgs(ts)) && AllNamed(ts) && LeftEdge(s, i) && k < |ts| && Within(u, ts[k])
    ensures exists j :: PrintedAt(s, j, u)
    decreases ts, 0
  {
    hide Show, Named, Within;
    ArgsPieces(s, i, ts);
    if k == 0 {
      WithinIsPrinted(s, i, ts[0], u);
    } else {
      SitsChar(s, i + |Show(ts[0])|, ", ", 1);
      WithinArgs(s, i + |Show(ts[0])| + 2, ts[1..], k - 1, u);
    }
  }

  // ---------------------------------------------------------------------------------------------
  // What follows a closing bracket
  // ---------------------------------------------------------------------------------------------

  /** Inside a printed type a `>` is followed by another or by a comma, unless it is the last character. */
  lemma {:induction false} CloseInType(s: string, i: nat, t: Ty, q: nat)
    requires Sits(s, i, Show(t)) && Named(t) && i <= q < i + |Show(t)| && s[q] == '>'
    ensures q + 1 == i + |Show(t)| || s[q + 1] == '>' || s[q + 1] == ','
    decreases t, 1
  {
    hide AllNamed;
    ShowPieces(s, i, t);
    var a := i + |t.id|;
    NameHasNoBracket(s, i, t.id);
    if q < a + 1 + |ShowArgs(t.args)| {
      ArgsNamed(t);
      CloseInArgs(s, a + 1, t.args, q);
    }
  }

  lemma ArgsNamed(t: Ty)
    requires Named(t)
    ensures AllNamed(t.args)
  {
  }

  lemma {:induction false} CloseInArgs(s: string, i: nat, ts: seq<Ty>, q: nat)
    requires Sits(s, i, ShowArgs(ts)) && AllNamed(ts) && i <= q < i + |ShowArgs(ts)| && s[q] == '>'
    ensures q + 1 == i + |ShowArgs(ts)| || s[q + 1] == '>' || s[q + 1] == ','
    decreases ts, 0
  {
    hide Show, Named;
    ArgsPieces(s, i, ts);
    var a := i + |Show(ts[0])|;
    if q < a {
      CloseInType(s, i, ts[0], q);
      if |ts| > 1 { SitsChar(s, a, ", ", 0); }
    } else {
      SitsChar(s, a, ", ", 0);
      SitsChar(s, a, ", ", 1);
      CloseInArgs(s, a + 2, ts[1..], q);
    }
  }

  /** A printed type holds no parenthesis. */
  lemma {:induction false} NoParenInType(t: Ty)
    requires Named(t)
    ensures ')' !in Show(t)
    decreases t, 1
  {
    if t.args != [] {
      NoParenInArgs(t.args);
      assert ')' !in "<" && ')' !in ">";
    }
  }

  lemma {:induction false} NoParenInArgs(ts: seq<Ty>)
    requires AllNamed(ts)
    ensures ')' !in ShowArgs(ts)
    decreases ts, 0
  {
    if ts != [] {
      NoParenInType(ts[0]);
      if |ts| > 1 {
        NoParenInArgs(ts[1..]);
        assert ')' !in ", ";
      }
    }
  }
}
