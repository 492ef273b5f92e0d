/**
 The comparison of the two gates (tools/check_gate_parity.py): what a declaration covers, what is reported,
 and what changes when both gates call the single gate.
 */
module GateParity {
  import opened Wrappers
  import opened Strings

  /** A declared token and, where it states one, the number of commands it covers. */
  datatype Declared = Declared(token: string, count: Option<nat>)

  datatype Side = Ci | Bridge

  /** Shell-style matching for the only wildcard a token can spell. */
  predicate Glob(pat: string, s: string)
    decreases |pat|, |s|
  {
    if pat == "" then s == ""
    else if pat[0] == '*' then Glob(pat[1..], s) || (s != "" && Glob(pat, s[1..]))
    else s != "" && s[0] == pat[0] && Glob(pat[1..], s[1..])
  }

  /** Without a wildcard, matching is equality. */
  lemma {:induction false} GlobLiteral(pat: string, s: string)
    requires '*' !in pat
    ensures Glob(pat, s) <==> pat == s
    decreases |pat|
  {
    if pat != "" && s != "" {
      GlobLiteral(pat[1..], s[1..]);
      assert pat == [pat[0]] + pat[1..] && s == [s[0]] + s[1..];
    }
  }

  /** A wildcard before a literal tail takes whatever leaves that tail. */
  lemma {:induction false} GlobTail(b: string, s: string)
    requires '*' !in b
    ensures Glob("*" + b, s) <==> |b| <= |s| && s[|s| - |b|..] == b
    decreases |s|
  {
    assert ("*" + b)[1..] == b;
    GlobLiteral(b, s);
    if s != "" {
      GlobTail(b, s[1..]);
      if |b| < |s| { assert s[1..][|s| - 1 - |b|..] == s[|s| - |b|..]; }
    }
  }

  /** The one shape declarations use: a script name with its middle left open. */
  lemma {:induction false} GlobMiddle(a: string, b: string, s: string)
    requires '*' !in a && '*' !in b
    ensures Glob(a + "*" + b, s) <==> |a| + |b| <= |s| && a <= s && s[|s| - |b|..] == b
    decreases |a|
  {
    if a == "" {
      assert a + "*" + b == "*" + b;
      GlobTail(b, s);
    } else {
      var pat := a + "*" + b;
      assert pat[1..] == a[1..] + "*" + b && pat[0] == a[0];
      if s != "" {
        GlobMiddle(a[1..], b, s[1..]);
        assert a == [a[0]] + a[1..] && s == [s[0]] + s[1..];
        if |a| + |b| <= |s| { assert s[1..][|s| - 1 - |b|..] == s[|s| - |b|..]; }
      }
    }
  }

  function Script(inv: string): string {
    inv[..Find(inv, " ", 0)]
  }

  predicate Covers(token: string, inv: string) {
    if ' ' in token then inv == token || token + " " <= inv else Glob(token, Script(inv))
  }

  /** The script of a command is what stands before its first space. */
  lemma ScriptIs(inv: string, t: string)
    requires ' ' !in t
    ensures Script(inv) == t <==> inv == t || t + " " <= inv
  {
    var k := Find(inv, " ", 0);
    forall j | 0 <= j < k ensures inv[j] != ' ' {
      assert !Sits(inv, j, " ");
      assert inv[j..j + 1] == [inv[j]];
    }
    if k < |inv| {
      assert inv[k..k + 1] == " ";
      assert inv[k] == ' ' && inv[k] in inv;
    }
    assert inv == t ==> k == |inv| && inv[..k] == inv;
    if t + " " <= inv {
      assert inv[|t|] == (t + " ")[|t|] && inv[|t|..|t| + 1] == " ";
      assert forall j | 0 <= j < |t| :: inv[j] == t[j];
      assert k == |t|;
    }
    if Script(inv) == t && k < |inv| { assert inv[..k + 1] == t + " "; }
  }

  /** `s` starts with `a` and ends with `b`, without overlap. */
  predicate Frames(a: string, b: string, s: string) {
    |a| + |b| <= |s| && a <= s && s[|s| - |b|..] == b
  }

  /**
   What a token covers: with a space in it, the command itself and what adds arguments to it; without a space
   or a wildcard, the script with any arguments; with one wildcard, every script of that prefix and suffix.
   */
  lemma CoversIs(token: string, inv: string)
    ensures ' ' in token || '*' !in token ==> (Covers(token, inv) <==> inv == token || token + " " <= inv)
    ensures forall a, b | token == a + "*" + b && ' ' !in token && '*' !in a && '*' !in b ::
              Covers(token, inv) <==> Frames(a, b, Script(inv))
  {
    if ' ' !in token && '*' !in token {
      GlobLiteral(token, Script(inv));
      ScriptIs(inv, token);
    }
    forall a, b | token == a + "*" + b && ' ' !in token && '*' !in a && '*' !in b
      ensures Covers(token, inv) <==> Frames(a, b, Script(inv))
    {
      GlobMiddle(a, b, Script(inv));
    }
  }

  predicate AnyCovers(ds: seq<Declared>, inv: string) {
    exists d | d in ds :: Covers(d.token, inv)
  }

  function Hits(token: string, diverging: set<string>): set<string> {
    set i | i in diverging && Covers(token, i)
  }

  /** The two gates as sets of commands, the declarations for each side, and the scripts in the tree. */
  datatype Parity = Parity(
    ci: set<string>, bridge: set<string>, ciOnly: seq<Declared>, bridgeOnly: seq<Declared>, scripts: seq<string>)
  {
    function Diverging(side: Side): set<string> {
      if side == Ci then ci - bridge else bridge - ci
    }

    function For(side: Side): seq<Declared> {
      if side == Ci then ciOnly else bridgeOnly
    }
  }

  function Other(side: Side): Side {
    if side == Ci then Bridge else Ci
  }

  datatype Problem =
    | Vacuous
    | Undeclared(side: Side, inv: string)
    | WrongWay(side: Side, inv: string)
    | Stale(side: Side, token: string)
    | Miscounted(side: Side, token: string, count: nat, hits: nat)
    | RunNowhere(name: string)

  predicate Invoked(p: Parity, name: string) {
    exists i | i in p.ci + p.bridge :: Script(i) == "tools/" + name
  }

  predicate Uncovered(diverging: set<string>, ds: seq<Declared>, inv: string) {
    inv in diverging && !AnyCovers(ds, inv)
  }

  predicate Misfiled(diverging: set<string>, ds: seq<Declared>, inv: string) {
    inv in diverging && AnyCovers(ds, inv)
  }

  predicate Idle(diverging: set<string>, ds: seq<Declared>, token: string) {
    (exists d | d in ds :: d.token == token) && Hits(token, diverging) == {}
  }

  predicate OffCount(diverging: set<string>, ds: seq<Declared>, token: string, count: nat, hits: nat) {
    Declared(token, Some(count)) in ds && hits == |Hits(token, diverging)| && hits != 0 && hits != count
  }

  /** What each report means. */
  predicate IsProblem(p: Parity, x: Problem) {
    if p.ci == {} || p.bridge == {} then x == Vacuous
    else match x
         case Vacuous => false
         case Undeclared(side, inv) => Uncovered(p.Diverging(side), p.For(side), inv)
         case WrongWay(side, inv) => Misfiled(p.Diverging(side), p.For(Other(side)), inv)
         case Stale(side, token) => Idle(p.Diverging(side), p.For(side), token)
         case Miscounted(side, token, count, hits) => OffCount(p.Diverging(side), p.For(side), token, count, hits)
         case RunNowhere(name) => name in p.scripts && !Invoked(p, name)
  }

  // ---------------------------------------------------------------------------------------------
  // check
  // ---------------------------------------------------------------------------------------------

  /** Divergences of one side that are not declared for it, and those declared for the other. */
  method DivergenceProblems(side: Side, diverging: set<string>, own: seq<Declared>, other: seq<Declared>)
    returns (out: seq<Problem>)
    ensures forall x :: x in out <==>
              || (x.Undeclared? && x.side == side && Uncovered(diverging, own, x.inv))
              || (x.WrongWay? && x.side == side && Misfiled(diverging, other, x.inv))
  {
    hide Covers;
    out := [];
    var todo := diverging;
    while todo != {}
      invariant todo <= diverging
      invariant forall x :: x in out <==>
                  || (x.Undeclared? && x.side == side && Uncovered(diverging - todo, own, x.inv))
                  || (x.WrongWay? && x.side == side && Misfiled(diverging - todo, other, x.inv))
    {
      var inv :| inv in todo;
      todo := todo - {inv};
      if !AnyCovers(own, inv) { out := out + [Undeclared(side, inv)]; }
      if AnyCovers(other, inv) { out := out + [WrongWay(side, inv)]; }
    }
    assert diverging - todo == diverging;
  }

  /** Declarations that cover nothing, or not as many commands as they say. */
  method DeclarationProblems(side: Side, diverging: set<string>, ds: seq<Declared>) returns (out: seq<Problem>)
    ensures forall x :: x in out <==>
              || (x.Stale? && x.side == side && Idle(diverging, ds, x.token))
              || (x.Miscounted? && x.side == side && OffCount(diverging, ds, x.token, x.count, x.hits))
  {
    hide Covers;
    out := [];
    for i := 0 to |ds|
      invariant forall x :: x in out <==>
                  || (x.Stale? && x.side == side && Idle(diverging, ds[..i], x.token))
                  || (x.Miscounted? && x.side == side && OffCount(diverging, ds[..i], x.token, x.count, x.hits))
    {
      var d := ds[i];
      var hits := Hits(d.token, diverging);
      assert forall e :: e in ds[..i + 1] <==> e in ds[..i] || e == d;
      if hits == {} {
        out := out + [Stale(side, d.token)];
      } else if d.count.Some? && d.count.value != |hits| {
        out := out + [Miscounted(side, d.token, d.count.value, |hits|)];
      }
    }
    assert ds[..|ds|] == ds;
  }

  method ScriptProblems(p: Parity) returns (out: seq<Problem>)
    ensures forall x :: x in out <==> x.RunNowhere? && x.name in p.scripts && !Invoked(p, x.name)
  {
    out := [];
    var invoked := set i | i in p.ci + p.bridge :: Script(i);
    for i := 0 to |p.scripts|
      invariant forall x :: x in out <==> x.RunNowhere? && x.name in p.scripts[..i] && !Invoked(p, x.name)
    {
      if "tools/" + p.scripts[i] !in invoked { out := out + [RunNowhere(p.scripts[i])]; }
    }
    assert p.scripts[..|p.scripts|] == p.scripts;
  }

  /** Reports every disagreement between the gates and their declarations, and nothing else. */
  method Check(p: Parity) returns (problems: seq<Problem>)
    ensures forall x :: x in problems <==> IsProblem(p, x)
  {
    hide Uncovered, Misfiled, Idle, OffCount, Invoked;
    if p.ci == {} || p.bridge == {} {
      return [Vacuous];
    }
    var onlyCi, onlyBridge := p.ci - p.bridge, p.bridge - p.ci;
    var a := DivergenceProblems(Ci, onlyCi, p.ciOnly, p.bridgeOnly);
    var b := DivergenceProblems(Bridge, onlyBridge, p.bridgeOnly, p.ciOnly);
    var c := DeclarationProblems(Ci, onlyCi, p.ciOnly);
    var d := DeclarationProblems(Bridge, onlyBridge, p.bridgeOnly);
    var e := ScriptProblems(p);
    problems := a + b + c + d + e;
    assert forall x :: x in problems <==> x in a || x in b || x in c || x in d || x in e;
  }

  /** The commands of `here` that `there` lacks and the token covers. */
  function CoveredOnly(token: string, here: set<string>, there: set<string>): set<string> {
    set inv | inv in here && inv !in there && Covers(token, inv)
  }

  /** The reports about one side, in terms of the two gates and the two lists of declarations. */
  ghost predicate SideReports(
    p: Parity, side: Side, here: set<string>, there: set<string>, own: seq<Declared>, other: seq<Declared>)
  {
    && (forall inv :: IsProblem(p, Undeclared(side, inv))
                 <==> inv in here && inv !in there && forall d | d in own :: !Covers(d.token, inv))
    && (forall inv :: IsProblem(p, WrongWay(side, inv))
                 <==> inv in here && inv !in there && exists d | d in other :: Covers(d.token, inv))
    && (forall token :: IsProblem(p, Stale(side, token))
                   <==> (exists d | d in own :: d.token == token) && CoveredOnly(token, here, there) == {})
    && forall token, count, hits ::
         IsProblem(p, Miscounted(side, token, count, hits))
         <==> && Declared(token, Some(count)) in own && hits == |CoveredOnly(token, here, there)|
              && hits != 0 && hits != count
  }

  lemma SideMeans(
    p: Parity, side: Side, here: set<string>, there: set<string>, own: seq<Declared>, other: seq<Declared>)
    requires p.ci != {} && p.bridge != {} && p.Diverging(side) == here - there
    requires p.For(side) == own && p.For(Other(side)) == other
    ensures SideReports(p, side, here, there, own, other)
  {
    hide Covers;
    forall token ensures CoveredOnly(token, here, there) == Hits(token, here - there) { }
  }

  lemma ScriptMeans(p: Parity, name: string)
    requires p.ci != {} && p.bridge != {} && ' ' !in name
    ensures IsProblem(p, RunNowhere(name))
       <==> name in p.scripts
            && forall i | i in p.ci + p.bridge :: i != "tools/" + name && !("tools/" + name + " " <= i)
  {
    hide Script;
    forall i ensures Script(i) == "tools/" + name <==> i == "tools/" + name || "tools/" + name + " " <= i {
      ScriptIs(i, "tools/" + name);
    }
  }

  /** What is reported about each side, about scripts, and when a gate runs nothing. */
  lemma ReportsMean(p: Parity)
    ensures p.ci == {} || p.bridge == {} ==> forall x :: IsProblem(p, x) <==> x == Vacuous
    ensures p.ci != {} && p.bridge != {} ==>
              && !IsProblem(p, Vacuous)
              && SideReports(p, Ci, p.ci, p.bridge, p.ciOnly, p.bridgeOnly)
              && SideReports(p, Bridge, p.bridge, p.ci, p.bridgeOnly, p.ciOnly)
              && forall name | ' ' !in name ::
                   IsProblem(p, RunNowhere(name))
                   <==> name in p.scripts
                        && forall i | i in p.ci + p.bridge :: i != "tools/" + name && !("tools/" + name + " " <= i)
  {
    hide SideReports, Uncovered, Misfiled, Idle, OffCount, Invoked;
    if p.ci != {} && p.bridge != {} {
      SideMeans(p, Ci, p.ci, p.bridge, p.ciOnly, p.bridgeOnly);
      SideMeans(p, Bridge, p.bridge, p.ci, p.bridgeOnly, p.ciOnly);
      forall name | ' ' !in name
        ensures IsProblem(p, RunNowhere(name))
           <==> name in p.scripts
                && forall i | i in p.ci + p.bridge :: i != "tools/" + name && !("tools/" + name + " " <= i)
      {
        ScriptMeans(p, name);
      }
    }
  }

  ghost predicate Silent(p: Parity) {
    forall x :: !IsProblem(p, x)
  }

  /** One side in order: each divergence declared for that side only, each declaration at work. */
  predicate InOrder(p: Parity, side: Side) {
    && (forall i | i in p.Diverging(side) :: AnyCovers(p.For(side), i) && !AnyCovers(p.For(Other(side)), i))
    && (forall d | d in p.For(side) ::
          && Hits(d.token, p.Diverging(side)) != {}
          && (d.count.Some? ==> d.count.value == |Hits(d.token, p.Diverging(side))|))
  }

  lemma SilentSide(p: Parity, side: Side)
    requires p.ci != {} && p.bridge != {} && Silent(p)
    ensures InOrder(p, side)
  {
    hide Covers;
    var div := p.Diverging(side);
    forall i | i in div ensures AnyCovers(p.For(side), i) && !AnyCovers(p.For(Other(side)), i) {
      assert !IsProblem(p, Undeclared(side, i)) && !IsProblem(p, WrongWay(side, i));
    }
    forall d | d in p.For(side)
      ensures Hits(d.token, div) != {} && (d.count.Some? ==> d.count.value == |Hits(d.token, div)|)
    {
      assert !IsProblem(p, Stale(side, d.token));
      if d.count.Some? {
        assert d == Declared(d.token, Some(d.count.value));
        assert !IsProblem(p, Miscounted(side, d.token, d.count.value, |Hits(d.token, div)|));
      }
    }
  }

  /** Silence, for gates that run something: both sides in order and every script run somewhere. */
  lemma SilentIff(p: Parity)
    requires p.ci != {} && p.bridge != {}
    ensures Silent(p) <==> InOrder(p, Ci) && InOrder(p, Bridge) && forall name | name in p.scripts :: Invoked(p, name)
  {
    hide Covers;
    if Silent(p) {
      SilentSide(p, Ci);
      SilentSide(p, Bridge);
      forall name | name in p.scripts ensures Invoked(p, name) { assert !IsProblem(p, RunNowhere(name)); }
    }
    if InOrder(p, Ci) && InOrder(p, Bridge) && forall name | name in p.scripts :: Invoked(p, name) {
      forall x ensures !IsProblem(p, x) {
        if !x.Vacuous? && !x.RunNowhere? { assert InOrder(p, x.side); }
      }
    }
  }

  // ---------------------------------------------------------------------------------------------
  // expand_gate
  // ---------------------------------------------------------------------------------------------

  /** A gate that calls the single gate runs what the single gate runs. */
  function ExpandGate(calls: bool, invs: set<string>, coverage: set<string>): set<string> {
    if calls then invs + coverage else invs
  }

  function Expand(p: Parity, coverage: set<string>): Parity {
    p.(ci := ExpandGate(true, p.ci, coverage), bridge := ExpandGate(true, p.bridge, coverage))
  }

  /** When both gates call it, the single gate's commands stop diverging and nothing else changes. */
  lemma ExpansionRemovesDivergence(p: Parity, coverage: set<string>, side: Side)
    ensures Expand(p, coverage).Diverging(side) == p.Diverging(side) - coverage
  {
  }

  /** No divergence becomes a problem by expansion; the only new reports are about declarations. */
  lemma ExpansionAddsOnlyDeclarationProblems(p: Parity, coverage: set<string>, x: Problem)
    requires p.ci != {} && p.bridge != {} && IsProblem(Expand(p, coverage), x) && !IsProblem(p, x)
    ensures x.Stale? || x.Miscounted?
  {
  }

  /** A declaration that only covered commands of the single gate is reported stale, exactly then. */
  lemma ExpansionStales(p: Parity, coverage: set<string>, side: Side, d: Declared)
    requires p.ci != {} && p.bridge != {} && d in p.For(side)
    ensures IsProblem(Expand(p, coverage), Stale(side, d.token)) <==> Hits(d.token, p.Diverging(side)) <= coverage
  {
    hide Covers;
    ExpansionRemovesDivergence(p, coverage, side);
    var div := p.Diverging(side);
    if Hits(d.token, div) <= coverage {
      assert Hits(d.token, div - coverage) == {};
    } else {
      var i :| i in Hits(d.token, div) && i !in coverage;
      assert i in Hits(d.token, div - coverage);
    }
  }
}
