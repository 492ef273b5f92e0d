/**
 Module reachability (tools/check_scope_table.py): the worklist over `mod` declarations and the orphan
 rule that reads its result.
 */
module ScopeTable {
  import opened Wrappers

  /** A path, outermost directory first. */
  type Path = seq<string>

  /** The files that exist, and the modules each declares. */
  datatype Tree = Tree(files: set<Path>, declares: map<Path, set<string>>) {
    function Modules(f: Path): set<string> {
      if f in declares then declares[f] else {}
    }
  }

  function Parent(p: Path): Path {
    if p == [] then [] else p[..|p| - 1]
  }

  /** `name.rs` in the directory, or else `name/mod.rs`. */
  function ModuleFile(t: Tree, dir: Path, name: string): (r: Option<Path>)
    ensures r.Some? ==> r.value in t.files
  {
    if dir + [name + ".rs"] in t.files then Some(dir + [name + ".rs"])
    else if dir + [name, "mod.rs"] in t.files then Some(dir + [name, "mod.rs"])
    else None
  }

  /** Which file a module name finds in a directory, for each of the two spellings. */
  lemma ModuleFileIs(t: Tree, dir: Path, name: string)
    ensures dir + [name + ".rs"] in t.files ==> ModuleFile(t, dir, name) == Some(dir + [name + ".rs"])
    ensures dir + [name + ".rs"] !in t.files && dir + [name, "mod.rs"] in t.files ==>
              ModuleFile(t, dir, name) == Some(dir + [name, "mod.rs"])
    ensures dir + [name + ".rs"] !in t.files && dir + [name, "mod.rs"] !in t.files ==> ModuleFile(t, dir, name) == None
  {
  }

  /** The file next to `f`, or else the one a directory up. */
  function Preferred(t: Tree, f: Path, name: string): Option<Path> {
    var near := ModuleFile(t, Parent(f), name);
    if near.Some? then near else ModuleFile(t, Parent(Parent(f)), name)
  }

  predicate Candidate(t: Tree, f: Path, name: string, g: Path) {
    ModuleFile(t, Parent(f), name) == Some(g) || ModuleFile(t, Parent(Parent(f)), name) == Some(g)
  }

  /** One `mod` declaration leads from `f` to `g`: to any candidate, or only to the preferred one. */
  predicate Leads(t: Tree, f: Path, g: Path, wide: bool) {
    exists name | name in t.Modules(f) ::
      if wide then Candidate(t, f, name, g) else Preferred(t, f, name) == Some(g)
  }

  predicate Trail(t: Tree, trail: seq<Path>, root: Path, g: Path, wide: bool) {
    && 0 < |trail| && trail[0] == root && trail[|trail| - 1] == g
    && forall i | 0 <= i < |trail| - 1 :: Leads(t, trail[i], trail[i + 1], wide)
  }

  /** `g` is in the closure of the root under `mod` declarations. */
  ghost predicate Reached(t: Tree, root: Path, g: Path, wide: bool) {
    exists trail :: Trail(t, trail, root, g, wide)
  }

  lemma ReachedStart(t: Tree, root: Path, wide: bool)
    ensures Reached(t, root, root, wide)
  {
    assert Trail(t, [root], root, root, wide);
  }

  lemma ReachedStep(t: Tree, root: Path, f: Path, g: Path, wide: bool)
    requires Reached(t, root, f, wide) && Leads(t, f, g, wide)
    ensures Reached(t, root, g, wide)
  {
    var trail :| Trail(t, trail, root, f, wide);
    var longer := trail + [g];
    forall i | 0 <= i < |longer| - 1 ensures Leads(t, longer[i], longer[i + 1], wide) {
      if i < |trail| - 1 { assert Leads(t, trail[i], trail[i + 1], wide); }
    }
    assert Trail(t, longer, root, g, wide);
  }

  ghost predicate Closed(t: Tree, s: set<Path>) {
    forall f, g | f in s && Leads(t, f, g, false) :: g in s
  }

  lemma {:induction false} ClosedHoldsTrail(t: Tree, s: set<Path>, trail: seq<Path>, root: Path, g: Path)
    requires Closed(t, s) && root in s && Trail(t, trail, root, g, false)
    ensures g in s
    decreases |trail|
  {
    if |trail| > 1 {
      var n := |trail| - 1;
      var shorter := trail[..n];
      assert Leads(t, trail[n - 1], trail[n], false);
      forall i | 0 <= i < |shorter| - 1 ensures Leads(t, shorter[i], shorter[i + 1], false) {
        assert Leads(t, trail[i], trail[i + 1], false);
      }
      ClosedHoldsTrail(t, s, shorter, root, trail[n - 1]);
    }
  }

  // ---------------------------------------------------------------------------------------------
  // Declarations, spelled out
  // ---------------------------------------------------------------------------------------------

  /** `f` is one of the places where `mod name;` in a file of directory `up/last` may be found. */
  predicate Spelled(up: Path, last: string, name: string, f: Path) {
    || f == up + [last, name + ".rs"] || f == up + [last, name, "mod.rs"]
    || f == up + [name + ".rs"] || f == up + [name, "mod.rs"]
  }

  /** File `up/last/base` declares a module that may be found at `f`, where a file is. */
  ghost predicate MayDeclare(t: Tree, up: Path, last: string, base: string, f: Path) {
    f in t.files && exists name | name in t.Modules(up + [last, base]) :: Spelled(up, last, name, f)
  }

  /** It declares one whose only file is `f`. */
  ghost predicate OnlyDeclares(t: Tree, up: Path, last: string, base: string, f: Path) {
    && f in t.files
    && exists name | name in t.Modules(up + [last, base]) ::
         Spelled(up, last, name, f) && forall g | g in t.files && Spelled(up, last, name, g) :: g == f
  }

  lemma Directories(up: Path, last: string, base: string, name: string)
    ensures var f := up + [last, base];
            && Parent(f) == up + [last] && Parent(Parent(f)) == up
            && Parent(f) + [name + ".rs"] == up + [last, name + ".rs"]
            && Parent(f) + [name, "mod.rs"] == up + [last, name, "mod.rs"]
  {
    assert (up + [last, base])[..|up| + 1] == up + [last] && (up + [last])[..|up|] == up;
  }

  lemma LeadsIsSpelled(t: Tree, up: Path, last: string, base: string, g: Path)
    ensures Leads(t, up + [last, base], g, true) ==> MayDeclare(t, up, last, base, g)
    ensures OnlyDeclares(t, up, last, base, g) ==> Leads(t, up + [last, base], g, false)
  {
    var f := up + [last, base];
    hide Parent, ModuleFile;
    forall name ensures Candidate(t, f, name, g) ==> g in t.files && Spelled(up, last, name, g) {
      Directories(up, last, base, name);
      ModuleFileIs(t, Parent(f), name);
      ModuleFileIs(t, Parent(Parent(f)), name);
    }
    if OnlyDeclares(t, up, last, base, g) {
      var name :| name in t.Modules(f) && Spelled(up, last, name, g)
                  && forall h | h in t.files && Spelled(up, last, name, h) :: h == g;
      Directories(up, last, base, name);
      ModuleFileIs(t, Parent(f), name);
      ModuleFileIs(t, Parent(Parent(f)), name);
      assert Preferred(t, f, name) == Some(g);
    }
  }

  ghost predicate Declares(t: Tree, f: Path, g: Path, sole: bool) {
    exists up, last, base ::
      f == up + [last, base] && if sole then OnlyDeclares(t, up, last, base, g) else MayDeclare(t, up, last, base, g)
  }

  ghost predicate DeclaredTrail(t: Tree, trail: seq<Path>, root: Path, g: Path, sole: bool) {
    && 0 < |trail| && trail[0] == root && trail[|trail| - 1] == g
    && forall i | 0 <= i < |trail| - 1 :: Declares(t, trail[i], trail[i + 1], sole)
  }

  /** Declarations, spelled out, lead from the root to `g`. */
  ghost predicate DeclaredFrom(t: Tree, root: Path, g: Path, sole: bool) {
    exists trail :: DeclaredTrail(t, trail, root, g, sole)
  }

  /** Every file, and the root, lies in a directory of a directory. */
  predicate Deep(t: Tree, root: Path) {
    2 <= |root| && forall f | f in t.files :: 2 <= |f|
  }

  /** The closures in these terms. */
  lemma ReachedIsDeclared(t: Tree, root: Path, g: Path)
    ensures DeclaredFrom(t, root, g, true) ==> Reached(t, root, g, false)
    ensures Deep(t, root) && Reached(t, root, g, true) ==> DeclaredFrom(t, root, g, false)
  {
    hide Leads, Declares;
    if DeclaredFrom(t, root, g, true) {
      var trail :| DeclaredTrail(t, trail, root, g, true);
      forall i | 0 <= i < |trail| - 1 ensures Leads(t, trail[i], trail[i + 1], false) {
        SoleIsLed(t, trail[i], trail[i + 1]);
      }
      assert Trail(t, trail, root, g, false);
    }
    if Deep(t, root) && Reached(t, root, g, true) {
      var trail :| Trail(t, trail, root, g, true);
      forall i | 0 <= i < |trail| - 1 ensures Declares(t, trail[i], trail[i + 1], false) {
        assert Leads(t, trail[i], trail[i + 1], true);
        if 0 < i {
          assert Leads(t, trail[i - 1], trail[i], true);
          LedIsFile(t, trail[i - 1], trail[i], true);
        }
        LedIsDeclared(t, trail[i], trail[i + 1]);
      }
      assert DeclaredTrail(t, trail, root, g, false);
    }
  }

  lemma SoleIsLed(t: Tree, f: Path, g: Path)
    requires Declares(t, f, g, true)
    ensures Leads(t, f, g, false)
  {
    hide Leads, OnlyDeclares;
    var up, last, base :| f == up + [last, base] && OnlyDeclares(t, up, last, base, g);
    LeadsIsSpelled(t, up, last, base, g);
  }

  lemma LedIsFile(t: Tree, f: Path, g: Path, wide: bool)
    requires Leads(t, f, g, wide)
    ensures g in t.files
  {
  }

  lemma LedIsDeclared(t: Tree, f: Path, g: Path)
    requires 2 <= |f| && Leads(t, f, g, true)
    ensures Declares(t, f, g, false)
  {
    hide Leads, MayDeclare;
    var n := |f| - 2;
    assert f == f[..n] + [f[n], f[n + 1]];
    LeadsIsSpelled(t, f[..n], f[n], f[n + 1], g);
  }

  // ---------------------------------------------------------------------------------------------
  // Visiting in any order
  // ---------------------------------------------------------------------------------------------

  /** What a declaration in `f` queues: the first of its two candidates that was not seen yet. */
  function Pick(t: Tree, seen: set<Path>, f: Path, name: string): Option<Path> {
    var near := ModuleFile(t, Parent(f), name);
    var far := ModuleFile(t, Parent(Parent(f)), name);
    if near.Some? && near.value !in seen then near
    else if far.Some? && far.value !in seen then far
    else None
  }

  function Picks(t: Tree, seen: set<Path>, f: Path, names: set<string>): set<Path> {
    set name | name in names && Pick(t, seen, f, name).Some? :: Pick(t, seen, f, name).value
  }

  /** The files seen, and those queued that are not. */
  datatype Work = Work(seen: set<Path>, waiting: set<Path>)

  function Visit(t: Tree, w: Work, f: Path): Work {
    if f !in t.files then w.(waiting := w.waiting - {f})
    else
      var seen := w.seen + {f};
      Work(seen, w.waiting - {f} + Picks(t, seen, f, t.Modules(f)))
  }

  function After(t: Tree, root: Path, order: seq<Path>): Work {
    if order == [] then Work({}, {root}) else Visit(t, After(t, root, order[..|order| - 1]), order[|order| - 1])
  }

  /** Each visit in the order takes a file that is waiting then, whichever. */
  predicate IsOrder(t: Tree, root: Path, order: seq<Path>) {
    order == [] || (var n := |order| - 1;
                    IsOrder(t, root, order[..n]) && order[n] in After(t, root, order[..n]).waiting)
  }

  /** Some order of visits ends with exactly these files seen and none waiting. */
  ghost predicate Result(t: Tree, root: Path, seen: set<Path>) {
    exists order :: IsOrder(t, root, order) && After(t, root, order) == Work(seen, {})
  }

  /** What holds of the files seen and waiting after any visits. */
  ghost predicate Sound(t: Tree, root: Path, w: Work) {
    && w.seen <= t.files && w.seen !! w.waiting
    && (forall g | g in w.seen + w.waiting :: Reached(t, root, g, true))
    && (forall g | g in w.waiting :: g in t.files || g == root)
    && (root in t.files ==> root in w.seen + w.waiting)
    && forall f, g | f in w.seen && Leads(t, f, g, false) :: g in w.seen + w.waiting
  }

  lemma PickLeads(t: Tree, root: Path, seen: set<Path>, f: Path, g: Path)
    requires Reached(t, root, f, true) && g in Picks(t, seen, f, t.Modules(f))
    ensures g in t.files && g !in seen && Reached(t, root, g, true)
  {
    var name :| name in t.Modules(f) && Pick(t, seen, f, name) == Some(g);
    assert Candidate(t, f, name, g);
    assert Leads(t, f, g, true);
    ReachedStep(t, root, f, g, true);
  }

  lemma VisitKeepsSound(t: Tree, root: Path, w: Work, f: Path)
    requires Sound(t, root, w) && f in w.waiting
    ensures Sound(t, root, Visit(t, w, f))
  {
    hide Reached, Leads, Picks;
    var v := Visit(t, w, f);
    forall h, g | h in w.seen && Leads(t, h, g, false) ensures g in t.files { LedIsFile(t, h, g, false); }
    if f in t.files {
      var picks := Picks(t, v.seen, f, t.Modules(f));
      forall g | g in picks ensures g in t.files && g !in v.seen && Reached(t, root, g, true) {
        PickLeads(t, root, v.seen, f, g);
      }
      forall g | Leads(t, f, g, false) ensures g in v.seen + v.waiting { PreferredIsPicked(t, v.seen, f, g); }
    }
  }

  lemma PreferredIsPicked(t: Tree, seen: set<Path>, f: Path, g: Path)
    requires Leads(t, f, g, false)
    ensures g in seen || g in Picks(t, seen, f, t.Modules(f))
  {
    var name :| name in t.Modules(f) && Preferred(t, f, name) == Some(g);
    if g !in seen { assert Pick(t, seen, f, name) == Some(g); }
  }

  lemma {:induction false} OrderIsSound(t: Tree, root: Path, order: seq<Path>)
    requires IsOrder(t, root, order)
    ensures Sound(t, root, After(t, root, order))
    decreases |order|
  {
    if order == [] {
      ReachedStart(t, root, true);
    } else {
      var n := |order| - 1;
      OrderIsSound(t, root, order[..n]);
      VisitKeepsSound(t, root, After(t, root, order[..n]), order[n]);
    }
  }

  /**
   In whatever order waiting files are visited, what is seen in the end holds the closure under preferred
   candidates and lies within the closure under all candidates.
   */
  lemma EveryOrderBrackets(t: Tree, root: Path, seen: set<Path>)
    requires Result(t, root, seen)
    ensures root in t.files ==> forall g | Reached(t, root, g, false) :: g in seen
    ensures forall g | g in seen :: g in t.files && Reached(t, root, g, true)
  {
    hide Leads;
    var order :| IsOrder(t, root, order) && After(t, root, order) == Work(seen, {});
    OrderIsSound(t, root, order);
    if root in t.files {
      forall g | Reached(t, root, g, false) ensures g in seen {
        var trail :| Trail(t, trail, root, g, false);
        ClosedHoldsTrail(t, seen, trail, root, g);
      }
    }
  }

  /** No declaration of a reachable file has a candidate besides the preferred one. */
  ghost predicate OneCandidate(t: Tree, root: Path) {
    forall f, g | Reached(t, root, f, true) && Leads(t, f, g, true) :: Leads(t, f, g, false)
  }

  lemma NarrowTrail(t: Tree, trail: seq<Path>, root: Path, g: Path)
    requires OneCandidate(t, root) && Trail(t, trail, root, g, true)
    ensures Trail(t, trail, root, g, false)
  {
    hide Leads;
    forall i | 0 <= i < |trail| - 1 ensures Leads(t, trail[i], trail[i + 1], false) {
      assert Leads(t, trail[i], trail[i + 1], true);
      assert Trail(t, trail[..i + 1], root, trail[i], true);
    }
  }

  /** Then every order sees the same: all that is reachable. */
  lemma OneCandidateOneResult(t: Tree, root: Path, seen: set<Path>)
    requires root in t.files && OneCandidate(t, root) && Result(t, root, seen)
    ensures forall g :: g in seen <==> Reached(t, root, g, true)
  {
    hide Result, OneCandidate;
    EveryOrderBrackets(t, root, seen);
    forall g | Reached(t, root, g, true) ensures Reached(t, root, g, false) {
      var trail :| Trail(t, trail, root, g, true);
      NarrowTrail(t, trail, root, g);
    }
  }

  // ---------------------------------------------------------------------------------------------
  // The worklist
  // ---------------------------------------------------------------------------------------------

  lemma PicksOneMore(t: Tree, seen: set<Path>, f: Path, names: set<string>, name: string)
    ensures var p := Pick(t, seen, f, name);
            Picks(t, seen, f, names + {name}) == Picks(t, seen, f, names) + if p.Some? then {p.value} else {}
  {
    hide Pick;
  }

  function Unseen(queue: seq<Path>, seen: set<Path>): set<Path> {
    set q | q in queue && q !in seen
  }

  /** Queues, for each module `f` declares, its first candidate that was not seen yet. */
  method Expand(t: Tree, seen: set<Path>, queue: seq<Path>, f: Path) returns (queue': seq<Path>)
    ensures queue <= queue'
    ensures Unseen(queue', seen) == Unseen(queue, seen) + Picks(t, seen, f, t.Modules(f))
    ensures forall q | q in queue' :: q in queue || q in t.files
  {
    queue' := queue;
    var names := t.Modules(f);
    while names != {}
      invariant names <= t.Modules(f) && queue <= queue'
      invariant Unseen(queue', seen) == Unseen(queue, seen) + Picks(t, seen, f, t.Modules(f) - names)
      invariant forall q | q in queue' :: q in queue || q in t.files
    {
      ghost var done := t.Modules(f) - names;
      var name :| name in names;
      names := names - {name};
      var cand := ModuleFile(t, Parent(f), name);
      if cand.None? || cand.value in seen {
        cand := ModuleFile(t, Parent(Parent(f)), name);
      }
      assert t.Modules(f) - names == done + {name};
      PicksOneMore(t, seen, f, done, name);
      if cand.Some? && cand.value !in seen {
        assert Unseen(queue' + [cand.value], seen) == Unseen(queue', seen) + {cand.value};
        queue' := queue' + [cand.value];
      }
    }
  }

  /** Every file reachable from the root; which of the waiting files is popped is left open. */
  method ReachableModules(t: Tree, root: Path) returns (seen: set<Path>)
    ensures Result(t, root, seen)
    ensures root in t.files ==> forall g | Reached(t, root, g, false) :: g in seen
    ensures forall g | g in seen :: g in t.files && Reached(t, root, g, true)
  {
    seen := {};
    var queue := [root];
    ghost var order: seq<Path> := [];
    while queue != []
      invariant seen <= t.files
      invariant IsOrder(t, root, order) && After(t, root, order) == Work(seen, Unseen(queue, seen))
      invariant forall q | q in queue :: q in t.files || queue == [root]
      decreases t.files - seen, |queue|
    {
      var k :| 0 <= k < |queue|;
      var f := queue[k];
      ghost var waiting := Unseen(queue, seen);
      queue := queue[..k] + queue[k + 1..];
      if f in seen {
        assert Unseen(queue, seen) == waiting;
        continue;
      }
      assert (order + [f])[..|order|] == order;
      order := order + [f];
      if f !in t.files {
        assert Unseen(queue, seen) == waiting - {f};
        continue;
      }
      seen := seen + {f};
      assert Unseen(queue, seen) == waiting - {f};
      queue := Expand(t, seen, queue, f);
    }
    assert Unseen(queue, seen) == {};
    EveryOrderBrackets(t, root, seen);
  }

  /**
   The order does matter: on one tree, with the root `src/lib.rs`, one order sees the closure under
   preferred candidates and another sees `b.rs` beside `src` too.
   */
  lemma OrderMatters()
    ensures var lib, a, b, far := ["src", "lib.rs"], ["src", "a.rs"], ["src", "b.rs"], ["b.rs"];
            var t := Tree({lib, a, b, far}, map[lib := {"a", "b"}, a := {"b"}]);
            Result(t, lib, {lib, a, b}) && Result(t, lib, {lib, a, b, far})
  {
    var lib, a, b, far := ["src", "lib.rs"], ["src", "a.rs"], ["src", "b.rs"], ["b.rs"];
    var t := Tree({lib, a, b, far}, map[lib := {"a", "b"}, a := {"b"}]);
    hide Visit, After, IsOrder;
    CrossTree(t, lib, a, b, far);
    FirstVisit(t, lib, Work({lib}, {a, b}));
    assert [lib] + [a] + [b] == [lib, a, b] && [lib] + [b] + [a] + [far] == [lib, b, a, far];
    OneMoreVisit(t, lib, [lib], a);
    OneMoreVisit(t, lib, [lib] + [a], b);
    OneMoreVisit(t, lib, [lib], b);
    OneMoreVisit(t, lib, [lib] + [b], a);
    OneMoreVisit(t, lib, [lib] + [b] + [a], far);
  }

  lemma FirstVisit(t: Tree, root: Path, w: Work)
    requires Visit(t, Work({}, {root}), root) == w
    ensures IsOrder(t, root, [root]) && After(t, root, [root]) == w
  {
    assert [root][..0] == [];
  }

  lemma OneMoreVisit(t: Tree, root: Path, order: seq<Path>, f: Path)
    ensures After(t, root, order + [f]) == Visit(t, After(t, root, order), f)
    ensures IsOrder(t, root, order + [f]) <==> IsOrder(t, root, order) && f in After(t, root, order).waiting
  {
    assert (order + [f])[..|order|] == order;
  }

  /** Each visit on that tree. */
  lemma CrossTree(t: Tree, lib: Path, a: Path, b: Path, far: Path)
    requires lib == ["src", "lib.rs"] && a == ["src", "a.rs"] && b == ["src", "b.rs"] && far == ["b.rs"]
    requires t == Tree({lib, a, b, far}, map[lib := {"a", "b"}, a := {"b"}])
    ensures Visit(t, Work({}, {lib}), lib) == Work({lib}, {a, b})
    ensures Visit(t, Work({lib}, {a, b}), a) == Work({lib, a}, {b})
    ensures Visit(t, Work({lib, a}, {b}), b) == Work({lib, a, b}, {})
    ensures Visit(t, Work({lib}, {a, b}), b) == Work({lib, b}, {a})
    ensures Visit(t, Work({lib, b}, {a}), a) == Work({lib, a, b}, {far})
    ensures Visit(t, Work({lib, a, b}, {far}), far) == Work({lib, a, b, far}, {})
  {
    hide Picks, Parent;
    CrossPicks(t, lib, a, b, far);
    assert Visit(t, Work({lib}, {a, b}), b).waiting == {a} + Picks(t, {lib, b}, b, {}) == {a};
    assert {} + {lib} == {lib} && {lib} + {a} == {lib, a} && {a, b} - {a} == {b};
    assert {lib, b} + {a} == {lib, a, b} && {lib, a} + {b} == {lib, a, b};
  }

  lemma CrossPicks(t: Tree, lib: Path, a: Path, b: Path, far: Path)
    requires lib == ["src", "lib.rs"] && a == ["src", "a.rs"] && b == ["src", "b.rs"] && far == ["b.rs"]
    requires t == Tree({lib, a, b, far}, map[lib := {"a", "b"}, a := {"b"}])
    ensures Picks(t, {lib}, lib, {"a", "b"}) == {a, b}
    ensures Picks(t, {lib, a}, a, {"b"}) == {b} && Picks(t, {lib, a, b}, a, {"b"}) == {far}
    ensures forall seen, f :: Picks(t, seen, f, {}) == {}
  {
    var src: Path := ["src"];
    assert "a" + ".rs" == "a.rs" && "b" + ".rs" == "b.rs";
    assert Parent(lib) == src && Parent(a) == src && Parent(src) == [];
    assert src + ["a.rs"] == a && src + ["b.rs"] == b && [] + ["b.rs"] == far;
    hide Parent;
    assert ModuleFile(t, src, "a") == Some(a) && ModuleFile(t, src, "b") == Some(b);
    assert ModuleFile(t, [], "b") == Some(far);
    hide ModuleFile;
    assert Pick(t, {lib}, lib, "a") == Some(a) && Pick(t, {lib}, lib, "b") == Some(b);
    assert Pick(t, {lib, a}, a, "b") == Some(b) && Pick(t, {lib, a, b}, a, "b") == Some(far);
  }

  /** The orphan rule over the source files found on disk. */
  method Orphans(t: Tree, root: Path, sources: seq<Path>) returns (orphans: seq<Path>)
    ensures forall f | f in sources && !Reached(t, root, f, true) :: f in orphans
    ensures root in t.files ==> forall f | f in orphans :: f in sources && !Reached(t, root, f, false)
    ensures root in t.files ==> forall f | f in orphans :: !DeclaredFrom(t, root, f, true)
    ensures Deep(t, root) ==> forall f | f in sources && !DeclaredFrom(t, root, f, false) :: f in orphans
  {
    hide Reached, DeclaredFrom;
    var reachable := ReachableModules(t, root);
    orphans := [];
    for i := 0 to |sources|
      invariant forall k | 0 <= k < i :: sources[k] in reachable || sources[k] in orphans
      invariant forall f | f in orphans :: f in sources && f !in reachable
    {
      if sources[i] !in reachable { orphans := orphans + [sources[i]]; }
    }
    forall f ensures DeclaredFrom(t, root, f, true) ==> Reached(t, root, f, false)
             ensures Deep(t, root) && Reached(t, root, f, true) ==> DeclaredFrom(t, root, f, false)
    {
      ReachedIsDeclared(t, root, f);
    }
  }
}
