/**
 The checklist that must agree with itself (tools/check_checklist_counts.py): `analyse`, which reports
 every disagreement, and `fix`, which rewrites both tables from the items.
 */
module Checklist {
  import opened Weights

  datatype AreaRow = AreaRow(area: string, meaning: string, n: nat, owner: string)
  datatype MapRow = MapRow(phase: string, areas: seq<string>)
  datatype PhaseRow = PhaseRow(phase: string, starred: bool, name: string, milestone: string, n: nat)

  /** The parts of the document the patterns pick out, in document order; an item is its area. */
  datatype Doc = Doc(
    items: seq<string>,
    areaRows: seq<AreaRow>,
    totals: seq<nat>,
    mapRows: seq<MapRow>,
    phaseRows: seq<PhaseRow>,
    phaseTotals: seq<nat>)

  // ---------------------------------------------------------------------------------------------
  // Readings of the document
  // ---------------------------------------------------------------------------------------------

  /** How many items each area has; areas without items are absent. */
  function Actual(items: seq<string>): map<string, nat> {
    map a | a in items :: multiset(items)[a]
  }

  /** The last row of an area wins. */
  function DeclaredAreas(rows: seq<AreaRow>): map<string, nat> {
    if rows == [] then map[]
    else DeclaredAreas(rows[..|rows| - 1])[rows[|rows| - 1].area := rows[|rows| - 1].n]
  }

  function PhaseMap(rows: seq<MapRow>): map<string, seq<string>> {
    if rows == [] then map[]
    else PhaseMap(rows[..|rows| - 1])[rows[|rows| - 1].phase := rows[|rows| - 1].areas]
  }

  function DeclaredPhases(rows: seq<PhaseRow>): map<string, nat> {
    if rows == [] then map[]
    else DeclaredPhases(rows[..|rows| - 1])[rows[|rows| - 1].phase := rows[|rows| - 1].n]
  }

  /** The keys are the areas that occur, and the counts are how often they do; together all items. */
  method CountsByArea(items: seq<string>) returns (out: map<string, nat>)
    ensures out == Actual(items)
    ensures forall a :: (a in out <==> a in items) && (a in out ==> out[a] == multiset(items)[a])
    ensures Total(out) == |items|
  {
    CountsAddUp(items);
    out := map[];
    for i := 0 to |items|
      invariant out == Actual(items[..i])
    {
      assert items[..i + 1] == items[..i] + [items[i]];
      out := out[items[i] := (if items[i] in out then out[items[i]] else 0) + 1];
    }
    assert items[..|items|] == items;
  }

  lemma {:induction false} CountsAddUp(items: seq<string>)
    ensures Total(Actual(items)) == |items|
  {
    hide Total;
    if items == [] {
      NothingTotals();
    } else {
      var n := |items| - 1;
      var rest, a := items[..n], items[n];
      CountsAddUp(rest);
      assert items == rest + [a];
      TotalPick(Actual(items), a);
      if a in rest {
        TotalPick(Actual(rest), a);
        assert Actual(items) - {a} == Actual(rest) - {a};
      } else {
        assert Actual(items) - {a} == Actual(rest);
      }
    }
  }

  lemma NothingTotals()
    ensures Total(map[]) == 0 && Actual([]) == map[]
  {
  }

  // In each table the last row of a name counts.

  lemma {:induction false} LastAreaRow(rows: seq<AreaRow>, k: nat)
    ensures forall a :: a in DeclaredAreas(rows) <==> exists i | 0 <= i < |rows| :: rows[i].area == a
    ensures k < |rows| && (forall i | k < i < |rows| :: rows[i].area != rows[k].area) ==>
              rows[k].area in DeclaredAreas(rows) && DeclaredAreas(rows)[rows[k].area] == rows[k].n
  {
    if rows != [] { LastAreaRow(rows[..|rows| - 1], k); }
  }

  lemma {:induction false} LastMapRow(rows: seq<MapRow>, k: nat)
    ensures forall p :: p in PhaseMap(rows) <==> exists i | 0 <= i < |rows| :: rows[i].phase == p
    ensures k < |rows| && (forall i | k < i < |rows| :: rows[i].phase != rows[k].phase) ==>
              rows[k].phase in PhaseMap(rows) && PhaseMap(rows)[rows[k].phase] == rows[k].areas
  {
    if rows != [] { LastMapRow(rows[..|rows| - 1], k); }
  }

  lemma {:induction false} LastPhaseRow(rows: seq<PhaseRow>, k: nat)
    ensures forall p :: p in DeclaredPhases(rows) <==> exists i | 0 <= i < |rows| :: rows[i].phase == p
    ensures k < |rows| && (forall i | k < i < |rows| :: rows[i].phase != rows[k].phase) ==>
              rows[k].phase in DeclaredPhases(rows) && DeclaredPhases(rows)[rows[k].phase] == rows[k].n
  {
    if rows != [] { LastPhaseRow(rows[..|rows| - 1], k); }
  }

  predicate Covered(mapping: map<string, seq<string>>, a: string) {
    exists p | p in mapping :: a in mapping[p]
  }

  // ---------------------------------------------------------------------------------------------
  // analyse
  // ---------------------------------------------------------------------------------------------

  datatype Problem =
    | NoAreaRow(area: string, got: nat)
    | AreaDiffers(area: string, want: nat, got: nat)
    | NoTotal
    | TotalVsRows(stated: nat, sum: nat)
    | TotalVsItems(stated: nat, sum: nat)
    | InNoPhase(area: string)
    | PhaseUnmapped(phase: string)
    | PhaseWithoutRow(phase: string)
    | PhaseDiffers(phase: string, got: nat, want: nat)
    | NoPhaseTotal
    | PhaseTotalVsRows(stated: nat, sum: nat)
    | PhaseTotalVsItems(stated: nat, sum: nat)

  // What each report means, section by section.

  predicate AreaProblem(actual: map<string, nat>, declared: map<string, nat>, p: Problem) {
    match p
    case NoAreaRow(a, got) => a in actual && a !in declared && got == actual[a]
    case AreaDiffers(a, want, got) => a in declared && want == declared[a] && got == Get(actual, a) && want != got
    case _ => false
  }

  ghost predicate TotalProblem(totals: seq<nat>, declared: map<string, nat>, actual: map<string, nat>, p: Problem) {
    match p
    case NoTotal => totals == []
    case TotalVsRows(stated, sum) => totals != [] && stated == totals[0] && sum == Total(declared) && stated != sum
    case TotalVsItems(stated, sum) => totals != [] && stated == totals[0] && sum == Total(actual) && stated != sum
    case _ => false
  }

  predicate CoverProblem(actual: map<string, nat>, mapping: map<string, seq<string>>, p: Problem) {
    p.InNoPhase? && p.area in actual && !Covered(mapping, p.area)
  }

  predicate PhaseProblem(
    actual: map<string, nat>, mapping: map<string, seq<string>>, phases: map<string, nat>, p: Problem)
  {
    match p
    case PhaseUnmapped(ph) => ph in phases && ph !in mapping
    case PhaseWithoutRow(ph) => ph in mapping && ph !in phases
    case PhaseDiffers(ph, got, want) =>
      ph in mapping && ph in phases && got == phases[ph] && want == SeqSum(mapping[ph], actual) && got != want
    case _ => false
  }

  ghost predicate PhaseTotalProblem(totals: seq<nat>, phases: map<string, nat>, actual: map<string, nat>, p: Problem) {
    match p
    case NoPhaseTotal => totals == []
    case PhaseTotalVsRows(stated, sum) => totals != [] && stated == totals[0] && sum == Total(phases) && stated != sum
    case PhaseTotalVsItems(stated, sum) => totals != [] && stated == totals[0] && sum == Total(actual) && stated != sum
    case _ => false
  }

  ghost predicate IsProblem(d: Doc, p: Problem) {
    var actual, declared := Actual(d.items), DeclaredAreas(d.areaRows);
    var mapping, phases := PhaseMap(d.mapRows), DeclaredPhases(d.phaseRows);
    || AreaProblem(actual, declared, p)
    || TotalProblem(d.totals, declared, actual, p)
    || CoverProblem(actual, mapping, p)
    || PhaseProblem(actual, mapping, phases, p)
    || PhaseTotalProblem(d.phaseTotals, phases, actual, p)
  }

  ghost predicate Silent(d: Doc) {
    forall p :: !IsProblem(d, p)
  }

  method AreaProblems(actual: map<string, nat>, declared: map<string, nat>) returns (out: seq<Problem>)
    ensures forall p :: p in out <==> AreaProblem(actual, declared, p)
  {
    out := [];
    var todo := actual.Keys + declared.Keys;
    while todo != {}
      invariant todo <= actual.Keys + declared.Keys
      invariant forall p :: p in out <==> AreaProblem(actual, declared, p) && p.area !in todo
    {
      var a :| a in todo;
      var got := Get(actual, a);
      if a !in declared {
        out := out + [NoAreaRow(a, got)];
      } else if declared[a] != got {
        out := out + [AreaDiffers(a, declared[a], got)];
      }
      todo := todo - {a};
    }
  }

  method TotalProblems(totals: seq<nat>, declared: map<string, nat>, actual: map<string, nat>)
    returns (out: seq<Problem>)
    ensures forall p :: p in out <==> TotalProblem(totals, declared, actual, p)
  {
    out := [];
    if totals == [] {
      return [NoTotal];
    }
    var rows := SumValues(declared);
    if totals[0] != rows { out := out + [TotalVsRows(totals[0], rows)]; }
    var items := SumValues(actual);
    if totals[0] != items { out := out + [TotalVsItems(totals[0], items)]; }
  }

  method CoverProblems(actual: map<string, nat>, mapping: map<string, seq<string>>) returns (out: seq<Problem>)
    ensures forall p :: p in out <==> CoverProblem(actual, mapping, p)
  {
    out := [];
    var todo := set a | a in actual && !Covered(mapping, a);
    while todo != {}
      invariant forall a | a in todo :: a in actual && !Covered(mapping, a)
      invariant forall p :: p in out <==> CoverProblem(actual, mapping, p) && p.area !in todo
    {
      var a :| a in todo;
      out := out + [InNoPhase(a)];
      todo := todo - {a};
    }
  }

  method PhaseProblems(actual: map<string, nat>, mapping: map<string, seq<string>>, phases: map<string, nat>)
    returns (out: seq<Problem>)
    ensures forall p :: p in out <==> PhaseProblem(actual, mapping, phases, p)
  {
    out := [];
    var todo := mapping.Keys + phases.Keys;
    while todo != {}
      invariant todo <= mapping.Keys + phases.Keys
      invariant forall p :: p in out <==> PhaseProblem(actual, mapping, phases, p) && p.phase !in todo
    {
      var ph :| ph in todo;
      todo := todo - {ph};
      if ph !in mapping {
        out := out + [PhaseUnmapped(ph)];
        continue;
      }
      var want := SeqSum(mapping[ph], actual);
      if ph !in phases {
        out := out + [PhaseWithoutRow(ph)];
      } else if phases[ph] != want {
        out := out + [PhaseDiffers(ph, phases[ph], want)];
      }
    }
  }

  method PhaseTotalProblems(totals: seq<nat>, phases: map<string, nat>, actual: map<string, nat>)
    returns (out: seq<Problem>)
    ensures forall p :: p in out <==> PhaseTotalProblem(totals, phases, actual, p)
  {
    out := [];
    if totals == [] {
      return [NoPhaseTotal];
    }
    var rows := SumValues(phases);
    if totals[0] != rows { out := out + [PhaseTotalVsRows(totals[0], rows)]; }
    var items := SumValues(actual);
    if totals[0] != items { out := out + [PhaseTotalVsItems(totals[0], items)]; }
  }

  /** Reports every disagreement in the document and nothing else. */
  method Analyse(d: Doc) returns (problems: seq<Problem>)
    ensures forall p :: p in problems <==> IsProblem(d, p)
    ensures problems == [] <==> Silent(d)
  {
    var actual := CountsByArea(d.items);
    var declared, mapping, phases := DeclaredAreas(d.areaRows), PhaseMap(d.mapRows), DeclaredPhases(d.phaseRows);
    var a := AreaProblems(actual, declared);
    var t := TotalProblems(d.totals, declared, actual);
    var c := CoverProblems(actual, mapping);
    var ph := PhaseProblems(actual, mapping, phases);
    var pt := PhaseTotalProblems(d.phaseTotals, phases, actual);
    problems := a + t + c + ph + pt;
    hide Actual, DeclaredAreas, PhaseMap, DeclaredPhases;
    assert forall p :: p in problems <==> p in a || p in t || p in c || p in ph || p in pt;
    if problems != [] { assert IsProblem(d, problems[0]); }
  }

  // ---------------------------------------------------------------------------------------------
  // A silent analysis means a partition
  // ---------------------------------------------------------------------------------------------

  /** All areas of all phases, each as often as it is listed. */
  ghost function Bag(m: map<string, seq<string>>): multiset<string>
    decreases |m|
  {
    if m == map[] then multiset{}
    else var p :| p in m; multiset(m[p]) + Bag(m - {p})
  }

  lemma {:induction false} BagPick(m: map<string, seq<string>>, p: string)
    requires p in m
    ensures Bag(m) == multiset(m[p]) + Bag(m - {p})
    decreases |m|
  {
    var q :| q in m && Bag(m) == multiset(m[q]) + Bag(m - {q});
    if p != q {
      BagPick(m - {q}, p);
      BagPick(m - {p}, q);
      assert m - {q} - {p} == m - {p} - {q};
    }
  }

  lemma {:induction false} BagHolds(m: map<string, seq<string>>, a: string)
    ensures a in Bag(m) <==> Covered(m, a)
    decreases |m|
  {
    if m != map[] {
      var p :| p in m;
      BagPick(m, p);
      BagHolds(m - {p}, a);
      if Covered(m, a) {
        var q :| q in m && a in m[q];
        assert q == p || q in m - {p};
      }
    }
  }

  lemma EmptyWeighsNothing(f: map<string, nat>)
    ensures Total(map[]) == 0 == Weight(Bag(map[]), f)
  {
  }

  /** Phase rows that each sum their areas, together weigh all phases. */
  lemma {:induction false} PhasesWeighBag(m: map<string, seq<string>>, phases: map<string, nat>, f: map<string, nat>)
    requires m.Keys == phases.Keys && forall p | p in m :: phases[p] == SeqSum(m[p], f)
    ensures Total(phases) == Weight(Bag(m), f)
    decreases |m|
  {
    hide Weight, Bag, SeqSum, Total;
    if m == map[] {
      assert phases == map[];
      EmptyWeighsNothing(f);
    } else {
      var p :| p in m;
      BagPick(m, p);
      WeightJoin(multiset(m[p]), Bag(m - {p}), f);
      WeightOfSeq(m[p], f);
      TotalPick(phases, p);
      PhasesWeighBag(m - {p}, phases - {p}, f);
    }
  }

  lemma TotalPick(f: map<string, nat>, k: string)
    requires k in f
    ensures Total(f) == f[k] + Total(f - {k})
  {
    WeightPick(multiset(f.Keys), f, k);
    assert multiset(f.Keys) - multiset{k} == multiset((f - {k}).Keys);
    WeightSame(multiset((f - {k}).Keys), f, f - {k});
  }

  /** What silence amounts to, rule by rule. */
  predicate AreasAgree(actual: map<string, nat>, declared: map<string, nat>) {
    actual.Keys <= declared.Keys && forall a | a in declared :: declared[a] == Get(actual, a)
  }

  ghost predicate PhasesAgree(actual: map<string, nat>, mapping: map<string, seq<string>>, phases: map<string, nat>) {
    mapping.Keys == phases.Keys && forall p | p in mapping :: phases[p] == SeqSum(mapping[p], actual)
  }

  ghost predicate Consistent(d: Doc) {
    var actual, declared := Actual(d.items), DeclaredAreas(d.areaRows);
    var mapping, phases := PhaseMap(d.mapRows), DeclaredPhases(d.phaseRows);
    && AreasAgree(actual, declared)
    && d.totals != [] && d.totals[0] == Total(declared) == Total(actual)
    && (forall a | a in actual :: Covered(mapping, a))
    && PhasesAgree(actual, mapping, phases)
    && d.phaseTotals != [] && d.phaseTotals[0] == Total(phases) == Total(actual)
  }

  lemma SilentMeansConsistent(d: Doc)
    ensures Silent(d) <==> Consistent(d)
  {
    hide DeclaredAreas, PhaseMap, DeclaredPhases, Actual, Total, SeqSum;
    var actual, declared := Actual(d.items), DeclaredAreas(d.areaRows);
    var mapping, phases := PhaseMap(d.mapRows), DeclaredPhases(d.phaseRows);
    if Silent(d) {
      forall a | a in actual ensures a in declared { assert !IsProblem(d, NoAreaRow(a, actual[a])); }
      forall a | a in declared ensures declared[a] == Get(actual, a) {
        assert !IsProblem(d, AreaDiffers(a, declared[a], Get(actual, a)));
      }
      assert !IsProblem(d, NoTotal);
      assert !IsProblem(d, TotalVsRows(d.totals[0], Total(declared)));
      assert !IsProblem(d, TotalVsItems(d.totals[0], Total(actual)));
      forall a | a in actual ensures Covered(mapping, a) { assert !IsProblem(d, InNoPhase(a)); }
      forall p | p in phases ensures p in mapping { assert !IsProblem(d, PhaseUnmapped(p)); }
      forall p | p in mapping ensures p in phases && phases[p] == SeqSum(mapping[p], actual) {
        assert !IsProblem(d, PhaseWithoutRow(p));
        assert !IsProblem(d, PhaseDiffers(p, phases[p], SeqSum(mapping[p], actual)));
      }
      assert !IsProblem(d, NoPhaseTotal);
      assert !IsProblem(d, PhaseTotalVsRows(d.phaseTotals[0], Total(phases)));
      assert !IsProblem(d, PhaseTotalVsItems(d.phaseTotals[0], Total(actual)));
    }
  }

  /**
   Although no rule looks for an area listed twice, a silent analysis means every area with items is
   listed exactly once over all phases: the two totals leave no room for a second listing.
   */
  lemma SilentMeansPartition(d: Doc)
    requires Silent(d)
    ensures forall a | a in d.items :: Bag(PhaseMap(d.mapRows))[a] == 1
  {
    SilentMeansConsistent(d);
    var actual, mapping := Actual(d.items), PhaseMap(d.mapRows);
    PhasesWeighBag(mapping, DeclaredPhases(d.phaseRows), actual);
    forall a | a in actual ensures a in Bag(mapping) { BagHolds(mapping, a); }
    EachKeyOnce(Bag(mapping), actual);
  }

  predicate LastArea(rows: seq<AreaRow>, k: nat) {
    k < |rows| && forall i | k < i < |rows| :: rows[i].area != rows[k].area
  }

  predicate LastPhase(rows: seq<PhaseRow>, k: nat) {
    k < |rows| && forall i | k < i < |rows| :: rows[i].phase != rows[k].phase
  }

  predicate LastMap(rows: seq<MapRow>, k: nat) {
    k < |rows| && forall i | k < i < |rows| :: rows[i].phase != rows[k].phase
  }

  /** Every area with items has a row, and the row that counts states how many items it has. */
  predicate AreaTableRight(d: Doc) {
    && (forall a | a in d.items :: exists i | 0 <= i < |d.areaRows| :: d.areaRows[i].area == a)
    && forall k | 0 <= k < |d.areaRows| && LastArea(d.areaRows, k) ::
         d.areaRows[k].n == multiset(d.items)[d.areaRows[k].area]
  }

  predicate HasPhaseRow(d: Doc, p: string) {
    exists i | 0 <= i < |d.phaseRows| :: d.phaseRows[i].phase == p
  }

  predicate HasMapRow(d: Doc, p: string) {
    exists i | 0 <= i < |d.mapRows| :: d.mapRows[i].phase == p
  }

  /** Both tables have the same phases, and the row that counts states how many items its areas have. */
  ghost predicate PhaseTableRight(d: Doc) {
    && (forall i | 0 <= i < |d.mapRows| :: HasPhaseRow(d, d.mapRows[i].phase))
    && (forall i | 0 <= i < |d.phaseRows| :: HasMapRow(d, d.phaseRows[i].phase))
    && forall k, m | 0 <= k < |d.phaseRows| && 0 <= m < |d.mapRows| && LastPhase(d.phaseRows, k)
                     && LastMap(d.mapRows, m) && d.mapRows[m].phase == d.phaseRows[k].phase ::
         d.phaseRows[k].n == |Pairs(d.mapRows[m].areas, d.items)|
  }

  /** Each listed area with each of its items. */
  function Pairs(areas: seq<string>, items: seq<string>): set<(int, int)> {
    set i, j | 0 <= i < |areas| && 0 <= j < |items| && areas[i] == items[j] :: (i, j)
  }

  lemma {:induction false} CountIsPositions(items: seq<string>, i: int, a: string)
    ensures multiset(items)[a] == |set j | 0 <= j < |items| && items[j] == a :: (i, j)|
  {
    if items != [] {
      var n := |items| - 1;
      CountIsPositions(items[..n], i, a);
      assert items == items[..n] + [items[n]];
      var before := set j | 0 <= j < n && items[..n][j] == a :: (i, j);
      var now := set j | 0 <= j < |items| && items[j] == a :: (i, j);
      if items[n] == a {
        assert now == before + {(i, n)};
      } else {
        assert now == before;
      }
    }
  }

  /** The sum over a phase's areas counts its items. */
  lemma {:induction false} SumIsPairs(areas: seq<string>, items: seq<string>)
    ensures SeqSum(areas, Actual(items)) == |Pairs(areas, items)|
  {
    if areas == [] {
      assert Pairs(areas, items) == {};
    } else {
      var n := |areas| - 1;
      SumIsPairs(areas[..n], items);
      CountIsPositions(items, n, areas[n]);
      var last := set j | 0 <= j < |items| && items[j] == areas[n] :: (n, j);
      assert Pairs(areas, items) == Pairs(areas[..n], items) + last;
      assert Pairs(areas[..n], items) !! last;
    }
  }

  lemma GetActual(items: seq<string>, a: string)
    ensures Get(Actual(items), a) == multiset(items)[a] && (a in Actual(items) <==> a in items)
  {
  }

  /** The row that counts for area `a`, if there is one. */
  lemma AreaRowOf(rows: seq<AreaRow>, a: string)
    ensures a in DeclaredAreas(rows) <==> exists i | 0 <= i < |rows| :: rows[i].area == a
    ensures a in DeclaredAreas(rows) ==>
              exists k | 0 <= k < |rows| ::
                LastArea(rows, k) && rows[k].area == a && rows[k].n == DeclaredAreas(rows)[a]
    ensures forall k: nat | LastArea(rows, k) && rows[k].area == a ::
              a in DeclaredAreas(rows) && rows[k].n == DeclaredAreas(rows)[a]
  {
    hide DeclaredAreas;
    LastAreaRow(rows, 0);
    forall k: nat | LastArea(rows, k) && rows[k].area == a
      ensures a in DeclaredAreas(rows) && rows[k].n == DeclaredAreas(rows)[a]
    {
      LastAreaRow(rows, k);
    }
    if i :| 0 <= i < |rows| && rows[i].area == a { var k := LastWithArea(rows, i); }
  }

  lemma AreaTable(d: Doc)
    ensures AreasAgree(Actual(d.items), DeclaredAreas(d.areaRows)) <==> AreaTableRight(d)
  {
    hide DeclaredAreas, Actual, LastArea, Get;
    var actual, declared := Actual(d.items), DeclaredAreas(d.areaRows);
    forall a ensures Get(actual, a) == multiset(d.items)[a] && (a in actual <==> a in d.items) {
      GetActual(d.items, a);
    }
    if AreasAgree(actual, declared) {
      forall a | a in d.items ensures exists i | 0 <= i < |d.areaRows| :: d.areaRows[i].area == a {
        AreaRowOf(d.areaRows, a);
      }
      forall k | 0 <= k < |d.areaRows| && LastArea(d.areaRows, k)
        ensures d.areaRows[k].n == multiset(d.items)[d.areaRows[k].area]
      {
        AreaRowOf(d.areaRows, d.areaRows[k].area);
      }
    }
    if AreaTableRight(d) {
      forall a | a in actual ensures a in declared { AreaRowOf(d.areaRows, a); }
      forall a | a in declared ensures declared[a] == Get(actual, a) {
        AreaRowOf(d.areaRows, a);
        var k :| 0 <= k < |d.areaRows| && LastArea(d.areaRows, k) && d.areaRows[k].area == a
                 && d.areaRows[k].n == declared[a];
      }
    }
  }

  lemma {:induction false} LastWithArea(rows: seq<AreaRow>, i: nat) returns (k: nat)
    requires i < |rows|
    ensures LastArea(rows, k) && rows[k].area == rows[i].area
    decreases |rows| - i
  {
    if j :| i < j < |rows| && rows[j].area == rows[i].area {
      k := LastWithArea(rows, j);
    } else {
      k := i;
    }
  }

  lemma PhaseRowOf(rows: seq<PhaseRow>, p: string)
    ensures p in DeclaredPhases(rows) <==> exists i | 0 <= i < |rows| :: rows[i].phase == p
    ensures p in DeclaredPhases(rows) ==>
              exists k | 0 <= k < |rows| ::
                LastPhase(rows, k) && rows[k].phase == p && rows[k].n == DeclaredPhases(rows)[p]
    ensures forall k: nat | LastPhase(rows, k) && rows[k].phase == p ::
              p in DeclaredPhases(rows) && rows[k].n == DeclaredPhases(rows)[p]
  {
    hide DeclaredPhases;
    LastPhaseRow(rows, 0);
    forall k: nat | LastPhase(rows, k) && rows[k].phase == p
      ensures p in DeclaredPhases(rows) && rows[k].n == DeclaredPhases(rows)[p]
    {
      LastPhaseRow(rows, k);
    }
    if i :| 0 <= i < |rows| && rows[i].phase == p { var k := LastWithPhase(rows, i); }
  }

  lemma {:induction false} LastWithPhase(rows: seq<PhaseRow>, i: nat) returns (k: nat)
    requires i < |rows|
    ensures LastPhase(rows, k) && rows[k].phase == rows[i].phase
    decreases |rows| - i
  {
    if j :| i < j < |rows| && rows[j].phase == rows[i].phase {
      k := LastWithPhase(rows, j);
    } else {
      k := i;
    }
  }

  lemma MapRowOf(rows: seq<MapRow>, p: string)
    ensures p in PhaseMap(rows) <==> exists i | 0 <= i < |rows| :: rows[i].phase == p
    ensures p in PhaseMap(rows) ==>
              exists k | 0 <= k < |rows| :: LastMap(rows, k) && rows[k].phase == p && rows[k].areas == PhaseMap(rows)[p]
    ensures forall k: nat | LastMap(rows, k) && rows[k].phase == p ::
              p in PhaseMap(rows) && rows[k].areas == PhaseMap(rows)[p]
  {
    hide PhaseMap;
    LastMapRow(rows, 0);
    forall k: nat | LastMap(rows, k) && rows[k].phase == p
      ensures p in PhaseMap(rows) && rows[k].areas == PhaseMap(rows)[p]
    {
      LastMapRow(rows, k);
    }
    if i :| 0 <= i < |rows| && rows[i].phase == p { var k := LastWithMap(rows, i); }
  }

  lemma {:induction false} LastWithMap(rows: seq<MapRow>, i: nat) returns (k: nat)
    requires i < |rows|
    ensures LastMap(rows, k) && rows[k].phase == rows[i].phase
    decreases |rows| - i
  {
    if j :| i < j < |rows| && rows[j].phase == rows[i].phase {
      k := LastWithMap(rows, j);
    } else {
      k := i;
    }
  }

  lemma PhaseTable(d: Doc)
    ensures PhasesAgree(Actual(d.items), PhaseMap(d.mapRows), DeclaredPhases(d.phaseRows)) <==> PhaseTableRight(d)
  {
    hide DeclaredPhases, PhaseMap, Actual, LastPhase, LastMap, SeqSum, Pairs;
    var actual, mapping, phases := Actual(d.items), PhaseMap(d.mapRows), DeclaredPhases(d.phaseRows);
    forall p ensures p in phases <==> HasPhaseRow(d, p) { PhaseRowOf(d.phaseRows, p); }
    forall p ensures p in mapping <==> HasMapRow(d, p) { MapRowOf(d.mapRows, p); }
    if PhasesAgree(actual, mapping, phases) {
      forall i | 0 <= i < |d.mapRows| ensures HasPhaseRow(d, d.mapRows[i].phase) {
        assert HasMapRow(d, d.mapRows[i].phase);
      }
      forall i | 0 <= i < |d.phaseRows| ensures HasMapRow(d, d.phaseRows[i].phase) {
        assert HasPhaseRow(d, d.phaseRows[i].phase);
      }
      forall k, m | 0 <= k < |d.phaseRows| && 0 <= m < |d.mapRows| && LastPhase(d.phaseRows, k)
                    && LastMap(d.mapRows, m) && d.mapRows[m].phase == d.phaseRows[k].phase
        ensures d.phaseRows[k].n == |Pairs(d.mapRows[m].areas, d.items)|
      {
        PhaseRowOf(d.phaseRows, d.phaseRows[k].phase);
        MapRowOf(d.mapRows, d.phaseRows[k].phase);
        SumIsPairs(d.mapRows[m].areas, d.items);
      }
    }
    if PhaseTableRight(d) {
      forall p | p in mapping ensures p in phases { assert HasMapRow(d, p); }
      forall p | p in phases ensures p in mapping { assert HasPhaseRow(d, p); }
      forall p | p in mapping ensures phases[p] == SeqSum(mapping[p], actual) {
        PhaseRowOf(d.phaseRows, p);
        MapRowOf(d.mapRows, p);
        var k :| 0 <= k < |d.phaseRows| && LastPhase(d.phaseRows, k) && d.phaseRows[k].phase == p
                 && d.phaseRows[k].n == phases[p];
        var m :| 0 <= m < |d.mapRows| && LastMap(d.mapRows, m) && d.mapRows[m].phase == p
                 && d.mapRows[m].areas == mapping[p];
        SumIsPairs(d.mapRows[m].areas, d.items);
      }
    }
  }

  /**
   What a silent document says, in terms of its items: every area row and phase row that counts states the
   real number of items, both totals state the number of all items, and each area with items is listed
   exactly once over all phases. The other rules follow from these.
   */
  lemma SilentSays(d: Doc)
    ensures Silent(d) <==>
              && AreaTableRight(d) && PhaseTableRight(d)
              && d.totals != [] && d.totals[0] == |d.items|
              && d.phaseTotals != [] && d.phaseTotals[0] == |d.items|
              && forall a | a in d.items :: Bag(PhaseMap(d.mapRows))[a] == 1
  {
    hide DeclaredAreas, PhaseMap, DeclaredPhases, Weight, SeqSum, AreaTableRight, PhaseTableRight, Bag;
    var actual, mapping := Actual(d.items), PhaseMap(d.mapRows);
    SilentMeansConsistent(d);
    AreaTable(d);
    PhaseTable(d);
    CountsAddUp(d.items);
    if AreasAgree(actual, DeclaredAreas(d.areaRows)) { RowsSumToItems(DeclaredAreas(d.areaRows), actual); }
    forall a ensures a in Bag(mapping) <==> Covered(mapping, a) { BagHolds(mapping, a); }
    if PhasesAgree(actual, mapping, DeclaredPhases(d.phaseRows)) {
      PhasesWeighBag(mapping, DeclaredPhases(d.phaseRows), actual);
      if forall a | a in actual :: a in Bag(mapping) { EachKeyOnce(Bag(mapping), actual); }
    }
  }

  lemma TwoPlaces(s: seq<string>, i: nat, j: nat)
    requires i < j < |s| && s[i] == s[j]
    ensures multiset(s)[s[i]] >= 2
  {
    assert s == s[..j] + [s[j]] + s[j + 1..];
    assert s[i] == s[..j][i];
  }

  /** Listed once in all means listed at one place: one phase, one position in its list. */
  lemma OncePinsPlace(m: map<string, seq<string>>, a: string, p: string, i: nat, q: string, j: nat)
    requires Bag(m)[a] == 1
    requires p in m && i < |m[p]| && m[p][i] == a && q in m && j < |m[q]| && m[q][j] == a
    ensures p == q && i == j
  {
    BagPick(m, p);
    assert a in multiset(m[p]) by { assert m[p][i] in m[p]; }
    if p != q {
      BagPick(m - {p}, q);
    } else if i < j {
      TwoPlaces(m[p], i, j);
    } else if j < i {
      TwoPlaces(m[p], j, i);
    }
  }

  // ---------------------------------------------------------------------------------------------
  // fix
  // ---------------------------------------------------------------------------------------------

  function FixArea(r: AreaRow, actual: map<string, nat>): AreaRow {
    r.(n := Get(actual, r.area))
  }

  function FixPhase(r: PhaseRow, mapping: map<string, seq<string>>, actual: map<string, nat>): PhaseRow {
    r.(starred := false, n := SeqSum(if r.phase in mapping then mapping[r.phase] else [], actual))
  }

  /** Rewrites both tables and both totals from the items. */
  ghost function Fix(d: Doc): Doc {
    var actual, mapping := Actual(d.items), PhaseMap(d.mapRows);
    d.(areaRows := seq(|d.areaRows|, k requires 0 <= k < |d.areaRows| => FixArea(d.areaRows[k], actual)),
       totals := seq(|d.totals|, _ => Total(actual)),
       phaseRows := seq(|d.phaseRows|, k requires 0 <= k < |d.phaseRows| => FixPhase(d.phaseRows[k], mapping, actual)),
       phaseTotals := seq(|d.phaseTotals|, _ => Total(actual)))
  }

  /** What `fix` leaves alone, and what the rewritten rows and totals state. */
  lemma FixStates(d: Doc)
    ensures var f := Fix(d);
            && f.items == d.items && f.mapRows == d.mapRows
            && |f.areaRows| == |d.areaRows| && |f.phaseRows| == |d.phaseRows|
            && |f.totals| == |d.totals| && |f.phaseTotals| == |d.phaseTotals|
            && (forall k | 0 <= k < |d.areaRows| ::
                  && f.areaRows[k].area == d.areaRows[k].area && f.areaRows[k].meaning == d.areaRows[k].meaning
                  && f.areaRows[k].owner == d.areaRows[k].owner
                  && f.areaRows[k].n == multiset(d.items)[d.areaRows[k].area])
            && (forall k | 0 <= k < |d.phaseRows| ::
                  && f.phaseRows[k].phase == d.phaseRows[k].phase && f.phaseRows[k].name == d.phaseRows[k].name
                  && f.phaseRows[k].milestone == d.phaseRows[k].milestone && !f.phaseRows[k].starred)
            && (forall k, m | 0 <= k < |d.phaseRows| && 0 <= m < |d.mapRows| && LastMap(d.mapRows, m)
                              && d.mapRows[m].phase == d.phaseRows[k].phase ::
                  f.phaseRows[k].n == |Pairs(d.mapRows[m].areas, d.items)|)
            && (forall k | 0 <= k < |d.phaseRows| && !HasMapRow(d, d.phaseRows[k].phase) :: f.phaseRows[k].n == 0)
            && (forall k | 0 <= k < |d.totals| :: f.totals[k] == |d.items|)
            && (forall k | 0 <= k < |d.phaseTotals| :: f.phaseTotals[k] == |d.items|)
  {
    hide Total, PhaseMap, SeqSum, Pairs;
    CountsAddUp(d.items);
    forall k | 0 <= k < |d.areaRows| ensures Fix(d).areaRows[k].n == multiset(d.items)[d.areaRows[k].area] {
      GetActual(d.items, d.areaRows[k].area);
    }
    SumIsPairs([], d.items);
    assert |Pairs([], d.items)| == 0 by { NoPairs(d.items); }
    forall k | 0 <= k < |d.phaseRows|
      ensures forall m | 0 <= m < |d.mapRows| && LastMap(d.mapRows, m) && d.mapRows[m].phase == d.phaseRows[k].phase ::
                Fix(d).phaseRows[k].n == |Pairs(d.mapRows[m].areas, d.items)|
      ensures !HasMapRow(d, d.phaseRows[k].phase) ==> Fix(d).phaseRows[k].n == 0
    {
      MapRowOf(d.mapRows, d.phaseRows[k].phase);
      forall m | 0 <= m < |d.mapRows| && LastMap(d.mapRows, m) && d.mapRows[m].phase == d.phaseRows[k].phase
        ensures Fix(d).phaseRows[k].n == |Pairs(d.mapRows[m].areas, d.items)|
      {
        SumIsPairs(d.mapRows[m].areas, d.items);
      }
    }
  }

  lemma NoPairs(items: seq<string>)
    ensures Pairs([], items) == {}
  {
  }

  lemma FixIsIdempotent(d: Doc)
    ensures Fix(Fix(d)) == Fix(d)
  {
  }

  lemma {:induction false} FixedAreas(rows: seq<AreaRow>, fixed: seq<AreaRow>, actual: map<string, nat>)
    requires |fixed| == |rows| && forall k | 0 <= k < |rows| :: fixed[k] == FixArea(rows[k], actual)
    ensures DeclaredAreas(fixed).Keys == DeclaredAreas(rows).Keys
    ensures forall a | a in DeclaredAreas(fixed) :: DeclaredAreas(fixed)[a] == Get(actual, a)
  {
    if rows != [] {
      var n := |rows| - 1;
      FixedAreas(rows[..n], fixed[..n], actual);
    }
  }

  lemma {:induction false} FixedPhases(
    rows: seq<PhaseRow>, fixed: seq<PhaseRow>, mapping: map<string, seq<string>>, actual: map<string, nat>)
    requires |fixed| == |rows| && forall k | 0 <= k < |rows| :: fixed[k] == FixPhase(rows[k], mapping, actual)
    ensures DeclaredPhases(fixed).Keys == DeclaredPhases(rows).Keys
    ensures forall p | p in DeclaredPhases(fixed) ::
              DeclaredPhases(fixed)[p] == SeqSum(if p in mapping then mapping[p] else [], actual)
  {
    if rows != [] {
      var n := |rows| - 1;
      FixedPhases(rows[..n], fixed[..n], mapping, actual);
    }
  }

  /** Rows for all areas, filled in from the items, sum to the items. */
  lemma RowsSumToItems(declared: map<string, nat>, actual: map<string, nat>)
    requires AreasAgree(actual, declared)
    ensures Total(declared) == Total(actual)
  {
    var extra := multiset(declared.Keys) - multiset(actual.Keys);
    assert multiset(declared.Keys) == multiset(actual.Keys) + extra;
    forall x | x in extra ensures Get(actual, x) == 0 { assert x !in multiset(actual.Keys); }
    WeightZero(extra, actual);
    WeightJoin(multiset(actual.Keys), extra, actual);
    WeightSame(multiset(declared.Keys), declared, actual);
  }

  /** What only a person can put right. */
  ghost predicate Fixable(d: Doc) {
    var mapping := PhaseMap(d.mapRows);
    && (forall a | a in d.items :: a in DeclaredAreas(d.areaRows))
    && d.totals != [] && d.phaseTotals != []
    && mapping.Keys == DeclaredPhases(d.phaseRows).Keys
    && (forall a | a in d.items :: Bag(mapping)[a] == 1)
  }

  /** After a fix the area table always agrees, row by row, with the items. */
  lemma FixRepairsRows(d: Doc)
    ensures Actual(Fix(d).items) == Actual(d.items) && PhaseMap(Fix(d).mapRows) == PhaseMap(d.mapRows)
    ensures AreasAgree(Actual(d.items), DeclaredAreas(Fix(d).areaRows))
       <==> forall a | a in d.items :: a in DeclaredAreas(d.areaRows)
    ensures PhasesAgree(Actual(d.items), PhaseMap(d.mapRows), DeclaredPhases(Fix(d).phaseRows))
       <==> PhaseMap(d.mapRows).Keys == DeclaredPhases(d.phaseRows).Keys
  {
    hide SeqSum, Total, PhaseMap;
    var f := Fix(d);
    FixedAreas(d.areaRows, f.areaRows, Actual(d.items));
    FixedPhases(d.phaseRows, f.phaseRows, PhaseMap(d.mapRows), Actual(d.items));
  }

  /** A fixed document is consistent exactly when the original was fixable. */
  lemma FixSucceeds(d: Doc)
    ensures Silent(Fix(d)) <==> Fixable(d)
  {
    hide SeqSum, PhaseMap, DeclaredAreas, DeclaredPhases, Weight, Silent;
    var f := Fix(d);
    var actual, mapping := Actual(d.items), PhaseMap(d.mapRows);
    FixRepairsRows(d);
    SilentMeansConsistent(f);
    forall a ensures a in Bag(mapping) <==> Covered(mapping, a) { BagHolds(mapping, a); }
    if AreasAgree(actual, DeclaredAreas(f.areaRows)) { RowsSumToItems(DeclaredAreas(f.areaRows), actual); }
    if PhasesAgree(actual, mapping, DeclaredPhases(f.phaseRows)) {
      PhasesWeighBag(mapping, DeclaredPhases(f.phaseRows), actual);
      if forall a | a in actual :: a in Bag(mapping) { EachKeyOnce(Bag(mapping), actual); }
    }
  }

  /** Repair mode reports agreement whenever `fix` changes nothing: right exactly for a fixable document. */
  lemma NothingToFix(d: Doc)
    requires Fix(d) == d
    ensures Silent(d) <==> Fixable(d)
  {
    FixSucceeds(d);
  }

  /** And it can be wrong: an area with an item but no row survives `fix` unchanged and unreported. */
  lemma NothingToFixCanDisagree()
    ensures exists d :: Fix(d) == d && IsProblem(d, NoAreaRow("A", 1))
  {
    var d := Doc(["A"], [], [], [], [], []);
    assert Fix(d).areaRows == [] && Fix(d).totals == [] && Fix(d).phaseRows == [] && Fix(d).phaseTotals == [];
    assert Actual(d.items)["A"] == 1;
    assert IsProblem(d, NoAreaRow("A", 1));
  }
}
