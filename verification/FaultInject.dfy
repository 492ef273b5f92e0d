/**
 The snapshot-and-verify bracket around the fault injectors (tools/check_fault_inject_restores.py): the
 stored snapshot, the comparison, and whole gate runs between the two.
 */
module FaultInject {
  import opened Wrappers
  import opened Strings
  import opened FaultInjectIo

  type Digests = map<string, string>
  datatype Entry = Entry(rel: string, digest: string)

  // ---------------------------------------------------------------------------------------------
  // The stored snapshot
  // ---------------------------------------------------------------------------------------------

  function LineOf(e: Entry): string {
    e.rel + "\t" + e.digest
  }

  function Encode(items: seq<Entry>): string {
    if items == [] then "" else if |items| == 1 then LineOf(items[0]) else LineOf(items[0]) + "\n" + Encode(items[1..])
  }

  /** One stored line read back: the text before the first tab, and what follows it. */
  function Parse(line: string): Entry {
    var k := Find(line, "\t", 0);
    if k == |line| then Entry(line, "") else Entry(line[..k], line[k + 1..])
  }

  function DecodeLines(lines: seq<string>): Digests {
    if lines == [] then map[]
    else
      var e := Parse(lines[|lines| - 1]);
      var before := DecodeLines(lines[..|lines| - 1]);
      if e.rel == "" then before else before[e.rel := e.digest]
  }

  function Decode(s: string): Digests {
    DecodeLines(SplitLines(s))
  }

  function MapOf(items: seq<Entry>): Digests {
    if items == [] then map[] else MapOf(items[..|items| - 1])[items[|items| - 1].rel := items[|items| - 1].digest]
  }

  /** A path the encoding can carry. */
  predicate Storable(rel: string) {
    rel != "" && '\t' !in rel && Unbroken(rel)
  }

  /** A stored line is the path before its first tab and the digest after it; without a tab, a path alone. */
  lemma ParseIsPartition(line: string)
    ensures var e := Parse(line);
            && '\t' !in e.rel
            && line == (if '\t' in line then LineOf(e) else e.rel)
            && ('\t' !in line ==> e.digest == "")
  {
    var k := Find(line, "\t", 0);
    forall j | 0 <= j < k ensures line[j] != '\t' {
      assert !Sits(line, j, "\t");
      assert line[j..j + 1] == [line[j]];
    }
    if k < |line| {
      assert line[k..k + 1] == "\t";
      assert line == line[..k] + "\t" + line[k + 1..];
    }
  }

  lemma ParseInverts(e: Entry)
    requires '\t' !in e.rel
    ensures Parse(LineOf(e)) == e
  {
    var line := LineOf(e);
    var k := |e.rel|;
    assert line[k..k + 1] == "\t";
    forall j | 0 <= j < k ensures !Sits(line, j, "\t") { assert line[j..j + 1] == [e.rel[j]]; }
    FindIs(line, "\t", 0, k);
    assert line[..k] == e.rel && line[k + 1..] == e.digest;
  }

  lemma OneLine(line: string, rest: string)
    requires line != "" && Unbroken(line)
    ensures SplitLines(line) == [line]
    ensures SplitLines(line + "\n" + rest) == [line] + SplitLines(rest)
  {
    assert FirstBreak(line, 0) == |line|;
    var s := line + "\n" + rest;
    assert s[|line|] == '\n';
    assert FirstBreak(s, 0) == |line| by {
      forall j | 0 <= j < |line| ensures !IsBreak(s[j]) { assert s[j] == line[j]; }
    }
    assert s[..|line|] == line && s[|line| + 1..] == rest;
  }

  function LinesOf(items: seq<Entry>): seq<string> {
    seq(|items|, k requires 0 <= k < |items| => LineOf(items[k]))
  }

  lemma UnbrokenLine(e: Entry)
    requires Unbroken(e.rel) && Unbroken(e.digest)
    ensures LineOf(e) != "" && Unbroken(LineOf(e))
  {
  }

  lemma {:induction false} EncodedLines(items: seq<Entry>)
    requires forall k | 0 <= k < |items| :: Unbroken(items[k].rel) && Unbroken(items[k].digest)
    ensures SplitLines(Encode(items)) == LinesOf(items)
  {
    hide SplitLines, LineOf;
    NoLines();
    if items != [] {
      var line := LineOf(items[0]);
      UnbrokenLine(items[0]);
      OneLine(line, Encode(items[1..]));
      if |items| > 1 {
        EncodedLines(items[1..]);
        assert LinesOf(items) == [line] + LinesOf(items[1..]);
      }
    }
  }

  lemma {:induction false} DecodedLines(items: seq<Entry>)
    requires forall k | 0 <= k < |items| :: Storable(items[k].rel)
    ensures DecodeLines(LinesOf(items)) == MapOf(items)
  {
    if items != [] {
      var n := |items| - 1;
      ParseInverts(items[n]);
      DecodedLines(items[..n]);
      assert LinesOf(items)[..n] == LinesOf(items[..n]);
    }
  }

  /** Whatever text is read back, its paths can be stored. */
  lemma {:induction false} DecodedPaths(lines: seq<string>, rel: string)
    requires (forall k | 0 <= k < |lines| :: Unbroken(lines[k])) && rel in DecodeLines(lines)
    ensures Storable(rel)
  {
    var n := |lines| - 1;
    var e := Parse(lines[n]);
    if rel in DecodeLines(lines[..n]) {
      DecodedPaths(lines[..n], rel);
    } else {
      var k := Find(lines[n], "\t", 0);
      forall j | 0 <= j < k ensures lines[n][j] != '\t' {
        assert !Sits(lines[n], j, "\t");
        assert lines[n][j..j + 1] == [lines[n][j]];
      }
    }
  }

  lemma {:induction false} MapOfKeys(items: seq<Entry>)
    ensures forall k | 0 <= k < |items| :: items[k].rel in MapOf(items)
  {
    if items != [] {
      var n := |items| - 1;
      MapOfKeys(items[..n]);
      forall k | 0 <= k < |items| ensures items[k].rel in MapOf(items) {
        if k < n { assert items[..n][k].rel in MapOf(items[..n]); }
      }
    }
  }

  /** A snapshot that reads back with the tree's own paths held only paths that can be stored. */
  lemma ReadPathsAreStorable(items: seq<Entry>)
    requires MapOf(items).Keys <= Decode(Encode(items)).Keys
    ensures forall k | 0 <= k < |items| :: Storable(items[k].rel)
  {
    MapOfKeys(items);
    var lines := SplitLines(Encode(items));
    forall k | 0 <= k < |lines| ensures Unbroken(lines[k]) { LinesAreUnbroken(Encode(items), k); }
    forall k | 0 <= k < |items| ensures Storable(items[k].rel) {
      assert items[k].rel in MapOf(items);
      DecodedPaths(lines, items[k].rel);
    }
  }

  /** The stored snapshot reads back as the tree exactly when every tracked path can be stored. */
  lemma SnapshotRoundTrips(items: seq<Entry>)
    requires forall k | 0 <= k < |items| :: Unbroken(items[k].digest)
    ensures Decode(Encode(items)) == MapOf(items) <==> forall k | 0 <= k < |items| :: Storable(items[k].rel)
  {
    if forall k | 0 <= k < |items| :: Storable(items[k].rel) {
      EncodedLines(items);
      DecodedLines(items);
    }
    if Decode(Encode(items)) == MapOf(items) { ReadPathsAreStorable(items); }
  }

  // ---------------------------------------------------------------------------------------------
  // compare
  // ---------------------------------------------------------------------------------------------

  datatype Change = Created(rel: string) | Deleted(rel: string) | Modified(rel: string)

  predicate IsChange(before: Digests, after: Digests, c: Change) {
    match c
    case Created(rel) => rel !in before && rel in after
    case Deleted(rel) => rel in before && rel !in after
    case Modified(rel) => rel in before && rel in after && before[rel] != after[rel]
  }

  /** Names every file that differs, and how; nothing exactly when the trees are equal. */
  method Compare(before: Digests, after: Digests) returns (problems: seq<Change>)
    ensures forall c :: c in problems <==> IsChange(before, after, c)
    ensures forall rel :: && (Created(rel) in problems <==> rel !in before && rel in after)
                          && (Deleted(rel) in problems <==> rel in before && rel !in after)
                          && (Modified(rel) in problems <==> rel in before && rel in after && before[rel] != after[rel])
    ensures problems == [] <==> before == after
  {
    problems := [];
    var todo := before.Keys + after.Keys;
    while todo != {}
      invariant todo <= before.Keys + after.Keys
      invariant forall c :: c in problems <==> IsChange(before, after, c) && c.rel !in todo
    {
      var rel :| rel in todo;
      todo := todo - {rel};
      if rel !in before {
        problems := problems + [Created(rel)];
      } else if rel !in after {
        problems := problems + [Deleted(rel)];
      } else if before[rel] != after[rel] {
        problems := problems + [Modified(rel)];
      }
    }
    if problems == [] {
      forall rel ensures rel in before <==> rel in after {
        assert Created(rel) !in problems && Deleted(rel) !in problems;
      }
      forall rel | rel in before ensures before[rel] == after[rel] { assert Modified(rel) !in problems; }
      assert before == after;
    } else {
      assert IsChange(before, after, problems[0]);
    }
  }

  // ---------------------------------------------------------------------------------------------
  // The tree the gate watches
  // ---------------------------------------------------------------------------------------------

  /** What git tracks, and what is on disk; the two change independently. */
  datatype World = World(tracked: set<string>, disk: map<string, Bytes>)

  /** The digest recorded for a tracked file that is not on disk. */
  const ABSENT := "<absent>"

  function TrackedDigests(w: World, digest: Bytes -> string): Digests {
    map rel | rel in w.tracked :: if rel in w.disk then digest(w.disk[rel]) else ABSENT
  }

  /** Digests are one-line texts, none of them the mark of an absent file. */
  ghost predicate IsDigest(digest: Bytes -> string) {
    forall b :: Unbroken(digest(b)) && digest(b) != ABSENT
  }

  function Standing(w: World, rel: string): Content {
    if rel in w.disk then Some(w.disk[rel]) else None
  }

  function Put(w: World, rel: string, c: Content): World {
    w.(disk := if c.Some? then w.disk[rel := c.value] else w.disk - {rel})
  }

  /**
   Anything a step of the gate may do: write or remove a file, change what git tracks, or restore a file
   from a backup under a plan of failures.
   */
  datatype Step =
    | Write(rel: string, bytes: Bytes)
    | Remove(rel: string)
    | Track(rel: string)
    | Untrack(rel: string)
    | Restore(rel: string, backup: Bytes, attempts: nat, plan: nat -> Attempt)

  function Play(w: World, step: Step): World {
    match step
    case Write(rel, bytes) => Put(w, rel, Some(bytes))
    case Remove(rel) => Put(w, rel, None)
    case Track(rel) => w.(tracked := w.tracked + {rel})
    case Untrack(rel) => w.(tracked := w.tracked - {rel})
    case Restore(rel, backup, attempts, plan) =>
      Put(w, rel, Settled(Standing(w, rel), backup, attempts, plan))
  }

  function PlayAll(w: World, steps: seq<Step>): World {
    if steps == [] then w else Play(PlayAll(w, steps[..|steps| - 1]), steps[|steps| - 1])
  }

  // ---------------------------------------------------------------------------------------------
  // The gate
  // ---------------------------------------------------------------------------------------------

  datatype Outcome = NoSnapshot | AtRest | StaleSnapshot(changes: seq<Change>) | TreeModified(changes: seq<Change>)

  predicate Distinct(items: seq<Entry>) {
    forall i, j | 0 <= i < j < |items| :: items[i].rel != items[j].rel
  }

  /** The entries of a tree, each once, in any order. */
  predicate Lists(items: seq<Entry>, tree: Digests) {
    Distinct(items) && MapOf(items) == tree
  }

  predicate AllStorable(items: seq<Entry>) {
    forall k | 0 <= k < |items| :: Storable(items[k].rel)
  }

  /** The watched tree and the stored snapshot. */
  class Gate {
    const digest: Bytes -> string
    var world: World
    var stored: Option<string>

    constructor (world: World, digest: Bytes -> string)
      ensures this.world == world && this.digest == digest && stored == None
    {
      this.world := world;
      this.digest := digest;
      stored := None;
    }

    /** Stores the tree, its files in any order: it reads back exactly when every tracked path can be stored. */
    method Snapshot(items: seq<Entry>)
      requires IsDigest(digest) && Lists(items, TrackedDigests(world, digest))
      modifies this`stored
      ensures stored == Some(Encode(items))
      ensures Decode(stored.value) == TrackedDigests(world, digest) <==> AllStorable(items)
    {
      stored := Some(Encode(items));
      StoredDigests(items, world, digest);
      SnapshotRoundTrips(items);
    }

    /** Takes one step; a restore goes through the retrying writer. */
    method Apply(step: Step)
      modifies this`world
      ensures world == Play(old(world), step)
    {
      match step
      case Write(rel, bytes) => world := Put(world, rel, Some(bytes));
      case Remove(rel) => world := Put(world, rel, None);
      case Track(rel) => world := world.(tracked := world.tracked + {rel});
      case Untrack(rel) => world := world.(tracked := world.tracked - {rel});
      case Restore(rel, backup, attempts, plan) =>
        var target := new Target(Standing(world, rel));
        var _ := target.Restore(_ => backup, attempts, plan);
        world := Put(world, rel, target.content);
    }

    /** Exit code 0 exactly when there is a snapshot and it reads back as the tree. */
    method Verify(dirty: bool) returns (code: nat, outcome: Outcome)
      ensures code == 0 <==> outcome.AtRest?
      ensures outcome.AtRest? <==> stored.Some? && Decode(stored.value) == TrackedDigests(world, digest)
      ensures outcome.NoSnapshot? <==> stored.None?
      ensures outcome.TreeModified? <==> dirty && stored.Some? && Decode(stored.value) != TrackedDigests(world, digest)
      ensures outcome.StaleSnapshot? <==>
                !dirty && stored.Some? && Decode(stored.value) != TrackedDigests(world, digest)
      ensures outcome.TreeModified? || outcome.StaleSnapshot? ==>
                var before, after := Decode(stored.value), TrackedDigests(world, digest);
                forall c :: c in outcome.changes <==> IsChange(before, after, c)
    {
      if stored.None? {
        return 1, NoSnapshot;
      }
      var before := Decode(stored.value);
      var problems := Compare(before, TrackedDigests(world, digest));
      if problems != [] {
        if !dirty {
          return 1, StaleSnapshot(problems);
        }
        return 1, TreeModified(problems);
      }
      return 0, AtRest;
    }
  }

  lemma {:induction false} ListedValue(items: seq<Entry>, k: nat)
    requires Distinct(items) && k < |items|
    ensures items[k].rel in MapOf(items) && MapOf(items)[items[k].rel] == items[k].digest
  {
    var n := |items| - 1;
    if k < n {
      ListedValue(items[..n], k);
      assert items[k].rel != items[n].rel;
    }
  }

  /** Listed digests are one-line texts. */
  lemma StoredDigests(items: seq<Entry>, w: World, digest: Bytes -> string)
    requires IsDigest(digest) && Lists(items, TrackedDigests(w, digest))
    ensures forall k | 0 <= k < |items| :: Unbroken(items[k].digest)
  {
    forall k | 0 <= k < |items| ensures Unbroken(items[k].digest) { ListedValue(items, k); }
  }

  /** The same tracked paths, each with the same content or none. */
  predicate SameTracked(v: World, w: World) {
    v.tracked == w.tracked && forall rel | rel in v.tracked :: Standing(v, rel) == Standing(w, rel)
  }

  /** No tracked file stands in both worlds with two contents of one digest. */
  predicate NoCollision(v: World, w: World, digest: Bytes -> string) {
    forall rel | rel in v.tracked && rel in v.disk && rel in w.disk ::
      digest(v.disk[rel]) == digest(w.disk[rel]) ==> v.disk[rel] == w.disk[rel]
  }

  /** Equal digests mean equal files, up to a collision at the same path. */
  lemma SameDigestsSameFiles(v: World, w: World, digest: Bytes -> string)
    requires IsDigest(digest) && NoCollision(v, w, digest)
    ensures TrackedDigests(v, digest) == TrackedDigests(w, digest) <==> SameTracked(v, w)
  {
    var f, g := TrackedDigests(v, digest), TrackedDigests(w, digest);
    assert f.Keys == v.tracked && g.Keys == w.tracked;
    if f == g {
      forall rel | rel in v.tracked ensures Standing(v, rel) == Standing(w, rel) {
        assert f[rel] == g[rel];
      }
    }
  }

  /**
   Whole runs: snapshot, any steps, verify. The gate passes exactly when the stored snapshot reads back as
   the tree the steps leave. When every tracked path can be stored, that is exactly when the tree is the one
   that was snapshot: up to a collision of digests, no tracked file created, deleted or modified. When one
   cannot, a run that changes nothing never passes.
   */
  method GateRun(start: World, items: seq<Entry>, steps: seq<Step>, dirty: bool, digest: Bytes -> string)
    returns (code: nat)
    requires IsDigest(digest) && Lists(items, TrackedDigests(start, digest))
    ensures code == 0 <==> TrackedDigests(PlayAll(start, steps), digest) == Decode(Encode(items))
    ensures AllStorable(items) ==>
              (code == 0 <==> TrackedDigests(PlayAll(start, steps), digest) == TrackedDigests(start, digest))
    ensures AllStorable(items) && NoCollision(start, PlayAll(start, steps), digest) ==>
              (code == 0 <==> SameTracked(start, PlayAll(start, steps)))
    ensures !AllStorable(items) && code == 0 ==>
              TrackedDigests(PlayAll(start, steps), digest) != TrackedDigests(start, digest)
  {
    var gate := new Gate(start, digest);
    gate.Snapshot(items);
    for i := 0 to |steps|
      invariant gate.world == PlayAll(start, steps[..i]) && gate.stored == Some(Encode(items))
    {
      assert steps[..i + 1][..i] == steps[..i];
      gate.Apply(steps[i]);
    }
    assert steps[..|steps|] == steps;
    var outcome;
    code, outcome := gate.Verify(dirty);
    StoredDigests(items, start, digest);
    SnapshotRoundTrips(items);
    if NoCollision(start, PlayAll(start, steps), digest) {
      SameDigestsSameFiles(start, PlayAll(start, steps), digest);
    }
  }

  // ---------------------------------------------------------------------------------------------
  // Checkers that inject and restore
  // ---------------------------------------------------------------------------------------------

  /** A checker that backs a file up, injects into it, and restores it under a plan of failures. */
  datatype Checker = Checker(rel: string, injected: Bytes, attempts: nat, plan: nat -> Attempt)

  /** The steps of one checker; it needs a file to inject into. */
  function StepsOf(w: World, c: Checker): seq<Step> {
    if c.rel !in w.disk then []
    else [Write(c.rel, c.injected), Restore(c.rel, w.disk[c.rel], c.attempts, c.plan)]
  }

  function RunChecker(w: World, c: Checker): World {
    PlayAll(w, StepsOf(w, c))
  }

  function RunCheckers(w: World, cs: seq<Checker>): World {
    if cs == [] then w else RunChecker(RunCheckers(w, cs[..|cs| - 1]), cs[|cs| - 1])
  }

  /** What a checker leaves in its file: its backup, or the leavings of its last failed attempt. */
  lemma CheckerLeaves(w: World, c: Checker)
    requires c.rel in w.disk
    ensures RunChecker(w, c)
         == Put(w, c.rel, if Hopeless(c.plan, c.attempts) then Settled(Some(c.injected), [], c.attempts, c.plan)
                          else Some(w.disk[c.rel]))
  {
    hide Hopeless;
    var steps := StepsOf(w, c);
    var during := Put(w, c.rel, Some(c.injected));
    assert steps[..1] == [Write(c.rel, c.injected)];
    assert PlayAll(w, steps[..1]) == during by { assert steps[..1][..0] == []; }
    assert PlayAll(w, steps) == Play(during, steps[1]);
    var after := Put(during, c.rel, Settled(Some(c.injected), w.disk[c.rel], c.attempts, c.plan));
    if !Hopeless(c.plan, c.attempts) { assert after.disk == w.disk[c.rel := w.disk[c.rel]]; }
  }

  /** A run whose checkers all get a restore through leaves the tree as it was, so the gate passes it. */
  lemma {:induction false} RestoringCheckersLeaveNothing(w: World, cs: seq<Checker>)
    requires forall k | 0 <= k < |cs| :: !Hopeless(cs[k].plan, cs[k].attempts)
    ensures RunCheckers(w, cs) == w
  {
    if cs != [] {
      var n := |cs| - 1;
      RestoringCheckersLeaveNothing(w, cs[..n]);
      if cs[n].rel in w.disk {
        CheckerLeaves(w, cs[n]);
        assert w.disk[cs[n].rel := w.disk[cs[n].rel]] == w.disk;
      } else {
        assert StepsOf(w, cs[n]) == [];
      }
    }
  }

  /**
   One checker that never gets its restore through: the tree is the one it met exactly when its leavings
   have the digest of the file it broke, or the file is not tracked.
   */
  lemma FailedRestoreShows(w: World, c: Checker, digest: Bytes -> string)
    requires IsDigest(digest) && c.rel in w.disk && Hopeless(c.plan, c.attempts)
    ensures TrackedDigests(RunChecker(w, c), digest) == TrackedDigests(w, digest)
       <==> (|| c.rel !in w.tracked
             || var left := Settled(Some(c.injected), [], c.attempts, c.plan);
                left.Some? && digest(left.value) == digest(w.disk[c.rel]))
  {
    hide Hopeless, Settled;
    CheckerLeaves(w, c);
    var left := Settled(Some(c.injected), [], c.attempts, c.plan);
    var f, g := TrackedDigests(RunChecker(w, c), digest), TrackedDigests(w, digest);
    assert f.Keys == w.tracked && g.Keys == w.tracked;
    forall rel | rel in w.tracked && rel != c.rel ensures f[rel] == g[rel] { }
    if c.rel in w.tracked {
      assert f[c.rel] == if left.Some? then digest(left.value) else ABSENT;
      assert g[c.rel] == digest(w.disk[c.rel]);
    }
    assert f == g <==> forall rel | rel in w.tracked :: f[rel] == g[rel];
  }

  // ---------------------------------------------------------------------------------------------
  // Snapshots with paths that cannot be stored
  // ---------------------------------------------------------------------------------------------

  /** The last stored line that names its path; a line that is empty or starts with a tab names none. */
  predicate Decides(lines: seq<string>, i: nat) {
    && i < |lines| && Parse(lines[i]).rel != ""
    && forall j | i < j < |lines| :: Parse(lines[j]).rel != Parse(lines[i]).rel
  }

  lemma {:induction false} LastLineDecides(lines: seq<string>, i: nat)
    requires Decides(lines, i)
    ensures var e := Parse(lines[i]); e.rel in DecodeLines(lines) && DecodeLines(lines)[e.rel] == e.digest
  {
    var n := |lines| - 1;
    if i < n {
      assert lines[..n][i] == lines[i];
      LastLineDecides(lines[..n], i);
      assert Parse(lines[n]).rel != Parse(lines[i]).rel;
    }
  }

  lemma {:induction false} DecidingLine(lines: seq<string>, rel: string)
    requires rel in DecodeLines(lines)
    ensures rel != "" && exists i: nat :: Decides(lines, i) && Parse(lines[i]).rel == rel
  {
    hide Parse;
    var n := |lines| - 1;
    if rel in DecodeLines(lines[..n]) {
      DecidingLine(lines[..n], rel);
      var i: nat :| Decides(lines[..n], i) && Parse(lines[..n][i]).rel == rel;
      if Parse(lines[n]).rel != rel { assert Decides(lines, i); }
    }
    if Parse(lines[n]).rel == rel { assert Decides(lines, n); }
  }

  ghost predicate Recorded(d: string, digest: Bytes -> string) {
    d == ABSENT || exists b :: digest(b) == d
  }

  /**
   Which snapshots can pass at all, storable or not: some tree passes against the stored text exactly when
   the last line for each path carries a digest.
   */
  lemma PassableSnapshots(text: string, digest: Bytes -> string)
    requires IsDigest(digest)
    ensures (exists w :: TrackedDigests(w, digest) == Decode(text))
       <==> (forall i: nat | Decides(SplitLines(text), i) :: Recorded(Parse(SplitLines(text)[i]).digest, digest))
  {
    hide SplitLines, DecodeLines, Parse, IsDigest;
    var lines := SplitLines(text);
    var read := Decode(text);
    assert read == DecodeLines(lines);
    if w :| TrackedDigests(w, digest) == read {
      forall i: nat | Decides(lines, i) ensures Recorded(Parse(lines[i]).digest, digest) {
        LastLineDecides(lines, i);
        RecordedInTree(w, digest, Parse(lines[i]).rel);
      }
    }
    if forall i: nat | Decides(lines, i) :: Recorded(Parse(lines[i]).digest, digest) {
      forall rel | rel in read ensures Recorded(read[rel], digest) {
        DecidingLine(lines, rel);
        var i: nat :| Decides(lines, i) && Parse(lines[i]).rel == rel;
        LastLineDecides(lines, i);
      }
      TreeWith(read, digest);
    }
  }

  lemma RecordedInTree(w: World, digest: Bytes -> string, rel: string)
    requires rel in TrackedDigests(w, digest)
    ensures Recorded(TrackedDigests(w, digest)[rel], digest)
  {
    if rel in w.disk { assert digest(w.disk[rel]) == TrackedDigests(w, digest)[rel]; }
  }

  lemma TreeWith(read: Digests, digest: Bytes -> string)
    requires forall rel | rel in read :: Recorded(read[rel], digest)
    ensures exists w :: TrackedDigests(w, digest) == read
  {
    var disk := map rel | rel in read && read[rel] != ABSENT :: Preimage(digest, read[rel]);
    assert TrackedDigests(World(read.Keys, disk), digest) == read;
  }

  ghost function Preimage(digest: Bytes -> string, d: string): (b: Bytes)
    requires exists b :: digest(b) == d
    ensures digest(b) == d
  {
    var b :| digest(b) == d;
    b
  }

  lemma {:induction false} BlankLineIsSkipped(lines: seq<string>)
    ensures DecodeLines([""] + lines) == DecodeLines(lines)
  {
    var all := [""] + lines;
    if lines == [] {
      assert all[..0] == [] && Parse("").rel == "";
    } else {
      BlankLineIsSkipped(lines[..|lines| - 1]);
      assert all[..|all| - 1] == [""] + lines[..|lines| - 1];
    }
  }

  /** Line breaks before a line read back as nothing. */
  lemma {:induction false} LeadingBreaksVanish(breaks: string, line: string)
    requires (forall k | 0 <= k < |breaks| :: IsBreak(breaks[k])) && line != "" && !IsBreak(line[0])
    ensures Decode(breaks + line) == Decode(line)
    decreases |breaks|
  {
    var s := breaks + line;
    if breaks == "" {
      assert s == line;
    } else {
      assert FirstBreak(s, 0) == 0 && s[..0] == "";
      var skip := if At(s, 0, '\r', '\n') then 2 else 1;
      assert IsBreak('\n');
      assert skip <= |breaks|;
      assert s[skip..] == breaks[skip..] + line;
      LeadingBreaksVanish(breaks[skip..], line);
      BlankLineIsSkipped(SplitLines(s[skip..]));
    }
  }

  /** A path that starts with line breaks is stored as the path without them. */
  lemma BreaksBeforePathAreLost(breaks: string, core: string, d: string)
    requires (forall k | 0 <= k < |breaks| :: IsBreak(breaks[k])) && Storable(core) && Unbroken(d)
    ensures Decode(Encode([Entry(breaks + core, d)])) == map[core := d]
  {
    var line := LineOf(Entry(core, d));
    assert LineOf(Entry(breaks + core, d)) == breaks + line;
    assert line[0] == core[0];
    LeadingBreaksVanish(breaks, line);
    SnapshotRoundTrips([Entry(core, d)]);
    assert MapOf([Entry(core, d)]) == map[core := d] by { assert [Entry(core, d)][..0] == []; }
  }

  /**
   So one kind of change gets past the gate: a tracked path that starts with line breaks, replaced by the
   path without them, passes although one tracked file is gone and another is there.
   */
  lemma RenamePassesUnseen(breaks: string, core: string, bytes: Bytes, digest: Bytes -> string)
    requires IsDigest(digest) && Storable(core) && breaks != "" && forall k | 0 <= k < |breaks| :: IsBreak(breaks[k])
    ensures var path := breaks + core;
            var start := World({path}, map[path := bytes]);
            var end := PlayAll(start, [Remove(path), Untrack(path), Write(core, bytes), Track(core)]);
            && Lists([Entry(path, digest(bytes))], TrackedDigests(start, digest))
            && TrackedDigests(end, digest) == Decode(Encode([Entry(path, digest(bytes))]))
            && path !in end.tracked && core in end.tracked && core !in start.tracked
  {
    var path := breaks + core;
    assert path[0] == breaks[0] && IsBreak(path[0]) && !IsBreak(core[0]);
    var item := Entry(path, digest(bytes));
    var start := World({path}, map[path := bytes]);
    assert MapOf([item]) == map[path := digest(bytes)] by { assert [item][..0] == []; }
    assert TrackedDigests(start, digest) == map[path := digest(bytes)];
    BreaksBeforePathAreLost(breaks, core, digest(bytes));
    var steps := [Remove(path), Untrack(path), Write(core, bytes), Track(core)];
    FourSteps(start, steps);
    var end := PlayAll(start, steps);
    assert end == World({core}, map[core := bytes]);
    assert TrackedDigests(end, digest) == map[core := digest(bytes)];
  }

  lemma FourSteps(w: World, steps: seq<Step>)
    requires |steps| == 4
    ensures PlayAll(w, steps) == Play(Play(Play(Play(w, steps[0]), steps[1]), steps[2]), steps[3])
  {
    assert steps[..3][..2] == steps[..2] && steps[..2][..1] == steps[..1] && steps[..1][..0] == [];
    assert PlayAll(w, steps[..1]) == Play(w, steps[0]);
    assert PlayAll(w, steps[..2]) == Play(PlayAll(w, steps[..1]), steps[1]);
    assert PlayAll(w, steps[..3]) == Play(PlayAll(w, steps[..2]), steps[2]);
  }
}
