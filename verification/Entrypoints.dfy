/**
 Where the unsafe audit demands a `forbid` (`entrypoints` in tools/audit_unsafe.py): the discovery of crate
 entrypoints on disk, and the audit of a tree that demands it at each of them.
 */
module Entrypoints {
  import opened RustModes
  import opened AuditScan

  type Path = seq<string>

  /**
   The files and directories under the crates root, each a path relative to it, and the listing of each
   directory.
   */
  datatype Disk = Disk(files: set<Path>, dirs: set<Path>, list: map<Path, seq<string>>) {
    /** No path is both, what holds something is a directory, and listings name what is there. */
    ghost predicate Valid() {
      && files !! dirs && [] in dirs && [] !in files
      && (forall p | p in files + dirs && p != [] :: p[..|p| - 1] in dirs)
      && (forall d | d in dirs :: d in list)
      && (forall d, e | d in dirs :: e in list[d] <==> d + [e] in files + dirs)
    }
  }

  /** The five shapes of an entrypoint of crate `c`, spelled out. */
  ghost predicate EntryShape(ep: Path) {
    || (exists c :: ep == [c, "build.rs"])
    || (exists c :: ep == [c, "src", "lib.rs"])
    || (exists c :: ep == [c, "src", "main.rs"])
    || (exists c, n :: ep == [c, "src", "bin", n + ".rs"])
    || (exists c, n :: ep == [c, "src", "bin", n, "main.rs"])
  }

  /** The predicate the audit files `forbid` attributes by holds of exactly these shapes. */
  lemma EntrypointShapes(ep: Path)
    ensures IsEntrypoint(ep) <==> EntryShape(ep)
  {
    if IsEntrypoint(ep) {
      match |ep|
      case 2 => assert ep == [ep[0], "build.rs"];
      case 3 => assert ep == [ep[0], "src", ep[2]];
      case 4 =>
        var name := ep[3];
        var n := name[..|name| - 3];
        assert name == n + ".rs";
        assert ep == [ep[0], "src", "bin", n + ".rs"];
      case _ => assert ep == [ep[0], "src", "bin", ep[3], "main.rs"];
    }
    if c, n :| ep == [c, "src", "bin", n + ".rs"] { assert ep[3] == n + ".rs" && ep[3][|n|..] == ".rs"; }
  }

  /** An entrypoint on disk of a directory that is a crate. */
  ghost predicate IsTarget(disk: Disk, ep: Path) {
    EntryShape(ep) && ep in disk.files && [ep[0], "Cargo.toml"] in disk.files
  }

  // ---------------------------------------------------------------------------------------------
  // Discovery
  // ---------------------------------------------------------------------------------------------

  ghost predicate IsBin(disk: Disk, c: string, ep: Path) {
    && ep in disk.files
    && ((exists n :: ep == [c, "src", "bin", n + ".rs"]) || exists n :: ep == [c, "src", "bin", n, "main.rs"])
  }

  lemma BinIsListed(disk: Disk, c: string, ep: Path)
    requires disk.Valid() && IsBin(disk, c, ep)
    ensures var bindir := [c, "src", "bin"]; bindir in disk.dirs && 3 < |ep| && ep[3] in disk.list[bindir]
  {
    var bindir := [c, "src", "bin"];
    var full := bindir + [ep[3]];
    if |ep| == 5 {
      assert ep[..4] == full;
    } else {
      assert ep == full;
    }
    assert full in disk.files + disk.dirs && full[..3] == bindir;
  }

  ghost predicate BinAt(disk: Disk, c: string, entry: string, ep: Path) {
    IsBin(disk, c, ep) && 3 < |ep| && ep[3] == entry
  }

  /** What one entry of `src/bin` contributes. */
  lemma BinsOf(disk: Disk, c: string, entry: string, ep: Path)
    ensures BinAt(disk, c, entry, ep)
       <==> || (ep == [c, "src", "bin", entry] && EndsWithRs(entry) && ep in disk.files)
            || (ep == [c, "src", "bin", entry] + ["main.rs"] && ep in disk.files)
  {
    if EndsWithRs(entry) { assert entry == entry[..|entry| - 3] + ".rs"; }
    if n :| ep == [c, "src", "bin", n + ".rs"] { assert ep[3] == n + ".rs" && ep[3][|n|..] == ".rs"; }
    assert [c, "src", "bin", entry] + ["main.rs"] == [c, "src", "bin", entry, "main.rs"];
  }

  method BinsAt(disk: Disk, c: string, entry: string) returns (here: seq<Path>)
    requires disk.Valid()
    ensures forall ep :: ep in here <==> BinAt(disk, c, entry, ep)
  {
    hide BinAt, EndsWithRs;
    var full := [c, "src", "bin", entry];
    NotBoth(disk, full);
    forall ep ensures BinAt(disk, c, entry, ep)
                 <==> || (ep == full && EndsWithRs(entry) && ep in disk.files)
                      || (ep == full + ["main.rs"] && ep in disk.files)
    {
      BinsOf(disk, c, entry, ep);
    }
    here := [];
    if EndsWithRs(entry) && full in disk.files {
      here := [full];
    } else if full in disk.dirs && full + ["main.rs"] in disk.files {
      here := [full + ["main.rs"]];
    }
  }

  lemma HasListings(disk: Disk)
    requires disk.Valid()
    ensures forall d | d in disk.dirs :: d in disk.list
  {
  }

  /** The autobins of one crate: `<name>.rs` files and `<name>/main.rs` below `src/bin`. */
  method Bins(disk: Disk, c: string) returns (found: seq<Path>)
    requires disk.Valid()
    ensures forall ep :: ep in found <==> IsBin(disk, c, ep)
  {
    hide IsBin, Disk.Valid;
    HasListings(disk);
    found := [];
    var bindir := [c, "src", "bin"];
    forall ep | IsBin(disk, c, ep)
      ensures bindir in disk.dirs && exists entry | entry in disk.list[bindir] :: BinAt(disk, c, entry, ep)
    {
      BinIsListed(disk, c, ep);
      assert BinAt(disk, c, ep[3], ep);
    }
    if bindir !in disk.dirs {
      return;
    }
    var entries := disk.list[bindir];
    for i := 0 to |entries|
      invariant forall ep :: ep in found <==> exists j | 0 <= j < i :: BinAt(disk, c, entries[j], ep)
    {
      var here := BinsAt(disk, c, entries[i]);
      found := found + here;
    }
  }

  lemma NotBoth(disk: Disk, full: Path)
    requires disk.Valid()
    ensures full in disk.files ==> full + ["main.rs"] !in disk.files
    ensures full + ["main.rs"] in disk.files ==> full in disk.dirs
  {
    assert (full + ["main.rs"])[..|full|] == full;
  }

  /** The entrypoints of one crate directory. */
  ghost predicate OfCrate(disk: Disk, c: string, ep: Path) {
    IsTarget(disk, ep) && ep[0] == c
  }

  /** The entrypoints at fixed places. */
  method FixedEntrypoints(disk: Disk, c: string) returns (found: seq<Path>)
    ensures forall ep :: ep in found <==>
              ep in disk.files && (ep == [c, "src", "lib.rs"] || ep == [c, "src", "main.rs"] || ep == [c, "build.rs"])
  {
    found := [];
    var fixed: seq<Path> := [["src", "lib.rs"], ["src", "main.rs"], ["build.rs"]];
    for i := 0 to 3
      invariant forall ep :: ep in found <==> exists j | 0 <= j < i :: At(disk, [c] + fixed[j], ep)
    {
      if [c] + fixed[i] in disk.files { found := found + [[c] + fixed[i]]; }
    }
    assert [c] + fixed[0] == [c, "src", "lib.rs"] && [c] + fixed[1] == [c, "src", "main.rs"];
    assert [c] + fixed[2] == [c, "build.rs"];
    forall ep ensures (exists j | 0 <= j < 3 :: At(disk, [c] + fixed[j], ep))
                 <==> At(disk, [c] + fixed[0], ep) || At(disk, [c] + fixed[1], ep) || At(disk, [c] + fixed[2], ep) { }
  }

  predicate At(disk: Disk, place: Path, ep: Path) {
    ep == place && ep in disk.files
  }

  method CrateEntrypoints(disk: Disk, c: string) returns (found: seq<Path>)
    requires disk.Valid() && [c, "Cargo.toml"] in disk.files
    ensures forall ep :: ep in found <==> OfCrate(disk, c, ep)
  {
    hide EntryShape;
    var bins;
    found := FixedEntrypoints(disk, c);
    bins := Bins(disk, c);
    found := found + bins;
    forall ep ensures ep in found <==> OfCrate(disk, c, ep) { CrateShapes(c, ep); }
  }

  lemma CrateShapes(c: string, ep: Path)
    ensures EntryShape(ep) && ep[0] == c
       <==> || ep == [c, "src", "lib.rs"] || ep == [c, "src", "main.rs"] || ep == [c, "build.rs"]
            || (exists n :: ep == [c, "src", "bin", n + ".rs"]) || exists n :: ep == [c, "src", "bin", n, "main.rs"]
  {
  }

  /** Finds exactly the entrypoints of the crates on disk. */
  method FindEntrypoints(disk: Disk) returns (found: seq<Path>)
    requires disk.Valid()
    ensures forall ep :: ep in found <==> IsTarget(disk, ep)
    ensures forall ep | ep in found :: IsEntrypoint(ep)
  {
    hide IsTarget, EntryShape, IsEntrypoint;
    found := [];
    var names := disk.list[[]];
    for i := 0 to |names|
      invariant forall ep :: ep in found <==> exists j | 0 <= j < i :: OfCrate(disk, names[j], ep)
    {
      ghost var before := found;
      if [names[i]] in disk.dirs && [names[i], "Cargo.toml"] in disk.files {
        var here := CrateEntrypoints(disk, names[i]);
        found := found + here;
      }
      forall ep ensures ep in found <==> ep in before || OfCrate(disk, names[i], ep) {
        if OfCrate(disk, names[i], ep) { CrateIsListed(disk, ep); }
      }
    }
    forall ep ensures ep in found <==> IsTarget(disk, ep) {
      if IsTarget(disk, ep) {
        CrateIsListed(disk, ep);
        var j :| 0 <= j < |names| && names[j] == ep[0];
        assert OfCrate(disk, names[j], ep);
      }
    }
    forall ep | ep in found ensures IsEntrypoint(ep) {
      CrateIsListed(disk, ep);
      EntrypointShapes(ep);
    }
  }

  lemma CrateIsListed(disk: Disk, ep: Path)
    requires disk.Valid() && IsTarget(disk, ep)
    ensures ep != [] && [ep[0]] in disk.dirs && ep[0] in disk.list[[]] && [ep[0], "Cargo.toml"] in disk.files
    ensures EntryShape(ep)
  {
    var cargo := [ep[0], "Cargo.toml"];
    assert cargo[..1] == [ep[0]] && [] + [ep[0]] == [ep[0]];
  }

  // ---------------------------------------------------------------------------------------------
  // The audit of a tree
  // ---------------------------------------------------------------------------------------------

  /** A file at this path has an inner `forbid` standing in code. */
  predicate HasForbid(files: seq<File>, rel: Path)
    requires forall f | f in files :: f.Valid()
  {
    exists i, k, j | 0 <= i < |files| && 0 <= k < |files[i].found| && 0 <= j < |files[i].found[k]| ::
      files[i].rel == rel && LiveForbid(files[i], k, j)
  }

  lemma ForbidsAt(files: seq<File>, ep: Path)
    requires forall f | f in files :: f.Valid()
    ensures Forbids(files, ep) <==> EntryShape(ep) && HasForbid(files, ep)
  {
    hide IsEntrypoint, EntryShape, LiveForbid;
    EntrypointShapes(ep);
  }

  /**
   Discovery and audit together: silent exactly when there are files, some file of entrypoint shape and every
   entrypoint of a crate on disk has an inner `forbid` standing in code, and no file ends inside a comment or
   string.
   */
  method AuditDisk(disk: Disk, files: seq<File>) returns (problems: seq<Problem>, code: seq<Hit>)
    requires disk.Valid() && forall f | f in files :: f.Valid()
    ensures problems == [] <==>
              && files != []
              && (exists i | 0 <= i < |files| :: EntryShape(files[i].rel) && HasForbid(files, files[i].rel))
              && (forall ep | IsTarget(disk, ep) :: HasForbid(files, ep))
              && forall i | 0 <= i < |files| :: Unterminated(files[i]) == []
    ensures forall ep :: Uncovered(ep) in problems <==> IsTarget(disk, ep) && !HasForbid(files, ep)
    ensures code == [] <==> forall i | 0 <= i < |files| :: OnlyInProse(files[i])
    ensures forall h :: h in code <==> exists i | 0 <= i < |files| :: IsCodeHit(files[i], h)
  {
    hide IsTarget, EntryShape, Unterminated, OnlyInProse, IsCodeHit, Forbids, HasForbid, IsEntrypoint;
    var found := FindEntrypoints(disk);
    problems, code := Audit(files, found);
    forall ep ensures Forbids(files, ep) <==> EntryShape(ep) && HasForbid(files, ep) { ForbidsAt(files, ep); }
    forall ep | IsTarget(disk, ep) ensures EntryShape(ep) { CrateIsListed(disk, ep); }
  }
}
