/** The walk over a deep-storage tree that collects segment artifacts. */
module Scan {

  import opened Common
  import opened Paths

  const MAX_SCAN_DEPTH: nat := 16
  const MAX_SCAN_DIRS: nat := 1_000_000
  const MAX_DIR_ENTRIES: nat := 1_000_000
  const MAX_WARNINGS: nat := 100

  /** A directory as the walk can read it, its entries in any order. */
  datatype Listing = Unreadable | Readable(entries: seq<Entry>)
  datatype Entry = Entry(name: string, kind: Kind)
  datatype Kind = Unlisted | Unstatable | Symlink | Special | File | SubDir(listing: Listing)

  datatype ArtifactKind = IndexZip | SmooshDir
  datatype Artifact = Artifact(path: Path, kind: ArtifactKind)

  datatype Warning =
    | VisitCap
    | QueueCap(path: Path)
    | TooManyEntries(path: Path)
    | TooDeep(path: Path)
    | UnreadableDir(path: Path)
    | UnreadEntry(path: Path)
    | UnstatableEntry(path: Path)
    | SkippedSymlink(path: Path)
    | SkippedSpecial(path: Path)
    | Elided(count: nat)

  // ----- What a tree holds ----------------------------------------------------------------

  predicate HasMetaSmoosh(entries: seq<Entry>) {
    Entry("meta.smoosh", File) in entries
  }

  /** The marker is a regular file of that very name. */
  lemma MetaSmooshSpelled(entries: seq<Entry>)
    ensures HasMetaSmoosh(entries) <==>
            exists i :: 0 <= i < |entries| && entries[i].kind.File?
                        && entries[i].name == ['m', 'e', 't', 'a', '.', 's', 'm', 'o', 'o', 's', 'h']
  {
    var name := ['m', 'e', 't', 'a', '.', 's', 'm', 'o', 'o', 's', 'h'];
    assert name == "meta.smoosh";
    if i :| 0 <= i < |entries| && entries[i].kind.File? && entries[i].name == name {
      assert entries[i] == Entry(name, File);
    }
  }

  /** An artifact of the given kind lies at a path below a directory, reached through readable
      directories that are not symlinks. */
  ghost predicate Reaches(entries: seq<Entry>, rel: Path, kind: ArtifactKind)
    decreases |rel|
  {
    |rel| > 0 && exists i :: 0 <= i < |entries| && EntryReaches(entries[i], rel, kind)
  }

  ghost predicate EntryReaches(e: Entry, rel: Path, kind: ArtifactKind)
    requires |rel| > 0
    decreases |rel|, 0
  {
    && e.name == rel[0]
    && if |rel| == 1 then
         match kind
         case IndexZip => e.kind.File? && e.name == "index.zip"
         case SmooshDir => e.kind.SubDir? && e.kind.listing.Readable? && HasMetaSmoosh(e.kind.listing.entries)
       else
         e.kind.SubDir? && e.kind.listing.Readable? && Reaches(e.kind.listing.entries, rel[1..], kind)
  }

  // ----- Counting what a walk without limits would yield ------------------------------------

  /** Something to count in a tree: one artifact, all artifacts, one warning, the directories, or the
      places where a limit on depth or on the entries of a directory would cut the walk. */
  datatype Query = Of(artifact: Artifact) | Artifacts | Warned(warning: Warning) | Directories | Cuts

  function One(b: bool): (n: nat)
    ensures n == 1 <==> b
    ensures n <= 1
  {
    if b then 1 else 0
  }

  function CountArtifact(q: Query, path: Path, kind: ArtifactKind): nat {
    One(q == Artifacts || q == Of(Artifact(path, kind)))
  }

  /** The count of a directory itself, without its entries. */
  function OwnCount(q: Query, path: Path, entries: seq<Entry>, depth: nat): nat {
    match q
    case Directories => 1
    case Cuts => One(|entries| > MAX_DIR_ENTRIES)
    case Warned(_) => 0
    case _ => if depth > 0 && HasMetaSmoosh(entries) then CountArtifact(q, path, SmooshDir) else 0
  }

  function EntryCount(q: Query, path: Path, e: Entry, depth: nat): nat
    decreases e
  {
    var at := path + [e.name];
    match e.kind
    case Unlisted => One(q == Warned(UnreadEntry(path)))
    case Unstatable => One(q == Warned(UnstatableEntry(at)))
    case Symlink => One(q == Warned(SkippedSymlink(at)))
    case Special => One(q == Warned(SkippedSpecial(at)))
    case File => if e.name == "index.zip" then CountArtifact(q, at, IndexZip) else 0
    case SubDir(listing) => One(q == Cuts && depth >= MAX_SCAN_DEPTH) + DirCount(q, at, listing, depth + 1)
  }

  function DirCount(q: Query, path: Path, listing: Listing, depth: nat): nat
    decreases listing
  {
    match listing
    case Unreadable => One(q == Directories || q == Warned(UnreadableDir(path)))
    case Readable(es) => OwnCount(q, path, es, depth) + EntriesCount(q, path, es, depth)
  }

  function EntriesCount(q: Query, path: Path, entries: seq<Entry>, depth: nat): nat
    decreases entries
  {
    if entries == [] then 0
    else EntryCount(q, path, entries[0], depth) + EntriesCount(q, path, entries[1..], depth)
  }

  /** The count over the whole tree. */
  function TreeCount(q: Query, root: Listing): nat { DirCount(q, [], root, 0) }

  // ----- What is counted can be reached -----------------------------------------------------

  predicate Walkable(e: Entry) { e.kind.File? || e.kind.SubDir? }

  ghost predicate Under(path: Path, a: Artifact) { |path| <= |a.path| && a.path[..|path|] == path }

  lemma UnderName(path: Path, name: string, a: Artifact)
    requires Under(path + [name], a)
    ensures |path| < |a.path| && Under(path, a) && a.path[|path|] == name
  {
    var at := path + [name];
    assert a.path[..|path|] == at[..|path|];
    assert a.path[|path|] == a.path[..|at|][|path|];
  }

  /** What an entry yields lies under it. */
  lemma {:induction false} EntryIsUnder(path: Path, e: Entry, depth: nat, a: Artifact)
    requires EntryCount(Of(a), path, e, depth) > 0
    ensures Walkable(e) && Under(path + [e.name], a)
    decreases e
  {
    if e.kind.SubDir? {
      DirIsUnder(path + [e.name], e.kind.listing, depth + 1, a);
    }
  }

  lemma {:induction false} DirIsUnder(path: Path, listing: Listing, depth: nat, a: Artifact)
    requires DirCount(Of(a), path, listing, depth) > 0
    ensures Under(path, a)
    decreases listing
  {
    if listing.Readable? && EntriesCount(Of(a), path, listing.entries, depth) > 0 {
      var i := EntriesAreUnder(path, listing.entries, depth, a);
      UnderName(path, listing.entries[i].name, a);
    }
  }

  lemma {:induction false} EntriesAreUnder(path: Path, entries: seq<Entry>, depth: nat, a: Artifact)
    returns (i: nat)
    requires EntriesCount(Of(a), path, entries, depth) > 0
    ensures i < |entries| && Walkable(entries[i]) && Under(path + [entries[i].name], a)
    decreases entries
  {
    if EntryCount(Of(a), path, entries[0], depth) > 0 {
      EntryIsUnder(path, entries[0], depth, a);
      i := 0;
    } else {
      i := EntriesAreUnder(path, entries[1..], depth, a);
      i := i + 1;
    }
  }

  lemma ReachesSplit(entries: seq<Entry>, rel: Path, kind: ArtifactKind)
    requires entries != [] && |rel| > 0
    ensures Reaches(entries, rel, kind) <==>
            EntryReaches(entries[0], rel, kind) || Reaches(entries[1..], rel, kind)
  {
    if Reaches(entries[1..], rel, kind) {
      var i :| 0 <= i < |entries[1..]| && EntryReaches(entries[1..][i], rel, kind);
      assert EntryReaches(entries[i + 1], rel, kind);
    }
    if Reaches(entries, rel, kind) {
      var i :| 0 <= i < |entries| && EntryReaches(entries[i], rel, kind);
      if i > 0 { assert EntryReaches(entries[1..][i - 1], rel, kind); }
    }
  }

  /** The artifacts counted below a directory are exactly those that can be reached from it. */
  lemma {:induction false} CountedIffReached(path: Path, entries: seq<Entry>, depth: nat, rel: Path, kind: ArtifactKind)
    requires |rel| > 0
    ensures EntriesCount(Of(Artifact(path + rel, kind)), path, entries, depth) > 0 <==> Reaches(entries, rel, kind)
    decreases entries
  {
    if entries != [] {
      EntryCountedIffReached(path, entries[0], depth, rel, kind);
      CountedIffReached(path, entries[1..], depth, rel, kind);
      ReachesSplit(entries, rel, kind);
    }
  }

  lemma {:induction false} EntryCountedIffReached(path: Path, e: Entry, depth: nat, rel: Path, kind: ArtifactKind)
    requires |rel| > 0
    ensures EntryCount(Of(Artifact(path + rel, kind)), path, e, depth) > 0 <==> EntryReaches(e, rel, kind)
    decreases e
  {
    var a, at := Artifact(path + rel, kind), path + [e.name];
    if rel[0] != e.name {
      if EntryCount(Of(a), path, e, depth) > 0 {
        EntryIsUnder(path, e, depth, a);
        UnderName(path, e.name, a);
      }
    } else {
      assert at + rel[1..] == path + rel;
      if e.kind.SubDir? {
        DirCountedIffReached(at, e.kind.listing, depth + 1, rel[1..], kind);
      } else {
        assert |rel| == 1 <==> at == path + rel;
      }
    }
  }

  lemma {:induction false} DirCountedIffReached(at: Path, listing: Listing, depth: nat, rel: Path, kind: ArtifactKind)
    ensures DirCount(Of(Artifact(at + rel, kind)), at, listing, depth) > 0 <==>
            listing.Readable? && if rel == [] then depth > 0 && kind.SmooshDir? && HasMetaSmoosh(listing.entries)
                                 else Reaches(listing.entries, rel, kind)
    decreases listing
  {
    if listing.Readable? {
      var a := Artifact(at + rel, kind);
      assert (at == at + rel) == (rel == []);
      if rel != [] {
        CountedIffReached(at, listing.entries, depth, rel, kind);
      } else if EntriesCount(Of(a), at, listing.entries, depth) > 0 {
        var i := EntriesAreUnder(at, listing.entries, depth, a);
        assert false;
      }
    }
  }

  /** No directory lists two files or directories of one name. */
  ghost predicate DistinctNames(listing: Listing)
    decreases listing
  {
    listing.Readable? ==>
      && (forall i, j :: 0 <= i < j < |listing.entries| && Walkable(listing.entries[i]) && Walkable(listing.entries[j])
            ==> listing.entries[i].name != listing.entries[j].name)
      && forall i :: 0 <= i < |listing.entries| ==>
        listing.entries[i].kind.SubDir? ==> DistinctNames(listing.entries[i].kind.listing)
  }

  lemma {:induction false} DirCountsOnce(path: Path, listing: Listing, depth: nat, a: Artifact)
    requires DistinctNames(listing)
    ensures DirCount(Of(a), path, listing, depth) <= 1
    decreases listing
  {
    if listing.Readable? {
      EntriesCountOnce(path, listing.entries, depth, a);
      if EntriesCount(Of(a), path, listing.entries, depth) > 0 {
        var i := EntriesAreUnder(path, listing.entries, depth, a);
        UnderName(path, listing.entries[i].name, a);
      }
    }
  }

  lemma {:induction false} EntriesCountOnce(path: Path, entries: seq<Entry>, depth: nat, a: Artifact)
    requires DistinctNames(Readable(entries))
    ensures EntriesCount(Of(a), path, entries, depth) <= 1
    decreases entries
  {
    if entries != [] {
      var e, rest := entries[0], entries[1..];
      EntriesCountOnce(path, rest, depth, a);
      if e.kind.SubDir? {
        DirCountsOnce(path + [e.name], e.kind.listing, depth + 1, a);
      }
      if EntryCount(Of(a), path, e, depth) > 0 && EntriesCount(Of(a), path, rest, depth) > 0 {
        EntryIsUnder(path, e, depth, a);
        UnderName(path, e.name, a);
        var i := EntriesAreUnder(path, rest, depth, a);
        assert entries[i + 1] == rest[i];
        UnderName(path, rest[i].name, a);
        assert false;
      }
    }
  }

  // ----- Counts add up --------------------------------------------------------------------

  lemma {:induction false} CountConcat(q: Query, path: Path, xs: seq<Entry>, ys: seq<Entry>, depth: nat)
    ensures EntriesCount(q, path, xs + ys, depth) == EntriesCount(q, path, xs, depth) + EntriesCount(q, path, ys, depth)
    decreases |xs|
  {
    if xs == [] {
      assert xs + ys == ys;
    } else {
      assert (xs + ys)[1..] == xs[1..] + ys;
      CountConcat(q, path, xs[1..], ys, depth);
    }
  }

  lemma CountSnoc(q: Query, path: Path, xs: seq<Entry>, e: Entry, depth: nat)
    ensures EntriesCount(q, path, xs + [e], depth) == EntriesCount(q, path, xs, depth) + EntryCount(q, path, e, depth)
  {
    CountConcat(q, path, xs, [e], depth);
    assert [e][1..] == [];
  }

  predicate EntryLe(a: Entry, b: Entry) {
    if a.name == b.name then a.kind.SubDir? ==> b.kind.SubDir? else StringLe(a.name, b.name)
  }

  lemma {:induction false} CountOfInsert(q: Query, path: Path, e: Entry, xs: seq<Entry>, depth: nat)
    ensures EntriesCount(q, path, Insert(EntryLe, e, xs), depth) ==
            EntryCount(q, path, e, depth) + EntriesCount(q, path, xs, depth)
    decreases |xs|
  {
    var ys := Insert(EntryLe, e, xs);
    if xs == [] || EntryLe(e, xs[0]) {
      assert ys[1..] == xs;
    } else {
      assert ys[1..] == Insert(EntryLe, e, xs[1..]);
      CountOfInsert(q, path, e, xs[1..], depth);
    }
  }

  /** The order in which entries are handled does not change any count. */
  lemma {:induction false} CountOfSort(q: Query, path: Path, xs: seq<Entry>, depth: nat)
    ensures EntriesCount(q, path, Sort(EntryLe, xs), depth) == EntriesCount(q, path, xs, depth)
    decreases |xs|
  {
    if xs != [] {
      CountOfSort(q, path, xs[1..], depth);
      CountOfInsert(q, path, xs[0], Sort(EntryLe, xs[1..]), depth);
    }
  }

  // ----- Warnings -------------------------------------------------------------------------

  /** What is reported of the warnings pushed. */
  function Report(pushed: seq<Warning>): seq<Warning> {
    if |pushed| <= MAX_WARNINGS then pushed
    else pushed[..MAX_WARNINGS] + [Elided(|pushed| - MAX_WARNINGS)]
  }

  class Warnings {
    var kept: seq<Warning>
    var dropped: nat
    ghost var pushed: seq<Warning>

    ghost predicate Valid()
      reads this
    {
      && |kept| <= MAX_WARNINGS && kept <= pushed && dropped == |pushed| - |kept|
      && (dropped > 0 ==> |kept| == MAX_WARNINGS)
    }

    constructor ()
      ensures Valid() && pushed == []
    {
      kept, dropped, pushed := [], 0, [];
    }

    method Push(w: Warning)
      requires Valid()
      modifies this
      ensures Valid() && pushed == old(pushed) + [w]
    {
      if |kept| < MAX_WARNINGS {
        kept := kept + [w];
      } else {
        dropped := dropped + 1;
      }
      pushed := pushed + [w];
    }

    method IntoVec() returns (report: seq<Warning>)
      requires Valid()
      ensures report == Report(pushed)
      ensures if |pushed| <= 100 then report == pushed else report == pushed[..100] + [Elided(|pushed| - 100)]
    {
      report := kept;
      if dropped > 0 {
        report := report + [Elided(dropped)];
      }
    }
  }

  // ----- Reading one directory ------------------------------------------------------------

  function Anomaly(path: Path, e: Entry): Warning
    requires !Walkable(e)
  {
    match e.kind
    case Unlisted => UnreadEntry(path)
    case Unstatable => UnstatableEntry(path + [e.name])
    case Symlink => SkippedSymlink(path + [e.name])
    case Special => SkippedSpecial(path + [e.name])
  }

  /** The files and directories among the first n entries. */
  function Kept(all: seq<Entry>, n: nat): (kept: seq<Entry>)
    requires n <= |all|
    ensures forall e :: e in kept ==> Walkable(e)
  {
    if n == 0 then []
    else if Walkable(all[n - 1]) then Kept(all, n - 1) + [all[n - 1]]
    else Kept(all, n - 1)
  }

  /** The warnings for the others. */
  function Anomalies(path: Path, all: seq<Entry>, n: nat): seq<Warning>
    requires n <= |all|
  {
    if n == 0 then []
    else if Walkable(all[n - 1]) then Anomalies(path, all, n - 1)
    else Anomalies(path, all, n - 1) + [Anomaly(path, all[n - 1])]
  }

  /** Keeps the files and directories, and warns of everything else. */
  method ReadEntries(path: Path, all: seq<Entry>, warnings: Warnings)
    returns (entries: seq<Entry>, hasMetaSmoosh: bool, over: bool)
    requires warnings.Valid()
    modifies warnings
    ensures warnings.Valid()
    ensures over <==> |all| > MAX_DIR_ENTRIES
    ensures var n := if over then MAX_DIR_ENTRIES else |all|;
      && entries == Kept(all, n)
      && hasMetaSmoosh == HasMetaSmoosh(all[..n])
      && warnings.pushed == old(warnings.pushed) + Anomalies(path, all, n)
                            + if over then [TooManyEntries(path)] else []
  {
    entries, hasMetaSmoosh, over := [], false, false;
    var seen := 0;
    while seen < |all|
      invariant 0 <= seen <= |all| && seen <= MAX_DIR_ENTRIES
      invariant !over && warnings.Valid()
      invariant warnings.pushed == old(warnings.pushed) + Anomalies(path, all, seen)
      invariant hasMetaSmoosh == HasMetaSmoosh(all[..seen])
      invariant entries == Kept(all, seen)
    {
      var entry := all[seen];
      if seen + 1 > MAX_DIR_ENTRIES {
        warnings.Push(TooManyEntries(path));
        over := true;
        return;
      }
      assert all[..seen + 1] == all[..seen] + [entry];
      if !Walkable(entry) {
        warnings.Push(Anomaly(path, entry));
      } else {
        if entry.kind.File? && entry.name == "meta.smoosh" {
          hasMetaSmoosh := true;
        }
        entries := entries + [entry];
      }
      seen := seen + 1;
    }
    assert all[..seen] == all;
  }

  function WarningCount(q: Query, ws: seq<Warning>): nat {
    if q.Warned? then multiset(ws)[q.warning] else 0
  }

  lemma AnomalyCount(q: Query, path: Path, e: Entry, depth: nat)
    requires !Walkable(e)
    ensures EntryCount(q, path, e, depth) == WarningCount(q, [Anomaly(path, e)])
  {
  }

  /** The count over the first n entries, one entry at a time. */
  function CountTo(q: Query, path: Path, all: seq<Entry>, n: nat, depth: nat): nat
    requires n <= |all|
  {
    if n == 0 then 0 else CountTo(q, path, all, n - 1, depth) + EntryCount(q, path, all[n - 1], depth)
  }

  lemma {:induction false} CountToIsCount(q: Query, path: Path, all: seq<Entry>, n: nat, depth: nat)
    requires n <= |all|
    ensures EntriesCount(q, path, all[..n], depth) == CountTo(q, path, all, n, depth)
  {
    if n > 0 {
      CountToIsCount(q, path, all, n - 1, depth);
      CountSnoc(q, path, all[..n - 1], all[n - 1], depth);
      assert all[..n] == all[..n - 1] + [all[n - 1]];
    }
  }

  /** The share of the kept ones in it. */
  function KeptTo(q: Query, path: Path, all: seq<Entry>, n: nat, depth: nat): nat
    requires n <= |all|
  {
    if n == 0 then 0
    else KeptTo(q, path, all, n - 1, depth) + if Walkable(all[n - 1]) then EntryCount(q, path, all[n - 1], depth) else 0
  }

  /** The share of the warnings in it. */
  function WarnedTo(q: Query, path: Path, all: seq<Entry>, n: nat): nat
    requires n <= |all|
  {
    if n == 0 then 0
    else WarnedTo(q, path, all, n - 1)
         + if Walkable(all[n - 1]) then 0 else WarningCount(q, [Anomaly(path, all[n - 1])])
  }

  lemma {:induction false} KeptToIsCount(q: Query, path: Path, all: seq<Entry>, n: nat, depth: nat)
    requires n <= |all|
    ensures EntriesCount(q, path, Kept(all, n), depth) == KeptTo(q, path, all, n, depth)
  {
    if n > 0 {
      KeptToIsCount(q, path, all, n - 1, depth);
      if Walkable(all[n - 1]) {
        CountSnoc(q, path, Kept(all, n - 1), all[n - 1], depth);
      }
    }
  }

  lemma {:induction false} WarnedToIsCount(q: Query, path: Path, all: seq<Entry>, n: nat)
    requires n <= |all|
    ensures WarningCount(q, Anomalies(path, all, n)) == WarnedTo(q, path, all, n)
  {
    if n > 0 {
      WarnedToIsCount(q, path, all, n - 1);
      if !Walkable(all[n - 1]) {
        WarningsAdd(q, Anomalies(path, all, n - 1), [Anomaly(path, all[n - 1])]);
      }
    }
  }

  lemma {:induction false} CountToSplits(q: Query, path: Path, all: seq<Entry>, n: nat, depth: nat)
    requires n <= |all|
    ensures CountTo(q, path, all, n, depth) == KeptTo(q, path, all, n, depth) + WarnedTo(q, path, all, n)
  {
    if n > 0 {
      CountToSplits(q, path, all, n - 1, depth);
      if !Walkable(all[n - 1]) {
        AnomalyCount(q, path, all[n - 1], depth);
      }
    }
  }

  /** Reading a directory splits what its entries count into warnings and kept entries. */
  lemma ReadingSplits(q: Query, path: Path, all: seq<Entry>, n: nat, depth: nat)
    requires n <= |all|
    ensures EntriesCount(q, path, all[..n], depth) ==
            WarningCount(q, Anomalies(path, all, n)) + EntriesCount(q, path, Kept(all, n), depth)
  {
    CountToIsCount(q, path, all, n, depth);
    CountToSplits(q, path, all, n, depth);
    KeptToIsCount(q, path, all, n, depth);
    WarnedToIsCount(q, path, all, n);
  }

  lemma WarningsAdd(q: Query, xs: seq<Warning>, ys: seq<Warning>)
    ensures WarningCount(q, xs + ys) == WarningCount(q, xs) + WarningCount(q, ys)
  {
    assert multiset(xs + ys) == multiset(xs) + multiset(ys);
  }
}
