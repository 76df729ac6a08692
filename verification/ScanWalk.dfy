/** The work-stack loop of the scan, with its limits, and what its result means. */
module ScanWalk {

  import opened Common
  import opened Paths
  import opened Scan
  import opened ScanSteps

  datatype ScanError = RootUnreadable
  datatype ScanResult = ScanResult(found: seq<Artifact>, truncated: bool, warnings: seq<Warning>, aborted: bool)

  // ----- Bookkeeping ----------------------------------------------------------------------

  function StackCount(q: Query, stack: seq<Pending>): nat {
    if stack == [] then 0
    else
      var top := stack[|stack| - 1];
      StackCount(q, stack[..|stack| - 1]) + DirCount(q, top.path, top.listing, top.depth)
  }

  /** What has been counted so far. */
  function DoneCount(q: Query, found: seq<Artifact>, pushed: seq<Warning>, visited: nat): nat {
    match q
    case Of(a) => multiset(found)[a]
    case Artifacts => |found|
    case Warned(_) => WarningCount(q, pushed)
    case Directories => visited
    case Cuts => 0
  }

  /** A limit of the walk does not fit the tree. */
  predicate OverLimits(root: Listing) {
    TreeCount(Cuts, root) > 0 || TreeCount(Directories, root) > MAX_SCAN_DIRS
  }

  /** The walk with the `rest` of the directory at `path` still to handle. */
  datatype Walk = Walk(found: seq<Artifact>, pushed: seq<Warning>, visited: nat, aborted: bool,
                       stack: seq<Pending>, path: Path, rest: seq<Entry>, depth: nat)

  function Count(q: Query, w: Walk): nat {
    DoneCount(q, w.found, w.pushed, w.visited) + StackCount(q, w.stack) + EntriesCount(q, w.path, w.rest, w.depth)
  }

  /** Done and pending make up the tree, or no more than the tree once something was given up. */
  ghost predicate Balanced(q: Query, root: Listing, w: Walk) {
    if w.aborted then q.Warned? || Count(q, w) <= TreeCount(q, root) else Count(q, w) == TreeCount(q, root)
  }

  ghost predicate Accounts(root: Listing, w: Walk) {
    && (forall q :: Balanced(q, root, w))
    && (w.aborted ==> w.pushed != [] && OverLimits(root))
  }

  lemma StackPush(q: Query, stack: seq<Pending>, p: Pending)
    ensures StackCount(q, stack + [p]) == StackCount(q, stack) + DirCount(q, p.path, p.listing, p.depth)
  {
    assert (stack + [p])[..|stack|] == stack;
  }

  lemma {:induction false} StackHoldsDirectories(stack: seq<Pending>)
    ensures StackCount(Directories, stack) >= |stack|
    decreases |stack|
  {
    if stack != [] {
      StackHoldsDirectories(stack[..|stack| - 1]);
    }
  }

  lemma FoundPush(q: Query, found: seq<Artifact>, pushed: seq<Warning>, visited: nat, a: Artifact)
    ensures DoneCount(q, found + [a], pushed, visited) ==
            DoneCount(q, found, pushed, visited) + CountArtifact(q, a.path, a.kind)
  {
  }

  lemma WarningsPush(q: Query, found: seq<Artifact>, pushed: seq<Warning>, visited: nat,
                     ws: seq<Warning>)
    ensures DoneCount(q, found, pushed + ws, visited) == DoneCount(q, found, pushed, visited) + WarningCount(q, ws)
  {
    WarningsAdd(q, pushed, ws);
  }

  lemma CountRest(q: Query, w: Walk)
    requires w.rest != []
    ensures EntriesCount(q, w.path, w.rest, w.depth) ==
            EntryCount(q, w.path, w.rest[0], w.depth) + EntriesCount(q, w.path, w.rest[1..], w.depth)
  {
  }

  // ----- Handling the entries of one directory ----------------------------------------------

  ghost predicate WithinMax(found: seq<Artifact>, maxSegments: Option<nat>) {
    maxSegments.Some? ==> |found| <= maxSegments.value
  }

  /** An artifact of the tree is missing from the collected ones. */
  ghost predicate LeavesOut(root: Listing, found: seq<Artifact>, a: Artifact) {
    multiset(found)[a] < TreeCount(Of(a), root) && |found| < TreeCount(Artifacts, root)
  }

  function AfterZip(w: Walk): Walk
    requires w.rest != []
  {
    w.(found := w.found + [Artifact(w.path + [w.rest[0].name], IndexZip)], rest := w.rest[1..])
  }

  lemma ZipCount(q: Query, w: Walk)
    requires w.rest != [] && w.rest[0] == Entry("index.zip", File)
    ensures Count(q, AfterZip(w)) == Count(q, w)
  {
    CountRest(q, w);
    FoundPush(q, w.found, w.pushed, w.visited, Artifact(w.path + ["index.zip"], IndexZip));
  }

  lemma HandleZip(root: Listing, w: Walk)
    requires w.rest != [] && w.rest[0] == Entry("index.zip", File) && Accounts(root, w)
    ensures Accounts(root, AfterZip(w))
    ensures LeavesOut(root, w.found, Artifact(w.path + ["index.zip"], IndexZip))
  {
    var a := Artifact(w.path + ["index.zip"], IndexZip);
    forall q ensures Balanced(q, root, AfterZip(w)) {
      assert Balanced(q, root, w);
      ZipCount(q, w);
    }
    assert Balanced(Of(a), root, w) && Balanced(Artifacts, root, w);
    CountRest(Of(a), w);
    CountRest(Artifacts, w);
  }

  lemma HandleOtherFile(root: Listing, w: Walk)
    requires w.rest != [] && w.rest[0].kind.File? && w.rest[0].name != "index.zip" && Accounts(root, w)
    ensures Accounts(root, w.(rest := w.rest[1..]))
  {
    forall q ensures Balanced(q, root, w.(rest := w.rest[1..])) {
      assert Balanced(q, root, w);
      CountRest(q, w);
    }
  }

  function AfterDir(w: Walk): Walk
    requires w.rest != [] && w.rest[0].kind.SubDir?
  {
    var p := Pending(w.path + [w.rest[0].name], w.rest[0].kind.listing, w.depth + 1);
    w.(stack := w.stack + [p], rest := w.rest[1..])
  }

  lemma EntryIsDir(q: Query, path: Path, e: Entry, depth: nat)
    requires e.kind.SubDir?
    ensures EntryCount(q, path, e, depth) ==
            One(q == Cuts && depth >= MAX_SCAN_DEPTH) + DirCount(q, path + [e.name], e.kind.listing, depth + 1)
  {
  }

  lemma PushCount(q: Query, w: Walk)
    requires w.rest != [] && w.rest[0].kind.SubDir? && w.depth < MAX_SCAN_DEPTH
    ensures Count(q, AfterDir(w)) == Count(q, w)
  {
    CountRest(q, w);
    EntryIsDir(q, w.path, w.rest[0], w.depth);
    StackPush(q, w.stack, Pending(w.path + [w.rest[0].name], w.rest[0].kind.listing, w.depth + 1));
  }

  lemma HandleDir(root: Listing, w: Walk)
    requires w.rest != [] && w.rest[0].kind.SubDir? && w.depth < MAX_SCAN_DEPTH && Accounts(root, w)
    ensures Accounts(root, AfterDir(w))
  {
    forall q ensures Balanced(q, root, AfterDir(w)) {
      assert Balanced(q, root, w);
      PushCount(q, w);
    }
  }

  function AfterGivingUp(w: Walk, warning: Warning): Walk
    requires w.rest != []
  {
    w.(pushed := w.pushed + [warning], aborted := true, rest := w.rest[1..])
  }

  /** A directory given up, because it lies too deep or because too many are pending. */
  lemma GiveUpDir(root: Listing, w: Walk, warning: Warning)
    requires w.rest != [] && w.rest[0].kind.SubDir? && Accounts(root, w)
    requires w.depth >= MAX_SCAN_DEPTH || |w.stack| >= MAX_SCAN_DIRS
    ensures Accounts(root, AfterGivingUp(w, warning))
  {
    forall q ensures Balanced(q, root, AfterGivingUp(w, warning)) {
      assert Balanced(q, root, w);
      CountRest(q, w);
    }
    if !w.aborted {
      GivenUpIsOver(root, w);
    }
  }

  lemma GivenUpIsOver(root: Listing, w: Walk)
    requires w.rest != [] && w.rest[0].kind.SubDir? && !w.aborted
    requires Balanced(Cuts, root, w) && Balanced(Directories, root, w)
    requires w.depth >= MAX_SCAN_DEPTH || |w.stack| >= MAX_SCAN_DIRS
    ensures OverLimits(root)
  {
    if w.depth >= MAX_SCAN_DEPTH {
      CountRest(Cuts, w);
    } else {
      CountRest(Directories, w);
      StackHoldsDirectories(w.stack);
      DirectoryCountsItself(w.path + [w.rest[0].name], w.rest[0].kind.listing, w.depth + 1);
    }
  }

  lemma DirectoryCountsItself(path: Path, listing: Listing, depth: nat)
    ensures DirCount(Directories, path, listing, depth) >= 1
  {
  }

  /** The books are balanced at some entry of a directory, and behind all of them unless the walk was cut. */
  ghost predicate HandledTo(root: Listing, p: Progress, pushed: seq<Warning>, visited: nat, path: Path, depth: nat) {
    exists rest :: Accounts(root, Walk(p.found, pushed, visited, p.aborted, p.stack, path, rest, depth))
                   && (!p.truncated ==> rest == [])
  }

  /** Handles the files and directories of one directory in turn, up to the limit on segments. */
  method VisitEntries(path: Path, depth: nat, entries: seq<Entry>, maxSegments: Option<nat>, found0: seq<Artifact>,
                      stack0: seq<Pending>, aborted0: bool, warnings: Warnings, ghost root: Listing,
                      ghost visited: nat)
    returns (found: seq<Artifact>, stack: seq<Pending>, aborted: bool, truncated: bool)
    requires warnings.Valid() && WithinMax(found0, maxSegments)
    requires forall e :: e in entries ==> Walkable(e)
    requires Accounts(root, Walk(found0, warnings.pushed, visited, aborted0, stack0, path, entries, depth))
    modifies warnings
    ensures warnings.Valid() && WithinMax(found, maxSegments)
    ensures forall p :: p in stack ==> p in stack0 || p.path != []
    ensures HandledTo(root, Progress(found, stack, aborted, truncated), warnings.pushed, visited, path, depth)
    ensures truncated ==> AtCapacity(found, maxSegments) && exists a :: LeavesOut(root, found, a)
    ensures Progress(found, stack, aborted, truncated) ==
            Handled(path, depth, maxSegments, entries, Progress(found0, stack0, aborted0, false))
  {
    found, stack, aborted, truncated := found0, stack0, aborted0, false;
    var rest := entries;
    ghost var w := Walk(found, warnings.pushed, visited, aborted, stack, path, rest, depth);
    while rest != []
      invariant warnings.Valid() && WithinMax(found, maxSegments)
      invariant forall e :: e in rest ==> Walkable(e)
      invariant forall p :: p in stack ==> p in stack0 || p.path != []
      invariant w == Walk(found, warnings.pushed, visited, aborted, stack, path, rest, depth)
      invariant Accounts(root, w) && !truncated
      invariant Handled(path, depth, maxSegments, rest, Progress(found, stack, aborted, false)) ==
                Handled(path, depth, maxSegments, entries, Progress(found0, stack0, aborted0, false))
      decreases |rest|
    {
      var entry := rest[0];
      var at := path + [entry.name];
      assert entry in rest;
      if entry.kind.SubDir? {
        if depth >= MAX_SCAN_DEPTH {
          GiveUpDir(root, w, TooDeep(at));
          w := AfterGivingUp(w, TooDeep(at));
          warnings.Push(TooDeep(at));
          aborted := true;
        } else if |stack| >= MAX_SCAN_DIRS {
          GiveUpDir(root, w, QueueCap(at));
          w := AfterGivingUp(w, QueueCap(at));
          warnings.Push(QueueCap(at));
          aborted := true;
        } else {
          HandleDir(root, w);
          w := AfterDir(w);
          stack := stack + [Pending(at, entry.kind.listing, depth + 1)];
        }
      } else if entry.name == "index.zip" {
        HandleZip(root, w);
        if AtCapacity(found, maxSegments) {
          truncated := true;
          return;
        }
        w := AfterZip(w);
        found := found + [Artifact(at, IndexZip)];
      } else {
        HandleOtherFile(root, w);
        w := w.(rest := rest[1..]);
      }
      rest := rest[1..];
    }
  }

  // ----- The walk -------------------------------------------------------------------------

  /** Taking the top directory off the stack. */
  function PoppedWalk(w: Walk): Walk
    requires w.stack != []
  {
    w.(stack := w.stack[..|w.stack| - 1], visited := w.visited + 1)
  }

  lemma PopUnreadable(root: Listing, w: Walk, top: Pending)
    requires w.stack != [] && w.rest == [] && Accounts(root, w)
    requires top == w.stack[|w.stack| - 1] && top.listing.Unreadable?
    ensures Accounts(root, PoppedWalk(w).(pushed := w.pushed + [UnreadableDir(top.path)]))
  {
    forall q ensures Balanced(q, root, PoppedWalk(w).(pushed := w.pushed + [UnreadableDir(top.path)])) {
      assert Balanced(q, root, w);
      WarningsPush(q, w.found, w.pushed, w.visited + 1, [UnreadableDir(top.path)]);
    }
  }

  function AfterReading(w: Walk, top: Pending, n: nat): Walk
    requires w.stack != [] && top.listing.Readable? && n <= |top.listing.entries|
  {
    var all := top.listing.entries;
    Walk(if top.depth > 0 && HasMetaSmoosh(all[..n]) then w.found + [Artifact(top.path, SmooshDir)] else w.found,
         w.pushed + Anomalies(top.path, all, n), w.visited + 1, w.aborted, w.stack[..|w.stack| - 1],
         top.path, Sort(EntryLe, Kept(all, n)), top.depth)
  }

  lemma ReadCount(q: Query, w: Walk, top: Pending, n: nat)
    requires w.stack != [] && top.listing.Readable? && n <= |top.listing.entries|
    ensures var all := top.listing.entries;
      var smoosh := top.depth > 0 && HasMetaSmoosh(all[..n]);
      Count(q, AfterReading(w, top, n)) ==
      DoneCount(q, w.found, w.pushed, w.visited) + (if q == Directories then 1 else 0)
      + (if smoosh then CountArtifact(q, top.path, SmooshDir) else 0) + WarningCount(q, Anomalies(top.path, all, n))
      + StackCount(q, w.stack[..|w.stack| - 1]) + EntriesCount(q, top.path, Sort(EntryLe, Kept(all, n)), top.depth)
  {
    var all := top.listing.entries;
    FoundPush(q, w.found, w.pushed + Anomalies(top.path, all, n), w.visited + 1, Artifact(top.path, SmooshDir));
    WarningsPush(q, w.found, w.pushed, w.visited + 1, Anomalies(top.path, all, n));
  }

  lemma PopCount(q: Query, w: Walk, top: Pending)
    requires w.stack != [] && w.rest == [] && top == w.stack[|w.stack| - 1] && top.listing.Readable?
    ensures Count(q, w) == DoneCount(q, w.found, w.pushed, w.visited) + StackCount(q, w.stack[..|w.stack| - 1])
                           + OwnCount(q, top.path, top.listing.entries, top.depth)
                           + EntriesCount(q, top.path, top.listing.entries, top.depth)
  {
  }

  lemma EntriesAfterReading(q: Query, path: Path, all: seq<Entry>, n: nat, depth: nat)
    requires n <= |all|
    ensures var here := WarningCount(q, Anomalies(path, all, n))
                        + EntriesCount(q, path, Sort(EntryLe, Kept(all, n)), depth);
      here <= EntriesCount(q, path, all, depth) && (n == |all| ==> here == EntriesCount(q, path, all, depth))
  {
    ReadingSplits(q, path, all, n, depth);
    CountOfSort(q, path, Kept(all, n), depth);
    PrefixCountsLess(q, path, all, n, depth);
  }

  lemma PrefixCountsLess(q: Query, path: Path, all: seq<Entry>, n: nat, depth: nat)
    requires n <= |all|
    ensures EntriesCount(q, path, all[..n], depth) <= EntriesCount(q, path, all, depth)
    ensures n == |all| ==> all[..n] == all
  {
    CountConcat(q, path, all[..n], all[n..], depth);
    assert all == all[..n] + all[n..];
  }

  /** Reading the top directory keeps every count when all its entries are read, and otherwise loses some. */
  lemma ReadingBalances(q: Query, w: Walk, top: Pending, n: nat)
    requires w.stack != [] && w.rest == [] && top == w.stack[|w.stack| - 1] && top.listing.Readable?
    requires n <= |top.listing.entries|
    ensures Count(q, AfterReading(w, top, n)) <= Count(q, w)
    ensures n == |top.listing.entries| <= MAX_DIR_ENTRIES ==> Count(q, AfterReading(w, top, n)) == Count(q, w)
  {
    var all := top.listing.entries;
    EntriesAfterReading(q, top.path, all, n, top.depth);
    ReadCount(q, w, top, n);
    PopCount(q, w, top);
    SmooshIsOwn(q, top.path, all, n, top.depth);
  }

  lemma SmooshIsOwn(q: Query, path: Path, all: seq<Entry>, n: nat, depth: nat)
    requires n <= |all|
    ensures var here := (if q == Directories then 1 else 0)
                        + (if depth > 0 && HasMetaSmoosh(all[..n]) then CountArtifact(q, path, SmooshDir) else 0);
      here <= OwnCount(q, path, all, depth)
      && (n == |all| <= MAX_DIR_ENTRIES ==> here == OwnCount(q, path, all, depth))
  {
    assert n == |all| ==> all[..n] == all;
  }

  lemma EnterDir(root: Listing, w: Walk, top: Pending)
    requires w.stack != [] && w.rest == [] && top == w.stack[|w.stack| - 1] && top.listing.Readable?
    requires |top.listing.entries| <= MAX_DIR_ENTRIES && Accounts(root, w)
    ensures Accounts(root, AfterReading(w, top, |top.listing.entries|))
  {
    var w' := AfterReading(w, top, |top.listing.entries|);
    forall q ensures Balanced(q, root, w') {
      assert Balanced(q, root, w);
      ReadingBalances(q, w, top, |top.listing.entries|);
    }
  }

  function AfterCut(w: Walk, top: Pending): Walk
    requires w.stack != [] && top.listing.Readable? && |top.listing.entries| > MAX_DIR_ENTRIES
  {
    var w' := AfterReading(w, top, MAX_DIR_ENTRIES);
    w'.(pushed := w'.pushed + [TooManyEntries(top.path)], aborted := true)
  }

  lemma EnterHugeDir(root: Listing, w: Walk, top: Pending)
    requires w.stack != [] && w.rest == [] && top == w.stack[|w.stack| - 1] && top.listing.Readable?
    requires |top.listing.entries| > MAX_DIR_ENTRIES && Accounts(root, w)
    ensures Accounts(root, AfterCut(w, top))
  {
    forall q ensures Balanced(q, root, AfterCut(w, top)) {
      assert Balanced(q, root, w);
      ReadingBalances(q, w, top, MAX_DIR_ENTRIES);
    }
    if !w.aborted {
      assert Balanced(Cuts, root, w);
      PopCount(Cuts, w, top);
    }
  }

  lemma EnterSmoosh(root: Listing, w: Walk, top: Pending)
    requires w.stack != [] && w.rest == [] && top == w.stack[|w.stack| - 1] && top.listing.Readable?
    requires top.depth > 0 && HasMetaSmoosh(top.listing.entries) && Accounts(root, w)
    ensures LeavesOut(root, w.found, Artifact(top.path, SmooshDir))
  {
    var a := Artifact(top.path, SmooshDir);
    assert Balanced(Of(a), root, w) && Balanced(Artifacts, root, w);
    PopCount(Of(a), w, top);
    PopCount(Artifacts, w, top);
  }

  /** Everything in the tree was collected or warned of. */
  ghost predicate Complete(root: Listing, found: seq<Artifact>, pushed: seq<Warning>) {
    && (forall a :: multiset(found)[a] == TreeCount(Of(a), root))
    && |found| == TreeCount(Artifacts, root)
    && (forall w :: multiset(pushed)[w] == TreeCount(Warned(w), root))
  }

  /** What holds when the loop ends, however it ends. */
  ghost predicate Finished(root: Listing, maxSegments: Option<nat>, found: seq<Artifact>, pushed: seq<Warning>,
                           truncated: bool, aborted: bool) {
    && (forall a :: multiset(found)[a] <= TreeCount(Of(a), root))
    && WithinMax(found, maxSegments)
    && (truncated ==> AtCapacity(found, maxSegments) && exists a :: LeavesOut(root, found, a))
    && (aborted ==> OverLimits(root) && pushed != [])
    && (!truncated && !aborted ==> !OverLimits(root) && Complete(root, found, pushed))
  }

  /** Only the root has the empty path. */
  ghost predicate OneRoot(root: Listing, stack: seq<Pending>) {
    forall p :: p in stack && p.path == [] ==> p.listing == root
  }

  /** The walk with the top directory read: its entries in order, the warnings, and its own artifact if it is one. */
  function DirRead(w: Walk, top: Pending, entries: seq<Entry>, pushed: seq<Warning>, smoosh: bool, aborted: bool): Walk
    requires w.stack != []
  {
    Walk(if smoosh then w.found + [Artifact(top.path, SmooshDir)] else w.found, pushed, w.visited + 1, aborted,
         w.stack[..|w.stack| - 1], top.path, entries, top.depth)
  }

  lemma DirReadAccounts(root: Listing, w: Walk, top: Pending, over: bool, kept: seq<Entry>,
                        pushed: seq<Warning>, hasMetaSmoosh: bool)
    requires w.stack != [] && w.rest == [] && top == w.stack[|w.stack| - 1] && top.listing.Readable?
    requires Accounts(root, w) && (over <==> |top.listing.entries| > MAX_DIR_ENTRIES)
    requires var all := top.listing.entries;
      var n := if over then MAX_DIR_ENTRIES else |all|;
      && kept == Kept(all, n) && hasMetaSmoosh == HasMetaSmoosh(all[..n])
      && pushed == w.pushed + Anomalies(top.path, all, n) + if over then [TooManyEntries(top.path)] else []
    ensures var smoosh := top.depth > 0 && hasMetaSmoosh;
      && Accounts(root, DirRead(w, top, Sort(EntryLe, kept), pushed, smoosh, w.aborted || over))
      && (smoosh ==> LeavesOut(root, w.found, Artifact(top.path, SmooshDir)))
  {
    var all := top.listing.entries;
    var smoosh := top.depth > 0 && hasMetaSmoosh;
    if over {
      EnterHugeDir(root, w, top);
      assert DirRead(w, top, Sort(EntryLe, kept), pushed, smoosh, true) == AfterCut(w, top);
    } else {
      EnterDir(root, w, top);
      assert pushed == w.pushed + Anomalies(top.path, all, |all|);
      assert DirRead(w, top, Sort(EntryLe, kept), pushed, smoosh, w.aborted) == AfterReading(w, top, |all|);
    }
    if smoosh {
      EnterSmoosh(root, w, top);
    }
  }

  /** Reads one directory taken off the stack. */
  method ReadDir(top: Pending, aborted0: bool, warnings: Warnings, ghost root: Listing, ghost w: Walk)
    returns (entries: seq<Entry>, smoosh: bool, aborted: bool)
    requires warnings.Valid() && top.listing.Readable? && w.pushed == warnings.pushed && w.aborted == aborted0
    requires Accounts(root, w) && w.rest == [] && w.stack != [] && top == w.stack[|w.stack| - 1]
    modifies warnings
    ensures warnings.Valid() && forall e :: e in entries ==> Walkable(e)
    ensures Accounts(root, DirRead(w, top, entries, warnings.pushed, smoosh, aborted))
    ensures smoosh ==> LeavesOut(root, w.found, Artifact(top.path, SmooshDir))
    ensures entries == InOrder(top.listing.entries) && smoosh == IsSmoosh(top)
    ensures aborted == (aborted0 || |top.listing.entries| > MAX_DIR_ENTRIES)
  {
    var kept, hasMetaSmoosh, over := ReadEntries(top.path, top.listing.entries, warnings);
    DirReadAccounts(root, w, top, over, kept, warnings.pushed, hasMetaSmoosh);
    SortKeepsElements(kept);
    entries, smoosh, aborted := Sort(EntryLe, kept), top.depth > 0 && hasMetaSmoosh, aborted0 || over;
  }

  /** Reads one directory, collects its own artifact and handles its entries. */
  method VisitDir(top: Pending, maxSegments: Option<nat>, found0: seq<Artifact>, stack0: seq<Pending>, aborted0: bool,
                  warnings: Warnings, ghost root: Listing, ghost w: Walk)
    returns (found: seq<Artifact>, stack: seq<Pending>, aborted: bool, truncated: bool)
    requires warnings.Valid() && WithinMax(found0, maxSegments) && top.listing.Readable?
    requires Accounts(root, w) && w.rest == [] && w.stack == stack0 + [top]
    requires w.found == found0 && w.pushed == warnings.pushed && w.aborted == aborted0
    modifies warnings
    ensures warnings.Valid() && WithinMax(found, maxSegments)
    ensures forall p :: p in stack ==> p in stack0 || p.path != []
    ensures truncated ==> Finished(root, maxSegments, found, warnings.pushed, true, aborted)
    ensures !truncated ==> Accounts(root, Walk(found, warnings.pushed, w.visited + 1, aborted, stack, [], [], 0))
    ensures Progress(found, stack, aborted, truncated) ==
            Visited(top, maxSegments, Progress(found0, stack0, aborted0, false))
  {
    var entries, smoosh;
    entries, smoosh, aborted := ReadDir(top, aborted0, warnings, root, w);
    ghost var w' := DirRead(w, top, entries, warnings.pushed, smoosh, aborted);
    found, stack, truncated := found0, stack0, false;
    if smoosh {
      if AtCapacity(found, maxSegments) {
        TruncatedFinish(root, maxSegments, w', found, Artifact(top.path, SmooshDir));
        VisitedIs(top, maxSegments, Progress(found0, stack0, aborted0, false));
        truncated := true;
        return;
      }
      found := found + [Artifact(top.path, SmooshDir)];
    }
    VisitedIs(top, maxSegments, Progress(found0, stack0, aborted0, false));
    assert w'.stack == stack && w'.found == found;
    found, stack, aborted, truncated :=
      VisitEntries(top.path, top.depth, entries, maxSegments, found, stack, aborted, warnings, root, w.visited + 1);
    DirDone(root, maxSegments, Progress(found, stack, aborted, truncated), warnings.pushed, w.visited + 1, top);
  }

  /** A visit, by whether the directory is an artifact that still fits. */
  lemma VisitedIs(top: Pending, maxSegments: Option<nat>, p: Progress)
    requires top.listing.Readable?
    ensures var all := top.listing.entries;
      var p' := p.(aborted := p.aborted || |all| > MAX_DIR_ENTRIES);
      var own := [Artifact(top.path, SmooshDir)];
      Visited(top, maxSegments, p) ==
        if IsSmoosh(top) && AtCapacity(p.found, maxSegments) then p'.(truncated := true)
        else Handled(top.path, top.depth, maxSegments, InOrder(all),
                     if IsSmoosh(top) then p'.(found := p.found + own) else p')
  {
  }

  /** A directory has been handled to its end, or up to the limit on segments. */
  lemma DirDone(root: Listing, maxSegments: Option<nat>, p: Progress, pushed: seq<Warning>, visited: nat, top: Pending)
    requires HandledTo(root, p, pushed, visited, top.path, top.depth) && WithinMax(p.found, maxSegments)
    requires p.truncated ==> AtCapacity(p.found, maxSegments) && exists a :: LeavesOut(root, p.found, a)
    ensures p.truncated ==> Finished(root, maxSegments, p.found, pushed, true, p.aborted)
    ensures !p.truncated ==> Accounts(root, Walk(p.found, pushed, visited, p.aborted, p.stack, [], [], 0))
  {
    var rest :| && Accounts(root, Walk(p.found, pushed, visited, p.aborted, p.stack, top.path, rest, top.depth))
                && (!p.truncated ==> rest == []);
    var w := Walk(p.found, pushed, visited, p.aborted, p.stack, top.path, rest, top.depth);
    if p.truncated {
      var a :| LeavesOut(root, p.found, a);
      TruncatedFinish(root, maxSegments, w, p.found, a);
    } else {
      NothingLeft(root, w);
    }
  }

  lemma TruncatedFinish(root: Listing, maxSegments: Option<nat>, w: Walk, found: seq<Artifact>,
                        a: Artifact)
    requires Accounts(root, w) && found <= w.found
    requires AtCapacity(found, maxSegments) && WithinMax(found, maxSegments) && LeavesOut(root, found, a)
    ensures Finished(root, maxSegments, found, w.pushed, true, w.aborted)
  {
    SoundSoFar(root, w);
    assert w.found == found + w.found[|found|..];
  }

  lemma SoundSoFar(root: Listing, w: Walk)
    requires Accounts(root, w)
    ensures forall a :: multiset(w.found)[a] <= TreeCount(Of(a), root)
  {
    forall a ensures multiset(w.found)[a] <= TreeCount(Of(a), root) {
      assert Balanced(Of(a), root, w);
    }
  }

  lemma NothingLeft(root: Listing, w: Walk)
    requires Accounts(root, w) && w.rest == []
    ensures Accounts(root, w.(path := [], depth := 0))
  {
    forall q ensures Balanced(q, root, w.(path := [], depth := 0)) {
      assert Balanced(q, root, w);
    }
  }

  lemma SortKeepsElements(entries: seq<Entry>)
    requires forall e :: e in entries ==> Walkable(e)
    ensures forall e :: e in Sort(EntryLe, entries) ==> Walkable(e)
  {
    StringOrder();
    SortSorts(EntryLe, entries);
    forall e | e in Sort(EntryLe, entries) ensures Walkable(e) {
      assert e in multiset(entries);
    }
  }

  predicate ArtifactLe(a: Artifact, b: Artifact) { PathLe(a.path, b.path) }

  /** What a scan of a tree may report. */
  ghost predicate Outcome(root: Listing, maxSegments: Option<nat>, r: ScanResult) {
    && Sorted(ArtifactLe, r.found)
    && (forall a :: multiset(r.found)[a] <= TreeCount(Of(a), root))
    && WithinMax(r.found, maxSegments)
    && (r.truncated ==> AtCapacity(r.found, maxSegments) && exists a :: LeavesOut(root, r.found, a))
    && (r.aborted ==> OverLimits(root) && r.warnings != [])
    && (!r.truncated && !r.aborted ==>
          !OverLimits(root) && exists pushed :: r.warnings == Report(pushed) && Complete(root, r.found, pushed))
  }

  lemma StartOfWalk(root: Listing)
    ensures Accounts(root, Walk([], [], 0, false, [Pending([], root, 0)], [], [], 0))
  {
    var w := Walk([], [], 0, false, [Pending([], root, 0)], [], [], 0);
    forall q ensures Balanced(q, root, w) {
      assert w.stack == [] + [Pending([], root, 0)];
      StackPush(q, [], Pending([], root, 0));
    }
  }

  lemma WalkProgress(root: Listing, w: Walk)
    requires Accounts(root, w) && w.stack != []
    ensures w.visited < TreeCount(Directories, root)
  {
    assert Balanced(Directories, root, w);
    StackHoldsDirectories(w.stack);
  }

  lemma EndOfWalk(root: Listing, w: Walk)
    requires Accounts(root, w) && w.stack == [] && w.rest == [] && !w.aborted && w.visited <= MAX_SCAN_DIRS
    ensures Complete(root, w.found, w.pushed) && !OverLimits(root)
  {
    assert Balanced(Artifacts, root, w) && Balanced(Cuts, root, w) && Balanced(Directories, root, w);
    forall a ensures multiset(w.found)[a] == TreeCount(Of(a), root) { assert Balanced(Of(a), root, w); }
    forall x ensures multiset(w.pushed)[x] == TreeCount(Warned(x), root) { assert Balanced(Warned(x), root, w); }
  }

  lemma OutOfVisits(root: Listing, maxSegments: Option<nat>, w: Walk)
    requires Accounts(root, w) && w.stack != [] && w.visited >= MAX_SCAN_DIRS && WithinMax(w.found, maxSegments)
    ensures Finished(root, maxSegments, w.found, w.pushed + [VisitCap], false, true)
  {
    WalkProgress(root, w);
    SoundSoFar(root, w);
  }

  lemma OutOfDirectories(root: Listing, maxSegments: Option<nat>, w: Walk)
    requires Accounts(root, w) && w.stack == [] && w.rest == [] && w.visited <= MAX_SCAN_DIRS
    requires WithinMax(w.found, maxSegments)
    ensures Finished(root, maxSegments, w.found, w.pushed, false, w.aborted)
  {
    SoundSoFar(root, w);
    if !w.aborted {
      EndOfWalk(root, w);
    }
  }

  /** What was collected and how the walk ended are those of the walk as a function. */
  predicate EndsAs(root: Listing, maxSegments: Option<nat>, found: seq<Artifact>, truncated: bool, aborted: bool) {
    var p := Walked(root, maxSegments);
    p.found == found && p.truncated == truncated && p.aborted == aborted
  }

  /** The walk as a function ends, from here, as it ends from the start. */
  ghost predicate Underway(root: Listing, maxSegments: Option<nat>, p: Progress, visits: nat) {
    Drained(maxSegments, p, visits) == Walked(root, maxSegments)
  }

  lemma DrainOnce(root: Listing, maxSegments: Option<nat>, p: Progress, visits: nat)
    requires Underway(root, maxSegments, p, visits) && !p.truncated && visits <= MAX_SCAN_DIRS
    ensures p.stack == [] ==> EndsAs(root, maxSegments, p.found, false, p.aborted)
    ensures p.stack != [] && visits == MAX_SCAN_DIRS ==> EndsAs(root, maxSegments, p.found, false, true)
    ensures p.stack != [] && visits < MAX_SCAN_DIRS ==>
      var p' := Stepped(maxSegments, p);
      && Underway(root, maxSegments, p', visits + 1)
      && (p'.truncated ==> EndsAs(root, maxSegments, p'.found, true, p'.aborted))
  {
    if p.stack != [] && visits < MAX_SCAN_DIRS {
      var p' := Stepped(maxSegments, p);
      assert Drained(maxSegments, p, visits) == Drained(maxSegments, p', visits + 1);
    }
  }

  /** Everything the loop knows between two directories. */
  ghost predicate Midway(root: Listing, maxSegments: Option<nat>, p: Progress, pushed: seq<Warning>, visits: nat) {
    && !p.truncated && visits <= MAX_SCAN_DIRS && WithinMax(p.found, maxSegments) && OneRoot(root, p.stack)
    && Accounts(root, Walk(p.found, pushed, visits, p.aborted, p.stack, [], [], 0))
    && (root.Unreadable? ==> visits == 0 && p.stack == [Pending([], root, 0)])
    && Underway(root, maxSegments, p, visits)
  }

  lemma MidwayStart(root: Listing, maxSegments: Option<nat>)
    ensures Midway(root, maxSegments, Progress([], [Pending([], root, 0)], false, false), [], 0)
  {
    StartOfWalk(root);
  }

  lemma MidwayStep(root: Listing, maxSegments: Option<nat>, p: Progress, pushed: seq<Warning>, visits: nat,
                   p': Progress, pushed': seq<Warning>)
    requires Midway(root, maxSegments, p, pushed, visits) && p.stack != [] && visits < MAX_SCAN_DIRS
    requires p' == Stepped(maxSegments, p) && OneRoot(root, p'.stack) && WithinMax(p'.found, maxSegments)
    requires p.stack[|p.stack| - 1].path != [] || p.stack[|p.stack| - 1].listing.Readable?
    requires !p'.truncated ==>
      Accounts(root, Walk(p'.found, pushed', visits + 1, p'.aborted, p'.stack, [], [], 0))
    ensures root.Readable?
    ensures if p'.truncated then EndsAs(root, maxSegments, p'.found, true, p'.aborted)
            else Midway(root, maxSegments, p', pushed', visits + 1)
  {
    DrainOnce(root, maxSegments, p, visits);
  }

  lemma MidwayVisited(root: Listing, maxSegments: Option<nat>, p: Progress, pushed: seq<Warning>, visits: nat,
                      below: seq<Pending>, top: Pending, p': Progress, pushed': seq<Warning>)
    requires Midway(root, maxSegments, p, pushed, visits) && visits < MAX_SCAN_DIRS
    requires p.stack == below + [top] && top.listing.Readable?
    requires p' == Visited(top, maxSegments, Progress(p.found, below, p.aborted, false))
    requires (forall q :: q in p'.stack ==> q in below || q.path != []) && WithinMax(p'.found, maxSegments)
    requires !p'.truncated ==>
      Accounts(root, Walk(p'.found, pushed', visits + 1, p'.aborted, p'.stack, [], [], 0))
    ensures root.Readable?
    ensures if p'.truncated then EndsAs(root, maxSegments, p'.found, true, p'.aborted)
            else Midway(root, maxSegments, p', pushed', visits + 1)
  {
    assert p.stack[..|p.stack| - 1] == below && p.stack[|p.stack| - 1] == top;
    assert Popped(p) == Progress(p.found, below, p.aborted, false);
    MidwayStep(root, maxSegments, p, pushed, visits, p', pushed');
  }

  lemma MidwayUnreadable(root: Listing, maxSegments: Option<nat>, p: Progress, pushed: seq<Warning>, visits: nat)
    requires Midway(root, maxSegments, p, pushed, visits) && p.stack != [] && visits < MAX_SCAN_DIRS
    requires p.stack[|p.stack| - 1].path != [] && p.stack[|p.stack| - 1].listing.Unreadable?
    ensures root.Readable?
    ensures Midway(root, maxSegments, Popped(p), pushed + [UnreadableDir(p.stack[|p.stack| - 1].path)], visits + 1)
  {
    var top := p.stack[|p.stack| - 1];
    PopUnreadable(root, Walk(p.found, pushed, visits, p.aborted, p.stack, [], [], 0), top);
    MidwayStep(root, maxSegments, p, pushed, visits, Popped(p), pushed + [UnreadableDir(top.path)]);
  }

  lemma MidwayEnd(root: Listing, maxSegments: Option<nat>, p: Progress, pushed: seq<Warning>, visits: nat)
    requires Midway(root, maxSegments, p, pushed, visits) && (p.stack == [] || visits == MAX_SCAN_DIRS)
    ensures root.Readable?
    ensures p.stack == [] ==> EndsAs(root, maxSegments, p.found, false, p.aborted)
                              && Finished(root, maxSegments, p.found, pushed, false, p.aborted)
    ensures p.stack != [] ==> EndsAs(root, maxSegments, p.found, false, true)
                              && Finished(root, maxSegments, p.found, pushed + [VisitCap], false, true)
  {
    var w := Walk(p.found, pushed, visits, p.aborted, p.stack, [], [], 0);
    DrainOnce(root, maxSegments, p, visits);
    if p.stack == [] {
      OutOfDirectories(root, maxSegments, w);
    } else {
      OutOfVisits(root, maxSegments, w);
    }
  }

  lemma MidwayProgress(root: Listing, maxSegments: Option<nat>, p: Progress, pushed: seq<Warning>, visits: nat)
    requires Midway(root, maxSegments, p, pushed, visits) && p.stack != []
    ensures visits < TreeCount(Directories, root)
  {
    WalkProgress(root, Walk(p.found, pushed, visits, p.aborted, p.stack, [], [], 0));
  }

  /** Takes the top directory off the stack and visits it, or warns that it cannot be read. */
  method VisitTop(root: Listing, maxSegments: Option<nat>, found0: seq<Artifact>, stack0: seq<Pending>, aborted0: bool,
                  warnings: Warnings, ghost visits: nat)
    returns (rootRead: bool, found: seq<Artifact>, stack: seq<Pending>, aborted: bool, truncated: bool)
    requires warnings.Valid() && stack0 != [] && visits < MAX_SCAN_DIRS
    requires Midway(root, maxSegments, Progress(found0, stack0, aborted0, false), warnings.pushed, visits)
    modifies warnings
    ensures warnings.Valid() && (rootRead <==> root.Readable?)
    ensures rootRead && !truncated ==>
      Midway(root, maxSegments, Progress(found, stack, aborted, false), warnings.pushed, visits + 1)
    ensures rootRead && truncated ==>
      && Finished(root, maxSegments, found, warnings.pushed, true, aborted)
      && EndsAs(root, maxSegments, found, true, aborted)
  {
    var top, below := stack0[|stack0| - 1], stack0[..|stack0| - 1];
    assert stack0 == below + [top];
    if top.listing.Readable? {
      found, stack, aborted, truncated :=
        VisitReadable(root, maxSegments, found0, below, top, aborted0, warnings, visits);
      return true, found, stack, aborted, truncated;
    }
    rootRead, found, stack, aborted, truncated := top.path != [], found0, below, aborted0, false;
    if rootRead {
      MidwayUnreadable(root, maxSegments, Progress(found0, stack0, aborted0, false), warnings.pushed, visits);
      warnings.Push(UnreadableDir(top.path));
    }
  }

  method VisitReadable(root: Listing, maxSegments: Option<nat>, found0: seq<Artifact>, below: seq<Pending>,
                       top: Pending, aborted0: bool, warnings: Warnings, ghost visits: nat)
    returns (found: seq<Artifact>, stack: seq<Pending>, aborted: bool, truncated: bool)
    requires warnings.Valid() && visits < MAX_SCAN_DIRS && top.listing.Readable?
    requires Midway(root, maxSegments, Progress(found0, below + [top], aborted0, false), warnings.pushed, visits)
    modifies warnings
    ensures warnings.Valid() && root.Readable?
    ensures !truncated ==>
      Midway(root, maxSegments, Progress(found, stack, aborted, false), warnings.pushed, visits + 1)
    ensures truncated ==>
      && Finished(root, maxSegments, found, warnings.pushed, true, aborted)
      && EndsAs(root, maxSegments, found, true, aborted)
  {
    ghost var p, pushed := Progress(found0, below + [top], aborted0, false), warnings.pushed;
    ghost var w := Walk(found0, pushed, visits, aborted0, below + [top], [], [], 0);
    found, stack, aborted, truncated := VisitDir(top, maxSegments, found0, below, aborted0, warnings, root, w);
    MidwayVisited(root, maxSegments, p, pushed, visits, below, top, Progress(found, stack, aborted, truncated),
                  warnings.pushed);
  }

  method DrainStack(root: Listing, maxSegments: Option<nat>, warnings: Warnings)
    returns (rootRead: bool, found: seq<Artifact>, truncated: bool, aborted: bool)
    requires warnings.Valid() && warnings.pushed == []
    modifies warnings
    ensures warnings.Valid()
    ensures rootRead <==> root.Readable?
    ensures rootRead ==> Finished(root, maxSegments, found, warnings.pushed, truncated, aborted)
    ensures rootRead ==> EndsAs(root, maxSegments, found, truncated, aborted)
  {
    rootRead, found, truncated, aborted := true, [], false, false;
    var dirsVisited := 0;
    var stack := [Pending([], root, 0)];
    MidwayStart(root, maxSegments);
    while stack != []
      invariant warnings.Valid() && !truncated && rootRead
      invariant Midway(root, maxSegments, Progress(found, stack, aborted, false), warnings.pushed, dirsVisited)
      decreases TreeCount(Directories, root) - dirsVisited
    {
      MidwayProgress(root, maxSegments, Progress(found, stack, aborted, false), warnings.pushed, dirsVisited);
      if dirsVisited + 1 > MAX_SCAN_DIRS {
        MidwayEnd(root, maxSegments, Progress(found, stack, aborted, false), warnings.pushed, dirsVisited);
        warnings.Push(VisitCap);
        aborted := true;
        return;
      }
      rootRead, found, stack, aborted, truncated :=
        VisitTop(root, maxSegments, found, stack, aborted, warnings, dirsVisited);
      if !rootRead || truncated {
        return;
      }
      dirsVisited := dirsVisited + 1;
    }
    MidwayEnd(root, maxSegments, Progress(found, stack, aborted, false), warnings.pushed, dirsVisited);
  }

  lemma SortedOutcome(root: Listing, maxSegments: Option<nat>, found: seq<Artifact>,
                      pushed: seq<Warning>, truncated: bool, aborted: bool)
    requires Finished(root, maxSegments, found, pushed, truncated, aborted)
    ensures Outcome(root, maxSegments, ScanResult(Sort(ArtifactLe, found), truncated, Report(pushed), aborted))
  {
    var sorted := Sort(ArtifactLe, found);
    PathOrder();
    SortSorts(ArtifactLe, found);
    if truncated {
      var a :| LeavesOut(root, found, a);
      assert LeavesOut(root, sorted, a);
    }
    assert Complete(root, found, pushed) ==> Complete(root, sorted, pushed);
  }

  /** The scan fails exactly when the root cannot be read, and otherwise ends with an outcome as stated. */
  method ScanTree(root: Listing, maxSegments: Option<nat>) returns (r: Result<ScanResult, ScanError>)
    ensures r.Err? <==> root.Unreadable?
    ensures r.Ok? ==> Outcome(root, maxSegments, r.value)
    ensures r.Ok? ==>
      var p := Walked(root, maxSegments);
      r.value.found == Sort(ArtifactLe, p.found) && r.value.truncated == p.truncated && r.value.aborted == p.aborted
  {
    var warnings := new Warnings();
    var rootRead, found, truncated, aborted := DrainStack(root, maxSegments, warnings);
    if !rootRead {
      return Err(RootUnreadable);
    }
    SortedOutcome(root, maxSegments, found, warnings.pushed, truncated, aborted);
    var report := warnings.IntoVec();
    r := Ok(ScanResult(Sort(ArtifactLe, found), truncated, report, aborted));
  }

  // ----- What a result means ----------------------------------------------------------------

  /** A result that is neither truncated nor aborted holds exactly the artifacts that can be reached,
      each once and in path order. */
  lemma CompleteScanIsExact(root: Listing, maxSegments: Option<nat>, r: ScanResult)
    requires root.Readable? && DistinctNames(root) && Outcome(root, maxSegments, r)
    requires !r.truncated && !r.aborted
    ensures forall path, kind :: Artifact(path, kind) in r.found <==> Reaches(root.entries, path, kind)
    ensures Distinct(r.found) && Sorted(ArtifactLe, r.found)
  {
    var pushed :| r.warnings == Report(pushed) && Complete(root, r.found, pushed);
    forall path, kind ensures Artifact(path, kind) in r.found <==> Reaches(root.entries, path, kind) {
      ReachedFromRoot(root, path, kind);
      assert Artifact(path, kind) in r.found <==> Artifact(path, kind) in multiset(r.found);
    }
    forall i, j | 0 <= i < j < |r.found| ensures r.found[i] != r.found[j] {
      DirCountsOnce([], root, 0, r.found[i]);
      OnceIsDistinct(r.found, i, j);
    }
  }

  lemma ReachedFromRoot(root: Listing, path: Path, kind: ArtifactKind)
    requires root.Readable?
    ensures TreeCount(Of(Artifact(path, kind)), root) > 0 <==> Reaches(root.entries, path, kind)
  {
    assert [] + path == path;
    DirCountedIffReached([], root, 0, path, kind);
  }

  lemma OnceIsDistinct(found: seq<Artifact>, i: nat, j: nat)
    requires i < j < |found| && multiset(found)[found[i]] <= 1
    ensures found[i] != found[j]
  {
    assert found == found[..j] + [found[j]] + found[j + 1..];
    assert found[..j][i] == found[i];
    assert found[i] in multiset(found[..j]);
  }

  /** A truncated result holds exactly as many artifacts as were asked for, all of them reachable,
      and at least one that can be reached is missing. */
  lemma TruncatedScanLeavesOneOut(root: Listing, maxSegments: Option<nat>, r: ScanResult)
    requires root.Readable? && DistinctNames(root) && Outcome(root, maxSegments, r) && r.truncated
    ensures maxSegments == Some(|r.found|)
    ensures forall a :: a in r.found ==> Reaches(root.entries, a.path, a.kind)
    ensures exists path, kind :: Reaches(root.entries, path, kind) && Artifact(path, kind) !in r.found
  {
    FoundIsReached(root, maxSegments, r);
    var a :| LeavesOut(root, r.found, a);
    MissingArtifact(root, r.found, a);
    assert Reaches(root.entries, a.path, a.kind) && Artifact(a.path, a.kind) !in r.found;
  }

  /** Nothing is ever reported that cannot be reached. */
  lemma FoundIsReached(root: Listing, maxSegments: Option<nat>, r: ScanResult)
    requires root.Readable? && Outcome(root, maxSegments, r)
    ensures forall a :: a in r.found ==> Reaches(root.entries, a.path, a.kind)
  {
    forall a | a in r.found ensures Reaches(root.entries, a.path, a.kind) {
      ReachedFromRoot(root, a.path, a.kind);
      assert a in multiset(r.found);
    }
  }

  lemma MissingArtifact(root: Listing, found: seq<Artifact>, a: Artifact)
    requires root.Readable? && DistinctNames(root) && LeavesOut(root, found, a)
    ensures Reaches(root.entries, a.path, a.kind) && a !in found
  {
    DirCountsOnce([], root, 0, a);
    ReachedFromRoot(root, a.path, a.kind);
    assert a !in multiset(found);
  }

  /** A scan that runs to its end is aborted exactly when the tree exceeds a limit of the walk; a tree
      within the limits is never aborted, and truncated exactly when it holds more than was asked for. */
  lemma FlagsAreExact(root: Listing, maxSegments: Option<nat>, r: ScanResult)
    requires Outcome(root, maxSegments, r)
    ensures !r.truncated ==> (r.aborted <==> OverLimits(root))
    ensures !OverLimits(root) ==>
      !r.aborted && (r.truncated <==> maxSegments.Some? && TreeCount(Artifacts, root) > maxSegments.value)
  {
  }

  /** A result without flags or warnings is complete, and the tree held nothing to warn of. */
  lemma SilentScanIsComplete(root: Listing, maxSegments: Option<nat>, r: ScanResult)
    requires Outcome(root, maxSegments, r) && !r.truncated && r.warnings == []
    ensures !r.aborted
    ensures forall a :: multiset(r.found)[a] == TreeCount(Of(a), root)
    ensures forall w :: TreeCount(Warned(w), root) == 0
  {
    var pushed :| r.warnings == Report(pushed) && Complete(root, r.found, pushed);
    assert pushed == [];
    forall w ensures TreeCount(Warned(w), root) == 0 {
      assert multiset(pushed)[w] == 0;
    }
  }
}
