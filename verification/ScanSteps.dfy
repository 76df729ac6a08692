/** The walk of the scan as a function of the tree, and why the order of listings does not matter to it. */
module ScanSteps {

  import opened Common
  import opened Paths
  import opened Scan

  datatype Pending = Pending(path: Path, listing: Listing, depth: nat)

  /** What the walk has collected and what it still has to visit. */
  datatype Progress = Progress(found: seq<Artifact>, stack: seq<Pending>, aborted: bool, truncated: bool)

  predicate AtCapacity(found: seq<Artifact>, maxSegments: Option<nat>) {
    maxSegments.Some? && |found| >= maxSegments.value
  }

  function HandledEntry(path: Path, depth: nat, maxSegments: Option<nat>, e: Entry, p: Progress): Progress {
    var at := path + [e.name];
    if e.kind.SubDir? then
      if depth >= MAX_SCAN_DEPTH || |p.stack| >= MAX_SCAN_DIRS then p.(aborted := true)
      else p.(stack := p.stack + [Pending(at, e.kind.listing, depth + 1)])
    else if e.name == "index.zip" then
      if AtCapacity(p.found, maxSegments) then p.(truncated := true)
      else p.(found := p.found + [Artifact(at, IndexZip)])
    else p
  }

  function Handled(path: Path, depth: nat, maxSegments: Option<nat>, entries: seq<Entry>, p: Progress): Progress
    decreases |entries|
  {
    if entries == [] || p.truncated then p
    else Handled(path, depth, maxSegments, entries[1..], HandledEntry(path, depth, maxSegments, entries[0], p))
  }

  /** How many of a directory's entries are read. */
  function ReadLimit(all: seq<Entry>): (n: nat)
    ensures n <= |all|
  {
    if |all| > MAX_DIR_ENTRIES then MAX_DIR_ENTRIES else |all|
  }

  function InOrder(all: seq<Entry>): seq<Entry> { Sort(EntryLe, Kept(all, ReadLimit(all))) }

  predicate IsSmoosh(top: Pending)
    requires top.listing.Readable?
  {
    top.depth > 0 && HasMetaSmoosh(top.listing.entries[..ReadLimit(top.listing.entries)])
  }

  /** One readable directory: its own artifact first, then its entries. */
  function Visited(top: Pending, maxSegments: Option<nat>, p: Progress): Progress
    requires top.listing.Readable?
  {
    var all := top.listing.entries;
    var p' := p.(aborted := p.aborted || |all| > MAX_DIR_ENTRIES);
    if !IsSmoosh(top) then Handled(top.path, top.depth, maxSegments, InOrder(all), p')
    else if AtCapacity(p.found, maxSegments) then p'.(truncated := true)
    else
      Handled(top.path, top.depth, maxSegments, InOrder(all), p'.(found := p.found + [Artifact(top.path, SmooshDir)]))
  }

  function Popped(p: Progress): Progress
    requires p.stack != []
  {
    p.(stack := p.stack[..|p.stack| - 1])
  }

  /** The directory on top of the stack. */
  function Stepped(maxSegments: Option<nat>, p: Progress): Progress
    requires p.stack != []
  {
    var top := p.stack[|p.stack| - 1];
    if top.listing.Unreadable? then Popped(p) else Visited(top, maxSegments, Popped(p))
  }

  function Drained(maxSegments: Option<nat>, p: Progress, visits: nat): Progress
    decreases MAX_SCAN_DIRS - visits
  {
    if p.stack == [] || p.truncated then p
    else if visits >= MAX_SCAN_DIRS then p.(aborted := true)
    else Drained(maxSegments, Stepped(maxSegments, p), visits + 1)
  }

  function Start(root: Listing): Progress { Progress([], [Pending([], root, 0)], false, false) }

  /** The end of the walk over a tree. */
  function Walked(root: Listing, maxSegments: Option<nat>): Progress { Drained(maxSegments, Start(root), 0) }

  // ----- Depth first ------------------------------------------------------------------------

  /** The artifacts below a directory: its own, the zips it lists in order, and then what is below its
      subdirectories, the last one first. */
  function DepthFirst(path: Path, listing: Listing, depth: nat): seq<Artifact>
    decreases MAX_SCAN_DEPTH + 1 - depth, 1, 0
  {
    if listing.Unreadable? then []
    else
      var all := listing.entries;
      Own(path, all, depth) + Zips(path, InOrder(all)) + Below(path, InOrder(all), depth)
  }

  function Own(path: Path, all: seq<Entry>, depth: nat): seq<Artifact> {
    if depth > 0 && HasMetaSmoosh(all[..ReadLimit(all)]) then [Artifact(path, SmooshDir)] else []
  }

  function Zips(path: Path, es: seq<Entry>): seq<Artifact> {
    if es == [] then []
    else if !es[0].kind.SubDir? && es[0].name == "index.zip"
    then [Artifact(path + [es[0].name], IndexZip)] + Zips(path, es[1..])
    else Zips(path, es[1..])
  }

  function Below(path: Path, es: seq<Entry>, depth: nat): seq<Artifact>
    decreases MAX_SCAN_DEPTH + 1 - depth, 0, |es|
  {
    if es == [] || depth >= MAX_SCAN_DEPTH then []
    else if es[0].kind.SubDir?
    then Below(path, es[1..], depth) + DepthFirst(path + [es[0].name], es[0].kind.listing, depth + 1)
    else Below(path, es[1..], depth)
  }

  /** What is below the pending directories, the top of the stack first. */
  function ToCome(stack: seq<Pending>): seq<Artifact> {
    if stack == [] then []
    else
      var top := stack[|stack| - 1];
      DepthFirst(top.path, top.listing, top.depth) + ToCome(stack[..|stack| - 1])
  }

  lemma ToComeOnTop(stack: seq<Pending>, top: Pending)
    ensures ToCome(stack + [top]) == DepthFirst(top.path, top.listing, top.depth) + ToCome(stack)
  {
    assert (stack + [top])[..|stack|] == stack;
  }

  lemma {:induction false} AbortedStays(path: Path, depth: nat, maxSegments: Option<nat>, es: seq<Entry>, p: Progress)
    requires p.aborted
    ensures Handled(path, depth, maxSegments, es, p).aborted
    decreases |es|
  {
    if es != [] && !p.truncated {
      AbortedStays(path, depth, maxSegments, es[1..], HandledEntry(path, depth, maxSegments, es[0], p));
    }
  }

  /** Cut short at the capacity: a proper prefix of what there is. */
  ghost predicate CutShort(found: seq<Artifact>, all: seq<Artifact>, maxSegments: Option<nat>) {
    AtCapacity(found, maxSegments) && |found| < |all| && found == all[..|found|]
  }

  /** Handling the entries of a directory collects its zips, and leaves its subdirectories on top. */
  lemma {:induction false} HandledCollects(path: Path, depth: nat, maxSegments: Option<nat>, es: seq<Entry>,
                                           p: Progress)
    requires !p.truncated && !Handled(path, depth, maxSegments, es, p).aborted
    ensures var r := Handled(path, depth, maxSegments, es, p);
      if r.truncated then CutShort(r.found, p.found + Zips(path, es), maxSegments)
      else r.found == p.found + Zips(path, es) && ToCome(r.stack) == Below(path, es, depth) + ToCome(p.stack)
    decreases |es|
  {
    if es != [] {
      var p' := HandledEntry(path, depth, maxSegments, es[0], p);
      if p'.aborted {
        AbortedStays(path, depth, maxSegments, es[1..], p');
      }
      if p'.truncated {
        assert p.found == (p.found + Zips(path, es))[..|p.found|];
      } else {
        HandledCollects(path, depth, maxSegments, es[1..], p');
        EntryCollects(path, depth, maxSegments, es, p);
      }
    }
  }

  lemma EntryCollects(path: Path, depth: nat, maxSegments: Option<nat>, es: seq<Entry>, p: Progress)
    requires es != [] && !p.truncated
    requires var p' := HandledEntry(path, depth, maxSegments, es[0], p); !p'.aborted && !p'.truncated
    ensures var p' := HandledEntry(path, depth, maxSegments, es[0], p);
      && p'.found + Zips(path, es[1..]) == p.found + Zips(path, es)
      && Below(path, es[1..], depth) + ToCome(p'.stack) == Below(path, es, depth) + ToCome(p.stack)
  {
    if es[0].kind.SubDir? {
      DirCollects(path, depth, maxSegments, es, p);
    } else if es[0].name == "index.zip" {
      assert p.found + ([Artifact(path + [es[0].name], IndexZip)] + Zips(path, es[1..])) ==
             p.found + [Artifact(path + [es[0].name], IndexZip)] + Zips(path, es[1..]);
    }
  }

  lemma DirCollects(path: Path, depth: nat, maxSegments: Option<nat>, es: seq<Entry>, p: Progress)
    requires es != [] && es[0].kind.SubDir? && !HandledEntry(path, depth, maxSegments, es[0], p).aborted
    ensures Below(path, es[1..], depth) + ToCome(HandledEntry(path, depth, maxSegments, es[0], p).stack) ==
            Below(path, es, depth) + ToCome(p.stack)
  {
    var at, rest := path + [es[0].name], Below(path, es[1..], depth);
    var here := DepthFirst(at, es[0].kind.listing, depth + 1);
    ToComeOnTop(p.stack, Pending(at, es[0].kind.listing, depth + 1));
    assert rest + (here + ToCome(p.stack)) == (rest + here) + ToCome(p.stack);
  }

  lemma CutLonger(found: seq<Artifact>, xs: seq<Artifact>, ys: seq<Artifact>, maxSegments: Option<nat>)
    requires CutShort(found, xs, maxSegments)
    ensures CutShort(found, xs + ys, maxSegments)
  {
    assert (xs + ys)[..|found|] == xs[..|found|];
  }

  /** One directory moves what is below it from what is to come to what is found. */
  lemma {:induction false} SteppedCollects(maxSegments: Option<nat>, p: Progress)
    requires p.stack != [] && !p.truncated && !Stepped(maxSegments, p).aborted
    ensures var r := Stepped(maxSegments, p);
      if r.truncated then CutShort(r.found, p.found + ToCome(p.stack), maxSegments)
      else r.found + ToCome(r.stack) == p.found + ToCome(p.stack)
  {
    var top, p' := p.stack[|p.stack| - 1], Popped(p);
    var here := DepthFirst(top.path, top.listing, top.depth);
    assert p.found + (here + ToCome(p'.stack)) == p.found + here + ToCome(p'.stack);
    if top.listing.Readable? {
      VisitedCollects(top, maxSegments, p');
      if Visited(top, maxSegments, p').truncated {
        CutLonger(Visited(top, maxSegments, p').found, p.found + here, ToCome(p'.stack), maxSegments);
      }
    }
  }

  lemma {:induction false} VisitedCollects(top: Pending, maxSegments: Option<nat>, p: Progress)
    requires top.listing.Readable? && !p.truncated && !Visited(top, maxSegments, p).aborted
    ensures var r, here := Visited(top, maxSegments, p), DepthFirst(top.path, top.listing, top.depth);
      if r.truncated then CutShort(r.found, p.found + here, maxSegments)
      else r.found + ToCome(r.stack) == p.found + here + ToCome(p.stack)
  {
    var all := top.listing.entries;
    if |all| > MAX_DIR_ENTRIES {
      LongListingsAbort(top, maxSegments, p);
    } else if Own(top.path, all, top.depth) != [] && AtCapacity(p.found, maxSegments) {
      assert p.found + DepthFirst(top.path, top.listing, top.depth) != p.found;
    } else {
      EntriesCollect(top, maxSegments, p);
    }
  }

  lemma {:induction false} EntriesCollect(top: Pending, maxSegments: Option<nat>, p: Progress)
    requires top.listing.Readable? && |top.listing.entries| <= MAX_DIR_ENTRIES && !p.truncated
    requires Own(top.path, top.listing.entries, top.depth) == [] || !AtCapacity(p.found, maxSegments)
    requires !Visited(top, maxSegments, p).aborted
    ensures var r, here := Visited(top, maxSegments, p), DepthFirst(top.path, top.listing, top.depth);
      if r.truncated then CutShort(r.found, p.found + here, maxSegments)
      else r.found + ToCome(r.stack) == p.found + here + ToCome(p.stack)
  {
    var all := top.listing.entries;
    var es, own := InOrder(all), Own(top.path, all, top.depth);
    var zips, below := Zips(top.path, es), Below(top.path, es, top.depth);
    var q := p.(found := p.found + own);
    assert own == [] ==> q == p;
    var r := Handled(top.path, top.depth, maxSegments, es, q);
    assert r == Visited(top, maxSegments, p);
    HandledCollects(top.path, top.depth, maxSegments, es, q);
    Regroup(p.found, own, zips, below, ToCome(p.stack));
    if r.truncated {
      CutLonger(r.found, q.found + zips, below, maxSegments);
    }
  }

  lemma Regroup(a: seq<Artifact>, b: seq<Artifact>, c: seq<Artifact>, d: seq<Artifact>, e: seq<Artifact>)
    ensures a + (b + c + d) == (a + b) + c + d
    ensures (a + b) + c + (d + e) == a + (b + c + d) + e
  {
  }

  lemma LongListingsAbort(top: Pending, maxSegments: Option<nat>, p: Progress)
    requires top.listing.Readable? && |top.listing.entries| > MAX_DIR_ENTRIES
    ensures Visited(top, maxSegments, p).aborted
  {
    var es, p' := InOrder(top.listing.entries), p.(aborted := true);
    AbortedStays(top.path, top.depth, maxSegments, es, p');
    AbortedStays(top.path, top.depth, maxSegments, es,
                 p'.(found := p.found + [Artifact(top.path, SmooshDir)]));
  }

  lemma {:induction false} AbortedDrains(maxSegments: Option<nat>, p: Progress, visits: nat)
    requires p.aborted
    ensures Drained(maxSegments, p, visits).aborted
    decreases MAX_SCAN_DIRS - visits
  {
    if p.stack != [] && !p.truncated && visits < MAX_SCAN_DIRS {
      StepStaysAborted(maxSegments, p);
      AbortedDrains(maxSegments, Stepped(maxSegments, p), visits + 1);
    }
  }

  lemma StepStaysAborted(maxSegments: Option<nat>, p: Progress)
    requires p.aborted && p.stack != []
    ensures Stepped(maxSegments, p).aborted
  {
    var top := p.stack[|p.stack| - 1];
    if top.listing.Readable? {
      var es, p' := InOrder(top.listing.entries), Popped(p);
      AbortedStays(top.path, top.depth, maxSegments, es, p');
      AbortedStays(top.path, top.depth, maxSegments, es,
                   p'.(found := p.found + [Artifact(top.path, SmooshDir)]));
    }
  }

  /** What the walk ends with when it is not aborted: all there is, or as much of it as was asked for. */
  lemma {:induction false} DrainedCollects(maxSegments: Option<nat>, p: Progress, visits: nat)
    requires !p.truncated && !Drained(maxSegments, p, visits).aborted
    ensures var r, all := Drained(maxSegments, p, visits), p.found + ToCome(p.stack);
      if r.truncated then CutShort(r.found, all, maxSegments) else r.found == all
    decreases MAX_SCAN_DIRS - visits
  {
    if p.stack != [] && visits < MAX_SCAN_DIRS {
      var p' := Stepped(maxSegments, p);
      if p'.aborted {
        AbortedDrains(maxSegments, p', visits + 1);
      }
      SteppedCollects(maxSegments, p);
      if !p'.truncated {
        DrainedCollects(maxSegments, p', visits + 1);
      }
    }
  }

  /** A walk that is not aborted finds the artifacts depth first: all of them when it is not truncated,
      and otherwise the first ones. */
  lemma WalkIsDepthFirst(root: Listing, maxSegments: Option<nat>)
    requires !Walked(root, maxSegments).aborted
    ensures var p, all := Walked(root, maxSegments), DepthFirst([], root, 0);
      if p.truncated then CutShort(p.found, all, maxSegments) else p.found == all
  {
    DrainedCollects(maxSegments, Start(root), 0);
    ToComeOnTop([], Pending([], root, 0));
    assert [] + [Pending([], root, 0)] == [Pending([], root, 0)];
    assert [] + ToCome(Start(root).stack) == DepthFirst([], root, 0) + ToCome([]);
  }

  // ----- The order of listings ----------------------------------------------------------------

  /** The same files and directories in each directory, in any order and whatever else is listed, and no
      directory listing over the limit. */
  ghost predicate Alike(a: Listing, b: Listing)
    decreases a
  {
    match (a, b)
    case (Unreadable, Unreadable) => true
    case (Readable(es), Readable(fs)) =>
      && |es| <= MAX_DIR_ENTRIES && |fs| <= MAX_DIR_ENTRIES
      && (forall i :: 0 <= i < |es| && Walkable(es[i]) ==> LeftMatched(es[i], fs))
      && (forall j :: 0 <= j < |fs| && Walkable(fs[j]) ==> RightMatched(es, fs[j]))
    case _ => false
  }

  ghost predicate LeftMatched(e: Entry, fs: seq<Entry>)
    decreases e, 1
  {
    exists f :: f in fs && AlikeEntry(e, f)
  }

  ghost predicate RightMatched(es: seq<Entry>, f: Entry)
    decreases es
  {
    exists e :: e in es && AlikeEntry(e, f)
  }

  ghost predicate AlikeEntry(e: Entry, f: Entry)
    decreases e, 0
  {
    && Walkable(e) && e.name == f.name
    && if e.kind.SubDir? then f.kind.SubDir? && Alike(e.kind.listing, f.kind.listing) else f.kind.File?
  }

  ghost predicate NamesDiffer(es: seq<Entry>) {
    forall i, j :: 0 <= i < j < |es| ==> es[i].name != es[j].name
  }

  lemma {:induction false} KeptAre(all: seq<Entry>, n: nat)
    requires n <= |all|
    ensures forall e :: e in Kept(all, n) <==> e in all[..n] && Walkable(e)
  {
    if n > 0 {
      KeptAre(all, n - 1);
      assert all[..n] == all[..n - 1] + [all[n - 1]];
    }
  }

  lemma {:induction false} KeptNamesDiffer(all: seq<Entry>, n: nat)
    requires n <= |all| && DistinctNames(Readable(all))
    ensures NamesDiffer(Kept(all, n))
  {
    if n > 0 && Walkable(all[n - 1]) {
      KeptNamesDiffer(all, n - 1);
      var kept := Kept(all, n - 1);
      forall i | 0 <= i < |kept| ensures kept[i].name != all[n - 1].name {
        KeptAre(all, n - 1);
        assert kept[i] in all[..n - 1] && Walkable(kept[i]);
        var j :| 0 <= j < n - 1 && all[j] == kept[i];
      }
    } else if n > 0 {
      KeptNamesDiffer(all, n - 1);
    }
  }

  lemma {:induction false} InsertKeepsNamesDifferent(e: Entry, es: seq<Entry>)
    requires NamesDiffer(es) && forall f :: f in es ==> f.name != e.name
    ensures NamesDiffer(Insert(EntryLe, e, es))
    ensures forall f :: f in Insert(EntryLe, e, es) <==> f == e || f in es
    decreases |es|
  {
    if es != [] && !EntryLe(e, es[0]) {
      var rest := Insert(EntryLe, e, es[1..]);
      InsertKeepsNamesDifferent(e, es[1..]);
      assert es == [es[0]] + es[1..];
      forall i | 0 <= i < |rest| ensures rest[i].name != es[0].name {
        assert rest[i] in rest;
      }
    }
  }

  lemma {:induction false} SortKeepsNamesDifferent(es: seq<Entry>)
    requires NamesDiffer(es)
    ensures NamesDiffer(Sort(EntryLe, es))
    ensures forall f :: f in Sort(EntryLe, es) <==> f in es
    decreases |es|
  {
    if es != [] {
      SortKeepsNamesDifferent(es[1..]);
      InsertKeepsNamesDifferent(es[0], Sort(EntryLe, es[1..]));
      assert es == [es[0]] + es[1..];
    }
  }

  /** Ordered by name, no name twice. */
  ghost predicate Strict(es: seq<Entry>) {
    NamesDiffer(es) && forall i, j :: 0 <= i < j < |es| ==> StringLe(es[i].name, es[j].name)
  }

  lemma InOrderIsStrict(all: seq<Entry>)
    requires DistinctNames(Readable(all)) && |all| <= MAX_DIR_ENTRIES
    ensures Strict(InOrder(all)) && forall e :: e in InOrder(all) <==> e in all && Walkable(e)
  {
    var kept := Kept(all, |all|);
    KeptAre(all, |all|);
    assert all[..|all|] == all;
    KeptNamesDiffer(all, |all|);
    SortKeepsNamesDifferent(kept);
    StringOrder();
    SortSorts(EntryLe, kept);
  }

  type Relation = (Entry, Entry) -> bool

  ghost predicate HasRight(rel: Relation, e: Entry, fs: seq<Entry>) { exists f :: f in fs && rel(e, f) }

  ghost predicate HasLeft(rel: Relation, es: seq<Entry>, f: Entry) { exists e :: e in es && rel(e, f) }

  /** Every entry of either list has a counterpart of its name in the other. */
  ghost predicate Matched(rel: Relation, es: seq<Entry>, fs: seq<Entry>) {
    && (forall e, f :: rel(e, f) ==> e.name == f.name)
    && (forall e :: e in es ==> HasRight(rel, e, fs)) && (forall f :: f in fs ==> HasLeft(rel, es, f))
  }

  ghost predicate Aligned(rel: Relation, es: seq<Entry>, fs: seq<Entry>) {
    |es| == |fs| && forall i :: 0 <= i < |es| ==> rel(es[i], fs[i])
  }

  lemma FirstIsLeast(es: seq<Entry>, e: Entry)
    requires Strict(es) && e in es
    ensures StringLe(es[0].name, e.name) && (e.name == es[0].name ==> e == es[0])
  {
    StringOrder();
    var i :| 0 <= i < |es| && es[i] == e;
  }

  lemma HeadsMatch(rel: Relation, es: seq<Entry>, fs: seq<Entry>)
    requires Strict(es) && Strict(fs) && Matched(rel, es, fs) && es != [] && fs != []
    ensures rel(es[0], fs[0])
  {
    assert HasRight(rel, es[0], fs) && HasLeft(rel, es, fs[0]);
    var f :| f in fs && rel(es[0], f);
    var e :| e in es && rel(e, fs[0]);
    FirstIsLeast(es, e);
    FirstIsLeast(fs, f);
    StringOrder();
  }

  lemma StrictTail(es: seq<Entry>)
    requires Strict(es) && es != []
    ensures Strict(es[1..]) && forall e :: e in es ==> if e.name == es[0].name then e == es[0] else e in es[1..]
    ensures forall e :: e in es[1..] ==> e in es && e.name != es[0].name
  {
    forall e | e in es ensures if e.name == es[0].name then e == es[0] else e in es[1..] {
      var i :| 0 <= i < |es| && es[i] == e;
      if i > 0 { assert es[1..][i - 1] == e; }
    }
    forall e | e in es[1..] ensures e in es && e.name != es[0].name {
      var i :| 0 <= i < |es[1..]| && es[1..][i] == e;
      assert es[i + 1] == e;
    }
  }

  lemma TailsMatch(rel: Relation, es: seq<Entry>, fs: seq<Entry>)
    requires Strict(es) && Strict(fs) && Matched(rel, es, fs) && es != [] && fs != [] && rel(es[0], fs[0])
    ensures Matched(rel, es[1..], fs[1..])
  {
    var xs, ys := es[1..], fs[1..];
    StrictTail(es);
    StrictTail(fs);
    forall e | e in xs ensures HasRight(rel, e, ys) {
      assert HasRight(rel, e, fs);
      var f :| f in fs && rel(e, f);
      assert f in ys;
    }
    forall f | f in ys ensures HasLeft(rel, xs, f) {
      assert HasLeft(rel, es, f);
      var e :| e in es && rel(e, f);
      assert e in xs;
    }
  }

  lemma NothingMatchesNothing(rel: Relation, es: seq<Entry>, fs: seq<Entry>)
    requires Matched(rel, es, fs)
    ensures es == [] <==> fs == []
  {
    if fs != [] {
      assert HasLeft(rel, es, fs[0]);
    }
    if es != [] {
      assert HasRight(rel, es[0], fs);
    }
  }

  lemma {:induction false} MatchedAlign(rel: Relation, es: seq<Entry>, fs: seq<Entry>)
    requires Strict(es) && Strict(fs) && Matched(rel, es, fs)
    ensures Aligned(rel, es, fs)
    decreases |es|
  {
    NothingMatchesNothing(rel, es, fs);
    if es != [] {
      HeadsMatch(rel, es, fs);
      TailsMatch(rel, es, fs);
      StrictTail(es);
      StrictTail(fs);
      MatchedAlign(rel, es[1..], fs[1..]);
      forall i | 0 <= i < |es| ensures rel(es[i], fs[i]) {
        if i > 0 { assert rel(es[1..][i - 1], fs[1..][i - 1]); }
      }
    }
  }

  ghost predicate Twins(a: Listing, b: Listing) {
    Alike(a, b) && DistinctNames(a) && DistinctNames(b)
  }

  ghost predicate TwinEntry(e: Entry, f: Entry) {
    AlikeEntry(e, f) && (e.kind.SubDir? ==> Twins(e.kind.listing, f.kind.listing))
  }

  ghost predicate TwinEntries(es: seq<Entry>, fs: seq<Entry>) {
    |es| == |fs| && forall i :: 0 <= i < |es| ==> TwinEntry(es[i], fs[i])
  }

  lemma TwinsMatch(es: seq<Entry>, fs: seq<Entry>, rel: Relation)
    requires Twins(Readable(es), Readable(fs)) && forall e, f :: rel(e, f) == AlikeEntry(e, f)
    ensures Matched(rel, InOrder(es), InOrder(fs))
  {
    var xs, ys := InOrder(es), InOrder(fs);
    InOrderIsStrict(es);
    InOrderIsStrict(fs);
    forall e | e in xs ensures HasRight(rel, e, ys) {
      assert LeftMatched(e, fs);
      var f :| f in fs && AlikeEntry(e, f);
      assert f in ys && rel(e, f);
    }
    forall f | f in ys ensures HasLeft(rel, xs, f) {
      assert RightMatched(es, f);
      var e :| e in es && AlikeEntry(e, f);
      assert e in xs && rel(e, f);
    }
  }

  lemma TwinsReadAlike(es: seq<Entry>, fs: seq<Entry>)
    requires Twins(Readable(es), Readable(fs))
    ensures TwinEntries(InOrder(es), InOrder(fs))
  {
    var xs, ys := InOrder(es), InOrder(fs);
    var rel: Relation := (e, f) => AlikeEntry(e, f);
    InOrderIsStrict(es);
    InOrderIsStrict(fs);
    TwinsMatch(es, fs, rel);
    MatchedAlign(rel, xs, ys);
    forall i | 0 <= i < |xs| ensures TwinEntry(xs[i], ys[i]) {
      assert rel(xs[i], ys[i]) && xs[i] in es && ys[i] in fs;
    }
  }

  lemma TwinsSmooshAlike(es: seq<Entry>, fs: seq<Entry>)
    requires Twins(Readable(es), Readable(fs))
    ensures HasMetaSmoosh(es) <==> HasMetaSmoosh(fs)
  {
    var meta := Entry("meta.smoosh", File);
    if meta in es {
      assert LeftMatched(meta, fs);
    }
    if meta in fs {
      assert RightMatched(es, meta);
    }
  }

  ghost predicate TwinStacks(s: seq<Pending>, t: seq<Pending>) {
    && |s| == |t|
    && forall i :: 0 <= i < |s| ==>
      s[i].path == t[i].path && s[i].depth == t[i].depth && Twins(s[i].listing, t[i].listing)
  }

  /** The same collected, and the same to visit. */
  ghost predicate InStep(p: Progress, q: Progress) {
    p.found == q.found && p.aborted == q.aborted && p.truncated == q.truncated && TwinStacks(p.stack, q.stack)
  }

  lemma EntryInStep(path: Path, depth: nat, maxSegments: Option<nat>, e: Entry, f: Entry, p: Progress, q: Progress)
    requires InStep(p, q) && TwinEntry(e, f)
    ensures InStep(HandledEntry(path, depth, maxSegments, e, p), HandledEntry(path, depth, maxSegments, f, q))
  {
  }

  lemma {:induction false} EntriesInStep(path: Path, depth: nat, maxSegments: Option<nat>, es: seq<Entry>,
                                         fs: seq<Entry>, p: Progress, q: Progress)
    requires InStep(p, q) && TwinEntries(es, fs)
    ensures InStep(Handled(path, depth, maxSegments, es, p), Handled(path, depth, maxSegments, fs, q))
    decreases |es|
  {
    if es != [] && !p.truncated {
      EntryInStep(path, depth, maxSegments, es[0], fs[0], p, q);
      EntriesInStep(path, depth, maxSegments, es[1..], fs[1..], HandledEntry(path, depth, maxSegments, es[0], p),
                    HandledEntry(path, depth, maxSegments, fs[0], q));
    }
  }

  lemma VisitInStep(maxSegments: Option<nat>, top: Pending, twin: Pending, p: Progress, q: Progress)
    requires InStep(p, q) && top.path == twin.path && top.depth == twin.depth
    requires Twins(top.listing, twin.listing) && top.listing.Readable?
    ensures InStep(Visited(top, maxSegments, p), Visited(twin, maxSegments, q))
  {
    var es, fs, own := top.listing.entries, twin.listing.entries, Artifact(top.path, SmooshDir);
    TwinsReadAlike(es, fs);
    TwinsSmooshAlike(es, fs);
    assert es[..|es|] == es && fs[..|fs|] == fs;
    EntriesInStep(top.path, top.depth, maxSegments, InOrder(es), InOrder(fs), p, q);
    EntriesInStep(top.path, top.depth, maxSegments, InOrder(es), InOrder(fs), p.(found := p.found + [own]),
                  q.(found := q.found + [own]));
  }

  lemma PopInStep(p: Progress, q: Progress)
    requires InStep(p, q) && p.stack != []
    ensures InStep(Popped(p), Popped(q))
  {
  }

  lemma {:induction false} StepInStep(maxSegments: Option<nat>, p: Progress, q: Progress)
    requires InStep(p, q) && p.stack != []
    ensures InStep(Stepped(maxSegments, p), Stepped(maxSegments, q))
  {
    var top, twin := p.stack[|p.stack| - 1], q.stack[|q.stack| - 1];
    PopInStep(p, q);
    TwinsSameKind(top.listing, twin.listing);
    if top.listing.Readable? {
      VisitInStep(maxSegments, top, twin, Popped(p), Popped(q));
    }
  }

  lemma TwinsSameKind(a: Listing, b: Listing)
    requires Twins(a, b)
    ensures a.Readable? <==> b.Readable?
  {
  }

  lemma {:induction false} DrainInStep(maxSegments: Option<nat>, p: Progress, q: Progress, visits: nat)
    requires InStep(p, q)
    ensures InStep(Drained(maxSegments, p, visits), Drained(maxSegments, q, visits))
    decreases MAX_SCAN_DIRS - visits
  {
    if p.stack != [] && !p.truncated && visits < MAX_SCAN_DIRS {
      StepInStep(maxSegments, p, q);
      DrainInStep(maxSegments, Stepped(maxSegments, p), Stepped(maxSegments, q), visits + 1);
    }
  }

  /** The order in which directories list their entries decides nothing: two trees alike in everything
      else end with the same artifacts and the same flags, truncated or not, as long as no directory
      lists more entries than are read. */
  lemma ListingOrderDoesNotMatter(a: Listing, b: Listing, maxSegments: Option<nat>)
    requires Alike(a, b) && DistinctNames(a) && DistinctNames(b)
    ensures var p, q := Walked(a, maxSegments), Walked(b, maxSegments);
      p.found == q.found && p.truncated == q.truncated && p.aborted == q.aborted
  {
    DrainInStep(maxSegments, Start(a), Start(b), 0);
  }

  // ----- Where the order does matter ----------------------------------------------------------

  /** As many symlinks as a directory may list. */
  ghost predicate IsCrowd(crowd: seq<Entry>) {
    |crowd| == MAX_DIR_ENTRIES && forall i :: 0 <= i < |crowd| ==> crowd[i].kind.Symlink?
  }

  lemma {:induction false} KeptOfCrowd(all: seq<Entry>, from: nat, n: nat)
    requires from <= n <= |all| && forall i :: from <= i < n ==> !Walkable(all[i])
    ensures Kept(all, n) == Kept(all, from)
    decreases n
  {
    if from < n {
      KeptOfCrowd(all, from, n - 1);
    }
  }

  /** The walk over a root that holds one file at most. */
  lemma WalkOfFlatRoot(all: seq<Entry>, e: Entry)
    requires |all| > MAX_DIR_ENTRIES && e.kind.File? && InOrder(all) in [[], [e]]
    ensures Walked(Readable(all), None).found ==
            if InOrder(all) == [e] && e.name == "index.zip" then [Artifact([e.name], IndexZip)] else []
  {
    var start := Start(Readable(all));
    var p := Progress([], [], true, false);
    assert Popped(start).stack == [];
    assert [] + [e.name] == [e.name];
    assert [e][1..] == [];
    var step := Stepped(None, start);
    assert step == Handled([], 0, None, InOrder(all), p);
    assert InOrder(all) == [e] ==>
      step == Handled([], 0, None, [], HandledEntry([], 0, None, e, p)) == HandledEntry([], 0, None, e, p);
    assert step.stack == [];
    assert Drained(None, start, 0) == Drained(None, step, 1) == step;
  }

  lemma EarlyInOrder(zip: Entry, crowd: seq<Entry>)
    requires zip.kind.File? && IsCrowd(crowd)
    ensures InOrder([zip] + crowd) == [zip]
  {
    var all := [zip] + crowd;
    KeptOfCrowd(all, 1, MAX_DIR_ENTRIES);
    assert Kept(all, 0) == [] && Kept(all, 1) == [zip];
    assert [zip][1..] == [];
  }

  lemma LateInOrder(zip: Entry, crowd: seq<Entry>)
    requires IsCrowd(crowd)
    ensures InOrder(crowd + [zip]) == []
  {
    KeptOfCrowd(crowd + [zip], 0, MAX_DIR_ENTRIES);
  }

  lemma CrowdedNames(zip: Entry, crowd: seq<Entry>)
    requires IsCrowd(crowd) && zip.kind.File?
    ensures DistinctNames(Readable([zip] + crowd)) && DistinctNames(Readable(crowd + [zip]))
  {
  }

  /** One entry over the limit, and whether an artifact is found depends on where it is listed. */
  lemma CutListingsDependOnOrder(zip: Entry, crowd: seq<Entry>)
    requires zip == Entry("index.zip", File) && IsCrowd(crowd)
    ensures var early, late := [zip] + crowd, crowd + [zip];
      && multiset(early) == multiset(late) && DistinctNames(Readable(early)) && DistinctNames(Readable(late))
      && Walked(Readable(early), None).found == [Artifact([zip.name], IndexZip)]
      && Walked(Readable(late), None).found == []
  {
    CrowdedNames(zip, crowd);
    EarlyInOrder(zip, crowd);
    LateInOrder(zip, crowd);
    WalkOfFlatRoot([zip] + crowd, zip);
    WalkOfFlatRoot(crowd + [zip], zip);
  }
}
