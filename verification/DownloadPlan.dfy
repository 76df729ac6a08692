/** The plan of what to download from a listing of an object store. */
module DownloadPlan {

  import opened Common
  import opened DirectoryRuns
  import opened Paths

  const MAX_S3_KEYS: nat := 1_000_000

  /** A kept key: the components of its path, and its index in the listing. */
  datatype Item = Item(comps: Path, source: nat)
  datatype PlannedDownload = PlannedDownload(rel: string, source: nat)
  datatype Plan = Plan(downloads: seq<PlannedDownload>, filtered: nat, truncated: bool)
  datatype PlanError = TooManyKeys | AtPrefix(key: string) | OutsidePrefix(key: string) | UnsafeKey(key: string)

  // ----- One key --------------------------------------------------------------------------

  predicate UnsafeComponent(c: string) {
    || c == "" || c == "." || c == ".." || '\\' in c
    || exists i :: 0 <= i < |c| && (c[i] < ' ' || c[i] == 127 as char)
  }

  datatype Fate = Kept(comps: Path) | Filtered | Refused(error: PlanError)

  /** The part of a key below the prefix. */
  function StripPrefix(key: string, prefix: string): Result<string, PlanError> {
    if prefix == "" then Ok(key)
    else if |prefix| + 1 < |key| && prefix == key[..|prefix|] && key[|prefix|] == '/' then Ok(key[|prefix| + 1..])
    else if key == prefix then Err(AtPrefix(key))
    else Err(OutsidePrefix(key))
  }

  function Judge(key: string, prefix: string, datasource: Option<string>): Fate {
    var rel := StripPrefix(key, prefix);
    if rel.Err? then Refused(rel.error)
    else
      var comps := Split(rel.value, '/');
      if exists i :: 0 <= i < |comps| && UnsafeComponent(comps[i]) then Refused(UnsafeKey(key))
      else if datasource.Some? && |comps| >= 5 && comps[0] != datasource.value then Filtered
      else Kept(comps)
  }

  // ----- The whole listing ----------------------------------------------------------------

  /** The kept ones among the first n keys, in listing order. */
  function KeptItems(keys: seq<string>, prefix: string, datasource: Option<string>, n: nat): (items: seq<Item>)
    requires n <= |keys|
    ensures forall i :: 0 <= i < |items| ==> |items[i].comps| >= 1
  {
    if n == 0 then []
    else
      var before := KeptItems(keys, prefix, datasource, n - 1);
      match Judge(keys[n - 1], prefix, datasource)
      case Kept(comps) => before + [Item(comps, n - 1)]
      case _ => before
  }

  predicate ItemLe(a: Item, b: Item) {
    if a.comps == b.comps then a.source <= b.source else PathLe(a.comps, b.comps)
  }

  lemma ItemOrder()
    ensures TotalOrder(ItemLe)
  {
    PathOrder();
  }

  function Ordered(keys: seq<string>, prefix: string, datasource: Option<string>): seq<Item> {
    Sort(ItemLe, KeptItems(keys, prefix, datasource, |keys|))
  }

  // ----- Runs of one directory ------------------------------------------------------------

  datatype Directory = Directory(comps: Path)

  function Dir(item: Item): Directory {
    Directory(if item.comps == [] then [] else item.comps[..|item.comps| - 1])
  }

  predicate ArtifactName(name: string) { name == "index.zip" || name == "meta.smoosh" }

  predicate IsArtifact(item: Item) { item.comps != [] && ArtifactName(item.comps[|item.comps| - 1]) }

  function StepOf(item: Item): Step<Directory> { Step(Dir(item), IsArtifact(item)) }

  function Steps(items: seq<Item>): (steps: seq<Step<Directory>>)
    ensures |steps| == |items|
  {
    if items == [] then [] else [StepOf(items[0])] + Steps(items[1..])
  }

  lemma {:induction false} StepsAt(items: seq<Item>, k: nat)
    requires k < |items|
    ensures Steps(items)[k] == StepOf(items[k])
    decreases k
  {
    if k > 0 {
      StepsAt(items[1..], k - 1);
    }
  }

  /** Entry by entry, the first k items. */
  ghost predicate Copied(items: seq<Item>, k: nat, downloads: seq<PlannedDownload>) {
    && |downloads| == k <= |items|
    && forall i :: 0 <= i < k ==>
      |items[i].comps| >= 1 && downloads[i] == PlannedDownload(Join(items[i].comps, '/'), items[i].source)
  }

  ghost predicate IsPlan(items: seq<Item>, maxSegments: Option<nat>, plan: Plan) {
    && StopsAt(Steps(items), maxSegments, |plan.downloads|)
    && Copied(items, |plan.downloads|, plan.downloads)
    && (plan.truncated <==> |plan.downloads| < |items|)
  }

  lemma CopiedStep(items: seq<Item>, k: nat, downloads: seq<PlannedDownload>)
    requires Copied(items, k, downloads) && k < |items| && |items[k].comps| >= 1
    ensures Copied(items, k + 1, downloads + [PlannedDownload(Join(items[k].comps, '/'), items[k].source)])
  {
    var next := downloads + [PlannedDownload(Join(items[k].comps, '/'), items[k].source)];
    forall i | 0 <= i < k + 1
      ensures |items[i].comps| >= 1 && next[i] == PlannedDownload(Join(items[i].comps, '/'), items[i].source)
    {
      if i < k { assert next[i] == downloads[i]; }
    }
  }

  lemma {:induction false} BoundaryIs(items: seq<Item>, k: nat, currentDir: Option<Directory>)
    requires k < |items| && currentDir == if k == 0 then None else Some(Dir(items[k - 1]))
    ensures Boundary(Steps(items), k) <==> currentDir != Some(Dir(items[k]))
    ensures Steps(items)[k].artifact == IsArtifact(items[k])
  {
    StepsAt(items, k);
    if k > 0 {
      StepsAt(items, k - 1);
    }
  }

  /** What the loop remembers of the group it is in and of those before it. */
  datatype Group = Group(dir: Option<Directory>, hasArtifact: bool, artifactDirs: nat)

  /** `closed` are the artifact runs before the group. */
  ghost predicate InGroup(items: seq<Item>, maxSegments: Option<nat>, k: nat, g: Group, closed: set<nat>) {
    && k <= |items|
    && g.dir == (if k == 0 then None else Some(Dir(items[k - 1])))
    && Counted(Steps(items), maxSegments, k, closed, g.hasArtifact) && g.artifactDirs == |closed|
  }

  /** Takes in item k, unless a new group starts with the limit reached. */
  method EnterItem(items: seq<Item>, k: nat, maxSegments: Option<nat>, g: Group, ghost closed: set<nat>)
    returns (stop: bool, g': Group, ghost closed': set<nat>)
    requires k < |items| && InGroup(items, maxSegments, k, g, closed)
    ensures if stop then StopsAt(Steps(items), maxSegments, k)
            else InGroup(items, maxSegments, k + 1, g', closed')
  {
    var dir := Dir(items[k]);
    g', closed' := g, closed;
    BoundaryIs(items, k, g.dir);
    if g.dir != Some(dir) {
      CountedNewRun(Steps(items), maxSegments, k, closed, g.hasArtifact);
      var artifactDirs := if g.hasArtifact then g.artifactDirs + 1 else g.artifactDirs;
      if maxSegments.Some? && artifactDirs >= maxSegments.value {
        return true, g', closed;
      }
      g', closed' := Group(Some(dir), false, artifactDirs), ArtifactRuns(Steps(items), k);
    } else {
      CountedSameRun(Steps(items), maxSegments, k, closed, g.hasArtifact);
    }
    if IsArtifact(items[k]) {
      g' := g'.(hasArtifact := true);
    }
    stop := false;
  }

  method CutAfterSegments(items: seq<Item>, maxSegments: Option<nat>)
    returns (downloads: seq<PlannedDownload>, truncated: bool)
    requires forall i :: 0 <= i < |items| ==> |items[i].comps| >= 1
    ensures Copied(items, |downloads|, downloads)
    ensures StopsAt(Steps(items), maxSegments, |downloads|)
    ensures truncated <==> |downloads| < |items|
  {
    downloads, truncated := [], false;
    var g := Group(None, false, 0);
    ghost var closed: set<nat> := {};
    var k := 0;
    while k < |items|
      invariant Copied(items, k, downloads) && InGroup(items, maxSegments, k, g, closed)
      invariant !truncated
    {
      var stop;
      stop, g, closed := EnterItem(items, k, maxSegments, g, closed);
      if stop {
        truncated := true;
        return;
      }
      CopiedStep(items, k, downloads);
      downloads := downloads + [PlannedDownload(Join(items[k].comps, '/'), items[k].source)];
      k := k + 1;
    }
  }

  lemma OrderedItems(keys: seq<string>, prefix: string, datasource: Option<string>)
    ensures Sorted(ItemLe, Ordered(keys, prefix, datasource))
    ensures multiset(Ordered(keys, prefix, datasource)) == multiset(KeptItems(keys, prefix, datasource, |keys|))
    ensures forall item :: item in Ordered(keys, prefix, datasource) ==> |item.comps| >= 1
  {
    ItemOrder();
    var kept := KeptItems(keys, prefix, datasource, |keys|);
    SortSorts(ItemLe, kept);
    forall item | item in Ordered(keys, prefix, datasource) ensures |item.comps| >= 1 {
      assert item in multiset(kept);
    }
  }

  // ----- Keys, spelled out ------------------------------------------------------------------

  /** Nothing, one dot or two, or a backslash or a control character somewhere. */
  predicate BadPart(c: string) {
    || |c| == 0 || (|c| <= 2 && forall i :: 0 <= i < |c| ==> c[i] as int == 46)
    || exists i :: 0 <= i < |c| && (c[i] as int == 92 || c[i] as int < 32 || c[i] as int == 127)
  }

  /** The key is the prefix, a slash and more; with no prefix all of it is more. */
  ghost predicate IsBelow(key: string, prefix: string, rel: string) {
    if prefix == "" then key == rel else rel != "" && key == prefix + (['/'] + rel)
  }

  ghost predicate IsSound(key: string, prefix: string) {
    exists rel :: IsBelow(key, prefix, rel) && AllGood(Split(rel, '/'))
  }

  predicate AllGood(parts: seq<string>) { forall i :: 0 <= i < |parts| ==> !BadPart(parts[i]) }

  /** A data source is not asked for, or the path is too short to name one, or it begins with it. */
  ghost predicate IsWanted(key: string, prefix: string, datasource: Option<string>) {
    exists rel :: IsBelow(key, prefix, rel)
                  && (datasource.None? || |Split(rel, '/')| < 5 || Split(rel, '/')[0] == datasource.value)
  }

  lemma BelowIsStripped(key: string, prefix: string, rel: string)
    ensures IsBelow(key, prefix, rel) <==> StripPrefix(key, prefix) == Ok(rel)
  {
    if prefix != "" {
      if IsBelow(key, prefix, rel) {
        assert key[..|prefix|] == prefix && key[|prefix| + 1..] == rel;
      }
      if StripPrefix(key, prefix) == Ok(rel) {
        assert key == key[..|prefix|] + ([key[|prefix|]] + key[|prefix| + 1..]);
      }
    }
  }

  lemma BadPartIsUnsafe(c: string)
    ensures UnsafeComponent(c) <==> BadPart(c)
  {
    assert '\\' in c <==> exists i :: 0 <= i < |c| && c[i] as int == 92;
    assert (exists i :: 0 <= i < |c| && (c[i] < ' ' || c[i] == 127 as char)) <==>
           exists i :: 0 <= i < |c| && (c[i] as int < 32 || c[i] as int == 127);
  }

  lemma PartsSpelled(parts: seq<string>)
    ensures (exists i :: 0 <= i < |parts| && UnsafeComponent(parts[i])) <==> !AllGood(parts)
  {
    forall i | 0 <= i < |parts| ensures UnsafeComponent(parts[i]) <==> BadPart(parts[i]) {
      BadPartIsUnsafe(parts[i]);
    }
  }

  /** What becomes of a key, and with which error it is refused. */
  lemma FateSpelled(key: string, prefix: string, datasource: Option<string>)
    ensures var fate := Judge(key, prefix, datasource);
      && (fate.Refused? <==> !IsSound(key, prefix))
      && (!fate.Refused? ==> (fate.Kept? <==> IsWanted(key, prefix, datasource)))
      && (fate.Refused? ==>
            fate.error == if prefix != "" && key == prefix then AtPrefix(key)
                          else if forall rel :: !IsBelow(key, prefix, rel) then OutsidePrefix(key)
                          else UnsafeKey(key))
  {
    var rel := StripPrefix(key, prefix);
    OnlyStripped(key, prefix);
    if rel.Ok? {
      PartsSpelled(Split(rel.value, '/'));
      SoundSpelled(key, prefix, rel.value);
      WantedSpelled(key, prefix, datasource, rel.value);
    }
  }

  lemma OnlyStripped(key: string, prefix: string)
    ensures forall rel :: IsBelow(key, prefix, rel) <==> StripPrefix(key, prefix) == Ok(rel)
  {
    forall rel ensures IsBelow(key, prefix, rel) <==> StripPrefix(key, prefix) == Ok(rel) {
      BelowIsStripped(key, prefix, rel);
    }
  }

  lemma SoundSpelled(key: string, prefix: string, rel: string)
    requires StripPrefix(key, prefix) == Ok(rel)
    ensures IsSound(key, prefix) <==> AllGood(Split(rel, '/'))
  {
    OnlyStripped(key, prefix);
    assert IsBelow(key, prefix, rel);
  }

  lemma WantedSpelled(key: string, prefix: string, datasource: Option<string>, rel: string)
    requires StripPrefix(key, prefix) == Ok(rel)
    ensures IsWanted(key, prefix, datasource) <==>
            datasource.None? || |Split(rel, '/')| < 5 || Split(rel, '/')[0] == datasource.value
  {
    OnlyStripped(key, prefix);
    assert IsBelow(key, prefix, rel);
  }

  ghost function Unwanted(keys: seq<string>, prefix: string, datasource: Option<string>, n: nat): set<nat>
    requires n <= |keys|
  {
    set s: nat | s < n && !IsWanted(keys[s], prefix, datasource)
  }

  ghost function WantedCount(keys: seq<string>, prefix: string, datasource: Option<string>, n: nat): nat
    requires n <= |keys|
  {
    if n == 0 then 0
    else WantedCount(keys, prefix, datasource, n - 1) + if IsWanted(keys[n - 1], prefix, datasource) then 1 else 0
  }

  /** None of the first n keys is refused. */
  ghost predicate NoneRefused(keys: seq<string>, prefix: string, datasource: Option<string>, n: nat)
    requires n <= |keys|
  {
    n == 0 || (NoneRefused(keys, prefix, datasource, n - 1) && !Judge(keys[n - 1], prefix, datasource).Refused?)
  }

  lemma {:induction false} NoneRefusedMeans(keys: seq<string>, prefix: string, datasource: Option<string>, n: nat)
    requires n <= |keys| && NoneRefused(keys, prefix, datasource, n)
    ensures forall i :: 0 <= i < n ==> !Judge(keys[i], prefix, datasource).Refused?
    ensures forall i :: 0 <= i < n ==> IsSound(keys[i], prefix)
  {
    if n > 0 {
      NoneRefusedMeans(keys, prefix, datasource, n - 1);
      FateSpelled(keys[n - 1], prefix, datasource);
    }
  }

  lemma {:induction false} KeptCount(keys: seq<string>, prefix: string, datasource: Option<string>, n: nat)
    requires n <= |keys| && NoneRefused(keys, prefix, datasource, n)
    ensures |KeptItems(keys, prefix, datasource, n)| == WantedCount(keys, prefix, datasource, n)
  {
    if n > 0 {
      KeptCount(keys, prefix, datasource, n - 1);
      KeptStep(keys, prefix, datasource, n - 1);
    }
  }

  lemma {:induction false} UnwantedCount(keys: seq<string>, prefix: string, datasource: Option<string>, n: nat)
    requires n <= |keys|
    ensures |Unwanted(keys, prefix, datasource, n)| + WantedCount(keys, prefix, datasource, n) == n
  {
    if n == 0 {
      assert Unwanted(keys, prefix, datasource, 0) == {};
    } else {
      UnwantedCount(keys, prefix, datasource, n - 1);
      UnwantedStep(keys, prefix, datasource, n - 1);
    }
  }

  lemma KeptStep(keys: seq<string>, prefix: string, datasource: Option<string>, n: nat)
    requires n < |keys| && !Judge(keys[n], prefix, datasource).Refused?
    ensures |KeptItems(keys, prefix, datasource, n + 1)| ==
            |KeptItems(keys, prefix, datasource, n)| + if IsWanted(keys[n], prefix, datasource) then 1 else 0
  {
    FateSpelled(keys[n], prefix, datasource);
  }

  lemma UnwantedStep(keys: seq<string>, prefix: string, datasource: Option<string>, n: nat)
    requires n < |keys|
    ensures |Unwanted(keys, prefix, datasource, n + 1)| ==
            |Unwanted(keys, prefix, datasource, n)| + if IsWanted(keys[n], prefix, datasource) then 0 else 1
  {
    var before := Unwanted(keys, prefix, datasource, n);
    if IsWanted(keys[n], prefix, datasource) {
      assert Unwanted(keys, prefix, datasource, n + 1) == before;
    } else {
      assert Unwanted(keys, prefix, datasource, n + 1) == before + {n};
    }
  }

  /** Without a limit the sources planned are those of the wanted keys. */
  ghost predicate PlansWanted(keys: seq<string>, prefix: string, datasource: Option<string>, plan: Plan) {
    forall s: nat | s < |keys| ::
      (exists i :: 0 <= i < |plan.downloads| && plan.downloads[i].source == s) <==>
      IsWanted(keys[s], prefix, datasource)
  }

  lemma PlannedIffKept(keys: seq<string>, prefix: string, datasource: Option<string>, plan: Plan, s: nat)
    requires IsPlan(Ordered(keys, prefix, datasource), None, plan) && s < |keys|
    ensures (exists i :: 0 <= i < |plan.downloads| && plan.downloads[i].source == s) <==>
            Judge(keys[s], prefix, datasource).Kept?
  {
    var items := Ordered(keys, prefix, datasource);
    OrderedItemsAre(keys, prefix, datasource);
    if Judge(keys[s], prefix, datasource).Kept? {
      var item := Item(Judge(keys[s], prefix, datasource).comps, s);
      var at :| 0 <= at < |items| && items[at] == item;
      assert plan.downloads[at].source == s;
    }
    if i :| 0 <= i < |plan.downloads| && plan.downloads[i].source == s {
      assert items[i] in items;
    }
  }

  lemma UnlimitedPlan(keys: seq<string>, prefix: string, datasource: Option<string>, plan: Plan)
    requires NoneRefused(keys, prefix, datasource, |keys|)
    requires IsPlan(Ordered(keys, prefix, datasource), None, plan)
    ensures PlansWanted(keys, prefix, datasource, plan) && !plan.truncated
  {
    forall s: nat | s < |keys|
      ensures (exists i :: 0 <= i < |plan.downloads| && plan.downloads[i].source == s) <==>
              IsWanted(keys[s], prefix, datasource)
    {
      PlannedIffKept(keys, prefix, datasource, plan, s);
      NoneRefusedMeans(keys, prefix, datasource, |keys|);
      FateSpelled(keys[s], prefix, datasource);
    }
  }

  /** What a plan is, said of the keys alone. */
  lemma PlanSpelled(keys: seq<string>, prefix: string, datasource: Option<string>, maxSegments: Option<nat>, plan: Plan)
    requires NoneRefused(keys, prefix, datasource, |keys|)
    requires IsPlan(Ordered(keys, prefix, datasource), maxSegments, plan)
    requires plan.filtered == |keys| - |Ordered(keys, prefix, datasource)|
    ensures maxSegments.None? ==> PlansWanted(keys, prefix, datasource, plan) && !plan.truncated
    ensures plan.filtered == |Unwanted(keys, prefix, datasource, |keys|)|
  {
    KeptCount(keys, prefix, datasource, |keys|);
    UnwantedCount(keys, prefix, datasource, |keys|);
    if maxSegments.None? {
      UnlimitedPlan(keys, prefix, datasource, plan);
    }
  }

  method PlanDownloads(keys: seq<string>, keyPrefix: string, datasource: Option<string>, maxSegments: Option<nat>)
    returns (r: Result<Plan, PlanError>)
    ensures |keys| > MAX_S3_KEYS ==> r == Err(TooManyKeys)
    ensures |keys| <= MAX_S3_KEYS && r.Err? ==>
      (exists i :: 0 <= i < |keys| && Judge(keys[i], keyPrefix, datasource) == Refused(r.error)
        && forall j :: 0 <= j < i ==> !Judge(keys[j], keyPrefix, datasource).Refused?)
    ensures r.Ok? ==> |keys| <= MAX_S3_KEYS
    ensures r.Ok? ==> forall i :: 0 <= i < |keys| ==> !Judge(keys[i], keyPrefix, datasource).Refused?
    ensures r.Ok? ==> IsPlan(Ordered(keys, keyPrefix, datasource), maxSegments, r.value)
    ensures r.Ok? ==> r.value.filtered == |keys| - |Ordered(keys, keyPrefix, datasource)|
    ensures r.Err? <==> |keys| > 1_000_000 || exists i :: 0 <= i < |keys| && !IsSound(keys[i], keyPrefix)
    ensures r.Ok? && maxSegments.None? ==> PlansWanted(keys, keyPrefix, datasource, r.value) && !r.value.truncated
    ensures r.Ok? ==> r.value.filtered == |Unwanted(keys, keyPrefix, datasource, |keys|)|
  {
    if |keys| > MAX_S3_KEYS {
      return Err(TooManyKeys);
    }
    var sorted := KeepKeys(keys, keyPrefix, datasource);
    if sorted.Err? {
      return Err(sorted.error);
    }
    var (kept, filtered) := sorted.value;
    OrderedItems(keys, keyPrefix, datasource);
    var downloads, truncated := CutAfterSegments(Sort(ItemLe, kept), maxSegments);
    r := Ok(Plan(downloads, filtered, truncated));
    PlanSpelled(keys, keyPrefix, datasource, maxSegments, r.value);
  }

  /** The kept keys and the number of those left out, unless a key is refused: the first of them. */
  method KeepKeys(keys: seq<string>, keyPrefix: string, datasource: Option<string>)
    returns (r: Result<(seq<Item>, nat), PlanError>)
    ensures r.Err? ==>
      exists i :: 0 <= i < |keys| && Judge(keys[i], keyPrefix, datasource) == Refused(r.error)
        && !IsSound(keys[i], keyPrefix) && forall j :: 0 <= j < i ==> !Judge(keys[j], keyPrefix, datasource).Refused?
    ensures r.Ok? ==>
      && r.value.0 == KeptItems(keys, keyPrefix, datasource, |keys|) && r.value.1 + |r.value.0| == |keys|
      && NoneRefused(keys, keyPrefix, datasource, |keys|)
      && (forall i :: 0 <= i < |keys| ==> !Judge(keys[i], keyPrefix, datasource).Refused?)
      && (forall i :: 0 <= i < |keys| ==> IsSound(keys[i], keyPrefix))
  {
    var kept: seq<Item> := [];
    var filtered := 0;
    for source := 0 to |keys|
      invariant kept == KeptItems(keys, keyPrefix, datasource, source)
      invariant filtered + |kept| == source
      invariant NoneRefused(keys, keyPrefix, datasource, source)
    {
      match Judge(keys[source], keyPrefix, datasource)
      case Refused(error) =>
        NoneRefusedMeans(keys, keyPrefix, datasource, source);
        FateSpelled(keys[source], keyPrefix, datasource);
        return Err(error);
      case Filtered => filtered := filtered + 1;
      case Kept(comps) => kept := kept + [Item(comps, source)];
    }
    NoneRefusedMeans(keys, keyPrefix, datasource, |keys|);
    r := Ok((kept, filtered));
  }

  // ----- What a plan holds ----------------------------------------------------------------

  lemma {:induction false} KeptItemsAre(keys: seq<string>, prefix: string, datasource: Option<string>, n: nat)
    requires n <= |keys|
    ensures Distinct(KeptItems(keys, prefix, datasource, n))
    ensures forall item :: item in KeptItems(keys, prefix, datasource, n) <==>
      item.source < n && Judge(keys[item.source], prefix, datasource) == Kept(item.comps)
  {
    if n > 0 {
      KeptItemsAre(keys, prefix, datasource, n - 1);
    }
  }

  /** The key an entry would be fetched from is the key whose path it mirrors. */
  predicate Mirrors(keys: seq<string>, prefix: string, entry: PlannedDownload) {
    && entry.source < |keys|
    && keys[entry.source] == if prefix == "" then entry.rel else prefix + "/" + entry.rel
  }

  lemma KeptMirrors(keys: seq<string>, prefix: string, datasource: Option<string>, item: Item)
    requires item.source < |keys| && Judge(keys[item.source], prefix, datasource) == Kept(item.comps)
    ensures |item.comps| >= 1 && Mirrors(keys, prefix, PlannedDownload(Join(item.comps, '/'), item.source))
    ensures forall c :: c in item.comps ==> !UnsafeComponent(c) && '/' !in c
  {
    var key := keys[item.source];
    var rel := StripPrefix(key, prefix).value;
    JoinSplit(rel, '/');
    if prefix != "" {
      assert key == key[..|prefix|] + [key[|prefix|]] + key[|prefix| + 1..];
    }
  }

  /** The ordered items are the kept keys, each once. */
  lemma OrderedItemsAre(keys: seq<string>, prefix: string, datasource: Option<string>)
    ensures Distinct(Ordered(keys, prefix, datasource))
    ensures forall item :: item in Ordered(keys, prefix, datasource) <==>
      item.source < |keys| && Judge(keys[item.source], prefix, datasource) == Kept(item.comps)
  {
    OrderedItems(keys, prefix, datasource);
    KeptItemsAre(keys, prefix, datasource, |keys|);
    ItemOrder();
    var kept := KeptItems(keys, prefix, datasource, |keys|);
    SortDistinct(ItemLe, kept);
    forall item ensures item in Ordered(keys, prefix, datasource) <==> item in kept {
      assert item in multiset(kept) <==> item in multiset(Ordered(keys, prefix, datasource));
    }
  }

  /** Every entry mirrors its own key under safe components, and no key is planned twice. */
  lemma EntriesMirrorTheirKeys(keys: seq<string>, prefix: string, datasource: Option<string>,
                               maxSegments: Option<nat>, plan: Plan)
    requires IsPlan(Ordered(keys, prefix, datasource), maxSegments, plan)
    ensures forall i :: 0 <= i < |plan.downloads| ==> Mirrors(keys, prefix, plan.downloads[i])
    ensures forall i, j :: 0 <= i < j < |plan.downloads| ==> plan.downloads[i].source != plan.downloads[j].source
  {
    var items, k := Ordered(keys, prefix, datasource), |plan.downloads|;
    OrderedItemsAre(keys, prefix, datasource);
    forall i | 0 <= i < k ensures Mirrors(keys, prefix, plan.downloads[i]) {
      assert items[i] in items;
      KeptMirrors(keys, prefix, datasource, items[i]);
    }
    forall i, j | 0 <= i < j < k ensures plan.downloads[i].source != plan.downloads[j].source {
      assert items[i] in items && items[j] in items && items[i] != items[j];
    }
  }

  /** A kept key is in the plan, or the plan is truncated and the key sorts after all of it. */
  lemma OnlyLaterKeysAreLeftOut(keys: seq<string>, prefix: string, datasource: Option<string>,
                                maxSegments: Option<nat>, plan: Plan, s: nat)
    requires IsPlan(Ordered(keys, prefix, datasource), maxSegments, plan)
    requires s < |keys| && Judge(keys[s], prefix, datasource).Kept?
    ensures (exists i :: 0 <= i < |plan.downloads| && plan.downloads[i].source == s)
            || (plan.truncated && forall i :: 0 <= i < |plan.downloads| ==>
                  ItemLe(Ordered(keys, prefix, datasource)[i], Item(Judge(keys[s], prefix, datasource).comps, s)))
  {
    var items, item := Ordered(keys, prefix, datasource), Item(Judge(keys[s], prefix, datasource).comps, s);
    OrderedItemsAre(keys, prefix, datasource);
    OrderedItems(keys, prefix, datasource);
    assert item in items;
    var at :| 0 <= at < |items| && items[at] == item;
    if at < |plan.downloads| {
      assert plan.downloads[at].source == s;
    }
  }

  /** The path of an entry, as listed. */
  lemma EntryPath(keys: seq<string>, prefix: string, datasource: Option<string>, item: Item)
    requires item in Ordered(keys, prefix, datasource)
    ensures |item.comps| >= 1 && Split(Join(item.comps, '/'), '/') == item.comps
  {
    OrderedItemsAre(keys, prefix, datasource);
    JoinSplit(StripPrefix(keys[item.source], prefix).value, '/');
  }

  /** Entries come in the order of their paths, component by component and character by character, and
      entries of one path in the order of the listing. */
  lemma PlanIsInPathOrder(keys: seq<string>, prefix: string, datasource: Option<string>, maxSegments: Option<nat>,
                          plan: Plan, i: nat, j: nat)
    requires IsPlan(Ordered(keys, prefix, datasource), maxSegments, plan) && i < j < |plan.downloads|
    ensures var p, q := Split(plan.downloads[i].rel, '/'), Split(plan.downloads[j].rel, '/');
      PathBefore(p, q) || (p == q && plan.downloads[i].source < plan.downloads[j].source)
  {
    var items := Ordered(keys, prefix, datasource);
    OrderedItems(keys, prefix, datasource);
    EntriesMirrorTheirKeys(keys, prefix, datasource, maxSegments, plan);
    assert items[i] in items && items[j] in items;
    EntryPath(keys, prefix, datasource, items[i]);
    EntryPath(keys, prefix, datasource, items[j]);
    assert ItemLe(items[i], items[j]);
    PathOrderSpelled(items[i].comps, items[j].comps);
  }

  // ----- Which names are artifacts --------------------------------------------------------------

  predicate MarkerName(name: string) {
    || name == ['i', 'n', 'd', 'e', 'x', '.', 'z', 'i', 'p']
    || name == ['m', 'e', 't', 'a', '.', 's', 'm', 'o', 'o', 's', 'h']
  }

  lemma {:induction false} KeptTwo(keys: seq<string>, items: seq<Item>)
    requires |keys| == |items| == 2
    requires forall i :: 0 <= i < 2 ==> items[i].source == i && Judge(keys[i], "", None) == Kept(items[i].comps)
    ensures KeptItems(keys, "", None, 2) == items
  {
    assert KeptItems(keys, "", None, 0) == [];
    assert KeptItems(keys, "", None, 1) == [items[0]];
  }

  lemma StepsOfTwo(d: string, a: string, e: string, b: string, items: seq<Item>, k: nat)
    requires items == [Item([d, a], 0), Item([e, b], 1)] && d != e
    requires StopsAt(Steps(items), Some(1), k)
    ensures k == if ArtifactName(a) then 1 else 2
  {
    var steps := Steps(items);
    StepsAt(items, 0);
    StepsAt(items, 1);
    assert Dir(items[0]).comps == [d] && Dir(items[1]).comps == [e];
    assert ArtifactRuns(steps, 0) == {};
    ArtifactRunsStep(steps, 0);
    assert |ArtifactRuns(steps, 1)| == if ArtifactName(a) then 1 else 0;
    assert Boundary(steps, 0) && Boundary(steps, 1);
  }

  /** Of two directories a limit of one leaves the second out exactly when the first holds an index.zip
      or a meta.smoosh. */
  lemma OnlyMarkersCount(d: string, a: string, e: string, b: string, plan: Plan)
    requires PlainName(d) && PlainName(a) && PlainName(e) && PlainName(b) && NameBefore(d, e)
    requires IsPlan(Ordered([d + ['/'] + a, e + ['/'] + b], "", None), Some(1), plan)
    ensures |plan.downloads| == (if MarkerName(a) then 1 else 2) && (plan.truncated <==> MarkerName(a))
  {
    var keys, items := [d + ['/'] + a, e + ['/'] + b], [Item([d, a], 0), Item([e, b], 1)];
    JudgePair(d, a);
    JudgePair(e, b);
    KeptTwo(keys, items);
    NameOrderSpelled(d, e);
    if d == e { NoNameBeforeItself(d); }
    assert items == [items[0], items[1]] && items[1..] == [items[1]] && items[1..][1..] == [];
    assert Sort(ItemLe, [items[1]]) == [items[1]] && Sort(ItemLe, items) == items;
    StepsOfTwo(d, a, e, b, items, |plan.downloads|);
  }

  // ----- Whole directories ----------------------------------------------------------------

  /** Keys of one directory are both planned and left out. */
  ghost predicate SplitsDirectory(items: seq<Item>, plan: Plan) {
    exists i, j :: 0 <= i < |plan.downloads| <= j < |items| && Dir(items[i]) == Dir(items[j])
  }

  /** A plan splits a directory exactly when one straddles the end of the run that completes the last
      of the artifact runs asked for, and never when there is no limit. */
  lemma PlanSplitsIff(items: seq<Item>, maxSegments: Option<nat>, plan: Plan)
    requires IsPlan(items, maxSegments, plan)
    ensures SplitsDirectory(items, plan) <==>
            maxSegments.Some? && LimitStraddled(Steps(items), maxSegments.value)
  {
    SplitsIffNotWhole(items, plan);
    if maxSegments.Some? {
      LimitSplitsIff(Steps(items), maxSegments.value, |plan.downloads|);
    }
  }

  lemma SplitsIffNotWhole(items: seq<Item>, plan: Plan)
    ensures SplitsDirectory(items, plan) <==> !Whole(Steps(items), |plan.downloads|)
  {
    var steps, k := Steps(items), |plan.downloads|;
    if i: nat, j: nat :| i < k <= j < |items| && Dir(items[i]) == Dir(items[j]) {
      SameDirs(items, i, j);
      assert steps[i].dir == steps[j].dir;
    }
    if i: nat, j: nat :| i < k <= j < |items| && steps[i].dir == steps[j].dir {
      SameDirs(items, i, j);
      assert Dir(items[i]) == Dir(items[j]);
    }
  }

  lemma SameDirs(items: seq<Item>, i: nat, j: nat)
    requires i < |items| && j < |items|
    ensures Dir(items[i]) == Dir(items[j]) <==> Steps(items)[i].dir == Steps(items)[j].dir
  {
    StepsAt(items, i);
    StepsAt(items, j);
  }

  /** A file or directory name that the planner accepts. */
  predicate PlainName(c: string) { !UnsafeComponent(c) && '/' !in c }

  /** Not every listing keeps its directories whole: after d/b/index.zip fills a limit of one, d/c is
      left out although d/a is planned, for any names in that order. */
  lemma DirectoriesCanBeSplit(d: string, a: string, b: string, zip: string, c: string)
    requires PlainName(d) && PlainName(a) && PlainName(b) && PlainName(zip) && PlainName(c)
    requires StringLe(a, b) && StringLe(b, c) && a != b && b != c
    requires ArtifactName(zip) && !ArtifactName(a)
    ensures var keys := [d + ['/'] + a, d + ['/'] + (b + ['/'] + zip), d + ['/'] + c];
      var items := [Item([d, a], 0), Item([d, b, zip], 1), Item([d, c], 2)];
      && Ordered(keys, "", None) == items
      && StopsAt(Steps(items), Some(1), 2) && !Whole(Steps(items), 2)
  {
    var keys := [d + ['/'] + a, d + ['/'] + (b + ['/'] + zip), d + ['/'] + c];
    var items := [Item([d, a], 0), Item([d, b, zip], 1), Item([d, c], 2)];
    JudgePair(d, a);
    JudgeTriple(d, b, zip);
    JudgePair(d, c);
    KeptThree(keys, items);
    LexSecond(d, a, b, [], [zip]);
    LexSecond(d, b, c, [zip], []);
    assert [d, a] + [] == [d, a] && [d, b] + [zip] == [d, b, zip] && [d, c] + [] == [d, c];
    SortedThree(items);
    StepsOfThree(d, a, b, zip, c, items);
  }

  lemma StepsOfThree(d: string, a: string, b: string, zip: string, c: string, items: seq<Item>)
    requires items == [Item([d, a], 0), Item([d, b, zip], 1), Item([d, c], 2)]
    requires ArtifactName(zip) && !ArtifactName(a)
    ensures StopsAt(Steps(items), Some(1), 2) && !Whole(Steps(items), 2)
  {
    StepsAt(items, 0);
    StepsAt(items, 1);
    StepsAt(items, 2);
    assert Dir(items[0]).comps == [d] && Dir(items[1]).comps == [d, b] && Dir(items[2]).comps == [d];
    ResumedDirectoryIsSplit(Steps(items));
  }

  lemma {:induction false} KeptThree(keys: seq<string>, items: seq<Item>)
    requires |keys| == |items| == 3
    requires forall i :: 0 <= i < 3 ==> items[i].source == i && Judge(keys[i], "", None) == Kept(items[i].comps)
    ensures KeptItems(keys, "", None, 3) == items
  {
    assert KeptItems(keys, "", None, 0) == [];
    assert KeptItems(keys, "", None, 1) == [items[0]];
    assert KeptItems(keys, "", None, 2) == [items[0], items[1]];
  }

  lemma SortedThree(items: seq<Item>)
    requires |items| == 3 && ItemLe(items[0], items[1]) && ItemLe(items[1], items[2])
    ensures Sort(ItemLe, items) == items
  {
    assert items == [items[0], items[1], items[2]];
    assert items[1..] == [items[1], items[2]] && items[1..][1..] == [items[2]] && items[1..][1..][1..] == [];
    assert Sort(ItemLe, [items[2]]) == [items[2]];
    assert Sort(ItemLe, [items[1], items[2]]) == [items[1], items[2]];
  }

  lemma JudgeKept(key: string, comps: Path)
    requires Split(key, '/') == comps && forall i :: 0 <= i < |comps| ==> !UnsafeComponent(comps[i])
    ensures Judge(key, "", None) == Kept(comps)
  {
  }

  lemma JudgePair(d: string, name: string)
    requires PlainName(d) && PlainName(name)
    ensures Judge(d + ['/'] + name, "", None) == Kept([d, name])
  {
    SplitPair(d, name, '/');
    JudgeKept(d + ['/'] + name, [d, name]);
  }

  lemma JudgeTriple(d: string, b: string, name: string)
    requires PlainName(d) && PlainName(b) && PlainName(name)
    ensures Judge(d + ['/'] + (b + ['/'] + name), "", None) == Kept([d, b, name])
  {
    SplitPair(b, name, '/');
    SplitFirst(d, b + ['/'] + name, '/');
    JudgeKept(d + ['/'] + (b + ['/'] + name), [d, b, name]);
  }

  lemma LexSecond(first: string, a: string, b: string, rest: Path, rest': Path)
    requires a != b && StringLe(a, b)
    ensures [first, a] + rest != [first, b] + rest'
    ensures PathLe([first, a] + rest, [first, b] + rest')
  {
    var x, y := [first, a] + rest, [first, b] + rest';
    assert x[1] != y[1];
    assert x[1..] == [a] + rest && y[1..] == [b] + rest';
    assert Lex(StringLe, x[1..], y[1..]);
  }

  /** No key lies in a strict subdirectory of another key's directory. */
  ghost predicate Flat(items: seq<Item>) {
    forall i, j :: 0 <= i < |items| && 0 <= j < |items| ==> !(Dir(items[i]).comps < Dir(items[j]).comps)
  }

  /** A flat listing is planned directory by directory, each whole or not at all. */
  lemma {:induction false} FlatListingsKeepDirectoriesWhole(items: seq<Item>, maxSegments: Option<nat>, k: nat)
    requires Sorted(ItemLe, items) && Flat(items)
    requires forall i :: 0 <= i < |items| ==> |items[i].comps| >= 1
    requires StopsAt(Steps(items), maxSegments, k)
    ensures Whole(Steps(items), k)
  {
    forall i: nat, p: nat, m: nat, j: nat ensures !Interrupted(Steps(items), i, p, m, j) {
      FlatIsUninterrupted(items, i, p, m, j);
    }
    DirectoriesAreWholeIff(Steps(items));
  }

  lemma {:induction false} FlatIsUninterrupted(items: seq<Item>, i: nat, p: nat, m: nat, j: nat)
    requires Sorted(ItemLe, items) && Flat(items)
    requires forall i :: 0 <= i < |items| ==> |items[i].comps| >= 1
    ensures !Interrupted(Steps(items), i, p, m, j)
  {
    if Interrupted(Steps(items), i, p, m, j) {
      FlatNotInterrupted(items, i, m, j);
    }
  }

  lemma FlatNotInterrupted(items: seq<Item>, i: nat, m: nat, j: nat)
    requires Sorted(ItemLe, items) && Flat(items) && i < m < j < |items|
    requires |items[i].comps| >= 1 && |items[m].comps| >= 1 && |items[j].comps| >= 1
    requires Steps(items)[i].dir == Steps(items)[j].dir
    ensures Steps(items)[i].dir == Steps(items)[m].dir
  {
    StepsAt(items, i);
    StepsAt(items, m);
    StepsAt(items, j);
    if Dir(items[i]) != Dir(items[m]) {
      SortedSiblings(items, i, m, j);
    }
  }

  lemma SortedSiblings(items: seq<Item>, i: nat, m: nat, j: nat)
    requires Sorted(ItemLe, items) && i < m < j < |items|
    requires |items[i].comps| >= 1 && |items[m].comps| >= 1 && |items[j].comps| >= 1
    requires Dir(items[i]) == Dir(items[j]) != Dir(items[m])
    ensures Dir(items[i]).comps < Dir(items[m]).comps
  {
    assert ItemLe(items[i], items[m]) && ItemLe(items[m], items[j]);
    NothingBetweenSiblings(items[i].comps, items[m].comps, items[j].comps);
  }

  lemma NothingBetweenSiblings(a: Path, x: Path, b: Path)
    requires |a| >= 1 && |x| >= 1 && |b| >= 1 && PathLe(a, x) && PathLe(x, b)
    requires a[..|a| - 1] == b[..|b| - 1] != x[..|x| - 1]
    ensures a[..|a| - 1] < x[..|x| - 1]
  {
    var d := a[..|a| - 1];
    assert a == d + [a[|a| - 1]] && b == d + [b[|b| - 1]];
    BetweenSiblings(d, a[|a| - 1], b[|b| - 1], x);
    assert x[..|x| - 1][..|d|] == x[..|d|];
  }
}
