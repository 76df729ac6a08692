/** The upload of one segment's files into its directory of local deep storage, entry by entry. */
module DeepStorage {

  import opened Common
  import opened SegmentIdentity
  import Attach

  /** `Other` is anything that is no regular file: a symlink, a directory, a special file. */
  datatype Entry = Regular(content: string) | Other

  type Entries = map<string, Entry>

  datatype Source = Folder(entries: Entries) | SingleFile(content: string)

  const SINGLE_FILE_NAME := "segment.bin"

  /** The regular files of a directory. */
  function Regulars(entries: Entries): Attach.Files {
    map name | name in entries && entries[name].Regular? :: entries[name].content
  }

  /** What is uploaded: subdirectories and the like are skipped. */
  function Staged(src: Source): Attach.Files {
    match src
    case Folder(entries) => Regulars(entries)
    case SingleFile(content) => map[SINGLE_FILE_NAME := content]
  }

  // ----- What an upload may show ----------------------------------------------------------

  predicate Present(entries: Entries, files: Attach.Files, name: string) {
    name in files && name in entries && entries[name] == Regular(files[name])
  }

  predicate Complete(entries: Entries, files: Attach.Files) {
    forall name :: name in files ==> Present(entries, files, name)
  }

  /** The directory holds these files and nothing else. */
  predicate Exactly(entries: Entries, files: Attach.Files) {
    entries.Keys == files.Keys && Complete(entries, files)
  }

  /** While files are copied, nothing else changes. */
  predicate Copying(before: Entries, files: Attach.Files, now: Entries) {
    before - files.Keys == now - files.Keys
  }

  /** Other entries are only pruned once all files are complete. */
  predicate Pruning(before: Entries, files: Attach.Files, now: Entries) {
    && Complete(now, files)
    && forall name :: name in now && name !in files ==> name in before && now[name] == before[name]
  }

  predicate Transitional(before: Entries, files: Attach.Files, now: Entries) {
    Copying(before, files, now) || Pruning(before, files, now)
  }

  predicate AllTransitional(before: Entries, files: Attach.Files, states: seq<Entries>) {
    forall i :: 0 <= i < |states| ==> Transitional(before, files, states[i])
  }

  lemma CopiedMayBePruned(before: Entries, files: Attach.Files, now: Entries)
    requires Copying(before, files, now) && Complete(now, files)
    ensures Pruning(before, files, now)
  {
    forall name | name in now && name !in files ensures name in before && now[name] == before[name] {
      assert name in now - files.Keys;
    }
  }

  lemma PutKeepsOthers(before: Entries, files: Attach.Files, now: Entries, name: string, entry: Entry)
    requires Copying(before, files, now) && name in files
    ensures Copying(before, files, now[name := entry])
  {
    assert now[name := entry] - files.Keys == now - files.Keys;
  }

  lemma RemoveKeepsOthers(before: Entries, files: Attach.Files, now: Entries, name: string)
    requires Copying(before, files, now) && name in files
    ensures Copying(before, files, now - {name})
  {
    assert (now - {name}) - files.Keys == now - files.Keys;
  }

  lemma ExactlyStaged(entries: Entries, src: Source)
    requires Exactly(entries, Staged(src))
    ensures match src
            case SingleFile(content) => entries == map["segment.bin" := Regular(content)]
            case Folder(sources) =>
              && (forall name :: name in entries <==> name in sources && sources[name].Regular?)
              && (forall name :: name in entries ==> entries[name] == sources[name])
  {
    forall name | name in entries ensures Present(entries, Staged(src), name) {
      assert name in Staged(src);
    }
  }

  /** A destination directory, with every content it has had since the last upload began. */
  class Directory {
    var entries: Entries
    ghost var trail: seq<Entries>

    constructor (entries: Entries)
      ensures this.entries == entries && trail == [entries]
    {
      this.entries, trail := entries, [entries];
    }

    method Put(name: string, content: string)
      modifies this
      ensures entries == old(entries)[name := Regular(content)]
      ensures trail == old(trail) + [entries]
    {
      entries := entries[name := Regular(content)];
      trail := trail + [entries];
    }

    method Remove(name: string)
      modifies this
      ensures entries == old(entries) - {name}
      ensures trail == old(trail) + [entries]
    {
      entries := entries - {name};
      trail := trail + [entries];
    }

    /** A link or a directory under the name is replaced, not written through; the file then goes
        through the contents of a copy in progress. */
    method CopyFile(name: string, torn: seq<string>, files: Attach.Files, ghost before: Entries)
      requires name in files && Copying(before, files, entries) && AllTransitional(before, files, trail)
      modifies this
      ensures entries == old(entries)[name := Regular(files[name])]
      ensures Copying(before, files, entries) && AllTransitional(before, files, trail)
      ensures |trail| > |old(trail)| && trail[..|old(trail)|] == old(trail) && trail[|trail| - 1] == entries
    {
      if name in entries && entries[name].Other? {
        RemoveKeepsOthers(before, files, entries, name);
        Remove(name);
      }
      for i := 0 to |torn|
        invariant entries.Keys + {name} == old(entries).Keys + {name}
        invariant forall other :: other in entries && other != name ==> entries[other] == old(entries)[other]
        invariant Copying(before, files, entries) && AllTransitional(before, files, trail)
        invariant |trail| >= |old(trail)| && trail[..|old(trail)|] == old(trail)
      {
        PutKeepsOthers(before, files, entries, name, Regular(torn[i]));
        Put(name, torn[i]);
      }
      PutKeepsOthers(before, files, entries, name, Regular(files[name]));
      Put(name, files[name]);
    }

    /** Copies every regular file, in any order. */
    method CopyAll(src: Source, torn: string -> seq<string>) returns (written: set<string>)
      requires trail == [entries]
      modifies this
      ensures written == Staged(src).Keys && Complete(entries, Staged(src))
      ensures Copying(old(entries), Staged(src), entries) && AllTransitional(old(entries), Staged(src), trail)
      ensures trail != [] && trail[0] == old(entries) && trail[|trail| - 1] == entries
    {
      ghost var before := entries;
      var files := Staged(src);
      match src
      case Folder(sources) =>
        var rest := sources.Keys;
        written := {};
        while rest != {}
          invariant rest <= sources.Keys && written == files.Keys - rest
          invariant forall name :: name in written ==> Present(entries, files, name)
          invariant Copying(before, files, entries) && AllTransitional(before, files, trail)
          invariant trail != [] && trail[0] == before && trail[|trail| - 1] == entries
          decreases rest
        {
          var name :| name in rest;
          if sources[name].Regular? {
            CopyFile(name, torn(name), files, before);
            written := written + {name};
          }
          rest := rest - {name};
        }
      case SingleFile(_) =>
        CopyFile(SINGLE_FILE_NAME, torn(SINGLE_FILE_NAME), files, before);
        written := {SINGLE_FILE_NAME};
    }

    /** Removes every entry, of whatever kind, that this upload did not write. */
    method Prune(written: set<string>, ghost before: Entries, ghost files: Attach.Files)
      requires written == files.Keys && Pruning(before, files, entries) && AllTransitional(before, files, trail)
      requires trail != [] && trail[|trail| - 1] == entries
      modifies this
      ensures Exactly(entries, files) && AllTransitional(before, files, trail)
      ensures |trail| >= |old(trail)| && trail[..|old(trail)|] == old(trail) && trail[|trail| - 1] == entries
    {
      var rest := entries.Keys;
      while rest != {}
        invariant rest <= entries.Keys <= rest + written
        invariant Pruning(before, files, entries) && AllTransitional(before, files, trail)
        invariant |trail| >= |old(trail)| && trail[..|old(trail)|] == old(trail) && trail[|trail| - 1] == entries
        decreases rest
      {
        var name :| name in rest;
        if name !in written {
          Remove(name);
        }
        rest := rest - {name};
      }
    }

    /** From any prior content the directory ends with exactly the staged files. */
    method Upload(src: Source, torn: string -> seq<string>)
      modifies this
      ensures Exactly(entries, Staged(src))
      ensures match src
              case SingleFile(content) => entries == map["segment.bin" := Regular(content)]
              case Folder(sources) =>
                && (forall name :: name in entries <==> name in sources && sources[name].Regular?)
                && (forall name :: name in entries ==> entries[name] == sources[name])
      ensures AllTransitional(old(entries), Staged(src), trail)
      ensures trail != [] && trail[0] == old(entries) && trail[|trail| - 1] == entries
    {
      trail := [entries];
      ghost var before := entries;
      var written := CopyAll(src, torn);
      CopiedMayBePruned(before, Staged(src), entries);
      Prune(written, before, Staged(src));
      ExactlyStaged(entries, src);
    }
  }

  // ----- As durable writes ----------------------------------------------------------------

  /** The contents of the blob along a history of its directory. */
  function Contents(states: seq<Entries>): (s: seq<Attach.Files>)
    ensures |s| == |states| && forall i :: 0 <= i < |s| ==> s[i] == Regulars(states[i])
  {
    seq(|states|, i requires 0 <= i < |states| => Regulars(states[i]))
  }

  lemma {:induction false} PutAllConcat(ident: SegmentIdent, xs: seq<Attach.Files>, ys: seq<Attach.Files>)
    ensures Attach.PutAll(ident, xs + ys) == Attach.PutAll(ident, xs) + Attach.PutAll(ident, ys)
  {
    if xs == [] {
      assert xs + ys == ys;
    } else {
      assert (xs + ys)[1..] == xs[1..] + ys;
      PutAllConcat(ident, xs[1..], ys);
    }
  }

  /** The states of a finished upload are the writes of a successful one, before its row. */
  lemma UploadIsPublished(env: Attach.Env, ident: SegmentIdent, files: Attach.Files,
                          states: seq<Entries>, io: Attach.Io)
    requires states != [] && Exactly(states[|states| - 1], files)
    requires io.uploadOk && io.partials == Contents(states[..|states| - 1])
    ensures var puts := Attach.PutAll(ident, Contents(states));
      Attach.Publish(env, ident, files, io) ==
        if !io.row.Refused? then puts + [Attach.CommitRow(ident, env.hash(files))] else puts
  {
    assert Regulars(states[|states| - 1]) == files;
    assert Contents(states) == io.partials + [files];
    PutAllConcat(ident, io.partials, [files]);
  }

  /** The states before an upload fails are the writes of a failed one, and begin those of a finished one. */
  lemma BrokenUploadIsPublished(env: Attach.Env, ident: SegmentIdent, files: Attach.Files,
                                states: seq<Entries>, n: nat, io: Attach.Io)
    requires n <= |states| && !io.uploadOk && io.partials == Contents(states[..n])
    ensures var puts := Attach.PutAll(ident, Contents(states));
      n <= |puts| && Attach.Publish(env, ident, files, io) == puts[..n]
  {
    assert Contents(states) == io.partials + Contents(states[n..]);
    PutAllConcat(ident, io.partials, Contents(states[n..]));
    PutAllLength(ident, io.partials);
  }

  lemma {:induction false} PutAllLength(ident: SegmentIdent, contents: seq<Attach.Files>)
    ensures |Attach.PutAll(ident, contents)| == |contents|
  {
    if contents != [] {
      PutAllLength(ident, contents[1..]);
    }
  }
}
