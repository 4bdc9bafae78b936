/**
 * What the writer promises: an entry is skipped exactly when the recorded
 * checkpoint holds its epoch second; every other entry whose details arrive
 * leaves its source file and its note in its problem's directory; no other
 * file changes; and the checkpoint file ends up holding the advanced map.
 */
module WriterProperties {
  import opened Wrappers
  import opened Dicts
  import opened Planner
  import opened PlannerProperties
  import opened Filenames
  import opened Extensions
  import opened Writer

  // ---------------------------------------------------------------------
  // Skipping, against the planner's test

  /**
   * Line 236 against line 139: an entry the planner writes into the checkpoint
   * is never skipped, a skipped entry is never written into it, and the entries
   * that are neither are exactly those older than their recorded second.
   */
  lemma SkipVersusUpdate(recorded: map<string, int>, k: Key, s: Submission)
    ensures NeedsUpdate(recorded, k, s) ==> !Skips(recorded, k, s)
    ensures !Skips(recorded, k, s) && !NeedsUpdate(recorded, k, s) <==>
      k.problemId in recorded && s.epochSecond < recorded[k.problemId]
  {
  }

  // ---------------------------------------------------------------------
  // The checkpoint file

  /** Loading after saving returns the saved map and leaves the disk as saved. */
  lemma LoadAfterSave(disk: Disk, latest: map<string, int>)
    ensures LoadRecordedTimestamp(SaveRecordedTimestamp(disk, latest)) == (SaveRecordedTimestamp(disk, latest), latest)
  {
  }

  /** A missing checkpoint file loads as `{}` and is created; loading again changes nothing. */
  lemma LoadTwice(disk: Disk)
    ensures LoadRecordedTimestamp(disk).0.checkpoint == Some(LoadRecordedTimestamp(disk).1)
    ensures disk.checkpoint.None? ==> LoadRecordedTimestamp(disk).1 == map[]
    ensures LoadRecordedTimestamp(LoadRecordedTimestamp(disk).0) == LoadRecordedTimestamp(disk)
  {
  }

  /**
   * Lines 128 and 266-268 with the planner: when the checkpoint file holds the
   * map the planner was given, after the writer it holds the advanced map,
   * whether or not the flag was set.
   */
  lemma CheckpointAfterSync(subs: seq<Submission>, fetch: (string, int) -> Option<Detail>, disk: Disk)
    ensures var (latestAc, info) := PlanOf(subs, LoadRecordedTimestamp(disk).1);
      CreateFilesSpec(latestAc, info, fetch, LoadRecordedTimestamp(disk).0).checkpoint == Some(info.latest)
  {
    var recorded := LoadRecordedTimestamp(disk).1;
    DirtyIffChanged(recorded, LatestAc(subs).Items());
  }

  // ---------------------------------------------------------------------
  // Files

  type Fetch = (string, int) -> Option<Detail>
  type Lookup = string -> Option<string>

  /** The paths an entry writes. */
  function EntryPaths(recorded: map<string, int>, fetch: Fetch, extensionOf: Lookup, k: Key, s: Submission): set<string>
  {
    if Skips(recorded, k, s) then {}
    else match fetch(k.contestId, k.id)
      case None => {}
      case Some(d) =>
        {Join(Directory(k.contestId, k.problemId), SourceName(d.problemTitle, extensionOf(s.language))),
         Join(Directory(k.contestId, k.problemId), NoteName(d.problemTitle))}
  }

  /**
   * `files` holds what the entry writes: its source code in
   * `<directory>/<sanitized title>.<extension>` and its note in
   * `<directory>/<sanitized title>.md`.
   */
  ghost predicate HoldsEntry(files: map<string, string>, recorded: map<string, int>, fetch: Fetch, extensionOf: Lookup,
                             k: Key, s: Submission)
  {
    !Skips(recorded, k, s) && fetch(k.contestId, k.id).Some? ==>
      var d := fetch(k.contestId, k.id).value;
      var dir := Directory(k.contestId, k.problemId);
      Join(dir, SourceName(d.problemTitle, extensionOf(s.language))) in files &&
      files[Join(dir, SourceName(d.problemTitle, extensionOf(s.language)))] == d.sourceCode &&
      Join(dir, NoteName(d.problemTitle)) in files &&
      files[Join(dir, NoteName(d.problemTitle))] == NoteContent(d)
  }

  /** The lookup yields no extension text with a separator, and none equal to "md". */
  ghost predicate PlainExtensions(extensionOf: Lookup)
  {
    forall language :: '/' !in ExtToken(extensionOf(language)) && ExtToken(extensionOf(language)) != "md"
  }

  /** A problem id names one directory level: it is not empty and holds no separator. */
  predicate PlainProblemId(p: string)
  {
    p != [] && '/' !in p
  }

  /** A path an entry does not write keeps its contents (or its absence). */
  lemma EntryApplyElsewhere(files: map<string, string>, recorded: map<string, int>, fetch: Fetch, extensionOf: Lookup,
                            k: Key, s: Submission, path: string)
    requires path !in EntryPaths(recorded, fetch, extensionOf, k, s)
    ensures path in EntryApply(files, recorded, fetch, extensionOf, k, s) <==> path in files
    ensures path in files ==> EntryApply(files, recorded, fetch, extensionOf, k, s)[path] == files[path]
  {
  }

  /** A path that no entry writes keeps its contents (or its absence). */
  lemma {:induction false} WrittenElsewhere(files: map<string, string>, recorded: map<string, int>, fetch: Fetch,
                                            extensionOf: Lookup, items: seq<(Key, Submission)>, path: string)
    requires forall i :: 0 <= i < |items| ==> path !in EntryPaths(recorded, fetch, extensionOf, items[i].0, items[i].1)
    ensures path in Written(files, recorded, fetch, extensionOf, items) <==> path in files
    ensures path in files ==> Written(files, recorded, fetch, extensionOf, items)[path] == files[path]
  {
    if items != [] {
      var n := |items| - 1;
      WrittenElsewhere(files, recorded, fetch, extensionOf, items[..n], path);
      EntryApplyElsewhere(Written(files, recorded, fetch, extensionOf, items[..n]), recorded, fetch, extensionOf,
        items[n].0, items[n].1, path);
    }
  }

  /** Joining a directory with a name that does not start with a separator appends the name. */
  lemma JoinAppends(dir: string, name: string)
    requires name != [] && name[0] != '/'
    ensures Join(dir, name) == (if dir == [] || dir[|dir| - 1] == '/' then dir else dir + "/") + name
  {
  }

  /** Entry file names never start with a separator and never contain one. */
  lemma NamesPlain(title: string, extension: Option<string>)
    requires '/' !in ExtToken(extension)
    ensures SourceName(title, extension) != [] && SourceName(title, extension)[0] != '/' && '/' !in SourceName(title, extension)
    ensures NoteName(title) != [] && NoteName(title)[0] != '/' && '/' !in NoteName(title)
  {
    var t := ModifyFilename(title);
    assert '/' !in t;
    assert SourceName(title, extension) == t + ("." + ExtToken(extension));
    assert NoteName(title) == t + ".md";
  }

  /** The source file and the note of an entry are two different files. */
  lemma SourceIsNotNote(dir: string, title: string, extension: Option<string>)
    requires '/' !in ExtToken(extension) && ExtToken(extension) != "md"
    ensures Join(dir, SourceName(title, extension)) != Join(dir, NoteName(title))
  {
    var t := ModifyFilename(title);
    var source := SourceName(title, extension);
    var note := NoteName(title);
    assert source[|t| + 1..] == ExtToken(extension) && note[|t| + 1..] == "md";
    NamesPlain(title, extension);
    JoinAppends(dir, source);
    JoinAppends(dir, note);
    var prefix := if dir == [] || dir[|dir| - 1] == '/' then dir else dir + "/";
    assert (prefix + source)[|prefix|..] == source;
    assert (prefix + note)[|prefix|..] == note;
  }

  /** An entry's own writes leave its files holding its code and note. */
  lemma EntryApplyHolds(files: map<string, string>, recorded: map<string, int>, fetch: Fetch, extensionOf: Lookup,
                        k: Key, s: Submission)
    requires PlainExtensions(extensionOf)
    ensures HoldsEntry(EntryApply(files, recorded, fetch, extensionOf, k, s), recorded, fetch, extensionOf, k, s)
  {
    if !Skips(recorded, k, s) && fetch(k.contestId, k.id).Some? {
      var d := fetch(k.contestId, k.id).value;
      SourceIsNotNote(Directory(k.contestId, k.problemId), d.problemTitle, extensionOf(s.language));
    }
  }

  /**
   * The files an entry wrote still hold its code and note after later entries
   * that write other paths.
   */
  lemma {:induction false} WrittenHolds(files: map<string, string>, recorded: map<string, int>, fetch: Fetch,
                                        extensionOf: Lookup, items: seq<(Key, Submission)>, i: int)
    requires PlainExtensions(extensionOf)
    requires 0 <= i < |items|
    requires forall j :: i < j < |items| ==>
      EntryPaths(recorded, fetch, extensionOf, items[j].0, items[j].1) !! EntryPaths(recorded, fetch, extensionOf, items[i].0, items[i].1)
    ensures HoldsEntry(Written(files, recorded, fetch, extensionOf, items), recorded, fetch, extensionOf, items[i].0, items[i].1)
  {
    var n := |items| - 1;
    var before := Written(files, recorded, fetch, extensionOf, items[..n]);
    if i == n {
      EntryApplyHolds(before, recorded, fetch, extensionOf, items[i].0, items[i].1);
    } else {
      assert items[..n][i] == items[i];
      assert forall j :: i < j < n ==> items[..n][j] == items[j];
      WrittenHolds(files, recorded, fetch, extensionOf, items[..n], i);
      var (k, s) := items[i];
      if !Skips(recorded, k, s) && fetch(k.contestId, k.id).Some? {
        var d := fetch(k.contestId, k.id).value;
        var dir := Directory(k.contestId, k.problemId);
        EntryApplyElsewhere(before, recorded, fetch, extensionOf, items[n].0, items[n].1,
          Join(dir, SourceName(d.problemTitle, extensionOf(s.language))));
        EntryApplyElsewhere(before, recorded, fetch, extensionOf, items[n].0, items[n].1, Join(dir, NoteName(d.problemTitle)));
      }
    }
  }

  /** A string with one separator before a separator-free tail splits there in one way only. */
  lemma SplitLastSlash(a1: string, n1: string, a2: string, n2: string)
    requires '/' !in n1 && '/' !in n2
    requires a1 + "/" + n1 == a2 + "/" + n2
    ensures a1 == a2 && n1 == n2
  {
    var s := a1 + "/" + n1;
    assert |n1| == |n2| by {
      assert s[|a1|] == '/' && s[|a2|] == '/';
    }
    assert a1 == s[..|a1|] && a2 == s[..|a2|];
    assert n1 == s[|a1| + 1..] && n2 == s[|a2| + 1..];
  }

  /** Every path an entry writes is its directory, a separator, and a separator-free name. */
  lemma EntryPathShape(recorded: map<string, int>, fetch: Fetch, extensionOf: Lookup, k: Key, s: Submission, path: string)
    requires PlainExtensions(extensionOf) && PlainProblemId(k.problemId)
    requires path in EntryPaths(recorded, fetch, extensionOf, k, s)
    ensures exists name :: '/' !in name && path == Directory(k.contestId, k.problemId) + "/" + name
  {
    var d := fetch(k.contestId, k.id).value;
    var dir := Directory(k.contestId, k.problemId);
    var ext := extensionOf(s.language);
    NamesPlain(d.problemTitle, ext);
    JoinAppends(dir, SourceName(d.problemTitle, ext));
    JoinAppends(dir, NoteName(d.problemTitle));
    assert dir[|dir| - 1] == k.problemId[|k.problemId| - 1];
  }

  /** Entries of different problems write different files. */
  lemma EntryPathsDisjoint(recorded: map<string, int>, fetch: Fetch, extensionOf: Lookup,
                           k1: Key, s1: Submission, k2: Key, s2: Submission)
    requires PlainExtensions(extensionOf) && PlainProblemId(k1.problemId) && PlainProblemId(k2.problemId)
    requires k1.problemId != k2.problemId
    ensures EntryPaths(recorded, fetch, extensionOf, k1, s1) !! EntryPaths(recorded, fetch, extensionOf, k2, s2)
  {
    forall path | path in EntryPaths(recorded, fetch, extensionOf, k1, s1)
      ensures path !in EntryPaths(recorded, fetch, extensionOf, k2, s2)
    {
      if path in EntryPaths(recorded, fetch, extensionOf, k2, s2) {
        EntryPathShape(recorded, fetch, extensionOf, k1, s1, path);
        EntryPathShape(recorded, fetch, extensionOf, k2, s2, path);
        var name1 :| '/' !in name1 && path == Directory(k1.contestId, k1.problemId) + "/" + name1;
        var name2 :| '/' !in name2 && path == Directory(k2.contestId, k2.problemId) + "/" + name2;
        SplitLastSlash(Directory(k1.contestId, k1.problemId), name1, Directory(k2.contestId, k2.problemId), name2);
        SplitLastSlash("./submissons/" + k1.contestId, k1.problemId, "./submissons/" + k2.contestId, k2.problemId);
      }
    }
  }

  /** `get_file_extension` yields plain extensions. */
  lemma GetFileExtensionPlain()
    ensures PlainExtensions(GetFileExtension)
  {
    forall language ensures '/' !in ExtToken(GetFileExtension(language)) && ExtToken(GetFileExtension(language)) != "md" {
      GetFileExtensionSpec(language);
      TableExtensionsPlain();
    }
  }

  /** No entry of the plan writes `path`. */
  ghost predicate Untouched(latestAc: Dict<Key, Submission>, recorded: map<string, int>, fetch: Fetch, path: string)
  {
    forall k :: k in latestAc.entries ==> path !in EntryPaths(recorded, fetch, GetFileExtension, k, latestAc.entries[k])
  }

  /**
   * Lines 233-268 over entries of distinct problems, each naming one directory
   * level: every entry that is not skipped and whose details arrive leaves its
   * source code and its note in its problem's directory; a path that no entry
   * writes keeps its contents; the checkpoint file is overwritten with the
   * advanced map exactly when the flag is set.
   */
  lemma CreateFilesWrites(latestAc: Dict<Key, Submission>, info: TimestampInfo, fetch: Fetch, disk: Disk)
    requires latestAc.Valid()
    requires forall k1, k2 :: k1 in latestAc.entries && k2 in latestAc.entries && k1.problemId == k2.problemId ==> k1 == k2
    requires forall k :: k in latestAc.entries ==> PlainProblemId(k.problemId)
    ensures forall k :: k in latestAc.entries ==>
      HoldsEntry(CreateFilesSpec(latestAc, info, fetch, disk).files, info.recorded, fetch, GetFileExtension, k, latestAc.entries[k])
    ensures forall path :: Untouched(latestAc, info.recorded, fetch, path) ==>
      (path in CreateFilesSpec(latestAc, info, fetch, disk).files <==> path in disk.files) &&
      (path in disk.files ==> CreateFilesSpec(latestAc, info, fetch, disk).files[path] == disk.files[path])
    ensures CreateFilesSpec(latestAc, info, fetch, disk).checkpoint == if info.shouldUpdate then Some(info.latest) else disk.checkpoint
  {
    var items := latestAc.Items();
    var out := CreateFilesSpec(latestAc, info, fetch, disk).files;
    GetFileExtensionPlain();
    forall k | k in latestAc.entries ensures HoldsEntry(out, info.recorded, fetch, GetFileExtension, k, latestAc.entries[k]) {
      var i :| 0 <= i < |latestAc.keys| && latestAc.keys[i] == k;
      forall j | i < j < |items|
        ensures EntryPaths(info.recorded, fetch, GetFileExtension, items[j].0, items[j].1) !!
                EntryPaths(info.recorded, fetch, GetFileExtension, items[i].0, items[i].1)
      {
        assert items[j].0 in latestAc.entries && items[j].0 != k;
        EntryPathsDisjoint(info.recorded, fetch, GetFileExtension, items[j].0, items[j].1, items[i].0, items[i].1);
      }
      WrittenHolds(disk.files, info.recorded, fetch, GetFileExtension, items, i);
    }
    forall path | Untouched(latestAc, info.recorded, fetch, path)
      ensures (path in out <==> path in disk.files) && (path in disk.files ==> out[path] == disk.files[path])
    {
      forall i | 0 <= i < |items| ensures path !in EntryPaths(info.recorded, fetch, GetFileExtension, items[i].0, items[i].1) {
        assert items[i].0 in latestAc.entries;
      }
      WrittenElsewhere(disk.files, info.recorded, fetch, GetFileExtension, items, path);
    }
  }

  // ---------------------------------------------------------------------
  // Planner and writer together

  /**
   * One run of the program over `subs` (lines 271-272): for every problem with
   * an accepted submission whose id names one directory level, the newest
   * (first on a tie) accepted submission is written, unless the recorded
   * checkpoint holds its exact second or its details do not arrive.
   */
  lemma SyncWritesNewest(subs: seq<Submission>, recorded: map<string, int>, fetch: Fetch, disk: Disk)
    requires forall j :: 0 <= j < |subs| && IsAc(subs[j]) ==> PlainProblemId(subs[j].problemId)
    ensures var (latestAc, info) := PlanOf(subs, recorded);
      forall j :: NewestFirst(subs, j) ==>
        HoldsEntry(CreateFilesSpec(latestAc, info, fetch, disk).files, recorded, fetch, GetFileExtension, KeyOf(subs[j]), subs[j])
  {
    var (latestAc, info) := PlanOf(subs, recorded);
    LatestAcCorrect(subs);
    forall k | k in latestAc.entries ensures PlainProblemId(k.problemId) {
      var j :| NewestFirst(subs, j) && latestAc.entries[k] == subs[j];
    }
    CreateFilesWrites(latestAc, info, fetch, disk);
  }

  /**
   * A second run over the same submissions, from the checkpoint the first run
   * saved, skips every planned entry except those older than the second
   * recorded before the first run: those are written again on every run.
   */
  lemma SecondRunSkips(subs: seq<Submission>, recorded: map<string, int>)
    ensures var (latestAc, info) := PlanOf(subs, recorded);
      forall k :: k in latestAc.entries ==>
        (Skips(info.latest, k, latestAc.entries[k]) <==>
         !(k.problemId in recorded && latestAc.entries[k].epochSecond < recorded[k.problemId]))
  {
    PlanCheckpoint(subs, recorded);
  }

  /**
   * An entry whose details do not arrive writes no file, yet when the planner
   * wrote its problem into the checkpoint, the saved checkpoint holds its
   * second, so every later run from that checkpoint skips it: a failed fetch is
   * recorded and not retried.
   */
  lemma FailedFetchRecorded(subs: seq<Submission>, fetch: Fetch, disk: Disk)
    ensures var (loaded, recorded) := LoadRecordedTimestamp(disk);
      var (latestAc, info) := PlanOf(subs, recorded);
      forall k :: k in latestAc.entries && fetch(k.contestId, k.id).None? && NeedsUpdate(recorded, k, latestAc.entries[k]) ==>
        EntryPaths(recorded, fetch, GetFileExtension, k, latestAc.entries[k]) == {} &&
        CreateFilesSpec(latestAc, info, fetch, loaded).checkpoint == Some(info.latest) &&
        Skips(info.latest, k, latestAc.entries[k])
  {
    var (loaded, recorded) := LoadRecordedTimestamp(disk);
    CheckpointAfterSync(subs, fetch, disk);
    PlanCheckpoint(subs, recorded);
  }
}
