/**
 * The writer: `create_files`. For every planned entry that the recorded
 * checkpoint does not already cover at the same second, it fetches the
 * submission's details and writes the source file and a one-line Markdown
 * note into the problem's directory; at the end it saves the advanced
 * checkpoint when the planner said something changed.
 *
 * The file system is a map from path to contents, together with the
 * checkpoint file, which is either missing or holds a map. Fetching the
 * details is a function of `(contest_id, id)`; `None` stands for a fetch that
 * failed.
 */
module Writer {
  import opened Wrappers
  import opened Dicts
  import opened Planner
  import opened Filenames
  import opened Extensions

  /** What `fetch_submission_info` returns. */
  datatype Detail = Detail(sourceCode: string, problemTitle: string, problemUrl: string)

  datatype Disk = Disk(files: map<string, string>, checkpoint: Option<map<string, int>>)

  /** `load_recorded_timestamp`: the checkpoint file's map, creating the file with `{}` when it is missing. */
  function LoadRecordedTimestamp(disk: Disk): (r: (Disk, map<string, int>))
    ensures r.0.files == disk.files && r.0.checkpoint == Some(r.1)
    ensures disk.checkpoint.Some? ==> r.0 == disk && r.1 == disk.checkpoint.value
    ensures disk.checkpoint.None? ==> r.1 == map[]
  {
    match disk.checkpoint
    case Some(m) => (disk, m)
    case None => (disk.(checkpoint := Some(map[])), map[])
  }

  /** `save_recorded_timestamp`: the checkpoint file is overwritten with the whole map. */
  function SaveRecordedTimestamp(disk: Disk, latest: map<string, int>): (d: Disk)
    ensures d.files == disk.files && d.checkpoint == Some(latest)
  {
    disk.(checkpoint := Some(latest))
  }

  /** `f'./submissons/{contest_id}/{problem_id}'` (the directory name is spelt so). */
  function Directory(contestId: string, problemId: string): (d: string)
    ensures |d| == 14 + |contestId| + |problemId|
    ensures d[..|d| - |problemId| - 1] == "./submissons/" + contestId
    ensures d[|d| - |problemId| - 1..] == "/" + problemId
  {
    "./submissons/" + contestId + "/" + problemId
  }

  /** `os.path.join(dir, name)` on POSIX. */
  function Join(dir: string, name: string): string
  {
    if |name| > 0 && name[0] == '/' then name
    else if dir == [] || dir[|dir| - 1] == '/' then dir + name
    else dir + "/" + name
  }

  /** How an f-string renders the extension: `None` becomes the text "None". */
  function ExtToken(ext: Option<string>): string
  {
    match ext
    case Some(e) => e
    case None => "None"
  }

  /** `f"{problem_title}.{extension}"`. */
  function SourceName(title: string, extension: Option<string>): (n: string)
    ensures |n| == |title| + 1 + |ExtToken(extension)|
    ensures forall i :: 0 <= i < |title| ==> n[i] == Sanitize(title[i])
    ensures n[|title|] == '.' && n[|title| + 1..] == ExtToken(extension)
  {
    ModifyFilename(title) + "." + ExtToken(extension)
  }

  /** `f"{problem_title}.md"`. */
  function NoteName(title: string): (n: string)
    ensures |n| == |title| + 3
    ensures forall i :: 0 <= i < |title| ==> n[i] == Sanitize(title[i])
    ensures n[|title|..] == ".md"
  {
    ModifyFilename(title) + ".md"
  }

  /** `f"Link : [{problem_title}]({problem_url})"`, with the sanitized title. */
  function NoteContent(d: Detail): (c: string)
    ensures |c| == 8 + |d.problemTitle| + 2 + |d.problemUrl| + 1
    ensures c[..8] == "Link : ["
    ensures forall i :: 0 <= i < |d.problemTitle| ==> c[8 + i] == Sanitize(d.problemTitle[i])
    ensures c[8 + |d.problemTitle|..] == "](" + d.problemUrl + ")"
  {
    "Link : [" + ModifyFilename(d.problemTitle) + "](" + d.problemUrl + ")"
  }

  /** Line 236: the recorded checkpoint holds exactly this entry's epoch second for its problem. */
  predicate Skips(recorded: map<string, int>, k: Key, s: Submission): (b: bool)
    ensures b ==> !NeedsUpdate(recorded, k, s)
  {
    k.problemId in recorded && recorded[k.problemId] == s.epochSecond
  }

  /**
   * The two files written for an entry that is not skipped and whose details
   * were fetched; `extensionOf` is the extension lookup.
   */
  function EntryApply(files: map<string, string>, recorded: map<string, int>, fetch: (string, int) -> Option<Detail>,
                      extensionOf: string -> Option<string>, k: Key, s: Submission): map<string, string>
  {
    if Skips(recorded, k, s) then files
    else match fetch(k.contestId, k.id)
      case None => files
      case Some(d) =>
        var dir := Directory(k.contestId, k.problemId);
        files[Join(dir, SourceName(d.problemTitle, extensionOf(s.language))) := d.sourceCode]
             [Join(dir, NoteName(d.problemTitle)) := NoteContent(d)]
  }

  /** The files after the loop of lines 233-264 has seen `items`. */
  function Written(files: map<string, string>, recorded: map<string, int>, fetch: (string, int) -> Option<Detail>,
                   extensionOf: string -> Option<string>, items: seq<(Key, Submission)>): map<string, string>
  {
    if items == [] then files
    else
      var last := items[|items| - 1];
      EntryApply(Written(files, recorded, fetch, extensionOf, items[..|items| - 1]), recorded, fetch, extensionOf, last.0, last.1)
  }

  lemma WrittenAppend(files: map<string, string>, recorded: map<string, int>, fetch: (string, int) -> Option<Detail>,
                      extensionOf: string -> Option<string>, items: seq<(Key, Submission)>, i: int)
    requires 0 <= i < |items|
    ensures Written(files, recorded, fetch, extensionOf, items[..i + 1]) ==
      EntryApply(Written(files, recorded, fetch, extensionOf, items[..i]), recorded, fetch, extensionOf, items[i].0, items[i].1)
  {
    assert items[..i + 1][..i] == items[..i];
  }

  /** The disk after `create_files(latest_ac, info)`. */
  function CreateFilesSpec(latestAc: Dict<Key, Submission>, info: TimestampInfo,
                           fetch: (string, int) -> Option<Detail>, disk: Disk): Disk
    requires latestAc.Valid()
  {
    var files := Written(disk.files, info.recorded, fetch, GetFileExtension, latestAc.Items());
    Disk(files, if info.shouldUpdate then SaveRecordedTimestamp(disk, info.latest).checkpoint else disk.checkpoint)
  }

  /** One pass of the loop body of `create_files` (lines 236-264) for the entry `key`, `submission`. */
  method WriteEntry(files: map<string, string>, recorded: map<string, int>, fetch: (string, int) -> Option<Detail>,
                    key: Key, submission: Submission) returns (written: map<string, string>)
    ensures written == EntryApply(files, recorded, fetch, GetFileExtension, key, submission)
  {
    written := files;
    if key.problemId in recorded && recorded[key.problemId] == submission.epochSecond {
      return;
    }
    var submissionDetails := fetch(key.contestId, key.id);
    if submissionDetails.None? {
      return;
    }
    var details := submissionDetails.value;
    var extension := GetFileExtension(submission.language);
    var directory := "./submissons/" + key.contestId + "/" + key.problemId;
    var problemTitle := ModifyFilename(details.problemTitle);
    assert directory == Directory(key.contestId, key.problemId);
    var sourceFilename := Join(directory, problemTitle + "." + ExtToken(extension));
    assert sourceFilename == Join(directory, SourceName(details.problemTitle, extension));
    written := written[sourceFilename := details.sourceCode];
    var titleFilename := Join(directory, problemTitle + ".md");
    var titleContent := "Link : [" + problemTitle + "](" + details.problemUrl + ")";
    written := written[titleFilename := titleContent];
  }

  /** `create_files`. */
  method CreateFiles(latestAc: Dict<Key, Submission>, info: TimestampInfo,
                     fetch: (string, int) -> Option<Detail>, disk: Disk) returns (out: Disk)
    requires latestAc.Valid()
    ensures out == CreateFilesSpec(latestAc, info, fetch, disk)
  {
    var items := latestAc.Items();
    var files := disk.files;
    var i := 0;
    while i < |items|
      invariant 0 <= i <= |items|
      invariant files == Written(disk.files, info.recorded, fetch, GetFileExtension, items[..i])
    {
      var (key, submission) := items[i];
      WrittenAppend(disk.files, info.recorded, fetch, GetFileExtension, items, i);
      files := WriteEntry(files, info.recorded, fetch, key, submission);
      i := i + 1;
    }
    assert items[..i] == items;
    out := disk.(files := files);
    if info.shouldUpdate {
      out := SaveRecordedTimestamp(out, info.latest);
    }
  }
}
