/**
 * One run of the program from an empty disk: a single accepted Python
 * submission is mirrored as a source file and a note, and the checkpoint
 * file records its second.
 */
module SyncExample {
  import opened Wrappers
  import opened Dicts
  import opened Planner
  import opened PlannerProperties
  import opened Filenames
  import opened Extensions
  import opened Writer

  const Url := "https://atcoder.jp/contests/abc100/tasks/abc100_a"

  /** A title without reserved characters is kept as it is. */
  lemma TitleKept(title: string)
    requires title == "A - Sample"
    ensures ModifyFilename(title) == title
  {
    assert forall i :: 0 <= i < |title| ==> !IsReserved(title[i]);
  }

  /**
   * A first run from an empty disk over one accepted submission whose details
   * arrive and whose language has an extension: the source and the note land in the problem's directory, and
   * the checkpoint file holds the submission's second.
   */
  lemma SingleSync(fetch: (string, int) -> Option<Detail>, s: Submission, d: Detail, ext: string)
    requires IsAc(s)
    requires fetch(s.contestId, s.id) == Some(d)
    requires GetFileExtension(s.language) == Some(ext)
    ensures var (disk, recorded) := LoadRecordedTimestamp(Disk(map[], None));
      var (latestAc, info) := PlanOf([s], recorded);
      var dir := Directory(s.contestId, s.problemId);
      CreateFilesSpec(latestAc, info, fetch, disk) == Disk(
        map[Join(dir, SourceName(d.problemTitle, Some(ext))) := d.sourceCode,
            Join(dir, NoteName(d.problemTitle)) := NoteContent(d)],
        Some(map[s.problemId := s.epochSecond]))
  {
    var (disk, recorded) := LoadRecordedTimestamp(Disk(map[], None));
    assert disk == Disk(map[], Some(map[])) && recorded == map[];
    PlanOfSingle(s, map[]);
    var latestAc := Dict([KeyOf(s)], map[KeyOf(s) := s]);
    var items := [(KeyOf(s), s)];
    assert latestAc.Items() == items;
    SingleWritten(fetch, s, d, ext);
  }

  /** The files the writer leaves for that single entry. */
  lemma SingleWritten(fetch: (string, int) -> Option<Detail>, s: Submission, d: Detail, ext: string)
    requires fetch(s.contestId, s.id) == Some(d)
    requires GetFileExtension(s.language) == Some(ext)
    ensures var dir := Directory(s.contestId, s.problemId);
      Written(map[], map[], fetch, GetFileExtension, [(KeyOf(s), s)]) ==
        map[Join(dir, SourceName(d.problemTitle, Some(ext))) := d.sourceCode, Join(dir, NoteName(d.problemTitle)) := NoteContent(d)]
  {
    var items := [(KeyOf(s), s)];
    assert items[..0] == [];
    assert !Skips(map[], KeyOf(s), s);
  }

  /** The names and the note of the example title. */
  lemma SampleNames(title: string)
    requires title == "A - Sample"
    ensures SourceName(title, Some("py")) == title + ".py"
    ensures NoteName(title) == title + ".md"
    ensures NoteContent(Detail("print(1)", title, Url)) == "Link : [" + title + "](" + Url + ")"
  {
    TitleKept(title);
  }

  /** The run, for any language name the table maps to "py" (such as "Python (3.8.2)", by
      `ExamplePython`): the source and the note of the one accepted problem land under its
      directory, and the checkpoint records its second. */
  lemma FirstSync(fetch: (string, int) -> Option<Detail>, language: string, title: string)
    requires title == "A - Sample"
    requires fetch("abc100", 12345) == Some(Detail("print(1)", title, Url))
    requires GetFileExtension(language) == Some("py")
    ensures var s := Submission(12345, "abc100", "abc100_a", "AC", 1000, language);
      var (disk, recorded) := LoadRecordedTimestamp(Disk(map[], None));
      var (latestAc, info) := PlanOf([s], recorded);
      var dir := Directory("abc100", "abc100_a");
      CreateFilesSpec(latestAc, info, fetch, disk) == Disk(
        map[Join(dir, title + ".py") := "print(1)",
            Join(dir, title + ".md") := "Link : [" + title + "](" + Url + ")"],
        Some(map["abc100_a" := 1000]))
  {
    SampleNames(title);
    SingleSync(fetch, Submission(12345, "abc100", "abc100_a", "AC", 1000, language), Detail("print(1)", title, Url), "py");
  }
}
