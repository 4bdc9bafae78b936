/**
 * The sync planner: the body of `fetch_ac_submissions` after the submission
 * list has been fetched. It keeps the newest accepted submission of every
 * problem, re-keys those by (contest, problem, submission id), and advances a
 * copy of the recorded checkpoint (problem id to epoch second) with a flag
 * saying whether anything changed.
 */
module Planner {
  import opened Dicts

  datatype Submission = Submission(
    id: int, contestId: string, problemId: string, result: string, epochSecond: int, language: string)

  /** `(contest_id, problem_id, id)`. */
  datatype Key = Key(contestId: string, problemId: string, id: int)

  /** `(recorded_timestamp, latest_timestamp, should_update_timestamp)`. */
  datatype TimestampInfo = TimestampInfo(recorded: map<string, int>, latest: map<string, int>, shouldUpdate: bool)

  function KeyOf(s: Submission): Key
  {
    Key(s.contestId, s.problemId, s.id)
  }

  predicate IsAc(s: Submission)
  {
    s.result == "AC"
  }

  // ---------------------------------------------------------------------
  // The three passes as left folds over their input

  /** `ac_submissions` after the first loop has seen `subs`. */
  function LatestAcByProblem(subs: seq<Submission>): (d: Dict<string, Submission>)
    ensures d.Valid()
    ensures forall p :: p in d.entries ==> d.entries[p].problemId == p && IsAc(d.entries[p])
  {
    if subs == [] then Empty()
    else
      var acc := LatestAcByProblem(subs[..|subs| - 1]);
      var s := subs[|subs| - 1];
      if IsAc(s) && (s.problemId !in acc.entries || s.epochSecond > acc.entries[s.problemId].epochSecond)
      then acc.Put(s.problemId, s)
      else acc
  }

  /** `latest_ac` after the second loop has seen `vals`. */
  function ByKey(vals: seq<Submission>): (d: Dict<Key, Submission>)
    ensures d.Valid()
    ensures forall k :: k in d.entries ==> KeyOf(d.entries[k]) == k
  {
    if vals == [] then Empty()
    else
      var acc := ByKey(vals[..|vals| - 1]);
      var s := vals[|vals| - 1];
      if KeyOf(s) !in acc.entries || s.epochSecond > acc.entries[KeyOf(s)].epochSecond
      then acc.Put(KeyOf(s), s)
      else acc
  }

  /** The test of line 139: `recorded.get(problem_id, 0)` is older, or the problem is not recorded. */
  predicate NeedsUpdate(recorded: map<string, int>, k: Key, s: Submission): (b: bool)
    ensures b <==> k.problemId !in recorded || s.epochSecond > recorded[k.problemId]
  {
    s.epochSecond > (if k.problemId in recorded then recorded[k.problemId] else 0) || k.problemId !in recorded
  }

  /** `latest_timestamp` after the third loop has seen `items`, starting from a copy of `recorded`. */
  function Advanced(recorded: map<string, int>, items: seq<(Key, Submission)>): map<string, int>
  {
    if items == [] then recorded
    else
      var m := Advanced(recorded, items[..|items| - 1]);
      var (k, s) := items[|items| - 1];
      if NeedsUpdate(recorded, k, s) then m[k.problemId := s.epochSecond] else m
  }

  /** Some entry of `items` is written into the checkpoint. */
  predicate AnyUpdate(recorded: map<string, int>, items: seq<(Key, Submission)>)
  {
    exists i :: 0 <= i < |items| && NeedsUpdate(recorded, items[i].0, items[i].1)
  }

  /** `latest_ac`: the kept submissions keyed by their own ids. */
  function LatestAc(submissions: seq<Submission>): (d: Dict<Key, Submission>)
    ensures d.Valid()
  {
    ByKey(LatestAcByProblem(submissions).Values())
  }

  /** What the planner returns for a submission list and a recorded checkpoint. */
  function PlanOf(submissions: seq<Submission>, recorded: map<string, int>): (Dict<Key, Submission>, TimestampInfo)
  {
    var latestAc := LatestAc(submissions);
    var items := latestAc.Items();
    (latestAc, TimestampInfo(recorded, Advanced(recorded, items), AnyUpdate(recorded, items)))
  }

  // ---------------------------------------------------------------------
  // The planner

  /**
   * `fetch_ac_submissions` once `response.json()` has produced `submissions`
   * and `load_recorded_timestamp()` has produced `recorded`.
   */
  method FetchAcSubmissions(submissions: seq<Submission>, recorded: map<string, int>)
    returns (latestAc: Dict<Key, Submission>, info: TimestampInfo)
    ensures (latestAc, info) == PlanOf(submissions, recorded)
  {
    var acSubmissions := KeepLatestAc(submissions);
    var acList := acSubmissions.Values();
    latestAc := KeyByIds(acList);
    var items := latestAc.Items();
    // copy.deepcopy: the checkpoint is a value, so `recorded` cannot change
    var latestTimestamp, shouldUpdate := AdvanceCheckpoint(recorded, items);
    info := TimestampInfo(recorded, latestTimestamp, shouldUpdate);
  }

  /** Lines 117-122: the newest accepted submission of each problem, first seen on ties. */
  method KeepLatestAc(submissions: seq<Submission>) returns (acSubmissions: Dict<string, Submission>)
    ensures acSubmissions == LatestAcByProblem(submissions)
  {
    acSubmissions := Empty();
    var i := 0;
    while i < |submissions|
      invariant 0 <= i <= |submissions|
      invariant acSubmissions == LatestAcByProblem(submissions[..i])
    {
      var submission := submissions[i];
      if submission.result == "AC" {
        var problemId := submission.problemId;
        if problemId !in acSubmissions.entries || submission.epochSecond > acSubmissions.entries[problemId].epochSecond {
          acSubmissions := acSubmissions.Put(problemId, submission);
        }
      }
      assert submissions[..i + 1][..i] == submissions[..i];
      i := i + 1;
    }
    assert submissions[..i] == submissions;
  }

  /** Lines 132-135: the kept submissions keyed by `(contest_id, problem_id, id)`. */
  method KeyByIds(acList: seq<Submission>) returns (latestAc: Dict<Key, Submission>)
    ensures latestAc == ByKey(acList)
  {
    latestAc := Empty();
    var i := 0;
    while i < |acList|
      invariant 0 <= i <= |acList|
      invariant latestAc == ByKey(acList[..i])
    {
      var submission := acList[i];
      var key := Key(submission.contestId, submission.problemId, submission.id);
      if key !in latestAc.entries || submission.epochSecond > latestAc.entries[key].epochSecond {
        latestAc := latestAc.Put(key, submission);
      }
      assert acList[..i + 1][..i] == acList[..i];
      i := i + 1;
    }
    assert acList[..i] == acList;
  }

  /** Lines 138-141: a copy of `recorded` advanced by `items`, and whether any key was written. */
  method AdvanceCheckpoint(recorded: map<string, int>, items: seq<(Key, Submission)>)
    returns (latestTimestamp: map<string, int>, shouldUpdate: bool)
    ensures latestTimestamp == Advanced(recorded, items)
    ensures shouldUpdate == AnyUpdate(recorded, items)
  {
    latestTimestamp := recorded;
    shouldUpdate := false;
    var i := 0;
    while i < |items|
      invariant 0 <= i <= |items|
      invariant latestTimestamp == Advanced(recorded, items[..i])
      invariant shouldUpdate == AnyUpdate(recorded, items[..i])
    {
      var (key, val) := items[i];
      assert items[..i + 1][..i] == items[..i] && items[..i + 1][i] == items[i];
      if val.epochSecond > (if key.problemId in recorded then recorded[key.problemId] else 0) || key.problemId !in recorded {
        latestTimestamp := latestTimestamp[key.problemId := val.epochSecond];
        shouldUpdate := true;
      }
      i := i + 1;
    }
    assert items[..i] == items;
  }
}
