/**
 * What the planner promises: one newest accepted submission per problem,
 * keyed by its own ids; a checkpoint that only moves forward; a dirty flag
 * that is set exactly when the checkpoint changed; and a second run over the
 * same submissions with the advanced checkpoint that finds nothing to do.
 */
module PlannerProperties {
  import opened Dicts
  import opened Planner

  /**
   * `subs[j]` is the submission the first loop keeps for its problem: it is
   * accepted, no accepted submission of the problem is newer, and every earlier
   * accepted one is strictly older.
   */
  ghost predicate NewestFirst(subs: seq<Submission>, j: int)
  {
    0 <= j < |subs| && IsAc(subs[j]) &&
    (forall k :: 0 <= k < |subs| && IsAc(subs[k]) && subs[k].problemId == subs[j].problemId ==>
      subs[k].epochSecond <= subs[j].epochSecond) &&
    (forall k :: 0 <= k < j && IsAc(subs[k]) && subs[k].problemId == subs[j].problemId ==>
      subs[k].epochSecond < subs[j].epochSecond)
  }

  /** Every kept submission is the newest-first one of its problem, and every accepted problem is kept. */
  ghost predicate KeepsNewest(subs: seq<Submission>, d: Dict<string, Submission>)
  {
    (forall p :: p in d.entries ==> exists j :: NewestFirst(subs, j) && d.entries[p] == subs[j]) &&
    (forall j :: 0 <= j < |subs| && IsAc(subs[j]) ==> subs[j].problemId in d.entries)
  }

  lemma NewestFirstUnique(subs: seq<Submission>, j1: int, j2: int)
    requires NewestFirst(subs, j1) && NewestFirst(subs, j2)
    requires subs[j1].problemId == subs[j2].problemId
    ensures j1 == j2
  {
  }

  /** A submission that is newest-first stays so when a submission that does not beat it is appended. */
  lemma NewestFirstKept(pre: seq<Submission>, s: Submission, j: int)
    requires NewestFirst(pre, j)
    requires IsAc(s) && s.problemId == pre[j].problemId ==> s.epochSecond <= pre[j].epochSecond
    ensures NewestFirst(pre + [s], j)
  {
    var subs := pre + [s];
    assert forall k :: 0 <= k < |pre| ==> subs[k] == pre[k];
  }

  /** An accepted submission strictly newer than all earlier ones of its problem is newest-first when appended. */
  lemma NewestFirstAppended(pre: seq<Submission>, s: Submission)
    requires IsAc(s)
    requires forall k :: 0 <= k < |pre| && IsAc(pre[k]) && pre[k].problemId == s.problemId ==> pre[k].epochSecond < s.epochSecond
    ensures NewestFirst(pre + [s], |pre|)
  {
    var subs := pre + [s];
    assert forall k :: 0 <= k < |pre| ==> subs[k] == pre[k];
  }

  /** The first loop's state after one more submission. */
  lemma LatestAcByProblemAppend(pre: seq<Submission>, s: Submission)
    ensures var acc := LatestAcByProblem(pre);
      LatestAcByProblem(pre + [s]) ==
        if IsAc(s) && (s.problemId !in acc.entries || s.epochSecond > acc.entries[s.problemId].epochSecond)
        then acc.Put(s.problemId, s) else acc
  {
    assert (pre + [s])[..|pre|] == pre;
  }

  /** The previous newest of `s`'s problem, if any, is strictly older than an `s` that replaces it. */
  lemma ReplacedIsOlder(pre: seq<Submission>, s: Submission)
    requires KeepsNewest(pre, LatestAcByProblem(pre))
    requires s.problemId in LatestAcByProblem(pre).entries ==>
      s.epochSecond > LatestAcByProblem(pre).entries[s.problemId].epochSecond
    ensures forall k :: 0 <= k < |pre| && IsAc(pre[k]) && pre[k].problemId == s.problemId ==>
      pre[k].epochSecond < s.epochSecond
  {
    var acc := LatestAcByProblem(pre);
    forall k | 0 <= k < |pre| && IsAc(pre[k]) && pre[k].problemId == s.problemId
      ensures pre[k].epochSecond < s.epochSecond
    {
      var j :| NewestFirst(pre, j) && acc.entries[s.problemId] == pre[j];
    }
  }

  /** An entry the step leaves alone is still the newest-first one of its problem. */
  lemma UntouchedIsNewest(pre: seq<Submission>, s: Submission, p: string)
    requires KeepsNewest(pre, LatestAcByProblem(pre))
    requires p in LatestAcByProblem(pre).entries
    requires IsAc(s) && p == s.problemId ==> s.epochSecond <= LatestAcByProblem(pre).entries[p].epochSecond
    ensures exists j :: NewestFirst(pre + [s], j) && LatestAcByProblem(pre).entries[p] == (pre + [s])[j]
  {
    var j :| NewestFirst(pre, j) && LatestAcByProblem(pre).entries[p] == pre[j];
    NewestFirstKept(pre, s, j);
    assert (pre + [s])[j] == pre[j];
  }

  /** After one more submission, the entry of problem `p` is still the newest-first one. */
  lemma KeptIsNewest(pre: seq<Submission>, s: Submission, p: string)
    requires KeepsNewest(pre, LatestAcByProblem(pre))
    requires p in LatestAcByProblem(pre + [s]).entries
    ensures exists j :: NewestFirst(pre + [s], j) && LatestAcByProblem(pre + [s]).entries[p] == (pre + [s])[j]
  {
    var acc := LatestAcByProblem(pre);
    LatestAcByProblemAppend(pre, s);
    if IsAc(s) && (s.problemId !in acc.entries || s.epochSecond > acc.entries[s.problemId].epochSecond) && p == s.problemId {
      ReplacedIsOlder(pre, s);
      NewestFirstAppended(pre, s);
      assert (pre + [s])[|pre|] == s;
    } else {
      UntouchedIsNewest(pre, s, p);
    }
  }

  /** One step of the first loop keeps `KeepsNewest`. */
  lemma KeepsNewestStep(pre: seq<Submission>, s: Submission)
    requires KeepsNewest(pre, LatestAcByProblem(pre))
    ensures KeepsNewest(pre + [s], LatestAcByProblem(pre + [s]))
  {
    var subs := pre + [s];
    var d := LatestAcByProblem(subs);
    LatestAcByProblemAppend(pre, s);
    forall p | p in d.entries ensures exists j :: NewestFirst(subs, j) && d.entries[p] == subs[j] {
      KeptIsNewest(pre, s, p);
    }
    forall j | 0 <= j < |subs| && IsAc(subs[j]) ensures subs[j].problemId in d.entries {
      if j < |pre| {
        assert subs[j] == pre[j];
      }
    }
  }

  /**
   * Lines 118-122: for every problem with an accepted submission the first loop
   * keeps exactly one, the newest, and the first of the newest on a tie; a
   * problem without an accepted submission is not kept.
   */
  lemma {:induction false} LatestAcByProblemCorrect(subs: seq<Submission>)
    ensures forall j :: NewestFirst(subs, j) ==>
      subs[j].problemId in LatestAcByProblem(subs).entries &&
      LatestAcByProblem(subs).entries[subs[j].problemId] == subs[j]
    ensures forall p :: p in LatestAcByProblem(subs).entries <==>
      exists j :: 0 <= j < |subs| && IsAc(subs[j]) && subs[j].problemId == p
    ensures forall p :: p in LatestAcByProblem(subs).entries ==>
      exists j :: NewestFirst(subs, j) && LatestAcByProblem(subs).entries[p] == subs[j]
  {
    KeepsNewestHolds(subs);
    var d := LatestAcByProblem(subs);
    forall j | NewestFirst(subs, j) ensures d.entries[subs[j].problemId] == subs[j] {
      var j' :| NewestFirst(subs, j') && d.entries[subs[j].problemId] == subs[j'];
      NewestFirstUnique(subs, j, j');
    }
  }

  lemma {:induction false} KeepsNewestHolds(subs: seq<Submission>)
    ensures KeepsNewest(subs, LatestAcByProblem(subs))
  {
    if subs != [] {
      var pre := subs[..|subs| - 1];
      KeepsNewestHolds(pre);
      KeepsNewestStep(pre, subs[|subs| - 1]);
      assert pre + [subs[|subs| - 1]] == subs;
    }
  }

  // ---------------------------------------------------------------------
  // Re-keying by (contest_id, problem_id, id)

  /** No two submissions of `vals` belong to the same problem. */
  ghost predicate DistinctProblems(vals: seq<Submission>)
  {
    forall i, j :: 0 <= i < j < |vals| ==> vals[i].problemId != vals[j].problemId
  }

  /** The values of the first loop's dictionary belong to distinct problems. */
  lemma LatestAcByProblemDistinct(subs: seq<Submission>)
    ensures DistinctProblems(LatestAcByProblem(subs).Values())
  {
    var d := LatestAcByProblem(subs);
    var vs := d.Values();
    forall i, j | 0 <= i < j < |vs| ensures vs[i].problemId != vs[j].problemId {
      assert vs[i].problemId == d.keys[i] && vs[j].problemId == d.keys[j];
    }
  }

  /** Re-keying submissions of distinct problems keeps each one, in order, under its own key. */
  lemma {:induction false} ByKeyDistinct(vals: seq<Submission>)
    requires DistinctProblems(vals)
    ensures |ByKey(vals).keys| == |vals|
    ensures forall i :: 0 <= i < |vals| ==>
      ByKey(vals).keys[i] == KeyOf(vals[i]) && ByKey(vals).entries[KeyOf(vals[i])] == vals[i]
  {
    if vals != [] {
      var n := |vals| - 1;
      var pre := vals[..n];
      assert forall i :: 0 <= i < n ==> pre[i] == vals[i];
      ByKeyDistinct(pre);
      var acc := ByKey(pre);
      assert KeyOf(vals[n]) !in acc.entries by {
        forall i | 0 <= i < n ensures acc.keys[i] != KeyOf(vals[n]) {
          assert acc.keys[i].problemId == vals[i].problemId;
        }
      }
    }
  }

  /** `latest_ac` lists the values of `ac_submissions`, in order, each under its own key. */
  lemma LatestAcShape(subs: seq<Submission>)
    ensures |LatestAc(subs).keys| == |LatestAcByProblem(subs).Values()|
    ensures forall i :: 0 <= i < |LatestAc(subs).keys| ==>
      LatestAc(subs).keys[i] == KeyOf(LatestAcByProblem(subs).Values()[i]) &&
      LatestAc(subs).entries[LatestAc(subs).keys[i]] == LatestAcByProblem(subs).Values()[i]
  {
    LatestAcByProblemDistinct(subs);
    ByKeyDistinct(LatestAcByProblem(subs).Values());
  }

  lemma LatestAcHasNewest(subs: seq<Submission>)
    ensures forall j :: NewestFirst(subs, j) ==>
      KeyOf(subs[j]) in LatestAc(subs).entries && LatestAc(subs).entries[KeyOf(subs[j])] == subs[j]
  {
    var byProblem := LatestAcByProblem(subs);
    var vals := byProblem.Values();
    LatestAcShape(subs);
    LatestAcByProblemCorrect(subs);
    forall j | NewestFirst(subs, j) ensures KeyOf(subs[j]) in LatestAc(subs).entries && LatestAc(subs).entries[KeyOf(subs[j])] == subs[j] {
      var i :| 0 <= i < |byProblem.keys| && byProblem.keys[i] == subs[j].problemId;
      assert vals[i] == subs[j];
    }
  }

  lemma LatestAcOnlyNewest(subs: seq<Submission>)
    ensures forall k :: k in LatestAc(subs).entries ==>
      exists j :: NewestFirst(subs, j) && LatestAc(subs).entries[k] == subs[j]
  {
    var byProblem := LatestAcByProblem(subs);
    var vals := byProblem.Values();
    var d := LatestAc(subs);
    LatestAcShape(subs);
    LatestAcByProblemCorrect(subs);
    forall k | k in d.entries ensures exists j :: NewestFirst(subs, j) && d.entries[k] == subs[j] {
      var i :| 0 <= i < |d.keys| && d.keys[i] == k;
      assert d.entries[k] == byProblem.entries[byProblem.keys[i]];
    }
  }

  lemma LatestAcOneKeyPerProblem(subs: seq<Submission>)
    ensures forall k1, k2 :: k1 in LatestAc(subs).entries && k2 in LatestAc(subs).entries && k1.problemId == k2.problemId ==> k1 == k2
  {
    var vals := LatestAcByProblem(subs).Values();
    var d := LatestAc(subs);
    LatestAcShape(subs);
    LatestAcByProblemDistinct(subs);
    forall k1, k2 | k1 in d.entries && k2 in d.entries && k1.problemId == k2.problemId ensures k1 == k2 {
      var i1 :| 0 <= i1 < |d.keys| && d.keys[i1] == k1;
      var i2 :| 0 <= i2 < |d.keys| && d.keys[i2] == k2;
      assert vals[i1].problemId == vals[i2].problemId;
    }
  }

  /**
   * Lines 125-135: `latest_ac` holds exactly the kept submissions, in the
   * order of `ac_submissions`, each under its own `(contest_id, problem_id, id)`;
   * every newest-first accepted submission is there, and no two entries share
   * a problem.
   */
  lemma LatestAcCorrect(subs: seq<Submission>)
    ensures LatestAc(subs).Values() == LatestAcByProblem(subs).Values()
    ensures forall k :: k in LatestAc(subs).entries ==> KeyOf(LatestAc(subs).entries[k]) == k
    ensures forall j :: NewestFirst(subs, j) ==>
      KeyOf(subs[j]) in LatestAc(subs).entries && LatestAc(subs).entries[KeyOf(subs[j])] == subs[j]
    ensures forall k :: k in LatestAc(subs).entries ==>
      exists j :: NewestFirst(subs, j) && LatestAc(subs).entries[k] == subs[j]
    ensures forall k1, k2 :: k1 in LatestAc(subs).entries && k2 in LatestAc(subs).entries && k1.problemId == k2.problemId ==> k1 == k2
  {
    LatestAcShape(subs);
    LatestAcHasNewest(subs);
    LatestAcOnlyNewest(subs);
    LatestAcOneKeyPerProblem(subs);
  }

  // ---------------------------------------------------------------------
  // The checkpoint and the dirty flag

  /** The third loop after one more item. */
  lemma AdvancedAppend(recorded: map<string, int>, items: seq<(Key, Submission)>, item: (Key, Submission))
    ensures Advanced(recorded, items + [item]) ==
      if NeedsUpdate(recorded, item.0, item.1) then Advanced(recorded, items)[item.0.problemId := item.1.epochSecond]
      else Advanced(recorded, items)
  {
    assert (items + [item])[..|items|] == items;
  }

  /**
   * The advanced checkpoint keeps every recorded key, never lowers a value,
   * adds exactly the problems of `items`, and a key that some item writes ends
   * up new or strictly greater than recorded.
   */
  lemma {:induction false} AdvancedMonotone(recorded: map<string, int>, items: seq<(Key, Submission)>)
    ensures forall p :: p in Advanced(recorded, items) <==>
      p in recorded || exists i :: 0 <= i < |items| && items[i].0.problemId == p
    ensures forall p :: p in recorded ==> recorded[p] <= Advanced(recorded, items)[p]
    ensures forall i :: 0 <= i < |items| && NeedsUpdate(recorded, items[i].0, items[i].1) ==>
      items[i].0.problemId !in recorded || Advanced(recorded, items)[items[i].0.problemId] > recorded[items[i].0.problemId]
  {
    if items != [] {
      var n := |items| - 1;
      var pre := items[..n];
      assert items == pre + [items[n]];
      assert forall i :: 0 <= i < n ==> pre[i] == items[i];
      AdvancedMonotone(recorded, pre);
      AdvancedAppend(recorded, pre, items[n]);
    }
  }

  /** A recorded key that no item mentions keeps its recorded value. */
  lemma {:induction false} AdvancedUntouched(recorded: map<string, int>, items: seq<(Key, Submission)>, p: string)
    requires p in recorded
    requires forall i :: 0 <= i < |items| ==> items[i].0.problemId != p
    ensures p in Advanced(recorded, items) && Advanced(recorded, items)[p] == recorded[p]
  {
    if items != [] {
      var n := |items| - 1;
      var pre := items[..n];
      assert items == pre + [items[n]];
      AdvancedUntouched(recorded, pre, p);
      AdvancedAppend(recorded, pre, items[n]);
    }
  }

  /** With no item written the checkpoint is the recorded one. */
  lemma {:induction false} AdvancedNoUpdate(recorded: map<string, int>, items: seq<(Key, Submission)>)
    requires !AnyUpdate(recorded, items)
    ensures Advanced(recorded, items) == recorded
  {
    if items != [] {
      var n := |items| - 1;
      var pre := items[..n];
      assert items == pre + [items[n]];
      assert !AnyUpdate(recorded, pre) by {
        assert forall i :: 0 <= i < n ==> pre[i] == items[i];
      }
      AdvancedNoUpdate(recorded, pre);
      AdvancedAppend(recorded, pre, items[n]);
    }
  }

  /** No two items belong to the same problem. */
  ghost predicate DistinctItems(items: seq<(Key, Submission)>)
  {
    forall i, j :: 0 <= i < j < |items| ==> items[i].0.problemId != items[j].0.problemId
  }

  /**
   * Lines 138-140: when the items belong to distinct problems, the checkpoint
   * entry of each item's problem is its epoch second when it is newer than the
   * recorded one or the problem is not recorded, and the recorded value otherwise.
   */
  lemma {:induction false} AdvancedEntry(recorded: map<string, int>, items: seq<(Key, Submission)>, i: int)
    requires DistinctItems(items)
    requires 0 <= i < |items|
    ensures items[i].0.problemId in Advanced(recorded, items)
    ensures Advanced(recorded, items)[items[i].0.problemId] ==
      if NeedsUpdate(recorded, items[i].0, items[i].1) then items[i].1.epochSecond else recorded[items[i].0.problemId]
  {
    var n := |items| - 1;
    var pre := items[..n];
    assert items == pre + [items[n]];
    AdvancedAppend(recorded, pre, items[n]);
    if i < n {
      assert pre[i] == items[i];
      assert DistinctItems(pre) by {
        assert forall a :: 0 <= a < n ==> pre[a] == items[a];
      }
      AdvancedEntry(recorded, pre, i);
    } else if !NeedsUpdate(recorded, items[i].0, items[i].1) {
      AdvancedUntouched(recorded, pre, items[i].0.problemId);
    }
  }

  /**
   * Lines 139-144: the dirty flag is set exactly when the advanced checkpoint
   * differs from the recorded one.
   */
  lemma DirtyIffChanged(recorded: map<string, int>, items: seq<(Key, Submission)>)
    ensures AnyUpdate(recorded, items) <==> Advanced(recorded, items) != recorded
  {
    if AnyUpdate(recorded, items) {
      var i :| 0 <= i < |items| && NeedsUpdate(recorded, items[i].0, items[i].1);
      AdvancedMonotone(recorded, items);
      var p := items[i].0.problemId;
      assert p in Advanced(recorded, items);
    } else {
      AdvancedNoUpdate(recorded, items);
    }
  }

  lemma LatestAcItemsDistinct(subs: seq<Submission>)
    ensures DistinctItems(LatestAc(subs).Items())
  {
    LatestAcShape(subs);
    LatestAcByProblemDistinct(subs);
  }

  /**
   * Lines 128-144 for a whole plan: the recorded checkpoint is returned
   * unchanged; the advanced one keeps every recorded key without lowering it,
   * adds only planned problems, sets each planned problem to its epoch second
   * exactly when the line-139 test holds, and keeps every other value; the flag
   * is set exactly when some planned entry passes that test.
   */
  lemma PlanCheckpoint(subs: seq<Submission>, recorded: map<string, int>)
    ensures PlanOf(subs, recorded).1.recorded == recorded
    ensures var (latestAc, info) := PlanOf(subs, recorded);
      forall p :: p in recorded ==> p in info.latest && recorded[p] <= info.latest[p]
    ensures var (latestAc, info) := PlanOf(subs, recorded);
      forall p :: p in info.latest ==> p in recorded || exists k :: k in latestAc.entries && k.problemId == p
    ensures var (latestAc, info) := PlanOf(subs, recorded);
      forall k :: k in latestAc.entries ==>
        k.problemId in info.latest &&
        info.latest[k.problemId] == if NeedsUpdate(recorded, k, latestAc.entries[k]) then latestAc.entries[k].epochSecond else recorded[k.problemId]
    ensures var (latestAc, info) := PlanOf(subs, recorded);
      forall p :: p in recorded && (forall k :: k in latestAc.entries ==> k.problemId != p) ==> info.latest[p] == recorded[p]
    ensures var (latestAc, info) := PlanOf(subs, recorded);
      info.shouldUpdate <==> exists k :: k in latestAc.entries && NeedsUpdate(recorded, k, latestAc.entries[k])
  {
    var latestAc := LatestAc(subs);
    var items := latestAc.Items();
    var latest := Advanced(recorded, items);
    AdvancedMonotone(recorded, items);
    LatestAcItemsDistinct(subs);
    forall p | p in latest ensures p in recorded || exists k :: k in latestAc.entries && k.problemId == p {
      if p !in recorded {
        var i :| 0 <= i < |items| && items[i].0.problemId == p;
        assert latestAc.keys[i] in latestAc.entries;
      }
    }
    forall k | k in latestAc.entries
      ensures k.problemId in latest &&
        latest[k.problemId] == if NeedsUpdate(recorded, k, latestAc.entries[k]) then latestAc.entries[k].epochSecond else recorded[k.problemId]
    {
      var i :| 0 <= i < |latestAc.keys| && latestAc.keys[i] == k;
      AdvancedEntry(recorded, items, i);
    }
    forall p | p in recorded && (forall k :: k in latestAc.entries ==> k.problemId != p) ensures latest[p] == recorded[p] {
      AdvancedUntouched(recorded, items, p);
    }
    if AnyUpdate(recorded, items) {
      var i :| 0 <= i < |items| && NeedsUpdate(recorded, items[i].0, items[i].1);
      assert latestAc.keys[i] in latestAc.entries;
    }
    if exists k :: k in latestAc.entries && NeedsUpdate(recorded, k, latestAc.entries[k]) {
      var k :| k in latestAc.entries && NeedsUpdate(recorded, k, latestAc.entries[k]);
      var i :| 0 <= i < |latestAc.keys| && latestAc.keys[i] == k;
      assert NeedsUpdate(recorded, items[i].0, items[i].1);
    }
  }

  /**
   * The advanced checkpoint holds, for every problem with an accepted
   * submission, the larger of its recorded second and its newest accepted
   * second (the newest one alone when the problem was not recorded).
   */
  lemma CheckpointIsMaximum(subs: seq<Submission>, recorded: map<string, int>, j: int)
    requires NewestFirst(subs, j)
    ensures var info := PlanOf(subs, recorded).1;
      var p := subs[j].problemId;
      p in info.latest &&
      info.latest[p] == if p in recorded && recorded[p] >= subs[j].epochSecond then recorded[p] else subs[j].epochSecond
  {
    LatestAcCorrect(subs);
    PlanCheckpoint(subs, recorded);
  }

  /**
   * Running the planner again over the same submissions, with the advanced
   * checkpoint as the recorded one, plans the same entries, leaves the
   * checkpoint as it is and does not set the flag.
   */
  lemma PlanIdempotent(subs: seq<Submission>, recorded: map<string, int>)
    ensures var (latestAc, info) := PlanOf(subs, recorded);
      PlanOf(subs, info.latest) == (latestAc, TimestampInfo(info.latest, info.latest, false))
  {
    var items := LatestAc(subs).Items();
    var latest := Advanced(recorded, items);
    LatestAcItemsDistinct(subs);
    forall i | 0 <= i < |items| ensures !NeedsUpdate(latest, items[i].0, items[i].1) {
      AdvancedEntry(recorded, items, i);
    }
    AdvancedNoUpdate(latest, items);
  }

  // ---------------------------------------------------------------------
  // Examples

  /** The newest-accepted dictionary of a single accepted submission. */
  lemma LatestAcSingle(s: Submission)
    requires IsAc(s)
    ensures LatestAc([s]) == Dict([KeyOf(s)], map[KeyOf(s) := s])
  {
    assert [s][..0] == [];
    assert LatestAcByProblem([]) == Empty();
    var d := LatestAcByProblem([s]);
    assert d.keys == [s.problemId] && d.entries == map[s.problemId := s];
    assert d.Values() == [s];
    assert [s][..0] == [];
    assert ByKey([]) == Empty();
  }

  /** The checkpoint step over a single entry. */
  lemma AdvancedSingle(recorded: map<string, int>, k: Key, s: Submission)
    ensures Advanced(recorded, [(k, s)]) ==
      if NeedsUpdate(recorded, k, s) then recorded[k.problemId := s.epochSecond] else recorded
    ensures AnyUpdate(recorded, [(k, s)]) == NeedsUpdate(recorded, k, s)
  {
    assert [(k, s)][..0] == [];
  }

  /** The plan for a single accepted submission. */
  lemma PlanOfSingle(s: Submission, recorded: map<string, int>)
    requires IsAc(s)
    ensures PlanOf([s], recorded) == (Dict([KeyOf(s)], map[KeyOf(s) := s]),
      TimestampInfo(recorded, if NeedsUpdate(recorded, KeyOf(s), s) then recorded[s.problemId := s.epochSecond] else recorded,
        NeedsUpdate(recorded, KeyOf(s), s)))
  {
    LatestAcSingle(s);
    var latestAc := Dict([KeyOf(s)], map[KeyOf(s) := s]);
    assert latestAc.Items() == [(KeyOf(s), s)];
    AdvancedSingle(recorded, KeyOf(s), s);
  }

  /** A problem recorded at the same second as its newest accepted submission changes nothing. */
  lemma ExampleAlreadyRecorded()
    ensures var s := Submission(1, "abc001", "abc", "AC", 100, "C++ (GCC 9.2.1)");
      var (latestAc, info) := PlanOf([s], map["abc" := 100]);
      latestAc.entries == map[KeyOf(s) := s] && info.latest == map["abc" := 100] && !info.shouldUpdate
  {
    PlanOfSingle(Submission(1, "abc001", "abc", "AC", 100, "C++ (GCC 9.2.1)"), map["abc" := 100]);
  }
  /** A problem missing from an empty checkpoint is added to it, and the flag is set. */
  lemma ExampleFresh()
    ensures var s := Submission(7, "xyz001", "xyz", "AC", 50, "Rust (1.42.0)");
      var (latestAc, info) := PlanOf([s], map[]);
      info.latest == map["xyz" := 50] && info.shouldUpdate
  {
    PlanOfSingle(Submission(7, "xyz001", "xyz", "AC", 50, "Rust (1.42.0)"), map[]);
  }
}
