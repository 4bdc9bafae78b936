# AtCoder Eco Manager: the incremental sync, in Dafny

AtCoder Eco Manager mirrors a user's accepted AtCoder submissions into local
files. A run has two parts.

- **Planner** (`fetch_ac_submissions`): from the user's whole submission list,
  it keeps the newest accepted ("AC") submission of every problem. It then
  re-keys the kept submissions by `(contest_id, problem_id, id)`. Finally it
  advances a copy of the recorded checkpoint, a map from problem id to epoch
  second, and sets a dirty flag when anything was written into it.
- **Writer** (`create_files`): for every planned entry whose second differs
  from the recorded one, it fetches the submission's details. It writes
  `<sanitized title>.<extension>` with the source code, and
  `<sanitized title>.md` with a one-line Markdown link, into
  `./submissons/<contest>/<problem>`. At the end it saves the advanced
  checkpoint when the flag is set.

The model keeps the source's form:

- The planner's three loops (lines 118-122, 132-135 and 138-141) are `while`
  loops in `Planner.FetchAcSubmissions` and its three helper methods. Each
  loop is proved against a left fold that says what the dictionary or map
  holds after a prefix of the input.
- The writer's loop (lines 233-264), with its `continue`, is
  `Writer.CreateFiles`, proved against `Writer.CreateFilesSpec`.
- Python dicts remember insertion order, and `create_files` walks
  `latest_ac.items()` in that order. They are therefore modelled as
  `Dicts.Dict`: the keys in first-insertion order, together with a map.
- The file system is a map from path to contents, plus the checkpoint file,
  which is either missing or holds a map.
- The detail fetch is a function parameter that returns `Option<Detail>`.
- `modify_filename` is `Filenames.ModifyFilename`.
- `get_file_extension` is `Extensions.GetFileExtension`. It is a first-match
  scan over `Extensions.Table`, an ordered sequence of (pattern, extension)
  pairs. A pattern is a list of alternatives, optionally preceded by a word
  boundary. The scan is proved equal to a declarative `Matches` predicate,
  which says "the pattern occurs somewhere, ignoring case".

The main results:

- **Kept submission.** For every problem with an accepted submission, the
  planner keeps exactly the newest one, and on a tie the first in input
  order. Problems without an accepted submission are absent
  (`PlannerProperties.LatestAcByProblemCorrect`, `LatestAcCorrect`).
- **Checkpoint.** The checkpoint only moves forward, and the recorded map is
  untouched (`PlanCheckpoint`). The flag is set exactly when the checkpoint
  changed (`DirtyIffChanged`).
- **Second run.** A second plan from the advanced checkpoint is a no-op
  (`PlanIdempotent`).
- **Files.** Take a plan whose problem ids are distinct, non-empty and free
  of `/`. The writer leaves both files of every entry that is not skipped and
  whose details arrive, and touches no other path
  (`WriterProperties.CreateFilesWrites`, `SyncWritesNewest`).
- **Saved checkpoint.** After a run, the checkpoint file holds the advanced
  map (`CheckpointAfterSync`).

The modules are:

- `Wrappers`: `Option`.
- `Dicts`: insertion-ordered dictionaries.
- `Filenames`: `modify_filename`.
- `Extensions`: the table and the lookup.
- `ExtensionExamples`: worked lookups.
- `Planner` and `PlannerProperties`.
- `Writer` and `WriterProperties`.
- `SyncExample`: a first run from an empty disk.

## Model

| member | source | states |
|---|---|---|
| Dicts.Dict.Put | atcoder_eco_manager.py:121-122 | `d[k] = v`: the map gets `k := v`; an existing key keeps its place, a new key is appended; the dict stays well formed |
| Dicts.Dict.Values | atcoder_eco_manager.py:125 | `list(d.values())` lists the values in key-insertion order |
| Dicts.Dict.Items | atcoder_eco_manager.py:138 | `d.items()` lists the (key, value) pairs in key-insertion order |
| Dicts.Empty | atcoder_eco_manager.py:117 | `{}` is a well-formed dict with no keys |
| Filenames.ModifyFilename | atcoder_eco_manager.py:206 | the result has the input's length; each of the nine reserved characters (backslash, slash, colon, star, question mark, double quote, angle brackets, vertical bar) becomes `_` and every other character is kept; no reserved character remains; a name without reserved characters is returned unchanged |
| Filenames.ModifyFilenameIdempotent | atcoder_eco_manager.py:206 | sanitizing twice gives the same name as sanitizing once |
| Filenames.ModifyFilenameExample | atcoder_eco_manager.py:206 | `A:B/C*D` becomes `A_B_C_D` |
| Extensions.ExtensionFrom | atcoder_eco_manager.py:218-221 | the scan from entry `i` gives None exactly when no later key is found by the search; otherwise it gives the extension of an entry whose key is found |
| Extensions.GetFileExtension | atcoder_eco_manager.py:218-221 | `get_file_extension`: None exactly when the search finds no key of the table; otherwise the extension of a table entry whose key it finds (the first such entry, by `GetFileExtensionSpec`) |
| Extensions.SearchDecides | atcoder_eco_manager.py:219 | the character scan finds a key exactly when the key occurs in the language name, ignoring case, at a position that satisfies the key's `\b` if it has one |
| Extensions.ExtensionFromSpec | atcoder_eco_manager.py:218-221 | the scan from entry `i` returns None only when no later entry matches; otherwise it returns the extension of the first entry from `i` on that matches |
| Extensions.GetFileExtensionSpec | atcoder_eco_manager.py:218-221 | None exactly when no table entry matches; otherwise the extension of the first matching entry in table order |
| Extensions.TableShape | atcoder_eco_manager.py:28-60 | `EXTENSIONS` (the constant `Extensions.Table`) has 30 entries; the repeated key `Perl` appears once, at its first position, mapping to `pl`; the last key `C` maps to `.c` |
| Extensions.TableExtensionsPlain | atcoder_eco_manager.py:28-60 | no extension in the table contains `/` or equals `md` |
| ExtensionExamples.MissingCharacter | atcoder_eco_manager.py:219 | a single-literal key cannot match a name that lacks one of the key's characters, in either case, from the needed position on |
| ExtensionExamples.ExampleCpp | atcoder_eco_manager.py:218-221 | `C++ (GCC 9.2.1)` gives `cpp` |
| ExtensionExamples.PythonMisses | atcoder_eco_manager.py:29-37 | none of the nine keys before the Python alternation matches `Python (3.8.2)` |
| ExtensionExamples.ExamplePython | atcoder_eco_manager.py:218-221 | `Python (3.8.2)` gives `py` |
| ExtensionExamples.Perl6Misses | atcoder_eco_manager.py:29-35 | none of the seven keys before `Perl` matches `Perl6` |
| ExtensionExamples.ExamplePerl6 | atcoder_eco_manager.py:218-221 | `Perl6` gives `pl`, because `Perl` comes before `Perl6` in the table |
| Planner.NeedsUpdate | atcoder_eco_manager.py:139 | the test holds exactly when the problem is not recorded or the entry's second is strictly greater than the recorded one; the default `0` of `get` never decides it |
| Planner.LatestAcByProblem | atcoder_eco_manager.py:117-122 | every kept submission is accepted and is stored under its own problem id |
| Planner.ByKey | atcoder_eco_manager.py:132-135 | every submission is stored under its own `(contest_id, problem_id, id)` |
| Planner.LatestAc | atcoder_eco_manager.py:125-135 | `latest_ac` is a well-formed dict |
| Planner.FetchAcSubmissions | atcoder_eco_manager.py:116-145 | returns `latest_ac` and `(recorded, latest, should_update)` as given by `PlanOf`, the composition of the three passes |
| Planner.KeepLatestAc | atcoder_eco_manager.py:117-122 | the first loop fills `ac_submissions` as the fold `LatestAcByProblem` |
| Planner.KeyByIds | atcoder_eco_manager.py:132-135 | the second loop fills `latest_ac` as the fold `ByKey` |
| Planner.AdvanceCheckpoint | atcoder_eco_manager.py:138-141 | the third loop advances the copied checkpoint as `Advanced`; the flag is set exactly when some entry passes the test of line 139 |
| PlannerProperties.NewestFirstUnique | atcoder_eco_manager.py:121 | at most one submission per problem is the newest one (first on a tie) |
| PlannerProperties.KeepsNewestStep | atcoder_eco_manager.py:118-122 | the loop body keeps "every kept submission is its problem's newest-first one, and every accepted problem is kept" |
| PlannerProperties.LatestAcByProblemCorrect | atcoder_eco_manager.py:118-122 | a problem is kept exactly when it has an accepted submission; the kept one is accepted, no accepted submission of its problem is newer, and every earlier one is strictly older (so the first wins a tie) |
| PlannerProperties.KeepsNewestHolds | atcoder_eco_manager.py:118-122 | after the first loop every kept submission is its problem's newest-first one and every accepted problem is kept |
| PlannerProperties.LatestAcByProblemDistinct | atcoder_eco_manager.py:125 | the listed values belong to pairwise distinct problems |
| PlannerProperties.ByKeyDistinct | atcoder_eco_manager.py:132-135 | over submissions of distinct problems, the second loop keeps every one, in order, each under its own key |
| PlannerProperties.LatestAcHasNewest | atcoder_eco_manager.py:125-135 | the newest-first accepted submission of every problem is in `latest_ac` under its own key |
| PlannerProperties.LatestAcOnlyNewest | atcoder_eco_manager.py:125-135 | every entry of `latest_ac` is the newest-first accepted submission of its problem |
| PlannerProperties.LatestAcOneKeyPerProblem | atcoder_eco_manager.py:125-135 | no two keys of `latest_ac` share a problem id |
| PlannerProperties.LatestAcCorrect | atcoder_eco_manager.py:125-135 | `latest_ac` holds exactly the newest-first accepted submission of every problem, each under its own key, and no two keys share a problem id |
| PlannerProperties.AdvancedMonotone | atcoder_eco_manager.py:138-141 | the advanced checkpoint's keys are the recorded ones plus the planned problems; no recorded value decreases; a written key was new or strictly increased |
| PlannerProperties.AdvancedUntouched | atcoder_eco_manager.py:138-141 | a recorded problem that is not planned keeps its value |
| PlannerProperties.AdvancedNoUpdate | atcoder_eco_manager.py:138-141 | when no entry passes the test, the checkpoint is unchanged |
| PlannerProperties.AdvancedEntry | atcoder_eco_manager.py:138-141 | for entries of distinct problems, each planned problem ends with its entry's second when the test passes, and with its recorded second otherwise |
| PlannerProperties.DirtyIffChanged | atcoder_eco_manager.py:139-144 | the flag is set if and only if the advanced checkpoint differs from the recorded one |
| PlannerProperties.LatestAcItemsDistinct | atcoder_eco_manager.py:138 | the items of `latest_ac` belong to distinct problems |
| PlannerProperties.PlanCheckpoint | atcoder_eco_manager.py:128-144 | the recorded map is returned unchanged; the advanced map keeps every recorded key without lowering it, adds only planned problems, gives each planned problem its second exactly when the test passes, and keeps the value of every other key; the flag is set exactly when some entry passes the test |
| PlannerProperties.CheckpointIsMaximum | atcoder_eco_manager.py:128-141 | for every problem with an accepted submission, the advanced checkpoint holds the larger of its recorded second and its newest accepted second, or the latter alone when the problem was not recorded |
| PlannerProperties.PlanIdempotent | atcoder_eco_manager.py:116-145 | planning again with the advanced checkpoint as the recorded one gives the same `latest_ac` and checkpoint, with the flag clear |
| PlannerProperties.LatestAcSingle | atcoder_eco_manager.py:117-135 | one accepted submission yields a one-entry `latest_ac` under its own key |
| PlannerProperties.AdvancedSingle | atcoder_eco_manager.py:138-141 | one entry advances the checkpoint exactly when it passes the test |
| PlannerProperties.PlanOfSingle | atcoder_eco_manager.py:116-145 | the whole plan for one accepted submission |
| PlannerProperties.ExampleAlreadyRecorded | atcoder_eco_manager.py:139 | a problem recorded at its newest second changes nothing and leaves the flag clear |
| PlannerProperties.ExampleFresh | atcoder_eco_manager.py:139-141 | a problem missing from an empty checkpoint is added with its second, and the flag is set |
| Writer.LoadRecordedTimestamp | atcoder_eco_manager.py:66-80 | the other files are untouched and afterwards the checkpoint file exists holding the returned map; an existing file's map is returned as it is; a missing file yields `{}` |
| Writer.SaveRecordedTimestamp | atcoder_eco_manager.py:82-91 | the checkpoint file is overwritten with the whole given map; no other file changes |
| Writer.Directory | atcoder_eco_manager.py:246 | the directory is `./submissons/<contest>` followed by `/` and the problem id as its last segment |
| Writer.SourceName | atcoder_eco_manager.py:253 | the source name is the title sanitized character by character, a `.`, and the extension token (`None` when the lookup fails) |
| Writer.NoteName | atcoder_eco_manager.py:259 | the note name is the title sanitized character by character followed by `.md` |
| Writer.NoteContent | atcoder_eco_manager.py:261 | the note is `Link : [`, the sanitized title, `](`, the problem URL and `)` |
| Writer.Skips | atcoder_eco_manager.py:236 | a skipped entry is never one that the test of line 139 writes into the checkpoint |
| Writer.WriteEntry | atcoder_eco_manager.py:236-264 | one loop body: skip when the recorded second equals the entry's, skip when the fetch fails, else write the source file and the note under the problem's directory |
| Writer.CreateFiles | atcoder_eco_manager.py:233-268 | the disk afterwards is `CreateFilesSpec`: every entry applied in `latest_ac` order, and the checkpoint saved when the flag is set |
| WriterProperties.SkipVersusUpdate | atcoder_eco_manager.py:236 | an entry the planner writes into the checkpoint is never skipped; the entries neither skipped nor written are exactly those older than their recorded second |
| WriterProperties.LoadAfterSave | atcoder_eco_manager.py:66-91 | loading after a save returns the saved map and changes nothing |
| WriterProperties.LoadTwice | atcoder_eco_manager.py:73-80 | loading leaves the file holding the loaded map; a missing file loads as `{}`; a second load is the same |
| WriterProperties.CheckpointAfterSync | atcoder_eco_manager.py:266-268 | after a run that loaded the checkpoint, the checkpoint file holds the advanced map, whether the flag was set or not |
| WriterProperties.EntryApplyElsewhere | atcoder_eco_manager.py:253-264 | an entry writes only its two paths |
| WriterProperties.WrittenElsewhere | atcoder_eco_manager.py:233-264 | a path that no entry writes keeps its contents, or its absence |
| WriterProperties.JoinAppends | atcoder_eco_manager.py:253 | `os.path.join` with a relative name appends it after one separator |
| WriterProperties.NamesPlain | atcoder_eco_manager.py:250-259 | the source and note names are non-empty and contain no separator |
| WriterProperties.SourceIsNotNote | atcoder_eco_manager.py:253-259 | the source path differs from the note path when the extension is not `md` |
| WriterProperties.EntryApplyHolds | atcoder_eco_manager.py:246-264 | after an entry that is not skipped and whose details arrive, the directory holds the source code verbatim and the note `Link : [<sanitized title>](<url>)` |
| WriterProperties.WrittenHolds | atcoder_eco_manager.py:233-264 | an entry's files survive the entries after it when those write other paths |
| WriterProperties.SplitLastSlash | atcoder_eco_manager.py:253 | a path splits uniquely at its last separator |
| WriterProperties.EntryPathShape | atcoder_eco_manager.py:246-259 | every path an entry writes is a plain name inside `./submissons/<contest>/<problem>` |
| WriterProperties.EntryPathsDisjoint | atcoder_eco_manager.py:246-259 | entries of different problems write disjoint paths |
| WriterProperties.GetFileExtensionPlain | atcoder_eco_manager.py:243 | the extension token is never `md` and has no separator |
| WriterProperties.CreateFilesWrites | atcoder_eco_manager.py:233-268 | every entry that is not skipped and whose details arrive leaves its source code and its note in its problem's directory; no other path changes; the checkpoint file holds the advanced map exactly when the flag is set |
| WriterProperties.SyncWritesNewest | atcoder_eco_manager.py:271-272 | for submissions whose problem ids are non-empty and contain no `/`, a full run writes the newest-first accepted submission of every problem, unless the recorded second equals its own or its details do not arrive |
| WriterProperties.FailedFetchRecorded | atcoder_eco_manager.py:236-268 | an entry whose fetch fails writes no file; when the planner wrote its problem into the checkpoint, the saved checkpoint holds its second and a later run from it skips the entry |
| WriterProperties.SecondRunSkips | atcoder_eco_manager.py:236 | a second run from the saved checkpoint skips every entry, except the entries older than the second that was recorded before the first run |
| SyncExample.TitleKept | atcoder_eco_manager.py:206 | `A - Sample` is a valid file name as it stands |
| SyncExample.SingleWritten | atcoder_eco_manager.py:236-264 | from no files and an empty checkpoint, one entry whose details arrive leaves exactly its source file and its note |
| SyncExample.SingleSync | atcoder_eco_manager.py:233-268 | a first run from an empty disk over one accepted submission whose details arrive leaves exactly its two files and the checkpoint `{problem: second}` |
| SyncExample.SampleNames | atcoder_eco_manager.py:253-261 | for the title `A - Sample`, the names are `A - Sample.py` and `A - Sample.md` and the note links the title itself |
| SyncExample.FirstSync | atcoder_eco_manager.py:233-268 | from an empty disk, one accepted submission of `abc100_a` at second 1000, in a language that maps to `py`, writes `A - Sample.py` with the code and `A - Sample.md` with the link under `./submissons/abc100/abc100_a`; the checkpoint becomes `{"abc100_a": 1000}` |

## Left out

- Network access is not modelled: the HTTP session, `raise_for_status`, the
  request-error handlers and the `time.sleep` delay. The submission list and
  the detail fetch are parameters.
- `fetch_submission_info`'s HTML scraping with BeautifulSoup is a foreign
  library. Its result is the `Detail` that the fetch parameter returns.
- JSON encoding and decoding of the checkpoint file is not modelled. The file
  holds the map itself.
- `os.makedirs` is not modelled. Directories are implied by the paths of a
  map-shaped file system.
- The crash on a failed fetch is not reproduced: at line 250 the source
  subscripts `None`. The model skips the entry instead; the
  `Writer.CreateFiles` line below says what that changes for the checkpoint.
- The `ATCODER_USERNAME` lookup and the `__main__` driver are not modelled.
  `WriterProperties.SyncWritesNewest` and `CheckpointAfterSync` compose the
  two calls the driver makes.
- Extensions.Matches: only the shapes that the table uses are modelled:
  literals, alternations of literals, and a leading `\b`. General regular
  expressions are not.
- Extensions.Fold: `re.IGNORECASE` is modelled as ASCII case folding, and
  `\w` as ASCII letters, digits and `_`. Python's Unicode rules are not
  modelled.
- Extensions.Table: the dict literal lists `"Perl"` twice. The table holds it
  once, at its first position, as Python builds the dict.
- Extensions.Table: the last entry maps `C` to `.c` as written, so such
  files end in `..c`.
- Writer.SourceName: when the lookup fails, the extension renders as the
  text `None`, as the f-string does. No fallback extension is modelled.
- Writer.NoteContent: the model follows the code, so the link text is the
  sanitized title, not the raw title.
- Writer.CreateFiles: on a failed fetch the source raises at line 250, so
  lines 267-268 never run, the checkpoint is not saved, and the next run
  fetches the entry again. The model instead skips the entry and goes on. It
  still saves the whole advanced map when the flag is set, so a problem whose
  fetch failed is recorded and skipped by every later run
  (`WriterProperties.FailedFetchRecorded`). A per-problem transactional
  checkpoint is not modelled.
- WriterProperties.CreateFilesWrites and WriterProperties.SyncWritesNewest:
  stated only for plans whose problem ids are distinct and contain no `/`. The planner guarantees distinct ids
  (`LatestAcCorrect`). With a `/` in an id, two entries could write the same
  path (problem `a/b` of contest `c` and problem `b` of contest `c/a` share a
  directory), and the lemmas do not say which one wins.
- Writer.Join: `os.path.join` is modelled as on POSIX, with `/` as the
  separator, and paths are compared as strings, so `.`, `..` and repeated
  separators are not resolved. Windows separators and the newline
  translation of text-mode writes are not modelled.
- Filenames.ModifyFilename: the docstring of `modify_filename` (line 199)
  says it also shortens the file name, but the code at line 206 only
  replaces characters. The model follows the code and keeps the length.
- SyncExample.FirstSync: the language is any name that the table maps to
  `py`, not the literal `Python (3.8.2)`. `ExtensionExamples.ExamplePython`
  shows that this name qualifies.
