# PET-NeuroProject: subject matching and BIDS sidecar merging, modelled in Dafny

This project models two pieces of the PET-NeuroProject pipeline and proves properties of them.

**The validation front end.** `src/Analysis/statistical_test.py` and `scripts/protocol_specific/05_statistical_analysis.py` both compare computed amyloid measures with the Centiloid Project reference values. Before any statistics, they do the following, and the model covers all of it:

- fail fast on a missing results file, an unreadable results file or an empty results table, then on a missing or unreadable reference file;
- strip whitespace from the reference table's column names;
- normalise both subject identifier columns in place (`astype(str).str.strip()`);
- inner-merge the computed rows with the reference rows on those identifiers;
- stop on an empty merge ("no matching subjects");
- take the computed and reference SUVR and Centiloid columns out of the merged frame.

**The sidecar merger.** `merge_jsons` in `src/pipeline/fix_bids_json.py` takes the first JSON sidecar as the base. When there are several sidecars, it appends the later files' `FrameDuration` and `FrameTimesStart` lists and skips later files it cannot read. It then fills in 25 required BIDS fields wherever they are missing, and writes the result.

Modules:

- `Options`: an option type.
- `PyText`: Python's `str.strip()`, which removes the characters for which `str.isspace()` holds, and `str()` of an integer.
- `Frames`:
  - cells, and tables as `read_csv` returns them (rectangular);
  - identifier normalisation and the header clean-up;
  - the `DataFrame` class whose column labels and columns the scripts reassign in place.
- `InnerJoin`: `pd.merge(..., how='inner')` on two key columns, and the suffix rule for names present on both sides.
- `StatisticalTest`: the run up to the correlation.
  - `Validate` is the specification function.
  - `RunValidation` is the step-by-step `main` over `DataFrame` objects, proved equal to it.
- `StatisticalAnalysisScript`: the stand-alone script's path choice (command-line argument or `all_subjects_results.csv`, with the reference fixed at `Centiloid_Project_Values.csv`) around the same front end.
- `FixBidsJson`:
  - JSON values, and the functions `Absorb`, `AbsorbAll`, `EnsureFrameLists`, `InjectDefaults` and `Merge` that specify `merge_jsons`;
  - the methods `AbsorbFile`, `AppendFrames`, `InjectMissing` and `MergeJsons`, which make the changes one step at a time and are proved equal to those functions.

**Join semantics follow the code.** The code calls `pd.merge(..., how='inner')`. That produces one merged row for every matching (computed row, reference row) pair, so a subject identifier that occurs more than once multiplies the rows (`InnerJoin.JoinPairs`, `InnerJoin.DuplicatesMultiply`). The code has no check on the number of matched subjects beyond the empty merge, and the model claims none.

**Missing columns are an outcome.** A column the code selects but the table lacks raises an uncaught `KeyError`, and the run ends with status 1. The model records this as the outcome `ColumnMissing(name)` rather than as a precondition. The names are tried in the code's order:

1. `subject_id`
2. `Subject`
3. `global_cortical_suvr`
4. `SUVR`
5. `global_cortical_centiloid`
6. `Centiloid`

A name that occurs twice, or that occurs in both merged tables (pandas then renames it with `_x`/`_y`), cannot be used as one column, and the run ends with status 1 in the same way. The merge itself can also fail when the renaming collides with an existing name; that exit is not modelled (see below). Every outcome other than `Analysed` is fatal (`Outcome.Fatal`). `Analysed` only means the run reached the correlation step; what happens after it is not modelled.

## Model

| member | source | states |
|---|---|---|
| PyText.Strip | src/Analysis/statistical_test.py:142-143 | the result has no whitespace at either end, and it is a contiguous piece of the input with only whitespace around it |
| PyText.StripCharacterised | src/Analysis/statistical_test.py:142-143 | `Strip(s)` is the one string that is trimmed and sits in `s` between two runs of whitespace (both directions) |
| PyText.StripUnique | src/Analysis/statistical_test.py:142-143 | whitespace before and after a trimmed text strips to exactly that text, so the interior is never changed |
| PyText.StripIdempotent | src/Analysis/statistical_test.py:142-143 | stripping twice equals stripping once |
| PyText.StripNoSpace | src/Analysis/statistical_test.py:142-143 | text without whitespace is left unchanged |
| PyText.IntText | src/Analysis/statistical_test.py:142 | `str()` of an integer contains no whitespace and starts with `-` exactly when the integer is negative |
| Frames.NormalizeId | src/Analysis/statistical_test.py:142-143 | a normalised identifier is trimmed and is `str(cell)` minus surrounding whitespace |
| Frames.NormalizeIdIdempotent | scripts/protocol_specific/05_statistical_analysis.py:86-87 | normalising an already normalised identifier changes nothing |
| Frames.NormalizeIntId | scripts/protocol_specific/05_statistical_analysis.py:86-87 | an integer identifier becomes its decimal text |
| Frames.PaddedIdsMeet | src/Analysis/statistical_test.py:142-143 | an identifier with whitespace around it and the same identifier without it normalise to the same key (e.g. `" sub-02 "` and `"sub-02"`) |
| Frames.ColumnIndex | src/Analysis/statistical_test.py:142-143 | `df[name]` selects a single column exactly when the name occurs once, and then at a position holding that name |
| Frames.StrippedNames | src/Analysis/statistical_test.py:125 | the header clean-up keeps the number and order of the names and strips each one |
| Frames.Normalized | src/Analysis/statistical_test.py:142-143 | only the identifier column changes; every row keeps its length and every other cell; each identifier cell becomes the normalised text |
| Frames.NormalizedKeys | src/Analysis/statistical_test.py:146 | after the in-place normalisation the merge keys are the normalised identifiers |
| Frames.DataFrame.StripColumnNames | scripts/protocol_specific/05_statistical_analysis.py:69 | the frame's labels become the stripped labels; its rows are unchanged |
| Frames.DataFrame.NormalizeIds | scripts/protocol_specific/05_statistical_analysis.py:86-87 | the frame becomes `Normalized` of its old contents and stays rectangular |
| InnerJoin.Matches | src/Analysis/statistical_test.py:146 | the positions whose key equals `k`, all of them and no others, in ascending order |
| InnerJoin.JoinPairs | src/Analysis/statistical_test.py:146 | a (left, right) pair is merged if and only if both rows exist and their keys are equal; pairs are ordered by left row, then by right row (the order pandas documents for `how='inner'` from version 2.2) |
| InnerJoin.JoinPairsCount | src/Analysis/statistical_test.py:146 | the merged row count is the sum, over left rows, of the number of right rows with the same key |
| InnerJoin.DuplicatesMultiply | src/Analysis/statistical_test.py:146 | two left rows and two right rows on one key give four merged rows (no "first match") |
| InnerJoin.UniqueKeysCount | src/Analysis/statistical_test.py:146 | with unique keys on each side, the merged row count equals the number of shared keys |
| InnerJoin.JoinPairsEmpty | src/Analysis/statistical_test.py:148 | the merge is empty exactly when no left key equals a right key |
| InnerJoin.JoinPairsNoRight | src/Analysis/statistical_test.py:146 | merging with an empty right table gives no rows |
| InnerJoin.MergedColumn | src/Analysis/statistical_test.py:161-168 | a merged-frame column is found only when its name is on one side and unique there; a name on both sides is suffixed and not found |
| StatisticalTest.Extract | src/Analysis/statistical_test.py:161-168 | the four columns are tried in the order computed SUVR, reference SUVR, computed Centiloid, reference Centiloid, and the run fails on the first one that cannot be selected (each failure named iff all earlier lookups succeed and that one does not); otherwise it yields four columns, each with one cell per merged row taken from that row |
| StatisticalTest.Compare | src/Analysis/statistical_test.py:142-146 | the computed table's `subject_id` column is looked up before the reference table's `Subject` column: each is reported missing exactly when it is absent and every earlier lookup succeeded |
| StatisticalTest.Validate | src/Analysis/statistical_test.py:84-151 | a missing, unreadable or empty results table gives those outcomes whatever the reference; an analysed run had two readable tables and a non-empty merge |
| StatisticalTest.ResultsCheckedFirst | src/Analysis/statistical_test.py:84-102 | a missing, unreadable or empty results table is a fatal outcome (exit status 1) whatever the reference file holds |
| StatisticalTest.ReferenceChecked | src/Analysis/statistical_test.py:113-128 | with a usable results table, a missing or unreadable reference file is a fatal outcome (exit status 1) |
| StatisticalTest.ValidateReachesCompare | src/Analysis/statistical_test.py:121-146 | past the file checks, the run compares the results table with the reference table after the header clean-up |
| StatisticalTest.MatchedIsJoin | src/Analysis/statistical_test.py:142-146 | a pair is merged if and only if the two rows' normalised identifiers are equal |
| StatisticalTest.CompareOutcome | src/Analysis/statistical_test.py:146-151 | the run ends in "no matching subjects" exactly when the merge is empty; otherwise it reports exactly the merge's pairs |
| StatisticalTest.EmptyMergeIffNoSharedId | src/Analysis/statistical_test.py:146-151 | the merge is empty if and only if no computed identifier equals a reference identifier |
| StatisticalTest.NoMatchIffNoSharedId | src/Analysis/statistical_test.py:148-151 | the "no matching subjects" exit (status 1) happens if and only if no computed identifier equals a reference identifier |
| StatisticalTest.MergeIsInnerJoin | src/Analysis/statistical_test.py:146 | in an analysed run, a (computed row, reference row) pair is merged if and only if their normalised identifiers are equal |
| StatisticalTest.MergedRowsPairSubjects | src/Analysis/statistical_test.py:142-146 | each merged row is one computed row and one reference row with normalised identifiers, each as wide as its own table's header, and `subject_id == Subject` holds in it |
| StatisticalTest.PairedColumnsAligned | src/Analysis/statistical_test.py:153-168 | `x_suvr`, `y_suvr`, `x_cl` and `y_cl` each have one entry per merged row, and entry `t` of each comes from merged row `t` |
| StatisticalTest.EmptyReferenceFindsNoSubjects | src/Analysis/statistical_test.py:121-151 | an empty reference table is not rejected on loading; the run ends in "no matching subjects" |
| StatisticalTest.NoRowsNoPairs | src/Analysis/statistical_test.py:146 | a reference table without rows matches nothing |
| StatisticalTest.UniqueIdsCount | src/Analysis/statistical_test.py:146-153 | with each identifier unique per table, the merged subject count is the number of shared identifiers |
| StatisticalTest.RunValidation | src/Analysis/statistical_test.py:84-168 | loading, in-place cleaning, merging and column selection, done step by step, give exactly `Validate` |
| StatisticalAnalysisScript.ArgumentNamesResults | scripts/protocol_specific/05_statistical_analysis.py:27-28 | a command-line argument names the results file; later arguments are ignored |
| StatisticalAnalysisScript.DefaultNamesResults | scripts/protocol_specific/05_statistical_analysis.py:29-58 | without an argument the results file is `all_subjects_results.csv`; the reference is always `Centiloid_Project_Values.csv` |
| StatisticalAnalysisScript.OnlyTwoFilesRead | scripts/protocol_specific/05_statistical_analysis.py:27-66 | the run depends on the results file and the reference file only |
| StatisticalAnalysisScript.MissingResultsFails | scripts/protocol_specific/05_statistical_analysis.py:32-35 | a missing results file ends the run with status 1 |
| StatisticalAnalysisScript.MissingReferenceFails | scripts/protocol_specific/05_statistical_analysis.py:60-63 | with a usable results table, a missing reference file ends the run with status 1 |
| StatisticalAnalysisScript.RunScript | scripts/protocol_specific/05_statistical_analysis.py:27-112 | the script's `main` up to the correlation gives exactly `Run` |
| FixBidsJson.ExtendList | src/pipeline/fix_bids_json.py:41-44 | a key the later file lacks changes nothing; otherwise the list gets the later items appended and no other key changes; it fails exactly when the base value is missing or not a list, or the later value cannot be iterated |
| FixBidsJson.Absorb | src/pipeline/fix_bids_json.py:36-46 | one later file keeps the key set and every value other than the two frame lists |
| FixBidsJson.AbsorbAll | src/pipeline/fix_bids_json.py:35-46 | the loop over the later files keeps the key set |
| FixBidsJson.EnsureFrameLists | src/pipeline/fix_bids_json.py:31-32 | both frame lists exist afterwards, absent ones as `[]`, and every existing value is kept |
| FixBidsJson.InjectDefaults | src/pipeline/fix_bids_json.py:77-80 | every default key is present; existing values win; missing keys get exactly the default |
| FixBidsJson.NoInputsFails | src/pipeline/fix_bids_json.py:13-15 | an empty input list ends with status 1 |
| FixBidsJson.FailuresExitOne | src/pipeline/fix_bids_json.py:13-23 | a file is written only when the first input is a readable object and the output is writable; an unreadable first file ends with status 1; every other outcome is status 1 |
| FixBidsJson.AbsorbAllAppend | src/pipeline/fix_bids_json.py:35 | the loop is a left fold: absorbing `a` then `b` equals absorbing `a + b` |
| FixBidsJson.SkipInert | src/pipeline/fix_bids_json.py:45-46 | an unreadable (or non-object) later file leaves the result as if it had not been given |
| FixBidsJson.AbsorbAllKeepsOthers | src/pipeline/fix_bids_json.py:40-44 | later files change no value except `FrameDuration` and `FrameTimesStart` |
| FixBidsJson.FrameListsConcatenated | src/pipeline/fix_bids_json.py:31-44 | for any later files, when the base's frame values are lists or absent: after the loop, each frame list is the base's list (or `[]`) followed by each later file's items in input order, where a file adds nothing to either list once its `FrameDuration` extend raises and nothing to `FrameTimesStart` when only that extend raises |
| FixBidsJson.AbsorbExtends | src/pipeline/fix_bids_json.py:41-44 | one later file appends its contribution to each list, the contribution being empty where the `try` block raised before that extend |
| FixBidsJson.FailedFrameDurationSkipsFile | src/pipeline/fix_bids_json.py:41-46 | a later file whose `FrameDuration` cannot be appended contributes nothing, not even its `FrameTimesStart` |
| FixBidsJson.FailedFrameTimesStartKeepsDuration | src/pipeline/fix_bids_json.py:41-46 | a later file whose `FrameTimesStart` fails keeps the `FrameDuration` items it already appended |
| FixBidsJson.InjectIdempotent | src/pipeline/fix_bids_json.py:77-80 | injecting the defaults twice equals injecting them once |
| FixBidsJson.FrameListsNotDefaults | src/pipeline/fix_bids_json.py:49-75 | neither frame list is among the default keys |
| FixBidsJson.WrittenKeepsBase | src/pipeline/fix_bids_json.py:17-80 | the written object holds every default key and every base key; base values other than the frame lists are kept; missing defaults get exactly the default value |
| FixBidsJson.SingleFileKeepsFrames | src/pipeline/fix_bids_json.py:27 | with one input file the frame lists are neither created nor changed |
| FixBidsJson.WrittenFramesConcatenated | src/pipeline/fix_bids_json.py:27-44 | with several input files and a base whose frame values are lists or absent, the written frame lists are the base's followed by the later files' contributions, in order, with the same skip rule as above |
| FixBidsJson.AbsorbFile | src/pipeline/fix_bids_json.py:36-46 | one pass of the `try` block, done step by step, equals `Absorb` |
| FixBidsJson.AppendFrames | src/pipeline/fix_bids_json.py:31-46 | ensuring the lists and then looping over `input_files[1:]` equals `AbsorbAll` of `EnsureFrameLists` |
| FixBidsJson.InjectMissing | src/pipeline/fix_bids_json.py:77-80 | the loop over the defaults adds exactly the missing keys, with their default values, and changes nothing else |
| FixBidsJson.MergeJsons | src/pipeline/fix_bids_json.py:7-89 | `merge_jsons`, done step by step, gives exactly `Merge` |

## Left out

- Pearson correlation (`stats.pearsonr`) and the regression fit (`np.polyfit`): these are floating-point numerics inside scipy and numpy. The model stops at the paired columns. `pearsonr` runs between the SUVR and the Centiloid column lookups, so its own errors (for example with fewer than two subjects) could end a run before the Centiloid columns are looked up. The model does not capture that.
- Printing, the `.head()` previews, number formatting, every matplotlib plot and `savefig`: output only.
- Environment set-up in `src/Analysis/statistical_test.py` (Colab detection, `drive.mount`, the project-root paths, `os.makedirs`): the two file paths are taken as given. Only the stand-alone script's path choice is modelled.
- CSV parsing (`pd.read_csv`): a file is absent, unreadable, or a rectangular table of typed cells. Python's text for a float cell is carried in the cell rather than computed.
- The merged frame's columns are not materialised. A merged row keeps the whole computed row and the whole reference row, and a column lookup resolves a name to one of the two sides.
- JSON parsing and `json.dump`: an input file is a parsed value or unreadable, and the write is a yes/no parameter. Dictionary key order, and so the order of fields in the written file, is not kept.
- FixBidsJson.Iterated: `list.extend` of a JSON object appends the object's keys. The model treats that case as an error (the rest of that later file is skipped), because key order is not modelled.
- StatisticalTest.MergeOn: `pd.merge` refuses (raises `MergeError`, so the run ends with status 1) a merge whose `_x`/`_y` renaming of a name present in both tables creates a name that side already holds, for example a computed table with both `Age` and `Age_x` against a reference table with `Age`. That failure happens before the empty-merge check. The model does not capture it: InnerJoin.MergedColumn only makes such shared names unselectable, and the run can end in `Analysed` there.
- FixBidsJson.Merge: the code never checks that the first file holds a JSON object. A first file holding a JSON array or string is written unchanged by the code when it contains every default key name (membership in an array, a substring of a string) and, with several inputs, also both frame-list names; every later `extend` then raises inside the `try` and is caught as a warning. The model reports FirstNotObject for every non-object first file, and so for that case too.
- The `__main__` block of `src/pipeline/fix_bids_json.py` (argument count check) and `src/qc/generate_report.py` are not part of this model.
