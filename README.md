# SlicerRadiomics extraction logic in Dafny

This project models the part of the SlicerRadiomics 3D Slicer extension that
drives a radiomics feature extraction: the `SlicerRadiomicsLogic` class and the
argument rewrite the `SlicerRadiomicsCLI` entry script performs before handing
over to PyRadiomics.

One batch (`runCLI` or `runCLIWithParameterFile`) works as follows.

- **Regions.** It enumerates the regions of interest: one per distinct non-zero
  value of a label map, named `<map>_label_<value>` in ascending order of value.
  Then one per segment of a segmentation that converts to a binary label map,
  named `<segmentation>_segment_<segment>`.
- **Output table.** It clears the output table node down to the three header
  columns `Image type`, `Feature Class` and `Feature Name`.
- **Jobs.** It runs the extraction CLI once per region. It does so either
  blocking (`runSync`) or asynchronously, driven by `ModifiedEvent`
  notifications of the CLI node.
- **Results.** Each completed job's one-row result table is merged into the
  output table:
  - a new column named after the region;
  - one row per feature key `imageType_featureClass_featureName`, created the
    first time the key is seen and reused afterwards;
  - keys with fewer than three `_`-separated parts are skipped, with a warning
    unless they are `Image` or `Mask`.
- **Cleanup.** When the regions are exhausted it passes the status observer's
  tag to the scene's `RemoveObserver` and clears it, deletes a parameter file
  it generated itself, resets every per-run field and calls the caller's
  callback once.

The model is in eight files, one module each.

- `text.dfy`: Python's `str.split(sep, maxsplit)`, `'%d' % n` and
  `str.replace(pat, '')`, with their round trips.
- `regions.dfy`: the two label generators and their chaining, as values.
- `tables.dfy`: the MRML table node as a class updated in place, with value
  functions for its operations.
- `accumulator.dfy`: the merge of one result row into the output table and the
  key-to-row map `_featureNames`, on values, with the invariant it keeps.
- `parameter_files.dfy`: the JSON configuration `runCLI` writes, and
  `os.path.join`.
- `batch.dfy`: the logic's state as a value, with one function per operation.
  Its lemmas describe whole batches: the jobs run, the final table, the
  cleanup, and the refused and failing calls.
- `logic.dfy`: `SlicerRadiomicsLogic` as a class whose methods update its fields
  and the table node in place. Each method is proved to leave exactly the state
  the matching function of `batch.dfy` gives.
- `cli_adapter.dfy`: the `__main__` block of the CLI script, rewriting argv in
  place.

The application is a parameter (`Host`):

- the outcome of the n-th blocking CLI run;
- the observer tag;
- the temporary directory.

Asynchronous notifications are the arguments of `OnStatus`. What the logic does
to the outside world is recorded in fields:

- warnings logged and error texts printed;
- jobs started;
- tags of observers added to the CLI node, and tags passed to the scene's
  `RemoveObserver`;
- callbacks called;
- files written and deleted.

Two consequences of the code as written are proved.

- **A batch without a label map or a segmentation raises.** The generator list
  stays a plain `[]`, so `_startCLI`'s `.next()` raises. The exception is not
  `StopIteration`, so it is not caught. It leaves the run half set up: the
  parameter file and the callback are stored and the output table is reduced to
  its headers (`NoSourcesRaises`).
- **The deletion mark set by `runCLI` outlives such a failed call.** A later
  synchronous `runCLIWithParameterFile` on the same logic then deletes the
  caller's own parameter file (`StaleDeletionMark`).

## Model

| member | source | states |
|---|---|---|
| Text.Find | SlicerRadiomics/SlicerRadiomics.py:683 | the result is the first index of the separator, or the length when there is none |
| Text.Split | SlicerRadiomics/SlicerRadiomics.py:683 | `split(sep, maxsplit)` yields 1 to maxsplit+1 parts, and none but the last contains the separator |
| Text.JoinSplit | SlicerRadiomics/SlicerRadiomics.py:683 | joining the parts with the separator gives back the key: split loses nothing |
| Text.SplitCount | SlicerRadiomics/SlicerRadiomics.py:683-684 | the number of parts is one more than the number of separators, capped at maxsplit |
| Text.OccurrencesAppend | SlicerRadiomicsCLI/SlicerRadiomicsCLI.py:15-24 | occurrences in a concatenation add up; used for the `_` separators of a key and the `--label` arguments of argv |
| Text.OccurrencesNone | SlicerRadiomicsCLI/SlicerRadiomicsCLI.py:15 | a sequence without the element has zero occurrences of it, as for an argv with no `--label` |
| Text.Digits | SlicerRadiomics/SlicerRadiomics.py:516 | the decimal digits of a natural number are a non-empty string of digit characters |
| Text.DigitsRoundTrip | SlicerRadiomics/SlicerRadiomics.py:516 | reading back the digits of `n` gives `n` |
| Text.DigitsInjective | SlicerRadiomics/SlicerRadiomics.py:516 | equal digit strings come from equal numbers |
| Text.DecimalSign | SlicerRadiomics/SlicerRadiomics.py:516 | `'%d' % n` is non-empty and starts with `-` exactly when `n` is negative |
| Text.DecimalInjective | SlicerRadiomics/SlicerRadiomics.py:516 | distinct integers print differently under `%d` |
| Text.RemoveAll | SlicerRadiomics/SlicerRadiomics.py:598 | `replace(pat, '')` never lengthens the text |
| Text.RemoveAllAbsent | SlicerRadiomics/SlicerRadiomics.py:597-598 | an error text without the banner is printed unchanged |
| Text.RemoveAllPrefix | SlicerRadiomics/SlicerRadiomics.py:598 | a leading banner is stripped and the rest processed as on its own |
| Regions.Insert | SlicerRadiomics/SlicerRadiomics.py:511 | inserting into a strictly increasing sequence keeps it strictly increasing and adds exactly the value |
| Regions.Unique | SlicerRadiomics/SlicerRadiomics.py:511 | `numpy.unique` is strictly increasing and holds exactly the values of its input |
| Regions.LabelValues | SlicerRadiomics/SlicerRadiomics.py:516 | the label values of the regions, position by position |
| Regions.NonZero | SlicerRadiomics/SlicerRadiomics.py:513-515 | the kept values are exactly the non-zero input values |
| Regions.IncreasingCons | SlicerRadiomics/SlicerRadiomics.py:511 | prepending a value below all others keeps a sequence strictly increasing |
| Regions.NonZeroIncreasing | SlicerRadiomics/SlicerRadiomics.py:513-515 | dropping the background value keeps ascending order |
| Regions.LabelRegions | SlicerRadiomics/SlicerRadiomics.py:513-516 | every yielded region is named `<map>_label_<value>`, masks with the label map itself and uses the image node |
| Regions.LabelRegionValues | SlicerRadiomics/SlicerRadiomics.py:513-516 | the yielded label values are exactly the non-zero values, in order |
| Regions.LabelMapRegionsSpec | SlicerRadiomics/SlicerRadiomics.py:508-516 | the label-map generator yields one region per distinct non-zero voxel value, in ascending order, with its name, mask and image |
| Regions.LabelMapRegionsShape | SlicerRadiomics/SlicerRadiomics.py:513-516 | no label-map region has label value 0, and each masks with the label map |
| Regions.Converted | SlicerRadiomics/SlicerRadiomics.py:531-536 | the segments kept are exactly those whose conversion succeeds |
| Regions.ConvertedAppend | SlicerRadiomics/SlicerRadiomics.py:531-536 | skipping failed segments keeps the order of the others |
| Regions.SegmentationRegions | SlicerRadiomics/SlicerRadiomics.py:518-540 | one region per converted segment in index order, named `<segmentation>_segment_<segment>`, over the one scratch label map with label value 1 |
| Regions.EnumerateCount | SlicerRadiomics/SlicerRadiomics.py:777-781 | the chained generators yield the distinct non-zero labels plus the converted segments, and nothing for an absent source |
| Regions.IncreasingCard | SlicerRadiomics/SlicerRadiomics.py:511 | a strictly increasing sequence has as many elements as distinct values |
| Regions.EnumerateOrder | SlicerRadiomics/SlicerRadiomics.py:777-781 | all label-map regions come before all segmentation regions; each source alone yields only its own kind |
| Regions.LabelRegionNamesDistinct | SlicerRadiomics/SlicerRadiomics.py:516 | two values of one label map give regions with different names, so their result columns differ |
| ParameterFiles.PathJoinParts | SlicerRadiomics/SlicerRadiomics.py:749 | `os.path.join` puts the relative file name after the directory, adding one `/` exactly when the directory lacks one |
| ParameterFiles.PathJoinTrailingSlash | SlicerRadiomics/SlicerRadiomics.py:748-749 | a temporary directory with or without a trailing `/` gives the same parameter-file path |
| ParameterFiles.WithCorrectMask | SlicerRadiomics/SlicerRadiomics.py:741 | `correctMask` becomes true, every other setting is kept and nothing else is added |
| Tables.WithColumn | SlicerRadiomics/SlicerRadiomics.py:659-660 | adding a named column appends its name, keeps every old cell and is blank in every row |
| Tables.WithEmptyRow | SlicerRadiomics/SlicerRadiomics.py:693 | adding a row keeps the names and every old cell, and the new row is blank |
| Tables.WithCell | SlicerRadiomics/SlicerRadiomics.py:694-696 | setting a cell changes that cell and no other |
| Tables.WithRow | SlicerRadiomics/SlicerRadiomics.py:693-696 | the appended row holds the given texts in the leading columns and is blank elsewhere |
| Tables.SameTable | SlicerRadiomics/SlicerRadiomics.py:693-696 | tables with the same names and cells are equal |
| Tables.FilledRow | SlicerRadiomics/SlicerRadiomics.py:693-696 | an empty row followed by three cell writes is the row holding the three key parts |
| Tables.Table.constructor | SlicerRadiomics/SlicerRadiomics.py:783 | a new table node has no columns and no rows |
| Tables.Table.RemoveAllColumns | SlicerRadiomics/SlicerRadiomics.py:653 | the table node is left with no columns and no rows |
| Tables.Table.AddColumn | SlicerRadiomics/SlicerRadiomics.py:676-677 | the node's content becomes `WithColumn` of the old content; the new column's index is returned |
| Tables.Table.AddEmptyRow | SlicerRadiomics/SlicerRadiomics.py:693 | the node's content becomes `WithEmptyRow` of the old content; the new row's index is returned |
| Tables.Table.SetCellText | SlicerRadiomics/SlicerRadiomics.py:694-700 | the node's content becomes `WithCell` of the old content |
| Accumulator.FeatureKeyUnderscores | SlicerRadiomics/SlicerRadiomics.py:683-684 | a key gets a row exactly when it has at least two underscores |
| Accumulator.Initial | SlicerRadiomics/SlicerRadiomics.py:653-660 | after initialisation the table has exactly the three header columns, no rows and no keys, and the invariant holds |
| Accumulator.HeaderTable | SlicerRadiomics/SlicerRadiomics.py:658-660 | after adding the first n header columns to the cleared table, those are its names and it has no rows |
| Accumulator.AddFeatureRowIndexed | SlicerRadiomics/SlicerRadiomics.py:691-697 | an unseen key gets the index of the new row, and distinct keys keep distinct rows |
| Accumulator.MergeCell | SlicerRadiomics/SlicerRadiomics.py:680-700 | one loop round keeps the structural invariant and the column names |
| Accumulator.MergeCells | SlicerRadiomics/SlicerRadiomics.py:679-700 | the loop over the result columns keeps the structural invariant and the column names |
| Accumulator.Merge | SlicerRadiomics/SlicerRadiomics.py:676-700 | merging adds exactly one column, named after the region, and renames nothing |
| Accumulator.WithValueLabelled | SlicerRadiomics/SlicerRadiomics.py:700 | writing a value outside the header columns keeps every key's row showing the key |
| Accumulator.WithColumnLabelled | SlicerRadiomics/SlicerRadiomics.py:676-677 | adding the region's column keeps the invariant |
| Accumulator.AddFeatureRowLabelled | SlicerRadiomics/SlicerRadiomics.py:691-697 | a new key's row shows its image type, feature class and feature name, and old rows still show theirs |
| Accumulator.MergeCellLabelled | SlicerRadiomics/SlicerRadiomics.py:680-700 | one loop round keeps the full invariant |
| Accumulator.MergeCellsLabelled | SlicerRadiomics/SlicerRadiomics.py:679-700 | the loop keeps the full invariant |
| Accumulator.MergeCellRows | SlicerRadiomics/SlicerRadiomics.py:684-697 | one round: a feature key gets a row if it has none, a skipped key changes nothing, no key moves |
| Accumulator.MergeCellExisting | SlicerRadiomics/SlicerRadiomics.py:700 | a key seen before only has its cell in the region's column overwritten |
| Accumulator.MergeCellNewOld | SlicerRadiomics/SlicerRadiomics.py:691-697 | an unseen key appends one row and every old cell is kept |
| Accumulator.MergeCellNewRow | SlicerRadiomics/SlicerRadiomics.py:693-700 | the appended row shows the key's three parts, holds the value in the region's column and is blank elsewhere |
| Accumulator.MergeCellColumn | SlicerRadiomics/SlicerRadiomics.py:700 | in the region's column only the key's row receives the value |
| Accumulator.MergeCellOthers | SlicerRadiomics/SlicerRadiomics.py:700 | no column other than the headers and the region's is written |
| Accumulator.MergeCellHeaders | SlicerRadiomics/SlicerRadiomics.py:693-696 | the header cells of existing rows are never rewritten |
| Accumulator.MergeCellKeeps | SlicerRadiomics/SlicerRadiomics.py:700 | the cell of every other key is left alone |
| Accumulator.FeatureKeysSnoc | SlicerRadiomics/SlicerRadiomics.py:679-684 | the feature keys of a row are those of its prefix plus the last key, if that is a feature key |
| Accumulator.MergeCellsRows | SlicerRadiomics/SlicerRadiomics.py:679-697 | after the loop, the keys are the old ones plus the result's feature keys and no key has moved |
| Accumulator.MergeCellsValues | SlicerRadiomics/SlicerRadiomics.py:679-700 | each feature key's row holds, in the region's column, the value of the last cell with that key |
| Accumulator.MergeCellsUntouched | SlicerRadiomics/SlicerRadiomics.py:679-700 | a row no result key maps to keeps its cell in the region's column, and a new such row is blank |
| Accumulator.MergeCellsOthers | SlicerRadiomics/SlicerRadiomics.py:679-700 | the loop writes no other non-header column: old rows keep their cells and new rows are blank |
| Accumulator.MergeCellsHeaders | SlicerRadiomics/SlicerRadiomics.py:679-697 | the header cells of existing rows are unchanged |
| Accumulator.MergeLabelled | SlicerRadiomics/SlicerRadiomics.py:665-703 | processing one result keeps the invariant between table and key map |
| Accumulator.MergeRows | SlicerRadiomics/SlicerRadiomics.py:665-703 | after one result a key has a row iff it had one or is a feature key of the result; old rows stay; one row per key |
| Accumulator.MergeColumn | SlicerRadiomics/SlicerRadiomics.py:676-700 | the region's column holds each feature key's last value at its row and is blank elsewhere |
| Accumulator.MergeKeeps | SlicerRadiomics/SlicerRadiomics.py:676-700 | every old cell keeps its text, and new rows are blank outside the headers and the new column |
| Batch.Fresh | SlicerRadiomics/SlicerRadiomics.py:473-505 | a new logic satisfies the invariant, runs nothing, has no output table and is asynchronous |
| Batch.WarnedIndicesSnoc | SlicerRadiomics/SlicerRadiomics.py:685-688 | the warned positions of a row are those of its prefix plus the last one if it warns |
| Batch.SkipWarningsCount | SlicerRadiomics/SlicerRadiomics.py:685-689 | one warning per skipped key other than `Image` and `Mask`, no more and no fewer |
| Batch.SkipWarningsFrom | SlicerRadiomics/SlicerRadiomics.py:685-689 | every warning names a skipped key of the row that is neither `Image` nor `Mask` |
| Batch.InitOutputTable | SlicerRadiomics/SlicerRadiomics.py:647-663 | initialisation keeps the logic's invariant |
| Batch.ProcessResults | SlicerRadiomics/SlicerRadiomics.py:665-703 | processing keeps the invariant and touches only the table, the key map and the warnings; without an output table it only logs "Output table not set!" |
| Batch.MergedResults | SlicerRadiomics/SlicerRadiomics.py:674-703 | merging with both tables present keeps the invariant |
| Batch.MergeKeepsHeaders | SlicerRadiomics/SlicerRadiomics.py:676-700 | after a merge the three header columns are still first |
| Batch.Recorded | SlicerRadiomics/SlicerRadiomics.py:594-599 | the temporary table holds the CLI's row; the error text is printed with the `RadiomicsCLI standard error` banner removed exactly when it is non-empty; nothing else changes and the invariant holds |
| Batch.Complete | SlicerRadiomics/SlicerRadiomics.py:594-603 | `_cli_done` before restarting keeps the invariant, prints the non-empty error text without its banner, and touches neither the job, the generators, the control fields nor the jobs log |
| Batch.CompleteTable | SlicerRadiomics/SlicerRadiomics.py:601-603 | a completed job's row is merged under the region's name; any other status leaves table and key map unchanged |
| Batch.Submit | SlicerRadiomics/SlicerRadiomics.py:548-567 | the next region is taken off the generators, its name recorded and its job started with the parameter file |
| Batch.Drain | SlicerRadiomics/SlicerRadiomics.py:567-571 | running every remaining job blocking exhausts the generators and keeps the invariant |
| Batch.Observed | SlicerRadiomics/SlicerRadiomics.py:572-576 | adding the status observer keeps the invariant and leaves the table alone |
| Batch.SubmitAsync | SlicerRadiomics/SlicerRadiomics.py:567-576 | an asynchronous start keeps the invariant and leaves the table alone |
| Batch.Finished | SlicerRadiomics/SlicerRadiomics.py:608-644 | cleanup passes the observer tag to the scene's `RemoveObserver` and clears it, resets the per-run fields, deletes a marked existing parameter file, clears the mark and calls the callback once |
| Batch.Advance | SlicerRadiomics/SlicerRadiomics.py:548-576 | starting keeps the invariant and never adds or removes the output table |
| Batch.Start | SlicerRadiomics/SlicerRadiomics.py:548-580 | `_startCLI` keeps the invariant |
| Batch.Acknowledged | SlicerRadiomics/SlicerRadiomics.py:587-588 | clearing the running flag keeps the invariant |
| Batch.OnStatus | SlicerRadiomics/SlicerRadiomics.py:582-592 | `_onStatus` keeps the invariant |
| Batch.SyncStartStep | SlicerRadiomics/SlicerRadiomics.py:567-571 | one blocking job followed by `_startCLI` from `_cli_done` ends where the first start ends |
| Batch.Prepared | SlicerRadiomics/SlicerRadiomics.py:774-786 | setting up a run wires the generators, parameter file and temporary table, with no key recorded |
| Batch.WithCallback | SlicerRadiomics/SlicerRadiomics.py:789 | storing the callback keeps the invariant |
| Batch.Setup | SlicerRadiomics/SlicerRadiomics.py:774-789 | the run's generators, parameter file, header-only output table, a fresh empty temporary table and the callback are stored; "Output table not set!" is logged exactly when there is no output table; nothing else changes |
| Batch.RunWithParameterFile | SlicerRadiomics/SlicerRadiomics.py:757-791 | `runCLIWithParameterFile` keeps the invariant |
| Batch.WriteConfiguration | SlicerRadiomics/SlicerRadiomics.py:743-753 | writing the parameter file and its deletion mark keeps the invariant |
| Batch.RunCLI | SlicerRadiomics/SlicerRadiomics.py:732-755 | `runCLI` keeps the invariant |
| Batch.TableAfterRun | SlicerRadiomics/SlicerRadiomics.py:757-791 | the caller's table node is present after the call exactly when it was given |
| Batch.MergeAll | SlicerRadiomics/SlicerRadiomics.py:665-703 | merging several results in turn keeps the structural invariant |
| Batch.MergeAllLabelled | SlicerRadiomics/SlicerRadiomics.py:665-703 | merging several results keeps the full invariant |
| Batch.MergeAllNames | SlicerRadiomics/SlicerRadiomics.py:676-677 | after several results the columns are the old ones plus one per result, in order, named after its region |
| Batch.MergeAllRows | SlicerRadiomics/SlicerRadiomics.py:691-697 | after several results a key has a row iff it had one or some result has it; rows never move; one row per key |
| Batch.ResultMerged | SlicerRadiomics/SlicerRadiomics.py:601-603 | a job's result is merged ahead of the later ones exactly when it completed; otherwise it contributes nothing |
| Batch.DrainJobs | SlicerRadiomics/SlicerRadiomics.py:548-571 | a blocking drain runs one job per remaining region, in order, with the parameter file |
| Batch.DrainStepMerges | SlicerRadiomics/SlicerRadiomics.py:567-603 | one blocking step merges the first completed result and leaves the rest for later |
| Batch.DrainTable | SlicerRadiomics/SlicerRadiomics.py:567-603 | a blocking drain merges exactly the completed results into the output table, in order |
| Batch.SyncRunJobs | SlicerRadiomics/SlicerRadiomics.py:757-791 | a synchronous batch runs one job per enumerated region, in order |
| Batch.SyncRunCleanup | SlicerRadiomics/SlicerRadiomics.py:608-644 | a synchronous batch ends cleaned up; the callback was called once, and the parameter file was deleted exactly when it was marked and existed |
| Batch.SyncRunTable | SlicerRadiomics/SlicerRadiomics.py:757-791 | the synchronous output table is the headers followed by the merge of every completed region's results, in region order |
| Batch.SyncRunShape | SlicerRadiomics/SlicerRadiomics.py:647-703 | that table has the header columns plus one column per completed region, and one row per distinct feature key |
| Batch.AsyncRunStarts | SlicerRadiomics/SlicerRadiomics.py:548-576 | an asynchronous batch starts the first region's job, adds the observer once, leaves the bare headers and does not call back yet |
| Batch.NoRegionsFinishes | SlicerRadiomics/SlicerRadiomics.py:577-580 | sources yielding no region finish at once: no job, one callback, no observer |
| Batch.NoSourcesRaises | SlicerRadiomics/SlicerRadiomics.py:776-791 | without label map and segmentation no job runs and no callback is called; the run's setup stays behind |
| Batch.BusyRefuses | SlicerRadiomics/SlicerRadiomics.py:736-738 | while a run is active both `runCLI` and `runCLIWithParameterFile` (its lines 769-771) only log "Already running an extraction!": the state is otherwise unchanged, so no job starts, no error is printed and no file is written |
| Batch.RunCLIWritesConfiguration | SlicerRadiomics/SlicerRadiomics.py:739-755 | `runCLI` writes the configuration with `correctMask` to the temporary path, runs with that file, and synchronously deletes it again |
| Batch.StaleDeletionMark | SlicerRadiomics/SlicerRadiomics.py:750 | after a failed `runCLI`, a synchronous `runCLIWithParameterFile` deletes the caller's own parameter file |
| Batch.OnStatusQuiet | SlicerRadiomics/SlicerRadiomics.py:582-592 | a notification that ends no job changes only the running flag, which a CLI node reporting `Running` raises |
| Batch.OnStatusNext | SlicerRadiomics/SlicerRadiomics.py:586-606 | the end of a job with regions left merges a completed job's row into the output table under the region's name (any other status leaves the table alone) and starts the next region's job without adding an observer |
| Batch.OnStatusLast | SlicerRadiomics/SlicerRadiomics.py:586-589 | the end of the last job is `_cli_done` with the running flag cleared followed by `_onFinished`: it cleans up, passes the observer tag to the scene's `RemoveObserver` and clears it, and calls the callback once |
| Batch.AsyncJobStep | SlicerRadiomics/SlicerRadiomics.py:582-592 | a `Running` report followed by an ending report completes the job with the running flag cleared, then starts the next job or cleans up |
| Batch.AsyncJobs | SlicerRadiomics/SlicerRadiomics.py:582-606 | an asynchronous batch driven by one running and one ending report per job keeps the invariant |
| Batch.BeforeCleanup | SlicerRadiomics/SlicerRadiomics.py:594-606 | the state before `_onFinished` keeps the invariant, the CLI node and the parameter file |
| Batch.AsyncJobsFinish | SlicerRadiomics/SlicerRadiomics.py:548-606 | an asynchronous batch runs one job per remaining region, leaves its control fields alone and ends in `_onFinished` |
| Batch.AsyncJobsTable | SlicerRadiomics/SlicerRadiomics.py:594-606 | an asynchronous batch merges the current job's result, then each remaining region's completed result, in order |
| Batch.AsyncRunTable | SlicerRadiomics/SlicerRadiomics.py:757-791 | just before cleanup the asynchronous output table is the headers followed by the merge of every completed region's results, in region order, as in a synchronous batch |
| Batch.AsyncRunShape | SlicerRadiomics/SlicerRadiomics.py:647-703 | that table has the header columns plus one column per completed region, and one row per distinct feature key |
| Batch.AsyncRunCleanup | SlicerRadiomics/SlicerRadiomics.py:548-644 | a whole asynchronous batch runs one job per region in order, adds the observer to the CLI node once, passes its tag once to the scene's `RemoveObserver`, calls the callback once, deletes the parameter file exactly when it is marked and exists, and leaves nothing running |
| Logic.Settings.constructor | SlicerRadiomics/SlicerRadiomics.py:732 | the caller's settings dictionary holds the given entries |
| Logic.SlicerRadiomicsLogic.constructor | SlicerRadiomics/SlicerRadiomics.py:473-505 | the new object's fields are the fresh state |
| Logic.SlicerRadiomicsLogic.Warn | SlicerRadiomics/SlicerRadiomics.py:649 | only the warning log grows |
| Logic.SlicerRadiomicsLogic.InitOutputTable | SlicerRadiomics/SlicerRadiomics.py:647-663 | the fields and the table node become the batch model's `InitOutputTable` of the old ones |
| Logic.SlicerRadiomicsLogic.WriteHeaders | SlicerRadiomics/SlicerRadiomics.py:653-660 | the loop leaves the table node with exactly the three header columns and no rows |
| Logic.SlicerRadiomicsLogic.ProcessResults | SlicerRadiomics/SlicerRadiomics.py:665-703 | the fields and the table node become the model's `ProcessResults` of the old ones |
| Logic.SlicerRadiomicsLogic.MergeRow | SlicerRadiomics/SlicerRadiomics.py:676-700 | the loop leaves the table node, key map and warnings as `MergedResults` says |
| Logic.SlicerRadiomicsLogic.MergeCell | SlicerRadiomics/SlicerRadiomics.py:680-700 | one loop round updates table node and key map as `Accumulator.MergeCell`, and warns exactly for skipped keys other than `Image` and `Mask` |
| Logic.SlicerRadiomicsLogic.StartCLI | SlicerRadiomics/SlicerRadiomics.py:548-580 | the fields become `Start` of the old ones, and the table node is left as `Advance` says |
| Logic.SlicerRadiomicsLogic.SubmitNext | SlicerRadiomics/SlicerRadiomics.py:551-567 | the fields become `Submit` of the old ones |
| Logic.SlicerRadiomicsLogic.AddStatusObserver | SlicerRadiomics/SlicerRadiomics.py:576 | the fields become `Observed` of the old ones |
| Logic.SlicerRadiomicsLogic.CliDone | SlicerRadiomics/SlicerRadiomics.py:594-604 | the fields become `Start` after `Complete`, and the table node is left as `Advance` says |
| Logic.SlicerRadiomicsLogic.RecordOutcome | SlicerRadiomics/SlicerRadiomics.py:596-599 | the fields become `Recorded` of the old ones |
| Logic.SlicerRadiomicsLogic.OnStatus | SlicerRadiomics/SlicerRadiomics.py:582-592 | the fields become the model's `OnStatus`, and a job's end leaves the table node as the model says |
| Logic.SlicerRadiomicsLogic.OnFinished | SlicerRadiomics/SlicerRadiomics.py:608-644 | the fields become `Finished` of the old ones |
| Logic.SlicerRadiomicsLogic.RemoveStatusObserver | SlicerRadiomics/SlicerRadiomics.py:611-614 | the fields become `Unobserved` of the old ones: the kept tag is passed to the scene's `RemoveObserver` and cleared |
| Logic.SlicerRadiomicsLogic.DeleteParameterFile | SlicerRadiomics/SlicerRadiomics.py:621-624 | the fields become `ParameterFileDeleted` of the old ones |
| Logic.SlicerRadiomicsLogic.ResetRun | SlicerRadiomics/SlicerRadiomics.py:616-634 | the fields become `RunReset` of the old ones |
| Logic.SlicerRadiomicsLogic.ClearRunFields | SlicerRadiomics/SlicerRadiomics.py:616-634 | CLI node, parameter file, generators, temporary table and region name are cleared and nothing else changes |
| Logic.SlicerRadiomicsLogic.DropOutputTable | SlicerRadiomics/SlicerRadiomics.py:629-630 | the output table and key map are cleared and nothing else changes |
| Logic.SlicerRadiomicsLogic.InvokeCallback | SlicerRadiomics/SlicerRadiomics.py:639-644 | the fields become `CalledBack` of the old ones |
| Logic.SlicerRadiomicsLogic.RunCLIWithParameterFile | SlicerRadiomics/SlicerRadiomics.py:757-791 | the call reports refused, raised or launched as the source does; fields and table node become the model's `RunWithParameterFile` and `TableAfterRun` |
| Logic.SlicerRadiomicsLogic.Prepare | SlicerRadiomics/SlicerRadiomics.py:774-786 | the fields become `Prepared` of the old ones, and the output table is the node handed in |
| Logic.SlicerRadiomicsLogic.AttachOutputTable | SlicerRadiomics/SlicerRadiomics.py:786 | only the output table reference changes, to the node handed in |
| Logic.SlicerRadiomicsLogic.SetCallback | SlicerRadiomics/SlicerRadiomics.py:789 | the fields become `WithCallback` of the old ones |
| Logic.SlicerRadiomicsLogic.RunCLI | SlicerRadiomics/SlicerRadiomics.py:732-755 | the caller's settings gain `correctMask` unless refused; fields and table node become the model's `RunCLI` and `TableAfterRun` |
| Logic.SlicerRadiomicsLogic.WriteParameterFile | SlicerRadiomics/SlicerRadiomics.py:748-753 | the configuration is stored under the generated path, which is returned and marked for deletion |
| CliAdapter.IndexOf | SlicerRadiomicsCLI/SlicerRadiomicsCLI.py:16 | the index of the first occurrence |
| CliAdapter.IndexOfFirst | SlicerRadiomicsCLI/SlicerRadiomicsCLI.py:16 | the first occurrence is the only index with the value and none before it |
| CliAdapter.ArgumentList.constructor | SlicerRadiomicsCLI/SlicerRadiomicsCLI.py:9 | the list holds the given arguments |
| CliAdapter.ArgumentList.Index | SlicerRadiomicsCLI/SlicerRadiomicsCLI.py:16 | the search loop returns the first index holding the argument |
| CliAdapter.ArgumentList.Pop | SlicerRadiomicsCLI/SlicerRadiomicsCLI.py:20-21 | the entry at the index is returned and removed, and the others keep their order |
| CliAdapter.ArgumentList.Append | SlicerRadiomicsCLI/SlicerRadiomicsCLI.py:24-28 | the argument is added at the end |
| CliAdapter.Rewrite | SlicerRadiomicsCLI/SlicerRadiomicsCLI.py:10-28 | `--xml` and `-x` select the description and leave argv alone; otherwise argv becomes `Rewritten` of the old argv |
| CliAdapter.TranslateLabel | SlicerRadiomicsCLI/SlicerRadiomicsCLI.py:15-24 | the first `--label` pair is removed, and `--setting=label:<value>` is appended |
| CliAdapter.AppendFlags | SlicerRadiomicsCLI/SlicerRadiomicsCLI.py:26-28 | the three fixed flags are appended in order |
| CliAdapter.DescriptionUntouched | SlicerRadiomicsCLI/SlicerRadiomicsCLI.py:10-12 | asking for the description leaves argv exactly as it was |
| CliAdapter.FlagsAppended | SlicerRadiomicsCLI/SlicerRadiomicsCLI.py:15-28 | the fixed flags close the list, which grows by two with a label and by three without |
| CliAdapter.LabelCarried | SlicerRadiomicsCLI/SlicerRadiomicsCLI.py:18-24 | the label value is carried over verbatim, right before the fixed flags |
| CliAdapter.OthersKeepOrder | SlicerRadiomicsCLI/SlicerRadiomicsCLI.py:16-21 | arguments before the label stay put, those after its value move two places forward, and nothing moves without a label |
| CliAdapter.AppendedNoLabel | SlicerRadiomicsCLI/SlicerRadiomicsCLI.py:24-28 | nothing appended is a `--label` |
| CliAdapter.WithoutLabelCount | SlicerRadiomicsCLI/SlicerRadiomicsCLI.py:20-21 | removing the pair removes one `--label`, or two when the value is one too |
| CliAdapter.OnlyFirstLabelRewritten | SlicerRadiomicsCLI/SlicerRadiomicsCLI.py:15-24 | only the first `--label` is rewritten and later ones survive; without a label none appears |

## Left out

- **The widget, the test class and the module descriptor.** These are user
  interface and test scaffolding around the logic.
- **Image I/O.**
  - The label map's voxels are read with SimpleITK; here they are given as a
    sequence of integers.
  - Segment-to-label-map conversion is given as a per-segment `converts` flag.
- **Scratch and temporary node lifecycle.**
  - The segmentation generator creates a scratch node and removes it, with its
    display node, when the generator is exhausted.
  - The temporary result table is added to and removed from the scene.
- **Generator laziness.** Generators are eager sequences, so a generator
  abandoned mid-way, and its node removal, are not modelled.
- **Stale segment conversions.** All segmentation regions share the one scratch
  node, which is not modelled either. Each region's job is modelled as seeing
  the right mask.
- **The `if not segmentLabelmapNode` check (`SlicerRadiomics.py:537`).** It is
  dead code: the node is created before the loop, so the branch is left out.
- **What the CLI node reports.** It is an input:
  - the blocking outcome comes from `Host.blockingRun`;
  - asynchronous outcomes come from `OnStatus` notifications.
- **Error handling.**
  - The "Failed to convert label map" error log is not recorded.
  - Info and debug logs are not recorded.
  - The `print` of the progress dots and of "Done" is not recorded.
- **Table-node bookkeeping.** `StartModify`, `EndModify` and `Modified`
  calls on the table node only batch notifications.
- **Parameters and ignored arguments.**
  - `parameters['out']` and `parameters['param']` are modelled only as the
    parameter file of a `Job`.
  - The `outputText` argument of `_processResults` is unused in the source.
- **The JSON text `json.dump` writes.** The configuration is kept as a
  structured value, and the file's byte content is not modelled.
- **Floating-point feature values.** Every result cell is the text the CLI
  wrote.
- **Python 2 semantics.**
  - `.next()` on the generators is taken as written, including the
    `AttributeError` on the plain `[]` when there is no source.
  - That error is modelled as the call ending with `Raised`; exception
    propagation into the caller is not modelled.
- **Re-entrant callbacks and concurrency.** The callback is an identifier that
  is recorded when called, so a callback that starts a new run from inside
  `_onFinished` is not modelled.
- **Logic.SlicerRadiomicsLogic.OnStatus** and **Batch.OnStatus** require that
  a job-ending notification arrives only while a CLI node is set. In the source, a stale
  notification after cleanup would call `_cli_done` on `None` and raise.
- **Logic.SlicerRadiomicsLogic.ProcessResults** requires the logic's invariant
  and a running job, as every caller in the source guarantees. Under that
  invariant the "CLI output table not set!" branch is unreachable, and it is
  kept only for fidelity.
- **Logic.SlicerRadiomicsLogic.InitOutputTable** requires that no feature key
  is recorded, which holds at its only call site.
- **Logic.SlicerRadiomicsLogic.OnFinished**, **Batch.Finished** and
  **Batch.ParameterFileDeleted** require a parameter file. A caller passing
  `parameterFilePath=None` to `runCLIWithParameterFile` while a stale deletion
  mark is set would make cleanup call `os.path.isfile(None)`, which raises;
  that case is not modelled. Without the mark the check is never reached.
- **Where the observer is removed.** The status observer is added to the CLI
  node (`SlicerRadiomics.py:576`), but cleanup passes its tag to
  `slicer.mrmlScene.RemoveObserver` (`SlicerRadiomics.py:613`). The model
  records the tags on each side separately. What the scene does with a tag it
  did not issue is not modelled, and the observer on the CLI node is not
  modelled as removed.
- **ParameterFiles.PathJoin** follows POSIX `os.path.join` only. On Windows
  `ntpath` also accepts `\` as a separator and handles drive letters; that is
  not modelled.
- **CliAdapter.Rewrite** requires that `sys.argv[1]` exists and that a
  `--label` is followed by a value. The script indexes both without a check
  and raises `IndexError` otherwise.
- **Printing the module's XML description and PyRadiomics' own argument
  parsing** (`parse_args`) are outside this model. `Rewrite` returns
  `PrintDescription` instead of printing.
