/**
 * The extraction batch on values: the state `SlicerRadiomicsLogic` keeps
 * between calls, and one function per operation giving the state after
 * it. The class in module Logic is proved to follow these functions; the
 * lemmas here say what a whole batch does.
 */
module Batch {
  import opened Options
  import opened Tables
  import opened Accumulator
  import opened Regions
  import opened ParameterFiles
  import Text

  /** The parameters `_startCLI` passes to the CLI module for one region (node IDs, file, label value). */
  datatype Job = Job(image: string, mask: string, parameterFile: string, labelValue: int)

  /**
   * How a job ended, as the CLI node and the CLI's output table report it:
   * the status string, the error text and the one-row result table.
   */
  datatype JobOutcome = JobOutcome(status: string, errorText: string, output: ResultRow)

  /**
   * What the application supplies: the outcome of the n-th job this logic
   * runs with `wait_for_completion`, the tag `AddObserver` returns, and
   * `slicer.app.temporaryPath`.
   */
  datatype Host = Host(blockingRun: nat -> JobOutcome, observerTag: nat, temporaryPath: string)

  /**
   * `_labelGenerators`: unset, the plain empty list left when neither a
   * label map nor a segmentation is given, or the chained generators with
   * the regions they have yet to yield.
   */
  datatype Generators = Unset | EmptyList | Chained(remaining: seq<Region>)

  /** What the logic reports while it works: logged warnings, printed error texts, and the jobs it ran. */
  datatype Log = Log(warnings: seq<string>, errors: seq<string>, jobs: seq<Job>)

  /**
   * The fields that drive a batch and clean up after it, which processing
   * one job leaves alone, together with what the logic does to the
   * application through them: the tags of the observers added to a CLI
   * node, the tags passed to the scene's `RemoveObserver` (the scene, not
   * the CLI node the observer was added to), the callbacks invoked, and
   * the files the logic writes or deletes.
   */
  datatype Control = Control(
    cliRunning: bool,
    observerTag: Option<nat>,
    deleteParameterFile: bool,
    callback: Option<nat>,
    runSync: bool,
    files: map<string, FileContent>,
    cliNodeObserversAdded: seq<nat>,
    sceneObserversRemoved: seq<nat>,
    callbacks: seq<nat>)

  /**
   * The fields of `SlicerRadiomicsLogic`. `cliNode` holds the parameters
   * of the last job run on the CLI node; `cliOutput` the content of the
   * temporary result table; `table` the content of the output table node;
   * `featureNames` the row of each feature key.
   */
  datatype State = State(
    cliNode: Option<Job>,
    generators: Generators,
    parameterFile: Option<string>,
    labelName: Option<string>,
    cliOutput: Option<ResultRow>,
    featureNames: map<string, nat>,
    table: Option<TableValue>,
    log: Log,
    control: Control)

  /** What a notification from an observed node says: is it a CLI node, its status string, whether it is busy. */
  datatype Notification = Notification(isCliNode: bool, status: string, busy: bool, errorText: string, output: ResultRow)

  /** How a call to `runCLI` or `runCLIWithParameterFile` ends. */
  datatype Launch =
    | Refused   // an extraction is already running: a warning, nothing else
    | Raised    // no label map and no segmentation: `next()` on a plain list raises AttributeError
    | Launched

  /** The prefix `_cli_done` strips from the CLI's error text before printing it. */
  const ErrorBanner: string := "RadiomicsCLI standard error:\n\n"

  /**
   * The invariant the logic keeps between calls: the output table and
   * `_featureNames` agree (one row per key, the three header columns
   * first); without an output table and between runs no key is recorded;
   * a running job has its generators, parameter file, temporary table and
   * region name.
   */
  ghost predicate Valid(s: State)
  {
    TableAgrees(s) && Wired(s)
  }

  ghost predicate TableAgrees(s: State)
  {
    s.table.Some? ==> Consistent(Acc(s.table.value, s.featureNames)) && HeadersFirst(s.table.value)
  }

  /** The first three columns are the header columns. */
  ghost predicate HeadersFirst(t: TableValue)
  {
    && |t.columns| >= 3
    && t.columns[0].name == Headers[0] && t.columns[1].name == Headers[1] && t.columns[2].name == Headers[2]
  }

  ghost predicate Wired(s: State)
  {
    && (s.table.None? || s.cliNode.None? ==> s.featureNames == map[])
    && (s.generators.Chained? ==> s.parameterFile.Some? && s.cliOutput.Some?)
    && (s.cliNode.Some? ==> s.generators.Chained? && s.labelName.Some?)
  }

  /** A new logic object: nothing running, nothing set, synchronous mode off. */
  function Fresh(files: map<string, FileContent>): (s: State)
    ensures Valid(s) && s.cliNode.None? && s.table.None? && !s.control.runSync
  {
    State(None, Unset, None, None, None, map[], None, Log([], [], []),
          Control(false, None, false, None, false, files, [], [], []))
  }

  function Warn(s: State, message: string): (r: State)
    ensures r.log.warnings == s.log.warnings + [message]
  {
    s.(log := s.log.(warnings := s.log.warnings + [message]))
  }

  /** The warnings the loop of `_processResults` logs: one per skipped key other than `Image` and `Mask`. */
  function SkipWarnings(cells: ResultRow): seq<string>
    decreases |cells|
  {
    if cells == [] then []
    else if WarnsOnSkip(cells[|cells| - 1].key) then SkipWarnings(cells[..|cells| - 1]) + ["Skipping key " + cells[|cells| - 1].key]
    else SkipWarnings(cells[..|cells| - 1])
  }

  /** The indices of the cells `_processResults` warns about. */
  ghost function WarnedIndices(cells: ResultRow): set<nat>
  {
    set i: nat | i < |cells| && WarnsOnSkip(cells[i].key)
  }

  lemma WarnedIndicesSnoc(cells: ResultRow)
    requires cells != []
    ensures var n := |cells| - 1;
      WarnedIndices(cells) == WarnedIndices(cells[..n]) + (if WarnsOnSkip(cells[n].key) then {n} else {})
  {
    var n := |cells| - 1;
    forall i: nat
      ensures i in WarnedIndices(cells) <==> i in WarnedIndices(cells[..n]) || (i == n && WarnsOnSkip(cells[n].key))
    {
      if i < n {
        assert cells[..n][i] == cells[i];
      }
    }
  }

  /** Each key with too few parts other than `Image` and `Mask` is reported once. */
  lemma {:induction false} SkipWarningsCount(cells: ResultRow)
    ensures |SkipWarnings(cells)| == |WarnedIndices(cells)|
    decreases |cells|
  {
    if cells != [] {
      var n := |cells| - 1;
      SkipWarningsCount(cells[..n]);
      WarnedIndicesSnoc(cells);
      if WarnsOnSkip(cells[n].key) {
        assert n !in WarnedIndices(cells[..n]);
      }
    }
  }

  /**
   * Nothing else is reported: every warning names a key of the row that
   * has too few parts and is neither `Image` nor `Mask`, so a feature key
   * never draws a warning.
   */
  lemma {:induction false} SkipWarningsFrom(cells: ResultRow)
    ensures forall w :: w in SkipWarnings(cells) ==>
      exists c :: c in cells && WarnsOnSkip(c.key) && w == "Skipping key " + c.key
    decreases |cells|
  {
    if cells != [] {
      var init, last := cells[..|cells| - 1], cells[|cells| - 1];
      SkipWarningsFrom(init);
      forall w | w in SkipWarnings(cells)
        ensures exists c :: c in cells && WarnsOnSkip(c.key) && w == "Skipping key " + c.key
      {
        if w in SkipWarnings(init) {
          var c :| c in init && WarnsOnSkip(c.key) && w == "Skipping key " + c.key;
          assert c in cells;
        } else {
          assert last in cells;
        }
      }
    }
  }

  /**
   * `_initOutputTable`: without an output table only a warning; otherwise
   * all columns are removed and the three header columns added.
   */
  function InitOutputTable(s: State): (r: State)
    requires Wired(s) && s.featureNames == map[]
    ensures Valid(r)
  {
    if s.table.None? then Warn(s, "Output table not set!")
    else s.(table := Some(Initial().table))
  }

  /**
   * `_processResults`: without an output table or a temporary result table
   * only a warning; otherwise the result row is merged under a new column
   * named after the region, and every skipped key other than `Image` and
   * `Mask` is warned about.
   */
  function ProcessResults(s: State): (r: State)
    requires Valid(s) && s.cliNode.Some?
    ensures Valid(r)
    ensures r.cliNode == s.cliNode && r.generators == s.generators && r.parameterFile == s.parameterFile
    ensures r.labelName == s.labelName && r.cliOutput == s.cliOutput && r.control == s.control
    ensures r.log.errors == s.log.errors && r.log.jobs == s.log.jobs
    ensures r.table.Some? <==> s.table.Some?
    ensures s.table.None? ==> r == s.(log := s.log.(warnings := s.log.warnings + ["Output table not set!"]))
  {
    if s.table.None? then Warn(s, "Output table not set!")
    else if s.cliOutput.None? then Warn(s, "CLI output table not set!")
    else MergedResults(s)
  }

  /**
   * `_processResults` with both tables present: the result row merged
   * under a new column named after the region, skipped keys warned about.
   */
  function MergedResults(s: State): (r: State)
    requires Valid(s) && s.cliNode.Some? && s.table.Some? && s.cliOutput.Some?
    ensures Valid(r)
  {
    var merged := Merge(Acc(s.table.value, s.featureNames), s.labelName.value, s.cliOutput.value);
    MergeKeepsHeaders(s);
    s.(table := Some(merged.table), featureNames := merged.rows,
       log := s.log.(warnings := s.log.warnings + SkipWarnings(s.cliOutput.value)))
  }

  lemma MergeKeepsHeaders(s: State)
    requires Valid(s) && s.labelName.Some? && s.table.Some? && s.cliOutput.Some?
    ensures var merged := Merge(Acc(s.table.value, s.featureNames), s.labelName.value, s.cliOutput.value);
      Consistent(merged) && HeadersFirst(merged.table)
  {
    var a := Acc(s.table.value, s.featureNames);
    MergeLabelled(a, s.labelName.value, s.cliOutput.value);
    var merged := Merge(a, s.labelName.value, s.cliOutput.value);
    assert Names(merged.table)[..3] == Names(s.table.value)[..3];
    assert Names(s.table.value)[0] == Headers[0];
    assert Names(merged.table)[0] == Headers[0];
  }

  /** The CLI's error text, if any, printed without its banner, and the temporary table holding what the CLI wrote. */
  function Recorded(s: State, outcome: JobOutcome): (r: State)
    requires Valid(s) && s.cliNode.Some?
    ensures Valid(r)
    ensures r.cliOutput == Some(outcome.output)
    ensures r.log.errors
      == s.log.errors + (if outcome.errorText != "" then [Text.RemoveAll(outcome.errorText, ErrorBanner)] else [])
    ensures r.log.warnings == s.log.warnings && r.log.jobs == s.log.jobs
    ensures r.(cliOutput := s.cliOutput, log := s.log) == s
  {
    var errors := if outcome.errorText != "" then s.log.errors + [Text.RemoveAll(outcome.errorText, ErrorBanner)]
                  else s.log.errors;
    s.(cliOutput := Some(outcome.output), log := s.log.(errors := errors))
  }

  /**
   * `_cli_done` up to its call of `_startCLI`: the CLI's error text, if
   * any, is printed without its banner, the temporary table holds what the
   * CLI wrote, and a completed job's results are processed.
   */
  function Complete(s: State, outcome: JobOutcome): (r: State)
    requires Valid(s) && s.cliNode.Some?
    ensures Valid(r)
    ensures r.cliNode == s.cliNode && r.generators == s.generators && r.parameterFile == s.parameterFile
    ensures r.labelName == s.labelName && r.control == s.control && r.log.jobs == s.log.jobs
    ensures r.table.Some? <==> s.table.Some?
    ensures r.log.errors
      == s.log.errors + (if outcome.errorText != "" then [Text.RemoveAll(outcome.errorText, ErrorBanner)] else [])
  {
    var t := Recorded(s, outcome);
    if outcome.status == "Completed" then ProcessResults(t) else t
  }

  /**
   * What `_cli_done` does to the output table: a completed job's row is
   * merged under the region's name, any other outcome leaves the table and
   * the feature rows as they were.
   */
  lemma CompleteTable(s: State, outcome: JobOutcome)
    requires Valid(s) && s.cliNode.Some? && s.table.Some?
    ensures var r := Complete(s, outcome);
      && r.table.Some?
      && (outcome.status == "Completed" ==>
            Acc(r.table.value, r.featureNames) == Merge(Acc(s.table.value, s.featureNames), s.labelName.value, outcome.output))
      && (outcome.status != "Completed" ==> r.table == s.table && r.featureNames == s.featureNames)
  {
  }

  /** The job `_startCLI` runs for region `r`. */
  function JobFor(r: Region, parameterFile: string): Job
  {
    Job(r.image.id, r.mask.id, parameterFile, r.labelValue)
  }

  /** `_startCLI` taking the next region and running its job on the CLI node. */
  function Submit(s: State): (r: State)
    requires Valid(s) && s.generators.Chained? && s.generators.remaining != []
    ensures Valid(r) && r.cliNode.Some? && r.generators.Chained?
    ensures r.generators.remaining == s.generators.remaining[1..]
    ensures r.log.jobs == s.log.jobs + [JobFor(s.generators.remaining[0], s.parameterFile.value)]
    ensures r.parameterFile == s.parameterFile && r.control == s.control && r.table == s.table
    ensures r.labelName == Some(s.generators.remaining[0].name) && r.featureNames == s.featureNames
  {
    var region := s.generators.remaining[0];
    var job := JobFor(region, s.parameterFile.value);
    s.(generators := Chained(s.generators.remaining[1..]), labelName := Some(region.name), cliNode := Some(job),
       log := s.log.(jobs := s.log.jobs + [job]))
  }

  /**
   * The synchronous part of a batch: each remaining region's job is run to
   * completion (the n-th job of this logic ending as `h.blockingRun(n)`)
   * and its results merged, until no region remains.
   */
  function Drain(h: Host, s: State): (r: State)
    requires Valid(s) && s.generators.Chained?
    ensures Valid(r) && r.generators == Chained([])
    ensures r.table.Some? <==> s.table.Some?
    ensures r.control == s.control && r.parameterFile == s.parameterFile
    decreases |s.generators.remaining|
  {
    if s.generators.remaining == [] then s
    else
      var t := Submit(s);
      Drain(h, Complete(t, h.blockingRun(|s.log.jobs|)))
  }

  /** The status observer added to the CLI node, its tag kept. */
  function Observed(h: Host, s: State): (r: State)
    requires Valid(s)
    ensures Valid(r) && r.table == s.table
  {
    s.(control := s.control.(observerTag := Some(h.observerTag), cliNodeObserversAdded := s.control.cliNodeObserversAdded + [h.observerTag]))
  }

  /** An asynchronous `_startCLI`: the next job is started, and on the first run the status observer is added. */
  function SubmitAsync(h: Host, s: State, firstRun: bool): (r: State)
    requires Valid(s) && s.generators.Chained? && s.generators.remaining != []
    ensures Valid(r) && r.table == s.table
  {
    var t := Submit(s);
    if firstRun then Observed(h, t) else t
  }

  /**
   * The scene's `RemoveObserver` called with the observer tag, if one is
   * kept, and the tag cleared. The observer itself sits on the CLI node,
   * which this call does not touch.
   */
  function Unobserved(s: State): State
  {
    var c := s.control;
    var removed := if c.observerTag.Some? then c.sceneObserversRemoved + [c.observerTag.value] else c.sceneObserversRemoved;
    s.(control := c.(observerTag := None, sceneObserversRemoved := removed))
  }

  /** The parameter file deleted when it is marked for deletion and exists, and the mark cleared. */
  function ParameterFileDeleted(s: State): State
    requires s.parameterFile.Some?
  {
    var c := s.control;
    var path := s.parameterFile.value;
    var files := if c.deleteParameterFile && path in c.files then c.files - {path} else c.files;
    s.(control := c.(deleteParameterFile := false, files := files))
  }

  /** Every per-run field reset: CLI node, parameter file, generators, output table, feature rows, temporary table, region name. */
  function RunReset(s: State): State
  {
    s.(cliNode := None, generators := Unset, parameterFile := None, labelName := None, cliOutput := None,
       featureNames := map[], table := None)
  }

  /** The callback called, if one is set, and cleared. */
  function CalledBack(s: State): State
  {
    var c := s.control;
    s.(control := c.(callback := None, callbacks := Called(c.callbacks, c.callback)))
  }

  /**
   * `_onFinished`: the observer tag is passed to the scene's
   * `RemoveObserver` and cleared, the CLI node
   * dropped, a parameter file the logic wrote itself deleted, every
   * per-run field reset, and the callback called once and cleared.
   */
  function Finished(s: State): (r: State)
    requires s.parameterFile.Some?
    ensures Valid(r) && r.log == s.log
    ensures r.cliNode.None? && r.generators.Unset? && r.table.None? && r.parameterFile.None? && r.featureNames == map[]
    ensures r.control.callbacks == Called(s.control.callbacks, s.control.callback) && r.control.callback.None?
    ensures r.control.observerTag.None? && !r.control.deleteParameterFile
    ensures r.control.files == if s.control.deleteParameterFile && s.parameterFile.value in s.control.files
                               then s.control.files - {s.parameterFile.value} else s.control.files
    ensures r.control.sceneObserversRemoved == if s.control.observerTag.Some? then s.control.sceneObserversRemoved + [s.control.observerTag.value]
                                          else s.control.sceneObserversRemoved
  {
    CalledBack(RunReset(ParameterFileDeleted(Unobserved(s))))
  }

  /**
   * The state `_startCLI` leaves before it would clean up: unchanged when
   * no region remains, every region processed in synchronous mode, the
   * next job started otherwise.
   */
  function Advance(h: Host, s: State, firstRun: bool): (r: State)
    requires Valid(s) && s.generators.Chained?
    ensures Valid(r) && r.generators.Chained?
    ensures r.table.Some? <==> s.table.Some?
  {
    if s.generators.remaining == [] then s
    else if s.control.runSync then Drain(h, s)
    else SubmitAsync(h, s, firstRun)
  }

  /** `_startCLI`: advance, and clean up once the generators are exhausted. */
  function Start(h: Host, s: State, firstRun: bool): (r: State)
    requires Valid(s) && s.generators.Chained?
    ensures Valid(r)
  {
    var t := Advance(h, s, firstRun);
    if s.generators.remaining == [] || s.control.runSync then Finished(t) else t
  }

  /** Whether a notification makes `_onStatus` call `_cli_done`. */
  predicate EndsJob(s: State, n: Notification)
  {
    n.isCliNode && s.control.cliRunning && !n.busy
  }

  /** How the job a notification ends went, as the CLI node and the temporary table report it. */
  function Reported(n: Notification): JobOutcome
  {
    JobOutcome(n.status, n.errorText, n.output)
  }

  /** The state with `_cli_running` cleared, as `_onStatus` leaves it before calling `_cli_done`. */
  function Acknowledged(s: State): (r: State)
    ensures Valid(s) ==> Valid(r)
  {
    s.(control := s.control.(cliRunning := false))
  }

  /**
   * `_onStatus`: notifications from other nodes are ignored; while a job
   * runs, the first one saying the CLI is no longer busy completes the job
   * and starts the next; otherwise status `Running` marks the job started.
   */
  function OnStatus(h: Host, s: State, n: Notification): (r: State)
    requires Valid(s) && (EndsJob(s, n) ==> s.cliNode.Some?)
    ensures Valid(r)
  {
    if !n.isCliNode then s
    else if s.control.cliRunning then
      if !n.busy then Start(h, Complete(Acknowledged(s), Reported(n)), false)
      else s
    else if n.status == "Running" then s.(control := s.control.(cliRunning := true))
    else s
  }

  /**
   * One round of the synchronous recursion between `_startCLI` and
   * `_cli_done`: running the next job to completion and starting again
   * ends in the same state, and leaves the same output table behind, as
   * the synchronous start it continues.
   */
  lemma SyncStartStep(h: Host, s: State, firstRun: bool)
    requires Valid(s) && s.generators.Chained? && s.generators.remaining != [] && s.control.runSync
    ensures var c := Complete(Submit(s), h.blockingRun(|s.log.jobs|));
      && Start(h, c, false) == Start(h, s, firstRun)
      && Advance(h, c, false).table == Advance(h, s, firstRun).table
  {
  }

  /** The generators `runCLIWithParameterFile` sets up: the label map's regions, then the segmentation's. */
  function GeneratorsFor(labelMap: Option<LabelMapInput>, segmentation: Option<SegmentationInput>,
                         image: Node, scratch: Node): Generators
  {
    if labelMap.None? && segmentation.None? then EmptyList
    else Chained(Enumerate(labelMap, segmentation, image, scratch))
  }

  /** The parameter file, the generators, a fresh empty temporary table and the output table recorded. */
  function Prepared(s: State, image: Node, labelMap: Option<LabelMapInput>, segmentation: Option<SegmentationInput>,
                    scratch: Node, table: Option<TableValue>, parameterFile: string): (r: State)
    requires Valid(s) && s.cliNode.None?
    ensures Wired(r) && r.featureNames == map[]
  {
    s.(parameterFile := Some(parameterFile), generators := GeneratorsFor(labelMap, segmentation, image, scratch),
       cliOutput := Some([]), table := table)
  }

  /** The callback recorded. */
  function WithCallback(s: State, callback: Option<nat>): (r: State)
    requires Valid(s)
    ensures Valid(r)
  {
    s.(control := s.control.(callback := callback))
  }

  /**
   * `runCLIWithParameterFile` up to its call of `_startCLI`: the parameter
   * file, the generators, a fresh empty temporary table, the output table
   * (initialised) and the callback are recorded.
   */
  function Setup(s: State, image: Node, labelMap: Option<LabelMapInput>, segmentation: Option<SegmentationInput>,
                 scratch: Node, table: Option<TableValue>, parameterFile: string, callback: Option<nat>): (r: State)
    requires Valid(s) && s.cliNode.None?
    ensures Valid(r) && r.cliNode.None?
    ensures r.generators == GeneratorsFor(labelMap, segmentation, image, scratch)
    ensures r.parameterFile == Some(parameterFile) && r.featureNames == map[]
    ensures r.table == if table.Some? then Some(Initial().table) else None
    ensures r.cliOutput == Some([]) && r.labelName == s.labelName
    ensures r.log == s.log.(warnings := s.log.warnings + (if table.None? then ["Output table not set!"] else []))
    ensures r.control == s.control.(callback := callback)
  {
    var t := Prepared(s, image, labelMap, segmentation, scratch, table, parameterFile);
    WithCallback(InitOutputTable(t), callback)
  }

  /** `runCLIWithParameterFile`. */
  function RunWithParameterFile(h: Host, s: State, image: Node, labelMap: Option<LabelMapInput>,
                                segmentation: Option<SegmentationInput>, scratch: Node, table: Option<TableValue>,
                                parameterFile: string, callback: Option<nat>): (r: State)
    requires Valid(s)
    ensures Valid(r)
  {
    if s.cliNode.Some? then Warn(s, "Already running an extraction!")
    else
      var t := Setup(s, image, labelMap, segmentation, scratch, table, parameterFile, callback);
      if t.generators.EmptyList? then t else Start(h, t, true)
  }

  /** The path `runCLI` writes its configuration to. */
  function GeneratedPath(h: Host): string
  {
    PathJoin(h.temporaryPath, ParameterFileName)
  }

  /**
   * `runCLI` before it hands over to `runCLIWithParameterFile`: the
   * configuration, with `correctMask` forced on, is written to the
   * temporary parameter file, which is marked for deletion.
   */
  function WriteConfiguration(h: Host, s: State, config: Configuration): (r: State)
    requires Valid(s)
    ensures Valid(r)
  {
    s.(control := s.control.(deleteParameterFile := true, files := s.control.files[GeneratedPath(h) := Generated(config)]))
  }

  /** `runCLI`: refused while an extraction runs; otherwise it writes the configuration and runs with that file. */
  function RunCLI(h: Host, s: State, image: Node, labelMap: Option<LabelMapInput>, segmentation: Option<SegmentationInput>,
                  scratch: Node, table: Option<TableValue>, settings: map<string, JsonValue>, featureClasses: set<string>,
                  imageTypes: map<string, JsonValue>, callback: Option<nat>): (r: State)
    requires Valid(s)
    ensures Valid(r)
  {
    if s.cliNode.Some? then Warn(s, "Already running an extraction!")
    else
      var t := WriteConfiguration(h, s, Configuration(WithCorrectMask(settings), featureClasses, imageTypes));
      RunWithParameterFile(h, t, image, labelMap, segmentation, scratch, table, GeneratedPath(h), callback)
  }

  /**
   * The content of the output table node handed to `runCLIWithParameterFile`
   * when the call returns: untouched when refused, the bare headers when
   * the call raises, and otherwise what the batch has written into it so
   * far (all of it in synchronous mode).
   */
  function TableAfterRun(h: Host, s: State, image: Node, labelMap: Option<LabelMapInput>,
                         segmentation: Option<SegmentationInput>, scratch: Node, table: Option<TableValue>,
                         parameterFile: string, callback: Option<nat>): (r: Option<TableValue>)
    requires Valid(s)
    ensures r.Some? <==> table.Some?
  {
    if s.cliNode.Some? then table
    else
      var t := Setup(s, image, labelMap, segmentation, scratch, table, parameterFile, callback);
      if t.generators.EmptyList? then t.table else Advance(h, t, true).table
  }

  // ---------------------------------------------------------------------
  // What a batch computes
  // ---------------------------------------------------------------------

  /** A completed region's result: the column it gets and the row the CLI wrote. */
  datatype RegionResult = RegionResult(columnName: string, cells: ResultRow)

  /** The result of one region's job: a column for it when the job completed, nothing otherwise. */
  function ResultOf(columnName: string, outcome: JobOutcome): seq<RegionResult>
  {
    if outcome.status == "Completed" then [RegionResult(columnName, outcome.output)] else []
  }

  /** The results of the regions whose job completes, the i-th region's job ending as `outcomes[i]`. */
  function CompletedResults(regions: seq<Region>, outcomes: seq<JobOutcome>): seq<RegionResult>
    requires |outcomes| == |regions|
    decreases |regions|
  {
    if regions == [] then []
    else ResultOf(regions[0].name, outcomes[0]) + CompletedResults(regions[1..], outcomes[1..])
  }

  /** How `k` blocking jobs end, the first being this logic's `n`-th job. */
  function BlockingOutcomes(h: Host, n: nat, k: nat): (outcomes: seq<JobOutcome>)
    ensures |outcomes| == k
    decreases k
  {
    if k == 0 then [] else [h.blockingRun(n)] + BlockingOutcomes(h, n + 1, k - 1)
  }

  /** Merging several results in order. */
  function MergeAll(a: Acc, results: seq<RegionResult>): (r: Acc)
    requires Indexed(a)
    ensures Indexed(r)
    decreases |results|
  {
    if results == [] then a
    else MergeAll(Merge(a, results[0].columnName, results[0].cells), results[1..])
  }

  /** Merging several results keeps the accumulator's invariant. */
  lemma {:induction false} MergeAllLabelled(a: Acc, results: seq<RegionResult>)
    requires Consistent(a)
    ensures Consistent(MergeAll(a, results))
    decreases |results|
  {
    if results != [] {
      MergeLabelled(a, results[0].columnName, results[0].cells);
      MergeAllLabelled(Merge(a, results[0].columnName, results[0].cells), results[1..]);
    }
  }

  function ColumnNames(results: seq<RegionResult>): (names: seq<string>)
    decreases |results|
  {
    if results == [] then [] else [results[0].columnName] + ColumnNames(results[1..])
  }

  /** The keys that get a row from some result. */
  function AllFeatureKeys(results: seq<RegionResult>): set<string>
    decreases |results|
  {
    if results == [] then {} else FeatureKeys(results[0].cells) + AllFeatureKeys(results[1..])
  }

  lemma AppendShift<T>(x: seq<T>, c: T, y: seq<T>)
    ensures (x + [c]) + y == x + ([c] + y)
  {
  }

  /** After several results the table has one more column per result, in order, named after its region. */
  lemma {:induction false} MergeAllNames(a: Acc, results: seq<RegionResult>)
    requires Indexed(a)
    ensures Names(MergeAll(a, results).table) == Names(a.table) + ColumnNames(results)
    decreases |results|
  {
    if results != [] {
      var c := results[0].columnName;
      var b := Merge(a, c, results[0].cells);
      MergeAllNames(b, results[1..]);
      AppendShift(Names(a.table), c, ColumnNames(results[1..]));
    }
  }

  /**
   * After several results a key has a row exactly when it had one before
   * or some result has it, rows never move, and there is one row per key.
   */
  lemma {:induction false} MergeAllRows(a: Acc, results: seq<RegionResult>)
    requires Indexed(a)
    ensures var r := MergeAll(a, results);
      && (forall k :: k in r.rows <==> k in a.rows || k in AllFeatureKeys(results))
      && (forall k :: k in a.rows ==> r.rows[k] == a.rows[k])
      && r.table.rowCount == |r.rows|
    decreases |results|
  {
    if results != [] {
      var b := Merge(a, results[0].columnName, results[0].cells);
      MergeRows(a, results[0].columnName, results[0].cells);
      MergeAllRows(b, results[1..]);
    }
  }

  /** Merging one region's result ahead of the rest is merging it first (when the job completed), then the rest. */
  lemma ResultMerged(a: Acc, columnName: string, outcome: JobOutcome, rest: seq<RegionResult>)
    requires Indexed(a)
    ensures MergeAll(a, ResultOf(columnName, outcome) + rest)
      == MergeAll(if outcome.status == "Completed" then Merge(a, columnName, outcome.output) else a, rest)
  {
    if outcome.status == "Completed" {
      assert (ResultOf(columnName, outcome) + rest)[1..] == rest;
    } else {
      assert ResultOf(columnName, outcome) + rest == rest;
    }
  }

  /** The results a blocking drain of `s` merges: its remaining regions, run from its next job number on. */
  function SyncResults(h: Host, s: State): seq<RegionResult>
    requires s.generators.Chained?
  {
    var regions := s.generators.remaining;
    CompletedResults(regions, BlockingOutcomes(h, |s.log.jobs|, |regions|))
  }

  /** The jobs run for `regions`, in order. */
  function JobsFor(regions: seq<Region>, parameterFile: string): (jobs: seq<Job>)
    decreases |regions|
  {
    if regions == [] then [] else [JobFor(regions[0], parameterFile)] + JobsFor(regions[1..], parameterFile)
  }

  /** A synchronous drain runs one job per remaining region, in order. */
  lemma {:induction false} DrainJobs(h: Host, s: State)
    requires Valid(s) && s.generators.Chained?
    ensures Drain(h, s).log.jobs == s.log.jobs + JobsFor(s.generators.remaining, s.parameterFile.value)
    decreases |s.generators.remaining|
  {
    var regions := s.generators.remaining;
    if regions != [] {
      var p := s.parameterFile.value;
      var u := Complete(Submit(s), h.blockingRun(|s.log.jobs|));
      DrainJobs(h, u);
      AppendShift(s.log.jobs, JobFor(regions[0], p), JobsFor(regions[1..], p));
    }
  }

  /** One step of a synchronous drain: the first completed result is merged, the rest are left to the next step. */
  lemma DrainStepMerges(h: Host, s: State)
    requires Valid(s) && s.generators.Chained? && s.generators.remaining != [] && s.table.Some?
    ensures var u := Complete(Submit(s), h.blockingRun(|s.log.jobs|));
      && u.table.Some? && |u.log.jobs| == |s.log.jobs| + 1
      && MergeAll(Acc(s.table.value, s.featureNames), SyncResults(h, s))
         == MergeAll(Acc(u.table.value, u.featureNames), SyncResults(h, u))
  {
    var regions := s.generators.remaining;
    var n := |s.log.jobs|;
    var outcome := h.blockingRun(n);
    var t := Submit(s);
    CompleteTable(t, outcome);
    var later := CompletedResults(regions[1..], BlockingOutcomes(h, n + 1, |regions| - 1));
    assert BlockingOutcomes(h, n, |regions|)[1..] == BlockingOutcomes(h, n + 1, |regions| - 1);
    ResultMerged(Acc(s.table.value, s.featureNames), regions[0].name, outcome, later);
  }

  /** A synchronous drain merges exactly the completed results into the output table, in order. */
  lemma {:induction false} DrainTable(h: Host, s: State)
    requires Valid(s) && s.generators.Chained? && s.table.Some?
    ensures var r := Drain(h, s);
      var merged := MergeAll(Acc(s.table.value, s.featureNames), SyncResults(h, s));
      r.table == Some(merged.table) && r.featureNames == merged.rows
    decreases |s.generators.remaining|
  {
    if s.generators.remaining != [] {
      DrainStepMerges(h, s);
      DrainTable(h, Complete(Submit(s), h.blockingRun(|s.log.jobs|)));
    }
  }

  // ---------------------------------------------------------------------
  // Whole calls
  // ---------------------------------------------------------------------

  /** The callbacks list after `_onFinished` calls `callback`, if one is set. */
  function Called(callbacks: seq<nat>, callback: Option<nat>): seq<nat>
  {
    if callback.Some? then callbacks + [callback.value] else callbacks
  }

  /**
   * A synchronous `runCLIWithParameterFile` on an idle logic with a label
   * map or a segmentation runs one job per region, in order, with the
   * given parameter file.
   */
  lemma SyncRunJobs(h: Host, s: State, image: Node, labelMap: Option<LabelMapInput>,
                    segmentation: Option<SegmentationInput>, scratch: Node, table: Option<TableValue>,
                    parameterFile: string, callback: Option<nat>)
    requires Valid(s) && s.cliNode.None? && s.control.runSync && (labelMap.Some? || segmentation.Some?)
    ensures RunWithParameterFile(h, s, image, labelMap, segmentation, scratch, table, parameterFile, callback).log.jobs
      == s.log.jobs + JobsFor(Enumerate(labelMap, segmentation, image, scratch), parameterFile)
  {
    var t := Setup(s, image, labelMap, segmentation, scratch, table, parameterFile, callback);
    if t.generators.remaining != [] {
      DrainJobs(h, t);
    }
  }

  /**
   * A synchronous `runCLIWithParameterFile` on an idle logic with a label
   * map or a segmentation cleans up before it returns: no CLI node, no
   * generators, no output table, the callback called once, and the
   * parameter file deleted exactly when the logic has it marked for
   * deletion.
   */
  lemma SyncRunCleanup(h: Host, s: State, image: Node, labelMap: Option<LabelMapInput>,
                       segmentation: Option<SegmentationInput>, scratch: Node, table: Option<TableValue>,
                       parameterFile: string, callback: Option<nat>)
    requires Valid(s) && s.cliNode.None? && s.control.runSync && (labelMap.Some? || segmentation.Some?)
    ensures var r := RunWithParameterFile(h, s, image, labelMap, segmentation, scratch, table, parameterFile, callback);
      && r.cliNode.None? && r.generators.Unset? && r.table.None?
      && r.control.callbacks == Called(s.control.callbacks, callback)
      && r.control.files == (if s.control.deleteParameterFile && parameterFile in s.control.files
                             then s.control.files - {parameterFile} else s.control.files)
  {
    var t := Setup(s, image, labelMap, segmentation, scratch, table, parameterFile, callback);
    var u := Advance(h, t, true);
    assert u.control == t.control && u.parameterFile == t.parameterFile;
  }

  /**
   * In synchronous mode the output table handed to the call ends up as
   * the three header columns followed by the merge of every completed
   * region's results, in region order.
   */
  lemma SyncRunTable(h: Host, s: State, image: Node, labelMap: Option<LabelMapInput>,
                     segmentation: Option<SegmentationInput>, scratch: Node, table: Option<TableValue>,
                     parameterFile: string, callback: Option<nat>)
    requires Valid(s) && s.cliNode.None? && s.control.runSync && (labelMap.Some? || segmentation.Some?)
    requires table.Some?
    ensures var regions := Enumerate(labelMap, segmentation, image, scratch);
      TableAfterRun(h, s, image, labelMap, segmentation, scratch, table, parameterFile, callback)
      == Some(MergeAll(Initial(), CompletedResults(regions, BlockingOutcomes(h, |s.log.jobs|, |regions|))).table)
  {
    var t := Setup(s, image, labelMap, segmentation, scratch, table, parameterFile, callback);
    assert Acc(t.table.value, t.featureNames) == Initial();
    DrainTable(h, t);
  }

  /**
   * The synchronous result table: one column per completed region, named
   * after it, after the header columns; one row per distinct feature key
   * across all completed regions.
   */
  lemma SyncRunShape(h: Host, s: State, image: Node, labelMap: Option<LabelMapInput>,
                     segmentation: Option<SegmentationInput>, scratch: Node, table: Option<TableValue>,
                     parameterFile: string, callback: Option<nat>)
    requires Valid(s) && s.cliNode.None? && s.control.runSync && (labelMap.Some? || segmentation.Some?)
    requires table.Some?
    ensures var regions := Enumerate(labelMap, segmentation, image, scratch);
      var results := CompletedResults(regions, BlockingOutcomes(h, |s.log.jobs|, |regions|));
      var t := TableAfterRun(h, s, image, labelMap, segmentation, scratch, table, parameterFile, callback);
      && t.Some?
      && Names(t.value) == Headers + ColumnNames(results)
      && t.value.rowCount == |AllFeatureKeys(results)|
  {
    var regions := Enumerate(labelMap, segmentation, image, scratch);
    var results := CompletedResults(regions, BlockingOutcomes(h, |s.log.jobs|, |regions|));
    SyncRunTable(h, s, image, labelMap, segmentation, scratch, table, parameterFile, callback);
    MergeAllNames(Initial(), results);
    MergeAllRows(Initial(), results);
    var r := MergeAll(Initial(), results);
    assert r.rows.Keys == AllFeatureKeys(results);
  }

  /**
   * An asynchronous `runCLIWithParameterFile` on an idle logic with at
   * least one region starts the first region's job, adds the status
   * observer, leaves the output table with its bare header columns and
   * does not call the callback yet.
   */
  lemma AsyncRunStarts(h: Host, s: State, image: Node, labelMap: Option<LabelMapInput>,
                       segmentation: Option<SegmentationInput>, scratch: Node, table: Option<TableValue>,
                       parameterFile: string, callback: Option<nat>)
    requires Valid(s) && s.cliNode.None? && !s.control.runSync
    requires Enumerate(labelMap, segmentation, image, scratch) != []
    ensures var regions := Enumerate(labelMap, segmentation, image, scratch);
      var r := RunWithParameterFile(h, s, image, labelMap, segmentation, scratch, table, parameterFile, callback);
      && r.cliNode == Some(JobFor(regions[0], parameterFile))
      && r.log.jobs == s.log.jobs + [JobFor(regions[0], parameterFile)]
      && r.generators == Chained(regions[1..])
      && r.control.cliNodeObserversAdded == s.control.cliNodeObserversAdded + [h.observerTag]
      && r.control.observerTag == Some(h.observerTag)
      && r.control.callbacks == s.control.callbacks && r.control.callback == callback
      && r.table == (if table.Some? then Some(Initial().table) else None)
      && r.labelName == Some(regions[0].name) && r.featureNames == map[] && r.parameterFile == Some(parameterFile)
      && r.control == s.control.(callback := callback, observerTag := Some(h.observerTag),
                                 cliNodeObserversAdded := s.control.cliNodeObserversAdded + [h.observerTag])
  {
    var regions := Enumerate(labelMap, segmentation, image, scratch);
    assert labelMap.Some? || segmentation.Some?;
    var t := Setup(s, image, labelMap, segmentation, scratch, table, parameterFile, callback);
    assert t.generators == Chained(regions);
  }

  /**
   * With a label map or a segmentation that yields no region, the call
   * finishes at once: no job, the callback called once, nothing left
   * running.
   */
  lemma NoRegionsFinishes(h: Host, s: State, image: Node, labelMap: Option<LabelMapInput>,
                          segmentation: Option<SegmentationInput>, scratch: Node, table: Option<TableValue>,
                          parameterFile: string, callback: Option<nat>)
    requires Valid(s) && s.cliNode.None? && (labelMap.Some? || segmentation.Some?)
    requires Enumerate(labelMap, segmentation, image, scratch) == []
    ensures var r := RunWithParameterFile(h, s, image, labelMap, segmentation, scratch, table, parameterFile, callback);
      && r.cliNode.None? && r.generators.Unset? && r.log.jobs == s.log.jobs
      && r.control.callbacks == Called(s.control.callbacks, callback)
      && r.control.cliNodeObserversAdded == s.control.cliNodeObserversAdded
  {
    var t := Setup(s, image, labelMap, segmentation, scratch, table, parameterFile, callback);
    assert t.generators == Chained([]);
  }

  /**
   * Without a label map and a segmentation the generators stay a plain
   * list, and `_startCLI` raises: no job, no callback, and the state set
   * up for the run (the parameter file, the header-only output table, the
   * callback, the deletion mark) stays behind.
   */
  lemma NoSourcesRaises(h: Host, s: State, image: Node, scratch: Node, table: Option<TableValue>,
                        parameterFile: string, callback: Option<nat>)
    requires Valid(s) && s.cliNode.None?
    ensures var r := RunWithParameterFile(h, s, image, None, None, scratch, table, parameterFile, callback);
      && r.generators.EmptyList? && r.cliNode.None? && r.parameterFile == Some(parameterFile)
      && r.log.jobs == s.log.jobs && r.control == s.control.(callback := callback)
      && TableAfterRun(h, s, image, None, None, scratch, table, parameterFile, callback)
         == (if table.Some? then Some(Initial().table) else None)
  {
  }

  /** While an extraction runs, both entry points only warn and change nothing else: no file is written. */
  lemma BusyRefuses(h: Host, s: State, image: Node, labelMap: Option<LabelMapInput>,
                    segmentation: Option<SegmentationInput>, scratch: Node, table: Option<TableValue>,
                    settings: map<string, JsonValue>, featureClasses: set<string>, imageTypes: map<string, JsonValue>,
                    parameterFile: string, callback: Option<nat>)
    requires Valid(s) && s.cliNode.Some?
    ensures RunCLI(h, s, image, labelMap, segmentation, scratch, table, settings, featureClasses, imageTypes, callback)
      == s.(log := s.log.(warnings := s.log.warnings + ["Already running an extraction!"]))
    ensures RunWithParameterFile(h, s, image, labelMap, segmentation, scratch, table, parameterFile, callback)
      == s.(log := s.log.(warnings := s.log.warnings + ["Already running an extraction!"]))
  {
  }

  /**
   * `runCLI` writes the configuration, with `correctMask` set and every
   * other setting kept, to the parameter file under the temporary
   * directory and runs with that file; in synchronous mode the file is
   * gone again when the call returns.
   */
  lemma RunCLIWritesConfiguration(h: Host, s: State, image: Node, labelMap: Option<LabelMapInput>,
                                  segmentation: Option<SegmentationInput>, scratch: Node, table: Option<TableValue>,
                                  settings: map<string, JsonValue>, featureClasses: set<string>,
                                  imageTypes: map<string, JsonValue>, callback: Option<nat>)
    requires Valid(s) && s.cliNode.None? && s.control.runSync && (labelMap.Some? || segmentation.Some?)
    ensures var path := GeneratedPath(h);
      var w := WriteConfiguration(h, s, Configuration(WithCorrectMask(settings), featureClasses, imageTypes));
      var r := RunCLI(h, s, image, labelMap, segmentation, scratch, table, settings, featureClasses, imageTypes, callback);
      && path in w.control.files
      && w.control.files[path].Generated? && w.control.files[path].config.setting["correctMask"] == JBool(true)
      && r.log.jobs == s.log.jobs + JobsFor(Enumerate(labelMap, segmentation, image, scratch), path)
      && r.control.files == s.control.files - {path}
  {
    var path := GeneratedPath(h);
    var w := WriteConfiguration(h, s, Configuration(WithCorrectMask(settings), featureClasses, imageTypes));
    SyncRunJobs(h, w, image, labelMap, segmentation, scratch, table, path, callback);
    SyncRunCleanup(h, w, image, labelMap, segmentation, scratch, table, path, callback);
  }

  /**
   * The deletion mark outlives a failed call: after a `runCLI` without a
   * label map and a segmentation raises, a synchronous
   * `runCLIWithParameterFile` on the same logic deletes the caller's own
   * parameter file when it finishes.
   */
  lemma StaleDeletionMark(h: Host, s: State, image: Node, labelMap: Option<LabelMapInput>,
                          segmentation: Option<SegmentationInput>, scratch: Node, table: Option<TableValue>,
                          settings: map<string, JsonValue>, featureClasses: set<string>,
                          imageTypes: map<string, JsonValue>, parameterFile: string, callback: Option<nat>)
    requires Valid(s) && s.cliNode.None? && s.control.runSync && (labelMap.Some? || segmentation.Some?)
    requires parameterFile in s.control.files && parameterFile != GeneratedPath(h)
    ensures var failed := RunCLI(h, s, image, None, None, scratch, table, settings, featureClasses, imageTypes, callback);
      var r := RunWithParameterFile(h, failed, image, labelMap, segmentation, scratch, table, parameterFile, callback);
      && Valid(failed) && failed.cliNode.None? && parameterFile in failed.control.files
      && parameterFile !in r.control.files
  {
    var failed := RunCLI(h, s, image, None, None, scratch, table, settings, featureClasses, imageTypes, callback);
    assert failed.control.deleteParameterFile && failed.control.runSync;
    SyncRunCleanup(h, failed, image, labelMap, segmentation, scratch, table, parameterFile, callback);
  }

  /**
   * A notification that does not end a job changes nothing but the
   * running flag, which is raised by a CLI node reporting `Running`.
   */
  lemma OnStatusQuiet(h: Host, s: State, n: Notification)
    requires Valid(s) && !EndsJob(s, n)
    ensures var r := OnStatus(h, s, n);
      && r.control.cliRunning == (s.control.cliRunning || (n.isCliNode && n.status == "Running"))
      && r.(control := s.control) == s && r.control.(cliRunning := s.control.cliRunning) == s.control
  {
  }

  /**
   * The notification ending an asynchronous job with regions left: a
   * completed job's row is merged into the output table under the
   * region's name (any other status leaves the table alone), and the next
   * region's job is started without adding another observer.
   */
  lemma OnStatusNext(h: Host, s: State, n: Notification)
    requires Valid(s) && EndsJob(s, n) && s.cliNode.Some? && !s.control.runSync
    requires s.generators.remaining != []
    ensures var r := OnStatus(h, s, n); var next := s.generators.remaining[0];
      && r.cliNode == Some(JobFor(next, s.parameterFile.value))
      && r.log.jobs == s.log.jobs + [JobFor(next, s.parameterFile.value)]
      && r.generators == Chained(s.generators.remaining[1..])
      && r.control == s.control.(cliRunning := false)
      && r.labelName == Some(next.name)
      && (n.status == "Completed" && s.table.Some? ==>
            var merged := Merge(Acc(s.table.value, s.featureNames), s.labelName.value, n.output);
            r.table == Some(merged.table) && r.featureNames == merged.rows)
      && (n.status != "Completed" || s.table.None? ==> r.table == s.table && r.featureNames == s.featureNames)
  {
    if s.table.Some? {
      CompleteTable(Acknowledged(s), Reported(n));
    }
  }

  /**
   * The notification ending the last asynchronous job: its outcome is
   * processed and the run cleaned up, the tag passed to the scene's
   * `RemoveObserver` and cleared, and the callback called once.
   */
  lemma OnStatusLast(h: Host, s: State, n: Notification)
    requires Valid(s) && EndsJob(s, n) && s.cliNode.Some? && s.generators.remaining == []
    ensures var r := OnStatus(h, s, n);
      && r.cliNode.None? && r.generators.Unset? && r.table.None? && r.log.jobs == s.log.jobs
      && r.control.callbacks == Called(s.control.callbacks, s.control.callback)
      && r.control.sceneObserversRemoved
         == (if s.control.observerTag.Some? then s.control.sceneObserversRemoved + [s.control.observerTag.value]
             else s.control.sceneObserversRemoved)
      && r.control.observerTag.None? && !r.control.cliRunning
    ensures OnStatus(h, s, n) == Finished(Complete(Acknowledged(s), Reported(n)))
  {
  }

  // ---------------------------------------------------------------------
  // An asynchronous batch
  // ---------------------------------------------------------------------

  /** The CLI node reporting its job started: `Running`, still busy. */
  const RunningNotice: Notification := Notification(true, "Running", true, "", [])

  /** The CLI node reporting its job ended as `o`: no longer busy, with the status, error text and result row of `o`. */
  function EndNotice(o: JobOutcome): (n: Notification)
    ensures Reported(n) == o && n.isCliNode && !n.busy
  {
    Notification(true, o.status, false, o.errorText, o.output)
  }

  /** One asynchronous job as the observer sees it: the CLI node reports it running, then ended as `o`. */
  function AsyncJob(h: Host, s: State, o: JobOutcome): State
    requires Valid(s) && s.cliNode.Some?
  {
    OnStatus(h, OnStatus(h, s, RunningNotice), EndNotice(o))
  }

  /**
   * Whether or not the running flag was already up, the `Running` report
   * followed by the ending one complete the job (`_cli_done` on the state
   * with the flag cleared) and start the next one, or clean up when no
   * region remains.
   */
  lemma AsyncJobStep(h: Host, s: State, o: JobOutcome)
    requires Valid(s) && s.cliNode.Some? && !s.control.runSync
    ensures var c := Complete(Acknowledged(s), o);
      && AsyncJob(h, s, o) == Start(h, c, false)
      && (s.generators.remaining == [] ==> AsyncJob(h, s, o) == Finished(c))
      && (s.generators.remaining != [] ==> AsyncJob(h, s, o) == Submit(c))
  {
    var t := OnStatus(h, s, RunningNotice);
    assert Acknowledged(t) == Acknowledged(s);
  }

  /**
   * An asynchronous batch from its first job on: the i-th job started
   * reports running and then ends as `outcomes[i]`, one job per region.
   */
  function AsyncJobs(h: Host, s: State, outcomes: seq<JobOutcome>): (r: State)
    requires Valid(s) && s.cliNode.Some? && !s.control.runSync
    requires |outcomes| == |s.generators.remaining| + 1
    ensures Valid(r)
    decreases |outcomes|
  {
    var t := AsyncJob(h, s, outcomes[0]);
    if |outcomes| == 1 then t
    else
      AsyncJobStep(h, s, outcomes[0]);
      AsyncJobs(h, t, outcomes[1..])
  }

  /** The state of an asynchronous batch just before `_onFinished`: the last job's outcome processed. */
  function BeforeCleanup(h: Host, s: State, outcomes: seq<JobOutcome>): (r: State)
    requires Valid(s) && s.cliNode.Some? && !s.control.runSync
    requires |outcomes| == |s.generators.remaining| + 1
    ensures Valid(r) && r.cliNode.Some? && r.parameterFile == s.parameterFile
    decreases |outcomes|
  {
    if |outcomes| == 1 then Complete(Acknowledged(s), outcomes[0])
    else
      AsyncJobStep(h, s, outcomes[0]);
      BeforeCleanup(h, AsyncJob(h, s, outcomes[0]), outcomes[1..])
  }

  /**
   * An asynchronous batch runs one job per remaining region, leaves its
   * control fields alone until `_onFinished`, and ends in `_onFinished`.
   */
  lemma {:induction false} AsyncJobsFinish(h: Host, s: State, outcomes: seq<JobOutcome>)
    requires Valid(s) && s.cliNode.Some? && !s.control.runSync
    requires |outcomes| == |s.generators.remaining| + 1
    ensures var b := BeforeCleanup(h, s, outcomes);
      && AsyncJobs(h, s, outcomes) == Finished(b)
      && b.control == s.control.(cliRunning := false)
      && b.log.jobs == s.log.jobs + JobsFor(s.generators.remaining, s.parameterFile.value)
    decreases |outcomes|
  {
    AsyncJobStep(h, s, outcomes[0]);
    if |outcomes| > 1 {
      var t := AsyncJob(h, s, outcomes[0]);
      var p := s.parameterFile.value;
      var regions := s.generators.remaining;
      AsyncJobsFinish(h, t, outcomes[1..]);
      AppendShift(s.log.jobs, JobFor(regions[0], p), JobsFor(regions[1..], p));
    }
  }

  /**
   * An asynchronous batch merges into the output table the first job's
   * result under the current region's name, then the completed results of
   * the remaining regions, in order.
   */
  lemma {:induction false} AsyncJobsTable(h: Host, s: State, outcomes: seq<JobOutcome>)
    requires Valid(s) && s.cliNode.Some? && !s.control.runSync && s.table.Some?
    requires |outcomes| == |s.generators.remaining| + 1
    ensures var b := BeforeCleanup(h, s, outcomes);
      var merged := MergeAll(Acc(s.table.value, s.featureNames),
                             ResultOf(s.labelName.value, outcomes[0]) + CompletedResults(s.generators.remaining, outcomes[1..]));
      b.table == Some(merged.table) && b.featureNames == merged.rows
    decreases |outcomes|
  {
    var a := Acc(s.table.value, s.featureNames);
    var c := Complete(Acknowledged(s), outcomes[0]);
    CompleteTable(Acknowledged(s), outcomes[0]);
    var regions := s.generators.remaining;
    ResultMerged(a, s.labelName.value, outcomes[0], CompletedResults(regions, outcomes[1..]));
    if |outcomes| > 1 {
      AsyncJobStep(h, s, outcomes[0]);
      var t := AsyncJob(h, s, outcomes[0]);
      AsyncJobsTable(h, t, outcomes[1..]);
      assert outcomes[1..][1..] == outcomes[2..];
    }
  }

  /**
   * An asynchronous `runCLIWithParameterFile` on an idle logic with at
   * least one region, followed by one ending report per region, leaves in
   * the output table, just before `_onFinished` drops it, the three header
   * columns followed by the merge of every completed region's results, in
   * region order: the table a synchronous batch with the same outcomes
   * builds.
   */
  lemma AsyncRunTable(h: Host, s: State, image: Node, labelMap: Option<LabelMapInput>,
                      segmentation: Option<SegmentationInput>, scratch: Node, table: Option<TableValue>,
                      parameterFile: string, callback: Option<nat>, outcomes: seq<JobOutcome>)
    requires Valid(s) && s.cliNode.None? && !s.control.runSync && table.Some?
    requires Enumerate(labelMap, segmentation, image, scratch) != []
    requires |outcomes| == |Enumerate(labelMap, segmentation, image, scratch)|
    ensures var regions := Enumerate(labelMap, segmentation, image, scratch);
      var r := RunWithParameterFile(h, s, image, labelMap, segmentation, scratch, table, parameterFile, callback);
      && Valid(r) && r.cliNode.Some? && !r.control.runSync && |outcomes| == |r.generators.remaining| + 1
      && BeforeCleanup(h, r, outcomes).table == Some(MergeAll(Initial(), CompletedResults(regions, outcomes)).table)
  {
    var regions := Enumerate(labelMap, segmentation, image, scratch);
    AsyncRunStarts(h, s, image, labelMap, segmentation, scratch, table, parameterFile, callback);
    var r := RunWithParameterFile(h, s, image, labelMap, segmentation, scratch, table, parameterFile, callback);
    AsyncJobsTable(h, r, outcomes);
    assert Acc(r.table.value, r.featureNames) == Initial();
  }

  /**
   * The asynchronous result table just before cleanup: one column per
   * completed region, named after it, after the header columns; one row
   * per distinct feature key across all completed regions.
   */
  lemma AsyncRunShape(h: Host, s: State, image: Node, labelMap: Option<LabelMapInput>,
                      segmentation: Option<SegmentationInput>, scratch: Node, table: Option<TableValue>,
                      parameterFile: string, callback: Option<nat>, outcomes: seq<JobOutcome>)
    requires Valid(s) && s.cliNode.None? && !s.control.runSync && table.Some?
    requires Enumerate(labelMap, segmentation, image, scratch) != []
    requires |outcomes| == |Enumerate(labelMap, segmentation, image, scratch)|
    ensures var regions := Enumerate(labelMap, segmentation, image, scratch);
      var results := CompletedResults(regions, outcomes);
      var r := RunWithParameterFile(h, s, image, labelMap, segmentation, scratch, table, parameterFile, callback);
      && Valid(r) && r.cliNode.Some? && !r.control.runSync && |outcomes| == |r.generators.remaining| + 1
      && var t := BeforeCleanup(h, r, outcomes).table;
      && t.Some?
      && Names(t.value) == Headers + ColumnNames(results)
      && t.value.rowCount == |AllFeatureKeys(results)|
  {
    var regions := Enumerate(labelMap, segmentation, image, scratch);
    var results := CompletedResults(regions, outcomes);
    AsyncRunTable(h, s, image, labelMap, segmentation, scratch, table, parameterFile, callback, outcomes);
    MergeAllNames(Initial(), results);
    MergeAllRows(Initial(), results);
    var m := MergeAll(Initial(), results);
    assert m.rows.Keys == AllFeatureKeys(results);
  }

  /**
   * An asynchronous batch on an idle logic, driven to its end by one
   * ending report per region, runs one job per region in order, adds the
   * status observer exactly once, passes its tag once to the scene's
   * `RemoveObserver`, calls the callback once, deletes the parameter file
   * exactly when the logic has it marked for deletion, and leaves nothing
   * running.
   */
  lemma AsyncRunCleanup(h: Host, s: State, image: Node, labelMap: Option<LabelMapInput>,
                        segmentation: Option<SegmentationInput>, scratch: Node, table: Option<TableValue>,
                        parameterFile: string, callback: Option<nat>, outcomes: seq<JobOutcome>)
    requires Valid(s) && s.cliNode.None? && !s.control.runSync
    requires Enumerate(labelMap, segmentation, image, scratch) != []
    requires |outcomes| == |Enumerate(labelMap, segmentation, image, scratch)|
    ensures var regions := Enumerate(labelMap, segmentation, image, scratch);
      var r0 := RunWithParameterFile(h, s, image, labelMap, segmentation, scratch, table, parameterFile, callback);
      && Valid(r0) && r0.cliNode.Some? && !r0.control.runSync && |outcomes| == |r0.generators.remaining| + 1
      && var r := AsyncJobs(h, r0, outcomes);
      && r.cliNode.None? && r.generators.Unset? && r.table.None?
      && r.log.jobs == s.log.jobs + JobsFor(regions, parameterFile)
      && r.control.cliNodeObserversAdded == s.control.cliNodeObserversAdded + [h.observerTag]
      && r.control.sceneObserversRemoved == s.control.sceneObserversRemoved + [h.observerTag]
      && r.control.callbacks == Called(s.control.callbacks, callback)
      && r.control.files == (if s.control.deleteParameterFile && parameterFile in s.control.files
                             then s.control.files - {parameterFile} else s.control.files)
  {
    var regions := Enumerate(labelMap, segmentation, image, scratch);
    AsyncRunStarts(h, s, image, labelMap, segmentation, scratch, table, parameterFile, callback);
    var r0 := RunWithParameterFile(h, s, image, labelMap, segmentation, scratch, table, parameterFile, callback);
    AsyncJobsFinish(h, r0, outcomes);
    AppendShift(s.log.jobs, JobFor(regions[0], parameterFile), JobsFor(regions[1..], parameterFile));
  }
}
