/**
 * `SlicerRadiomicsLogic` as an object whose methods update its fields in
 * place. Every method is proved to leave the object in the state the
 * corresponding function of module Batch gives, so the lemmas proved there
 * about whole batches hold for this class.
 */
module Logic {
  import opened Options
  import opened Tables
  import opened Accumulator
  import opened Regions
  import opened ParameterFiles
  import opened Batch
  import Text

  /** A settings dictionary the caller hands to `runCLI`, which updates it in place. */
  class Settings {
    var entries: map<string, JsonValue>

    constructor (entries: map<string, JsonValue>)
      ensures this.entries == entries
    {
      this.entries := entries;
    }
  }

  class SlicerRadiomicsLogic {
    /** The application: how blocking CLI runs end, the observer tag, the temporary directory. */
    const host: Host

    var cliNode: Option<Job>
    var outTable: Table?
    var onStatusObserverTag: Option<nat>
    var cliRunning: bool
    var labelGenerators: Generators
    var parameterFile: Option<string>
    var labelName: Option<string>
    var cliOutput: Option<ResultRow>
    var deleteParameterFile: bool
    var featureNames: map<string, nat>
    var callback: Option<nat>
    var runSync: bool

    // What the logic has done to the application so far.
    var log: Log
    var files: map<string, FileContent>
    var cliNodeObserversAdded: seq<nat>
    var sceneObserversRemoved: seq<nat>
    var callbacks: seq<nat>

    /** The fields as a value of the batch model. */
    function Snapshot(): State
      reads this, outTable
    {
      State(cliNode, labelGenerators, parameterFile, labelName, cliOutput, featureNames,
            if outTable == null then None else Some(outTable.Value()), log,
            Control(cliRunning, onStatusObserverTag, deleteParameterFile, callback, runSync,
                    files, cliNodeObserversAdded, sceneObserversRemoved, callbacks))
    }

    ghost predicate Valid()
      reads this, outTable
    {
      Batch.Valid(Snapshot())
    }

    /** `__init__`: nothing running, no output table, synchronous mode off. */
    constructor (host: Host, files: map<string, FileContent>)
      ensures Valid() && Snapshot() == Fresh(files) && this.host == host
    {
      this.host := host;
      cliNode, outTable, onStatusObserverTag, cliRunning := None, null, None, false;
      labelGenerators, parameterFile, labelName, cliOutput := Unset, None, None, None;
      deleteParameterFile, featureNames, callback, runSync := false, map[], None, false;
      log := Log([], [], []);
      this.files, cliNodeObserversAdded, sceneObserversRemoved, callbacks := files, [], [], [];
    }

    /** `logger.warning`. */
    method Warn(message: string)
      modifies this`log
      ensures Snapshot() == Batch.Warn(old(Snapshot()), message)
    {
      log := log.(warnings := log.warnings + [message]);
    }

    /** `_initOutputTable`: without an output table only a warning; otherwise the table is cleared and given its header columns. */
    method InitOutputTable()
      requires Wired(Snapshot()) && featureNames == map[]
      modifies this`log, outTable
      ensures outTable == old(outTable)
      ensures Snapshot() == Batch.InitOutputTable(old(Snapshot()))
    {
      if outTable == null {
        Warn("Output table not set!");
        return;
      }
      WriteHeaders();
    }

    /** All columns removed from the output table, then the three header columns added in order. */
    method WriteHeaders()
      requires outTable != null
      modifies outTable
      ensures outTable.Value() == Initial().table
    {
      outTable.RemoveAllColumns();
      for i := 0 to |Headers|
        invariant outTable.Valid() && outTable.Value() == HeaderTable(i)
      {
        var col := outTable.AddColumn(Headers[i]);
      }
    }

    /** `_processResults`: a warning when either table is missing, otherwise the result row merged. */
    method ProcessResults()
      requires Valid() && cliNode.Some?
      modifies this`log, this`featureNames, outTable
      ensures outTable == old(outTable)
      ensures Snapshot() == Batch.ProcessResults(old(Snapshot()))
    {
      if outTable == null || cliOutput.None? {
        Warn(if outTable == null then "Output table not set!" else "CLI output table not set!");
        return;
      }
      MergeRow();
    }

    /** A new column named after the region, then the loop over the columns of the CLI's result row. */
    method MergeRow()
      requires Valid() && cliNode.Some? && outTable != null && cliOutput.Some?
      modifies this`log, this`featureNames, outTable
      ensures Snapshot() == MergedResults(old(Snapshot()))
    {
      var row := cliOutput.value;
      ghost var log0 := log;
      ghost var a0 := Acc(outTable.Value(), featureNames);
      var col := outTable.AddColumn(labelName.value);
      ghost var start := Acc(outTable.Value(), featureNames);
      assert start == Acc(WithColumn(a0.table, labelName.value), a0.rows);
      for i := 0 to |row|
        invariant outTable.Valid() && Indexed(start) && col == |a0.table.columns| && 3 <= col < |start.table.columns|
        invariant Acc(outTable.Value(), featureNames) == MergeCells(start, col, row[..i])
        invariant log == log0.(warnings := log0.warnings + SkipWarnings(row[..i]))
      {
        assert row[..i + 1][..i] == row[..i];
        MergeCell(row[i], col);
      }
      assert row[..|row|] == row;
    }

    /**
     * One round of the loop in `_processResults`: a key with too few parts
     * is skipped (with a warning unless it is `Image` or `Mask`); an unseen
     * key gets a new row showing its parts; the value goes into the key's
     * row in column `col`.
     */
    method MergeCell(cell: ResultCell, col: nat)
      requires outTable != null && outTable.Valid() && Indexed(Acc(outTable.Value(), featureNames))
      requires 3 <= col < |outTable.columns|
      modifies this`log, this`featureNames, outTable
      ensures outTable.Valid()
      ensures Acc(outTable.Value(), featureNames) == Accumulator.MergeCell(old(Acc(outTable.Value(), featureNames)), col, cell)
      ensures log == if WarnsOnSkip(cell.key) then old(log).(warnings := old(log.warnings) + ["Skipping key " + cell.key])
                     else old(log)
    {
      var parts := Text.Split(cell.key, '_', 3);
      if |parts| < 3 {
        if cell.key != "Image" && cell.key != "Mask" {
          Warn("Skipping key " + cell.key);
        }
        return;
      }
      if cell.key !in featureNames {
        ghost var t := outTable.Value();
        var rowIndex := outTable.AddEmptyRow();
        outTable.SetCellText(rowIndex, 0, parts[0]);
        outTable.SetCellText(rowIndex, 1, parts[1]);
        outTable.SetCellText(rowIndex, 2, parts[2]);
        FilledRow(t, parts[0], parts[1], parts[2]);
        featureNames := featureNames[cell.key := rowIndex];
      }
      outTable.SetCellText(featureNames[cell.key], col, cell.value);
    }

    /**
     * `_startCLI`: takes the next region and runs its job; a synchronous
     * job is finished here through `_cli_done`, and the first asynchronous
     * one gets the status observer. With no region left, `_onFinished`.
     * The output table ends up as the batch model says.
     */
    method StartCLI(firstRun: bool)
      requires Valid() && labelGenerators.Chained?
      modifies this, outTable
      ensures Snapshot() == Start(host, old(Snapshot()), firstRun)
      ensures old(outTable) != null ==> old(outTable).Value() == Advance(host, old(Snapshot()), firstRun).table.value
      decreases |labelGenerators.remaining|, 0
    {
      if labelGenerators.remaining == [] {
        OnFinished();
        return;
      }
      ghost var s0 := Snapshot();
      var n := |log.jobs|;
      SubmitNext();
      if runSync {
        SyncStartStep(host, s0, firstRun);
        CliDone(host.blockingRun(n));
      } else if firstRun {
        AddStatusObserver();
      }
    }

    /** The next region taken from the generators, its name recorded, and its job run on the CLI node. */
    method SubmitNext()
      requires Valid() && labelGenerators.Chained? && labelGenerators.remaining != []
      modifies this`labelGenerators, this`labelName, this`cliNode, this`log
      ensures Snapshot() == Submit(old(Snapshot()))
    {
      var region := labelGenerators.remaining[0];
      labelGenerators := Chained(labelGenerators.remaining[1..]);
      labelName := Some(region.name);
      var job := JobFor(region, parameterFile.value);
      cliNode := Some(job);
      log := log.(jobs := log.jobs + [job]);
    }

    /** `AddObserver('ModifiedEvent', _onStatus)` on the CLI node, keeping the tag. */
    method AddStatusObserver()
      requires Valid()
      modifies this`onStatusObserverTag, this`cliNodeObserversAdded
      ensures Snapshot() == Observed(host, old(Snapshot()))
    {
      onStatusObserverTag := Some(host.observerTag);
      cliNodeObserversAdded := cliNodeObserversAdded + [host.observerTag];
    }

    /**
     * `_cli_done`: prints the CLI's error text without its banner, merges
     * the results of a completed job, and starts the next region whatever
     * the status was.
     */
    method CliDone(outcome: JobOutcome)
      requires Valid() && cliNode.Some? && labelGenerators.Chained?
      modifies this, outTable
      ensures Snapshot() == Start(host, Complete(old(Snapshot()), outcome), false)
      ensures old(outTable) != null ==>
        old(outTable).Value() == Advance(host, Complete(old(Snapshot()), outcome), false).table.value
      decreases |labelGenerators.remaining|, 1
    {
      RecordOutcome(outcome);
      if outcome.status == "Completed" {
        ProcessResults();
      }
      StartCLI(false);
    }

    /** The error text printed without its banner, and the CLI's result row kept as the temporary table. */
    method RecordOutcome(outcome: JobOutcome)
      requires Valid() && cliNode.Some?
      modifies this`log, this`cliOutput
      ensures Snapshot() == Recorded(old(Snapshot()), outcome)
    {
      if outcome.errorText != "" {
        log := log.(errors := log.errors + [Text.RemoveAll(outcome.errorText, ErrorBanner)]);
      }
      cliOutput := Some(outcome.output);
    }

    /** `_onStatus`, called by the application for each notification of an observed node. */
    method OnStatus(n: Notification)
      requires Valid() && (EndsJob(Snapshot(), n) ==> cliNode.Some?)
      modifies this, outTable
      ensures Snapshot() == Batch.OnStatus(host, old(Snapshot()), n)
      ensures old(outTable) != null && EndsJob(old(Snapshot()), n) ==>
        old(outTable).Value() == Advance(host, Complete(Acknowledged(old(Snapshot())), Reported(n)), false).table.value
    {
      if n.isCliNode {
        if cliRunning {
          if !n.busy {
            cliRunning := false;
            CliDone(Reported(n));
          }
        } else if n.status == "Running" {
          cliRunning := true;
        }
      }
    }

    /**
     * `_onFinished`: the observer tag handed to the scene's
     * `RemoveObserver` and forgotten, the CLI node dropped, a
     * parameter file marked for deletion deleted, the per-run fields reset
     * and the callback called once.
     */
    method OnFinished()
      requires parameterFile.Some?
      modifies this
      ensures Snapshot() == Finished(old(Snapshot()))
    {
      RemoveStatusObserver();
      DeleteParameterFile();
      ResetRun();
      InvokeCallback();
    }

    /**
     * `slicer.mrmlScene.RemoveObserver` with the kept tag, if any, and the
     * tag forgotten; the observer on the CLI node stays where it is.
     */
    method RemoveStatusObserver()
      modifies this`sceneObserversRemoved, this`onStatusObserverTag
      ensures Snapshot() == Unobserved(old(Snapshot()))
    {
      if onStatusObserverTag.Some? {
        sceneObserversRemoved := sceneObserversRemoved + [onStatusObserverTag.value];
        onStatusObserverTag := None;
      }
    }

    /** Deletes the parameter file if it is marked for deletion and exists, and clears the mark. */
    method DeleteParameterFile()
      requires parameterFile.Some?
      modifies this`files, this`deleteParameterFile
      ensures Snapshot() == ParameterFileDeleted(old(Snapshot()))
    {
      if deleteParameterFile && parameterFile.value in files {
        files := files - {parameterFile.value};
      }
      deleteParameterFile := false;
    }

    /** Drops the CLI node and every per-run field: parameter file, generators, output table, feature rows, temporary table, region name. */
    method ResetRun()
      modifies this
      ensures Snapshot() == RunReset(old(Snapshot()))
    {
      ClearRunFields();
      DropOutputTable();
    }

    method ClearRunFields()
      modifies this`cliNode, this`parameterFile, this`labelGenerators, this`cliOutput, this`labelName
      ensures Snapshot() == old(Snapshot()).(cliNode := None, parameterFile := None, generators := Unset, cliOutput := None, labelName := None)
    {
      cliNode, parameterFile, labelGenerators, cliOutput, labelName := None, None, Unset, None, None;
    }

    method DropOutputTable()
      modifies this`outTable, this`featureNames
      ensures Snapshot() == old(Snapshot()).(table := None, featureNames := map[])
    {
      outTable, featureNames := null, map[];
    }

    /** Calls the callback, if one is set, and clears it. */
    method InvokeCallback()
      modifies this`callbacks, this`callback
      ensures Snapshot() == CalledBack(old(Snapshot()))
    {
      if callback.Some? {
        callbacks := callbacks + [callback.value];
      }
      callback := None;
    }

    /**
     * `runCLIWithParameterFile`: refused while an extraction runs; raises
     * when neither a label map nor a segmentation is given; otherwise the
     * batch is started. The table node handed in ends up as the batch
     * model says.
     */
    method RunCLIWithParameterFile(image: Node, labelMap: Option<LabelMapInput>, segmentation: Option<SegmentationInput>,
                                   scratch: Node, tableNode: Table?, parameterFilePath: string, callback: Option<nat>)
      returns (launch: Launch)
      requires Valid()
      modifies this, tableNode
      ensures launch == if old(cliNode).Some? then Refused
                        else if labelMap.None? && segmentation.None? then Raised
                        else Launched
      ensures var table := if tableNode == null then None else Some(old(tableNode.Value()));
        && Snapshot() == RunWithParameterFile(host, old(Snapshot()), image, labelMap, segmentation, scratch,
                                              table, parameterFilePath, callback)
        && (tableNode != null ==>
              tableNode.Value() == TableAfterRun(host, old(Snapshot()), image, labelMap, segmentation, scratch,
                                                 table, parameterFilePath, callback).value)
    {
      if cliNode.Some? {
        Warn("Already running an extraction!");
        return Refused;
      }
      Prepare(image, labelMap, segmentation, scratch, tableNode, parameterFilePath);
      InitOutputTable();
      SetCallback(callback);
      if labelGenerators.EmptyList? {
        return Raised;
      }
      StartCLI(true);
      return Launched;
    }

    /** The parameter file, the chained generators, a new temporary table and the output table node recorded. */
    method Prepare(image: Node, labelMap: Option<LabelMapInput>, segmentation: Option<SegmentationInput>,
                   scratch: Node, tableNode: Table?, parameterFilePath: string)
      requires Valid() && cliNode.None?
      modifies this
      ensures outTable == tableNode
      ensures Snapshot() == Prepared(old(Snapshot()), image, labelMap, segmentation, scratch,
                                     if tableNode == null then None else Some(tableNode.Value()), parameterFilePath)
    {
      parameterFile, labelGenerators := Some(parameterFilePath), GeneratorsFor(labelMap, segmentation, image, scratch);
      cliOutput := Some([]);
      AttachOutputTable(tableNode);
    }

    method AttachOutputTable(tableNode: Table?)
      modifies this`outTable
      ensures outTable == tableNode
      ensures Snapshot() == old(Snapshot()).(table := if tableNode == null then None else Some(tableNode.Value()))
    {
      outTable := tableNode;
    }

    method SetCallback(callback: Option<nat>)
      requires Valid()
      modifies this`callback
      ensures Snapshot() == WithCallback(old(Snapshot()), callback)
    {
      this.callback := callback;
    }

    /**
     * `runCLI`: refused while an extraction runs; otherwise `correctMask`
     * is forced in the caller's settings, the configuration is written to
     * the temporary parameter file, which is marked for deletion, and the
     * batch runs with that file.
     */
    method RunCLI(image: Node, labelMap: Option<LabelMapInput>, segmentation: Option<SegmentationInput>,
                  scratch: Node, tableNode: Table?, featureClasses: set<string>, settings: Settings,
                  enabledImageTypes: map<string, JsonValue>, callback: Option<nat>)
      returns (launch: Launch)
      requires Valid()
      modifies this, tableNode, settings
      ensures launch == if old(cliNode).Some? then Refused
                        else if labelMap.None? && segmentation.None? then Raised
                        else Launched
      ensures settings.entries == if old(cliNode).Some? then old(settings.entries) else WithCorrectMask(old(settings.entries))
      ensures var table := if tableNode == null then None else Some(old(tableNode.Value()));
        && Snapshot() == Batch.RunCLI(host, old(Snapshot()), image, labelMap, segmentation, scratch, table,
                                      old(settings.entries), featureClasses, enabledImageTypes, callback)
        && (tableNode != null ==>
              var written := WriteConfiguration(host, old(Snapshot()),
                                                Configuration(WithCorrectMask(old(settings.entries)), featureClasses, enabledImageTypes));
              tableNode.Value() == TableAfterRun(host, written, image, labelMap, segmentation, scratch,
                                                 table, GeneratedPath(host), callback).value)
    {
      if cliNode.Some? {
        Warn("Already running an extraction!");
        return Refused;
      }
      settings.entries := WithCorrectMask(settings.entries);
      var configuration := Configuration(settings.entries, featureClasses, enabledImageTypes);
      var path := WriteParameterFile(configuration);
      launch := RunCLIWithParameterFile(image, labelMap, segmentation, scratch, tableNode, path, callback);
    }

    /** The configuration dumped to the temporary parameter file, which is marked for deletion; returns its path. */
    method WriteParameterFile(configuration: Configuration) returns (path: string)
      requires Valid()
      modifies this`files, this`deleteParameterFile
      ensures path == GeneratedPath(host)
      ensures Snapshot() == WriteConfiguration(host, old(Snapshot()), configuration)
    {
      path := PathJoin(host.temporaryPath, ParameterFileName);
      deleteParameterFile := true;
      files := files[path := Generated(configuration)];
    }
  }
}
