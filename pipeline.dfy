/** `CSVProcessor` itself: `save_data`, `save_metadata`, `move_and_rename_file`
    and the `process_all_files` loop, with what each file's pass through the
    loop does to the file system, to the list of results and to the list of
    metadata records. Reading and parsing a file, rendering a table as CSV and
    a record as JSON, the clock and the faults of the environment are given
    as oracles. */
module Pipeline {
  import opened Wrappers
  import opened Text
  import opened Tables
  import opened Drafts
  import opened Validation
  import opened Transform
  import opened Naming
  import opened Archive

  /** The four folders the constructor stores, and which draft runs. */
  datatype Settings = Settings(inputDir: string, outputDir: string, processedDir: string,
                               metadataDir: string, draft: Draft)

  /** The metadata dictionary of one file. */
  datatype MetadataRecord = MetadataRecord(fileName: string, processedTime: string, numRecords: nat, report: Report)

  /** What the environment decides for one file: the two clock readings (the
      move, then the record) and the fate of the three writes. */
  datatype FileEnv = FileEnv(moveTime: Timestamp, recordTime: Timestamp, save: Fault, move: Fault, metadata: Fault)

  /** `pd.read_csv` (None when it raises), `to_csv`, `json.dump`, and the
      environment of each path. */
  datatype Oracles = Oracles(
    parse: seq<char> -> Option<Table>,
    render: Table -> seq<char>,
    dump: MetadataRecord -> seq<char>,
    env: string -> FileEnv)

  /** The parser yields tables the model handles. */
  ghost predicate ParsesAdmissible(o: Oracles)
  {
    forall c :: o.parse(c).Some? ==> Admissible(o.parse(c).value)
  }

  /** How one file's pass through the loop ends: an exception the handler
      logs, or the metadata written. */
  datatype Fate =
    | Unreadable            // open() raises
    | Unparsable            // read_csv raises
    | AgeTypeError          // the age comparison in validate_data raises
    | NameTypeError         // the full-name concatenation raises
    | SaveFailed            // to_csv raises
    | NoErrorDir            // csv_processor.py: self.error_dir does not exist
    | MoveRaised(error: MoveError)
    | MetadataFailed        // writing the metadata file raises
    | Done
  {
    /** The fates that leave the file system, the results and the records as
        they were. */
    predicate Skipped()
    {
      this in {Unreadable, Unparsable, AgeTypeError, NameTypeError, SaveFailed, NoErrorDir}
    }
  }

  /** One pass through the loop body: the file system after it, the table
      appended to `dataframes` if any, the metadata dictionary if one was
      built, and the fate. */
  datatype Step = Step(files: Files, result: Option<Table>, record: Option<MetadataRecord>, fate: Fate)

  /** Lines 292-300 of csv_processor.py: build the record and write it to
      `metadata_dir/<stem>_metadata.json`. */
  function Record(s: Settings, o: Oracles, files: Files, dirs: set<string>, path: string,
                  result: Option<Table>, rec: MetadataRecord): (st: Step)
    ensures st.result == result && st.record == Some(rec)
  {
    var target := MetadataPath(s.metadataDir, path);
    if o.env(path).metadata != Clean || target in dirs then Step(files, result, Some(rec), MetadataFailed)
    else Step(files[target := o.dump(rec)], result, Some(rec), Done)
  }

  /** Archive the source into `processed_dir`, then record it with the number
      of rows of the table the loop holds. */
  function Archived(s: Settings, o: Oracles, files: Files, dirs: set<string>, path: string,
                    result: Option<Table>, rows: nat, report: Report): (st: Step)
    ensures st.result == result
  {
    var env := o.env(path);
    var m := Relocate(files, dirs, path, ArchivePath(s.processedDir, env.moveTime, path), env.move, s.draft.ChecksMove());
    if m.outcome.Failure? then Step(m.files, result, None, MoveRaised(m.outcome.error))
    else Record(s, o, m.files, dirs, path, result, MetadataRecord(m.outcome.value, DisplayTime(env.recordTime), rows, report))
  }

  /** An accepted and transformed table: save it to `output_dir/<basename>`,
      append it to the results, then archive the source. */
  function Accepted(s: Settings, o: Oracles, files: Files, dirs: set<string>, path: string,
                    df: Table, report: Report): (st: Step)
    ensures st.result.Some? ==> st.result.value == df
  {
    var out := OutputPath(s.outputDir, path);
    if o.env(path).save != Clean || out in dirs then Step(files, None, None, SaveFailed)
    else Archived(s, o, files[out := o.render(df)], dirs, path, Some(df), |df.rows|, report)
  }

  /** A parsed table: validate, then transform and keep it, or route it. */
  function Checked(s: Settings, o: Oracles, files: Files, dirs: set<string>, path: string, t: Table): (st: Step)
    requires Admissible(t)
    ensures st.result.Some? ==> Rectangular(st.result.value)
  {
    var v := Validate(t, s.draft);
    match v.outcome
    case AgeNotComparable => Step(files, None, None, AgeTypeError)
    case Checked(valid, report) =>
      if valid then
        var processed := Transformed(v.caller);
        if processed.None? then Step(files, None, None, NameTypeError)
        else Accepted(s, o, files, dirs, path, processed.value, report)
      else if s.draft.RoutesRejectedToErrorDir() then Step(files, None, None, NoErrorDir)
      else Archived(s, o, files, dirs, path, None, |v.caller.rows|, report)
  }

  /** The whole loop body for one path, from `open` to the handler. */
  function Handle(s: Settings, o: Oracles, files: Files, dirs: set<string>, path: string): (st: Step)
    requires ParsesAdmissible(o)
    ensures st.result.Some? ==> Rectangular(st.result.value)
  {
    if path !in files then Step(files, None, None, Unreadable)
    else
      var t := o.parse(files[path]);
      if t.None? then Step(files, None, None, Unparsable)
      else Checked(s, o, files, dirs, path, t.value)
  }

  /** The loop's state: the file system, `dataframes`, `metadata_collection`
      (csv_processor.py only) and one logged fate per file. */
  datatype Batch = Batch(files: Files, results: seq<Table>, collected: seq<MetadataRecord>, fates: seq<Fate>)

  function Absorb(s: Settings, b: Batch, st: Step): (b': Batch)
    ensures |b'.fates| == |b.fates| + 1
  {
    Batch(st.files,
          b.results + (if st.result.Some? then [st.result.value] else []),
          b.collected + (if s.draft.CollectsMetadata() && st.record.Some? then [st.record.value] else []),
          b.fates + [st.fate])
  }

  /** The loop over `paths`, in order, from the state `b`. */
  function RunFrom(s: Settings, o: Oracles, dirs: set<string>, b: Batch, paths: seq<string>): (r: Batch)
    requires ParsesAdmissible(o) && AllRectangular(b.results)
    ensures AllRectangular(r.results)
  {
    if paths == [] then b
    else
      var before := RunFrom(s, o, dirs, b, paths[..|paths| - 1]);
      var st := Handle(s, o, before.files, dirs, paths[|paths| - 1]);
      var r := Absorb(s, before, st);
      assert AllRectangular(r.results) by {
        if st.result.Some? {
          assert r.results == before.results + [st.result.value];
        }
      }
      r
  }

  function Run(s: Settings, o: Oracles, dirs: set<string>, files: Files, paths: seq<string>): (r: Batch)
    requires ParsesAdmissible(o)
    ensures AllRectangular(r.results)
  {
    RunFrom(s, o, dirs, Batch(files, [], [], []), paths)
  }

  /** One more path: the run so far absorbs that path's step. */
  lemma RunStep(s: Settings, o: Oracles, dirs: set<string>, files: Files, paths: seq<string>, i: nat)
    requires ParsesAdmissible(o) && i < |paths|
    ensures var before := Run(s, o, dirs, files, paths[..i]);
      Run(s, o, dirs, files, paths[..i + 1]) == Absorb(s, before, Handle(s, o, before.files, dirs, paths[i]))
  {
    assert paths[..i + 1][..i] == paths[..i];
  }

  /** How `process_all_files` ends after the loop. */
  datatype RunOutcome =
    | CollectionSaverMissing   // csv_processor.py: self.save_metadata_collection does not exist
    | NothingToConcatenate     // pd.concat([]) raises ValueError
    | Returned(table: Table)

  function Finish(s: Settings, b: Batch): RunOutcome
    requires AllRectangular(b.results)
  {
    if s.draft.CollectsMetadata() then CollectionSaverMissing
    else if b.results == [] then NothingToConcatenate
    else Returned(Concat(b.results))
  }

  /** The entries the loop visits: names ending in ".csv"; `glob` (the older
      drafts) also skips hidden names. */
  predicate Selected(draft: Draft, entry: string)
  {
    EndsWith(entry, ".csv") && (draft.ListsDirectory() || entry[0] != '.')
  }

  /** The path of an entry: `os.path.join` of the input folder and the name in
      csv_processor.py; in the other drafts `glob` joins the name onto the
      folder it listed, which is the input folder without trailing slashes. */
  function EntryPath(s: Settings, entry: string): string
  {
    if s.draft.ListsDirectory() then Join(s.inputDir, entry) else Join(GlobFolder(s.inputDir), entry)
  }

  /** The paths of the selected entries of the input folder, in listing order. */
  function CsvPaths(s: Settings, entries: seq<string>): (paths: seq<string>)
    ensures |paths| <= |entries|
  {
    if entries == [] then []
    else
      var e := entries[|entries| - 1];
      CsvPaths(s, entries[..|entries| - 1]) + (if Selected(s.draft, e) then [EntryPath(s, e)] else [])
  }

  /** The object: its folders never change after construction. */
  class CsvProcessor {
    const settings: Settings

    constructor (settings: Settings)
      ensures this.settings == settings
    {
      this.settings := settings;
    }

    /** `save_data(df, file_name)`: writes the rendered table to
        `output_dir/<basename>`. */
    method SaveData(fs: FileSystem, df: Table, fileName: string, render: Table -> seq<char>, fault: Fault)
      returns (ok: bool)
      modifies fs
      ensures ok <==> fault == Clean && OutputPath(settings.outputDir, fileName) !in fs.dirs
      ensures fs.files == if ok then old(fs.files)[OutputPath(settings.outputDir, fileName) := render(df)] else old(fs.files)
    {
      ok := fs.Write(OutputPath(settings.outputDir, fileName), render(df), fault);
    }

    /** `save_metadata(metadata, file_name)`: writes the record to
        `metadata_dir/<stem>_metadata.json`. */
    method SaveMetadata(fs: FileSystem, rec: MetadataRecord, fileName: string,
                        dump: MetadataRecord -> seq<char>, fault: Fault)
      returns (ok: bool)
      modifies fs
      ensures ok <==> fault == Clean && MetadataPath(settings.metadataDir, fileName) !in fs.dirs
      ensures fs.files == if ok then old(fs.files)[MetadataPath(settings.metadataDir, fileName) := dump(rec)] else old(fs.files)
    {
      ok := fs.Write(MetadataPath(settings.metadataDir, fileName), dump(rec), fault);
    }

    /** `move_and_rename_file(source, folder)` at time `t`. */
    method MoveAndRenameFile(fs: FileSystem, source: string, folder: string, t: Timestamp, fault: Fault)
      returns (r: Result<string, MoveError>)
      modifies fs
      ensures Relocation(fs.files, r) == Relocate(old(fs.files), fs.dirs, source, ArchivePath(folder, t, source), fault, settings.draft.ChecksMove())
    {
      if settings.draft.ChecksMove() && fs.Read(source).None? {
        return Failure(SourceNotFound);
      }
      var dst := ArchivePath(folder, t, source);
      var error := fs.Move(source, dst, fault);
      if error.Some? {
        return Failure(error.value);
      }
      if settings.draft.ChecksMove() && fs.Read(dst).None? {
        return Failure(MoveUnconfirmed);
      }
      return Success(dst);
    }

    /** The body of the loop for one path, with the handler around it. */
    method ProcessFile(fs: FileSystem, o: Oracles, path: string)
      returns (result: Option<Table>, record: Option<MetadataRecord>, fate: Fate)
      requires ParsesAdmissible(o)
      modifies fs
      ensures Step(fs.files, result, record, fate) == Handle(settings, o, old(fs.files), fs.dirs, path)
    {
      var content := fs.Read(path);
      if content.None? {
        return None, None, Unreadable;
      }
      var parsed := o.parse(content.value);
      if parsed.None? {
        return None, None, Unparsable;
      }
      ghost var t := parsed.value;
      var df := new Frame(parsed.value);
      var outcome := ValidateData(df, settings.draft);
      ghost var v := Validate(t, settings.draft);
      assert outcome == v.outcome && df.Value() == v.caller;
      if outcome.AgeNotComparable? {
        return None, None, AgeTypeError;
      }
      var report := outcome.report;
      var env := o.env(path);
      var newPath: string;
      if outcome.valid {
        var ok := ProcessData(df);
        if !ok {
          return None, None, NameTypeError;
        }
        var saved := SaveData(fs, df.Value(), path, o.render, env.save);
        if !saved {
          return None, None, SaveFailed;
        }
        result := Some(df.Value());
        var moved := MoveAndRenameFile(fs, path, settings.processedDir, env.moveTime, env.move);
        if moved.Failure? {
          return result, None, MoveRaised(moved.error);
        }
        newPath := moved.value;
      } else {
        if settings.draft.RoutesRejectedToErrorDir() {
          return None, None, NoErrorDir;
        }
        result := None;
        var moved := MoveAndRenameFile(fs, path, settings.processedDir, env.moveTime, env.move);
        if moved.Failure? {
          return None, None, MoveRaised(moved.error);
        }
        newPath := moved.value;
      }
      var rec := MetadataRecord(newPath, DisplayTime(env.recordTime), |df.rows|, report);
      record := Some(rec);
      var written := SaveMetadata(fs, rec, path, o.dump, env.metadata);
      fate := if written then Done else MetadataFailed;
    }

    /** `process_all_files()`: the loop over the selected entries of the input
        folder, then the ending the draft has. */
    method ProcessAllFiles(fs: FileSystem, o: Oracles, entries: seq<string>) returns (outcome: RunOutcome)
      requires ParsesAdmissible(o)
      modifies fs
      ensures var b := Run(settings, o, fs.dirs, old(fs.files), CsvPaths(settings, entries));
        outcome == Finish(settings, b) && fs.files == b.files
    {
      var paths := CsvPaths(settings, entries);
      var dataframes: seq<Table> := [];
      var collection: seq<MetadataRecord> := [];
      ghost var fates: seq<Fate> := [];
      var i := 0;
      while i < |paths|
        invariant 0 <= i <= |paths|
        invariant Batch(fs.files, dataframes, collection, fates) == Run(settings, o, fs.dirs, old(fs.files), paths[..i])
      {
        ghost var before := Batch(fs.files, dataframes, collection, fates);
        RunStep(settings, o, fs.dirs, old(fs.files), paths, i);
        var result, record, fate := ProcessFile(fs, o, paths[i]);
        if result.Some? {
          dataframes := dataframes + [result.value];
        }
        if settings.draft.CollectsMetadata() && record.Some? {
          collection := collection + [record.value];
        }
        fates := fates + [fate];
        assert Batch(fs.files, dataframes, collection, fates) == Absorb(settings, before, Step(fs.files, result, record, fate));
        i := i + 1;
      }
      assert paths[..i] == paths;
      if settings.draft.CollectsMetadata() {
        return CollectionSaverMissing;
      }
      if dataframes == [] {
        return NothingToConcatenate;
      }
      return Returned(Concat(dataframes));
    }
  }

  /** What a pass may leave behind: an exception raised before anything is
      written leaves the files, the results and the records as they were; a
      record exists exactly when the move went through, and then the fate is
      the metadata write's. */
  predicate Traced(st: Step, files: Files)
  {
    && (st.fate.Skipped() ==> st.files == files && st.result.None? && st.record.None?)
    && (st.record.Some? <==> st.fate == Done || st.fate == MetadataFailed)
    && (st.fate.MoveRaised? ==> st.record.None?)
  }

  lemma ArchivedTraced(s: Settings, o: Oracles, files: Files, dirs: set<string>, path: string,
                       result: Option<Table>, rows: nat, report: Report)
    ensures Traced(Archived(s, o, files, dirs, path, result, rows, report), files)
  {
    var env := o.env(path);
    var m := Relocate(files, dirs, path, ArchivePath(s.processedDir, env.moveTime, path), env.move, s.draft.ChecksMove());
    if m.outcome.Success? {
      var rec := MetadataRecord(m.outcome.value, DisplayTime(env.recordTime), rows, report);
      assert Archived(s, o, files, dirs, path, result, rows, report) == Record(s, o, m.files, dirs, path, result, rec);
    }
  }

  lemma CheckedTraced(s: Settings, o: Oracles, files: Files, dirs: set<string>, path: string, t: Table)
    requires Admissible(t)
    ensures Traced(Checked(s, o, files, dirs, path, t), files)
  {
    var v := Validate(t, s.draft);
    if v.outcome.Checked? {
      if v.outcome.valid {
        var processed := Transformed(v.caller);
        if processed.Some? {
          var df := processed.value;
          var out := OutputPath(s.outputDir, path);
          if o.env(path).save == Clean && out !in dirs {
            ArchivedTraced(s, o, files[out := o.render(df)], dirs, path, Some(df), |df.rows|, v.outcome.report);
          }
        }
      } else if !s.draft.RoutesRejectedToErrorDir() {
        ArchivedTraced(s, o, files, dirs, path, None, |v.caller.rows|, v.outcome.report);
      }
    }
  }

  /** Every pass through the loop body is traced in that sense. */
  lemma HandleFates(s: Settings, o: Oracles, files: Files, dirs: set<string>, path: string)
    requires ParsesAdmissible(o)
    ensures Traced(Handle(s, o, files, dirs, path), files)
  {
    if path in files && o.parse(files[path]).Some? {
      CheckedTraced(s, o, files, dirs, path, o.parse(files[path]).value);
    }
  }

  /** A table reaches the results only from an accepted file whose names
      could be joined: it is that file's transformed table. */
  lemma HandleResult(s: Settings, o: Oracles, files: Files, dirs: set<string>, path: string)
    requires ParsesAdmissible(o)
    ensures var st := Handle(s, o, files, dirs, path);
      st.result.Some? ==>
        && path in files && o.parse(files[path]).Some?
        && var v := Validate(o.parse(files[path]).value, s.draft);
        && v.outcome.Checked? && v.outcome.valid
        && st.result == Transformed(v.caller)
        && Distinct(st.result.value.columns)
  {
    var st := Handle(s, o, files, dirs, path);
    if st.result.Some? {
      var t := o.parse(files[path]).value;
      assert st == Checked(s, o, files, dirs, path, t);
      CheckedResult(s, o, files, dirs, path, t);
    }
  }

  /** The table a checked file yields is the transformed validated table, and
      its labels are distinct. */
  lemma CheckedResult(s: Settings, o: Oracles, files: Files, dirs: set<string>, path: string, t: Table)
    requires Admissible(t)
    ensures var st := Checked(s, o, files, dirs, path, t);
      st.result.Some? ==>
        && var v := Validate(t, s.draft);
        && v.outcome.Checked? && v.outcome.valid
        && st.result == Transformed(v.caller)
        && Distinct(st.result.value.columns)
  {
    var v := Validate(t, s.draft);
    var st := Checked(s, o, files, dirs, path, t);
    if v.outcome.Checked? && v.outcome.valid {
      var processed := Transformed(v.caller);
      if processed.Some? {
        assert st == Accepted(s, o, files, dirs, path, processed.value, v.outcome.report);
        NormalizedLabels(t.columns);
        TransformedDistinct(v.caller);
      }
    }
  }

  /** The loop visits every path once: one fate per path, at most one result
      per path, and records only where they are collected. */
  lemma {:induction false} RunFromShape(s: Settings, o: Oracles, dirs: set<string>, b: Batch, paths: seq<string>)
    requires ParsesAdmissible(o) && AllRectangular(b.results)
    ensures var r := RunFrom(s, o, dirs, b, paths);
      && |r.fates| == |b.fates| + |paths|
      && |b.results| <= |r.results| <= |b.results| + |paths|
      && r.results[..|b.results|] == b.results
      && (!s.draft.CollectsMetadata() ==> r.collected == b.collected)
  {
    if paths != [] {
      RunFromShape(s, o, dirs, b, paths[..|paths| - 1]);
      var before := RunFrom(s, o, dirs, b, paths[..|paths| - 1]);
      var r := RunFrom(s, o, dirs, b, paths);
      assert r.results[..|before.results|] == before.results;
      assert r.results[..|b.results|] == before.results[..|b.results|];
    }
  }

  lemma RunShape(s: Settings, o: Oracles, dirs: set<string>, files: Files, paths: seq<string>)
    requires ParsesAdmissible(o)
    ensures var r := Run(s, o, dirs, files, paths);
      && |r.fates| == |paths| && |r.results| <= |paths|
      && (!s.draft.CollectsMetadata() ==> r.collected == [])
  {
    RunFromShape(s, o, dirs, Batch(files, [], [], []), paths);
  }

  /** How many passes reached the metadata write. */
  function Recorded(fates: seq<Fate>): (n: nat)
    ensures n <= |fates|
  {
    if fates == [] then 0
    else Recorded(fates[..|fates| - 1]) + (if fates[|fates| - 1] in {Done, MetadataFailed} then 1 else 0)
  }

  /** csv_processor.py collects one record per file whose move went through,
      whether or not its metadata file could be written; the other drafts
      collect none. */
  lemma {:induction false} RunFromCollected(s: Settings, o: Oracles, dirs: set<string>, b: Batch, paths: seq<string>)
    requires ParsesAdmissible(o) && AllRectangular(b.results)
    requires |b.collected| == if s.draft.CollectsMetadata() then Recorded(b.fates) else 0
    ensures var r := RunFrom(s, o, dirs, b, paths);
      |r.collected| == if s.draft.CollectsMetadata() then Recorded(r.fates) else 0
  {
    if paths != [] {
      var before := RunFrom(s, o, dirs, b, paths[..|paths| - 1]);
      RunFromCollected(s, o, dirs, b, paths[..|paths| - 1]);
      var st := Handle(s, o, before.files, dirs, paths[|paths| - 1]);
      HandleFates(s, o, before.files, dirs, paths[|paths| - 1]);
      var r := Absorb(s, before, st);
      assert r.fates[..|r.fates| - 1] == before.fates;
    }
  }

  lemma CollectedPerRecordedFile(s: Settings, o: Oracles, dirs: set<string>, files: Files, paths: seq<string>)
    requires ParsesAdmissible(o)
    ensures var r := Run(s, o, dirs, files, paths);
      |r.collected| == if s.draft.CollectsMetadata() then Recorded(r.fates) else 0
  {
    RunFromCollected(s, o, dirs, Batch(files, [], [], []), paths);
  }

  /** csv_processor.py never returns: after the loop it calls a method the
      class does not define. The older drafts raise on an empty result list
      and otherwise return the concatenation. */
  lemma Endings(s: Settings, o: Oracles, dirs: set<string>, files: Files, paths: seq<string>)
    requires ParsesAdmissible(o)
    ensures var b := Run(s, o, dirs, files, paths);
      && (s.draft == Current ==> Finish(s, b) == CollectionSaverMissing)
      && (s.draft != Current ==> (Finish(s, b) == NothingToConcatenate <==> b.results == []))
      && (s.draft != Current && paths == [] ==> Finish(s, b) == NothingToConcatenate)
  {
  }

  /** One file whose table is kept: the older drafts return exactly that table. */
  lemma SingleAcceptedReturnsItsTable(s: Settings, o: Oracles, dirs: set<string>, files: Files, path: string)
    requires ParsesAdmissible(o) && s.draft != Current
    requires Handle(s, o, files, dirs, path).result.Some?
    ensures Finish(s, Run(s, o, dirs, files, [path])) == Returned(Handle(s, o, files, dirs, path).result.value)
  {
    HandleResult(s, o, files, dirs, path);
    RunSingle(s, o, dirs, files, path);
    FinishSingle(s, files, Handle(s, o, files, dirs, path));
  }

  /** A run over one path is that path's step. */
  lemma RunSingle(s: Settings, o: Oracles, dirs: set<string>, files: Files, path: string)
    requires ParsesAdmissible(o)
    ensures Run(s, o, dirs, files, [path]) == Absorb(s, Batch(files, [], [], []), Handle(s, o, files, dirs, path))
  {
    RunStep(s, o, dirs, files, [path], 0);
    assert [path][..0] == [] && [path][..1] == [path];
  }

  /** Without a metadata collection, a lone table is returned unchanged. */
  lemma FinishSingle(s: Settings, files: Files, st: Step)
    requires s.draft != Current && st.result.Some?
    requires Rectangular(st.result.value) && Distinct(st.result.value.columns)
    ensures var b := Absorb(s, Batch(files, [], [], []), st);
      AllRectangular(b.results) && Finish(s, b) == Returned(st.result.value)
  {
    var b := Absorb(s, Batch(files, [], [], []), st);
    assert b.results == [st.result.value];
    ConcatSingle(st.result.value);
  }

  /** csv_processor.py: a file without the required columns is not moved
      (the error folder does not exist), and gets neither a result nor a
      record. */
  lemma CurrentRejectedStays(s: Settings, o: Oracles, files: Files, dirs: set<string>, path: string, t: Table)
    requires ParsesAdmissible(o) && s.draft == Current
    requires path in files && o.parse(files[path]) == Some(t)
    requires !HasRequired(Normalized(t))
    ensures Handle(s, o, files, dirs, path) == Step(files, None, None, NoErrorDir)
  {
    RejectedExactlyWithoutRequired(t, s.draft);
  }

  /** The older drafts: a file without the required columns is archived in
      `processed_dir` like an accepted one, and its record names the missing
      columns and counts the rows read. */
  lemma DraftsRejectedArchived(s: Settings, o: Oracles, files: Files, dirs: set<string>, path: string, t: Table)
    requires ParsesAdmissible(o) && s.draft != Current
    requires path in files && o.parse(files[path]) == Some(t)
    requires !HasRequired(Normalized(t))
    requires var env := o.env(path);
      && env.move == Clean && env.metadata == Clean
      && ArchivePath(s.processedDir, env.moveTime, path) !in dirs
      && MetadataPath(s.metadataDir, path) !in dirs
    ensures var env := o.env(path);
      var dst := ArchivePath(s.processedDir, env.moveTime, path);
      var report := NoIssues.(missingRequiredColumns := Some(Required - ColumnSet(NormalizeColumns(t.columns))));
      var rec := MetadataRecord(dst, DisplayTime(env.recordTime), |t.rows|, report);
      var moved := (files - {path})[dst := files[path]];
      Handle(s, o, files, dirs, path) == Step(moved[MetadataPath(s.metadataDir, path) := o.dump(rec)], None, Some(rec), Done)
  {
    RejectedExactlyWithoutRequired(t, s.draft);
    var v := Validate(t, s.draft);
    assert Handle(s, o, files, dirs, path) == Checked(s, o, files, dirs, path, t);
    assert Checked(s, o, files, dirs, path, t) == Archived(s, o, files, dirs, path, None, |t.rows|, v.outcome.report);
    ArchivedClean(s, o, files, dirs, path, None, |t.rows|, v.outcome.report);
  }

  /** The archive move and the metadata write both go through. */
  lemma ArchivedClean(s: Settings, o: Oracles, files: Files, dirs: set<string>, path: string,
                      result: Option<Table>, rows: nat, report: Report)
    requires path in files
    requires var env := o.env(path);
      && env.move == Clean && env.metadata == Clean
      && ArchivePath(s.processedDir, env.moveTime, path) !in dirs
      && MetadataPath(s.metadataDir, path) !in dirs
    ensures var env := o.env(path);
      var dst := ArchivePath(s.processedDir, env.moveTime, path);
      var rec := MetadataRecord(dst, DisplayTime(env.recordTime), rows, report);
      var moved := (files - {path})[dst := files[path]];
      Archived(s, o, files, dirs, path, result, rows, report)
        == Step(moved[MetadataPath(s.metadataDir, path) := o.dump(rec)], result, Some(rec), Done)
  {
    var env := o.env(path);
    var dst := ArchivePath(s.processedDir, env.moveTime, path);
    var m := Relocate(files, dirs, path, dst, env.move, s.draft.ChecksMove());
    assert Landing(dirs, path, dst) == dst;
    assert m == Relocation((files - {path})[dst := files[path]], Success(dst));
  }

  /** An accepted file in an environment where every write goes through, in
      every draft: the table is saved to `output_dir`, kept, the source is
      archived in `processed_dir`, and the record counts the kept rows. */
  lemma AcceptedClean(s: Settings, o: Oracles, files: Files, dirs: set<string>, path: string, t: Table)
    requires ParsesAdmissible(o)
    requires path in files && o.parse(files[path]) == Some(t)
    requires var v := Validate(t, s.draft); v.outcome.Checked? && v.outcome.valid && Transformed(v.caller).Some?
    requires var env := o.env(path);
      && env.save == Clean && env.move == Clean && env.metadata == Clean
      && OutputPath(s.outputDir, path) !in dirs
      && ArchivePath(s.processedDir, env.moveTime, path) !in dirs
      && MetadataPath(s.metadataDir, path) !in dirs
    ensures var env := o.env(path);
      var v := Validate(t, s.draft);
      var df := Transformed(v.caller).value;
      var dst := ArchivePath(s.processedDir, env.moveTime, path);
      var rec := MetadataRecord(dst, DisplayTime(env.recordTime), |v.caller.rows|, v.outcome.report);
      var saved := files[OutputPath(s.outputDir, path) := o.render(df)];
      var moved := (saved - {path})[dst := saved[path]];
      Handle(s, o, files, dirs, path) == Step(moved[MetadataPath(s.metadataDir, path) := o.dump(rec)], Some(df), Some(rec), Done)
  {
    var v := Validate(t, s.draft);
    var df := Transformed(v.caller).value;
    var saved := files[OutputPath(s.outputDir, path) := o.render(df)];
    assert Handle(s, o, files, dirs, path) == Checked(s, o, files, dirs, path, t);
    assert Checked(s, o, files, dirs, path, t) == Accepted(s, o, files, dirs, path, df, v.outcome.report);
    assert Accepted(s, o, files, dirs, path, df, v.outcome.report)
      == Archived(s, o, saved, dirs, path, Some(df), |df.rows|, v.outcome.report);
    ArchivedClean(s, o, saved, dirs, path, Some(df), |df.rows|, v.outcome.report);
  }

  /** A kept table stays kept when the archive move raises afterwards: the
      result is appended before the move, and no record is built. */
  lemma AcceptedMoveFailureKeepsResult(s: Settings, o: Oracles, files: Files, dirs: set<string>, path: string, t: Table)
    requires ParsesAdmissible(o)
    requires path in files && o.parse(files[path]) == Some(t)
    requires var v := Validate(t, s.draft); v.outcome.Checked? && v.outcome.valid && Transformed(v.caller).Some?
    requires var env := o.env(path);
      env.save == Clean && OutputPath(s.outputDir, path) !in dirs && env.move != Clean
    ensures var v := Validate(t, s.draft);
      var df := Transformed(v.caller).value;
      Handle(s, o, files, dirs, path)
        == Step(files[OutputPath(s.outputDir, path) := o.render(df)], Some(df), None,
                MoveRaised(if o.env(path).move == Denied then PermissionDenied else MoveFailed))
  {
    var env := o.env(path);
    var v := Validate(t, s.draft);
    var df := Transformed(v.caller).value;
    var saved := files[OutputPath(s.outputDir, path) := o.render(df)];
    assert Handle(s, o, files, dirs, path) == Checked(s, o, files, dirs, path, t);
    assert Checked(s, o, files, dirs, path, t) == Accepted(s, o, files, dirs, path, df, v.outcome.report);
    assert Accepted(s, o, files, dirs, path, df, v.outcome.report)
      == Archived(s, o, saved, dirs, path, Some(df), |df.rows|, v.outcome.report);
    FailedMoveChangesNothing(saved, dirs, path, ArchivePath(s.processedDir, env.moveTime, path), env.move, s.draft.ChecksMove());
  }

  /** The listing: exactly the selected entries become paths. */
  lemma {:induction false} CsvPathsExact(s: Settings, entries: seq<string>)
    ensures forall e :: e in entries && Selected(s.draft, e) ==> EntryPath(s, e) in CsvPaths(s, entries)
    ensures forall p :: p in CsvPaths(s, entries) ==> exists e :: e in entries && Selected(s.draft, e) && p == EntryPath(s, e)
    ensures CsvPaths(s, entries) == [] <==> forall e :: e in entries ==> !Selected(s.draft, e)
  {
    if entries != [] {
      var init := entries[..|entries| - 1];
      var e := entries[|entries| - 1];
      CsvPathsExact(s, init);
      assert entries == init + [e];
    }
  }
}
