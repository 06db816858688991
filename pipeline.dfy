/**
 * The walk of one ticker (parser.go, `processTicker`, `processFolder`,
 * `processFile`): its date folders in sorted order, in each folder its
 * ".csv.gz" files in sorted order, each file aggregated and appended to the
 * output file of its ticker and date.
 *
 * The file system is a value: directory listings by path, and the decoded
 * content of each file by path. A `log.Fatal` of the source ends the run with
 * a fault; what was appended before it stays appended.
 */
module Pipeline {
  import opened Wrappers
  import opened Sorting
  import opened Walker
  import opened Aggregation
  import opened Formatter

  /** Where a ticker's date folders are (parser.go:77). */
  const OrderbooksDir: string := "/spot/orderbooks"

  /**
   * What opening and decompressing a file gives: a stream the gzip reader
   * rejects, or the sequence of results of the CSV reader.
   */
  datatype FileContent = Undecodable | Decoded(records: seq<CsvRead>)

  datatype FileSystem = FileSystem(listings: map<string, seq<Entry>>, files: map<string, FileContent>)

  /** The conditions on which the source stops the process. */
  datatype Fault =
    | ListFailed(dir: string)
    | OpenFailed(path: string)
    | ShortRecord(path: string)
    | BadFolderDate(folder: string)
    | BadTimestamp(path: string)

  /** Lines appended to an output file, in an unspecified order. */
  datatype Append = Append(path: string, lines: multiset<TickLine>)

  /** The appends of a run, in order, and the fault that ended it, if any. */
  datatype Run = Run(appends: seq<Append>, fault: Option<Fault>)

  const Done: Run := Run([], None)

  function ChildPath(dir: string, name: string): string {
    dir + "/" + name
  }

  /** Run `a`, then `b` unless `a` ended the process. */
  function Then(a: Run, b: Run): (r: Run)
    ensures a.fault.Some? ==> r == a
    ensures a.fault.None? ==> r.appends == a.appends + b.appends && r.fault == b.fault
  {
    if a.fault.Some? then a else Run(a.appends + b.appends, b.fault)
  }

  lemma ThenAssociative(a: Run, b: Run, c: Run)
    ensures Then(Then(a, b), c) == Then(a, Then(b, c))
  {
    if a.fault.None? && b.fault.None? {
      assert a.appends + b.appends + c.appends == a.appends + (b.appends + c.appends);
    }
  }

  /**
   * One input file (parser.go:124-220): a file that cannot be opened, a record
   * too short to index, a folder name that is not a date and a timestamp that
   * does not parse each stop the process; a file the gzip reader rejects is
   * skipped; otherwise the lines of its aggregation table are appended to the
   * output file of the ticker and date.
   */
  ghost function FileRun(fs: FileSystem, path: string, folder: string, ticker: string): Run {
    if path !in fs.files then Run([], Some(OpenFailed(path)))
    else match fs.files[path]
      case Undecodable => Done
      case Decoded(records) =>
        match FoldReads(map[], records)
        case None => Run([], Some(ShortRecord(path)))
        case Some(t) =>
          match OutputPath(folder, ticker)
          case None => Run([], Some(BadFolderDate(folder)))
          case Some(out) =>
            if TimestampsReadable(t) then Run([Append(out, TableLines(t))], None)
            else Run([], Some(BadTimestamp(path)))
  }

  /** The files `names` of a folder, one after another. */
  ghost function FilesRun(fs: FileSystem, folderPath: string, names: seq<string>, folder: string, ticker: string): Run
    decreases |names|
  {
    if names == [] then Done
    else Then(FileRun(fs, ChildPath(folderPath, names[0]), folder, ticker),
              FilesRun(fs, folderPath, names[1..], folder, ticker))
  }

  /** A date folder (parser.go:102-122): its ".csv.gz" entries in sorted order. */
  ghost function FolderRun(fs: FileSystem, folderPath: string, folder: string, ticker: string): Run {
    if folderPath !in fs.listings then Run([], Some(ListFailed(folderPath)))
    else FilesRun(fs, folderPath, Sort(Selected(fs.listings[folderPath], IsDataFile)), folder, ticker)
  }

  /** The date folders `names` of a ticker, one after another. */
  ghost function FoldersRun(fs: FileSystem, dir: string, names: seq<string>, ticker: string): Run
    decreases |names|
  {
    if names == [] then Done
    else Then(FolderRun(fs, ChildPath(dir, names[0]), names[0], ticker),
              FoldersRun(fs, dir, names[1..], ticker))
  }

  /** A ticker (parser.go:76-100): its sub-directories in sorted order. */
  ghost function TickerRun(fs: FileSystem, tickerPath: string, ticker: string): Run {
    var dir := tickerPath + OrderbooksDir;
    if dir !in fs.listings then Run([], Some(ListFailed(dir)))
    else FoldersRun(fs, dir, Sort(Selected(fs.listings[dir], IsDateFolder)), ticker)
  }

  lemma FilesRunStep(fs: FileSystem, folderPath: string, names: seq<string>, i: nat, folder: string, ticker: string,
                     run: Run, step: Run)
    requires i < |names| && step == FileRun(fs, ChildPath(folderPath, names[i]), folder, ticker)
    requires Then(run, FilesRun(fs, folderPath, names[i..], folder, ticker)) == FilesRun(fs, folderPath, names, folder, ticker)
    ensures Then(Then(run, step), FilesRun(fs, folderPath, names[i + 1..], folder, ticker))
         == FilesRun(fs, folderPath, names, folder, ticker)
  {
    assert names[i..][1..] == names[i + 1..];
    ThenAssociative(run, step, FilesRun(fs, folderPath, names[i + 1..], folder, ticker));
  }

  lemma FoldersRunStep(fs: FileSystem, dir: string, names: seq<string>, i: nat, ticker: string, run: Run, step: Run)
    requires i < |names| && step == FolderRun(fs, ChildPath(dir, names[i]), names[i], ticker)
    requires Then(run, FoldersRun(fs, dir, names[i..], ticker)) == FoldersRun(fs, dir, names, ticker)
    ensures Then(Then(run, step), FoldersRun(fs, dir, names[i + 1..], ticker)) == FoldersRun(fs, dir, names, ticker)
  {
    assert names[i..][1..] == names[i + 1..];
    ThenAssociative(run, step, FoldersRun(fs, dir, names[i + 1..], ticker));
  }

  method ProcessFile(fs: FileSystem, path: string, folder: string, ticker: string) returns (run: Run)
    ensures run == FileRun(fs, path, folder, ticker)
  {
    if path !in fs.files {
      return Run([], Some(OpenFailed(path)));
    }
    match fs.files[path]
    case Undecodable =>
      return Done;
    case Decoded(records) =>
      var table := AggregateFile(records);
      if table.None? {
        return Run([], Some(ShortRecord(path)));
      }
      var out := OutputPath(folder, ticker);
      if out.None? {
        return Run([], Some(BadFolderDate(folder)));
      }
      var lines, failure := EmitLines(table.value);
      if failure.Some? {
        return Run([], Some(BadTimestamp(path)));
      }
      return Run([Append(out.value, multiset(lines))], None);
  }

  method ProcessFolder(fs: FileSystem, folderPath: string, folder: string, ticker: string) returns (run: Run)
    ensures run == FolderRun(fs, folderPath, folder, ticker)
  {
    if folderPath !in fs.listings {
      return Run([], Some(ListFailed(folderPath)));
    }
    var files := DataFiles(fs.listings[folderPath]);
    assert files == Sort(Selected(fs.listings[folderPath], IsDataFile)) by {
      SortedUnique(files, Sort(Selected(fs.listings[folderPath], IsDataFile)));
    }
    run := ProcessFiles(fs, folderPath, files, folder, ticker);
  }

  /** The file loop of a folder (parser.go:118-121): each file in turn, until one stops the process. */
  method ProcessFiles(fs: FileSystem, folderPath: string, files: seq<string>, folder: string, ticker: string)
    returns (run: Run)
    ensures run == FilesRun(fs, folderPath, files, folder, ticker)
  {
    run := Done;
    for i := 0 to |files|
      invariant run.fault.None?
      invariant Then(run, FilesRun(fs, folderPath, files[i..], folder, ticker))
             == FilesRun(fs, folderPath, files, folder, ticker)
    {
      var step := ProcessFile(fs, ChildPath(folderPath, files[i]), folder, ticker);
      FilesRunStep(fs, folderPath, files, i, folder, ticker, run, step);
      run := Then(run, step);
      if run.fault.Some? {
        return;
      }
    }
  }

  method ProcessTicker(fs: FileSystem, tickerPath: string, ticker: string) returns (run: Run)
    ensures run == TickerRun(fs, tickerPath, ticker)
  {
    var dir := tickerPath + OrderbooksDir;
    if dir !in fs.listings {
      return Run([], Some(ListFailed(dir)));
    }
    var folders := DateFolders(fs.listings[dir]);
    assert folders == Sort(Selected(fs.listings[dir], IsDateFolder)) by {
      SortedUnique(folders, Sort(Selected(fs.listings[dir], IsDateFolder)));
    }
    run := ProcessFolders(fs, dir, folders, ticker);
  }

  /** The folder loop of a ticker (parser.go:96-99): each date folder in turn, until one stops the process. */
  method ProcessFolders(fs: FileSystem, dir: string, folders: seq<string>, ticker: string) returns (run: Run)
    ensures run == FoldersRun(fs, dir, folders, ticker)
  {
    run := Done;
    for i := 0 to |folders|
      invariant run.fault.None?
      invariant Then(run, FoldersRun(fs, dir, folders[i..], ticker)) == FoldersRun(fs, dir, folders, ticker)
    {
      var step := ProcessFolder(fs, ChildPath(dir, folders[i]), folders[i], ticker);
      FoldersRunStep(fs, dir, folders, i, ticker, run, step);
      run := Then(run, step);
      if run.fault.Some? {
        return;
      }
    }
  }

  /** Running two lists of files is running the first, then the second. */
  lemma {:induction false} FilesRunConcat(fs: FileSystem, folderPath: string, a: seq<string>, b: seq<string>,
                                          folder: string, ticker: string)
    ensures FilesRun(fs, folderPath, a + b, folder, ticker)
         == Then(FilesRun(fs, folderPath, a, folder, ticker), FilesRun(fs, folderPath, b, folder, ticker))
    decreases |a|
  {
    if a == [] {
      assert a + b == b;
      assert Then(Done, FilesRun(fs, folderPath, b, folder, ticker)).appends
          == [] + FilesRun(fs, folderPath, b, folder, ticker).appends;
    } else {
      assert (a + b)[1..] == a[1..] + b;
      FilesRunConcat(fs, folderPath, a[1..], b, folder, ticker);
      ThenAssociative(FileRun(fs, ChildPath(folderPath, a[0]), folder, ticker),
                      FilesRun(fs, folderPath, a[1..], folder, ticker), FilesRun(fs, folderPath, b, folder, ticker));
    }
  }

  /**
   * A file the gzip reader rejects is logged and skipped (parser.go:145-149):
   * the folder's run is that of its other files.
   */
  lemma UndecodableSkipped(fs: FileSystem, folderPath: string, names: seq<string>, i: nat, folder: string, ticker: string)
    requires i < |names|
    requires ChildPath(folderPath, names[i]) in fs.files && fs.files[ChildPath(folderPath, names[i])] == Undecodable
    ensures FilesRun(fs, folderPath, names, folder, ticker)
         == FilesRun(fs, folderPath, names[..i] + names[i + 1..], folder, ticker)
  {
    var before, after := names[..i], names[i + 1..];
    assert names == before + ([names[i]] + after);
    FilesRunConcat(fs, folderPath, before, [names[i]] + after, folder, ticker);
    FilesRunConcat(fs, folderPath, before, after, folder, ticker);
    SkipDone(fs, folderPath, names[i], after, folder, ticker);
  }

  /** A file that runs to nothing can be dropped from the list. */
  lemma SkipDone(fs: FileSystem, folderPath: string, name: string, rest: seq<string>, folder: string, ticker: string)
    requires ChildPath(folderPath, name) in fs.files && fs.files[ChildPath(folderPath, name)] == Undecodable
    ensures FilesRun(fs, folderPath, [name] + rest, folder, ticker) == FilesRun(fs, folderPath, rest, folder, ticker)
  {
    assert ([name] + rest)[1..] == rest;
    var r := FilesRun(fs, folderPath, rest, folder, ticker);
    assert [] + r.appends == r.appends;
  }

  /**
   * A folder whose name is not a "2006-01-02" date writes nothing: the first
   * file that gets as far as the formatter stops the process (parser.go:232-236).
   */
  lemma {:induction false} BadFolderDateWritesNothing(fs: FileSystem, folderPath: string, names: seq<string>,
                                                      folder: string, ticker: string)
    requires ParseFolderDate(folder).None?
    ensures FilesRun(fs, folderPath, names, folder, ticker).appends == []
    decreases |names|
  {
    if names != [] {
      BadFolderDateWritesNothing(fs, folderPath, names[1..], folder, ticker);
    }
  }

  /** Every append of a date folder goes to the output file of the ticker and date. */
  lemma {:induction false} FolderAppendsPath(fs: FileSystem, folderPath: string, names: seq<string>,
                                             folder: string, ticker: string)
    ensures forall a :: a in FilesRun(fs, folderPath, names, folder, ticker).appends ==>
      OutputPath(folder, ticker) == Some(a.path)
    decreases |names|
  {
    if names != [] {
      FolderAppendsPath(fs, folderPath, names[1..], folder, ticker);
    }
  }

  /**
   * A file that reads completely in a date folder stops the process on a bad
   * timestamp exactly when one of its timestamps has no source time; otherwise
   * it appends, to the output file, the lines of its table.
   */
  lemma FileRunOutcome(fs: FileSystem, path: string, folder: string, ticker: string)
    requires path in fs.files && fs.files[path].Decoded?
    requires AllRecordsComplete(fs.files[path].records)
    requires ParseFolderDate(folder).Some?
    ensures var t := FoldReads(map[], fs.files[path].records);
      && t.Some?
      && (FileRun(fs, path, folder, ticker).fault == Some(BadTimestamp(path))
          <==> exists ts :: ts in t.value && SourceTime(ts).None?)
      && (FileRun(fs, path, folder, ticker).fault.None? ==>
          FileRun(fs, path, folder, ticker).appends == [Append(OutputPath(folder, ticker).value, TableLines(t.value))])
  {
    var records := fs.files[path].records;
    FoldReadsIsFoldAll(map[], records);
    FoldReadsNoEmptyTimestamp(map[], records);
  }
}
