/**
 * Input selection of the tick parser: which entries of a directory listing
 * are visited, and in which order (`processTicker` and `processFolder`).
 */
module Walker {
  import opened Text
  import opened Sorting

  /** One entry of a directory listing, as `os.ReadDir` returns it. */
  datatype Entry = Entry(name: string, isDir: bool)

  const DataSuffix: string := ".csv.gz"

  /** A date folder of a ticker: any sub-directory. */
  predicate IsDateFolder(e: Entry) {
    e.isDir
  }

  /** An input file of a date folder: any entry whose name ends in ".csv.gz". */
  predicate IsDataFile(e: Entry) {
    HasSuffix(e.name, DataSuffix)
  }

  /** Names of the entries that `keep` accepts, in listing order. */
  function Selected(entries: seq<Entry>, keep: Entry -> bool): (names: seq<string>)
    ensures |names| <= |entries|
    ensures forall x :: x in names <==> exists e :: e in entries && keep(e) && e.name == x
  {
    if entries == [] then []
    else
      var init, last := entries[..|entries| - 1], entries[|entries| - 1];
      assert entries == init + [last];
      Selected(init, keep) + (if keep(last) then [last.name] else [])
  }

  /** A directory never lists two entries under one name. */
  predicate DistinctNames(entries: seq<Entry>) {
    forall i, j :: 0 <= i < j < |entries| ==> entries[i].name != entries[j].name
  }

  /** From a listing with distinct names, each selected name is selected once. */
  lemma {:induction false} SelectedOnce(entries: seq<Entry>, keep: Entry -> bool, x: string)
    requires DistinctNames(entries)
    ensures multiset(Selected(entries, keep))[x] <= 1
  {
    if entries != [] {
      var init, last := entries[..|entries| - 1], entries[|entries| - 1];
      assert DistinctNames(init);
      SelectedOnce(init, keep, x);
      if keep(last) && last.name == x {
        assert x !in Selected(init, keep) by {
          forall e | e in init ensures e.name != x {
            var i :| 0 <= i < |init| && init[i] == e;
            assert entries[i] == e;
          }
        }
      }
    }
  }

  /**
   * The date folders of a ticker, in the order they are processed: the
   * directory entries of the listing, sorted (parser.go, processTicker).
   */
  method DateFolders(entries: seq<Entry>) returns (folders: seq<string>)
    ensures Sorted(folders)
    ensures multiset(folders) == multiset(Selected(entries, IsDateFolder))
  {
    var found: seq<string> := [];
    for i := 0 to |entries|
      invariant found == Selected(entries[..i], IsDateFolder)
    {
      assert entries[..i + 1][..i] == entries[..i];
      if entries[i].isDir {
        found := found + [entries[i].name];
      }
    }
    assert entries[..|entries|] == entries;
    folders := Sort(found);
  }

  /**
   * The input files of a date folder, in the order they are processed: the
   * entries whose name ends in ".csv.gz" (directories included), sorted
   * (parser.go, processFolder).
   */
  method DataFiles(entries: seq<Entry>) returns (files: seq<string>)
    ensures Sorted(files)
    ensures multiset(files) == multiset(Selected(entries, IsDataFile))
  {
    var found: seq<string> := [];
    for i := 0 to |entries|
      invariant found == Selected(entries[..i], IsDataFile)
    {
      assert entries[..i + 1][..i] == entries[..i];
      if HasSuffix(entries[i].name, DataSuffix) {
        found := found + [entries[i].name];
      }
    }
    assert entries[..|entries|] == entries;
    files := Sort(found);
  }
}
