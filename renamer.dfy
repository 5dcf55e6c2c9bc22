/** The batch renamer `rename_and_save_files`: check the date shape once, then
    write each uploaded file into the destination under its generated name. */
module Renamer {
  import opened Uploads
  import opened Naming
  import opened Directory
  import opened Decimal

  /** How a call ends: every file written, the `ValueError` for a badly shaped
      date (nothing written), or a save that raised on `name` because it is a
      subdirectory (the files before it stay written). */
  datatype RenameOutcome = Renamed | InvalidDate | SaveFault(name: string)

  /** The outcome together with the destination listing afterwards. */
  datatype Staged = Staged(outcome: RenameOutcome, listing: Listing)

  /** Every file name holds a dot, as the callers' validation guarantees;
      without one `rsplit('.', 1)[1]` would raise. */
  predicate HasDots(files: seq<Upload>)
  {
    forall k :: 0 <= k < |files| ==> '.' in files[k].filename
  }

  /** The names the batch writes to: file `k` gets the name numbered
      `start + k`. */
  function BatchNames(date: string, location: string, files: seq<Upload>, start: int)
    : (names: seq<string>)
    requires DateShapeOk(date)
    requires HasDots(files)
    ensures |names| == |files|
    ensures forall k :: 0 <= k < |files| ==>
              names[k] == TargetName(date, start + k, location, files[k].filename)
  {
    seq(|files|, k requires 0 <= k < |files| =>
      TargetName(date, start + k, location, files[k].filename))
  }

  /** The k-th name of a batch, written out: the date as given, the number
      `start + k` in plain decimal in parentheses, the location, a dot and
      the k-th file's lower-cased extension. */
  lemma BatchNamesLayout(date: string, location: string, files: seq<Upload>, start: int, k: nat)
    requires DateShapeOk(date)
    requires HasDots(files)
    requires k < |files|
    ensures BatchNames(date, location, files, start)[k]
         == date + " (" + IntToDecimal(start + k) + ") " + location + "." + Extension(files[k].filename)
  {
    TargetNameLayout(date, start + k, location, files[k].filename);
  }

  /** Names carrying the consecutive sequence numbers `start`, `start + 1`, ... */
  ghost predicate NumberedFrom(names: seq<string>, start: int)
  {
    forall k :: 0 <= k < |names| ==> IndexOf(names[k]) == start + k
  }

  /** Pairwise distinct names. */
  ghost predicate Distinct(names: seq<string>)
  {
    forall i, j :: 0 <= i < j < |names| ==> names[i] != names[j]
  }

  /** The k-th name of a batch carries the number `start + k`; hence the names
      of one batch are pairwise distinct. */
  lemma BatchNamesNumbered(date: string, location: string, files: seq<Upload>, start: int)
    requires DateShapeOk(date)
    requires HasDots(files)
    ensures NumberedFrom(BatchNames(date, location, files, start), start)
    ensures Distinct(BatchNames(date, location, files, start))
  {
    var names := BatchNames(date, location, files, start);
    forall k | 0 <= k < |names|
      ensures IndexOf(names[k]) == start + k
    {
      IndexOfTargetName(date, start + k, location, files[k].filename);
    }
  }

  /** The write loop: `names[k]` receives the content of `files[k]`, each
      write silently replacing a file of that name; a write onto a
      subdirectory raises and ends the batch. */
  function WriteAll(d: Listing, names: seq<string>, files: seq<Upload>): (r: Staged)
    requires |names| == |files|
    ensures r.outcome.Renamed? || r.outcome.SaveFault?
    decreases |names|
  {
    if names == [] then Staged(Renamed, d)
    else if names[0] in d && d[names[0]].SubDir? then Staged(SaveFault(names[0]), d)
    else WriteAll(d[names[0] := File(files[0].content)], names[1..], files[1..])
  }

  /** `rename_and_save_files` on the destination listing `d`: a badly shaped
      date is refused before anything is written. */
  function Rename(d: Listing, location: string, date: string, files: seq<Upload>,
                  start: int): (r: Staged)
    requires DateShapeOk(date) ==> HasDots(files)
    ensures r.outcome.InvalidDate? <==> !DateShapeOk(date)
    ensures r.outcome.InvalidDate? ==> r.listing == d
  {
    if DateShapeOk(date) then WriteAll(d, BatchNames(date, location, files, start), files)
    else Staged(InvalidDate, d)
  }

  /** An entry whose name is not written by the batch is exactly as it was:
      present or absent alike, with the same content. */
  lemma {:induction false} WriteAllUntouched(d: Listing, names: seq<string>, files: seq<Upload>,
                                             x: string)
    requires |names| == |files|
    requires x !in names
    ensures var r := WriteAll(d, names, files);
            (x in r.listing <==> x in d) && (x in d ==> r.listing[x] == d[x])
    decreases |names|
  {
    if names != [] && !(names[0] in d && d[names[0]].SubDir?) {
      assert x != names[0];
      assert x !in names[1..];
      WriteAllUntouched(d[names[0] := File(files[0].content)], names[1..], files[1..], x);
    }
  }

  /** After a batch with distinct names that wrote everything, `names[k]`
      holds the content of `files[k]`: no later write replaces it. */
  lemma {:induction false} WriteAllStores(d: Listing, names: seq<string>, files: seq<Upload>,
                                          k: nat)
    requires |names| == |files|
    requires Distinct(names)
    requires k < |names|
    requires WriteAll(d, names, files).outcome == Renamed
    ensures var r := WriteAll(d, names, files);
            names[k] in r.listing && r.listing[names[k]] == File(files[k].content)
    decreases |names|
  {
    var d' := d[names[0] := File(files[0].content)];
    if k == 0 {
      assert names[0] !in names[1..] by {
        forall j | 0 <= j < |names[1..]| ensures names[1..][j] != names[0] {
          assert names[1..][j] == names[j + 1];
        }
      }
      WriteAllUntouched(d', names[1..], files[1..], names[0]);
    } else {
      WriteAllStores(d', names[1..], files[1..], k - 1);
    }
  }

  /** A batch with distinct names writes every file exactly when none of its
      names is an existing subdirectory; when a save fails, it failed on one
      of the batch's names that was a subdirectory before the batch. */
  lemma {:induction false} WriteAllSucceeds(d: Listing, names: seq<string>, files: seq<Upload>)
    requires |names| == |files|
    requires Distinct(names)
    ensures var r := WriteAll(d, names, files);
            r.outcome == Renamed <==> forall k :: 0 <= k < |names| ==> names[k] !in SubDirNames(d)
    ensures var r := WriteAll(d, names, files);
            r.outcome.SaveFault? ==> r.outcome.name in names && r.outcome.name in SubDirNames(d)
    decreases |names|
  {
    if names != [] && !(names[0] in d && d[names[0]].SubDir?) {
      var d' := d[names[0] := File(files[0].content)];
      var rest := names[1..];
      WriteAllSucceeds(d', rest, files[1..]);
      forall j | 0 <= j < |rest|
        ensures rest[j] in SubDirNames(d') <==> rest[j] in SubDirNames(d)
      {
        assert rest[j] == names[j + 1];
      }
      assert names[0] !in SubDirNames(d);
      assert forall j :: 0 <= j < |rest| ==> rest[j] == names[j + 1];
    }
  }

  /** Some name of the batch numbered from `start` is an existing
      subdirectory of `d`. */
  ghost predicate HitsSubDir(d: Listing, date: string, location: string, files: seq<Upload>,
                             start: int)
    requires DateShapeOk(date)
    requires HasDots(files)
  {
    exists k :: 0 <= k < |files| &&
      TargetName(date, start + k, location, files[k].filename) in SubDirNames(d)
  }

  /** A batch ends on a save that raised exactly when one of its generated
      names is an existing subdirectory. */
  lemma BatchFaultsOnSubDir(d: Listing, date: string, location: string, files: seq<Upload>,
                            start: int)
    requires DateShapeOk(date)
    requires HasDots(files)
    ensures WriteAll(d, BatchNames(date, location, files, start), files).outcome.SaveFault? <==>
              HitsSubDir(d, date, location, files, start)
  {
    var names := BatchNames(date, location, files, start);
    assert WriteAll(d, names, files).outcome.SaveFault? <==>
           exists k :: 0 <= k < |names| && names[k] in SubDirNames(d) by {
      BatchNamesNumbered(date, location, files, start);
      WriteAllFaults(d, names, files);
    }
    if exists k :: 0 <= k < |names| && names[k] in SubDirNames(d) {
      var k :| 0 <= k < |names| && names[k] in SubDirNames(d);
      assert TargetName(date, start + k, location, files[k].filename) in SubDirNames(d);
    }
  }

  /** A batch with distinct names ends on a save that raised exactly when
      one of its names is an existing subdirectory. */
  lemma WriteAllFaults(d: Listing, names: seq<string>, files: seq<Upload>)
    requires |names| == |files|
    requires Distinct(names)
    ensures WriteAll(d, names, files).outcome.SaveFault? <==>
              exists k :: 0 <= k < |names| && names[k] in SubDirNames(d)
  {
    WriteAllSucceeds(d, names, files);
  }

  /** The batch adds at most one regular file per uploaded file. */
  lemma {:induction false} WriteAllFileBound(d: Listing, names: seq<string>, files: seq<Upload>)
    requires |names| == |files|
    ensures FileCount(WriteAll(d, names, files).listing) <= FileCount(d) + |files|
    decreases |names|
  {
    if names != [] && !(names[0] in d && d[names[0]].SubDir?) {
      FileCountAfterSave(d, names[0], files[0].content);
      WriteAllFileBound(d[names[0] := File(files[0].content)], names[1..], files[1..]);
    }
  }

  /** The numbering invariant of a staging directory used by one writer at a
      time: every regular file carries a sequence number between 1 and the
      file count, and no two files carry the same one, so the numbers are
      exactly 1, 2, ..., FileCount(d), without gaps. */
  ghost predicate WellNumbered(d: Listing)
  {
    && (forall x :: x in FileNames(d) ==> 1 <= IndexOf(x) <= FileCount(d))
    && (forall x, y :: x in FileNames(d) && y in FileNames(d) && IndexOf(x) == IndexOf(y) ==> x == y)
  }

  /** Saving a new file numbered one past the count keeps the invariant. */
  lemma NumberedSave(d: Listing, name: string, content: Bytes)
    requires WellNumbered(d)
    requires name !in d
    requires IndexOf(name) == FileCount(d) + 1
    ensures WellNumbered(d[name := File(content)])
    ensures FileCount(d[name := File(content)]) == FileCount(d) + 1
  {
    var d' := d[name := File(content)];
    FileCountAfterSave(d, name, content);
    assert name !in FileNames(d);
    forall x | x in FileNames(d')
      ensures 1 <= IndexOf(x) <= FileCount(d')
    {
      if x != name {
        assert x in FileNames(d);
      }
    }
    forall x, y | x in FileNames(d') && y in FileNames(d') && IndexOf(x) == IndexOf(y)
      ensures x == y
    {
      if x != name && y != name {
        assert x in FileNames(d) && y in FileNames(d);
      }
    }
  }

  /** A well-numbered directory stays so after a batch numbered from its
      file count plus one, whether every file was written or a save raised
      part-way; when every file was written it holds exactly one more regular
      file per uploaded file. */
  lemma {:induction false} NumberingContinues(d: Listing, names: seq<string>, files: seq<Upload>)
    requires |names| == |files|
    requires WellNumbered(d)
    requires NumberedFrom(names, FileCount(d) + 1)
    ensures WellNumbered(WriteAll(d, names, files).listing)
    ensures var r := WriteAll(d, names, files);
            r.outcome == Renamed ==> FileCount(r.listing) == FileCount(d) + |files|
    decreases |names|
  {
    if names != [] && !(names[0] in d && d[names[0]].SubDir?) {
      var d' := d[names[0] := File(files[0].content)];
      assert names[0] !in FileNames(d);
      NumberedSave(d, names[0], files[0].content);
      assert NumberedFrom(names[1..], FileCount(d') + 1) by {
        forall k | 0 <= k < |names[1..]|
          ensures IndexOf(names[1..][k]) == FileCount(d') + 1 + k
        {
          assert names[1..][k] == names[k + 1];
        }
      }
      NumberingContinues(d', names[1..], files[1..]);
    }
  }

  /** `rename_and_save_files(location, date, files, destination, start_index)`:
      create the destination if missing, check the date shape, then run the
      write loop. */
  method RenameAndSave(fs: FileSystem, location: string, date: string, files: seq<Upload>,
                       destination: string, start: int) returns (outcome: RenameOutcome)
    requires DateShapeOk(date) ==> HasDots(files)
    modifies fs
    ensures var dirs := EnsureDir(old(fs.dirs), destination);
            var r := Rename(dirs[destination], location, date, files, start);
            outcome == r.outcome && fs.dirs == dirs[destination := r.listing]
  {
    if destination !in fs.dirs {
      fs.MakeDirs(destination);
    }
    var parts := Strings.Split(date, '-');
    if |parts| != 3 || |parts[0]| != 4 || |parts[1]| != 2 || |parts[2]| != 2 {
      assert fs.dirs[destination := fs.dirs[destination]] == fs.dirs;
      return InvalidDate;
    }
    outcome := SaveEach(fs, destination, parts[0], parts[1], parts[2], location, files, start, date);
  }

  /** The write loop of `rename_and_save_files`: for each file in order, build
      its name from the date parts and save it, stopping at the first save
      that raises. */
  method SaveEach(fs: FileSystem, destination: string, year: string, month: string, day: string,
                  location: string, files: seq<Upload>, start: int, ghost date: string)
    returns (outcome: RenameOutcome)
    requires DateShapeOk(date) && HasDots(files)
    requires Strings.Split(date, '-') == [year, month, day]
    requires destination in fs.dirs
    modifies fs
    ensures var r := WriteAll(old(fs.dirs)[destination], BatchNames(date, location, files, start), files);
            outcome == r.outcome && fs.dirs == old(fs.dirs)[destination := r.listing]
  {
    ghost var dirs := fs.dirs;
    ghost var names := BatchNames(date, location, files, start);
    ghost var cur := dirs[destination];
    assert dirs == dirs[destination := cur];
    var i := 0;
    while i < |files|
      invariant 0 <= i <= |files|
      invariant fs.dirs == dirs[destination := cur]
      invariant WriteAll(dirs[destination], names, files) == WriteAll(cur, names[i..], files[i..])
    {
      var name := NewName(year, month, day, start + i, location, Extension(files[i].filename));
      assert name == names[i] by {
        var parts := Strings.Split(date, '-');
        assert parts[0] == year && parts[1] == month && parts[2] == day;
      }
      assert names[i..][1..] == names[i + 1..];
      assert files[i..][1..] == files[i + 1..];
      var ok := fs.Save(destination, name, files[i].content);
      if !ok {
        return SaveFault(name);
      }
      UpdateTwice(dirs, destination, cur, cur[name := File(files[i].content)]);
      cur := cur[name := File(files[i].content)];
      i := i + 1;
    }
    return Renamed;
  }
}
