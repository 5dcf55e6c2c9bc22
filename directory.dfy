/** Directories as the workflow sees them, and the file-system operations it
    performs: create a directory, count its regular files, save one file. */
module Directory {
  import opened Wrappers
  import opened Uploads

  /** A directory entry: a regular file with its bytes, or a subdirectory
      (whose contents the workflow never looks at). */
  datatype Entry = File(content: Bytes) | SubDir

  /** A directory listing: entry name to entry. */
  type Listing = map<string, Entry>

  /** The names of the regular files in a directory. */
  function FileNames(d: Listing): (names: set<string>)
    ensures names <= d.Keys
  {
    set name | name in d && d[name].File?
  }

  /** The names of the subdirectories in a directory. */
  function SubDirNames(d: Listing): (names: set<string>)
    ensures names <= d.Keys
  {
    set name | name in d && d[name].SubDir?
  }

  /** The sequencer's count: `len([f for f in os.listdir(p) if os.path.isfile(...)])`,
      the number of regular files, subdirectories not counted. */
  function FileCount(d: Listing): nat
  {
    |FileNames(d)|
  }

  /** Every entry is a regular file or a subdirectory, so the file count is
      the number of entries minus the number of subdirectories. */
  lemma FileCountExcludesSubDirs(d: Listing)
    ensures FileCount(d) + |SubDirNames(d)| == |d|
    ensures FileCount(d) <= |d|
  {
    assert d.Keys == FileNames(d) + SubDirNames(d);
    assert FileNames(d) * SubDirNames(d) == {};
  }

  /** An empty directory has no files: numbering in it starts at 1. */
  lemma EmptyDirectoryCount()
    ensures FileCount(map[]) == 0
  {
    assert FileNames(map[]) == {};
  }

  /** Saving a file under `name` adds `name` to the file names and nothing
      else, so the count grows by one exactly when `name` was not already a
      regular file. */
  lemma FileCountAfterSave(d: Listing, name: string, content: Bytes)
    ensures FileNames(d[name := File(content)]) == FileNames(d) + {name}
    ensures FileCount(d[name := File(content)])
         == if name in FileNames(d) then FileCount(d) else FileCount(d) + 1
  {
    assert FileNames(d[name := File(content)]) == FileNames(d) + {name};
    if name !in FileNames(d) {
      assert |FileNames(d) + {name}| == |FileNames(d)| + 1;
    } else {
      assert FileNames(d) + {name} == FileNames(d);
    }
  }

  /** `os.makedirs(path)` when `path` does not exist yet: an empty directory
      appears; an existing one is left alone. */
  function EnsureDir(dirs: map<string, Listing>, path: string): (r: map<string, Listing>)
    ensures path in r
    ensures path in dirs ==> r == dirs
    ensures path !in dirs ==> r[path] == map[] && r.Keys == dirs.Keys + {path}
    ensures forall p :: p in dirs ==> p in r && r[p] == dirs[p]
  {
    if path in dirs then dirs else dirs[path := map[]]
  }

  /** Updating the same path twice keeps only the second listing. */
  lemma UpdateTwice(dirs: map<string, Listing>, path: string, first: Listing, second: Listing)
    ensures dirs[path := first][path := second] == dirs[path := second]
  {
  }

  /** The directories the workflow touches, keyed by path. Paths are opaque
      strings; nesting of directories is not modelled. */
  class FileSystem {
    var dirs: map<string, Listing>

    constructor (initial: map<string, Listing>)
      ensures dirs == initial
    {
      dirs := initial;
    }

    /** `os.makedirs(path)`, called only when `path` does not exist. */
    method MakeDirs(path: string)
      requires path !in dirs
      modifies this
      ensures dirs == EnsureDir(old(dirs), path)
    {
      dirs := dirs[path := map[]];
    }

    /** `os.listdir(path)` filtered by `os.path.isfile`: the number of regular
      files, or None when the directory does not exist (listdir raises). */
    method CountFiles(path: string) returns (count: Option<nat>)
      ensures count.Some? <==> path in dirs
      ensures count.Some? ==> count.value == FileCount(dirs[path])
    {
      if path in dirs {
        count := Some(FileCount(dirs[path]));
      } else {
        count := None;
      }
    }

    /** `file.save(os.path.join(path, name))`: creates or silently overwrites a
        regular file; fails (the open raises) when `name` is a subdirectory. */
    method Save(path: string, name: string, content: Bytes) returns (ok: bool)
      requires path in dirs
      modifies this
      ensures ok <==> !(name in old(dirs)[path] && old(dirs)[path][name].SubDir?)
      ensures ok ==> dirs == old(dirs)[path := old(dirs)[path][name := File(content)]]
      ensures !ok ==> dirs == old(dirs)
    {
      var listing := dirs[path];
      if name in listing && listing[name].SubDir? {
        ok := false;
      } else {
        dirs := dirs[path := listing[name := File(content)]];
        ok := true;
      }
    }
  }
}
