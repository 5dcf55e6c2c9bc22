/** The two upload handlers, `index` (first upload, POST /) and `add_more`
    (POST /add-more): field and file guards, then count-then-rename into the
    staging directory. HTTP parsing and page rendering are reduced to a form
    value and a response value. */
module Requests {
  import opened Wrappers
  import opened Uploads
  import opened Naming
  import opened Directory
  import opened Renamer

  const MissingInputsMessage: string := "Please provide all required inputs."
  const MissingLocationOrDateMessage: string := "Please provide both location and date."
  const InvalidImagesMessage: string := "Ensure all uploaded files are valid images."

  /** The temporary staging root, `TEMP_FOLDER`. */
  const TempFolder: string := "temp"

  /** The submitted form: an absent field is the empty string. For `index`,
      `destination` is the destination label; for `add_more` it is the
      staging path the review page sent back. */
  datatype UploadForm = UploadForm(location: string, date: string, destination: string,
                                   files: seq<Upload>)

  /** What the handler answers: a plain-text message, the review page for a
      staging path, or an uncaught exception (the request fails). */
  datatype Response = Message(text: string) | Review(tempPath: string) | ServerError

  /** A response with the directories after the request. */
  datatype Handled = Handled(response: Response, dirs: map<string, Listing>)

  /** `file and allowed_file(file.filename)`: an upload is truthy when its
      name is non-empty. */
  predicate ValidUpload(u: Upload)
  {
    u.filename != "" && AllowedFile(u.filename)
  }

  /** `all(file and allowed_file(file.filename) for file in files)`. */
  predicate AllValid(files: seq<Upload>)
  {
    forall k :: 0 <= k < |files| ==> ValidUpload(files[k])
  }

  /** Files that pass the file guard all have a dot in their names, which
      is what the renamer needs. */
  lemma ValidUploadsHaveDots(files: seq<Upload>)
    requires AllValid(files)
    ensures HasDots(files)
  {
    forall k | 0 <= k < |files|
      ensures '.' in files[k].filename
    {
      assert ValidUpload(files[k]);
    }
  }

  /** The guards of `index`, in order: the three fields, then the files. */
  function IndexRejection(form: UploadForm): (r: Option<string>)
    ensures r == Some(MissingInputsMessage) <==>
              form.location == "" || form.date == "" || form.destination == ""
    ensures r == Some(InvalidImagesMessage) <==>
              form.location != "" && form.date != "" && form.destination != ""
              && exists k :: 0 <= k < |form.files| && !AllowedFile(form.files[k].filename)
    ensures r == None <==>
              form.location != "" && form.date != "" && form.destination != "" && AllValid(form.files)
  {
    if form.location == "" || form.date == "" || form.destination == "" then Some(MissingInputsMessage)
    else if !AllValid(form.files) then Some(InvalidImagesMessage)
    else None
  }

  /** The guards of `add_more`: location and date only (no destination), then
      the files. */
  function AddMoreRejection(form: UploadForm): (r: Option<string>)
    ensures r == Some(MissingLocationOrDateMessage) <==> form.location == "" || form.date == ""
    ensures r == Some(InvalidImagesMessage) <==>
              form.location != "" && form.date != ""
              && exists k :: 0 <= k < |form.files| && !AllowedFile(form.files[k].filename)
    ensures r == None <==> form.location != "" && form.date != "" && AllValid(form.files)
  {
    if form.location == "" || form.date == "" then Some(MissingLocationOrDateMessage)
    else if !AllValid(form.files) then Some(InvalidImagesMessage)
    else None
  }

  /** `os.path.join(root, name)` for a relative, slash-free `name`. */
  function JoinPath(root: string, name: string): string
  {
    root + "/" + name
  }

  /** The page the handler shows once the renamer is done with `path`. */
  function Respond(outcome: RenameOutcome, path: string): Response
  {
    match outcome
    case Renamed => Review(path)
    case InvalidDate => Message(DateFormatMessage)
    case SaveFault(_) => ServerError
  }

  /** The common tail of both handlers, on an existing staging directory:
      count its regular files, then rename the batch numbering from that
      count plus one. */
  function StageInto(dirs: map<string, Listing>, path: string, form: UploadForm): (h: Handled)
    requires path in dirs
    requires HasDots(form.files)
    ensures h.dirs.Keys == dirs.Keys
    ensures forall p :: p in dirs && p != path ==> h.dirs[p] == dirs[p]
  {
    var start := FileCount(dirs[path]) + 1;
    var r := Rename(dirs[path], form.location, form.date, form.files, start);
    Handled(Respond(r.outcome, path), dirs[path := r.listing])
  }

  /** `index`: guards, then the staging directory `temp/secure_filename(label)`
      is created if missing, and the batch is staged into it. `secure`
      stands for `secure_filename`, whose body is not part of this model. */
  function HandleIndex(dirs: map<string, Listing>, form: UploadForm, secure: string -> string)
    : (h: Handled)
    ensures IndexRejection(form).Some? ==> h.dirs == dirs
    ensures var path := JoinPath(TempFolder, secure(form.destination));
            IndexRejection(form).None? ==> h.dirs.Keys == dirs.Keys + {path}
    ensures var path := JoinPath(TempFolder, secure(form.destination));
            forall p :: p in dirs && p != path ==> p in h.dirs && h.dirs[p] == dirs[p]
    ensures h.response.Review? ==>
              && IndexRejection(form).None? && DateShapeOk(form.date)
              && h.response.tempPath == JoinPath(TempFolder, secure(form.destination))
    ensures h.response == Message(DateFormatMessage) <==>
              IndexRejection(form).None? && !DateShapeOk(form.date)
    ensures h.response.ServerError? ==> IndexRejection(form).None? && DateShapeOk(form.date)
  {
    match IndexRejection(form)
    case Some(message) => Handled(Message(message), dirs)
    case None =>
      var path := JoinPath(TempFolder, secure(form.destination));
      StageInto(EnsureDir(dirs, path), path, form)
  }

  /** `add_more`: guards, then the batch is staged into the staging path the
      form names; listing a path that does not exist raises. */
  function HandleAddMore(dirs: map<string, Listing>, form: UploadForm): (h: Handled)
    ensures h.dirs.Keys == dirs.Keys
    ensures forall p :: p in dirs && p != form.destination ==> h.dirs[p] == dirs[p]
    ensures AddMoreRejection(form).Some? ==> h.dirs == dirs
    ensures h.response.Review? ==>
              && AddMoreRejection(form).None? && DateShapeOk(form.date)
              && h.response.tempPath == form.destination && form.destination in dirs
    ensures h.response == Message(DateFormatMessage) <==>
              AddMoreRejection(form).None? && form.destination in dirs && !DateShapeOk(form.date)
  {
    match AddMoreRejection(form)
    case Some(message) => Handled(Message(message), dirs)
    case None =>
      if form.destination !in dirs then Handled(ServerError, dirs)
      else StageInto(dirs, form.destination, form)
  }

  /** A request that fails a guard changes no directory and answers with the
      guard's message. */
  lemma RejectedRequestsWriteNothing(dirs: map<string, Listing>, form: UploadForm,
                                     secure: string -> string)
    ensures IndexRejection(form).Some? ==>
              HandleIndex(dirs, form, secure) == Handled(Message(IndexRejection(form).value), dirs)
    ensures AddMoreRejection(form).Some? ==>
              HandleAddMore(dirs, form) == Handled(Message(AddMoreRejection(form).value), dirs)
  {
  }

  /** `add_more` does not ask for a destination: a form with location, date
      and valid files but no destination passes its guards, while `index`
      refuses the same form. An empty file list passes both file guards. */
  lemma AddMoreNeedsNoDestination(form: UploadForm)
    requires form.location != "" && form.date != "" && form.destination == ""
    requires AllValid(form.files)
    ensures AddMoreRejection(form) == None
    ensures IndexRejection(form) == Some(MissingInputsMessage)
    ensures IndexRejection(form.(destination := "x", files := [])) == None
  {
  }

  /** A badly shaped date is answered with the date message, and nothing is
      written into the staging directory (which exists by then). */
  lemma StageIntoInvalidDate(dirs: map<string, Listing>, path: string, form: UploadForm)
    requires path in dirs
    requires HasDots(form.files)
    requires !DateShapeOk(form.date)
    ensures StageInto(dirs, path, form) == Handled(Message(DateFormatMessage), dirs)
  {
    assert dirs[path := dirs[path]] == dirs;
  }

  /** When the review page is shown, the k-th uploaded file is stored with
      its own content under the name numbered `c + 1 + k`, where `c` is the
      number of regular files in the directory before the request. */
  lemma StageIntoStores(dirs: map<string, Listing>, path: string, form: UploadForm, k: nat)
    requires path in dirs
    requires HasDots(form.files)
    requires k < |form.files|
    requires StageInto(dirs, path, form).response == Review(path)
    ensures DateShapeOk(form.date)
    ensures var after := StageInto(dirs, path, form).dirs[path];
            var name := TargetName(form.date, FileCount(dirs[path]) + 1 + k, form.location,
                                   form.files[k].filename);
            name in after && after[name] == File(form.files[k].content)
  {
    var d := dirs[path];
    var start := FileCount(d) + 1;
    var r := Rename(d, form.location, form.date, form.files, start);
    assert StageInto(dirs, path, form) == Handled(Respond(r.outcome, path), dirs[path := r.listing]);
    assert r.outcome == Renamed;
    var names := BatchNames(form.date, form.location, form.files, start);
    assert r == WriteAll(d, names, form.files);
    BatchNamesNumbered(form.date, form.location, form.files, start);
    WriteAllStores(d, names, form.files, k);
  }

  /** Every entry of the staging directory that is not one of the batch's
      names is left as it was, and so is every other directory. */
  lemma StageIntoKeepsOthers(dirs: map<string, Listing>, path: string, form: UploadForm, x: string)
    requires path in dirs
    requires HasDots(form.files)
    requires DateShapeOk(form.date)
    requires forall k :: 0 <= k < |form.files| ==>
               x != TargetName(form.date, FileCount(dirs[path]) + 1 + k, form.location,
                               form.files[k].filename)
    ensures var after := StageInto(dirs, path, form).dirs[path];
            (x in after <==> x in dirs[path]) && (x in dirs[path] ==> after[x] == dirs[path][x])
    ensures FileCount(StageInto(dirs, path, form).dirs[path]) <= FileCount(dirs[path]) + |form.files|
  {
    var start := FileCount(dirs[path]) + 1;
    var names := BatchNames(form.date, form.location, form.files, start);
    assert x !in names;
    WriteAllUntouched(dirs[path], names, form.files, x);
    WriteAllFileBound(dirs[path], names, form.files);
  }

  /** The request fails with an uncaught exception exactly when the date is
      well shaped and one of the batch's names is an existing subdirectory. */
  lemma StageIntoFailsOnSubDir(dirs: map<string, Listing>, path: string, form: UploadForm)
    requires path in dirs
    requires HasDots(form.files)
    ensures StageInto(dirs, path, form).response == ServerError <==>
              && DateShapeOk(form.date)
              && HitsSubDir(dirs[path], form.date, form.location, form.files,
                            FileCount(dirs[path]) + 1)
  {
    var d := dirs[path];
    var start := FileCount(d) + 1;
    var r := Rename(d, form.location, form.date, form.files, start);
    assert StageInto(dirs, path, form).response == Respond(r.outcome, path);
    assert Respond(r.outcome, path) == ServerError <==> r.outcome.SaveFault?;
    if DateShapeOk(form.date) {
      assert r == WriteAll(d, BatchNames(form.date, form.location, form.files, start), form.files);
      BatchFaultsOnSubDir(d, form.date, form.location, form.files, start);
    } else {
      assert r.outcome == InvalidDate;
    }
  }

  /** Under one writer at a time, a well-numbered staging directory stays
      well numbered whatever the request's outcome, and a successful request
      adds exactly one regular file per uploaded file. */
  lemma StageIntoKeepsNumbering(dirs: map<string, Listing>, path: string, form: UploadForm)
    requires path in dirs
    requires HasDots(form.files)
    requires WellNumbered(dirs[path])
    ensures WellNumbered(StageInto(dirs, path, form).dirs[path])
    ensures StageInto(dirs, path, form).response == Review(path) ==>
              FileCount(StageInto(dirs, path, form).dirs[path]) == FileCount(dirs[path]) + |form.files|
  {
    if DateShapeOk(form.date) {
      var start := FileCount(dirs[path]) + 1;
      var names := BatchNames(form.date, form.location, form.files, start);
      BatchNamesNumbered(form.date, form.location, form.files, start);
      NumberingContinues(dirs[path], names, form.files);
    } else {
      StageIntoInvalidDate(dirs, path, form);
    }
  }

  /** A fresh directory is well numbered: it has no files. */
  lemma EmptyWellNumbered()
    ensures WellNumbered(map[])
  {
    EmptyDirectoryCount();
  }

  /** `index` keeps every staging directory well numbered, whatever it
      answers: a rejected request writes nothing, a new staging directory is
      empty, and only the staging directory is written. */
  lemma IndexKeepsNumbering(dirs: map<string, Listing>, form: UploadForm,
                            secure: string -> string)
    requires forall p :: p in dirs ==> WellNumbered(dirs[p])
    ensures var h := HandleIndex(dirs, form, secure);
            forall p :: p in h.dirs ==> WellNumbered(h.dirs[p])
  {
    if IndexRejection(form).None? {
      var path := JoinPath(TempFolder, secure(form.destination));
      var created := EnsureDir(dirs, path);
      assert HandleIndex(dirs, form, secure) == StageInto(created, path, form);
      assert WellNumbered(created[path]) by {
        if path !in dirs {
          EmptyWellNumbered();
        }
      }
      StageIntoKeepsNumbering(created, path, form);
    }
  }

  /** `add_more` keeps every staging directory well numbered, whatever it
      answers. */
  lemma AddMoreKeepsNumbering(dirs: map<string, Listing>, form: UploadForm)
    requires forall p :: p in dirs ==> WellNumbered(dirs[p])
    ensures var h := HandleAddMore(dirs, form);
            forall p :: p in h.dirs ==> WellNumbered(h.dirs[p])
  {
    if AddMoreRejection(form).None? && form.destination in dirs {
      assert HandleAddMore(dirs, form) == StageInto(dirs, form.destination, form);
      StageIntoKeepsNumbering(dirs, form.destination, form);
    }
  }

  /** On a first upload into a fresh staging directory with an accepted
      date the request succeeds (a new directory has no subdirectory to
      collide with), and the numbering starts at 1: the first file is stored
      under the name numbered 1. */
  lemma IndexFreshDirectoryStartsAtOne(dirs: map<string, Listing>, form: UploadForm,
                                       secure: string -> string)
    requires JoinPath(TempFolder, secure(form.destination)) !in dirs
    requires IndexRejection(form) == None
    requires DateShapeOk(form.date)
    requires |form.files| > 0
    ensures HasDots(form.files)
    ensures var path := JoinPath(TempFolder, secure(form.destination));
            HandleIndex(dirs, form, secure).response == Review(path)
    ensures var path := JoinPath(TempFolder, secure(form.destination));
            var name := TargetName(form.date, 1, form.location, form.files[0].filename);
            var after := HandleIndex(dirs, form, secure).dirs[path];
            name in after && after[name] == File(form.files[0].content)
  {
    var path := JoinPath(TempFolder, secure(form.destination));
    var created := EnsureDir(dirs, path);
    assert AllValid(form.files);
    ValidUploadsHaveDots(form.files);
    assert HandleIndex(dirs, form, secure) == StageInto(created, path, form);
    var start := FileCount(created[path]) + 1;
    assert start == 1 by {
      EmptyDirectoryCount();
    }
    var r := Rename(created[path], form.location, form.date, form.files, start);
    assert StageInto(created, path, form).response == Respond(r.outcome, path);
    assert !r.outcome.SaveFault? by {
      StageIntoFailsOnSubDir(created, path, form);
      assert SubDirNames(created[path]) == {};
    }
    assert r.outcome == Renamed;
    StageIntoStores(created, path, form, 0);
    var name := TargetName(form.date, 1, form.location, form.files[0].filename);
    assert name == TargetName(form.date, start + 0, form.location, form.files[0].filename);
  }

  /** A first upload that passes the guards always leaves the staging
      directory in place, even when the date is then refused. */
  lemma IndexCreatesDestination(dirs: map<string, Listing>, form: UploadForm,
                                secure: string -> string)
    requires IndexRejection(form) == None
    ensures JoinPath(TempFolder, secure(form.destination)) in HandleIndex(dirs, form, secure).dirs
    ensures !DateShapeOk(form.date) ==>
              HandleIndex(dirs, form, secure)
                == Handled(Message(DateFormatMessage),
                           EnsureDir(dirs, JoinPath(TempFolder, secure(form.destination))))
  {
    var path := JoinPath(TempFolder, secure(form.destination));
    if !DateShapeOk(form.date) {
      StageIntoInvalidDate(EnsureDir(dirs, path), path, form);
    }
  }

  /** `add_more` on a staging path that does not exist raises (listdir) and
      changes nothing. */
  lemma AddMoreMissingDirectory(dirs: map<string, Listing>, form: UploadForm)
    requires AddMoreRejection(form) == None
    requires form.destination !in dirs
    ensures HandleAddMore(dirs, form) == Handled(ServerError, dirs)
  {
  }

  /** The `index` handler. */
  method Index(fs: FileSystem, form: UploadForm, secure: string -> string)
    returns (response: Response)
    modifies fs
    ensures Handled(response, fs.dirs) == HandleIndex(old(fs.dirs), form, secure)
  {
    var rejection := IndexRejection(form);
    if rejection.Some? {
      return Message(rejection.value);
    }
    ValidUploadsHaveDots(form.files);
    var path := JoinPath(TempFolder, secure(form.destination));
    ghost var created := EnsureDir(fs.dirs, path);
    assert HandleIndex(fs.dirs, form, secure) == StageInto(created, path, form);
    if path !in fs.dirs {
      fs.MakeDirs(path);
    }
    assert fs.dirs == created;
    var count := fs.CountFiles(path);
    var outcome := RenameAndSave(fs, form.location, form.date, form.files, path, count.value + 1);
    response := Respond(outcome, path);
  }

  /** The `add_more` handler. */
  method AddMore(fs: FileSystem, form: UploadForm) returns (response: Response)
    modifies fs
    ensures Handled(response, fs.dirs) == HandleAddMore(old(fs.dirs), form)
  {
    var rejection := AddMoreRejection(form);
    if rejection.Some? {
      return Message(rejection.value);
    }
    ValidUploadsHaveDots(form.files);
    var count := fs.CountFiles(form.destination);
    if count.None? {
      return ServerError;
    }
    var outcome := RenameAndSave(fs, form.location, form.date, form.files, form.destination,
                                 count.value + 1);
    response := Respond(outcome, form.destination);
  }
}
