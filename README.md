# Photo staging workflow — a Dafny model

The application lets a user upload a batch of photos with a location, a date
and a destination label. Every photo is renamed to
`YYYY-MM-DD (n) Location.ext` and written into a staging directory
`temp/<label>`. Further batches can be added to the same directory
(`add_more`), and the numbering continues from the number of regular files
already there.

The model covers these parts of the application:

- The extension validator `allowed_file`.
- The batch renamer `rename_and_save_files`: the directory creation, the
  date-shape check, the name builder and the write loop.
- The sequencer, which counts the regular files already staged.
- The request guards of the two upload handlers, `index` and `add_more`.

Modules:

- `Strings`: the Python string operations the code relies on.
  - `split` keeps empty pieces.
  - `rsplit('.', 1)`.
  - An ASCII `lower`.
- `Decimal`: `str(int)`, with a parser used to prove that the number can be
  read back out of a generated name.
- `Uploads`: `allowed_file` and the extension.
- `Naming`: the date-shape check, the generated name, and reading its number
  back.
- `Directory`: directories as maps from names to entries, where an entry is a
  regular file or a subdirectory.
  - The sequencer's `FileCount`.
  - The class `FileSystem`, whose map of directories the operations update in
    place.
- `Renamer`: the pure specification `Rename`/`WriteAll` of the renamer, and its
  imperative form `RenameAndSave`/`SaveEach`, proved against that
  specification.
- `Requests`: the guards and the two handlers.
  - Pure specifications `HandleIndex`/`HandleAddMore`.
  - Methods `Index`/`AddMore` that run the steps one by one on a `FileSystem`.
  - Lemmas composing guard, sequencer and renamer.

The two exceptions the handlers do not catch have their own outcomes:

- A save onto a name that is an existing subdirectory. The renamer outcome is
  `SaveFault`, and the files written before it stay written.
- `os.listdir` on a path that does not exist in `add_more`.

Both become the response `ServerError`. The `ValueError` for a bad date
becomes the message `"Date must be in the format YYYY-MM-DD"`.

## Model

| member | source | states |
|---|---|---|
| Uploads.Extension | app.py:24 | the extension is the text after the last dot, lower-cased: it holds no dot and no upper-case letter |
| Uploads.AllowedFileSound | app.py:23-24 | `allowed_file`: an accepted name is a stem, a dot and a dot-free suffix whose lower-cased form is png, jpg, jpeg or gif |
| Uploads.AllowedFileComplete | app.py:23-24 | conversely, `allowed_file` accepts any stem (dots allowed) plus "." plus a dot-free suffix whose lower-cased form is allowed is accepted, and that suffix is the extension used |
| Uploads.ExtensionOfSuffix | app.py:24 | rsplit on the last dot: the extension of stem + "." + a dot-free suffix is the lower-cased suffix, whatever dots the stem has |
| Uploads.NoDotRejected | app.py:24 | a name without a dot is rejected |
| Uploads.AcceptedExtension | app.py:16-24 | an accepted name's extension is one of the four allowed ones |
| Uploads.UpperCaseAccepted | app.py:24 | "photo.JPG" is accepted with extension "jpg" (matching ignores case) |
| Uploads.OtherExtensionRejected | app.py:24 | "photo.TXT" is rejected |
| Strings.Lower | app.py:24 | `lower()` keeps the length, maps each character, leaves no upper-case letter |
| Strings.Split | app.py:32 | `split('-')` yields at least one piece and no piece holds the separator |
| Strings.JoinOfSplit | app.py:32 | re-joining the pieces of `split` gives back the string |
| Strings.SplitOfJoin | app.py:32 | splitting separator-free pieces joined by the separator gives back the pieces |
| Strings.RSplitOnce | app.py:39 | `rsplit('.', 1)` gives two pieces exactly when there is a dot, re-joins to the input, and the second piece holds no dot |
| Strings.LastSeparator | app.py:24 | a string with a dot is the text before its last dot, the dot, and the text after it |
| Strings.LastSeparatorUnique | app.py:24 | the last dot of p + "." + e, e dot-free, is the one before e |
| Strings.SeparatorAppended | app.py:24 | a string ending in the separator has nothing after its last separator |
| Strings.OtherAppended | app.py:24 | appending a character other than the separator leaves the text before the last separator unchanged and extends the text after it |
| Decimal.IntToDecimal | app.py:40 | `str(index)`: digits with a leading '-' exactly for a negative number, and no zero-padding (a leading '0' only in "0", never right after the '-') |
| Decimal.ParseIntOfDecimal | app.py:40 | the decimal text of a number reads back as that number |
| Naming.DateShapeCharacterization | app.py:31-36 | `DateShapeOk`, the split-and-length test: a date is accepted iff it has 10 characters, dashes at positions 4 and 7 and no other dash; digits and calendar are not checked |
| Naming.ShortDateRejected | app.py:31-36 | "24-3-5" is refused |
| Naming.ExampleDateAccepted | app.py:31-36 | "2024-03-05" is accepted |
| Naming.TargetNameLayout | app.py:39-40 | `TargetName` (the f-string `NewName` applied to the parts of the date): the generated name is the date as given, " (", the number, ") ", the location, "." and the lower-cased extension |
| Naming.IndexOfNumbered | app.py:40 | the number can be read back from any ten-character date, " (", the number and ")" |
| Naming.IndexOfTargetName | app.py:38-40 | the sequence number is recoverable from every generated name |
| Naming.TargetNamesDistinct | app.py:38-40 | names with different numbers differ, whatever the date, location and extension |
| Renamer.BatchNamesLayout | app.py:38-40 | `enumerate(files, start)`: the k-th name is the date, " (", the decimal of start + k, ") ", the location, "." and the k-th file's lower-cased extension |
| Renamer.BatchNamesNumbered | app.py:38-40 | the batch's names carry start, start+1, ... and are pairwise distinct |
| Renamer.WriteAll | app.py:38-42 | the write loop ends with every file written or with a save that raised |
| Renamer.Rename | app.py:26-42 | the date error is raised exactly for a badly shaped date, and then nothing is written |
| Renamer.WriteAllUntouched | app.py:38-42 | an entry whose name is not in the batch is unchanged, present or absent |
| Renamer.WriteAllStores | app.py:38-42 | after a complete batch, the k-th name holds the k-th file's content |
| Renamer.WriteAllSucceeds | app.py:38-42 | the batch completes iff none of its names is an existing subdirectory; a failed save names such a subdirectory |
| Renamer.WriteAllFaults | app.py:38-42 | a batch of distinct names ends on a failed save iff one of its names is an existing subdirectory |
| Renamer.BatchFaultsOnSubDir | app.py:38-42 | the batch numbered from start fails iff the name numbered start + k of some file k is an existing subdirectory |
| Renamer.WriteAllFileBound | app.py:38-42 | a batch adds at most one regular file per uploaded file |
| Renamer.NumberedSave | app.py:40-42 | saving a new file numbered one past the count keeps the numbering gap-free |
| Renamer.NumberingContinues | app.py:38-42 | a gap-free directory stays gap-free after a batch numbered from count + 1, whether the batch completes or a save raises part-way; a complete batch adds exactly one file per upload |
| Renamer.RenameAndSave | app.py:26-42 | the method creates the destination if missing, then its outcome and new state are those of `Rename` on the (possibly new) destination |
| Renamer.SaveEach | app.py:38-42 | the loop saves file by file and ends in the state and outcome of `WriteAll` on the batch's names |
| Directory.FileCountExcludesSubDirs | app.py:65 | `FileCount`, the `os.path.isfile` filter: the count is the number of entries minus the subdirectories |
| Directory.EmptyDirectoryCount | app.py:61-65 | a fresh directory has count 0, so numbering starts at 1 |
| Directory.FileCountAfterSave | app.py:42 | a save adds its name to the regular files; the count grows by one iff the name was not a file |
| Directory.EnsureDir | app.py:27-28 | the path exists afterwards; an existing directory is untouched; a new one is empty; other directories are unchanged |
| Directory.FileSystem.MakeDirs | app.py:28 | `os.makedirs` adds an empty directory |
| Directory.FileSystem.CountFiles | app.py:65 | the sequencer: the count of regular files, or none when the path does not exist (listdir raises) |
| Directory.FileSystem.Save | app.py:42 | `file.save` creates or replaces the file, and fails without change exactly when the name is a subdirectory |
| Requests.IndexRejection | app.py:53-57 | "Please provide all required inputs." iff a field is empty; the image message iff the fields are present and some file is disallowed; no rejection iff all three fields are present and every upload passes `ValidUpload` (non-empty name, allowed) |
| Requests.AddMoreRejection | app.py:96-100 | "Please provide both location and date." iff location or date is empty; the image message iff both are present and some file is invalid; no rejection iff both are present and every upload passes `ValidUpload` (non-empty name, allowed) |
| Requests.ValidUploadsHaveDots | app.py:56 | every file that passes the file guard has a dot in its name, which is all the renamer needs |
| Requests.StageInto | app.py:64-72 | counting then renaming changes only the staging directory |
| Requests.RejectedRequestsWriteNothing | app.py:53-57 | a request that fails a guard writes nothing and answers with the guard's message |
| Requests.AddMoreNeedsNoDestination | app.py:96-100 | add_more accepts a form without a destination that index refuses; an empty file list passes the file guard |
| Requests.StageIntoInvalidDate | app.py:67-70 | a badly shaped date answers with the date message and writes nothing |
| Requests.StageIntoStores | app.py:64-68 | on success the k-th file is stored under the name numbered count + 1 + k with its own content |
| Requests.StageIntoKeepsOthers | app.py:64-68 | other entries of the staging directory are unchanged, and the count grows by at most the batch length |
| Requests.StageIntoFailsOnSubDir | app.py:67-68 | the request fails with an exception iff the date is accepted and some batch name is an existing subdirectory |
| Requests.StageIntoKeepsNumbering | app.py:64-68 | a gap-free staging directory stays gap-free whatever the request answers (review page, date message or exception); on the review page it has grown by exactly the batch length |
| Requests.EmptyWellNumbered | app.py:61-62 | a freshly created staging directory is gap-free |
| Requests.IndexKeepsNumbering | app.py:53-72 | `index` keeps every staging directory gap-free, whatever it answers |
| Requests.AddMoreKeepsNumbering | app.py:96-110 | `add_more` keeps every staging directory gap-free, whatever it answers |
| Requests.IndexFreshDirectoryStartsAtOne | app.py:59-68 | a first batch with an accepted date into a new staging directory always reaches the review page, and its first file is stored under the name numbered 1 |
| Requests.IndexCreatesDestination | app.py:59-70 | after the guards the staging directory exists even when the date is then refused |
| Requests.AddMoreMissingDirectory | app.py:102-103 | add_more on a staging path that does not exist fails and changes nothing |
| Requests.HandleIndex | app.py:45-72 | `index`: a rejected request changes nothing; otherwise the staging path is added and no other directory changes; the review page names the staging path and comes only after the guards and an accepted date; the date message iff the guards pass and the date is badly shaped; an exception only after an accepted date |
| Requests.HandleAddMore | app.py:88-110 | `add_more` never adds or removes a directory and changes none but the staging path; a rejected request changes nothing; the review page comes only after the guards and an accepted date on an existing staging path; the date message iff the guards pass, the path exists and the date is badly shaped |
| Requests.Index | app.py:45-72 | the handler's response and new state are those of `HandleIndex` |
| Requests.AddMore | app.py:88-110 | the handler's response and new state are those of `HandleAddMore` |

## Left out

- Flask routing, the GET branches, template rendering and the HTTP layer are left out. A response is a message, the review page for a path, or an uncaught exception.
- Absent form fields are modelled as the empty string; Python's `None` and `""` are both falsy, so the guards treat them alike.
- `add_more` reads `destination` with `request.form.get`; a missing field (`None`) makes `os.listdir(None)` list the working directory. The model takes `destination` as a string only.
- `secure_filename` is not part of this model. It is a function parameter of `HandleIndex` and `Index`.
- `os.path.join` is the concatenation `root + "/" + name`. Path normalisation, absolute paths and nesting of directories are not modelled: directories are independent listings keyed by path.
- `save_to_downloads` (`shutil.move` into the downloads folder) and `start_over` (`shutil.rmtree`) are left out, as are the module-level `os.makedirs` calls and configuration.
- Concurrency is left out: two requests counting the same directory at once would reuse numbers. `WellNumbered` is proved for one writer at a time.
- Strings.Lower: lower-cases ASCII letters only. For the allowed-extension test this decides the same names as Python's `lower()`. A non-ASCII extension would appear differently in a generated name, but the guards refuse such names first.
- Renamer.Rename: requires every file name to hold a dot when the date is accepted. Without one, `rsplit('.', 1)[1]` raises `IndexError`. Both callers validate the files first, so this cannot happen through the handlers.
- Directory.FileSystem.Save: the only failure modelled is saving onto a subdirectory; disk-full and permission errors are left out. A NUL character in the location (or in a name from `add_more`) makes `open` raise `ValueError`, which app.py:69-70 would answer with that error's text; the model writes the file and answers with the review page.
- File contents are byte sequences; reading the upload stream is not modelled.
