/** Uploaded files and the extension validator `allowed_file`. */
module Uploads {
  import opened Strings

  type Bytes = seq<bv8>

  /** One uploaded file: the name the client sent and the bytes it holds. */
  datatype Upload = Upload(filename: string, content: Bytes)

  /** The extensions the application accepts, in lower case. */
  const AllowedExtensions: set<string> := {"png", "jpg", "jpeg", "gif"}

  /** `filename.rsplit('.', 1)[1].lower()`: the lower-cased text after the
      last dot. */
  function Extension(filename: string): (ext: string)
    requires '.' in filename
    ensures '.' !in ext
    ensures forall i :: 0 <= i < |ext| ==> !('A' <= ext[i] <= 'Z')
  {
    Lower(RSplitOnce(filename, '.')[1])
  }

  /** `allowed_file`: the name holds a dot and its extension, lower-cased,
      is one of the allowed ones. */
  predicate AllowedFile(filename: string)
  {
    '.' in filename && Extension(filename) in AllowedExtensions
  }

  /** An accepted name splits into a stem, a dot and a dot-free suffix whose
      lower-cased form is an allowed extension. */
  lemma AllowedFileSound(filename: string)
    requires AllowedFile(filename)
    ensures filename == BeforeLast(filename, '.') + "." + AfterLast(filename, '.')
    ensures '.' !in AfterLast(filename, '.')
    ensures Lower(AfterLast(filename, '.')) in AllowedExtensions
  {
    LastSeparator(filename, '.');
  }

  /** The extension of a stem, a dot and a dot-free suffix is the lower-cased
      suffix, whatever dots the stem holds. */
  lemma ExtensionOfSuffix(stem: string, suffix: string)
    requires '.' !in suffix
    ensures '.' in stem + "." + suffix
    ensures Extension(stem + "." + suffix) == Lower(suffix)
  {
    LastSeparatorUnique(stem, '.', suffix);
  }

  /** Conversely every stem, dot and dot-free suffix whose lower-cased form is
      allowed is accepted, and that suffix is the extension the renamer uses,
      whatever dots the stem holds. */
  lemma AllowedFileComplete(stem: string, suffix: string)
    requires '.' !in suffix
    requires Lower(suffix) in AllowedExtensions
    ensures AllowedFile(stem + "." + suffix)
    ensures Extension(stem + "." + suffix) == Lower(suffix)
  {
    ExtensionOfSuffix(stem, suffix);
  }

  /** A name without a dot is always rejected. */
  lemma NoDotRejected(filename: string)
    requires '.' !in filename
    ensures !AllowedFile(filename)
  {
  }

  /** Every extension of an accepted name is one of the four allowed ones. */
  lemma AcceptedExtension(filename: string)
    requires AllowedFile(filename)
    ensures Extension(filename) == "png" || Extension(filename) == "jpg"
         || Extension(filename) == "jpeg" || Extension(filename) == "gif"
  {
    var ext := Extension(filename);
    assert ext in {"png", "jpg", "jpeg", "gif"};
  }

  /** "JPG" lower-cases to "jpg". */
  lemma LowerJpg()
    ensures Lower("JPG") == "jpg"
  {
    var low := Lower("JPG");
    assert low[0] == 'j' && low[1] == 'p' && low[2] == 'g';
  }

  /** The matching ignores case: "photo.JPG" is accepted with extension "jpg". */
  lemma UpperCaseAccepted()
    ensures AllowedFile("photo.JPG")
    ensures Extension("photo.JPG") == "jpg"
  {
    assert "photo" + "." + "JPG" == "photo.JPG";
    ExtensionOfSuffix("photo", "JPG");
    LowerJpg();
  }

  /** "photo.TXT" is rejected: its extension is "txt". */
  lemma OtherExtensionRejected()
    ensures !AllowedFile("photo.TXT")
  {
    LastSeparatorUnique("photo", '.', "TXT");
    assert "photo" + "." + "TXT" == "photo.TXT";
    var low := Lower("TXT");
    assert low[0] == 't';
  }
}
