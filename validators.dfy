/**
 * app/utils/validators.py: the exception kinds of the service and the
 * upload file-type check.
 */
module Validators {
  import opened Strings
  import opened Outcomes
  import Config

  /** Raised when an upload's file name has no usable extension. */
  datatype InvalidFileTypeError = InvalidFileTypeError(message: string)

  /** Raised when the LLM response cannot be turned into a record. */
  datatype ParsingError = ParsingError(message: string)

  const FileTypeMissing := "File type is missing"
  const UnsupportedFileType := "Unsupported file type"

  /**
   * Lines 23-27: the lower-cased text after the last "." of `filename`, or
   * nothing when the name is empty or has no "." at all.
   */
  function Extension(filename: string): (r: Option<string>)
    ensures r == None <==> '.' !in filename
    ensures r.Some? ==> '.' !in r.value
  {
    if filename == "" || '.' !in filename then None
    else Some(Lower(filename[LastIndexOf(filename, '.') + 1..]))
  }

  /**
   * `validate_file_type`: the extension of `filename`, provided it is one of
   * `allowedTypes`.
   */
  function ValidateFileType(filename: string, allowedTypes: set<string>): (r: Result<string, InvalidFileTypeError>)
    ensures r == Err(InvalidFileTypeError(FileTypeMissing)) <==> '.' !in filename
    ensures r.Ok? ==> r.value in allowedTypes && '.' !in r.value
    ensures r.Ok? ==> Extension(filename) == Some(r.value)
  {
    match Extension(filename)
    case None => Err(InvalidFileTypeError(FileTypeMissing))
    case Some(extension) =>
      if extension !in allowedTypes then Err(InvalidFileTypeError(UnsupportedFileType))
      else Ok(extension)
  }

  /**
   * The extension is what follows the LAST dot: whichever dot has no other
   * dot after it, the extension is the rest of the name, lower-cased.
   */
  lemma ExtensionAfterLastDot(filename: string, i: nat)
    requires i < |filename| && filename[i] == '.'
    requires forall k :: i < k < |filename| ==> filename[k] != '.'
    ensures Extension(filename) == Some(Lower(filename[i + 1..]))
  {
    LastIndexOfAt(filename, '.', i);
  }

  /**
   * The check is decided by the extension: a file name with a dot is
   * accepted exactly when its extension is allowed, and rejected as
   * unsupported otherwise.
   */
  lemma ValidateFileTypeDecision(filename: string, allowedTypes: set<string>)
    requires '.' in filename
    ensures var extension := Extension(filename).value;
            && (ValidateFileType(filename, allowedTypes).Ok? <==> extension in allowedTypes)
            && (extension !in allowedTypes ==>
                  ValidateFileType(filename, allowedTypes) == Err(InvalidFileTypeError(UnsupportedFileType)))
  {
  }

  /** Lower-casing makes a dot out of a dot and out of nothing else. */
  lemma LowerCharDot(c: char)
    ensures LowerChar(c) == '.' <==> c == '.'
  {
  }

  /** Names that agree once lower-cased agree letter by letter once lower-cased. */
  lemma LowerPointwise(f1: string, f2: string)
    requires Lower(f1) == Lower(f2)
    ensures |f1| == |f2|
    ensures forall k :: 0 <= k < |f1| ==> LowerChar(f1[k]) == LowerChar(f2[k])
  {
    forall k | 0 <= k < |f1| ensures LowerChar(f1[k]) == LowerChar(f2[k]) {
      assert Lower(f1)[k] == Lower(f2)[k];
    }
  }

  /** Strings that agree letter by letter once lower-cased lower-case to the same string. */
  lemma LowerAgrees(x: string, y: string)
    requires |x| == |y|
    requires forall k :: 0 <= k < |x| ==> LowerChar(x[k]) == LowerChar(y[k])
    ensures Lower(x) == Lower(y)
  {
  }

  /** Names that agree letter by letter once lower-cased have their dots in the same places. */
  lemma DotsAgree(f1: string, f2: string)
    requires |f1| == |f2|
    requires forall k :: 0 <= k < |f1| ==> LowerChar(f1[k]) == LowerChar(f2[k])
    ensures forall k :: 0 <= k < |f1| ==> (f1[k] == '.' <==> f2[k] == '.')
  {
    forall k | 0 <= k < |f1| ensures f1[k] == '.' <==> f2[k] == '.' {
      LowerCharDot(f1[k]);
      LowerCharDot(f2[k]);
    }
  }

  /** ... and the same lower-cased suffixes. */
  lemma SuffixesAgree(f1: string, f2: string, j: nat)
    requires |f1| == |f2| && j <= |f1|
    requires forall k :: 0 <= k < |f1| ==> LowerChar(f1[k]) == LowerChar(f2[k])
    ensures Lower(f1[j..]) == Lower(f2[j..])
  {
    var x, y := f1[j..], f2[j..];
    assert forall k :: 0 <= k < |x| ==> x[k] == f1[j + k] && y[k] == f2[j + k];
    LowerAgrees(x, y);
  }

  /** Names that agree letter by letter once lower-cased have the same extension. */
  lemma ExtensionOfAgreeing(f1: string, f2: string)
    requires |f1| == |f2|
    requires forall k :: 0 <= k < |f1| ==> LowerChar(f1[k]) == LowerChar(f2[k])
    ensures Extension(f1) == Extension(f2)
  {
    DotsAgree(f1, f2);
    SameLastDot(f1, f2);
    var i := LastIndexOf(f1, '.');
    if i >= 0 {
      SuffixesAgree(f1, f2, i + 1);
    }
  }

  /** Names with their dots in the same places have their last dot in the same place. */
  lemma SameLastDot(f1: string, f2: string)
    requires |f1| == |f2|
    requires forall k :: 0 <= k < |f1| ==> (f1[k] == '.' <==> f2[k] == '.')
    ensures LastIndexOf(f1, '.') == LastIndexOf(f2, '.')
  {
    var i := LastIndexOf(f1, '.');
    if i >= 0 {
      LastIndexOfAt(f2, '.', i);
    } else {
      assert '.' !in f2 by {
        forall k | 0 <= k < |f2|
          ensures f2[k] != '.'
        {
          assert f1[k] != '.';
        }
      }
    }
  }

  /** Two file names that read the same once lower-cased have the same extension. */
  lemma ExtensionIgnoresCase(f1: string, f2: string)
    requires Lower(f1) == Lower(f2)
    ensures Extension(f1) == Extension(f2)
  {
    LowerPointwise(f1, f2);
    ExtensionOfAgreeing(f1, f2);
  }

  /**
   * Two file names that read the same once lower-cased (for instance `CV.PDF`
   * and `cv.pdf`) get the same answer: the same extension or the same error.
   */
  lemma ValidateFileTypeIgnoresCase(f1: string, f2: string, allowedTypes: set<string>)
    requires Lower(f1) == Lower(f2)
    ensures ValidateFileType(f1, allowedTypes) == ValidateFileType(f2, allowedTypes)
  {
    ExtensionIgnoresCase(f1, f2);
  }

  /**
   * With the accepted types read from the settings, a file name that ends in
   * "." is always rejected as unsupported: its extension is empty, and no
   * configured type is.
   */
  lemma TrailingDotRejected(filename: string, settings: Config.Settings)
    requires filename != [] && filename[|filename| - 1] == '.'
    ensures ValidateFileType(filename, settings.AllowedFileTypeSet()) == Err(InvalidFileTypeError(UnsupportedFileType))
  {
    assert filename[|filename| - 1] in filename;
    assert LastIndexOf(filename, '.') == |filename| - 1;
    assert Lower(filename[|filename|..]) == "";
  }
}
