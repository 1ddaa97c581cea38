/**
 * The checks both upload forms run in `beforeUpload` before a file joins the pending list:
 * the extension allowlist first, then the size limit (10 MiB in the document centre, 50 MiB in
 * the upload page).
 */
module Uploads {
  import opened Text

  /** A file the picker hands over: its name and its size in bytes. */
  datatype UploadFile = UploadFile(name: string, size: nat)

  /** `file.name.split('.').pop()?.toLowerCase()`. */
  function Extension(name: string): string {
    var pieces := Split(name, '.');
    ToLower(pieces[|pieces| - 1])
  }

  /**
   * The extension is the lowercased text after the last dot; a name without a dot is its own
   * extension, lowercased.
   */
  lemma ExtensionAfterLastDot(name: string)
    ensures '.' !in name ==> Extension(name) == ToLower(name)
    ensures '.' in name ==> exists k :: 0 <= k < |name| && name[k] == '.' && '.' !in name[k + 1..]
                                        && Extension(name) == ToLower(name[k + 1..])
  {
    var pieces := Split(name, '.');
    var last := pieces[|pieces| - 1];
    SplitLastPiece(name, '.');
    if '.' !in name {
      SplitWithoutSeparator(name, '.');
    } else {
      var i :| 0 <= i < |name| && name[i] == '.';
      assert forall j :: |name| - |last| <= j < |name| ==> name[j] == last[j - (|name| - |last|)] != '.';
      assert i < |name| - |last|;
      var k := |name| - |last| - 1;
      assert name[k + 1..] == last;
    }
  }

  /** The accepted extensions. */
  const AllowedExtensions: seq<string> := ["pdf", "doc", "docx", "txt", "ppt", "pptx", "xls", "xlsx"]

  const MiB: nat := 1024 * 1024

  /** Why a file is left out of the list (`Upload.LIST_IGNORE`). */
  datatype Rejection = WrongType | TooLarge

  /** `beforeUpload`'s answer: ignore the file, or keep it for a manual upload (`false`). */
  datatype Verdict = ListIgnore(reason: Rejection) | ManualUpload

  /**
   * The verdict for `file` under a limit of `limitMiB` mebibytes: an extension outside the
   * allowlist is rejected whatever the size; an allowed file is kept exactly when it is strictly
   * smaller than the limit.
   */
  function Check(file: UploadFile, limitMiB: nat): (v: Verdict)
    ensures v == ListIgnore(WrongType) <==> Extension(file.name) !in AllowedExtensions
    ensures v == ListIgnore(TooLarge) <==> Extension(file.name) in AllowedExtensions && file.size >= limitMiB * MiB
    ensures v == ManualUpload <==> Extension(file.name) in AllowedExtensions && file.size < limitMiB * MiB
  {
    if Extension(file.name) !in AllowedExtensions then ListIgnore(WrongType)
    else if !(file.size < limitMiB * MiB) then ListIgnore(TooLarge)
    else ManualUpload
  }

  /** A file kept under a smaller limit is kept under every larger one. */
  lemma CheckMonotone(file: UploadFile, small: nat, large: nat)
    requires small <= large && Check(file, small) == ManualUpload
    ensures Check(file, large) == ManualUpload
  {
    assert small * MiB <= large * MiB;
  }

  /** The verdict depends on the name only through its extension. */
  lemma CheckByExtension(a: UploadFile, b: UploadFile, limitMiB: nat)
    requires Extension(a.name) == Extension(b.name) && a.size == b.size
    ensures Check(a, limitMiB) == Check(b, limitMiB)
  {
  }
}
