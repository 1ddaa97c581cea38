/** The stand-alone upload page: a pending file list checked on entry and cleared on submit. */
module DocumentUpload {
  import opened Uploads
  import DocumentCenter

  /** The upload limit of this page, in mebibytes. */
  const LimitMiB: nat := 50

  class UploadPage {
    var fileList: seq<UploadFile>

    constructor()
      ensures fileList == []
    {
      fileList := [];
    }

    /**
     * `beforeUpload`: the allowlist check, then the 50 MiB check; a kept file is appended to the
     * pending list, an ignored one leaves it as it is.
     */
    method BeforeUpload(file: UploadFile) returns (v: Verdict)
      modifies this
      ensures v == Check(file, LimitMiB)
      ensures v == ManualUpload ==> fileList == old(fileList) + [file]
      ensures v != ManualUpload ==> fileList == old(fileList)
    {
      if Extension(file.name) !in AllowedExtensions {
        return ListIgnore(WrongType);
      }
      if !(file.size < LimitMiB * MiB) {
        return ListIgnore(TooLarge);
      }
      fileList := fileList + [file];
      return ManualUpload;
    }

    /** `handleChange`: the picker's list replaces the pending list. */
    method HandleChange(newFileList: seq<UploadFile>)
      modifies this
      ensures fileList == newFileList
    {
      fileList := newFileList;
    }

    /** `onFinish`: nothing is sent; the pending list is emptied. */
    method OnFinish()
      modifies this
      ensures fileList == []
    {
      fileList := [];
    }
  }

  /** Every file the document centre keeps, this page keeps too; its limit is the larger. */
  lemma CenterAcceptedIsAccepted(file: UploadFile)
    requires Check(file, DocumentCenter.LimitMiB) == ManualUpload
    ensures Check(file, LimitMiB) == ManualUpload
  {
    CheckMonotone(file, DocumentCenter.LimitMiB, LimitMiB);
  }
}
