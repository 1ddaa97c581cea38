/**
 * The document centre: an upload form with a pending file list, and a document table with a
 * title search and deletion. Uploads post one request per pending file and add a row per file.
 */
module DocumentCenter {
  import opened Wrappers
  import opened Text
  import opened Seqs
  import opened Uploads
  import DM = DocumentManagement

  type Document = DM.Document

  /** The upload limit of this page, in mebibytes. */
  const LimitMiB: nat := 10

  // ------------------------------------------------------------------ labels

  /** `fileTypeMap` of `getFileTypeTag`. */
  const FileTypeLabels: map<string, string> := map[
    "pdf" := "PDF文档", "doc" := "Word文档", "txt" := "文本文件", "ppt" := "PPT文档",
    "excel" := "Excel表格", "docx" := "Word文档", "xlsx" := "Excel表格", "pptx" := "PPT文档"]

  /** `fileTypeMap[fileType] || fileType`: the mapped label for a known key, else the key. */
  function FileTypeTag(fileType: string): (r: string)
    ensures fileType in FileTypeLabels ==> r == FileTypeLabels[fileType]
    ensures fileType !in FileTypeLabels ==> r == fileType
  {
    if fileType in FileTypeLabels && FileTypeLabels[fileType] != "" then FileTypeLabels[fileType] else fileType
  }

  /** On the five keys both pages know, the two pages label a file type alike. */
  lemma FileTypeTagsAgree(k: nat)
    requires k < |DM.FileTypeOptions|
    ensures FileTypeTag(DM.FileTypeOptions[k].value) == DM.FileTypeTag(DM.FileTypeOptions[k].value)
  {
    var o := DM.FileTypeOptions[k];
    assert o.value in FileTypeLabels && FileTypeLabels[o.value] == o.caption by {
      if k == 0 {
        assert o == DM.LabelOption("pdf", "PDF文档");
      } else if k == 1 {
        assert o == DM.LabelOption("doc", "Word文档");
      } else if k == 2 {
        assert o == DM.LabelOption("txt", "文本文件");
      } else if k == 3 {
        assert o == DM.LabelOption("ppt", "PPT文档");
      } else {
        assert o == DM.LabelOption("excel", "Excel表格");
      }
    }
    DM.OptionTablesDistinct();
    DM.LabelOfDistinct(DM.FileTypeOptions, k);
  }

  /**
   * `getStatusTag`: the colour `switch` shared with the table page, and a text that names
   * `active` and `draft` and calls every other status archived.
   */
  method StatusTag(status: string) returns (color: string, text: string)
    ensures status == "active" ==> color == "green" && text == "已发布"
    ensures status == "draft" ==> color == "blue" && text == "草稿"
    ensures status == "archived" ==> color == "gray" && text == "已归档"
    ensures status !in {"active", "draft", "archived"} ==> color == "default" && text == "已归档"
    ensures status in {"active", "draft", "archived"} ==> text == DM.LabelOf(DM.StatusOptions, status)
  {
    color := DM.StatusColor(status);
    text := if status == "active" then "已发布" else if status == "draft" then "草稿" else "已归档";
  }

  // ------------------------------------------------------------------ search

  /** `doc => doc.title.toLowerCase().includes(search.toLowerCase())`, or every doc for an empty search. */
  function TitleMatch(search: string): Document -> bool {
    (d: Document) => search == "" || Contains(ToLower(d.title), ToLower(search))
  }

  /** The title search keeps exactly the listed documents whose title matches, in list order. */
  lemma TitleSearchMembers(documents: seq<Document>, search: string, doc: Document)
    ensures doc in Filter(documents, TitleMatch(search)) <==>
            doc in documents && (search == "" || Contains(ToLower(doc.title), ToLower(search)))
    ensures IsSubsequence(Filter(documents, TitleMatch(search)), documents)
  {
    FilterIsSubsequence(documents, TitleMatch(search));
    if doc in documents && TitleMatch(search)(doc) {
      var k :| 0 <= k < |documents| && documents[k] == doc;
      assert TitleMatch(search)(documents[k]);
    }
  }

  // ------------------------------------------------------------------ uploads

  /** The form's fields `documentTitle`, `documentCategory` and `author`, each possibly unset. */
  datatype FormValues = FormValues(documentTitle: Option<string>, documentCategory: Option<string>, author: Option<string>)

  /** `value || fallback` for an optional string. */
  function Or(value: Option<string>, fallback: string): string {
    if value.Some? && value.value != "" then value.value else fallback
  }

  /**
   * The row added for an uploaded `file` when the list holds `count` documents: id `count + 1`,
   * the form's title or the file name, the extension or `pdf`, the form's category or
   * `knowledge`, status `active`, date `today`, the size rendered by `formatSize` with ` MB`,
   * the form's author or `匿名`, no views.
   */
  function NewDoc(count: nat, file: UploadFile, values: FormValues, today: string, formatSize: nat -> string): Document {
    DM.Document(
      DM.NumId(count + 1),
      Or(values.documentTitle, file.name),
      if Extension(file.name) != "" then Extension(file.name) else "pdf",
      Or(values.documentCategory, "knowledge"),
      "active",
      today,
      formatSize(file.size) + " MB",
      Or(values.author, "匿名"),
      0)
  }

  /** How a row is made from the number of documents listed so far and the uploaded file. */
  type RowMaker = (nat, UploadFile) -> Document

  /** The rows of this page's upload form: `NewDoc` with the form's values, the date and the size formatter. */
  function FormRows(values: FormValues, today: string, formatSize: nat -> string): RowMaker {
    (count: nat, file: UploadFile) => NewDoc(count, file, values, today, formatSize)
  }

  /** The list after uploading `files` in turn, each row put in front of the list as it then is. */
  function Uploaded(documents: seq<Document>, files: seq<UploadFile>, row: RowMaker): seq<Document>
    decreases |files|
  {
    if files == [] then documents
    else Uploaded([row(|documents|, files[0])] + documents, files[1..], row)
  }

  /**
   * Every uploaded file gets its own row: the old list is kept at the end, one row per file is
   * put before it, the newest first, and the row of the `k`-th file is made for a list of
   * `|documents| + k` (so, with `FormRows`, the ids count up from the old length).
   */
  lemma UploadedAddsOneRowPerFile(documents: seq<Document>, files: seq<UploadFile>, row: RowMaker)
    ensures var r := Uploaded(documents, files, row);
      && |r| == |documents| + |files|
      && r[|files|..] == documents
      && forall k :: 0 <= k < |files| ==> r[|files| - 1 - k] == row(|documents| + k, files[k])
  {
    UploadedIsNewRows(documents, files, row);
    NewRowsAt(|documents|, files, row);
  }

  /** The rows `files` add to a list of `count` documents, the newest first. */
  function NewRows(count: nat, files: seq<UploadFile>, row: RowMaker): (rows: seq<Document>)
    ensures |rows| == |files|
    decreases |files|
  {
    if files == [] then [] else NewRows(count + 1, files[1..], row) + [row(count, files[0])]
  }

  lemma {:induction false} UploadedIsNewRows(documents: seq<Document>, files: seq<UploadFile>, row: RowMaker)
    ensures Uploaded(documents, files, row) == NewRows(|documents|, files, row) + documents
    decreases |files|
  {
    if files != [] {
      var d := row(|documents|, files[0]);
      UploadedIsNewRows([d] + documents, files[1..], row);
      var t := NewRows(|documents| + 1, files[1..], row);
      assert t + ([d] + documents) == (t + [d]) + documents;
    }
  }

  lemma {:induction false} NewRowsAt(count: nat, files: seq<UploadFile>, row: RowMaker)
    ensures forall k :: 0 <= k < |files| ==> NewRows(count, files, row)[|files| - 1 - k] == row(count + k, files[k])
    decreases |files|
  {
    if files != [] {
      NewRowsAt(count + 1, files[1..], row);
      var t := NewRows(count + 1, files[1..], row);
      var rows := NewRows(count, files, row);
      assert rows == t + [row(count, files[0])];
      forall k | 0 < k < |files|
        ensures rows[|files| - 1 - k] == row(count + k, files[k])
      {
        assert rows[|files| - 1 - k] == t[|files[1..]| - 1 - (k - 1)];
        assert files[1..][k - 1] == files[k];
      }
    }
  }

  /**
   * `onFinish` as written: every iteration of the upload loop calls `setDocuments` with the new
   * row in front of `documents` as it was when the form was rendered, so each call replaces the
   * previous one and the id is the same for every file.
   */
  function UploadedAsWritten(rendered: seq<Document>, current: seq<Document>, files: seq<UploadFile>, row: RowMaker): seq<Document>
    decreases |files|
  {
    if files == [] then current
    else UploadedAsWritten(rendered, [row(|rendered|, files[0])] + rendered, files[1..], row)
  }

  /** As written, only the last file's row survives. */
  lemma {:induction false} AsWrittenKeepsOnlyLastRow(rendered: seq<Document>, current: seq<Document>, files: seq<UploadFile>,
                                                    row: RowMaker)
    requires files != []
    ensures UploadedAsWritten(rendered, current, files, row) == [row(|rendered|, files[|files| - 1])] + rendered
    decreases |files|
  {
    if |files| > 1 {
      AsWrittenKeepsOnlyLastRow(rendered, [row(|rendered|, files[0])] + rendered, files[1..], row);
      assert files[1..][|files[1..]| - 1] == files[|files| - 1];
    }
  }

  /** So two or more files leave fewer rows than files were uploaded. */
  lemma AsWrittenLosesUploads(rendered: seq<Document>, files: seq<UploadFile>, row: RowMaker)
    requires |files| >= 2
    ensures |UploadedAsWritten(rendered, rendered, files, row)| == |rendered| + 1
    ensures UploadedAsWritten(rendered, rendered, files, row) != Uploaded(rendered, files, row)
  {
    AsWrittenKeepsOnlyLastRow(rendered, rendered, files, row);
    UploadedAddsOneRowPerFile(rendered, files, row);
  }

  // ------------------------------------------------------------------ the page

  class DocumentCenterPage {
    var documents: seq<Document>
    var filteredDocuments: seq<Document>
    var searchText: string
    var fileList: seq<UploadFile>
    var uploading: bool

    constructor()
      ensures documents == [] && filteredDocuments == [] && searchText == "" && fileList == [] && !uploading
    {
      documents := [];
      filteredDocuments := [];
      searchText := "";
      fileList := [];
      uploading := false;
    }

    /**
     * `beforeUpload`: the allowlist check, then the 10 MiB check; a kept file is appended to the
     * pending list, an ignored one leaves it as it is.
     */
    method BeforeUpload(file: UploadFile) returns (v: Verdict)
      modifies this
      ensures v == Check(file, LimitMiB)
      ensures v == ManualUpload ==> fileList == old(fileList) + [file]
      ensures v != ManualUpload ==> fileList == old(fileList)
      ensures documents == old(documents) && filteredDocuments == old(filteredDocuments)
      ensures searchText == old(searchText) && uploading == old(uploading)
    {
      if Extension(file.name) !in AllowedExtensions {
        return ListIgnore(WrongType);
      }
      if !(file.size < LimitMiB * MiB) {
        return ListIgnore(TooLarge);
      }
      fileList := fileList + [file];
      return ManualUpload;
    }

    /** `handleChange`: the picker's list replaces the pending list. */
    method HandleChange(newFileList: seq<UploadFile>)
      modifies this
      ensures fileList == newFileList
      ensures documents == old(documents) && filteredDocuments == old(filteredDocuments)
      ensures searchText == old(searchText) && uploading == old(uploading)
    {
      fileList := newFileList;
    }

    /**
     * `onFinish`, with the rows added as intended (see `UploadedAsWritten` for the code as
     * written). The upload of the file at `rejectAt`, if any, fails. With no pending file nothing
     * is posted and nothing changes. Otherwise the files are posted in order up to and including
     * a failing one; each file posted before a failure gets a row; after a failure the pending
     * list is kept, otherwise it is emptied; the uploading flag ends cleared.
     */
    method OnFinish(values: FormValues, today: string, formatSize: nat -> string, rejectAt: Option<nat>)
      returns (posted: seq<UploadFile>)
      modifies this
      ensures old(fileList) == [] ==>
        posted == [] && documents == old(documents) && fileList == [] && uploading == old(uploading)
      ensures old(fileList) != [] ==>
        && posted == old(fileList)[..Attempted(|old(fileList)|, rejectAt)]
        && documents == Uploaded(old(documents), old(fileList)[..Succeeded(|old(fileList)|, rejectAt)],
                                 FormRows(values, today, formatSize))
        && fileList == (if Succeeded(|old(fileList)|, rejectAt) < |old(fileList)| then old(fileList) else [])
        && !uploading
      ensures filteredDocuments == old(filteredDocuments) && searchText == old(searchText)
    {
      var files := fileList;
      if |files| == 0 {
        return [];
      }
      uploading := true;
      var docs, sent, failed := UploadEach(documents, files, FormRows(values, today, formatSize), rejectAt);
      documents := docs;
      posted := sent;
      if !failed {
        fileList := [];
      }
      uploading := false;
    }

    /** The search handler: stores the text and shows the documents whose title matches it. */
    method HandleSearch(value: string)
      modifies this
      ensures searchText == value
      ensures filteredDocuments == Filter(documents, TitleMatch(value))
      ensures documents == old(documents) && fileList == old(fileList) && uploading == old(uploading)
    {
      searchText := value;
      FilterDocuments(value);
    }

    /** `filterDocuments` without the date range: the title stage on a copy of the documents. */
    method FilterDocuments(search: string)
      modifies this
      ensures filteredDocuments == Filter(documents, TitleMatch(search))
      ensures documents == old(documents) && searchText == old(searchText)
      ensures fileList == old(fileList) && uploading == old(uploading)
    {
      var filtered := documents;
      if search != "" {
        filtered := Filter(filtered, TitleMatch(search));
      } else {
        FilterAllPass(filtered, TitleMatch(search));
      }
      filteredDocuments := filtered;
    }

    /** `handleResetFilters`: clears the search and shows every document. */
    method HandleResetFilters()
      modifies this
      ensures searchText == "" && filteredDocuments == documents
      ensures documents == old(documents) && fileList == old(fileList) && uploading == old(uploading)
    {
      searchText := "";
      filteredDocuments := documents;
    }

    /** `handleDeleteDocument`: drops every document with the id from both lists. */
    method HandleDeleteDocument(id: DM.DocId)
      modifies this
      ensures documents == Filter(old(documents), DM.Without(id))
      ensures filteredDocuments == Filter(old(filteredDocuments), DM.Without(id))
      ensures old(filteredDocuments) == Filter(old(documents), TitleMatch(searchText)) ==>
              filteredDocuments == Filter(documents, TitleMatch(searchText))
      ensures searchText == old(searchText) && fileList == old(fileList) && uploading == old(uploading)
    {
      var search := searchText;
      var both := (d: Document) => d.id != id && TitleMatch(search)(d);
      FilterFilter(documents, DM.Without(id), TitleMatch(searchText), both);
      FilterFilter(documents, TitleMatch(searchText), DM.Without(id), both);
      documents := Filter(documents, DM.Without(id));
      filteredDocuments := Filter(filteredDocuments, DM.Without(id));
    }
  }

  /**
   * The upload loop of `onFinish`: posts the files in order and puts a row in front of the list
   * for each upload that succeeds, until the upload at `rejectAt` fails.
   */
  method UploadEach(documents: seq<Document>, files: seq<UploadFile>, row: RowMaker, rejectAt: Option<nat>)
    returns (docs: seq<Document>, posted: seq<UploadFile>, failed: bool)
    ensures failed <==> Succeeded(|files|, rejectAt) < |files|
    ensures posted == files[..Attempted(|files|, rejectAt)]
    ensures docs == Uploaded(documents, files[..Succeeded(|files|, rejectAt)], row)
  {
    docs, posted, failed := documents, [], false;
    for i := 0 to |files|
      invariant rejectAt.Some? ==> i <= rejectAt.value
      invariant posted == files[..i]
      invariant docs == Uploaded(documents, files[..i], row)
    {
      var file := files[i];
      posted := posted + [file];
      assert files[..i + 1] == files[..i] + [file];
      if rejectAt == Some(i) {
        return docs, posted, true;
      }
      docs := AddRow(documents, files[..i], docs, file, row);
    }
    assert files[..|files|] == files;
  }

  /** `setDocuments([newDoc, ...documents])` after a successful upload: the rows so far gain the file's. */
  method AddRow(documents: seq<Document>, ghost done: seq<UploadFile>, docs: seq<Document>, file: UploadFile,
                row: RowMaker)
    returns (docs': seq<Document>)
    requires docs == Uploaded(documents, done, row)
    ensures docs' == Uploaded(documents, done + [file], row)
  {
    docs' := [row(|docs|, file)] + docs;
    UploadedSnoc(documents, done, file, row);
  }

  /** How many files `onFinish` posts: up to and including the one whose upload fails. */
  function Attempted(count: nat, rejectAt: Option<nat>): (n: nat)
    ensures n <= count
    ensures rejectAt.Some? && rejectAt.value < count ==> n == rejectAt.value + 1
  {
    if rejectAt.Some? && rejectAt.value < count then rejectAt.value + 1 else count
  }

  /** How many files `onFinish` uploads before a failure, or all of them. */
  function Succeeded(count: nat, rejectAt: Option<nat>): (n: nat)
    ensures n <= count
    ensures n < count <==> rejectAt.Some? && rejectAt.value < count
  {
    if rejectAt.Some? && rejectAt.value < count then rejectAt.value else count
  }

  lemma {:induction false} UploadedSnoc(documents: seq<Document>, files: seq<UploadFile>, file: UploadFile, row: RowMaker)
    ensures Uploaded(documents, files + [file], row)
         == [row(|Uploaded(documents, files, row)|, file)] + Uploaded(documents, files, row)
    decreases |files|
  {
    if files == [] {
      assert [] + [file] == [file];
      assert [file][1..] == [];
    } else {
      assert (files + [file])[0] == files[0];
      assert (files + [file])[1..] == files[1..] + [file];
      UploadedSnoc([row(|documents|, files[0])] + documents, files[1..], file, row);
    }
  }
}
