/**
 * The document table page: the list of documents, the filtered list the table shows, the search
 * text and the type, category and status filters, with the handlers that recompute the filtered
 * list, reset it and delete a document, and the lookups that label a row's cells.
 */
module DocumentManagement {
  import opened Wrappers
  import opened Text
  import opened Seqs

  /** A document id: the page's own records use numbers, the server's use strings. */
  datatype DocId = NumId(n: int) | TextId(s: string)

  /** One row of the table. */
  datatype Document = Document(
    id: DocId, title: string, fileType: string, category: string, status: string,
    uploadDate: string, size: string, author: string, views: nat)

  // ------------------------------------------------------------------ labels

  /** An entry of a select's option table. */
  datatype LabelOption = LabelOption(value: string, caption: string)

  const FileTypeOptions: seq<LabelOption> := [
    LabelOption("pdf", "PDF文档"), LabelOption("doc", "Word文档"), LabelOption("txt", "文本文件"),
    LabelOption("ppt", "PPT文档"), LabelOption("excel", "Excel表格")]

  const CategoryOptions: seq<LabelOption> := [
    LabelOption("knowledge", "知识库"), LabelOption("project", "项目文档"), LabelOption("meeting", "会议记录"),
    LabelOption("report", "报告文件"), LabelOption("other", "其他")]

  const StatusOptions: seq<LabelOption> := [
    LabelOption("active", "已发布"), LabelOption("draft", "草稿"), LabelOption("archived", "已归档")]

  /** `options.find(opt => opt.value === key)`, then its label, or `key` itself when none matches. */
  function LabelOf(options: seq<LabelOption>, key: string): (r: string)
    ensures forall k :: (0 <= k < |options| && options[k].value == key &&
                         (forall j :: 0 <= j < k ==> options[j].value != key)) ==> r == options[k].caption
    ensures (forall k :: 0 <= k < |options| ==> options[k].value != key) ==> r == key
  {
    match FindFirst(options, (o: LabelOption) => o.value == key)
    case Some(k) => options[k].caption
    case None => key
  }

  /** In a table whose values are distinct, a value's label is the label next to it. */
  lemma LabelOfDistinct(options: seq<LabelOption>, k: nat)
    requires k < |options|
    requires forall i, j :: 0 <= i < j < |options| ==> options[i].value != options[j].value
    ensures LabelOf(options, options[k].value) == options[k].caption
  {
  }

  /** `getFileTypeTag`. */
  function FileTypeTag(fileType: string): string {
    LabelOf(FileTypeOptions, fileType)
  }

  /** `getCategoryTag`. */
  function CategoryTag(category: string): string {
    LabelOf(CategoryOptions, category)
  }

  /** The three option tables list each value once, so every listed value shows its own label. */
  lemma OptionTablesDistinct()
    ensures forall i, j :: 0 <= i < j < |FileTypeOptions| ==> FileTypeOptions[i].value != FileTypeOptions[j].value
    ensures forall i, j :: 0 <= i < j < |CategoryOptions| ==> CategoryOptions[i].value != CategoryOptions[j].value
    ensures forall i, j :: 0 <= i < j < |StatusOptions| ==> StatusOptions[i].value != StatusOptions[j].value
  {
  }

  /** The colour `switch` of `getStatusTag`. */
  method StatusColor(status: string) returns (color: string)
    ensures status == "active" ==> color == "green"
    ensures status == "draft" ==> color == "blue"
    ensures status == "archived" ==> color == "gray"
    ensures status !in {"active", "draft", "archived"} ==> color == "default"
  {
    color := "";
    if status == "active" {
      color := "green";
    } else if status == "draft" {
      color := "blue";
    } else if status == "archived" {
      color := "gray";
    } else {
      color := "default";
    }
  }

  /** `getStatusTag`: the tag's colour and its text, the status option's label or the raw status. */
  method StatusTag(status: string) returns (color: string, text: string)
    ensures status == "active" ==> color == "green"
    ensures status == "draft" ==> color == "blue"
    ensures status == "archived" ==> color == "gray"
    ensures status !in {"active", "draft", "archived"} ==> color == "default"
    ensures (forall k :: 0 <= k < |StatusOptions| ==> StatusOptions[k].value != status) ==> text == status
    ensures forall k :: 0 <= k < |StatusOptions| && StatusOptions[k].value == status ==> text == StatusOptions[k].caption
  {
    color := StatusColor(status);
    text := LabelOf(StatusOptions, status);
  }

  // ------------------------------------------------------------------ filtering

  /** The values `filterDocuments` receives; a filter is `null`, `undefined` or a string. */
  datatype Filters = Filters(search: string, fileType: Option<string>, category: Option<string>, status: Option<string>)

  /** No search text and no filter. */
  const NoFilters: Filters := Filters("", None, None, None)

  /** JavaScript truthiness of a `string | null` filter: set and non-empty. */
  predicate Active(o: Option<string>) {
    o.Some? && o.value != ""
  }

  /** The search test: the lowercased title or the lowercased author contains the lowercased text. */
  predicate SearchHit(doc: Document, search: string) {
    Contains(ToLower(doc.title), ToLower(search)) || Contains(ToLower(doc.author), ToLower(search))
  }

  /** The first `n` of the four stages (search, type, category, status) keep `doc`. */
  predicate PassesUpTo(doc: Document, f: Filters, n: nat) {
    && (n >= 1 && f.search != "" ==> SearchHit(doc, f.search))
    && (n >= 2 && Active(f.fileType) ==> doc.fileType == f.fileType.value)
    && (n >= 3 && Active(f.category) ==> doc.category == f.category.value)
    && (n >= 4 && Active(f.status) ==> doc.status == f.status.value)
  }

  /** All four stages keep `doc`. */
  predicate Passes(doc: Document, f: Filters) {
    PassesUpTo(doc, f, 4)
  }

  function UpTo(f: Filters, n: nat): Document -> bool {
    (d: Document) => PassesUpTo(d, f, n)
  }

  /** The documents the filters keep, in list order: the reference for `filterDocuments`. */
  function Selected(documents: seq<Document>, f: Filters): seq<Document> {
    Filter(documents, UpTo(f, 4))
  }

  function SearchStage(search: string): Document -> bool {
    (d: Document) => SearchHit(d, search)
  }

  function FileTypeStage(t: string): Document -> bool {
    (d: Document) => d.fileType == t
  }

  function CategoryStage(c: string): Document -> bool {
    (d: Document) => d.category == c
  }

  function StatusStage(s: string): Document -> bool {
    (d: Document) => d.status == s
  }

  /**
   * A document is selected exactly when it is listed and passes every active stage: the search
   * on title or author, and equality on type, category and status.
   */
  lemma SelectedMembers(documents: seq<Document>, f: Filters, doc: Document)
    ensures doc in Selected(documents, f) <==> doc in documents && Passes(doc, f)
  {
    if doc in documents && Passes(doc, f) {
      var k :| 0 <= k < |documents| && documents[k] == doc;
      assert UpTo(f, 4)(documents[k]);
    }
  }

  /** The selection keeps the list's order. */
  lemma SelectedIsSubsequence(documents: seq<Document>, f: Filters)
    ensures IsSubsequence(Selected(documents, f), documents)
  {
    FilterIsSubsequence(documents, UpTo(f, 4));
  }

  /** Without search text and without filters every document is shown. */
  lemma NoFiltersSelectsAll(documents: seq<Document>, f: Filters)
    requires f.search == "" && !Active(f.fileType) && !Active(f.category) && !Active(f.status)
    ensures Selected(documents, f) == documents
  {
    FilterAllPass(documents, UpTo(f, 4));
  }

  /** `d => d.id !== id`. */
  function Without(id: DocId): Document -> bool {
    (d: Document) => d.id != id
  }

  /** Deleting and then filtering gives what filtering and then deleting gives. */
  lemma DeleteCommutesWithSelection(documents: seq<Document>, f: Filters, id: DocId)
    ensures Selected(Filter(documents, Without(id)), f) == Filter(Selected(documents, f), Without(id))
  {
    var both := (d: Document) => d.id != id && PassesUpTo(d, f, 4);
    FilterFilter(documents, Without(id), UpTo(f, 4), both);
    FilterFilter(documents, UpTo(f, 4), Without(id), both);
  }

  /** The list-order preserving deletion removes exactly the documents with that id. */
  lemma DeleteMembers(documents: seq<Document>, id: DocId, doc: Document)
    ensures doc in Filter(documents, Without(id)) <==> doc in documents && doc.id != id
  {
    if doc in documents && doc.id != id {
      var k :| 0 <= k < |documents| && documents[k] == doc;
      assert Without(id)(documents[k]);
    }
  }

  /**
   * The body of `filterDocuments`: the search stage and the three equality stages applied in
   * turn to a copy of the documents, each only when its value is truthy.
   */
  method ApplyStages(documents: seq<Document>, f: Filters) returns (filtered: seq<Document>)
    ensures filtered == Selected(documents, f)
  {
    filtered := documents;
    FilterAllPass(documents, UpTo(f, 0));
    if f.search != "" {
      filtered := Filter(filtered, SearchStage(f.search));
      FilterFilter(documents, UpTo(f, 0), SearchStage(f.search), UpTo(f, 1));
    } else {
      FilterPointwise(documents, UpTo(f, 0), UpTo(f, 1));
    }
    if Active(f.fileType) {
      filtered := Filter(filtered, FileTypeStage(f.fileType.value));
      FilterFilter(documents, UpTo(f, 1), FileTypeStage(f.fileType.value), UpTo(f, 2));
    } else {
      FilterPointwise(documents, UpTo(f, 1), UpTo(f, 2));
    }
    if Active(f.category) {
      filtered := Filter(filtered, CategoryStage(f.category.value));
      FilterFilter(documents, UpTo(f, 2), CategoryStage(f.category.value), UpTo(f, 3));
    } else {
      FilterPointwise(documents, UpTo(f, 2), UpTo(f, 3));
    }
    if Active(f.status) {
      filtered := Filter(filtered, StatusStage(f.status.value));
      FilterFilter(documents, UpTo(f, 3), StatusStage(f.status.value), UpTo(f, 4));
    } else {
      FilterPointwise(documents, UpTo(f, 3), UpTo(f, 4));
    }
  }

  // ------------------------------------------------------------------ the page

  class DocumentTable {
    var documents: seq<Document>
    var filteredDocuments: seq<Document>
    var searchText: string
    var fileTypeFilter: Option<string>
    var categoryFilter: Option<string>
    var statusFilter: Option<string>

    /** The filters the page currently holds. */
    function Current(): Filters
      reads this
    {
      Filters(searchText, fileTypeFilter, categoryFilter, statusFilter)
    }

    /** The table shows what the held filters select from the documents. */
    predicate Consistent()
      reads this
    {
      filteredDocuments == Selected(documents, Current())
    }

    constructor(initial: seq<Document>)
      ensures documents == initial && filteredDocuments == initial && Current() == NoFilters
      ensures Consistent()
    {
      documents := initial;
      filteredDocuments := initial;
      searchText := "";
      fileTypeFilter := None;
      categoryFilter := None;
      statusFilter := None;
      new;
      NoFiltersSelectsAll(initial, NoFilters);
    }

    /** `filterDocuments`: the table then shows exactly the selection by all four stages. */
    method FilterDocuments(f: Filters)
      modifies this
      ensures filteredDocuments == Selected(documents, f)
      ensures documents == old(documents) && Current() == old(Current())
    {
      filteredDocuments := ApplyStages(documents, f);
    }

    /** `handleSearch`: stores the text and filters with it and the held filters. */
    method HandleSearch(value: string)
      modifies this
      ensures Current() == old(Current()).(search := value)
      ensures documents == old(documents)
      ensures Consistent()
    {
      searchText := value;
      FilterDocuments(Filters(value, fileTypeFilter, categoryFilter, statusFilter));
    }

    /** The type select's `onChange`. */
    method ChangeFileTypeFilter(value: Option<string>)
      modifies this
      ensures Current() == old(Current()).(fileType := value)
      ensures documents == old(documents)
      ensures Consistent()
    {
      fileTypeFilter := value;
      FilterDocuments(Filters(searchText, value, categoryFilter, statusFilter));
    }

    /** The category select's `onChange`. */
    method ChangeCategoryFilter(value: Option<string>)
      modifies this
      ensures Current() == old(Current()).(category := value)
      ensures documents == old(documents)
      ensures Consistent()
    {
      categoryFilter := value;
      FilterDocuments(Filters(searchText, fileTypeFilter, value, statusFilter));
    }

    /** The status select's `onChange`. */
    method ChangeStatusFilter(value: Option<string>)
      modifies this
      ensures Current() == old(Current()).(status := value)
      ensures documents == old(documents)
      ensures Consistent()
    {
      statusFilter := value;
      FilterDocuments(Filters(searchText, fileTypeFilter, categoryFilter, value));
    }

    /** `handleResetFilters`: clears the search and every filter and shows every document. */
    method HandleResetFilters()
      modifies this
      ensures Current() == NoFilters
      ensures documents == old(documents) && filteredDocuments == documents
      ensures Consistent()
    {
      searchText := "";
      fileTypeFilter := None;
      categoryFilter := None;
      statusFilter := None;
      filteredDocuments := documents;
      NoFiltersSelectsAll(documents, NoFilters);
    }

    /**
     * `handleDeleteDocument`: drops every document with the id from both lists, keeping the rest
     * in order; a table that showed the selection still does.
     */
    method HandleDeleteDocument(id: DocId)
      modifies this
      ensures documents == Filter(old(documents), Without(id))
      ensures filteredDocuments == Filter(old(filteredDocuments), Without(id))
      ensures Current() == old(Current())
      ensures old(Consistent()) ==> Consistent()
    {
      DeleteCommutesWithSelection(documents, Current(), id);
      documents := Filter(documents, Without(id));
      filteredDocuments := Filter(filteredDocuments, Without(id));
    }
  }
}
