# EC-Front: a verified model of the chat stream reassembler and its clients

EC-Front is the React front end of a knowledge-base assistant. This project models its core in Dafny and proves what that core promises:

- **The streamed chat-completion client** (`ChatApi`, `Frames`).
  - `sendChatRequest` posts a question and reads the response body chunk by chunk.
  - Each chunk is appended to a session buffer. `processData` cuts the buffer into `data:` frames, parses each frame as a JSON envelope `{code, message?, data}` and hands it to `processResponse`.
  - `processResponse` turns the envelope into a callback `(content, isComplete, error?)`.
  - A frame that does not yet parse stays in the buffer for the next pass.
- **The HTTP wrapper** (`Http`):
  - the normalised, lowercased header map and its defaults;
  - request and response interceptors, run in registration order;
  - the bodies `post` and `put` send;
  - the message thrown for a failed response.
- **The chat view** (`ChatMain`). It keeps the history, the input box, the loading flag and the controller reference. It appends a question and an empty answer slot, and writes streamed content into that slot.
- **The document pages** (`DocumentManagement`, `DocumentCenter`, `DocumentUpload`, `Uploads`):
  - the filter pipeline, deletion, and the label and colour lookups;
  - the upload allowlist and size checks;
  - the upload form's submit handler.
- **The insight dashboard** (`InsightDashboard`): the top-10 ranking by count, the 15-character axis-label truncation, and the zero-hit table.

Code that updates state step by step is modelled as classes and methods, over fields the methods reassign:

- `StreamSession` has `buffer`, `isProcessing`, `readerCancelled` and the callback log.
- `Request` has its interceptor lists.
- `ChatView`, `DocumentTable`, `DocumentCenterPage` and `UploadPage` are the pages' state.

Each method is proved against a function on values, and the properties are lemmas about those functions:

- `Session`, `AfterPass` and `Stream` for the stream;
- `HeaderMap` and `ExpectedHeader` for the headers;
- `RespondAll` for the chat history;
- `Selected` for the filters;
- `Uploaded` for the upload handler.

Shared helpers:

- `Text` models the JavaScript string operations used: `split`, `join`, `trim`, `startsWith`, `includes`, ASCII `toLowerCase`, and decimal rendering.
- `Seqs` models `filter` and `find`.
- `Wrappers` has `Option` and `Result`.

Inputs the code takes from the environment are parameters of the model:

- the JSON parser (`Parser`);
- the network (a `Transport` outcome, `fetch` as a function, the `rejectAt` upload failure);
- the clock (`now`, `later`, `timeString`, `today`);
- the size formatter (`formatSize`).

## Model

| member | source | states |
|---|---|---|
| Frames.DataLineNotBlank | src/api/chatApi.ts:99-102 | A `data:` line is never skipped as blank, so the blank test never hides a frame start. |
| Frames.Finish | src/api/chatApi.ts:128-139 | Definition of the final step: a non-empty accumulator that parses is dispatched and all lines count as consumed. Otherwise the frames and the counter stay as they were. Its behaviour is stated by `Frames.WalkDataStop` and `ChatApi.StreamSession.FinishPass`. |
| Frames.Walk | src/api/chatApi.ts:95-139 | Definition of the loop read line by line, with the accumulator, the counter and the `break`. `Frames.WalkIsCombine` and `Frames.PassIsWalk` prove that its outcome is the group-by-group pass. |
| Frames.Pass | src/api/chatApi.ts:89-139 | Definition of a pass: the buffer's frame groups are parsed in order, and the first one that fails stops it. `Frames.PassOutcome` states what it dispatches and what it consumes. |
| Frames.Rest | src/api/chatApi.ts:141-146 | Definition of the rewritten buffer: the unconsumed lines rejoined with `'\n'`, or empty when none remain. `Frames.RestIsSuffix` and `Frames.KeptGroupsAreUndispatched` state what it keeps. |
| Frames.NextDataLine | src/api/chatApi.ts:95-125 | The next frame start at or after `j`: no `data:` line lies before it, and the index is a `data:` line unless the lines ran out. |
| Frames.GroupsWellFormed | src/api/chatApi.ts:95-126 | The frame groups of a buffer start at `data:` lines, are ordered and do not overlap. |
| Frames.ParsedPrefixIsLongestRun | src/api/chatApi.ts:104-114 | The dispatched frames are the envelopes of the longest run of groups that parse. When the run stops early, the group that stops it fails to parse. |
| Frames.PassIsWalk | src/api/chatApi.ts:89-139 | The line-by-line walk of the loop, with its `tempBuffer`, `processedLines`, `break` and final parse, has the same outcome as the declarative pass over groups. |
| Frames.WalkIsCombine | src/api/chatApi.ts:95-139 | From any point of the walk, the remaining loop gives the outcome of parsing the pending and later groups in order. |
| Frames.WalkBlankStep | src/api/chatApi.ts:99 | A blank line does not change the frame being built. |
| Frames.WalkOtherStep | src/api/chatApi.ts:122-125 | A line that is neither blank nor `data:` is appended verbatim, with no newline, only while a frame is being built. Otherwise it is ignored. |
| Frames.WalkOtherIdle | src/api/chatApi.ts:122-125 | With no frame being built, a line that is neither blank nor `data:` is dropped. From such a line, the walk's outcome is still that of the pending groups. |
| Frames.WalkOtherExtend | src/api/chatApi.ts:122-124 | While a frame is being built, such a line is appended verbatim. From such a line, the walk's outcome is still that of the pending groups, the open one included. |
| Frames.PendingOtherStep | src/api/chatApi.ts:122-124 | Moving a continuation line from the lines ahead into the accumulator leaves the pending frames unchanged. |
| Frames.WalkDataStep | src/api/chatApi.ts:102-121 | A `data:` line first parses the previous accumulator and counts the earlier lines as consumed, or stops the pass. It then seeds a frame with the trimmed rest after its first five characters. |
| Frames.WalkDataSeed | src/api/chatApi.ts:102-120 | From a `data:` line with an empty accumulator: it seeds a new frame with its trimmed rest, the counter is unchanged, and the walk's outcome is that of the pending groups. |
| Frames.WalkDataDispatch | src/api/chatApi.ts:104-120 | From a `data:` line whose preceding accumulator parses: its envelope is dispatched first, the earlier lines count as consumed, and the walk's outcome is that of the pending groups. |
| Frames.WalkDataStop | src/api/chatApi.ts:110-113 | From a `data:` line whose preceding accumulator does not parse: the loop breaks, and the outcome, that of the final step, is that of the pending groups. The blocked frame is the first of them. |
| Frames.PassOutcome | src/api/chatApi.ts:104-139 | The frames are the parsing prefix of the groups, in stream order. The first unparsable group blocks every later one, and none of its lines is consumed. Every line of a dispatched group is consumed. Nothing is consumed exactly when nothing is dispatched. |
| Frames.RestIsSuffix | src/api/chatApi.ts:89-146 | The rewritten buffer is a suffix of the old buffer. It equals the old buffer exactly when no frame was dispatched. |
| Frames.KeptGroupsAreUndispatched | src/api/chatApi.ts:141-146 | Split again, the kept buffer holds exactly the undispatched groups, the blocked one first. No dispatched frame is seen again and no undispatched frame is lost. |
| Frames.KeptLinesStartAtBlocked | src/api/chatApi.ts:108-146 | The groups from the kept counter on are exactly the groups not dispatched. |
| Frames.RestGroupTexts | src/api/chatApi.ts:89-146 | Rejoining the kept lines with '\n' and splitting again gives groups with the same texts as the kept lines open. |
| Frames.GroupsShift | src/api/chatApi.ts:143 | Dropping leading lines before a group start keeps the texts of all later groups. |
| Frames.Texts | src/api/chatApi.ts:106-131 | The texts handed to the parser, one per group, in order. |
| ChatApi.Reaction | src/api/chatApi.ts:153-175 | Each envelope gives at most one callback, and none exactly for `code 0` with data that is neither `true` nor an answer. `code 0` with `true` gives `("", true)`, an answer gives `(answer, false)`, and any other code gives `("", true, message)`. |
| ChatApi.Reactions | src/api/chatApi.ts:107-132 | The callbacks of the dispatched frames, at most one per frame, in order. |
| ChatApi.ReactionsSnoc | src/api/chatApi.ts:107-132 | The callbacks of frames dispatched one after the other are the callbacks of each frame in turn. |
| ChatApi.AnyDone | src/api/chatApi.ts:161-163 | A pass cancels the reader exactly when one of its frames is the end-of-answer marker. |
| ChatApi.AfterPass | src/api/chatApi.ts:82-150 | Definition of a session after one pass: the rewritten buffer, the cancellation and the callbacks added to the log. `ChatApi.AfterPassProperties` states its properties. |
| ChatApi.Consume | src/api/chatApi.ts:61-79 | Definition of the read loop: each chunk is appended and followed by a pass, and reading stops once the reader is cancelled. `ChatApi.ConsumeExtendsLog` and `ChatApi.ConsumeStopsAtCancel` state its properties. |
| ChatApi.Stream | src/api/chatApi.ts:61-79 | Definition of a whole stream: the read loop, then the final pass at the end of the stream. `ChatApi.StreamSession.ReadStream` is proved to compute it. |
| ChatApi.AfterPassProperties | src/api/chatApi.ts:82-163 | A pass keeps a suffix of the buffer, and keeps all of it exactly when it dispatches nothing. It extends the log by the frames' callbacks. It cancels the reader exactly when the reader was already cancelled or a marker arrived. |
| ChatApi.ConsumeExtendsLog | src/api/chatApi.ts:61-79 | Reading chunks never takes back a callback: the old log is a prefix of the new one. |
| ChatApi.ConsumeStopsAtCancel | src/api/chatApi.ts:62-163 | Once the reader is cancelled, chunks sent later are never read. |
| ChatApi.MarkerDoesNotStopThePass | src/api/chatApi.ts:95-165 | The end-of-answer marker does not end the pass. A parsing frame after it in the same pass is still dispatched, after the marker's callback. |
| ChatApi.StreamSession.constructor | src/api/chatApi.ts:56-58 | A session starts with an empty buffer, no pass running, the reader live and no callback made. |
| ChatApi.StreamSession.ProcessResponse | src/api/chatApi.ts:153-175 | Appends the envelope's callback to the log. It cancels the reader exactly on the marker, which it handles before calling back. The buffer and the flag are untouched. |
| ChatApi.StreamSession.ProcessData | src/api/chatApi.ts:82-150 | With a pass already running, buffer, flag, cancellation and log are unchanged. Otherwise the session becomes `AfterPass` of the old one, and the flag ends cleared. |
| ChatApi.StreamSession.DispatchLines | src/api/chatApi.ts:92-139 | The loop dispatches exactly the frames of `Pass`, in order, and returns its `processedLines`. |
| ChatApi.StreamSession.WalkLine | src/api/chatApi.ts:95-126 | One iteration of the loop: it either breaks with the outcome that the final step gives, or continues with the walk from the next line. Every frame it dispatches is logged, and the reader is cancelled on the end-of-answer marker. |
| ChatApi.StreamSession.FinishPass | src/api/chatApi.ts:128-139 | The final parse of a non-empty accumulator: the counter, the log and the cancellation are those of the pass's final step. |
| ChatApi.StreamSession.Dispatch | src/api/chatApi.ts:106-132 | Handing one envelope to `processResponse` adds its callback, if any, to the log and cancels the reader if it is the end-of-answer marker. |
| ChatApi.StreamSession.ReadStream | src/api/chatApi.ts:61-79 | Each chunk is appended and followed by a pass. After a cancel, the next read reports the end. At the end, one final pass runs over the remaining buffer. The session is `Stream` of the old session. |
| ChatApi.SendChatRequest | src/api/chatApi.ts:36-183 | A thrown transport error gives exactly one `("", true, error.message)`. A response without a readable body gives exactly one `("", true, "No readable stream")`. A body gives the callbacks of the whole stream. |
| Http.CopyEntriesSnoc | src/utils/https/request.ts:46-58 | Copying one more header stores its value under the lowercased name. |
| Http.Supplied | src/utils/https/request.ts:46-58 | The value of the last supplied entry whose name lowercases to `key`, if any, and only such a value. |
| Http.CopyEntries | src/utils/https/request.ts:46-58 | Definition of one copy loop: each entry is stored under its lowercased name, and later entries overwrite earlier ones. `Http.CopyEntriesSnoc` and `Http.CopyEntriesLookup` state its properties. |
| Http.WithDefaults | src/utils/https/request.ts:61-68 | Definition of the `authorization` and `content-type` defaults. `Http.WithDefaultsLookup` states them. |
| Http.HeaderMap | src/utils/https/request.ts:41-68 | Definition of the header map: `accept-charset`, then the two copy loops, then the defaults. `Http.HeaderMapSpec` proves it equal to `Http.ExpectedHeader` on every name. |
| Http.ExpectedHeader | src/utils/https/request.ts:41-68 | Reference definition of each header, written from the supplied entries alone and independent of the loops. `Http.HeaderMapSpec` connects it to `Http.HeaderMap`. |
| Http.CopyEntriesLookup | src/utils/https/request.ts:46-58 | After copying, a name is present when it was present or supplied. The last supplier wins. |
| Http.SuppliedAppend | src/utils/https/request.ts:46-58 | Per-call headers override default headers with the same lowercased name. |
| Http.CopiedHeaders | src/utils/https/request.ts:41-58 | The map starts as `{accept-charset: utf-8}`. A name is present after both copy loops exactly when it is `accept-charset` or supplied, with the last supplied value. |
| Http.WithDefaultsLookup | src/utils/https/request.ts:61-68 | `authorization` gets the bearer token and `content-type` gets `application/json` only when empty or missing, the latter only for non-`FormData` bodies. Nothing else changes. |
| Http.HeaderMapSpec | src/utils/https/request.ts:31-68 | The header map holds exactly the expected headers. `authorization` is always present, with the token unless a non-empty value was supplied. `content-type` defaults to JSON only without `FormData`. Any other name is present exactly when supplied. |
| Http.FormDataGetsNoDefaultContentType | src/utils/https/request.ts:31-68 | A `FormData` body has a `content-type` exactly when one is supplied. |
| Http.RequestChainSnoc | src/utils/https/request.ts:20-76 | A newly registered request interceptor runs last, on the previous ones' output. |
| Http.ResponseChainSnoc | src/utils/https/request.ts:25-83 | A newly registered response interceptor runs last, on the previous ones' output, unless an earlier one threw. |
| Http.RunRequestInterceptors | src/utils/https/request.ts:74-76 | Definition of the request chain: the interceptors applied in registration order. `Http.RequestChainSnoc` states the order. |
| Http.RunResponseInterceptors | src/utils/https/request.ts:81-83 | Definition of the response chain: the interceptors in registration order, where the first that throws ends the chain. `Http.ResponseChainSnoc` states it. |
| Http.MethodOf | src/utils/https/request.ts:130 | Definition of `options.method || "GET"`. `Http.Request.Stream` states that `fetch` receives it. |
| Http.Request.constructor | src/utils/https/request.ts:8-17 | A client keeps its base URL and default headers and starts with no interceptors. |
| Http.Request.UseRequest | src/utils/https/request.ts:20-22 | Registers a request interceptor after the existing ones and leaves the response list alone. |
| Http.Request.UseResponse | src/utils/https/request.ts:25-27 | Registers a response interceptor after the existing ones and leaves the request list alone. |
| Http.Request.BuildHeaders | src/utils/https/request.ts:41-162 | The header loops build exactly `HeaderMap` of the default and per-call headers. |
| Http.Request.Stream | src/utils/https/request.ts:123-181 | `fetch` receives the prepared configuration (`baseURL + url`, method or `GET`, the body, the header map) after every request interceptor in order. The caller receives the response after every response interceptor in order, or the first one's error. |
| Http.AuthInterceptor | src/utils/https/request.ts:188-197 | Keeps URL, method and body. Afterwards `Authorization` or `authorization` is set, and a configuration that already has either is returned unchanged. |
| Http.AuthInterceptorKeepsPrepared | src/utils/https/request.ts:61-197 | After the header defaults, the registered request interceptor changes nothing. |
| Http.ErrorMessage | src/utils/https/request.ts:205-221 | Returns the JSON `message` for a JSON response and the text body otherwise. Anything else returned is the fallback `请求失败`, used when the message is empty or missing or reading fails. It is never empty. |
| Http.ErrorInterceptor | src/utils/https/request.ts:199-225 | An OK response passes unchanged. Any other response throws its error message. |
| Http.DefaultRequest | src/utils/https/request.ts:185-199 | The exported client has no default headers, the auth interceptor and the error interceptor. |
| Http.DefaultRequestOutcome | src/utils/https/request.ts:168-225 | Through the exported client, `fetch` receives exactly the prepared configuration. The caller gets the response when it is OK and its error message otherwise. |
| Http.PayloadBody | src/utils/https/request.ts:93-107 | `FormData` is passed unchanged, a truthy value as its serialised text, and a falsy or absent value gives no body. |
| Http.FormDataUpload | src/utils/https/request.ts:31-107 | Posting or putting `FormData` sends it unchanged with `POST` or `PUT`, and its headers carry a `content-type` only when supplied. |
| ChatMain.MessageIdInjective | src/routes/businessComponents/ChatMain.tsx:64-122 | Different clock readings give different `msg-` ids. |
| ChatMain.MessageId | src/routes/businessComponents/ChatMain.tsx:108-122 | Definition of the `msg-` id of a clock reading. `ChatMain.MessageIdInjective` proves distinct readings give distinct ids. |
| ChatMain.QuestionAndAnswerIdsDiffer | src/routes/businessComponents/ChatMain.tsx:108-122 | A question and its answer slot, stamped in that order, never share an id. |
| ChatMain.SetContent | src/routes/businessComponents/ChatMain.tsx:143-154 | Only messages with the answer id get the new content. Length, order and every other message and field are unchanged. |
| ChatMain.SetContentTwice | src/routes/businessComponents/ChatMain.tsx:143-154 | A later write to the answer slot replaces an earlier one. |
| ChatMain.SetContentAbsent | src/routes/businessComponents/ChatMain.tsx:143-154 | A write to an id not in the history changes nothing. |
| ChatMain.LastWritten | src/routes/businessComponents/ChatMain.tsx:137-154 | No content is written exactly when every callback is an empty completing one. |
| ChatMain.Respond | src/routes/businessComponents/ChatMain.tsx:135-161 | Definition of one `updateAiResponse` call on the history. `ChatMain.ChatView.UpdateAiResponse` is proved to compute it. |
| ChatMain.RespondAll | src/routes/businessComponents/ChatMain.tsx:135-161 | Definition of the history after a sequence of callbacks. `ChatMain.RespondAllSnoc` and `ChatMain.RespondAllLastWins` state its properties. |
| ChatMain.RespondAllSnoc | src/routes/businessComponents/ChatMain.tsx:135-161 | Callbacks act on the history one after the other. |
| ChatMain.RespondAllLastWins | src/routes/businessComponents/ChatMain.tsx:135-161 | After any callbacks, the history is unchanged when none wrote, and otherwise differs only in the answer slot, which holds the last content written. |
| ChatMain.FailedRequestShowsNoError | src/routes/businessComponents/ChatMain.tsx:137-142 | The single callback of a failed request leaves the history unchanged, so its error text is never shown. |
| ChatMain.ChatView.constructor | src/routes/businessComponents/ChatMain.tsx:93-98 | A view starts with empty input, no request loading, no controller and no cancel call. |
| ChatMain.ChatView.UpdateAiResponse | src/routes/businessComponents/ChatMain.tsx:135-161 | An empty completing call keeps the history and drops its error text. Any other call writes its content into the answer slot only. A completing call clears loading and the controller. A non-completing call leaves them. |
| ChatMain.ChatView.HandleApiRequest | src/routes/businessComponents/ChatMain.tsx:91-132 | Loading with a controller: cancel is called once, loading and the controller are cleared, nothing is appended. Blank input: nothing changes. Otherwise: the question, then an empty bot slot with its own id, are appended, the input is cleared and loading is set. |
| ChatMain.ChatView.StoreController | src/routes/businessComponents/ChatMain.tsx:165-188 | `sendChatRequest` resolves to nothing, so the stored controller is none. Nothing else changes. |
| ChatMain.ChatView.HandleSendMessage | src/routes/businessComponents/ChatMain.tsx:55-73 | Sends exactly when the trimmed input is non-empty; then the question is appended and the input cleared. Otherwise nothing changes. |
| ChatMain.ChatView.DeliverCannedReply | src/routes/businessComponents/ChatMain.tsx:79-87 | The timer appends the canned bot reply and changes nothing else. |
| ChatMain.Exchange | src/routes/businessComponents/ChatMain.tsx:91-188 | A full exchange never takes the cancel branch and adds exactly two messages. The answer slot evolves by the callbacks in order, and no controller is left behind. |
| Uploads.ExtensionAfterLastDot | src/routes/businessComponents/DocumentCenter.tsx:155 | The extension is the lowercased text after the last dot, or the whole lowercased name when there is no dot. |
| Uploads.Extension | src/routes/businessComponents/DocumentCenter.tsx:155 | Definition of `file.name.split('.').pop()?.toLowerCase()`. `Uploads.ExtensionAfterLastDot` states the result. |
| Uploads.Check | src/routes/businessComponents/DocumentCenter.tsx:153-180 | A file outside the allowlist is ignored as the wrong type. An allowed file of at least the limit is ignored as too large. Any other file is kept for manual upload. |
| Uploads.CheckMonotone | src/routes/businessComponents/DocumentCenter.tsx:172 | A file kept under a smaller limit is kept under a larger one, so a file the 10 MiB check here keeps is also kept by the 50 MiB check of `DocumentUpload.tsx` (line 62). |
| Uploads.CheckByExtension | src/routes/businessComponents/DocumentCenter.tsx:155-176 | The verdict depends only on the extension and the size. |
| DocumentManagement.LabelOf | src/routes/businessComponents/DocumentManagement.tsx:180-189 | The label of the first table entry with the key, or the key itself when none has it. The document centre's `getCategoryTag` (`DocumentCenter.tsx`, lines 316-319) is this lookup over an equal table. |
| DocumentManagement.LabelOfDistinct | src/routes/businessComponents/DocumentManagement.tsx:180-189 | In a table with distinct values, every listed value shows the label next to it. |
| DocumentManagement.OptionTablesDistinct | src/routes/businessComponents/DocumentManagement.tsx:11-33 | The type, category and status tables list each value once. |
| DocumentManagement.StatusColor | src/routes/businessComponents/DocumentManagement.tsx:192-207 | `active` is green, `draft` blue, `archived` gray, anything else `default`. |
| DocumentManagement.StatusTag | src/routes/businessComponents/DocumentManagement.tsx:192-208 | The status colour, and the status table's label, or the status itself when unlisted. |
| DocumentManagement.SearchHit | src/routes/businessComponents/DocumentManagement.tsx:116-120 | Definition of the search test on the lowercased title and author. `DocumentManagement.SelectedMembers` states it as part of the filter. |
| DocumentManagement.Passes | src/routes/businessComponents/DocumentManagement.tsx:116-136 | Definition of the four filter stages together. `DocumentManagement.ApplyStages` proves the stages in turn give the same list. |
| DocumentManagement.Selected | src/routes/businessComponents/DocumentManagement.tsx:112-148 | Reference definition of `filterDocuments`. `DocumentManagement.SelectedMembers` and `DocumentManagement.SelectedIsSubsequence` state what it keeps and in what order. |
| DocumentManagement.SelectedMembers | src/routes/businessComponents/DocumentManagement.tsx:112-148 | A document is shown exactly when it is in the list and passes every active filter. The search matches the lowercased title or author. |
| DocumentManagement.SelectedIsSubsequence | src/routes/businessComponents/DocumentManagement.tsx:112-148 | Filtering keeps the documents' order. |
| DocumentManagement.NoFiltersSelectsAll | src/routes/businessComponents/DocumentManagement.tsx:116-136 | With no search and no active select, every document is shown. |
| DocumentManagement.DeleteCommutesWithSelection | src/routes/businessComponents/DocumentManagement.tsx:173-177 | Deleting from both lists keeps the shown list equal to the filtered full list. |
| DocumentManagement.DeleteMembers | src/routes/businessComponents/DocumentManagement.tsx:173-177 | After a delete, exactly the documents with other ids remain. |
| DocumentManagement.ApplyStages | src/routes/businessComponents/DocumentManagement.tsx:112-136 | Applying the search, type, category and status stages one after the other gives the documents passing all four. |
| DocumentManagement.DocumentTable.constructor | src/routes/businessComponents/DocumentManagement.tsx:95-100 | The table starts showing every document with no filter set. |
| DocumentManagement.DocumentTable.FilterDocuments | src/routes/businessComponents/DocumentManagement.tsx:112-148 | The shown list becomes the documents passing the given filters. |
| DocumentManagement.DocumentTable.HandleSearch | src/routes/businessComponents/DocumentManagement.tsx:106-109 | Stores the search and shows what the stored filters select. |
| DocumentManagement.DocumentTable.ChangeFileTypeFilter | src/routes/businessComponents/DocumentManagement.tsx:364-366 | Stores the type filter and shows what the stored filters select. |
| DocumentManagement.DocumentTable.ChangeCategoryFilter | src/routes/businessComponents/DocumentManagement.tsx:379-381 | Stores the category filter and shows what the stored filters select. |
| DocumentManagement.DocumentTable.ChangeStatusFilter | src/routes/businessComponents/DocumentManagement.tsx:394-396 | Stores the status filter and shows what the stored filters select. |
| DocumentManagement.DocumentTable.HandleResetFilters | src/routes/businessComponents/DocumentManagement.tsx:151-158 | Clears every filter and shows every document. |
| DocumentManagement.DocumentTable.HandleDeleteDocument | src/routes/businessComponents/DocumentManagement.tsx:173-177 | Removes the id from both lists, keeps the filters, and keeps the shown list equal to what the filters select. |
| DocumentCenter.FileTypeTag | src/routes/businessComponents/DocumentCenter.tsx:301-313 | The mapped label for a known type, else the type itself. |
| DocumentCenter.FileTypeTagsAgree | src/routes/businessComponents/DocumentCenter.tsx:301-313 | On the five file types of the document page's option table (`DocumentManagement.tsx`, lines 11-17), the two pages give the same label. |
| DocumentCenter.StatusTag | src/routes/businessComponents/DocumentCenter.tsx:322-346 | Colours as on the document page. The text is `已发布`, `草稿` or `已归档`, and any other status also reads `已归档`. |
| DocumentCenter.TitleMatch | src/routes/businessComponents/DocumentCenter.tsx:256-259 | Definition of the title search test. `DocumentCenter.TitleSearchMembers` states what it keeps. |
| DocumentCenter.NewDoc | src/routes/businessComponents/DocumentCenter.tsx:216-228 | Definition of the row built for an uploaded file, with its fallbacks for title, type and category. It is the row maker the upload handler uses. |
| DocumentCenter.Uploaded | src/routes/businessComponents/DocumentCenter.tsx:198-229 | Corrected definition of the list after the uploads: each row goes in front of the list as it then is. `DocumentCenter.UploadedAddsOneRowPerFile` states the result. |
| DocumentCenter.NewRows | src/routes/businessComponents/DocumentCenter.tsx:198-229 | The rows a batch of uploads adds, one per file, newest first. `DocumentCenter.UploadedAddsOneRowPerFile` uses it to place each file's row. |
| DocumentCenter.TitleSearchMembers | src/routes/businessComponents/DocumentCenter.tsx:249-273 | A document is shown exactly when its lowercased title contains the lowercased search, in the original order. |
| DocumentCenter.UploadedAddsOneRowPerFile | src/routes/businessComponents/DocumentCenter.tsx:198-229 | Every uploaded file adds its own row in front, newest first, and the old list is kept behind them. The `k`-th file's row is the one made when the list holds `|documents| + k` rows, so the ids count up from the old length. |
| DocumentCenter.UploadedAsWritten | src/routes/businessComponents/DocumentCenter.tsx:216-228 | Each iteration puts the new row in front of the list as it was rendered, so each call replaces the previous one. |
| DocumentCenter.AsWrittenKeepsOnlyLastRow | src/routes/businessComponents/DocumentCenter.tsx:216-228 | As written, only the last file's row survives. |
| DocumentCenter.AsWrittenLosesUploads | src/routes/businessComponents/DocumentCenter.tsx:198-229 | As written, two or more files add a single row, which differs from one row per file. |
| DocumentCenter.Attempted | src/routes/businessComponents/DocumentCenter.tsx:198-211 | Uploads are posted in order up to and including the first failing one. |
| DocumentCenter.Succeeded | src/routes/businessComponents/DocumentCenter.tsx:198-229 | Files before the first failure get a row. Fewer than all succeed exactly when some upload fails. |
| DocumentCenter.UploadedSnoc | src/routes/businessComponents/DocumentCenter.tsx:198-229 | One more upload puts one more row in front. |
| DocumentCenter.UploadEach | src/routes/businessComponents/DocumentCenter.tsx:198-236 | Posts the files in order until one fails, and reports failure exactly when some upload failed. The rows it builds are the corrected update `Uploaded`, one row per successful upload; the code as written keeps only the last row (`UploadedAsWritten`). |
| DocumentCenter.AddRow | src/routes/businessComponents/DocumentCenter.tsx:216-228 | The corrected loop step: after a successful upload, the row for the file goes in front of the rows so far, as one more step of `Uploaded`. The code as written puts it in front of the rendered list instead (`UploadedAsWritten`). |
| DocumentCenter.DocumentCenterPage.constructor | src/routes/businessComponents/DocumentCenter.tsx:114-121 | The page starts with no documents, no search, no pending file and not uploading. |
| DocumentCenter.DocumentCenterPage.BeforeUpload | src/routes/businessComponents/DocumentCenter.tsx:153-181 | The 10 MiB check. A kept file is appended to the pending list; an ignored one leaves it. |
| DocumentCenter.DocumentCenterPage.HandleChange | src/routes/businessComponents/DocumentCenter.tsx:184-186 | The picker's list replaces the pending list. |
| DocumentCenter.DocumentCenterPage.OnFinish | src/routes/businessComponents/DocumentCenter.tsx:189-240 | With no pending file, nothing is posted and nothing changes. Otherwise files are posted in order until one fails, and each success gets a row: the stored list is the corrected update `Uploaded`, not the as-written one (`UploadedAsWritten`, see Findings). The pending list is kept after a failure and emptied otherwise, and the uploading flag ends cleared. |
| DocumentCenter.DocumentCenterPage.HandleSearch | src/routes/businessComponents/DocumentCenter.tsx:243-246 | Stores the search and shows the documents whose title matches it. |
| DocumentCenter.DocumentCenterPage.FilterDocuments | src/routes/businessComponents/DocumentCenter.tsx:249-273 | Shows the documents whose title matches the search. |
| DocumentCenter.DocumentCenterPage.HandleResetFilters | src/routes/businessComponents/DocumentCenter.tsx:276-280 | Clears the search and shows every document. |
| DocumentCenter.DocumentCenterPage.HandleDeleteDocument | src/routes/businessComponents/DocumentCenter.tsx:294-298 | Removes the id from both lists. A shown list that matched the search still does. |
| DocumentUpload.UploadPage.constructor | src/routes/businessComponents/DocumentUpload.tsx:21 | The page starts with no pending file. |
| DocumentUpload.UploadPage.BeforeUpload | src/routes/businessComponents/DocumentUpload.tsx:43-71 | The same allowlist with a 50 MiB limit. A kept file is appended to the pending list. |
| DocumentUpload.UploadPage.HandleChange | src/routes/businessComponents/DocumentUpload.tsx:74-76 | The picker's list replaces the pending list. |
| DocumentUpload.UploadPage.OnFinish | src/routes/businessComponents/DocumentUpload.tsx:79-86 | Nothing is sent and the pending list is emptied. |
| DocumentUpload.CenterAcceptedIsAccepted | src/routes/businessComponents/DocumentUpload.tsx:62 | A file the document centre keeps under its 10 MiB limit (`DocumentCenter.tsx`, line 172), this page keeps too. |
| InsightDashboard.InsertByCount | src/routes/businessComponents/InsightDashboard.tsx:203-205 | Inserting a question adds exactly that question to the list. |
| InsightDashboard.InsertByCountSorted | src/routes/businessComponents/InsightDashboard.tsx:203-205 | Inserting into a list sorted by descending count keeps it sorted. |
| InsightDashboard.InsertByCountBounded | src/routes/businessComponents/InsightDashboard.tsx:203-205 | Inserting an entry into entries whose counts are at most a bound keeps every count at most that bound. |
| InsightDashboard.SortByCount | src/routes/businessComponents/InsightDashboard.tsx:203-205 | The sorted copy is a permutation of the input, by descending count. |
| InsightDashboard.Top10Properties | src/routes/businessComponents/InsightDashboard.tsx:203-206 | The chart shows `min(10, n)` questions by descending count. With the left-out ones they are exactly the input. No left-out question was asked more often than a shown one. |
| InsightDashboard.Top10FromInput | src/routes/businessComponents/InsightDashboard.tsx:203-206 | Every shown question is one of the input's. |
| InsightDashboard.Top10 | src/routes/businessComponents/InsightDashboard.tsx:203-206 | Definition of the sorted copy cut to its first ten. `InsightDashboard.Top10Properties` states its length, its order and what it keeps. |
| InsightDashboard.LeftOut | src/routes/businessComponents/InsightDashboard.tsx:203-206 | The questions dropped by the cut. `InsightDashboard.Top10Properties` proves that with the chart they are a permutation of the input, and that none outranks a shown one. |
| InsightDashboard.Series | src/routes/businessComponents/InsightDashboard.tsx:207-208 | The name and count series are as long as the top list, and bar `k` names and counts the same question. |
| InsightDashboard.TopQuestionsChart | src/routes/businessComponents/InsightDashboard.tsx:199-208 | Nothing is drawn exactly while loading. Otherwise there are `min(10, n)` bars. |
| InsightDashboard.ChartCountsDescending | src/routes/businessComponents/InsightDashboard.tsx:199-208 | Bar heights never increase from left to right. |
| InsightDashboard.TruncateLabel | src/routes/businessComponents/InsightDashboard.tsx:165-236 | Labels of at most 15 characters are kept. Longer ones become their first 15 characters and `...`. Characters are Unicode scalar values, not UTF-16 code units. |
| InsightDashboard.TruncateLabelIdempotent | src/routes/businessComponents/InsightDashboard.tsx:234-236 | Shortening a shortened label changes nothing. |
| InsightDashboard.ZeroHitRowsExact | src/routes/businessComponents/InsightDashboard.tsx:386 | The zero-hit table lists exactly the questions with a positive zero-hit count, in their original order. |
| InsightDashboard.ZeroHitRows | src/routes/businessComponents/InsightDashboard.tsx:386 | Definition of the zero-hit filter. `InsightDashboard.ZeroHitRowsExact` states what it keeps and in what order. |
| Text.JoinSplit | src/api/chatApi.ts:89-143 | Rejoining the split lines with `'\n'` gives the buffer back. |
| Text.SplitJoin | src/api/chatApi.ts:89-143 | Splitting a join of lines without `'\n'` gives the lines back. |
| Text.Split | src/api/chatApi.ts:89 | `split(sep)`: at least one piece, and no piece contains the separator. `Text.JoinSplit` and `Text.SplitJoin` make it the inverse of `Text.Join`. |
| Text.Join | src/api/chatApi.ts:143 | Definition of `join(sep)`. `Text.JoinSplit` and `Text.SplitJoin` make it the inverse of `Text.Split`. |
| Text.Trim | src/api/chatApi.ts:99 | Definition of `trim()` as a trim of each end. `Text.TrimStartSpec`, `Text.TrimEndSpec` and `Text.TrimEmptyIffAllWhitespace` state what it removes. |
| Text.StartsWith | src/api/chatApi.ts:102 | Definition of `startsWith`: the string begins with the prefix. |
| Text.TrimStartSpec | src/api/chatApi.ts:99-117 | Trimming the start removes a whitespace prefix and nothing more. What is left is a suffix of the input, and it is empty or starts with a non-whitespace character. |
| Text.TrimEndSpec | src/api/chatApi.ts:99-117 | Trimming the end removes a whitespace suffix and nothing more. What is left is a prefix of the input, and it is empty or ends with a non-whitespace character. |
| Text.TrimEmptyIffAllWhitespace | src/api/chatApi.ts:99 | A line trims to empty exactly when every character is whitespace. |
| Text.DecimalStringInjective | src/routes/businessComponents/ChatMain.tsx:64-122 | Different numbers render as different decimal strings. |
| Text.DecimalString | src/routes/businessComponents/ChatMain.tsx:108-122 | The decimal rendering is never empty, has at least two digits from 10 on, and ends with the last digit. `Text.DecimalStringInjective` proves it injective. |
| Text.ToLower | src/routes/businessComponents/DocumentManagement.tsx:117-119 | `toLowerCase()` on ASCII letters keeps the length and maps each character on its own. |
| Text.Contains | src/routes/businessComponents/DocumentManagement.tsx:117-119 | Definition of `includes`, recursive on the string. `Text.ContainsIffOccurs` proves it equal to "occurs at some index". |
| Text.ContainsIffOccurs | src/routes/businessComponents/DocumentManagement.tsx:117-119 | `includes` holds exactly when the text occurs in the string at some index; the empty text occurs everywhere. |
| Seqs.FilterFilter | src/routes/businessComponents/DocumentManagement.tsx:116-136 | Two filters in a row keep what passes both. |
| Seqs.Filter | src/routes/businessComponents/DocumentManagement.tsx:116-136 | `filter` keeps at most the input's elements, only elements that pass, and every element that passes. |
| Seqs.FindFirst | src/routes/businessComponents/DocumentManagement.tsx:180-189 | `find` gives the first position whose element passes, and none exactly when no element passes. |

## Left out

- Network and streaming I/O are not modelled:
  - `fetch`, `getReader`, `reader.read()` and promise chaining are replaced by a `Transport` outcome and a sequence of already-decoded chunks.
  - `TextDecoder` and its UTF-8 streaming state are foreign code. The final flush of the decoder is not modelled.
- `JSON.parse` is an uninterpreted deterministic `Parser` returning an envelope or nothing. A parsed value that is not an object, or a `code` that is not a number, is folded into those two outcomes.
- `Frames.Envelope`: `data.answer` and `message` are strings or absent in the model. In the code any JSON value (a number, `null`, an object) is passed through to `onResponse` unchanged (src/api/chatApi.ts, lines 168 and 173); such values are folded into the string case.
- `ChatApi.StreamSession.ProcessData`: the consumer callback is assumed not to throw. In the code `processResponse` runs inside the same `try` as `JSON.parse` (src/api/chatApi.ts, lines 105-114 and 130-138), so a throwing callback counts as an incomplete frame: the pass stops there, `processedLines` is not advanced, and the frame stays in the buffer and is dispatched again on the next pass. The model's "each frame is dispatched exactly once" holds only for a callback that does not throw.
- A rejected `reader.read()` is not modelled. In the code it escapes the promise chain unhandled.
- `ChatApi.StreamSession.ProcessData`: the `isProcessing` guard cannot fire in single-threaded JavaScript, because a pass never calls back into `processData`. It is modelled anyway.
- `ChatApi.StreamSession.ProcessData`: the argument is always the session's own `buffer`, so the method reads the field.
- There is no `cancel()` handle on the session, because `sendChatRequest` returns nothing.
- A `code != 0` envelope does not stop reading, as in the code.
- A stream that ends without a marker frame makes no final callback, as in the code.
- No claim is made that the outcome is independent of how the text is cut into chunks. A pass at a chunk boundary parses the frame built so far, before its continuation lines arrive.
- Strings are sequences of Unicode scalar values (Dafny's `char`), not of UTF-16 code units:
  - `toLowerCase` is modelled on ASCII letters only;
  - `trim` uses the JavaScript whitespace set;
  - lengths count scalar values, where `value.length` counts code units.
- `InsightDashboard.TruncateLabel`: a character outside the Basic Multilingual Plane counts once here, but twice in `value.length`, so the model may keep such a label whole where the code cuts it. Its cut also never splits a surrogate pair, where `substring(0, 15)` can leave a lone high surrogate.
- `Http` headers: only plain header records (`Object.entries`) are modelled.
  - A `Headers` object passed as `defaultHeaders` or `options.headers` is not.
  - A request interceptor that throws or is asynchronous is not.
- `_fetch` (src/utils/https/request.ts:29-87) runs the same header, configuration and interceptor code as `stream`, which `Http.Request.Stream` models, and then calls `response.json()`. That JSON reading is not modelled, and neither are `get`, `delete` and the other thin wrappers.
- `Http.ErrorMessage`: a JSON error body that is `null` would make the code throw a `TypeError` rather than the fallback message. That case is folded into the no-message case.
- `Http.Response` reports one `content-type` header and the outcomes of `json()` and `text()` as given values. Reading the body twice is not modelled.
- The `fileTypeMap` lookup of the document centre would also return inherited object properties, such as `constructor`. The model maps only the eight listed keys.
- The date-range filters of both document pages, and all date and time formatting, are not modelled: `new Date`, `toISOString`, `padStart` and time zones. The clock readings and rendered strings are parameters.
- The size text `(size/1024/1024).toFixed(1)` is the `formatSize` parameter. Floating point is not modelled.
- The size test `size/1024/1024 < N` is modelled as the integer test `size < N·1048576`. Division by powers of two is exact for JavaScript's integer file sizes.
- The upload request of the document centre is not modelled (URL, `FormData` fields). Each post's success or failure is the `rejectAt` parameter.
- `form.resetFields()` and the toasts (`message.error`, `message.success`) are not modelled. Neither are console output, React rendering, effects or the `Upload` and echarts components.
- How the upload component batches several files picked at once is not modelled. This includes `beforeUpload` reading a `fileList` captured at render time.
- The catch branch of `handleApiRequest` (src/routes/businessComponents/ChatMain.tsx:189-204) is not modelled, because it cannot run: `sendChatRequest` catches every error itself and reports it through the callback. That callback's error text is dropped (`ChatMain.FailedRequestShowsNoError`).
- `DocumentCenter.DocumentCenterPage.OnFinish`: stores the corrected update `Uploaded`, one row per successful upload. The code as written keeps only the last successful file's row; that behaviour is `DocumentCenter.UploadedAsWritten` (see Findings).
- `DocumentCenter.UploadEach`: builds the corrected `Uploaded` rows, not the as-written `DocumentCenter.UploadedAsWritten` ones.
- `DocumentCenter.AddRow`: the corrected loop step; as written each row is put in front of the rendered list, not of the rows so far.
- `InsightDashboard.SortByCount`: JavaScript's sort is stable, and so is the insertion sort used here, but stability is not stated or proved. The contract gives only the permutation and the descending order.
- `fetchDocuments` (src/routes/businessComponents/DocumentCenter.tsx:130-150) is a network read of the document list and is not modelled. The page model starts from an empty list, and its loading flag is left out.
- The heatmap, the other dashboard charts, the trend data and the `lastAskedAt` sort of the zero-hit table are not modelled.

## Findings

| source | as written | input that shows it | evidently intended | confidence | as-written member | corrected member |
|---|---|---|---|---|---|---|
| src/routes/businessComponents/DocumentCenter.tsx:216-228 | Each loop iteration calls `setDocuments([newDoc, ...documents])` and gives the row the id `documents.length + 1`, where `documents` is the list captured when the form was rendered. Each call therefore replaces the previous one. | Two files pending, both uploads succeed. | Each uploaded file adds its own row with its own id. | not executed | DocumentCenter.UploadedAsWritten (DocumentCenter.AsWrittenLosesUploads) | DocumentCenter.Uploaded (DocumentCenter.UploadedAddsOneRowPerFile) |
