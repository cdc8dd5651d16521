# raze: the chat turn, the reply relay and the document store, in Dafny

raze is a Laravel and React chat application. A user writes to an AI model
in a chat. Each turn saves the user's message, builds a bounded context from
the chat's recent messages, forwards it to a completion API, relays the
streamed reply to the browser and then saves that reply. Users can also
upload documents to a personal knowledge base. A background job hands each
document to an ingestion service. An API-key protected endpoint serves
document files.

This project models that core as pure functions over immutable sequences,
strings and small records, and proves properties of them:

- `Interaction`: validating a turn request, saving the user message, and the
  relay-then-save of the reply.
- `Persistence`: saving the message, deriving the chat title, and storing
  attachments under sanitised names.
- `History` and `Sorting`: the history window (same chat, older id, newest
  20, in chronological order), the collapse of runs of user messages, and
  the composed prompt list.
- `Turns`: stored rows, prompt entries and the uploaded-file manifest added
  to a user prompt.
- `Relay`: the server-sent-events parser of the completion stream. There are
  two versions: the per-read parser as written, and a line-framed parser
  (see Findings).
- `Think`: how an assistant message is split into visible text and
  `<think>` reasoning.
- `DocumentList`: search, type tabs and pagination of the knowledge-base
  page.
- `InputArea`: the bounded attachment list, the submit guard, the Enter key
  and the palette shortcut of the chat input.
- `ChatPage`: the chat page's submit handler, as a method whose loop reads
  the reply chunk by chunk.
- `RagStore`, `Ingest`, `DocumentAccess`: the per-user storage directory,
  listing statistics, upload and authorised delete; the ingestion job's
  status outcome; the key-checked download.
- `Strings`, `Ascii`, `Php`, `Js`, `Laravel`, `Lists`, `Documents`: the language
  semantics the code relies on, and shared records:
  - PHP `trim`, `empty`, `explode`, `implode`, `strtolower` and `basename`;
  - JavaScript `slice`, `trim` and `toLowerCase`;
  - Laravel's `required` rule;
  - order-preserving filtering.

Two conventions recur below:

- PHP's `empty` and truthiness treat both `""` and `"0"` as false. The model
  follows this in every place the code relies on it: the fallback file name,
  dropped deltas, the save-if-non-empty decision, the storage directory for
  a type, the ingestion job's contents test and the access secret.
- The clock, the storage disk's URL, the upstream HTTP response, the JSON
  decoding of a stream payload and the generated ids are parameters.

## Model

| member | source | states |
|---|---|---|
| Interaction.HandleInteraction | app/Http/Controllers/InteractionController.php:34-50 | A request whose chatId or prompt fails `required` is answered 422 "Invalid request."; a valid one whose chat is missing or whose role is an explicit null is answered 500 "Failed to save your message."; every other request is accepted. |
| Interaction.HandleInteractionAsWritten | app/Http/Controllers/InteractionController.php:44-50 | With the save as written, an invalid request is answered 422 and every valid request is answered 500 "Failed to save your message.": no turn is ever accepted. |
| Interaction.TurnIsRespond | app/Http/Controllers/InteractionController.php:97-108 | On an accepted turn, the saved user row has the next id, the role as `input('role', 'user')` reads it (the default only for an absent key), the prompt and no attachments; the chat is retitled; the turn then continues with the reply relay from that saved state. |
| Interaction.Respond | app/Http/Controllers/InteractionController.php:208-221 | After the relay, the messages are unchanged or gain exactly one assistant row whose content is the text the client received; a row is added iff the upstream streamed and that text is non-empty; titles are untouched. |
| Interaction.RespondAppends | app/Http/Controllers/InteractionController.php:211-216 | The reply step keeps the existing rows as a prefix and adds at most one row, the assistant's, with the chat id and the relayed text. |
| Interaction.AcceptedTurn | app/Http/Controllers/InteractionController.php:44-89 | An accepted turn ends with the old rows, then the user row, then, exactly when a non-empty reply was streamed, one assistant row holding the relayed text; the chat's title is the prompt's title. |
| Interaction.UpstreamPrompt | app/Http/Controllers/InteractionController.php:80-84 | A prompt list is sent iff the request is accepted; it has 2 to 22 entries, opens with the system instruction and ends with the new prompt undecorated, since the saved message has no attachments. |
| Persistence.SaveUserMessage | app/Http/Controllers/InteractionController.php:99-108 | With the `attachments` relation declared, the save succeeds iff the role is not an explicit null and the chat exists; a null role is reported as such. A successful save appends exactly one row with the next id, the chat id, the prompt, the request time, the role defaulting to "user" for an absent key and, as attachments, exactly the URLs the attachment loop records; it sets the chat's title from the prompt. |
| Persistence.SaveTransaction | app/Http/Controllers/InteractionController.php:99-133 | The transaction over a message model with a given set of relations succeeds iff the role is not null (the column is NOT NULL), the chat exists and `attachments` is a declared relation; when only the relation is missing, the failure is that relation. A failure carries no database: everything rolls back. A saved row holds the request time and exactly the recorded attachment URLs. |
| Persistence.SaveUserMessageAsWritten | app/Http/Controllers/InteractionController.php:131 | With the relations the message model declares (only `chat`), every save fails, and a save that passes the role and chat checks fails on the missing `attachments` relation. |
| Persistence.SavedAttachmentNames | app/Http/Controllers/InteractionController.php:110-142 | The attachments of a saved message, read back with `basename` as the prompt decoration does, are exactly the reference list of stored names of its uploads, in order. |
| Persistence.TitleIsPrefix | app/Http/Controllers/InteractionController.php:106-107 | The title is a prefix of the content; it is the whole content iff the content has at most two spaces, and otherwise contains exactly two spaces. |
| Persistence.TitleOfWords | app/Http/Controllers/InteractionController.php:106-107 | A content of three space-free words followed by a space and anything is titled by exactly those three words. |
| Persistence.Sanitize | app/Http/Controllers/InteractionController.php:114 | Sanitising keeps the length, keeps every character of `[a-zA-Z0-9_.-]` and replaces every other one by '_'. |
| Persistence.SanitizeIdempotent | app/Http/Controllers/InteractionController.php:114 | Sanitising twice is sanitising once, and a name is unchanged iff all its characters are allowed. |
| Persistence.StoredFileName | app/Http/Controllers/InteractionController.php:113-117 | The stored name is the sanitised name unless that is PHP-empty, in which case it is `file_<time>.<guessed extension>`. |
| Persistence.FallbackIff | app/Http/Controllers/InteractionController.php:115-117 | The fallback name is used exactly for the client names "" and "0". |
| Persistence.StoredFileNameIsSafe | app/Http/Controllers/InteractionController.php:113-119 | A stored name is never PHP-empty, never contains '/', and for an extension of allowed characters consists only of allowed characters. |
| Persistence.StoreAttachments | app/Http/Controllers/InteractionController.php:110-129 | At most one URL is recorded per file. Each lies inside the message's public directory `<disk URL>/public/attachments/<message id>/`, or is the disk's root URL `Storage::url(false)` for a write that returned `false`. |
| Persistence.AttachmentNamesRoundTrip | app/Http/Controllers/InteractionController.php:110-142 | Reading the recorded URLs back with `basename`, as the prompt decoration does, gives in upload order: the stored name of each written file, and the base name of the disk root for each write that returned `false`. A file whose storage threw is skipped and the rest are still stored. |
| Persistence.UrlBaseName | app/Http/Controllers/InteractionController.php:141 | The base name of an attachment URL is the stored file name. |
| Php.BaseNameOfChild | app/Http/Controllers/InteractionController.php:141 | `basename(dir . "/" . name)` is `name` for a non-empty name without '/'. |
| Turns.FileNames | app/Http/Controllers/InteractionController.php:140-142 | The manifest lists the base name of every attachment URL, one per attachment, in order. |
| Turns.FormatPrompt | app/Http/Controllers/InteractionController.php:136-146 | A prompt without attachments is unchanged; with attachments it starts with the upload preamble and ends with the lead-in followed by the user's text. |
| Turns.ManifestRoundTrip | app/Http/Controllers/InteractionController.php:140-143 | A manifest of comma-free names, joined by ", ", reads back as exactly those names. |
| Turns.FormatPromptListsFiles | app/Http/Controllers/InteractionController.php:139-143 | The part of a decorated prompt between the preamble and the lead-in lists the attachments' base names in order. |
| History.Eligibles | app/Http/Controllers/InteractionController.php:53-54 | The query keeps each message of the same chat with a smaller id as often as the table holds it, and nothing else. |
| History.Window | app/Http/Controllers/InteractionController.php:53-59 | The window holds at most 20 messages, all of the same chat with a smaller id, in ascending (created_at, id) order. |
| History.WindowIsNewest | app/Http/Controllers/InteractionController.php:53-59 | The window holds min(20, eligible) messages drawn from the eligible ones, and no eligible message left out is newer than any kept. |
| Sorting.SortDesc | app/Http/Controllers/InteractionController.php:55-56 | Sorting is a permutation into descending key order. |
| Sorting.NewestPrefix | app/Http/Controllers/InteractionController.php:55-57 | The first k of a descending list are a sub-multiset, and every element after them is no newer than any of them. |
| Sorting.ReverseDescending | app/Http/Controllers/InteractionController.php:59 | Reversing a descending list gives an ascending one. |
| History.CollapseFrom | app/Http/Controllers/InteractionController.php:61-78 | The collapsed history is no longer than the window and has no system entry. |
| History.CollapseIsFirstOfRun | app/Http/Controllers/InteractionController.php:61-78 | The loop with `lastRole` equals the positional rule: a message is kept iff it is an assistant or tool message, or a user message not directly after a user message; a message of another role is dropped but still counts as the previous role. |
| History.CollapseNoAdjacentUsers | app/Http/Controllers/InteractionController.php:63-66 | When every role is user, assistant or tool, the collapsed history has no two user entries in a row. |
| History.UnknownRoleSeparatesUsers | app/Http/Controllers/InteractionController.php:63-77 | Without that restriction it fails: user, system, user collapses to two adjacent user entries. |
| History.ComposePrompt | app/Http/Controllers/InteractionController.php:80-84 | The prompt list is the system instruction, the history unchanged, then the decorated new prompt, two entries more than the history. |
| History.BuildPromptShape | app/Http/Controllers/InteractionController.php:80-84 | The assembled list has 2 to 22 entries, exactly one system entry (the first), and ends with the decorated new prompt. |
| History.BuildPromptNoAdjacentUsers | app/Http/Controllers/InteractionController.php:61-84 | Before the new prompt, the assembled list has no two user entries in a row when the window's roles are all known. |
| Relay.Classify | app/Http/Controllers/InteractionController.php:185-197 | A line without the "data: " prefix is ignored; a line stops the relay iff its trimmed payload is "[DONE]"; it emits iff it is a data line whose trimmed payload is not the sentinel and decodes to a `delta.content` that is not PHP-empty, and then the emitted delta is exactly that content. |
| Relay.RelayLines | app/Http/Controllers/InteractionController.php:184-205 | The line loop's buffer is always the in-order concatenation of the echoed deltas, none PHP-empty, and there is at most one delta per line. |
| Relay.FirstStop | app/Http/Controllers/InteractionController.php:188-190 | The position of the first line whose trimmed payload is "[DONE]": no earlier line is a sentinel, and the line there is one unless there is none. |
| Relay.RelayLinesIsDeltasBeforeStop | app/Http/Controllers/InteractionController.php:184-205 | The line loop echoes exactly the deltas of the lines before the first sentinel, in order, and reports a stop iff some line is a sentinel. |
| Relay.Parse | app/Http/Controllers/InteractionController.php:179-206 | The chunk loop as written keeps the buffer equal to the concatenation of the echoed deltas. |
| Relay.ParseIsLineRelay | app/Http/Controllers/InteractionController.php:179-205 | As written, the chunk loop is the line loop over each chunk's own split at "\n", chunk after chunk. |
| Relay.StopsAtSentinel | app/Http/Controllers/InteractionController.php:188-190 | Nothing after a sentinel line affects the result, and the result is marked stopped. |
| Relay.ParseIgnoresRestAfterStop | app/Http/Controllers/InteractionController.php:188-190 | Once the chunks read so far produced a sentinel, later chunks change nothing. |
| Relay.IgnoresNonDataLines | app/Http/Controllers/InteractionController.php:185 | Dropping every line that lacks the "data: " prefix does not change the result. |
| Relay.ZeroDeltaIsDropped | app/Http/Controllers/InteractionController.php:195 | A delta of exactly "0" is neither echoed nor buffered. |
| Relay.ConcatOfNonEmpty | app/Http/Controllers/InteractionController.php:195-208 | Concatenated non-empty, non-"0" deltas are never "0", and are "" iff there are none. So the save test `!empty($contentBuffer)` is "something was echoed". |
| Relay.StreamAIResponse | app/Http/Controllers/InteractionController.php:167-221 | As written: a failed upstream emits exactly the failure text and saves nothing; otherwise the output is the line relay over each read's own lines, read after read, and a reply is saved iff that output is non-empty, with content exactly the concatenated output. |
| Relay.StreamFramed | app/Http/Controllers/InteractionController.php:167-221 | The corrected relay: the same failure and save behaviour, but the output is the line relay of the whole body's text, whatever the reads. |
| Relay.OneReadLine | app/Http/Controllers/InteractionController.php:180-183 | A line that arrives whole in one read is classified as a whole. |
| Relay.SplitLineIsLost | app/Http/Controllers/InteractionController.php:180-186 | As written, a data line whose payload arrives in a later read than its "data: " prefix relays nothing. |
| Relay.SplitSentinelIsMissed | app/Http/Controllers/InteractionController.php:183-189 | As written, a "[DONE]" line split after its prefix does not stop the relay, though the same line in one read does. |
| Relay.FramedChunkIndependent | app/Http/Controllers/InteractionController.php:179-206 | The framed parser's result depends only on the body's text: any two chunkings of the same text give the same deltas, buffer and stop. |
| Relay.FramedRecoversSplitLine | app/Http/Controllers/InteractionController.php:179-186 | With framing, a line split across two reads is classified as if it had arrived in one read. |
| Think.SplitThoughts | resources/js/components/Message.tsx:62-92 | Non-assistant messages, and content without "<think>", render unchanged with no reasoning; "thinking" only while an assistant reply streams; visible plus reasoning text is never longer than the content. |
| Think.CloseFollowsOpen | resources/js/components/Message.tsx:69-72 | The closing tag found by searching from the opening tag lies after the whole opening tag. |
| Think.ClosedBlockRoundTrip | resources/js/components/Message.tsx:69-79 | For `before + "<think>" + t + "</think>" + after` with no opening tag in `before` and no closing tag in `t`, the visible text is `before + after`, the reasoning is `t`, and not thinking. |
| Think.UnclosedBlock | resources/js/components/Message.tsx:80-90 | An unclosed block: while streaming, `before` is visible and the rest is reasoning in progress; once complete, the text after the tag is shown and `before` is dropped. |
| Think.MessageControls | resources/js/components/Message.tsx:115-150 | The copy button is shown iff the message is not thinking and copies the visible text; the "reasonings" toggle is shown only for a complete assistant reply. |
| Think.ClosedBlockControls | resources/js/components/Message.tsx:119-150 | For a closed block, the toggle is shown iff the reply is complete and the reasoning is not blank, and the copy button copies the text around the block. |
| Think.UnclosedBlockControls | resources/js/components/Message.tsx:119-150 | While a streaming reply is inside an unclosed block neither control is shown; once complete the toggle stays hidden and the copy button copies the text after the opening tag. |
| DocumentList.FilteredIsSearch | resources/js/pages/RagUpload.tsx:138-142 | The empty-term shortcut agrees with filtering: the searched list is always the documents whose lower-cased name contains the lower-cased term, in order. |
| DocumentList.BucketIsSelection | resources/js/pages/RagUpload.tsx:144-150 | Every tab shows an order-preserving selection of the documents: each copy of a document matching the search and the tab, and nothing else. |
| DocumentList.SearchAndTabCommute | resources/js/pages/RagUpload.tsx:144-150 | Searching then picking a type tab equals picking the tab then searching. |
| DocumentList.UpperCaseImageType | resources/js/pages/RagUpload.tsx:149-205 | A document of type "PNG" gets an image preview but is not listed under the images tab. |
| DocumentList.TotalPages | resources/js/pages/RagUpload.tsx:160-163 | `Math.ceil(n / k)` is the least r with n <= r * k. |
| DocumentList.Page | resources/js/pages/RagUpload.tsx:153-158 | A page has at most k items; a page starting past the end is empty; otherwise it is the slice from (page - 1) * k of up to k items. |
| DocumentList.PagesCoverList | resources/js/pages/RagUpload.tsx:153-163 | Concatenating pages 1 to totalPages gives the whole list once, in order. |
| DocumentList.ChangePage | resources/js/pages/RagUpload.tsx:199-203 | The page changes iff the requested page is between 1 and totalPages; otherwise the state is unchanged. |
| DocumentList.PageStaysInRange | resources/js/pages/RagUpload.tsx:165-167 | From the initial state, page changes and changes of term, tab or view (which reset to page 1) keep the page in range; an in-range page of a non-empty list is never empty. |
| InputArea.AddFiles | resources/js/components/Input-area.tsx:64-85 | Existing files are kept; with no pick or five attached nothing changes; otherwise the first min(picked, 5 - attached) picked files are appended in order. |
| InputArea.RemoveAt | resources/js/components/Input-area.tsx:87-94 | Exactly the file at the index goes; the others keep their order. |
| InputArea.RemoveUndoesAdd | resources/js/components/Input-area.tsx:73-94 | Removing a file just attached restores the list, and a removal loses one copy of the removed file and nothing else. |
| InputArea.Submit | resources/js/components/Input-area.tsx:105-119 | A submission happens iff the trimmed text is non-empty or a file is attached; it carries the untrimmed text and the files, or none when there are none; the input and files are cleared and, on a wide screen, the palette closes; otherwise nothing changes. |
| InputArea.KeyDown | resources/js/components/Input-area.tsx:96-103 | Enter without Shift submits under the same guard; any other key, or Shift+Enter, changes nothing. |
| InputArea.GlobalKey | resources/js/components/Input-area.tsx:40-47 | On a wide screen Ctrl+K or Cmd+K toggles the palette and Escape closes it; nothing else changes it, and on a narrow screen nothing does. |
| InputArea.ShortcutInvolution | resources/js/components/Input-area.tsx:40-47 | Pressing Ctrl+K or Cmd+K twice restores the palette, and pressing Escape twice is pressing it once. |
| InputArea.BoundedPreserved | resources/js/components/Input-area.tsx:64-119 | Adding, removing, submitting and key presses all keep at most five files attached. |
| ChatPage.HandleSubmit | resources/js/pages/Chat.tsx:16-91 | A submit appends the user message, then exactly one assistant message: the concatenated chunks on success, the apology on any failure. Every state shown while streaming holds the chunks read so far, a prefix of the final text. Afterwards nothing is streaming and the reserved id is cleared. |
| Laravel.RequiredIff | app/Http/Controllers/InteractionController.php:34-38 | A field passes `required` iff it holds a character `trim` keeps; "0" passes. |
| RagStore.UserRagPath | app/Http/Controllers/RagUploadController.php:15-19 | The directory is `rag_files/<uid>` for a PHP-falsy type and `rag_files/<uid>/<type>` otherwise. |
| RagStore.Create | app/Http/Controllers/RagUploadController.php:22-45 | The listing is the user's documents, each copy exactly once, newest first. |
| RagStore.StatsCountOwnDocuments | app/Http/Controllers/RagUploadController.php:27-44 | The statistics are the number of the user's documents and the sum of their sizes, whatever their order. |
| RagStore.Store | app/Http/Controllers/RagUploadController.php:49-68 | An upload is stored iff a file is present, its client extension (lower-cased and trimmed) is not one of PHP's, its guessed type is txt, pdf, docx, png, jpg or jpeg, and it is at most 10240 KB. It appends a record under the user's directory for the client extension, with status processing, and adds the file. |
| RagStore.StoreRefusesPhpExtension | app/Http/Controllers/RagUploadController.php:51-53 | A stored document's type is never a PHP extension in any letter case or with surrounding blanks, and an upload whose client extension is one is refused. |
| RagStore.StoreExtendsOwnList | app/Http/Controllers/RagUploadController.php:61-68 | An upload appends the new document to its uploader's list and leaves every other user's list alone. |
| RagStore.StoreUpdatesStats | app/Http/Controllers/RagUploadController.php:41-68 | After an upload, the uploader's document count is one higher and their storage total grows by the file's size. |
| RagStore.StoreLeavesOthersStats | app/Http/Controllers/RagUploadController.php:41-68 | Another user's upload leaves a user's statistics unchanged. |
| RagStore.Destroy | app/Http/Controllers/RagUploadController.php:75-99 | A path failing `required` is rejected; the document is looked up only among the caller's own; if its path does not start with the raw string `rag_files/<uid>` the delete is refused; otherwise exactly the first match's record and its file are removed. |
| RagStore.StorePreservesOwned | app/Http/Controllers/RagUploadController.php:57-68 | Uploads keep every document under its owner's directory. |
| RagStore.DestroyPreservesOwned | app/Http/Controllers/RagUploadController.php:84-99 | Deletes keep every remaining document under its owner's directory. |
| RagStore.OwnedNeverUnauthorized | app/Http/Controllers/RagUploadController.php:84-93 | On a store whose documents all lie under their owners' directories, a delete is never refused as unauthorised. |
| RagStore.OwnedRemoveAt | app/Http/Controllers/RagUploadController.php:99 | Removing one record keeps the others under their owners' directories. |
| RagStore.StoredPathOwned | app/Http/Controllers/RagUploadController.php:15-19 | A stored path begins with its uploader's directory. |
| RagStore.StoredPathRequired | app/Http/Controllers/RagUploadController.php:77-79 | A stored path always passes the delete request's `required` rule. |
| RagStore.StoreThenDestroy | app/Http/Controllers/RagUploadController.php:57-99 | Deleting a freshly uploaded document by its path restores the records and files exactly; only the id counter has moved. |
| RagStore.PrefixWithoutSeparator | app/Http/Controllers/RagUploadController.php:87 | For every user u >= 1 and digit d, the directory of user 10u + d passes user u's prefix test, so only the lookup among u's own documents keeps the check sound. |
| Ingest.Handle | app/Jobs/ProcessRagDocument.php:34-67 | Only the status changes and it ends completed or failed. It is completed iff the contents are truthy and the service succeeds. A request, with the document's name as source and file name and the contents, is sent iff the contents are truthy. |
| Ingest.RequestNamesOwner | app/Jobs/ProcessRagDocument.php:50 | The request's uid is all digits and reads back as the document's owner id. |
| DocumentAccess.Show | app/Http/Controllers/DocumentAccessController.php:13-25 | An unknown id is not found, before any key check. An existing one is forbidden iff the secret is falsy or the header differs. A served path is that of a document with the id, given a truthy secret equal to the header. |
| DocumentAccess.KeyDecidesAccess | app/Http/Controllers/DocumentAccessController.php:18-24 | With a falsy secret nothing is ever served; with a truthy one, the correct key obtains any existing document, whoever owns it. |
| DocumentAccess.ServesRequestedDocument | app/Http/Controllers/DocumentAccessController.php:15-24 | With unique ids and the correct key, exactly the requested document's path is served. |

## Left out

- The completion API and ingestion service calls become abstract outcomes: an upstream response that failed or streamed a list of chunks, and a success flag. Timeouts, headers, model parameters, `set_time_limit`, output buffering and `flush` are not modelled.
- JSON decoding of a stream payload is a parameter, a function from the trimmed payload to the optional `choices[0].delta.content` string. A `content` that is not a string is not modelled.
- `Relay.StreamAIResponse`: the exception path that echoes "An error occurred while processing your request." is not modelled; a failed save of the reply is only logged, so it does not change the relay either.
- `Interaction.HandleInteraction`: the body is re-wrapped as a new request with no files before saving (InteractionController.php:45), so the user message is saved without attachments. The attachment storage path is modelled on its own in `Persistence.StoreAttachments`.
- `Persistence.StoreAttachments`: which of the three outcomes storing a file has (written, write returned `false`, threw) is a parameter of the upload. The disk's `throw` setting and the file system are not modelled.
- `Interaction.HandleInteraction` models the turn as intended: it saves through `Persistence.SaveUserMessage`, with the `attachments` relation declared, and relays through `Relay.StreamFramed`, which frames lines across reads. The code as written is `Interaction.HandleInteractionAsWritten`, `Persistence.SaveUserMessageAsWritten` and `Relay.StreamAIResponse` (see Findings).
- With the relation declared, the stored message's `attachments` field holds the attachment URLs that `load('attachments')` and `$userMessage->attachments` read.
- `Persistence.SaveUserMessage`: the body's `date` field is not modelled; the row's date is the day of the request. A body whose `date` is an explicit null would also fail the NOT NULL insert. Roles are strings, so the `string` half of `nullable|string` never fails here.
- `Persistence.SaveTransaction`: when both the role is null and the chat is missing, the insert fails on either constraint; the model reports the null role. Either way the turn is answered 500.
- Framework input middleware (trimming strings, turning "" into null) is not modelled. Validation is `Laravel.Required` applied to the raw field. With that middleware, a role of "" would reach the insert as null and fail like an explicit null.
- `tool_call_id` and `name` are carried by stored messages but the table has no such columns; they are whatever the row holds.
- The ingestion job's `tries`, `backoff` and `fail()` retry machinery are not modelled; one run is one call of `Ingest.Handle`.
- `RagStore.Store`: a storage write that fails is not modelled; the storage layer's generated file name is a parameter. The client extension is a parameter, not derived from the client name.
- Route parameter conversion in `DocumentAccess.Show` is not modelled: ids are natural numbers.
- DocumentAccess has no ownership check: any holder of the key reads any document (`DocumentAccess.KeyDecidesAccess`). The key hard-coded in the client at RagUpload.tsx:176 and the preview fetching are not modelled.
- `Js.ToLower` lower-cases ASCII letters only. JavaScript's full Unicode case mapping is not modelled. PHP's `strtolower` (`Php.ToLower`) maps ASCII letters only, as from PHP 8.2.
- `formatBytes`, rendering, timers, object URLs, `isLoading` disabling the controls, drag and drop, and the media query are UI and are not modelled. The media query's result is the `isMobile` parameter.
- `ChatPage.HandleSubmit`: chunks are already-decoded text (no `TextDecoder`); ids and timestamps are parameters; the `files` argument InputArea passes is ignored by the page, as in Chat.tsx:16.
- After a delete the list page is not clamped again. `DocumentList.PageInRange` is shown to hold across the page controls for a fixed list only.
- Retrieval augmentation and knowledge-base formatting do not appear in the modelled controller, so they are not modelled.
- MessageController and ChatsController are plain CRUD and are not part of this model.

Two details of the code that are easy to misread:

- The fallback file name also fires for the client name "0", because PHP's `empty("0")` is true (`Persistence.FallbackIff`).
- The title is `explode(' ', …)`, which splits on single spaces, not on runs of whitespace, so doubled spaces produce empty words (`Persistence.TitleIsPrefix`).

## Findings

| source | as written | input that shows it | evidently intended | confidence | as-written member | corrected member |
|---|---|---|---|---|---|---|
| app/Http/Controllers/InteractionController.php:180-186 | each read of up to 8192 bytes is split at "\n" on its own, so a line spanning two reads is seen as two fragments | reads `data: ` and `{"choices":[{"delta":{"content":"hi"}}]}\n`: neither fragment is a data line with a decodable payload, so "hi" is lost | partial lines are buffered across reads, so a line is classified whole wherever the reads split it | not executed | Relay.SplitLineIsLost | Relay.FramedRecoversSplitLine |
| app/Http/Controllers/InteractionController.php:183-189 | the sentinel test sees only the fragment of a line inside one read | reads `data: ` and `[DONE]\n`: the relay does not stop at the sentinel, though the same bytes in one read stop it | the stream ends at the sentinel for any split of the body | not executed | Relay.SplitSentinelIsMissed | Relay.FramedChunkIndependent |
| app/Http/Controllers/InteractionController.php:131 | the saved message is reloaded with `load('attachments')`, but the message model (app/Models/Message.php) declares only the `chat` relation, so the reload throws inside the transaction and everything rolls back | any valid request for an existing chat, such as `{"chatId": <existing>, "prompt": "hi"}`: the turn is answered 500 "Failed to save your message." and nothing is stored | the message model declares an `attachments` relation, so the saved message is reloaded with its attachments and the turn goes on to the reply | not executed | Interaction.HandleInteractionAsWritten | Interaction.HandleInteraction |

The rest of the model uses the corrected definitions. `Interaction.HandleInteraction` saves through `Persistence.SaveUserMessage`, whose message model declares the `attachments` relation. It relays through `Relay.StreamFramed`, which runs `Relay.ParseFramed`. `Relay.StreamAIResponse` and `Relay.Parse` keep the per-read loop as written, with their properties above. `Persistence.SaveUserMessageAsWritten` keeps the failing save. As written, `$userMessage->attachments` is null for lack of the relation, so no prompt is ever decorated with a file list; the model decorates prompts as the intended relation would.
