# chat-pdf core, modelled in Dafny

chat-pdf lets a user upload a PDF, stores it, cuts its pages into chunks for
a vector index, and answers questions about it with page citations. This
project models the sequential logic of that application:

- **Chunking** (`chunk.dfy`, lib/chunk.ts): `chunkPagesToRag` as a method
  with the source's loop and `flush` closure. It is proved equal to a fold
  over the pages. Lemmas about the fold cover the chunk numbering,
  non-blank chunks, no page dropped, the overlap and flush decisions, and
  the page ranges.
- **Citations** (`citations.dfy`, components/ResponseWithCitations.tsx): the
  citation regex as a hand-written deterministic recogniser, proved sound
  and complete for the token language. The extraction loop fills the page
  set in the source's insertion order; the result is sorted into the
  citation list, and the tokens are cut out of the text.
- **Retry** (`retry.dfy`, lib/retry-utils.ts): option merging, the error
  classifier with its field precedence, and the attempt loop. The loop is
  proved equal to a recursive definition. Lemmas cover the invocation
  count, the result and the delay schedule.
- **LlamaParse** (`llamaparse.dfy`, lib/llamaparse.ts): page numbers of the
  parser's documents, the `# Page N` heading split of a single document
  (both directions: every section comes from a heading, and every heading
  with a non-empty body gives a section), the 2500-character fallback
  split, and the error funnel.
- **ChatRoute** (`chat_route.dfy`, app/api/chat/route.ts): request
  validation, the question taken from the last user message, the
  `[p.N]`-annotated context and the prompt, the error replies, and the
  retry options of the model call.
- **Database** (`database.dfy`, lib/database.ts): the `pdf_documents` table
  as a class holding a `map` from document id to row, with create, get,
  list (newest first), update and delete.
- **StatusDb** (`status_db.dfy`, lib/status-db.ts): the status value read
  from a row, and the status writes with their round trip.
- **Ingest** (`ingest.dfy`, lib/ingest.ts): saving an upload and the
  `parseAndIndex` status sequence over the table. Download, parse, embed
  and upsert are outcomes given as inputs, and so is the failure of each
  status write. For a row that is not ready beforehand, as the upload
  leaves it, the final status is `ready(N, N)` exactly when every step and
  every status write succeeded. When both the first status write and the
  error write fail, the row keeps the status it had before.
- `text.dfy` (module Text) holds the shared string helpers: JavaScript's
  whitespace set, `trim`, `\s+` collapsing, decimal digits and joining.
  `errors.dfy` (module Errors) holds the thrown values and the properties
  the application reads from them.

A citation range `[p.a-b]` puts every page from a to b into the page set, as
components/ResponseWithCitations.tsx:40-50 does. When b < a only a is
added. The resulting citation list marks no entry as a range: every entry is
a single page `[p.N]` with index 0. The model follows this code.

External services are inputs: the blob store, the PDF parser, the embedder,
the vector index and the language model. Each appears as the value it
returns or the error it throws. A failing SQL statement is a `fault`
parameter on each table operation; the operation then throws that error and
changes nothing.

## Model

| member | source | states |
|---|---|---|
| Text.Trim | lib/chunk.ts:28-30 | the trimmed text is empty exactly when the input is all whitespace, and otherwise starts and ends with a non-whitespace character |
| Text.TrimKeepsInfix | lib/chunk.ts:30 | the trimmed text is the infix after the leading whitespace, and it covers every non-whitespace character of the input |
| Text.TrimIdempotent | app/api/chat/route.ts:20 | trimming twice is trimming once |
| Text.IntToString | lib/chunk.ts:36 | `${n}` renders digits that read back as n, after a minus sign when n is negative |
| Text.Normalize | lib/llamaparse.ts:53 | the collapsed text is the input's words (maximal non-whitespace runs, `Words`) joined by single spaces, so every non-whitespace character survives in order and the ends are trimmed; its only whitespace is single spaces, and it is empty exactly when the input is blank |
| Chunking.Tail | lib/chunk.ts:41-42 | the overlap is the last min(overlapChars, length) characters of the buffer, and none when overlapChars ≤ 0 |
| Chunking.Flush | lib/chunk.ts:27-32 | a blank buffer pushes nothing and keeps the index; otherwise one chunk with id `docId-start-end-index`, the current range, the index and the trimmed buffer is appended and the index advances by one |
| Chunking.ChunkPagesToRag | lib/chunk.ts:15-54 | the loop's chunks are those of the fold over the pages that the lemmas below describe |
| Chunking.ChunksNumbered | lib/chunk.ts:25-32 | chunk k has chunkIndex k, the input docId, id `docId-pageStart-pageEnd-k`, and non-empty text equal to its trimmed buffer |
| Chunking.OpenBufferNotBlank | lib/chunk.ts:34-50 | once a page has been read the open buffer is never blank, so the final flush emits a chunk |
| Chunking.NoPagesNoChunks | lib/chunk.ts:21-53 | there are no chunks exactly when there are no pages |
| Chunking.NoPageDropped | lib/chunk.ts:34-53 | every page's whole block `[p.N]\n<text>\n\n` occurs in the buffer of some emitted chunk, and the last page's block ends the last chunk's buffer |
| Chunking.FlushDecisions | lib/chunk.ts:37-48 | a page joins the buffer of the page before exactly when the buffer with its block appended has at most targetChars characters, and then follows it directly; otherwise the previous buffer became a chunk and the new buffer starts with its last overlapChars characters followed by the page's block |
| Chunking.ChunkRanges | lib/chunk.ts:44-48 | the first chunk starts at the first page, each later one at the larger end of the range before (so starts never decrease), a chunk ends at the page that closed its buffer, and the last chunk ends at the last page |
| Chunking.OrderedRanges | lib/chunk.ts:44-45 | with strictly increasing page numbers, every chunk has pageStart ≤ pageEnd and starts where the chunk before it ended |
| Citations.MatchAtSound | components/ResponseWithCitations.tsx:21 | a match at position i is a well-formed token and the text from i to its end is exactly that token's spelling |
| Citations.MatchAtComplete | components/ResponseWithCitations.tsx:21 | every well-formed token spelled at position i is what the recogniser returns there, ending where the spelling ends |
| Citations.ScanRenders | components/ResponseWithCitations.tsx:25-51 | the left-to-right scan loses no character: its pieces spell the text back |
| Citations.CleanKeepsPlain | components/ResponseWithCitations.tsx:63 | removing the tokens never lengthens the text, and leaves it unchanged exactly when there is no token |
| Citations.PagesIffToken | components/ResponseWithCitations.tsx:25-51 | the cited page set is empty exactly when no token was found |
| Citations.CollectElems | components/ResponseWithCitations.tsx:17-51 | the collected page list has no duplicates and holds exactly the pages already present plus every page a token cites |
| Citations.AddEach | components/ResponseWithCitations.tsx:31-36 | each listed number is added to the set unless it is already there, in order |
| Citations.AddRange | components/ResponseWithCitations.tsx:46-48 | every page from the start to the end of the range is added, in increasing order |
| Citations.AddCite | components/ResponseWithCitations.tsx:28-50 | a token adds its listed numbers and then its range's pages |
| Citations.ExtractPageNumbers | components/ResponseWithCitations.tsx:17-51 | the exec loop's set, in insertion order, is the collection over the scanned pieces |
| Citations.Insert | components/ResponseWithCitations.tsx:54-55 | insertion adds exactly the one element to the multiset |
| Citations.Sort | components/ResponseWithCitations.tsx:54-55 | sorting is a permutation |
| Citations.InsertElems | components/ResponseWithCitations.tsx:54-55 | after insertion the elements are the old ones plus the new one |
| Citations.InsertAscending | components/ResponseWithCitations.tsx:54-55 | inserting a new element into a strictly ascending list keeps it strictly ascending |
| Citations.SortAscending | components/ResponseWithCitations.tsx:54-55 | a list without duplicates sorts into a strictly ascending list |
| Citations.SortElems | components/ResponseWithCitations.tsx:54-55 | sorting keeps exactly the same elements |
| Citations.CitationsOfSorted | components/ResponseWithCitations.tsx:54-60 | a sorted page list becomes citations that are strictly ascending, each `[p.N]` with index 0, and that list exactly the page set |
| Citations.ExtractCitations | components/ResponseWithCitations.tsx:16-69 | cleanText is the text with every token removed, and citations list exactly the cited pages, strictly ascending, each `[p.N]` with index 0 |
| Citations.NoCitationNoToken | components/ResponseWithCitations.tsx:72-74 | the citation list is empty exactly when the cleaned text is the original text |
| Citations.ShownIsClean | components/ResponseWithCitations.tsx:72-78 | the text rendered in either branch is the cleaned text |
| Citations.ListsOnePage | components/ResponseWithCitations.tsx:54-60 | a single cited page gives the single citation `[p.N]` with index 0 |
| Citations.MarkerCitesPage | components/ResponseWithCitations.tsx:21 | the chunker's `[p.N]` marker is one token citing N, and it vanishes from the text |
| Citations.ListNeedsPrefix | components/ResponseWithCitations.tsx:21 | `[p.3, 5]` is not a token: it cites nothing and stays in the text |
| Citations.ListOrRange | components/ResponseWithCitations.tsx:21 | `[p.3, p.5-7]` is not a token: it cites nothing and stays in the text |
| Citations.RepeatedPageCollected | components/ResponseWithCitations.tsx:31-36 | `[p.4][p.4]` cites {4}, collects 4 once and leaves no text |
| Citations.RepeatedPageOnce | components/ResponseWithCitations.tsx:54-60 | `[p.4][p.4]` gives the single citation `[p.4]` |
| Citations.RangeCitesEveryPage | components/ResponseWithCitations.tsx:40-50 | `[p.a-b]` cites exactly the pages a..b, collected in increasing order, and only a when b < a |
| Citations.RangeTokenWhole | components/ResponseWithCitations.tsx:21 | `[p.a-b]` is one range token covering the whole text |
| Retry.MergeDefaults | lib/retry-utils.ts:10-15 | without overrides the options are 5 attempts, 1000 ms, a 30000 ms cap and doubling |
| Retry.MergeOverrides | lib/retry-utils.ts:21-24 | a supplied option wins and every other keeps its default |
| Retry.IsRetryableError | lib/retry-utils.ts:65-66 | only an object can be retryable |
| Retry.RetryableNeedsField | lib/retry-utils.ts:65-92 | a retryable error carries at least one of statusCode, status, code and reason |
| Retry.StatusCodeDecides | lib/retry-utils.ts:69-72 | a present statusCode alone decides: retryable exactly when it is ≥ 500 or 429, and a value of another type exactly when it converts to a number ≥ 500 |
| Retry.StatusDecides | lib/retry-utils.ts:75-78 | without statusCode, a present status decides the same way |
| Retry.CodeDecides | lib/retry-utils.ts:81-84 | without either status, a present code decides: retryable exactly for ECONNRESET, ETIMEDOUT, ENOTFOUND and EAI_AGAIN |
| Retry.ReasonDecides | lib/retry-utils.ts:87-92 | otherwise reason decides: retryable exactly for maxRetriesExceeded and networkError |
| Retry.StatusCodeWinsOverStatus | lib/retry-utils.ts:69-78 | statusCode 400 with status 503 is final, while status 503 alone is retried |
| Retry.StringStatus | lib/retry-utils.ts:69-78 | a status sent as a numeric string is retried exactly when its number is ≥ 500, so "429" is not retried |
| Retry.ResumeRetry | lib/retry-utils.ts:45-58 | a retryable failure before the last attempt waits the current delay and continues with the grown delay |
| Retry.WithRetry | lib/retry-utils.ts:17-63 | the loop's result, invocation count and delays are those of the recursive definition over the merged options |
| Retry.RetryFromFacts | lib/retry-utils.ts:29-60 | at most the remaining attempts are used, all but the last invocation failed retryably, the last outcome is the result, stopping early means a success or a final error, and the delays follow the schedule |
| Retry.CallsBounded | lib/retry-utils.ts:26-62 | between one and maxAttempts invocations, and none, throwing undefined, when maxAttempts < 1 |
| Retry.StopsAtFirstFinal | lib/retry-utils.ts:29-38 | the first success or non-retryable error is what the caller gets, after k + 1 invocations and k delays |
| Retry.ExhaustedThrowsLast | lib/retry-utils.ts:41-62 | when every attempt fails retryably, the last error is thrown after maxAttempts invocations and maxAttempts − 1 delays |
| Retry.DelaysBounded | lib/retry-utils.ts:27-58 | the delays start at initialDelayMs, each is min(previous × multiplier, maxDelayMs), and none exceeds max(initialDelayMs, maxDelayMs) |
| Retry.TwoFailuresThenSuccess | lib/retry-utils.ts:29-58 | two 503s then a success, with 4 attempts: 3 invocations, the success, delays 1000 and 2000 ms |
| LlamaParse.FirstNumber | lib/llamaparse.ts:31-33 | a found page number is the numeric value of one of the keys |
| LlamaParse.CandidatePageNumber | lib/llamaparse.ts:28-35 | the page number is the first numeric value among `page`, `page_number` and `page_num`, and otherwise the 1-based position |
| LlamaParse.CandidateWithoutMetadata | lib/llamaparse.ts:29-34 | without metadata the page number is the 1-based position, and missing text becomes "" |
| LlamaParse.HeadingAt | lib/llamaparse.ts:42 | a heading starts at a newline and ends at the end of the text or before a non-word character |
| LlamaParse.HeadingDigits | lib/llamaparse.ts:42 | a heading's page number is a non-empty run of digits |
| LlamaParse.NextHeading | lib/llamaparse.ts:44 | the next match position lies between i and the end, and a heading starts there unless it is the end |
| LlamaParse.NextHeadingFirst | lib/llamaparse.ts:44 | no heading starts before the next match position |
| LlamaParse.NextHeadingNone | lib/llamaparse.ts:44 | without a heading ahead, the search reaches the end |
| LlamaParse.SectionsStep | lib/llamaparse.ts:44-48 | one match adds the page of its heading's number with its trimmed body, unless the body is blank, and the search continues at the next heading |
| LlamaParse.SectionsDone | lib/llamaparse.ts:44 | no further heading, no further section |
| LlamaParse.ExecOnce | lib/llamaparse.ts:44-48 | one `exec` step advances and yields the sections between the two positions |
| LlamaParse.HeadingSections | lib/llamaparse.ts:41-48 | the loop's sections are the heading split of the text |
| LlamaParse.StartsStep | lib/llamaparse.ts:44-48 | a match with a non-empty body yields its section and its start, and one with an empty body yields neither |
| LlamaParse.SectionStartsIncrease | lib/llamaparse.ts:44 | sections start at strictly increasing positions |
| LlamaParse.SectionsFromHeadings | lib/llamaparse.ts:38-49 | every section is the page of a heading in the text, in order of appearance, with a non-empty body that is already trimmed |
| LlamaParse.HeadingsDoNotOverlap | lib/llamaparse.ts:42 | a heading that does not follow a newline starts after the end of any earlier heading |
| LlamaParse.HeadingsAreSections | lib/llamaparse.ts:42-48 | from any start before it, a heading with a non-empty body that does not follow a newline is a section start |
| LlamaParse.EveryHeadingIsASection | lib/llamaparse.ts:38-49 | every such heading yields its page among the sections |
| LlamaParse.NoHeadingNoSections | lib/llamaparse.ts:42-49 | a text without headings has no sections |
| LlamaParse.HeadingOfPage | lib/llamaparse.ts:42 | `\n# Page N` followed by a non-word character is a heading for page N |
| LlamaParse.OneHeading | lib/llamaparse.ts:38-49 | a single heading for page N with a non-blank body gives the one page N with the trimmed body |
| LlamaParse.SlicesFacts | lib/llamaparse.ts:54-59 | the slices concatenate back to the text, each has 1 to 2500 characters, and there are ⌈length/2500⌉ of them |
| LlamaParse.FixedPagesFacts | lib/llamaparse.ts:55-58 | the fallback pages are numbered 1..n, each has 1 to 2500 characters, and together they spell the collapsed text |
| LlamaParse.FixedStep | lib/llamaparse.ts:56-57 | one loop step takes the next slice of at most 2500 characters |
| LlamaParse.FixedSplit | lib/llamaparse.ts:55-59 | the loop's pages are the fallback pages of the text |
| LlamaParse.ParseWithLlamaParse | lib/llamaparse.ts:11-76 | the function's result is the post-processing that the lemmas below describe |
| LlamaParse.MissingKeyFirst | lib/llamaparse.ts:12-15 | a missing or empty API key throws "LLAMA_CLOUD_API_KEY not set", whatever the parser would do |
| LlamaParse.NoContentFunnel | lib/llamaparse.ts:65-75 | a parser error and an empty result both end in "LlamaParse SDK did not return content" |
| LlamaParse.ManyDocsAsCandidates | lib/llamaparse.ts:38-63 | several documents are returned as their candidates, in order, each with its text |
| LlamaParse.SingleDoc | lib/llamaparse.ts:38-63 | one document gives its heading sections if any, otherwise the fallback pages when the collapsed text is longer than 2500, otherwise the candidate |
| LlamaParse.ShortDocUnchanged | lib/llamaparse.ts:52-63 | a short document without sections is returned unchanged and uncollapsed |
| LlamaParse.LongDocSliced | lib/llamaparse.ts:51-59 | a long document without sections becomes pages 1..n of at most 2500 characters that spell the collapsed text |
| ChatRoute.LastUserFinds | app/api/chat/route.ts:17 | the search finds the user message that no later user message follows |
| ChatRoute.LastUserThrows | app/api/chat/route.ts:17 | the search throws on a `null` it reaches before any user message |
| ChatRoute.LastUserNone | app/api/chat/route.ts:17 | with neither a user message nor a `null`, nothing is found |
| ChatRoute.LastUserError | app/api/chat/route.ts:17 | the only error the search throws is the one for reading `role` of `null` |
| ChatRoute.QuestionTrimmed | app/api/chat/route.ts:18-21 | a non-empty question starts and ends with non-whitespace, and one text part asks that text, trimmed |
| ChatRoute.MissingDocIdFirst | app/api/chat/route.ts:13 | a missing docId gives 400 "Missing docId" whatever else happens |
| ChatRoute.MissingMessages | app/api/chat/route.ts:14 | with a docId, the reply is 400 "Missing messages" exactly when messages is not an array or is empty |
| ChatRoute.MissingUserText | app/api/chat/route.ts:17-22 | the reply is 400 "Missing user text" exactly when the guards before pass and the question is empty |
| ChatRoute.NoUserMessage | app/api/chat/route.ts:17-22 | without a user message the reply is 400 "Missing user text" |
| ChatRoute.ThrownIs500 | app/api/chat/route.ts:79-82 | every 500 carries the thrown error's message, or "Chat failed" for a value that is not an Error |
| ChatRoute.Replies | app/api/chat/route.ts:10-83 | every reply is one of the three 400s, a 500 or the answer |
| ChatRoute.AnswerWhenAllSucceed | app/api/chat/route.ts:12-26 | an answer comes exactly when every guard passes and every service succeeds; it asks for the 8 nearest chunks of the request's document with the trimmed, non-empty question |
| ChatRoute.PromptLayout | app/api/chat/route.ts:60 | the prompt is `Context:\n`, the context, `\n\nQuestion: ` and the question, in that order |
| ChatRoute.ContextHoldsRecords | app/api/chat/route.ts:26 | each record's block appears in the context at its offset |
| ChatRoute.ContextSeparatesRecords | app/api/chat/route.ts:26 | a blank line `\n\n` precedes every block after the first |
| ChatRoute.BlockOffsets | app/api/chat/route.ts:26 | the first block starts the context, and each later one starts two characters after the end of the one before |
| ChatRoute.BlockAt | app/api/chat/route.ts:26 | a block is `\n[p.`, the page's digits, `]\n` and the record's text, and its digits read back as the record's page |
| ChatRoute.EmptyContext | app/api/chat/route.ts:26 | no records give the empty context |
| ChatRoute.GenerationRetries | app/api/chat/route.ts:65-76 | the model call is made one to four times with waits of at most 15000 ms, and four retryable failures throw the fourth error after waits of 2000, 4000 and 8000 ms |
| Database.PdfTable.constructor | lib/database.ts:21-48 | the table starts empty |
| Database.PdfTable.Create | lib/database.ts:51-67 | a new id inserts a processing row; an existing id throws the primary-key error; a fault is rethrown; nothing else changes |
| Database.PdfTable.Get | lib/database.ts:70-93 | the row for the id, null when absent, and a fault rethrown |
| Database.PdfTable.GetAll | lib/database.ts:96-119 | every row once, newest upload first, and a fault rethrown |
| Database.PdfTable.Update | lib/database.ts:122-147 | the table becomes the update of that one row, and a fault is rethrown with nothing changed |
| Database.PdfTable.Delete | lib/database.ts:150-173 | false and no change when absent; otherwise true with that row removed; a fault rethrown with nothing changed |
| Database.CreatedRow | lib/database.ts:58-61 | the new row has status processing, 0 processed pages, no total and no error, the given name, size, URL and upload time, and the other rows are untouched |
| Database.UpdateTouchesOnlyThatRow | lib/database.ts:132-140 | only that row changes, its status is the new one, its identity, name, size, URL and upload time are kept, and an unknown id changes nothing |
| Database.UpdateCoercions | lib/database.ts:136-138 | an empty error is stored as null, processed pages default to 0, and a total of 0 or none is stored as null |
| Database.UpdateIdempotent | lib/database.ts:132-140 | applying the same update twice is applying it once |
| Database.DeleteRemovesOnly | lib/database.ts:162-165 | only that row is removed, and an unknown id changes nothing |
| Database.InsertShape | lib/database.ts:111 | inserting a row puts it at its position and shifts the rows after it |
| Database.InsertOrdered | lib/database.ts:111 | inserting a row into a newest-first listing keeps it newest-first |
| Database.InsertIds | lib/database.ts:96-114 | the listing's ids gain exactly the inserted row's id |
| Database.InsertDistinct | lib/database.ts:96-114 | inserting a row with a new id keeps the ids distinct |
| Database.InsertMembers | lib/database.ts:96-114 | every row of the new listing is the inserted row or one already listed |
| Database.PartialStep | lib/database.ts:96-114 | moving one row from the rows still to list into the listing keeps the partial listing invariant |
| Database.DistinctIdsCount | lib/database.ts:96-114 | a listing with distinct ids has as many ids as rows |
| Database.ListingLength | lib/database.ts:96-114 | the listing has exactly as many rows as the table |
| StatusDb.StatusCases | lib/status-db.ts:41-96 | an unknown id reads "Document not found", a failed read "Failed to retrieve status", a ready row without a total reads 0, an error row without a message "Unknown error", the kind is the row's status, and meta is the row's name and upload time |
| StatusDb.GetStatus | lib/status-db.ts:41-96 | a read fault gives the "Failed to retrieve status" error status and is never thrown; otherwise the status of the stored row, or "Document not found" |
| StatusDb.SetStatus | lib/status-db.ts:99-119 | the row is written with the status's kind and progress, and a fault is rethrown with nothing changed |
| StatusDb.SetProcessing | lib/status-db.ts:122-133 | writes processing, defaulting to 0 processed pages and no total |
| StatusDb.SetReady | lib/status-db.ts:135-146 | writes ready with the given progress |
| StatusDb.SetError | lib/status-db.ts:148-161 | writes error with the message, defaulting to 0 processed pages and no total |
| StatusDb.WriteThenRead | lib/status-db.ts:99-114 | reading back a written status gives the read-back of that status over the row |
| StatusDb.RoundTrip | lib/status-db.ts:101-114 | a write then a read keeps the status, the processed pages and the total, except that a total of 0 reads back as none, and keeps a non-empty error message |
| StatusDb.MetaNotStored | lib/status-db.ts:99-114 | meta is never written |
| StatusDb.ErrorOnlyForFailed | lib/status-db.ts:110-114 | only an error status stores a message, and any other status clears it |
| StatusDb.ProcessingKeepsNewRow | lib/ingest.ts:29-40 | setting a freshly created row to processing(0, null) leaves the table as created |
| Ingest.SaveUploadedPdf | lib/ingest.ts:18-43 | succeeds exactly when initialisation, upload, creation and the status write succeed; each failure rethrows its own error; the row is created exactly when creation succeeds |
| Ingest.ParseAndIndex | lib/ingest.ts:45-91 | the result, the status writes and the records sent are those of the run over the step outcomes, and the table holds those writes applied in turn |
| Ingest.IndexPages | lib/ingest.ts:55-85 | after the first status write, the run continues as the whole run prescribes |
| Ingest.EmbedAndUpsert | lib/ingest.ts:64-85 | after the page count is written, the run continues as the whole run prescribes |
| Ingest.RecordFailure | lib/ingest.ts:86-90 | the catch writes error(message, 0, null) and rethrows, or throws the write's own error when that write fails |
| Ingest.FailsBeforeParse | lib/ingest.ts:47-58 | a failure before the pages are parsed ends in the catch with the writes made so far |
| Ingest.CountFails | lib/ingest.ts:62 | a failed page-count write ends in the catch after the first write |
| Ingest.FailsAfterParse | lib/ingest.ts:64-89 | a failure of embedding, of building the records, of the upsert or of the ready write ends in the catch after both processing writes |
| Ingest.AllSucceed | lib/ingest.ts:45-85 | when every step succeeds the result is {docId, N} after processing(0, null), processing(0, N) and ready(N, N) |
| Ingest.AppliedSnoc | lib/ingest.ts:48-88 | applying one more write is writing that status over the table so far |
| Ingest.LastWriteWins | lib/ingest.ts:48-88 | after a sequence of writes, the row holds the last write and other rows are untouched |
| Ingest.SuccessWrites | lib/ingest.ts:48-85 | a successful run returns {docId, N}, writes processing(0, null), processing(0, N), ready(N, N), and sends one record per chunk |
| Ingest.FailureWrites | lib/ingest.ts:86-89 | a failed run throws, its writes are the progress so far plus error(message, 0, null) unless that write failed, and none of them is ready |
| Ingest.OutcomeFails | lib/ingest.ts:86-89 | unless every step succeeds, the outcome is a failure with those writes |
| Ingest.ProgressShape | lib/ingest.ts:48-62 | the progress writes are processing(0, null) and then processing(0, N), as far as each write succeeded |
| Ingest.FailureRethrows | lib/ingest.ts:86-89 | each failing step's own error is rethrown: a status write, the download (with its status text), parsing, embedding, a missing vector, the upsert |
| Ingest.ReadyOnlyIfAllSucceeded | lib/ingest.ts:45-91 | after every step and write succeeds, the stored status reads ready(N, N). After a failure it reads error with 0 pages and no total, or processing with 0 pages when the error write fails, or the status the row had before when the first write fails too. Ready is therefore read exactly when all succeeded, unless both of those writes fail |
| Ingest.ReadyIffAllSucceeded | lib/ingest.ts:45-91 | for a row that is not ready before ingestion, as the upload leaves it, the stored status reads ready exactly when every step and every status write succeeded |
| Ingest.LastWriteRead | lib/status-db.ts:41-87 | a ready(N, N), processing or error(0, null) write reads back with the same kind and progress |
| Ingest.FinalStatus | lib/ingest.ts:48-88 | the status read after the writes is the read-back of the last write |
| Ingest.RecordsFollowChunks | lib/ingest.ts:68-81 | there is one vector record per chunk, in chunk order, copying the chunk's fields and taking the embedding's vector, exactly when there are enough embeddings |

## Left out

- Chunking.ChunkPagesToRag: lengths count characters, whereas JavaScript counts UTF-16 code units. For text outside the Basic Multilingual Plane the source flushes earlier, and its overlap slice can split a surrogate pair.
- Chunking.Tail: counts characters, not UTF-16 code units.
- LlamaParse.Slices: cuts after 2500 characters, not 2500 UTF-16 code units. A single document of 1300 emoji is one page in the model but two in the source, and the source can split a surrogate pair.
- Citations.AddRange: page numbers are unbounded naturals. The source stores them in a JavaScript `Set`, which throws a RangeError past its size limit on a huge range such as `[p.1-99999999]`. Its `page++` loop never ends at an end page of 2^53 or more.
- Citations.ExtractCitations: `parseInt` rounds page numbers above 2^53, and `[p.${n}]` renders a number of 10^21 or more as `1e+21`; the model keeps exact digits.
- Chunking.Marker: writes every digit of the page number, where JavaScript renders 10^21 and above in exponent form.
- ChatRoute.Block: writes every digit of `pageStart`, where `${r.pageStart}` renders 10^21 and above in exponent form; the model's page numbers are integers, so a non-integer page printed as a decimal is not modelled.
- LlamaParse.Candidate: metadata page numbers are integers. `Number(match[1])` in the heading split is exact, whereas JavaScript rounds above 2^53.
- Retry.Merge: an override that is present but `undefined` (`{maxAttempts: undefined}`) replaces the default in the source, so the loop never runs and `undefined` is thrown. The model treats it as absent.
- Retry.WithRetry: options are integers. A fractional maxAttempts such as 2.5 never equals the attempt number, so the source sleeps after its last attempt. A fractional multiplier gives fractional delays, and NaN options are not modelled.
- Retry.WithRetry: the jitter (`Math.random`), the `setTimeout` sleep and the development logging are left out. Delays are the base delays before jitter.
- Retry.IsRetryableError: a status is an integer, or a value of another type with the number it converts to. A fractional numeric status and other `in` checks on non-plain objects are not modelled.
- `createRetryableOperation` (lib/retry-utils.ts:95-109) only wraps `withRetry` and logs; it is not modelled.
- ChatRoute.Post: the embedding, vector query and model call are outcomes given as inputs. `generation` is the error that remains after the retries; GenerationRetries states the retry schedule separately. The streamed answer, the system prompt, `convertToModelMessages` and the response encoding are not modelled.
- ChatRoute.Post: a truthy non-string docId, and `String()` of a non-string `text` part, are not modelled: docId and text are strings or absent.
- LlamaParse.ParseWithLlamaParse: the temporary file, its write and its removal in `finally`, the reader itself and the logging are outside the model. The reader's result or error is an input, and `String()` of a non-string text is not modelled.
- Database.PdfTable: SQL column limits, the `updated_at` timestamp from `NOW()`, the table and index creation in `initializeDatabase` and `testDatabaseConnection` are not modelled. The upload time is given data.
- StatusDb: `clearStatus` (lib/status-db.ts:163-173) only calls the table's delete, which is modelled; the logging is left out.
- Ingest.SaveUploadedPdf: the document id is an input rather than a fresh UUID, and the upload time is an input rather than the clock.
- Ingest.ParseAndIndex: the blob download, the PDF parser, the embedder and the vector upsert are outcomes given as inputs; the chunker is the modelled one with its defaults.
