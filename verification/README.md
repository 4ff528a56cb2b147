# rag-governance: the keyword-retrieval pipeline and its question-answering decisions

This Dafny project models the core of the rag-governance document assistant. It has two halves.

The retrieval pipeline:

- the keyword tokenizer and its two scores (`tokenize`, `calculateKeywordScore`, `calculateOverlap`);
- the Markdown paragraph chunker with its paragraph addresses (`chunkDocument`, `generateParagraphId`, `parseDocumentIdFromParagraphId`);
- top-k retrieval (`retrieveTopK`, `retrieveTopKFromDocument`);
- the corpus builder (`useDocumentChunking`, `useAllDocumentsChunking`).

The decision logic wrapped around the pipeline:

- the `POST` handler of the question-answering endpoint: input checks, citation filter, error mapping, history window;
- the `askQuestion` hook: override chunks or retrieval, and the no-evidence short cut;
- the chat panel's send guard, history, tour selection and citation lookup.

Every operation is a pure function over immutable datatypes. The effects become parameters:

- The model call in the endpoint is a `ModelOutcome`.
- The answering service behind the hook is a `ServiceOutcome`.
- `onAskQuestion` in the panel is an `AskOutcome`.

Each result records the call that would have been made, as an `Option`. So "the model is not called" is a statement about the result.

Modules, in dependency order:

| module | file | models |
|---|---|---|
| `Wrappers` | wrappers.dfy | `Option` |
| `Seqs` | seqs.dfy | filter, JS `slice(0, k)`, de-duplication, subsequences |
| `Text` | text.dfy | JS whitespace, `trim`, `split('\n')`/`join('\n')`, `split(/\s+/)`, decimal numerals |
| `ParagraphIds` | paragraph_ids.dfy | `{documentId}-p{index}` and its parser |
| `Tokenizer` | tokenizer.dfy | tokens, keyword score, Jaccard overlap |
| `Chunking` | chunking.dfy | the heading test and the fold over lines |
| `Retrieval` | retrieval.dfy | scoring, threshold, stable descending sort, top-k |
| `Corpus` | corpus.dfy | the corpus of all documents |
| `QaTypes` | qa_types.dfy | citations, responses, the fixed answers |
| `QaRoute` | qa_route.dfy | the endpoint |
| `QaService` | qa_service.dfy | the hook |
| `QaPanel` | qa_panel.dfy | the chat panel |

## Modelling choices

- **Whitespace** is the ECMAScript WhiteSpace and LineTerminator set, which `\s` and `trim` use. **Line terminators**, which `.` does not match, are `\n`, `\r`, U+2028 and U+2029.
- **Lower-casing** is ASCII only. **CJK ideographs** are U+4E00–U+9FFF.
- **`.length`** is the UTF-16 length: a character outside the Basic Multilingual Plane counts 2. This matters for the minimum paragraph length.
- **Scores** are exact reals (matched weight divided by total weight). **`k`** is an integer with `slice(0, k)` semantics, so a negative `k` counts from the end.
- **The sort** is a stable insertion sort, because `Array.prototype.sort` is stable. Stability is stated as: for every score, the chunks with that score keep their input order.
- **The heading regex** is `/^#{1,6}\s+(.+?)$/`, without the `m` flag. It is modelled as the backtracking search it performs:
  - `\s+` is greedy and may cross a newline;
  - the lazy group must reach the end of the input without a line terminator;
  - the title is the group, trimmed.
- **The parser's regex** is `/^(.+?)-p\d+$/`. It is modelled as the lazy search for the shortest group after which `-p<digits>` runs to the end. The group cannot cross a line terminator.
- **The panel's stale closure.** `handleSendMessage` reads `messages` from the render that created it, while its `setMessages` updates apply to the current conversation. `Send` therefore takes both: the panel state `p` the render saw, and the conversation `current` the updates apply to. `handleStartTour` resets the conversation and then calls the same render's `handleSendMessage`. So the tour asks with the history from before the reset, while the reply is shown under the tour's opening message (`QaPanel.StartTourSpec`). A send is modelled as one step that finishes before any other handler runs. In the source, the user message is appended before the `await` (src/components/documents/AIQAPanel.tsx:103-106) and the reply after it (line 148), so an update landing in between would separate the two. The rendered panel makes that unlikely but does not rule it out: it hides the tour button and disables the input while a send is loading (lines 237 and 300).

## Where the comments and the code disagree

The model follows the code in each case:

- **Minimum length.** `chunkDocument` drops paragraphs shorter than 10 UTF-16 units (src/lib/rag/chunking.ts:47). The comment at line 24 says 20.
- **Default threshold.** `retrieveTopK` uses 0.05 (src/lib/rag/retrieval.ts:27). The comment at line 20 says 0.1.
- **Short headings.** The length filter runs before the heading test. So a short heading such as `## 總則` (five characters) is dropped and leaves the section title unchanged (`Chunking.ShortParagraphDropped`).
- **A heading is its own section.** A heading paragraph is kept as a chunk, and its own `sectionTitle` is its title, because the title is updated before the push.
- **A larger query can score lower.** Adding a token to a query does not always keep or raise the keyword score, because the score is normalised by the query's total weight. `Tokenizer.KeywordScoreQueryExtension` states which way each kind of extra token moves the score. `Tokenizer.SupersetQueryCanScoreLower` is a concrete pair where the score falls from 1 to 1/2.

## Where each source function is modelled

The operations themselves are plain functions. What each one promises is stated by the lemmas in the next section, so the table there lists the lemmas and this list maps each source function to its Dafny definition:

- `calculateKeywordScore` (src/lib/rag/tokenizer.ts:44-60) is `Tokenizer.KeywordScore`.
- `calculateOverlap` (src/lib/rag/tokenizer.ts:32-39) is `Tokenizer.Overlap`.
- `chunkDocument` (src/lib/rag/chunking.ts:27-137) is `Chunking.ChunkDocument`.
- `generateParagraphId` (src/lib/rag/chunking.ts:145-147) is `ParagraphIds.ParagraphId`.
- `parseDocumentIdFromParagraphId` (src/lib/rag/chunking.ts:152-155) is `ParagraphIds.ParseDocumentId`.
- `retrieveTopK` (src/lib/rag/retrieval.ts:23-53) is `Retrieval.RetrieveTopK`.
- The citation filter in `POST` (src/app/api/qa/route.ts:92-95) is `QaRoute.ValidateCitations`.
- The history window in `buildUserPrompt` (src/app/api/qa/route.ts:196-205) is `QaRoute.HistoryWindow`.
- The tour selection in `handleStartTour` (src/components/documents/AIQAPanel.tsx:74-82) is `QaPanel.TourChunks`.
- `handleStartTour` (src/components/documents/AIQAPanel.tsx:59-85) is `QaPanel.StartTour`.

## Model

| member | source | states |
|---|---|---|
| Tokenizer.CleanChars | src/lib/rag/tokenizer.ts:14 | after cleaning, every character is a lower-case ASCII letter, digit, `_`, whitespace or CJK ideograph |
| Tokenizer.Tokenize | src/lib/rag/tokenizer.ts:10-27 | the token list never holds the same token twice |
| Tokenizer.TokenizeSpec | src/lib/rag/tokenizer.ts:10-27 | a string is a token of the text iff the text is non-empty and the string is, in the cleaned text, a whitespace-delimited alphanumeric word of length at least 2, a single ideograph, or a whitespace-delimited piece of length at least 2 holding an ideograph |
| Tokenizer.TokenizeBlank | src/lib/rag/tokenizer.ts:11-26 | empty or all-whitespace text has no tokens |
| Tokenizer.TokenChars | src/lib/rag/tokenizer.ts:14-23 | every token is non-empty, holds no whitespace, and consists of lower-case ASCII letters, digits, `_` and ideographs only |
| Tokenizer.CjkCoverage | src/lib/rag/tokenizer.ts:20 | every ideograph that occurs in the text is a one-character token |
| Tokenizer.MatchedAll | src/lib/rag/tokenizer.ts:48-57 | the matched weight reaches the total weight iff every query token is a chunk keyword |
| Tokenizer.KeywordScoreRange | src/lib/rag/tokenizer.ts:44-60 | the score is 0 when either list is empty, always lies in [0, 1], and is 1 iff both lists are non-empty and every query token is a chunk keyword |
| Tokenizer.KeywordScoreMonotone | src/lib/rag/tokenizer.ts:47-59 | a chunk whose keywords include another chunk's keywords scores at least as high for every query |
| Tokenizer.KeywordScoreQueryExtension | src/lib/rag/tokenizer.ts:50-59 | appending a token the chunk has never lowers the score; appending one it lacks never raises it |
| Tokenizer.SupersetQueryCanScoreLower | src/lib/rag/tokenizer.ts:44-60 | the query ["ab"] scores 1 against the chunk ["ab"], but the larger query ["ab", "cd"] scores 1/2 |
| Tokenizer.OverlapSymmetric | src/lib/rag/tokenizer.ts:32-39 | the overlap does not depend on the order of its arguments |
| Tokenizer.OverlapRange | src/lib/rag/tokenizer.ts:32-39 | the overlap is 0 when either list is empty, lies in [0, 1], and is 1 iff both are non-empty with the same keyword sets |
| Text.DecimalRoundTrip | src/lib/rag/chunking.ts:146 | reading back the decimal numeral of an index gives the index |
| ParagraphIds.ParseDocumentIdSpec | src/lib/rag/chunking.ts:152-155 | the parser returns the shortest non-empty prefix without line terminators that is followed by `-p` and digits up to the end; `None` means no such prefix exists |
| ParagraphIds.ParseGeneratedId | src/lib/rag/chunking.ts:145-155 | parsing a generated address gives back its document ID exactly when that ID is non-empty and free of line terminators, and `None` otherwise |
| ParagraphIds.ParagraphIdInjective | src/lib/rag/chunking.ts:145-147 | two addresses are equal only for the same document ID and the same index, whatever the IDs contain |
| ParagraphIds.ParagraphIdIndexInjective | src/lib/rag/chunking.ts:145-147 | within one document, distinct indices give distinct addresses, whatever the ID |
| Text.JoinSplitLines | src/lib/rag/chunking.ts:35 | joining the lines of a split with `\n` gives the document back |
| Chunking.HeadingStartSpec | src/lib/rag/chunking.ts:53 | the text is not a heading iff no split into 1–6 hashes, whitespace and a line-terminator-free group exists; otherwise the group starts at the latest possible point after the hashes, as greedy `\s+` demands |
| Chunking.FlushValid | src/lib/rag/chunking.ts:41-118 | a flush keeps the fold's invariant: the next paragraph index equals the number of chunks pushed; chunk i carries the document's ID and title, index i, address `{id}-p{i}`, trimmed content at least 10 long and that content's tokens; the current section title is the one the chunks lead to |
| Chunking.ShortParagraphDropped | src/lib/rag/chunking.ts:46-50 | a paragraph shorter than 10, heading or not, leaves chunks, index and section title as they were |
| Chunking.ChunkDocumentWellFormed | src/lib/rag/chunking.ts:27-137 | empty content gives no chunks; chunk i carries the document's ID and title, index i, address `{id}-p{i}`, trimmed content at least 10 long and the content's tokens as keywords; each chunk's section title is its own heading title if it is a heading, and the previous chunk's otherwise |
| Chunking.SectionIsNearestHeading | src/lib/rag/chunking.ts:53-56 | a chunk's section title is the title of the nearest heading chunk at or before it, and none if there is none |
| Chunking.BlocksShape | src/lib/rag/chunking.ts:121-131 | the paragraphs partition the non-blank lines in document order, and each is a non-empty run of non-blank lines |
| Chunking.RunIsOneBlock | src/lib/rag/chunking.ts:121-134 | lines none of which is blank all go, with the paragraph in progress, into one paragraph: only a blank line or the end of the text closes a paragraph |
| Chunking.BlankSplits | src/lib/rag/chunking.ts:121-128 | a blank line always closes the paragraph in progress: the paragraphs of `a`, blank line, `c` are those of `a` followed by those of `c` |
| Chunking.ChunkContents | src/lib/rag/chunking.ts:35-134 | the chunk contents are, in order, the trimmed joined paragraphs of the document that are at least 10 long |
| Chunking.ChunkNoBlankLine | src/lib/rag/chunking.ts:121-131 | no chunk's content holds a blank line |
| Retrieval.SortDescSpec | src/lib/rag/retrieval.ts:46 | the sort puts scores in non-increasing order and is a permutation |
| Retrieval.SortDescStable | src/lib/rag/retrieval.ts:46 | for every score, the entries with that score keep their input order |
| Retrieval.PassingChunks | src/lib/rag/retrieval.ts:37-43 | the chunks kept by the threshold filter are exactly those scoring at least the threshold, in input order |
| Retrieval.RankedSpec | src/lib/rag/retrieval.ts:37-46 | the ranked list is sorted, holds exactly the passing chunks with their multiplicities, and carries each chunk's true score |
| Retrieval.RetrieveTopKEmpty | src/lib/rag/retrieval.ts:29-34 | an empty query, an empty chunk list or a query without tokens retrieves nothing |
| Retrieval.RetrieveTopKCount | src/lib/rag/retrieval.ts:43-48 | with m passing chunks, `min(k, m)` are returned for k ≥ 0, and `max(m + k, 0)` for negative k |
| Retrieval.RetrieveTopKOrdered | src/lib/rag/retrieval.ts:43-48 | every returned chunk scores at least the threshold, and the scores do not increase along the result |
| Retrieval.RetrieveTopKStable | src/lib/rag/retrieval.ts:43-48 | for every score, the returned chunks with that score are the first of the input's chunks with that score, in input order |
| Retrieval.RetrieveTopKFromInput | src/lib/rag/retrieval.ts:37-48 | the result is a sub-multiset of the input chunks |
| Retrieval.RetrieveTopKComplete | src/lib/rag/retrieval.ts:43-48 | a passing chunk returned fewer times than the input holds it scores no higher than every returned chunk |
| Retrieval.RetrieveTopKFromDocumentSpec | src/lib/rag/retrieval.ts:58-66 | only chunks of the requested document are returned, drawn from the input; on a corpus of that document alone it is plain retrieval with the default threshold |
| Corpus.DocumentChunks | src/hooks/useDocumentChunking.ts:12-16 | a document without content has no chunks |
| Corpus.AllDocumentsChunking | src/hooks/useDocumentChunking.ts:23-34 | the loop builds the documents' chunk lists laid end to end, and its length is the sum of their lengths |
| Corpus.CorpusLength | src/hooks/useDocumentChunking.ts:25-32 | the corpus is as long as the documents' chunk counts added up |
| Corpus.CorpusBlocks | src/hooks/useDocumentChunking.ts:27-30 | document i's chunks fill, in their own order, the positions right before document i+1's |
| Corpus.CorpusParagraphIdsDistinct | src/hooks/useDocumentChunking.ts:27-30 | with distinct document IDs, no two corpus chunks share a paragraph address |
| QaTypes.AnswersDistinct | src/app/api/qa/route.ts:30-135 | the six fixed answers are pairwise different, so the answer alone tells the case |
| Text.TrimEmptyIffBlank | src/app/api/qa/route.ts:30 | a trimmed text is empty iff the text is all whitespace |
| QaRoute.ValidateCitationsSpec | src/app/api/qa/route.ts:92-95 | a citation survives iff it names an offered paragraph; survivors keep their multiplicity, order and relevance |
| QaRoute.ValidateCitationsIdempotent | src/app/api/qa/route.ts:92-95 | filtering twice is filtering once, and citations that all name offered paragraphs pass unchanged |
| QaRoute.ErrorResponse | src/app/api/qa/route.ts:109-135 | a failure has no citations; its status is 429 iff the model status was 429, and 500 otherwise |
| QaRoute.ErrorAnswers | src/app/api/qa/route.ts:109-135 | status 401 and only it gives the invalid-key answer; 429 and only it gives the quota answer; every other status, or none, gives the generic answer; never the no-evidence answer |
| QaRoute.HistoryWindowSpec | src/app/api/qa/route.ts:196-205 | the prompt has a history section iff there is history; it is the last min(6, n) messages in order, and what it leaves out comes before it |
| QaRoute.Reply | src/app/api/qa/route.ts:76-135 | a non-200 reply has no citations, and every citation names an offered paragraph |
| QaRoute.Post | src/app/api/qa/route.ts:20-136 | a response with no model call, or with a status other than 200, has no citations; a model call means the question was not blank, the chunks non-empty and the key set, and every returned citation names a chunk sent to the model |
| QaRoute.PostMalformedBody | src/app/api/qa/route.ts:21-27 | a body that is not valid JSON, or is `null`, gets the generic answer with status 500, without a model call |
| QaRoute.PostNonObjectBody | src/app/api/qa/route.ts:22-38 | any other JSON value without a `question` field (a string, number, boolean or array) is refused with status 400, without a model call |
| QaRoute.PostRejectsBlankQuestion | src/app/api/qa/route.ts:30-38 | a missing or blank question gets the ask-for-a-question answer with status 400 whatever the chunks and key, without a model call |
| QaRoute.PostWithoutChunks | src/app/api/qa/route.ts:40-45 | a real question without chunks gets the no-evidence answer with status 200, whatever the key, without a model call |
| QaRoute.PostWithoutKey | src/app/api/qa/route.ts:48-57 | with question and chunks but no key, the answer is the configuration error with status 500, without a model call |
| QaRoute.PostCallsModel | src/app/api/qa/route.ts:59-73 | the model is called iff all three checks pass, with the question, the chunks and the history window |
| QaRoute.PostAnswered | src/app/api/qa/route.ts:89-103 | a parsed answer is returned with status 200, its text unchanged and its citations filtered to the offered paragraphs |
| QaRoute.PostModelFailed | src/app/api/qa/route.ts:76-136 | empty model content gives the no-evidence answer with 200; unparseable content gives the generic answer with 500; a raised error is mapped by status; none has citations |
| QaService.AskQuestion | src/hooks/useQAService.ts:21-49 | no service call means the no-evidence answer; a call gets the question, non-empty candidates and the history, defaulting to none; a response is passed through; a failure has no citations |
| QaService.AskWithOverride | src/hooks/useQAService.ts:24-32 | supplied chunks are used as given and the corpus is ignored; an empty override gives the no-evidence answer without a call |
| QaService.AskWithRetrieval | src/hooks/useQAService.ts:24-37 | without an override the service is called iff retrieval finds a chunk, and then with at most 5 corpus chunks scoring at least 0.05, best first |
| QaService.AskBlankQuestion | src/hooks/useQAService.ts:24-32 | a blank question without an override gets the no-evidence answer and no call |
| QaService.AskFailure | src/hooks/useQAService.ts:38-47 | a failed call answers with the error's message, or with the generic answer for a thrown non-Error, and no citations |
| QaPanel.TourChunksSpec | src/components/documents/AIQAPanel.tsx:74-82 | the tour offers the first min(20, m) of the m chunks that are among their document's first three or mention 方案, 導入 or 費用, in corpus order; all of them when m ≤ 20 |
| QaPanel.QuestionToSend | src/components/documents/AIQAPanel.tsx:97-98 | a question is only sent when not loading, and it is non-empty and trimmed |
| QaPanel.QuestionToSendSpec | src/components/documents/AIQAPanel.tsx:97-98 | nothing is sent iff loading or the chosen text (a non-empty custom question, else the input box) is blank; otherwise the chosen text is sent with only its surrounding whitespace removed |
| QaPanel.Send | src/components/documents/AIQAPanel.tsx:96-160 | a send never removes messages; a refused send changes nothing but the conversation it is given; an accepted one ends not loading and with an empty input |
| QaPanel.SendMessageGuard | src/components/documents/AIQAPanel.tsx:97-98 | while loading, or with a blank question, a send makes no call and leaves the panel as it was |
| QaPanel.SendMessageShown | src/components/documents/AIQAPanel.tsx:100-148 | an accepted send asks the trimmed question with the given override, appends the user's message unless it is the tour prompt, then the reply, and sends as history exactly the conversation shown before the reply |
| QaPanel.SendFailure | src/components/documents/AIQAPanel.tsx:149-156 | a failed ask ends the conversation with the fixed failure message and no citations |
| QaPanel.StartTourSpec | src/components/documents/AIQAPanel.tsx:59-85 | a tour resets the conversation to its opening message; unless loading, it asks the tour prompt with the tour chunks and the history from before the reset, and shows the reply under the opening message |
| QaPanel.SendTourPrompt | src/components/documents/AIQAPanel.tsx:101-130 | the tour prompt adds no user message and is not appended to the history |
| QaPanel.TourPromptTrimmed | src/components/documents/AIQAPanel.tsx:97-101 | the tour prompt survives trimming, so the tour test recognises it |
| QaPanel.FindChunk | src/components/documents/AIQAPanel.tsx:137 | the lookup finds a corpus chunk with the cited address, and fails iff no chunk has it |
| QaPanel.FindChunkFirst | src/components/documents/AIQAPanel.tsx:137 | the chunk found is the first in corpus order with that address |
| QaPanel.CitationChunks | src/components/documents/AIQAPanel.tsx:136-138 | the resolved chunks are corpus chunks and no more than the citations |
| QaPanel.CitationChunksSpec | src/components/documents/AIQAPanel.tsx:136-138 | for any citations, the result holds, in citation order, the first corpus chunk with each resolvable citation's address; citations naming no corpus paragraph are dropped |
| QaPanel.CitationChunksAllFound | src/components/documents/AIQAPanel.tsx:136-138 | when every citation names a corpus paragraph, none is dropped: the i-th chunk is the first corpus chunk with the i-th citation's address |
| QaPanel.RouteCitationsResolve | src/components/documents/AIQAPanel.tsx:136-138 | citations filtered by the endpoint against corpus chunks all resolve in the panel |

## Left out

- The OpenAI call, `fetch` in src/services/qa-service.ts, and the `useCallback`/`useMemo` wrappers. Each call is an outcome parameter, and the memoised hooks are their pure bodies.
- The prompt texts: `buildSystemPrompt`, and the chunk and history formatting of `buildUserPrompt`. Only which history messages the prompt quotes is modelled. `console.log` and `console.error` are left out too.
- `QAService.askMultipleQuestions` and `validateAPIConnection`. They only fan out or probe network calls.
- Everything the panel renders, scrolling, `isTouring`, and `handleEndTour`. None of these changes what is asked or answered.
- Full Unicode `toLowerCase` and IEEE floating point. Letters outside ASCII are not lower-cased, and scores are exact reals, so rounding in the division is not modelled.
- Request fields of the wrong JSON type, such as a question that is a number. The body is either absent or a record with optional fields of the documented types. An answer without a citation list is modelled as content that did not parse.
- Retrieval.RetrieveTopKCount: `k` is an integer. A fractional or `NaN` `k`, which `slice` would truncate or treat as 0, is not modelled.
- Interleaving inside a send. `QaPanel.Send` appends the user message and the reply in one step, so an update that lands while the answer is awaited, such as a second send, is not modelled.
