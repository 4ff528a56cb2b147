/** The decision logic of the question-answering endpoint (`POST` in
    src/app/api/qa/route.ts): the input checks, the model call as an
    outcome parameter, the citation filter, the mapping of failures to
    answers and statuses, and the history window of the prompt. */
module QaRoute {
  import opened Wrappers
  import opened Text
  import opened Seqs
  import opened Chunking
  import opened QaTypes

  /** The JSON body of a request; a field the client left out is `None`. */
  datatype Request = Request(
    question: Option<string>,
    chunks: Option<seq<Chunk>>,
    history: Option<seq<HistoryMessage>>)

  /** How the model call ended: it threw, carrying the HTTP status of the
      client error when there was one; it answered with no content (`null`
      or empty); or it answered with content that `JSON.parse` turned into
      `parsed`, which is `None` when the parse threw or gave no citation
      list. */
  datatype ModelOutcome =
    | Raised(status: Option<int>)
    | NoContent
    | Content(parsed: Option<QAResponse>)

  datatype HttpResponse = HttpResponse(body: QAResponse, status: nat)

  /** What `buildUserPrompt` is given: the question, the chunks, and the
      history section, `None` when the prompt has none. */
  datatype Prompt = Prompt(question: string, chunks: seq<Chunk>, history: Option<seq<HistoryMessage>>)

  /** The response, and the prompt the model was sent if it was called. */
  datatype Handled = Handled(response: HttpResponse, sent: Option<Prompt>)

  /** How many of the latest history messages the prompt quotes. */
  const HistoryLimit: nat := 6

  // ---------------------------------------------------------------------
  // Citation filter
  // ---------------------------------------------------------------------

  /** `new Set(chunks.map(c => c.paragraphId))`. */
  function ParagraphIdsOf(chunks: seq<Chunk>): set<string> {
    set c | c in chunks :: c.paragraphId
  }

  /** The test `validParagraphIds.has(cit.paragraphId)`. */
  function Cites(ids: set<string>): Citation -> bool {
    (c: Citation) => c.paragraphId in ids
  }

  /** The model's citations that name one of the offered paragraphs. */
  function ValidateCitations(citations: seq<Citation>, chunks: seq<Chunk>): (r: seq<Citation>)
    ensures forall i | 0 <= i < |r| :: r[i].paragraphId in ParagraphIdsOf(chunks)
  {
    Filter(Cites(ParagraphIdsOf(chunks)), citations)
  }

  /** The filter keeps exactly the citations of an offered paragraph, each
      as often as the model gave it, relevance and all, in the model's
      order. */
  lemma ValidateCitationsSpec(citations: seq<Citation>, chunks: seq<Chunk>)
    ensures var r := ValidateCitations(citations, chunks);
      && (forall c :: c in r <==> c in citations && (exists k | k in chunks :: k.paragraphId == c.paragraphId))
      && (forall c :: multiset(r)[c] == if c.paragraphId in ParagraphIdsOf(chunks) then multiset(citations)[c] else 0)
      && IsSubsequence(r, citations)
  {
    var f := Cites(ParagraphIdsOf(chunks));
    FilterMembers(f, citations);
    FilterCounts(f, citations);
    FilterIsSubsequence(f, citations);
  }

  /** Validating twice changes nothing the second time; citations that all
      name offered paragraphs pass unchanged. */
  lemma ValidateCitationsIdempotent(citations: seq<Citation>, chunks: seq<Chunk>)
    ensures ValidateCitations(ValidateCitations(citations, chunks), chunks) == ValidateCitations(citations, chunks)
    ensures (forall i | 0 <= i < |citations| :: citations[i].paragraphId in ParagraphIdsOf(chunks)) ==>
              ValidateCitations(citations, chunks) == citations
  {
    var f := Cites(ParagraphIdsOf(chunks));
    FilterIdempotent(f, citations);
    if forall i | 0 <= i < |citations| :: citations[i].paragraphId in ParagraphIdsOf(chunks) {
      FilterAllPass(f, citations);
    }
  }

  // ---------------------------------------------------------------------
  // Failures
  // ---------------------------------------------------------------------

  /** The `catch` block: a rejected key, an exhausted quota, or anything
      else, by the `status` the thrown value carries. */
  function ErrorResponse(status: Option<int>): (r: HttpResponse)
    ensures r.body.citations == []
    ensures r.status == 429 <==> status == Some(429)
    ensures r.status == 429 || r.status == 500
  {
    if status == Some(401) then HttpResponse(Plain(InvalidKey), 500)
    else if status == Some(429) then HttpResponse(Plain(QuotaExceeded), 429)
    else HttpResponse(Plain(SystemError), 500)
  }

  /** Which failure the answer names is decided by the status alone: the
      invalid-key answer exactly for 401, the quota answer exactly for 429,
      the generic answer for everything else; none is the no-evidence
      answer. */
  lemma ErrorAnswers(status: Option<int>)
    ensures var a := ErrorResponse(status).body.answer;
      && (a == InvalidKey <==> status == Some(401))
      && (a == QuotaExceeded <==> status == Some(429))
      && (a == SystemError <==> status != Some(401) && status != Some(429))
      && a != NoEvidence
  {
    AnswersDistinct();
  }

  // ---------------------------------------------------------------------
  // History window
  // ---------------------------------------------------------------------

  /** `history.slice(-6)`. */
  function Recent(history: seq<HistoryMessage>): seq<HistoryMessage> {
    if |history| > HistoryLimit then history[|history| - HistoryLimit..] else history
  }

  /** The history section of the prompt: none without history, otherwise
      the latest messages. */
  function HistoryWindow(history: Option<seq<HistoryMessage>>): Option<seq<HistoryMessage>> {
    if history.None? || history.value == [] then None else Some(Recent(history.value))
  }

  /** There is a history section iff there is history; it holds the last
      `min(6, n)` of the `n` messages, in order, so the messages it leaves
      out all come before it. */
  lemma HistoryWindowSpec(history: Option<seq<HistoryMessage>>)
    ensures HistoryWindow(history).None? <==> history.None? || history.value == []
    ensures HistoryWindow(history).Some? ==>
      var h, w := history.value, HistoryWindow(history).value;
      && |w| == (if |h| < HistoryLimit then |h| else HistoryLimit)
      && h[..|h| - |w|] + w == h
  {
  }

  // ---------------------------------------------------------------------
  // POST
  // ---------------------------------------------------------------------

  /** The request passes all three checks: a question that is not blank,
      at least one chunk, and a configured key. */
  predicate Accepted(req: Request, apiKey: Option<string>) {
    && req.question.Some? && !AllSpace(req.question.value)
    && req.chunks.Some? && req.chunks.value != []
    && apiKey.Some? && apiKey.value != []
  }

  /** What the model's answer becomes, for the offered chunks. */
  function Reply(outcome: ModelOutcome, chunks: seq<Chunk>): (r: HttpResponse)
    ensures r.status != 200 ==> r.body.citations == []
    ensures forall i | 0 <= i < |r.body.citations| :: r.body.citations[i].paragraphId in ParagraphIdsOf(chunks)
  {
    match outcome
    case Raised(status) => ErrorResponse(status)
    case NoContent => HttpResponse(Plain(NoEvidence), 200)
    case Content(None) => ErrorResponse(None)
    case Content(Some(p)) => HttpResponse(QAResponse(p.answer, ValidateCitations(p.citations, chunks)), 200)
  }

  /** `POST`, for a body, the configured key, and what the model call
      would do. The body is `None` when `req.json()` cannot parse it or it
      parses to `null`, the two cases in which destructuring it throws; any
      other JSON value (a string, a number, an array, an object without the
      fields) destructures to a `Request` whose absent fields are `None`. */
  function Post(body: Option<Request>, apiKey: Option<string>, outcome: ModelOutcome): (h: Handled)
    ensures h.response.status != 200 ==> h.response.body.citations == []
    ensures h.sent.None? ==> h.response.body.citations == []
    ensures h.sent.Some? ==>
      && body.Some? && h.sent.value.chunks != [] && Trim(h.sent.value.question) != []
      && apiKey.Some? && apiKey.value != []
      && forall i | 0 <= i < |h.response.body.citations| ::
           h.response.body.citations[i].paragraphId in ParagraphIdsOf(h.sent.value.chunks)
  {
    match body
    case None => Handled(ErrorResponse(None), None)
    case Some(req) =>
      if req.question.None? || Trim(req.question.value) == [] then
        Handled(HttpResponse(Plain(AskForQuestion), 400), None)
      else if req.chunks.None? || req.chunks.value == [] then
        Handled(HttpResponse(Plain(NoEvidence), 200), None)
      else if apiKey.None? || apiKey.value == [] then
        Handled(HttpResponse(Plain(ConfigError), 500), None)
      else
        var chunks := req.chunks.value;
        Handled(Reply(outcome, chunks), Some(Prompt(req.question.value, chunks, HistoryWindow(req.history))))
  }

  /** A body that is not valid JSON, or is `null`, throws while it is read
      and gets the generic failure with status 500. */
  lemma PostMalformedBody(apiKey: Option<string>, outcome: ModelOutcome)
    ensures Post(None, apiKey, outcome) == Handled(HttpResponse(QAResponse(SystemError, []), 500), None)
  {
  }

  /** Any other JSON value that is not an object with a question (a string,
      a number, a boolean, an array) has no `question` field, so it is
      refused with status 400 like a blank question, not with 500. */
  lemma PostNonObjectBody(apiKey: Option<string>, outcome: ModelOutcome)
    ensures Post(Some(Request(None, None, None)), apiKey, outcome)
         == Handled(HttpResponse(QAResponse(AskForQuestion, []), 400), None)
  {
    PostRejectsBlankQuestion(Request(None, None, None), apiKey, outcome);
  }

  /** A missing or whitespace-only question is refused with status 400
      before anything else is looked at: whatever the chunks, the key and
      the model would do, the model is not called. */
  lemma PostRejectsBlankQuestion(req: Request, apiKey: Option<string>, outcome: ModelOutcome)
    requires req.question.None? || AllSpace(req.question.value)
    ensures Post(Some(req), apiKey, outcome) == Handled(HttpResponse(QAResponse(AskForQuestion, []), 400), None)
  {
    if req.question.Some? {
      TrimEmptyIffBlank(req.question.value);
    }
  }

  /** A real question without chunks gets the no-evidence answer with
      status 200, whatever the key; the model is not called. */
  lemma PostWithoutChunks(req: Request, apiKey: Option<string>, outcome: ModelOutcome)
    requires req.question.Some? && !AllSpace(req.question.value)
    requires req.chunks.None? || req.chunks.value == []
    ensures Post(Some(req), apiKey, outcome) == Handled(HttpResponse(QAResponse(NoEvidence, []), 200), None)
  {
    TrimEmptyIffBlank(req.question.value);
  }

  /** A real question with chunks but no configured key gets the
      configuration error with status 500; the model is not called. */
  lemma PostWithoutKey(req: Request, apiKey: Option<string>, outcome: ModelOutcome)
    requires req.question.Some? && !AllSpace(req.question.value)
    requires req.chunks.Some? && req.chunks.value != []
    requires apiKey.None? || apiKey.value == []
    ensures Post(Some(req), apiKey, outcome) == Handled(HttpResponse(QAResponse(ConfigError, []), 500), None)
  {
    TrimEmptyIffBlank(req.question.value);
  }

  /** An accepted request is the only kind that reaches the model, and it
      is sent the question, the chunks and the recent history. */
  lemma PostCallsModel(req: Request, apiKey: Option<string>, outcome: ModelOutcome)
    ensures Post(Some(req), apiKey, outcome).sent.Some? <==> Accepted(req, apiKey)
    ensures Accepted(req, apiKey) ==>
      Post(Some(req), apiKey, outcome).sent == Some(Prompt(req.question.value, req.chunks.value, HistoryWindow(req.history)))
  {
    if req.question.Some? {
      TrimEmptyIffBlank(req.question.value);
    }
  }

  /** An accepted request is answered from the model's outcome alone. */
  lemma PostReplies(req: Request, apiKey: Option<string>, outcome: ModelOutcome)
    requires Accepted(req, apiKey)
    ensures Post(Some(req), apiKey, outcome).response == Reply(outcome, req.chunks.value)
  {
    TrimEmptyIffBlank(req.question.value);
    assert !(req.question.None? || Trim(req.question.value) == []);
    assert !(req.chunks.None? || req.chunks.value == []);
    assert !(apiKey.None? || apiKey.value == []);
  }

  /** A parsed answer comes back with status 200, its text untouched and
      its citations filtered down to the offered paragraphs (see
      `ValidateCitationsSpec`). */
  lemma PostAnswered(req: Request, apiKey: Option<string>, p: QAResponse)
    requires Accepted(req, apiKey)
    ensures Post(Some(req), apiKey, Content(Some(p))).response
      == HttpResponse(QAResponse(p.answer, ValidateCitations(p.citations, req.chunks.value)), 200)
  {
    PostReplies(req, apiKey, Content(Some(p)));
  }

  /** An accepted request whose model call fails: no content gives the
      no-evidence answer with status 200, an unparsable reply the generic
      failure, and a thrown error its mapped failure; none has citations. */
  lemma PostModelFailed(req: Request, apiKey: Option<string>, outcome: ModelOutcome)
    requires Accepted(req, apiKey)
    requires !(outcome.Content? && outcome.parsed.Some?)
    ensures var r := Post(Some(req), apiKey, outcome).response;
      && r.body.citations == []
      && (outcome.NoContent? ==> r == HttpResponse(QAResponse(NoEvidence, []), 200))
      && (outcome.Content? ==> r == HttpResponse(QAResponse(SystemError, []), 500))
      && (outcome.Raised? ==> r == ErrorResponse(outcome.status))
  {
    PostReplies(req, apiKey, outcome);
  }
}
