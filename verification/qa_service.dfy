/** `askQuestion` of src/hooks/useQAService.ts: pick the candidate chunks
    (the caller's override, or retrieval over the corpus), answer "no
    evidence" without asking when there are none, and otherwise hand the
    question to the answering service, turning a failure into an answer. */
module QaService {
  import opened Wrappers
  import opened Text
  import opened Seqs
  import opened Tokenizer
  import opened Chunking
  import opened Retrieval
  import opened QaTypes

  /** A value `QAService.askQuestion` threw: an `Error` with its message, or
      anything else. */
  datatype Thrown = ErrorValue(message: string) | OtherValue

  /** How the call to the answering service ended. */
  datatype ServiceOutcome = Answered(response: QAResponse) | Threw(thrown: Thrown)

  /** The arguments the answering service was called with. */
  datatype ServiceCall = ServiceCall(question: string, chunks: seq<Chunk>, history: seq<HistoryMessage>)

  /** The answer, and the service call made on the way, if any. */
  datatype Asked = Asked(response: QAResponse, call: Option<ServiceCall>)

  /** How many chunks retrieval offers. */
  const TopK: int := 5

  /** `overrideChunks || retrieveTopK(question, allChunks, 5)`: any
      supplied array, even an empty one, is truthy. */
  function Candidates(question: string, allChunks: seq<Chunk>, overrideChunks: Option<seq<Chunk>>): seq<Chunk> {
    match overrideChunks
    case Some(chunks) => chunks
    case None => RetrieveTopK(question, allChunks, TopK, DefaultThreshold)
  }

  /** `askQuestion(question, history = [], overrideChunks)`, with the
      service's behaviour as a parameter. It never fails. */
  function AskQuestion(
    question: string,
    history: Option<seq<HistoryMessage>>,
    overrideChunks: Option<seq<Chunk>>,
    allChunks: seq<Chunk>,
    outcome: ServiceOutcome): (a: Asked)
    ensures a.call.None? ==> a.response == QAResponse(NoEvidence, [])
    ensures a.call.Some? ==>
      && a.call.value.question == question
      && a.call.value.chunks != []
      && a.call.value.history == history.GetOr([])
    ensures a.call.Some? && outcome.Answered? ==> a.response == outcome.response
    ensures outcome.Threw? ==> a.response.citations == []
  {
    var candidates := Candidates(question, allChunks, overrideChunks);
    if candidates == [] then Asked(Plain(NoEvidence), None)
    else
      var call := ServiceCall(question, candidates, history.GetOr([]));
      match outcome
      case Answered(response) => Asked(response, Some(call))
      case Threw(ErrorValue(message)) => Asked(Plain(message), Some(call))
      case Threw(OtherValue) => Asked(Plain(SystemError), Some(call))
  }

  /** Supplied chunks are used as they are and the corpus is never looked
      at; an empty override means no evidence, even when retrieval would
      have found some. */
  lemma AskWithOverride(
    question: string, history: Option<seq<HistoryMessage>>, chunks: seq<Chunk>,
    allChunks: seq<Chunk>, outcome: ServiceOutcome)
    ensures AskQuestion(question, history, Some(chunks), allChunks, outcome)
         == AskQuestion(question, history, Some(chunks), [], outcome)
    ensures chunks != [] ==>
      AskQuestion(question, history, Some(chunks), allChunks, outcome).call
        == Some(ServiceCall(question, chunks, history.GetOr([])))
    ensures chunks == [] ==>
      AskQuestion(question, history, Some(chunks), allChunks, outcome) == Asked(QAResponse(NoEvidence, []), None)
  {
  }

  /** Without an override the service is asked iff retrieval finds a chunk,
      and then about at most five corpus chunks, each scoring at least the
      default threshold, best first. */
  lemma AskWithRetrieval(
    question: string, history: Option<seq<HistoryMessage>>,
    allChunks: seq<Chunk>, outcome: ServiceOutcome)
    ensures var a := AskQuestion(question, history, None, allChunks, outcome);
      && (a.call.Some? <==> RetrieveTopK(question, allChunks, TopK, DefaultThreshold) != [])
      && (a.call.Some? ==> Retrieved(question, allChunks, a.call.value.chunks))
  {
    var cs := RetrieveTopK(question, allChunks, TopK, DefaultThreshold);
    var a := AskQuestion(question, history, None, allChunks, outcome);
    assert Candidates(question, allChunks, None) == cs;
    if cs != [] {
      assert a.call.value.chunks == cs;
      TopCandidates(question, allChunks);
    }
  }

  /** `cs` is what retrieval offers for `question`: at most five corpus
      chunks, each scoring at least the default threshold, best first. */
  predicate Retrieved(question: string, allChunks: seq<Chunk>, cs: seq<Chunk>) {
    var q := Tokenize(question);
    && cs == RetrieveTopK(question, allChunks, TopK, DefaultThreshold)
    && |cs| <= TopK
    && multiset(cs) <= multiset(allChunks)
    && (forall i | 0 <= i < |cs| :: ScoreOf(q, cs[i]) >= DefaultThreshold)
    && (forall i, j | 0 <= i < j < |cs| :: ScoreOf(q, cs[i]) >= ScoreOf(q, cs[j]))
  }

  lemma TopCandidates(question: string, allChunks: seq<Chunk>)
    ensures Retrieved(question, allChunks, RetrieveTopK(question, allChunks, TopK, DefaultThreshold))
  {
    if question != [] && allChunks != [] && Tokenize(question) != [] {
      FoundCandidates(question, allChunks);
    } else {
      RetrieveTopKEmpty(question, allChunks, TopK, DefaultThreshold);
    }
  }

  lemma FoundCandidates(question: string, allChunks: seq<Chunk>)
    requires question != [] && allChunks != [] && Tokenize(question) != []
    ensures Retrieved(question, allChunks, RetrieveTopK(question, allChunks, TopK, DefaultThreshold))
  {
    RetrieveTopKFromInput(question, allChunks, TopK, DefaultThreshold);
    RetrieveTopKCount(question, allChunks, TopK, DefaultThreshold);
    RetrieveTopKOrdered(question, allChunks, TopK, DefaultThreshold);
  }

  /** A blank question without an override retrieves nothing, so it gets
      the no-evidence answer and the service is not asked. */
  lemma AskBlankQuestion(
    question: string, history: Option<seq<HistoryMessage>>,
    allChunks: seq<Chunk>, outcome: ServiceOutcome)
    requires AllSpace(question)
    ensures AskQuestion(question, history, None, allChunks, outcome) == Asked(QAResponse(NoEvidence, []), None)
  {
    TokenizeBlank(question);
    RetrieveTopKEmpty(question, allChunks, TopK, DefaultThreshold);
  }

  /** A failed service call becomes an answer without citations: the
      error's own message, or the generic failure for a thrown value that
      is not an `Error`. */
  lemma AskFailure(
    question: string, history: Option<seq<HistoryMessage>>, overrideChunks: Option<seq<Chunk>>,
    allChunks: seq<Chunk>, thrown: Thrown)
    requires Candidates(question, allChunks, overrideChunks) != []
    ensures AskQuestion(question, history, overrideChunks, allChunks, Threw(thrown)).response
      == QAResponse(if thrown.ErrorValue? then thrown.message else SystemError, [])
  {
  }
}
