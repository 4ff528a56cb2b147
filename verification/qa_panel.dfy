/** The pure decisions of the chat panel (src/components/documents/AIQAPanel.tsx):
    which chunks the guided tour offers, whether and what a send asks, the
    history sent along, the conversation shown afterwards, and which corpus
    chunks the citations of an answer point to. */
module QaPanel {
  import opened Wrappers
  import opened Text
  import opened Seqs
  import opened Chunking
  import opened QaTypes
  import opened QaRoute

  /** A conversation entry; `citations` and `citationChunks` are optional. */
  datatype Message = Message(
    role: Role,
    content: string,
    citations: Option<seq<Citation>>,
    citationChunks: Option<seq<Chunk>>)

  /** The state a render of the panel sees. */
  datatype Panel = Panel(messages: seq<Message>, input: string, loading: bool)

  /** What `onAskQuestion` did: resolve with a response, or reject. */
  datatype AskOutcome = Responded(response: QAResponse) | Failed

  /** The arguments `onAskQuestion` was called with. */
  datatype PanelCall = PanelCall(question: string, history: seq<HistoryMessage>, overrideChunks: Option<seq<Chunk>>)

  /** The panel after a send, and the call made, if any. */
  datatype Sent = Sent(panel: Panel, call: Option<PanelCall>)

  /** The question the tour asks, sentence by sentence. */
  const TourPrompt: string :=
    "請以專案顧問的身份，為我進行這份「正式提案」的完整導讀。"
    + "請綜合參照專案章程 (Charter)、方案提案 (Proposal) 與導入時程 (Roadmap)，但請**特別著重於「方案提案 (Proposal)」中的三個導入方案**：1. 基礎節奏導入、2. 成長優化導入、3. 轉型自動化導入。"
    + "請說明這三個方案的差異、適用的組織階段，以及各自的預期效益。"
    + "請由上而下，先簡述專案背景 (Charter)，接著深入分析上述三個方案的選擇 (Proposal)，最後補充預計的執行時程 (Roadmap)。"
    + "請用專業但口語化的方式解說，協助我做出最合適的方案選擇。"

  /** The message the tour starts the conversation with. */
  const TourIntro: string := "好的，我也將切換至**顧問導讀模式**。請稍候，我這就為您整理這份專案文件的重點精華..."

  /** The reply shown when asking failed. */
  const SendFailed: string := "系統發生錯誤，目前暫時無法回答，請稍後再試。"

  /** How many chunks the tour offers at most. */
  const TourLimit: int := 20

  // ---------------------------------------------------------------------
  // Tour chunks
  // ---------------------------------------------------------------------

  /** A chunk among the first three of its document, or one that mentions
      plans, adoption or fees. */
  predicate IsTourChunk(c: Chunk) {
    || c.paragraphIndex < 3
    || Contains(c.content, "方案")
    || Contains(c.content, "導入")
    || Contains(c.content, "費用")
  }

  /** `allChunks.filter(...).slice(0, 20)`. */
  function TourChunks(allChunks: seq<Chunk>): seq<Chunk> {
    Take(Filter(IsTourChunk, allChunks), TourLimit)
  }

  /** The tour offers the first tour chunks of the corpus, in corpus order,
      as many as there are up to 20; when there are at most 20 it offers
      every one of them. */
  lemma TourChunksSpec(allChunks: seq<Chunk>)
    ensures var r, m := TourChunks(allChunks), |Filter(IsTourChunk, allChunks)|;
      && |r| == (if m < TourLimit then m else TourLimit)
      && r <= Filter(IsTourChunk, allChunks)
      && (forall i | 0 <= i < |r| :: IsTourChunk(r[i]))
      && IsSubsequence(r, allChunks)
      && (m <= TourLimit ==> forall i | 0 <= i < |allChunks| && IsTourChunk(allChunks[i]) :: allChunks[i] in r)
  {
    var f := Filter(IsTourChunk, allChunks);
    var r := TourChunks(allChunks);
    FilterIsSubsequence(IsTourChunk, allChunks);
    SubsequencePrefix(r, f, allChunks);
    forall i | 0 <= i < |r| ensures IsTourChunk(r[i]) {
      assert r[i] == f[i];
    }
  }

  // ---------------------------------------------------------------------
  // Sending
  // ---------------------------------------------------------------------

  /** `(customQuestion || chatInput).trim()`, or `None` when that is empty
      or a request is still loading. */
  function QuestionToSend(custom: Option<string>, input: string, loading: bool): (r: Option<string>)
    ensures r.Some? ==> !loading && r.value != [] && IsTrimmed(r.value)
  {
    var raw := if custom.Some? && custom.value != [] then custom.value else input;
    TrimIsTrimmed(raw);
    var q := Trim(raw);
    if q == [] || loading then None else Some(q)
  }

  /** `r` is `s` with whitespace removed from both ends and nowhere else. */
  predicate Stripped(r: string, s: string) {
    && IsTrimmed(r)
    && exists a | 0 <= a <= |s| - |r| :: SpaceAround(r, s, a)
  }

  /** A non-empty custom question wins over the input box; nothing is sent
      while loading or when the chosen text is blank; otherwise the text is
      sent stripped of surrounding whitespace. */
  lemma QuestionToSendSpec(custom: Option<string>, input: string, loading: bool)
    ensures var raw := if custom.Some? && custom.value != [] then custom.value else input;
      var r := QuestionToSend(custom, input, loading);
      && (r.None? <==> loading || AllSpace(raw))
      && (r.Some? ==> Stripped(r.value, raw))
  {
    var raw := if custom.Some? && custom.value != [] then custom.value else input;
    TrimEmptyIffBlank(raw);
    TrimSlice(raw);
    TrimIsTrimmed(raw);
  }

  /** The `{ role, content }` of each message. */
  function Turns(messages: seq<Message>): (r: seq<HistoryMessage>)
    ensures |r| == |messages|
  {
    seq(|messages|, i requires 0 <= i < |messages| => HistoryMessage(messages[i].role, messages[i].content))
  }

  lemma TurnsAppend(a: seq<Message>, b: seq<Message>)
    ensures Turns(a + b) == Turns(a) + Turns(b)
  {
  }

  /** The history sent: the messages the render saw, then the question
      itself unless it is the tour prompt. */
  function HistoryFor(seen: seq<Message>, question: string): seq<HistoryMessage> {
    Turns(seen) + (if question != TourPrompt && question != [] then [HistoryMessage(User, question)] else [])
  }

  /** The message an outcome adds: the answer with its citations and the
      chunks they resolve to, or the fixed failure text. */
  function ReplyMessage(outcome: AskOutcome, allChunks: seq<Chunk>): (m: Message)
    ensures m.role == Ai
  {
    match outcome
    case Responded(response) =>
      Message(Ai, response.answer, Some(response.citations), Some(CitationChunks(response.citations, allChunks)))
    case Failed => Message(Ai, SendFailed, Some([]), None)
  }

  /** `handleSendMessage` of the render that saw `p`, its state updates
      applied to the conversation `current`. */
  function Send(
    p: Panel, current: seq<Message>, custom: Option<string>, overrideChunks: Option<seq<Chunk>>,
    allChunks: seq<Chunk>, outcome: AskOutcome): (s: Sent)
    ensures s.call.Some? ==> !p.loading && !s.panel.loading && s.panel.input == []
    ensures s.call.None? ==> s.panel == p.(messages := current)
    ensures current <= s.panel.messages
  {
    match QuestionToSend(custom, p.input, p.loading)
    case None => Sent(p.(messages := current), None)
    case Some(q) =>
      var call := PanelCall(q, HistoryFor(p.messages, q), overrideChunks);
      Sent(Panel(current + Asked(q) + [ReplyMessage(outcome, allChunks)], [], false), Some(call))
  }

  /** The user's message a question adds: none for the tour prompt. */
  function Asked(q: string): seq<Message> {
    if q == TourPrompt then [] else [Message(User, q, None, None)]
  }

  /** What a send does once the guard has let question `q` through. */
  lemma SendAsked(
    p: Panel, current: seq<Message>, custom: Option<string>, overrideChunks: Option<seq<Chunk>>,
    allChunks: seq<Chunk>, outcome: AskOutcome, q: string)
    requires QuestionToSend(custom, p.input, p.loading) == Some(q)
    ensures Send(p, current, custom, overrideChunks, allChunks, outcome)
      == Sent(Panel(current + Asked(q) + [ReplyMessage(outcome, allChunks)], [], false),
              Some(PanelCall(q, HistoryFor(p.messages, q), overrideChunks)))
  {
  }

  /** The history sent is the turns of the messages seen and of the
      question's own message. */
  lemma HistoryAsked(seen: seq<Message>, q: string)
    requires q != []
    ensures HistoryFor(seen, q) == Turns(seen + Asked(q))
  {
    TurnsAppend(seen, Asked(q));
    assert Turns([Message(User, q, None, None)]) == [HistoryMessage(User, q)];
  }

  /** Sending from the input box or a suggested question. */
  function SendMessage(
    p: Panel, custom: Option<string>, overrideChunks: Option<seq<Chunk>>,
    allChunks: seq<Chunk>, outcome: AskOutcome): Sent
  {
    Send(p, p.messages, custom, overrideChunks, allChunks, outcome)
  }

  /** `handleStartTour`: the conversation is reset to the tour's opening
      message, then the tour prompt is sent with the tour chunks. */
  function StartTour(p: Panel, allChunks: seq<Chunk>, outcome: AskOutcome): Sent {
    Send(p, [Message(Ai, TourIntro, Some([]), None)], Some(TourPrompt), Some(TourChunks(allChunks)), allChunks, outcome)
  }

  /** When the guard refuses, nothing happens: no call, no change. */
  lemma SendMessageGuard(
    p: Panel, custom: Option<string>, overrideChunks: Option<seq<Chunk>>,
    allChunks: seq<Chunk>, outcome: AskOutcome)
    requires p.loading || AllSpace(if custom.Some? && custom.value != [] then custom.value else p.input)
    ensures SendMessage(p, custom, overrideChunks, allChunks, outcome) == Sent(p, None)
  {
    QuestionToSendSpec(custom, p.input, p.loading);
  }

  /** A send keeps the conversation and adds the question (unless it is the
      tour prompt) and then one reply from the assistant; the history sent
      is exactly the conversation shown above that reply. */
  lemma SendMessageShown(
    p: Panel, custom: Option<string>, overrideChunks: Option<seq<Chunk>>,
    allChunks: seq<Chunk>, outcome: AskOutcome)
    requires QuestionToSend(custom, p.input, p.loading).Some?
    ensures var q, s := QuestionToSend(custom, p.input, p.loading).value, SendMessage(p, custom, overrideChunks, allChunks, outcome);
      var ms := s.panel.messages;
      && s.call.Some? && s.call.value.question == q && s.call.value.overrideChunks == overrideChunks
      && p.messages <= ms
      && |ms| == |p.messages| + (if q == TourPrompt then 1 else 2)
      && (q != TourPrompt ==> ms[|p.messages|] == Message(User, q, None, None))
      && ms[|ms| - 1] == ReplyMessage(outcome, allChunks)
      && s.call.value.history == Turns(ms[..|ms| - 1])
  {
    var q := QuestionToSend(custom, p.input, p.loading).value;
    SendAsked(p, p.messages, custom, overrideChunks, allChunks, outcome, q);
    AppendLast(p.messages, Asked(q), ReplyMessage(outcome, allChunks));
    HistoryAsked(p.messages, q);
  }

  /** A failed ask adds the fixed failure reply, without citations. */
  lemma SendFailure(p: Panel, custom: Option<string>, overrideChunks: Option<seq<Chunk>>, allChunks: seq<Chunk>)
    requires QuestionToSend(custom, p.input, p.loading).Some?
    ensures var ms := SendMessage(p, custom, overrideChunks, allChunks, Failed).panel.messages;
      ms[|ms| - 1] == Message(Ai, SendFailed, Some([]), None)
  {
    SendMessageShown(p, custom, overrideChunks, allChunks, Failed);
  }

  /** The tour shows only its opening message and the reply, and offers
      the tour chunks; the history it sends is the conversation from
      before the reset, since the handler still sees that render's
      messages. While a request is loading only the reset happens. */
  lemma StartTourSpec(p: Panel, allChunks: seq<Chunk>, outcome: AskOutcome)
    ensures var s, intro := StartTour(p, allChunks, outcome), Message(Ai, TourIntro, Some([]), None);
      && (p.loading ==> s == Sent(p.(messages := [intro]), None))
      && (!p.loading ==>
            && s.panel.messages == [intro, ReplyMessage(outcome, allChunks)]
            && s.call == Some(PanelCall(TourPrompt, Turns(p.messages), Some(TourChunks(allChunks)))))
  {
    var intro := Message(Ai, TourIntro, Some([]), None);
    if !p.loading {
      SendTourPrompt(p, [intro], Some(TourChunks(allChunks)), allChunks, outcome);
      assert [intro] + [ReplyMessage(outcome, allChunks)] == [intro, ReplyMessage(outcome, allChunks)];
    }
  }

  /** Sending the tour prompt adds only the reply, and the history is the
      messages the render saw, without the prompt. */
  lemma SendTourPrompt(
    p: Panel, current: seq<Message>, overrideChunks: Option<seq<Chunk>>,
    allChunks: seq<Chunk>, outcome: AskOutcome)
    requires !p.loading
    ensures Send(p, current, Some(TourPrompt), overrideChunks, allChunks, outcome)
      == Sent(Panel(current + [ReplyMessage(outcome, allChunks)], [], false),
              Some(PanelCall(TourPrompt, Turns(p.messages), overrideChunks)))
  {
    TourQuestion(p.input);
    TourHistory(p.messages);
  }

  /** Unless loading, the tour prompt is sent as it is. */
  lemma TourQuestion(input: string)
    ensures QuestionToSend(Some(TourPrompt), input, false) == Some(TourPrompt)
  {
    TourPromptTrimmed();
  }

  /** The tour prompt is not added to the history. */
  lemma TourHistory(seen: seq<Message>)
    ensures HistoryFor(seen, TourPrompt) == Turns(seen)
  {
  }

  /** The tour prompt has no surrounding whitespace, so it is sent as it is
      and recognised as the tour's own question. */
  lemma TourPromptTrimmed()
    ensures TourPrompt != [] && Trim(TourPrompt) == TourPrompt
  {
    assert TourPrompt[0] == '請';
    assert TourPrompt[|TourPrompt| - 1] == '。';
    TrimOfTrimmed(TourPrompt);
  }

  // ---------------------------------------------------------------------
  // Citation chunks
  // ---------------------------------------------------------------------

  /** `allChunks.find(c => c.paragraphId === id)`. */
  function FindChunk(id: string, chunks: seq<Chunk>): (r: Option<Chunk>)
    ensures r.Some? ==> r.value in chunks && r.value.paragraphId == id
    ensures r.None? <==> id !in ParagraphIdsOf(chunks)
    decreases |chunks|
  {
    if chunks == [] then None
    else if chunks[0].paragraphId == id then Some(chunks[0])
    else
      assert ParagraphIdsOf(chunks) == {chunks[0].paragraphId} + ParagraphIdsOf(chunks[1..]);
      FindChunk(id, chunks[1..])
  }

  /** The chunk found is the first one with that address. */
  lemma {:induction false} FindChunkFirst(id: string, chunks: seq<Chunk>)
    requires FindChunk(id, chunks).Some?
    ensures exists i | 0 <= i < |chunks| :: chunks[i] == FindChunk(id, chunks).value
              && forall j | 0 <= j < i :: chunks[j].paragraphId != id
    decreases |chunks|
  {
    if chunks[0].paragraphId != id {
      FindChunkFirst(id, chunks[1..]);
      var i :| 0 <= i < |chunks| - 1 && chunks[1..][i] == FindChunk(id, chunks[1..]).value
               && forall j | 0 <= j < i :: chunks[1..][j].paragraphId != id;
      assert chunks[i + 1] == FindChunk(id, chunks).value;
    } else {
      assert chunks[0] == FindChunk(id, chunks).value;
    }
  }

  /** The chunks the citations point to, in citation order; a citation of
      an address the corpus lacks is dropped. */
  function CitationChunks(citations: seq<Citation>, allChunks: seq<Chunk>): (r: seq<Chunk>)
    ensures |r| <= |citations|
    ensures forall i | 0 <= i < |r| :: r[i] in allChunks
    decreases |citations|
  {
    if citations == [] then []
    else
      (match FindChunk(citations[0].paragraphId, allChunks)
       case Some(c) => [c]
       case None => [])
      + CitationChunks(citations[1..], allChunks)
  }

  /** A citation whose address the corpus holds. */
  function Resolves(allChunks: seq<Chunk>): Citation -> bool {
    (c: Citation) => c.paragraphId in ParagraphIdsOf(allChunks)
  }

  /** The resolved chunks are, in citation order, the first corpus chunk of
      each citation the corpus can resolve; the others are dropped. */
  lemma {:induction false} CitationChunksSpec(citations: seq<Citation>, allChunks: seq<Chunk>)
    ensures var f, r := Filter(Resolves(allChunks), citations), CitationChunks(citations, allChunks);
      && |r| == |f|
      && forall i | 0 <= i < |r| :: FindChunk(f[i].paragraphId, allChunks) == Some(r[i])
    decreases |citations|
  {
    if citations != [] {
      var c := citations[0];
      var f' := Filter(Resolves(allChunks), citations[1..]);
      var r' := CitationChunks(citations[1..], allChunks);
      CitationChunksSpec(citations[1..], allChunks);
      match FindChunk(c.paragraphId, allChunks)
      case Some(k) =>
        assert Filter(Resolves(allChunks), citations) == [c] + f';
        assert CitationChunks(citations, allChunks) == [k] + r';
        ResolvedCons(c, k, f', r', allChunks);
      case None =>
        assert Filter(Resolves(allChunks), citations) == f';
        assert CitationChunks(citations, allChunks) == r';
    }
  }

  /** One more resolved citation in front keeps the two lists in step. */
  lemma ResolvedCons(c: Citation, k: Chunk, f: seq<Citation>, r: seq<Chunk>, allChunks: seq<Chunk>)
    requires FindChunk(c.paragraphId, allChunks) == Some(k)
    requires |r| == |f| && forall i | 0 <= i < |r| :: FindChunk(f[i].paragraphId, allChunks) == Some(r[i])
    ensures var f2, r2 := [c] + f, [k] + r;
      |r2| == |f2| && forall i | 0 <= i < |r2| :: FindChunk(f2[i].paragraphId, allChunks) == Some(r2[i])
  {
    ConsIndex(c, f);
    ConsIndex(k, r);
  }

  /** When the corpus holds every cited address, each citation resolves,
      in order, to the first corpus chunk with that address. */
  lemma {:induction false} CitationChunksAllFound(citations: seq<Citation>, allChunks: seq<Chunk>)
    requires forall i | 0 <= i < |citations| :: citations[i].paragraphId in ParagraphIdsOf(allChunks)
    ensures var r := CitationChunks(citations, allChunks);
      && |r| == |citations|
      && forall i | 0 <= i < |r| :: Some(r[i]) == FindChunk(citations[i].paragraphId, allChunks)
    decreases |citations|
  {
    if citations != [] {
      CitationChunksAllFound(citations[1..], allChunks);
      var c := FindChunk(citations[0].paragraphId, allChunks);
      var r := CitationChunks(citations, allChunks);
      assert r == [c.value] + CitationChunks(citations[1..], allChunks);
      ConsIndex(c.value, CitationChunks(citations[1..], allChunks));
    }
  }

  /** Citations that survive the route's filter all resolve when the chunks
      offered to the route come from the panel's corpus. */
  lemma RouteCitationsResolve(citations: seq<Citation>, offered: seq<Chunk>, allChunks: seq<Chunk>)
    requires forall i | 0 <= i < |offered| :: offered[i] in allChunks
    ensures var v := ValidateCitations(citations, offered);
      |CitationChunks(v, allChunks)| == |v|
  {
    var v := ValidateCitations(citations, offered);
    forall i | 0 <= i < |v| ensures v[i].paragraphId in ParagraphIdsOf(allChunks) {
      assert v[i].paragraphId in ParagraphIdsOf(offered);
      var k :| k in offered && k.paragraphId == v[i].paragraphId;
      assert k in allChunks;
    }
    CitationChunksAllFound(v, allChunks);
  }
}
