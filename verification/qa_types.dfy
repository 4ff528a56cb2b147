/** The question-answering records shared by the API route, the service
    hook and the chat panel (src/types/documents.ts), and the fixed answers
    the route and the hook reply with. */
module QaTypes {

  datatype Role = User | Ai

  /** One `{ role, content }` turn of the conversation history. */
  datatype HistoryMessage = HistoryMessage(role: Role, content: string)

  /** `Citation`: the paragraph an answer relies on, and why. */
  datatype Citation = Citation(paragraphId: string, relevance: string)

  /** `QAResponse`. */
  datatype QAResponse = QAResponse(answer: string, citations: seq<Citation>)

  /** An answer without citations. */
  function Plain(answer: string): QAResponse {
    QAResponse(answer, [])
  }

  // ---------------------------------------------------------------------
  // The fixed answers
  // ---------------------------------------------------------------------

  /** The question was missing or blank. */
  const AskForQuestion: string := "請輸入問題。"

  /** No chunk supports an answer. */
  const NoEvidence: string := "文件中未找到可支持的內容。"

  /** The server has no API key configured. */
  const ConfigError: string := "系統設定錯誤，請稍後再試。"

  /** The model provider rejected the key (HTTP 401). */
  const InvalidKey: string := "API 金鑰無效，請聯絡管理員。"

  /** The model provider's quota is used up (HTTP 429). */
  const QuotaExceeded: string := "API 請求額度已用盡，請稍後再試。"

  /** Any other failure. */
  const SystemError: string := "系統錯誤，請稍後再試。"

  /** The six fixed answers are pairwise distinct, so a client can tell
      from the answer alone which case it is in. */
  lemma AnswersDistinct()
    ensures var all := [AskForQuestion, NoEvidence, ConfigError, InvalidKey, QuotaExceeded, SystemError];
      forall i, j | 0 <= i < j < |all| :: all[i] != all[j]
  {
    var all := [AskForQuestion, NoEvidence, ConfigError, InvalidKey, QuotaExceeded, SystemError];
    assert AskForQuestion[0] == '請' && NoEvidence[0] == '文' && ConfigError[0] == '系';
    assert InvalidKey[0] == 'A' && QuotaExceeded[0] == 'A' && SystemError[0] == '系';
    assert InvalidKey[4] == '金' && QuotaExceeded[4] == '請';
    assert ConfigError[1] == '統' && SystemError[1] == '統' && ConfigError[2] == '設' && SystemError[2] == '錯';
    forall i, j | 0 <= i < j < |all| ensures all[i] != all[j] {
      if i == 2 && j == 5 {
        assert all[i][2] != all[j][2];
      } else if i == 3 && j == 4 {
        assert all[i][4] != all[j][4];
      } else {
        assert all[i][0] != all[j][0];
      }
    }
  }
}
