/**
 * The classifier gateway (`AIService.analyzeMessage`): it builds the message list for the
 * language model, asks the model for a JSON decision and turns every failure into a fixed
 * fallback decision.
 *
 * The completion call and `JSON.parse` are not modelled: they are parameters. `complete`
 * is what the model service answers to a given message list, `parse` is what parsing a
 * response text yields (`None` where parsing throws).
 */
module Classifier {
  import opened Wrappers

  /** Roles of the model API: 'system' | 'user' | 'assistant'. */
  datatype ChatRole = System | User | Assistant

  /** A history entry carries only 'user' or 'assistant'. */
  type HistoryRole = r: ChatRole | r != System witness User

  datatype HistoryEntry = HistoryEntry(role: HistoryRole, content: string)

  datatype ChatMessage = ChatMessage(role: ChatRole, content: string)

  /**
   * The decision as the parser hands it over. Nothing here is re-validated: `department`
   * is whatever string the model wrote (or `None` for null/absent), and a missing
   * `message` is represented, like an empty one, by "" (both fail the `!analysis.message` test).
   */
  datatype AnalysisResult = AnalysisResult(
    shouldTransfer: bool,
    department: Option<string>,
    message: string,
    summary: Option<string>)

  /**
   * What the completion call produces: a transport failure (the awaited call throws), or
   * the list of choices, each with the content of its message (`None` where the message
   * or its content is missing or null).
   */
  datatype Outcome = TransportError | Completion(choices: seq<Option<string>>)

  /** The fixed triage instruction sent first; its wording is content, not logic. */
  const SystemPrompt: string := "triage instructions: greet, collect details, classify as SALES, SUPPORT or FINANCE, reply in JSON"

  /** The apology sent whenever the model gives no usable decision. */
  const FallbackMessage: string := "Desculpe, estou com dificuldades técnicas no momento. Por favor, reformule sua mensagem ou tente novamente em instantes."

  /** The decision used on every failure path: no transfer, no department, no summary. */
  function Fallback(): (r: AnalysisResult)
    ensures !r.shouldTransfer && r.department == None && r.summary == None
    ensures r.message == FallbackMessage && r.message != ""
  {
    AnalysisResult(false, None, FallbackMessage, None)
  }

  /** Each history entry copied with its role and content, in order. */
  function ToChat(history: seq<HistoryEntry>): (r: seq<ChatMessage>)
    ensures |r| == |history|
    ensures forall i | 0 <= i < |history| ::
      r[i].role == history[i].role && r[i].content == history[i].content && r[i].role != System
  {
    if history == [] then []
    else [ChatMessage(history[0].role, history[0].content)] + ToChat(history[1..])
  }

  /** The list sent to the model: the system prompt, the history, then the new user message. */
  function BuildMessages(history: seq<HistoryEntry>, userMessage: string): (r: seq<ChatMessage>)
    ensures |r| == |history| + 2
    ensures r[0] == ChatMessage(System, SystemPrompt)
    ensures r[1..|r| - 1] == ToChat(history)
    ensures r[|r| - 1] == ChatMessage(User, userMessage)
    ensures forall i | 1 <= i < |r| :: r[i].role != System
  {
    [ChatMessage(System, SystemPrompt)] + ToChat(history) + [ChatMessage(User, userMessage)]
  }

  /** The content of the first choice's message (`choices[0]?.message?.content`). */
  function FirstContent(choices: seq<Option<string>>): (r: Option<string>)
    ensures choices == [] ==> r == None
    ensures choices != [] ==> r == choices[0]
  {
    if choices == [] then None else choices[0]
  }

  /** What the gateway makes of the model's answer: the parsed decision, or the fallback. */
  function Decide(outcome: Outcome, parse: string -> Option<AnalysisResult>): (r: AnalysisResult)
    ensures r.message != ""
  {
    match outcome
    case TransportError => Fallback()
    case Completion(choices) =>
      var content := FirstContent(choices);
      if content == None || content.value == "" then Fallback()
      else match parse(content.value)
        case None => Fallback()
        case Some(analysis) => if analysis.message == "" then Fallback() else analysis
  }

  /** `analyzeMessage`: total, it never fails, and its decision always carries a reply. */
  function AnalyzeMessage(history: seq<HistoryEntry>, userMessage: string,
                          complete: seq<ChatMessage> -> Outcome,
                          parse: string -> Option<AnalysisResult>): (r: AnalysisResult)
    ensures r.message != ""
  {
    Decide(complete(BuildMessages(history, userMessage)), parse)
  }

  /** A failed completion call yields the fallback. */
  lemma TransportErrorFallsBack(parse: string -> Option<AnalysisResult>)
    ensures Decide(TransportError, parse) == Fallback()
  {
  }

  /** No choice, a missing content or an empty content yields the fallback. */
  lemma EmptyContentFallsBack(choices: seq<Option<string>>, parse: string -> Option<AnalysisResult>)
    requires FirstContent(choices) == None || FirstContent(choices) == Some("")
    ensures Decide(Completion(choices), parse) == Fallback()
  {
  }

  /** A content that does not parse yields the fallback. */
  lemma UnparsableFallsBack(choices: seq<Option<string>>, parse: string -> Option<AnalysisResult>)
    requires FirstContent(choices).Some? && FirstContent(choices).value != ""
    requires parse(FirstContent(choices).value) == None
    ensures Decide(Completion(choices), parse) == Fallback()
  {
  }

  /** A parsed decision without a message yields the fallback. */
  lemma MissingMessageFallsBack(choices: seq<Option<string>>, parse: string -> Option<AnalysisResult>,
                                parsed: AnalysisResult)
    requires FirstContent(choices).Some? && FirstContent(choices).value != ""
    requires parse(FirstContent(choices).value) == Some(parsed) && parsed.message == ""
    ensures Decide(Completion(choices), parse) == Fallback()
  {
  }

  /**
   * A parsed decision with a message is returned as it is: `shouldTransfer`, `department`
   * and `summary` are passed on unchecked, whatever strings they hold.
   */
  lemma ParsedDecisionPassesThrough(choices: seq<Option<string>>, parse: string -> Option<AnalysisResult>,
                                    parsed: AnalysisResult)
    requires FirstContent(choices).Some? && FirstContent(choices).value != ""
    requires parse(FirstContent(choices).value) == Some(parsed) && parsed.message != ""
    ensures Decide(Completion(choices), parse) == parsed
  {
  }

  /** Besides the fallback, the only decision the gateway returns is the one the parser produced. */
  lemma DecisionIsParsedOrFallback(outcome: Outcome, parse: string -> Option<AnalysisResult>)
    ensures var r := Decide(outcome, parse);
      r == Fallback() ||
      (outcome.Completion? && FirstContent(outcome.choices).Some? &&
       parse(FirstContent(outcome.choices).value) == Some(r))
  {
  }
}
