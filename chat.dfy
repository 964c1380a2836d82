/** One turn of the chat (`app.py`, the input handler at the end of the
    script): record the question, answer it from the knowledge base through
    the model, show the source panel, record the answer. */
module Chat {
  import opened Wrappers
  import opened Text
  import opened Chunking
  import opened Guardrails
  import opened RagEngine
  import opened Citations
  import opened SourceCards
  import opened LlmClient

  /** How many of the latest messages the model sees (`messages[-5:]`). */
  const HISTORY_WINDOW: nat := 5

  const USER: string := "user"
  const ASSISTANT: string := "assistant"

  const NO_DATABASE: string := WARNING_SIGN + " Please upload a PDF or Load a Saved Database first."
  const NO_INFORMATION: string := "No relevant information found in the documents."

  /** What a turn shows: nothing for an empty input; the response, whether
      the empty-knowledge-base warning was raised, and the source panel when
      `display_source_cards` was called; or the exception that ended it. */
  datatype Turn =
    | Ignored
    | Replied(response: string, emptyWarning: bool, sources: Option<Panel>)
    | Failed(error: string)

  /** `s[-n:]` for a positive `n`: the last `n` elements, or all of them. */
  function LastN<T>(s: seq<T>, n: nat): (r: seq<T>)
    ensures |r| == Min(|s|, n)
    ensures r == s[|s| - |r|..]
  {
    if |s| <= n then s else s[|s| - n..]
  }

  /** The turn for a non-empty question, given whether an index exists, the
      stored chunks, the ids the index returns for the question and the
      messages after the question was recorded. */
  function TurnFor(hasIndex: bool, chunks: seq<Chunk>, prompt: string, ids: seq<int>,
                   history: seq<Message>, generate: string -> Outcome): Turn
    requires NonNegative(ids)
  {
    if !hasIndex then Replied(NO_DATABASE, true, None)
    else
      var context := SearchContext(chunks, prompt, ids);
      if context == "" then Replied(NO_INFORMATION, false, None)
      else
        match GenerateResponse(context, prompt, LastN(history, HISTORY_WINDOW), generate)
        case Raised(e) => Failed(e)
        case Answer(text) => Replied(text, false, Some(SourcePanel(context)))
  }

  /** The messages a turn appends: none when ignored, the question alone when
      an exception ended it, otherwise the question and the response. */
  function Appended(prompt: string, turn: Turn): seq<Message> {
    match turn
    case Ignored => []
    case Failed(_) => [Message(USER, prompt)]
    case Replied(response, _, _) => [Message(USER, prompt), Message(ASSISTANT, response)]
  }

  /** `st.session_state.messages`. */
  class ChatSession {
    var messages: seq<Message>

    constructor ()
      ensures messages == []
    {
      messages := [];
    }

    /** The input handler: an empty or missing input does nothing; otherwise
        the question is recorded, answered and the response recorded. */
    method HandleInput(input: Option<string>, kb: KnowledgeBase,
                       nearest: string -> seq<int>, generate: string -> Outcome)
      returns (turn: Turn)
      requires kb.Valid()
      requires input.Some? ==> ValidHits(nearest(input.value))
      modifies this
      ensures input.None? || input.value == "" ==> turn == Ignored
      ensures input.Some? && input.value != "" ==>
        turn == TurnFor(kb.index.Some?, kb.chunks, input.value, nearest(input.value),
                        old(messages) + [Message(USER, input.value)], generate)
      ensures messages == old(messages) + Appended(if input.Some? then input.value else "", turn)
    {
      if input.None? || input.value == "" {
        return Ignored;
      }
      var prompt := input.value;
      messages := messages + [Message(USER, prompt)];
      turn := Respond(kb, prompt, nearest, generate, messages);
      if turn.Replied? {
        messages := messages + [Message(ASSISTANT, turn.response)];
      }
    }
  }

  /** The answer to a recorded question: the hint when no index is loaded,
      the no-information message when the search finds nothing, and otherwise
      the model's reply with the source panel of the context (an exception
      from the model ends the turn). */
  method Respond(kb: KnowledgeBase, prompt: string, nearest: string -> seq<int>,
                 generate: string -> Outcome, history: seq<Message>)
    returns (turn: Turn)
    requires kb.Valid() && ValidHits(nearest(prompt))
    ensures turn == TurnFor(kb.index.Some?, kb.chunks, prompt, nearest(prompt), history, generate)
  {
    var response: string;
    var warning := false;
    var sources: Option<Panel> := None;
    if kb.index.None? {
      warning := true;
      response := NO_DATABASE;
    } else {
      var context := kb.Search(prompt, nearest);
      if context == "" {
        response := NO_INFORMATION;
      } else {
        var reply := GenerateResponse(context, prompt, LastN(history, HISTORY_WINDOW), generate);
        if reply.Raised? {
          return Failed(reply.error);
        }
        response := reply.text;
      }
      if context != "" {
        var panel := DisplaySourceCards(context);
        sources := Some(panel);
      }
    }
    turn := Replied(response, warning, sources);
  }

  // ---------------------------------------------------------------------------
  // Properties of a turn
  // ---------------------------------------------------------------------------

  /** Without an index the fixed hint is the response, the warning is shown,
      no source panel is drawn and the model is not asked. */
  lemma NoIndexTurn(chunks: seq<Chunk>, prompt: string, ids: seq<int>,
                    history: seq<Message>, g1: string -> Outcome, g2: string -> Outcome)
    requires NonNegative(ids)
    ensures TurnFor(false, chunks, prompt, ids, history, g1) == Replied(NO_DATABASE, true, None)
    ensures TurnFor(false, chunks, prompt, ids, history, g1) == TurnFor(false, chunks, prompt, ids, history, g2)
  {
  }

  /** An unsafe question still reaches the model, with the guardrail message
      as its only context; the source panel then shows nothing, since that
      message holds no tag. */
  lemma UnsafeTurn(chunks: seq<Chunk>, prompt: string, ids: seq<int>,
                   history: seq<Message>, generate: string -> Outcome)
    requires NonNegative(ids)
    requires IsUnsafeQuery(prompt)
    ensures var turn := TurnFor(true, chunks, prompt, ids, history, generate);
      match GenerateResponse(GUARDRAIL_MESSAGE, prompt, LastN(history, HISTORY_WINDOW), generate)
      case Raised(e) => turn == Failed(e)
      case Answer(text) => turn == Replied(text, false, Some(NoPanel))
  {
    GuardrailHasNoTag();
  }

  lemma GuardrailHasNoTag()
    ensures FindAll(GUARDRAIL_MESSAGE) == []
  {
    assert '[' !in "GUARDRAIL: This";
    assert '[' !in " query asks for";
    assert '[' !in " subjective com";
    assert '[' !in "parison. Please";
    assert '[' !in " ask for specif";
    assert '[' !in "ic guidelines.";
    NoTagWithoutBracket(GUARDRAIL_MESSAGE);
  }

  /** A safe question whose ids all fail the bound check gets the fixed
      "no information" response, no source panel, and the model is not asked. */
  lemma NothingRetrievedTurn(chunks: seq<Chunk>, prompt: string, ids: seq<int>,
                             history: seq<Message>, generate: string -> Outcome)
    requires NonNegative(ids)
    requires !IsUnsafeQuery(prompt) && Hits(chunks, ids) == []
    ensures TurnFor(true, chunks, prompt, ids, history, generate) == Replied(NO_INFORMATION, false, None)
  {
    SearchContextEmpty(chunks, prompt, ids);
  }

  /** A safe question that retrieves chunks is answered by the model, and
      the panel then shows the first three distinct `(source, page)` pairs of
      the retrieved chunks, in retrieval order, with no caption. */
  lemma CitedTurn(chunks: seq<Chunk>, prompt: string, ids: seq<int>,
                  history: seq<Message>, generate: string -> Outcome)
    requires NonNegative(ids)
    requires forall k :: 0 <= k < |chunks| ==> Citable(chunks[k])
    requires !IsUnsafeQuery(prompt) && Hits(chunks, ids) != []
    ensures var turn := TurnFor(true, chunks, prompt, ids, history, generate);
      var context := Join(ContextParts(chunks, ids), PART_SEPARATOR);
      var cards := Cards(CitationsOf(Hits(chunks, ids)));
      match GenerateResponse(context, prompt, LastN(history, HISTORY_WINDOW), generate)
      case Raised(e) => turn == Failed(e)
      case Answer(text) => turn == Replied(text, false, Some(Panel(cards, None)))
    ensures 0 < |Cards(CitationsOf(Hits(chunks, ids)))| <= MAX_CARDS
  {
    var context := Join(ContextParts(chunks, ids), PART_SEPARATOR);
    SearchContextEmpty(chunks, prompt, ids);
    SearchContextCitations(chunks, ids);
    CaptionNeverShown(context);
    CardsShape(CitationsOf(Hits(chunks, ids)));
  }

  /** The history the model sees holds at most five messages and ends with
      the question being asked, so the formatted history ends with its line. */
  lemma QuestionEndsHistory(messages: seq<Message>, prompt: string)
    ensures var h := LastN(messages + [Message(USER, prompt)], HISTORY_WINDOW);
      0 < |h| <= HISTORY_WINDOW && h[|h| - 1] == Message(USER, prompt)
      && exists pre: string :: FormatHistory(h) == pre + HistoryLine(Message(USER, prompt))
  {
    var m := Message(USER, prompt);
    var h := LastN(messages + [m], HISTORY_WINDOW);
    var init := h[..|h| - 1];
    assert h == init + [m];
    FormatHistoryAppend(init, m);
    if init == [] {
      assert FormatHistory(h) == "" + HistoryLine(m);
    } else {
      assert FormatHistory(h) == (FormatHistory(init) + HISTORY_SEPARATOR) + HistoryLine(m);
    }
  }
}
