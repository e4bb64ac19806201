/** The front end's handlers in app.py: `get_questions` and `run`, with the
    clarifier and the research-manager agent as parameters. */
module App {
  import opened Wrappers
  import opened PyStrings
  import opened QueryComposer
  import opened EmailCheck
  import opened ReportExtraction

  // ---------------------------------------------------------------------------
  // get_questions

  const EnterQueryFirst := "Please enter a research query first."
  const QuestionsHeader := "## Clarifying Questions\n\n"
  const QuestionsFooter := "Please answer these questions to help refine your research query."
  const QuestionsError := ErrorWord + " generating questions: "

  /** The line for question number `n`: `f"{n}. {question}\n\n"`. */
  function NumberedItem(n: nat, question: string): string
  {
    NatToString(n) + ". " + question + "\n\n"
  }

  /** The numbered items of `questions`, counting from 1. */
  function NumberedList(questions: seq<string>): string
  {
    if questions == [] then []
    else NumberedList(questions[..|questions| - 1]) + NumberedItem(|questions|, questions[|questions| - 1])
  }

  /** Question `j` is listed as number `j + 1`, right after the questions
      before it. */
  lemma {:induction false} NumberedListPlacesQuestion(questions: seq<string>, j: nat)
    requires j < |questions|
    ensures StartsWith(NumberedList(questions),
                       NumberedList(questions[..j]) + NumberedItem(j + 1, questions[j]))
    decreases |questions|
  {
    var n := |questions|;
    var init := questions[..n - 1];
    if j == n - 1 {
      assert init == questions[..j];
    } else {
      NumberedListPlacesQuestion(init, j);
      assert init[..j] == questions[..j];
      assert init[j] == questions[j];
      var p := NumberedList(questions[..j]) + NumberedItem(j + 1, questions[j]);
      assert NumberedList(questions)[..|p|] == NumberedList(init)[..|p|];
    }
  }

  /** The `+=` loop of `get_questions` that builds the markdown. */
  method FormatQuestions(questions: seq<string>) returns (markdown: string)
    ensures markdown == QuestionsHeader + NumberedList(questions) + QuestionsFooter
  {
    markdown := QuestionsHeader;
    for i := 0 to |questions|
      invariant markdown == QuestionsHeader + NumberedList(questions[..i])
    {
      assert questions[..i + 1][..i] == questions[..i];
      markdown := markdown + NumberedItem(i + 1, questions[i]);
    }
    assert questions[..|questions|] == questions;
    markdown := markdown + QuestionsFooter;
  }

  /** `get_questions(query, state)`: the one (text, state) pair it yields, and
      the input it gave the clarifier, if it called it. `traceId` is the value
      `gen_trace_id()` returns. */
  method GetQuestions(query: string, state: Option<string>, traceId: string,
                      clarifier: string -> Reply<seq<string>>)
    returns (shown: string, newState: Option<string>, clarifierInput: Option<string>)
    ensures IsBlank(query) <==> clarifierInput.None?
    ensures IsBlank(query) ==> shown == EnterQueryFirst && newState == state
    ensures clarifierInput.Some? ==> clarifierInput.value == "Research query: " + query
    ensures clarifierInput.Some? ==>
              match clarifier(clarifierInput.value)
              case Raised(e) => shown == QuestionsError + e && newState == state
              case Returned(questions) =>
                && shown == QuestionsHeader + NumberedList(questions) + QuestionsFooter
                && newState == Some(traceId)
  {
    if query == [] || IsBlank(query) {
      shown, newState, clarifierInput := EnterQueryFirst, state, None;
      return;
    }
    var input := "Research query: " + query;
    clarifierInput := Some(input);
    match clarifier(input)
    case Raised(e) =>
      shown, newState := QuestionsError + e, state;
    case Returned(questions) =>
      shown := FormatQuestions(questions);
      newState := Some(traceId);
  }

  // ---------------------------------------------------------------------------
  // run

  const EnterQuery := "Please enter a research query."
  const Starting := "Starting research... This may take a few minutes."
  const EmailRequired := ErrorWord + ": Email address is required when 'Send report via email' is checked."
  const EmailInvalid := ErrorWord + ": Please provide a valid email address."
  const ResearchError := ErrorWord + " during research: "
  const ResearchInstructions := "\n\nPlease conduct thorough research on this topic. Plan searches, perform them, write a report, evaluate it, and iterate if needed until you have a high-quality, complete report."

  /** The three answer boxes become the answer list when any of them is
      non-empty (even when only whitespace). */
  function ClarificationAnswers(answer1: string, answer2: string, answer3: string): (answers: Option<seq<string>>)
    ensures answers.None? <==> answer1 == [] && answer2 == [] && answer3 == []
    ensures answers.Some? ==> answers.value == [answer1, answer2, answer3]
  {
    if answer1 != [] || answer2 != [] || answer3 != [] then Some([answer1, answer2, answer3]) else None
  }

  /** The hand-off request added to the manager's input when e-mail is asked for. */
  function EmailHandoff(recipientEmail: string): string
  {
    "\n\nIMPORTANT: After completing the research and ensuring the report is high quality, hand off to the Email agent to send the final report to "
    + recipientEmail + ". Include the recipient email in your handoff message."
  }

  /** The message given to the research-manager agent: the refined query, the
      standing instructions and, when e-mail is requested, the hand-off request. */
  function ManagerInput(refinedQuery: string, sendEmail: bool, recipientEmail: string): string
  {
    "Research query: " + refinedQuery + ResearchInstructions
    + (if sendEmail then EmailHandoff(recipientEmail) else [])
  }

  /** The message `run` yields once it has called the agent: the report it
      extracts, or the exception's text. */
  function OutcomeMessage(reply: Reply<string>): (message: string)
    ensures || StartsWith(message, ErrorWord)
            || (|message| >= MinReportLength && !Contains(message, EmailSentMarker))
    ensures reply.Raised? ==> message == ResearchError + reply.error
    ensures reply.Returned? ==> message == ReportMessage(reply.value)
  {
    match reply
    case Raised(e) =>
      assert (ResearchError + e)[..|ErrorWord|] == ErrorWord;
      ResearchError + e
    case Returned(output) =>
      assert ReportNotFound[..|ErrorWord|] == ErrorWord;
      ReportMessage(output)
  }

  /** The `try` block of `run`: call the agent and post-process its output. */
  method CallManager(input: string, researchManager: string -> Reply<string>) returns (message: string)
    ensures message == OutcomeMessage(researchManager(input))
  {
    match researchManager(input)
    case Raised(e) =>
      message := ResearchError + e;
    case Returned(output) =>
      message := ExtractReport(output);
  }

  /** The address checks at the top of `run` when e-mail is requested: the
      error message to show, if any. */
  function EmailRequestError(sendEmail: bool, recipientEmail: string): (error: Option<string>)
    ensures error.None? <==> RunButtonEnabled(sendEmail, recipientEmail)
    ensures sendEmail && IsBlank(recipientEmail) ==> error == Some(EmailRequired)
    ensures sendEmail && !IsBlank(recipientEmail) && !IsValidEmail(recipientEmail) ==> error == Some(EmailInvalid)
    ensures error.Some? ==> StartsWith(error.value, ErrorWord)
  {
    if !sendEmail then None
    else if recipientEmail == [] || IsBlank(recipientEmail) then
      assert EmailRequired[..|ErrorWord|] == ErrorWord;
      Some(EmailRequired)
    else if !IsValidEmail(recipientEmail) then
      assert EmailInvalid[..|ErrorWord|] == ErrorWord;
      Some(EmailInvalid)
    else None
  }

  /** `run(...)`: the messages it yields, in order, and the input it gave the
      research-manager agent, if it called it. */
  method Run(query: string, sendEmail: bool, recipientEmail: string,
             answer1: string, answer2: string, answer3: string,
             researchManager: string -> Reply<string>)
    returns (messages: seq<string>, managerInput: Option<string>)
    ensures IsBlank(query) ==> messages == [EnterQuery] && managerInput.None?
    ensures !IsBlank(query) ==> |messages| == 2 && messages[0] == Starting
    ensures managerInput.Some? <==> !IsBlank(query) && EmailRequestError(sendEmail, recipientEmail).None?
    ensures !IsBlank(query) && managerInput.None? ==> messages[1] == EmailRequestError(sendEmail, recipientEmail).value
    ensures managerInput.Some? ==>
              var refined := RefineQuery(query, ClarificationAnswers(answer1, answer2, answer3));
              && managerInput.value == ManagerInput(refined, sendEmail, recipientEmail)
              && messages[1] == OutcomeMessage(researchManager(managerInput.value))
  {
    if query == [] || IsBlank(query) {
      messages, managerInput := [EnterQuery], None;
      return;
    }
    var answers := ClarificationAnswers(answer1, answer2, answer3);
    var refinedQuery := RefineQuery(query, answers);
    var error := EmailRequestError(sendEmail, recipientEmail);
    if error.Some? {
      messages, managerInput := [Starting, error.value], None;
      return;
    }
    var input := ManagerInput(refinedQuery, sendEmail, recipientEmail);
    managerInput := Some(input);
    var outcome := CallManager(input, researchManager);
    messages := [Starting, outcome];
  }
}
