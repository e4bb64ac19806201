# research-helper, modelled in Dafny

research-helper is a research assistant. A Gradio front end (`app.py`) takes a
research query, can ask a clarifier agent for questions, merges the answers
into the query, checks an optional e-mail address, calls a research-manager
agent, and cleans up what that agent returns before showing it. A scripted
pipeline, `ResearchManager` (`research_agents/manager.py`), runs the same job
step by step. It plans searches, runs them concurrently, writes a report and
can e-mail it, yielding progress messages on the way.

This project models the deterministic code around the agent calls. Every
agent is a function parameter. It maps the agent's input to
`Returned(value)`, or to `Raised(message)` when the call throws.

- `wrappers.dfy`: module `Wrappers`, holding `Option` and `Reply` (an agent's answer or exception).
- `py_strings.dfy`: module `PyStrings`. These are the Python `str` operations the code relies
  on: `isspace`/`strip`, `in`/`find`, `split`/`join`, `lower`, `startswith`/`endswith`
  and decimal rendering, each with its properties (`Join(sep, Split(s, sep)) == s`, ...).
- `query_composer.dfy`: module `QueryComposer`, the `refine_query` composer.
  `app.py:19-27` and `research_agents/manager.py:48-57` contain the same code, so the
  composer is defined once and used by both `App` and `Manager`.
- `app_email.dfy`: module `EmailCheck`, covering `is_valid_email` and `update_button_state`.
  The regular expression `^[a-zA-Z0-9._%+-]+@[a-zA-Z0-9.-]+\.[a-zA-Z]{2,}$` is written
  out as an existential over the positions of `@` and the final `.`. A decision procedure
  is proved equal to it.
- `app_report.dfy`: module `ReportExtraction`, the post-processing of the manager's output in
  `run`. It removes the "✅ Email sent successfully" preamble, then code fences, then rejects
  texts shorter than 50 characters. Each step is given twice: as a specification function, and
  as a method written the way the Python does it with `split`/`join`/`strip`. The two are proved equal.
- `app.dfy`: module `App`, covering `get_questions` (the numbered-question markdown loop) and `run`
  (the early exits, the manager input and the single outcome message).
- `manager.dfy`: module `Manager`, covering `ResearchManager`:
  - the search input and its parser;
  - `search`, which maps exceptions to `None`;
  - `perform_searches`, a loop over the searches in completion order;
  - the e-mail agent input and its parser;
  - the ordered messages of `run` and its e-mail gate.

Four behaviours of the code are worth stating plainly:

- An exception from the planner, the writer or the e-mail agent escapes the generator of
  `manager.py`, after the messages already yielded. `Manager.Run` reports it as `Failed(error)`.
- After the confirmation marker, the first line is dropped when it contains "to" in any case,
  or an `@`.
- The planner's output is decoded, not validated. A decoding failure is an exception of the
  planner parameter.
- Each search task calls the search agent on its own. The searcher parameter is given the
  task's plan index along with the input, so two tasks with the same input can still
  succeed or fail independently.

## Model

| member | source | states |
|---|---|---|
| `QueryComposer.Bullets` | research_agents/manager.py:54-55 | one `"- " + answer` line per answer with non-whitespace text, answer untrimmed; none exactly when every answer is blank |
| `QueryComposer.BulletsAppend` | app.py:24 | the bullets keep the order of the answers: bullets of a concatenation are the concatenation of the bullets |
| `QueryComposer.RefineQuery` | app.py:19-27 | the query is returned unchanged iff the answers are absent, empty or all blank; otherwise it is the query, the fixed clarification header and the bullets joined by newlines |
| `PyStrings.Strip` | app.py:98 | the stripped text has no surrounding whitespace, is no longer than the input, and is empty iff the input is all whitespace |
| `PyStrings.StripIdempotent` | app.py:91 | stripping twice is stripping once |
| `PyStrings.JoinSplit` | app.py:94 | joining the pieces of a split with the separator gives back the text |
| `PyStrings.Lower` | app.py:93 | lower-casing keeps the length and maps each character by ASCII lower-casing |
| `PyStrings.ParseNatToString` | app.py:45-46 | the decimal rendering of a question number reads back as that number |
| `EmailCheck.IsAddressMatches` | app.py:15-16 | the decision procedure accepts exactly the texts the address pattern matches |
| `EmailCheck.IsValidEmail` | app.py:11-16 | an address is valid iff its stripped form matches the pattern; blank input is never valid |
| `EmailCheck.ValidEmailIgnoresSurroundingSpace` | app.py:13-16 | an address and its stripped form get the same verdict |
| `EmailCheck.ValidEmailShape` | app.py:15 | an accepted address has exactly one `@`, a non-empty local part over `[A-Za-z0-9._%+-]`, a domain over `[A-Za-z0-9.-]` and a final `.` followed by at least two ASCII letters |
| `EmailCheck.RunButtonEnabled` | app.py:117-124 | the run button is enabled iff e-mail is not requested or the address is valid |
| `ReportExtraction.WithoutConfirmation` | app.py:88-98 | without the marker the output is stripped; with it, the stripped text between the first marker and the next is kept, and loses its first line iff that line contains "to" (any case) or `@` |
| `ReportExtraction.SplitOnMarker` | app.py:89-91 | when the marker occurs, the split has a second piece, the text between the first marker and the next |
| `ReportExtraction.NoMarkerWithoutConfirmation` | app.py:88-98 | no confirmation marker is left after the preamble is removed |
| `ReportExtraction.DropConfirmation` | app.py:86-98 | the split/strip/join steps compute `WithoutConfirmation` |
| `ReportExtraction.WithoutFences` | app.py:100-105 | a text not opening with three backticks is kept; a fenced text gets strictly shorter |
| `ReportExtraction.WithoutClosingFence` | app.py:104-105 | a body not ending with three backticks is kept; otherwise it gets strictly shorter |
| `ReportExtraction.FencesKeepOut` | app.py:100-105 | removing fences never makes a text contain something it did not contain |
| `ReportExtraction.FencedLines` | app.py:101-103 | the first line of a fenced text starts with the fence, and joining the other lines gives the text after the first newline |
| `ReportExtraction.DropFences` | app.py:100-105 | the fence-removal steps compute `WithoutFences` |
| `ReportExtraction.DropFenceLine` | app.py:101-103 | split, test and join drop exactly the first line of a fenced text |
| `ReportExtraction.DropClosingFence` | app.py:104-105 | slicing off a trailing fence and stripping computes `WithoutClosingFence` |
| `ReportExtraction.ReportMessage` | app.py:86-111 | a cleaned text (preamble, then fences removed) under 50 characters gives the fixed "Report not found" error; one of 50 or more characters is itself the message; so the message is that error or a text of at least 50 characters without the confirmation marker |
| `ReportExtraction.ExtractReport` | app.py:86-111 | the step-by-step post-processing computes `ReportMessage`: the cleaned text when it has 50 or more characters, the "Report not found" error otherwise |
| `App.NumberedListPlacesQuestion` | app.py:45-46 | question `j` is listed as number `j + 1`, right after the questions before it |
| `App.FormatQuestions` | app.py:44-47 | the loop builds the header, the numbered questions in order, then the footer |
| `App.GetQuestions` | app.py:30-50 | a blank query yields the prompt and never calls the clarifier; otherwise the clarifier gets "Research query: " plus the query, and the markdown with the new trace id, or the error text with the old state, is shown |
| `App.ClarificationAnswers` | app.py:61 | the three answers are passed on iff any of them is non-empty |
| `App.OutcomeMessage` | app.py:80-114 | an exception gives "Error during research: " followed by its text; an answer gives its `ReportMessage`; either way the message starts with "Error" or is a report of at least 50 characters without the confirmation marker |
| `App.CallManager` | app.py:80-114 | calling the agent yields "Error during research: " and the exception's text when it raises, and the post-processed report message when it answers (`OutcomeMessage` of the reply) |
| `App.EmailRequestError` | app.py:71-77 | no error iff the run button would be enabled; a blank address gives the "required" error, an invalid one the "valid address" error; every error starts with "Error" |
| `App.Run` | app.py:53-114 | a blank query yields one message and no agent call; otherwise "Starting research..." and exactly one more message; the agent is called iff the address checks pass, with the refined query, the instructions and the hand-off request, and the second message is its outcome |
| `Manager.TraceLink` | research_agents/manager.py:15-16 | the first message is the trace URL prefix followed by the trace id |
| `Manager.PlannerInput` | research_agents/manager.py:63-66 | the planner gets "Query: " followed by the refined query |
| `Manager.ParseSearchInput` | research_agents/manager.py:87 | whatever the parser accepts is the search input of the item it returns |
| `Manager.SearchInputRoundTrip` | research_agents/manager.py:87 | a search term without a newline and its reason are recovered from the agent input |
| `Manager.Search` | research_agents/manager.py:85-95 | the search of one task is `None` exactly when that task's searcher call raises, and otherwise the searcher's output |
| `Manager.CompletedOutcomes` | research_agents/manager.py:74-77 | the k-th outcome awaited is the search of the k-th search to complete |
| `Manager.Successes` | research_agents/manager.py:76-79 | a summary is kept iff some outcome is that summary (empty ones included); never more summaries than outcomes |
| `Manager.SuccessesAppend` | research_agents/manager.py:76-79 | the summaries come out in completion order |
| `Manager.PerformSearches` | research_agents/manager.py:70-83 | every search is counted once, so the count ends at the plan size; the results are the successful summaries in completion order; their number is the plan size less the failed searches; an empty plan gives no results |
| `Manager.SearchResults` | research_agents/manager.py:70-83 | the writer sees a summary iff the task of some planned search returned it |
| `Manager.ParseEmailInput` | research_agents/manager.py:111-112 | whatever the parser accepts is the e-mail input of the report and recipient it returns |
| `Manager.EmailInputRoundTrip` | research_agents/manager.py:111-112 | the report and a recipient without a newline are recovered from the e-mail agent input, whatever the report contains |
| `Manager.EmailGate` | research_agents/manager.py:27-34 | the e-mail agent is called at most once, only when e-mail is requested with a non-blank address, with the report and that address; a finished run ends with the report |
| `Manager.Close` | research_agents/manager.py:27-37 | after the report: "Report complete" then the report; or the "required" error then the report and no e-mail; or "sending email", the e-mail call, then "Email sent" and the report, or the e-mail agent's exception |
| `Manager.SearchAndReport` | research_agents/manager.py:24-37 | the writer gets the query and the successful summaries in completion order; a writer exception ends the run with nothing more yielded; otherwise the e-mail gate follows |
| `Manager.WriteAndClose` | research_agents/manager.py:26-37 | a writer exception ends the run with nothing more yielded; otherwise the e-mail gate follows |
| `Manager.Run` | research_agents/manager.py:11-37 | the trace link comes first; a planner exception ends the run there; otherwise "Searches planned" and "Searches complete" follow, the writer gets the refined query and the search results, and the e-mail gate ends the sequence |
| `Manager.FinishedRunShape` | research_agents/manager.py:16-37 | a finished run yields five messages, or six when the e-mail was sent, and the report is always last |

## Left out

- The evaluate-and-refine loop, the quality threshold, the iteration cap and the exactly-once hand-off. They exist only as agent instructions (research_agents/research_manager.py:9-52), not as code.
- The agent and schema declarations in research_agents/ (planner, writer, search, clarifier, evaluator, optimizer and e-mail agents). They are configuration and prompts. Their outputs are plain datatypes or strings here.
- research_agents/email.py (`send_email` over SendGrid) is not part of this model. It is a network call with environment credentials.
- Concurrency in `perform_searches`. The order in which the searches finish is an input, a permutation of the plan (`IsCompletionOrder`). `Manager.Run` takes it as a `schedule` of the plan.
- `Runner.run`, `trace`, `gen_trace_id`, `load_dotenv` and every `print`. Trace ids are parameters; the progress prints of `perform_searches` and `run` are not modelled.
- The Gradio wiring (app.py:127-207), including how the question boxes are shown and hidden.
- The writer's input text (research_agents/manager.py:100) embeds Python's `repr` of the result list. The writer parameter receives the refined query and the result sequence instead.
- `ResearchManager.get_clarifying_questions` (research_agents/manager.py:39-46) only calls the clarifier agent. The front end's own call to it is modelled in `App.GetQuestions`.
- `str(result.final_output)` and `str(e)`: the agent's output and the exception's text are already strings.
- `PyStrings.Lower` lower-cases ASCII letters only. The only question asked of the result is whether it contains "to", and no other character lower-cases to `t` or `o`, so the answer is the same as with Python's full Unicode lower-casing.
- `EmailCheck.IsValidEmail` is applied to the stripped address. That stripped address never ends with a newline, so the `$` anchor (which also matches before a final newline) makes no difference.
- `App.Run` builds the manager input after the address checks, while `app.py` builds its first part before them. Nothing is yielded in between, so what is observed is the same.
