/** The scripted research pipeline of `ResearchManager` (research_agents/manager.py):
    plan the searches, run them, write the report, and optionally hand it to
    the e-mail agent, yielding progress messages on the way. Every agent is a
    parameter: a function from the agent's input to what the agent returns or
    the exception it raises. */
module Manager {
  import opened Wrappers
  import opened PyStrings
  import opened QueryComposer

  /** One planned web search: the term to search for and why. */
  datatype SearchItem = SearchItem(query: string, reason: string)

  /** The writer agent's structured output. */
  datatype ReportData = ReportData(shortSummary: string, markdownReport: string, followUpQuestions: seq<string>)

  /** How a run of the generator ends: it returns, or an agent's exception
      escapes from it. */
  datatype RunEnd = Finished | Failed(error: string)

  const TraceLinkPrefix := "View trace: https://platform.openai.com/traces/trace?trace_id="
  const SearchesPlanned := "Searches planned, starting to search..."
  const SearchesComplete := "Searches complete, writing report..."
  const ReportComplete := "Report complete"
  const SendingEmail := "Report written, sending email..."
  const EmailSent := "Email sent, research complete"
  const EmailRequired := "Error: Email address is required when 'Send report via email' is checked."
  const QueryLabel := "Query: "
  const SearchTermLabel := "Search term: "
  const ReasonLabel := "\nReason for searching: "
  const RecipientLabel := "\n\nRecipient email: "

  function TraceLink(traceId: string): (link: string)
    ensures StartsWith(link, TraceLinkPrefix) && link[|TraceLinkPrefix|..] == traceId
  {
    TraceLinkPrefix + traceId
  }

  /** What `plan_searches` hands to the planner agent. */
  function PlannerInput(query: string): (input: string)
    ensures StartsWith(input, QueryLabel) && input[|QueryLabel|..] == query
  {
    QueryLabel + query
  }

  // ---------------------------------------------------------------------------
  // search

  /** The agent input built by `search`. */
  function SearchInput(item: SearchItem): string
  {
    SearchTermLabel + item.query + ReasonLabel + item.reason
  }

  /** Reads a search input back: the term runs up to the first newline, which
      must open the reason label. */
  function ParseSearchInput(input: string): (item: Option<SearchItem>)
    ensures item.Some? ==> '\n' !in item.value.query && SearchInput(item.value) == input
  {
    if !StartsWith(input, SearchTermLabel) then None
    else
      var rest := input[|SearchTermLabel|..];
      match FindChar(rest, '\n')
      case None => None
      case Some(k) =>
        if StartsWith(rest[k..], ReasonLabel) then
          ReassembleLabels(input, SearchTermLabel, ReasonLabel, k);
          Some(SearchItem(rest[..k], rest[k + |ReasonLabel|..]))
        else
          None
  }

  /** A text that opens with `a` and has `b` at offset `k` after it is `a`,
      the `k` characters in between, `b`, and the rest. */
  lemma ReassembleLabels(input: string, a: string, b: string, k: nat)
    requires StartsWith(input, a) && k <= |input| - |a| && StartsWith(input[|a|..][k..], b)
    ensures var rest := input[|a|..];
            a + rest[..k] + b + rest[k + |b|..] == input
  {
    var rest := input[|a|..];
    assert rest == rest[..k] + rest[k..];
    assert rest[k..] == b + rest[k + |b|..];
    assert input == a + rest;
  }

  /** A search term without a newline is recovered from the agent input, so
      different such items give different inputs. */
  lemma SearchInputRoundTrip(item: SearchItem)
    requires '\n' !in item.query
    ensures ParseSearchInput(SearchInput(item)) == Some(item)
  {
    assert ReasonLabel[0] == '\n';
    ParseLayout(SearchTermLabel, item.query, ReasonLabel, item.reason);
  }

  /** The layout `a + q + b + r` read back: after `a`, the first newline is the
      one `b` opens with, so `q` and `r` are found again. */
  lemma ParseLayout(a: string, q: string, b: string, r: string)
    requires '\n' !in q && b != [] && b[0] == '\n'
    ensures var input := a + q + b + r;
            var rest := input[|a|..];
            && StartsWith(input, a)
            && rest == q + b + r
            && FindChar(rest, '\n') == Some(|q|)
            && StartsWith(rest[|q|..], b)
            && rest[..|q|] == q
            && rest[|q| + |b|..] == r
  {
    var rest := q + b + r;
    assert a + q + b + r == a + rest;
    assert (a + rest)[..|a|] == a && (a + rest)[|a|..] == rest;
    NewlineAfter(q, b + r);
    assert rest == q + (b + r);
    assert rest[|q|..] == b + r;
    assert rest[..|q|] == q;
  }

  /** The first newline of `q + t`, when `q` has none and `t` opens with one. */
  lemma NewlineAfter(q: string, t: string)
    requires '\n' !in q && t != [] && t[0] == '\n'
    ensures FindChar(q + t, '\n') == Some(|q|)
  {
    var s := q + t;
    assert s[|q|] == '\n';
    assert forall j | 0 <= j < |q| :: s[j] == q[j];
    FirstOccurrence(s, '\n', |q|);
  }

  lemma FirstOccurrence(s: string, c: char, k: nat)
    requires k < |s| && s[k] == c && forall j | 0 <= j < k :: s[j] != c
    ensures FindChar(s, c) == Some(k)
  {
  }

  /** The search agent as called by the task for the planned search at a
      given index: each task's call succeeds or fails on its own, so two tasks
      with the same input may see different outcomes. */
  type Searcher = (nat, string) -> Reply<string>

  /** `search` run by the task for plan index `index`: the searcher's output,
      or None when it raises. */
  function Search(index: nat, item: SearchItem, searcher: Searcher): (result: Option<string>)
    ensures result.None? <==> searcher(index, SearchInput(item)).Raised?
    ensures result.Some? ==> result.value == searcher(index, SearchInput(item)).value
  {
    match searcher(index, SearchInput(item))
    case Returned(summary) => Some(summary)
    case Raised(_) => None
  }

  // ---------------------------------------------------------------------------
  // perform_searches

  /** `order[k]` is the plan index of the k-th search to complete: every
      search completes exactly once. */
  predicate IsCompletionOrder(order: seq<nat>, n: nat)
  {
    && |order| == n
    && (forall k | 0 <= k < n :: order[k] < n)
    && (forall k, l | 0 <= k < l < n :: order[k] != order[l])
    && (forall i | 0 <= i < n :: i in order)
  }

  /** A completion order for every plan: how the searches of any plan finish. */
  ghost predicate IsSchedule(schedule: seq<SearchItem> -> seq<nat>)
  {
    forall plan :: IsCompletionOrder(schedule(plan), |plan|)
  }

  lemma ScheduleOrder(schedule: seq<SearchItem> -> seq<nat>, plan: seq<SearchItem>)
    requires IsSchedule(schedule)
    ensures IsCompletionOrder(schedule(plan), |plan|)
  {
  }

  /** The outcomes of the searches, in the order they complete. */
  function CompletedOutcomes(plan: seq<SearchItem>, order: seq<nat>, searcher: Searcher): (outcomes: seq<Option<string>>)
    requires IsCompletionOrder(order, |plan|)
    ensures |outcomes| == |plan|
    ensures forall k | 0 <= k < |plan| :: outcomes[k] == Search(order[k], plan[order[k]], searcher)
  {
    seq(|plan|, k requires 0 <= k < |plan| => Search(order[k], plan[order[k]], searcher))
  }

  /** The summaries of the outcomes that are not None, in order; empty
      summaries are kept. */
  function Successes(outcomes: seq<Option<string>>): (summaries: seq<string>)
    ensures |summaries| <= |outcomes|
    ensures forall s :: s in summaries <==> Some(s) in outcomes
  {
    if outcomes == [] then []
    else
      var init := outcomes[..|outcomes| - 1];
      var last := outcomes[|outcomes| - 1];
      assert outcomes == init + [last];
      Successes(init) + (if last.Some? then [last.value] else [])
  }

  /** Keeping the successes commutes with concatenation, so the order of the
      summaries is the order of completion. */
  lemma {:induction false} SuccessesAppend(a: seq<Option<string>>, b: seq<Option<string>>)
    ensures Successes(a + b) == Successes(a) + Successes(b)
    decreases |b|
  {
    if b == [] {
      assert a + b == a;
    } else {
      var init := b[..|b| - 1];
      assert a + b == (a + init) + [b[|b| - 1]];
      assert (a + b)[..|a + b| - 1] == a + init;
      SuccessesAppend(a, init);
    }
  }

  /** The plan indices of the searches whose agent raised. */
  function FailedSearches(plan: seq<SearchItem>, searcher: Searcher): (failed: set<nat>)
    ensures forall i: nat :: i in failed <==> i < |plan| && Search(i, plan[i], searcher).None?
  {
    set i: nat | i < |plan| && Search(i, plan[i], searcher).None?
  }

  /** The failed searches among the first `count` to complete. */
  function FailedAmongFirst(plan: seq<SearchItem>, order: seq<nat>, searcher: Searcher, count: nat): set<nat>
    requires IsCompletionOrder(order, |plan|) && count <= |plan|
  {
    set k | 0 <= k < count && Search(order[k], plan[order[k]], searcher).None? :: order[k]
  }

  /** `perform_searches`: wait for each search as it completes, keep its
      summary unless it failed, and count it in any case. */
  method PerformSearches(plan: seq<SearchItem>, order: seq<nat>, searcher: Searcher)
    returns (results: seq<string>, numCompleted: nat)
    requires IsCompletionOrder(order, |plan|)
    ensures numCompleted == |plan|
    ensures results == SearchResults(plan, order, searcher)
    ensures |results| == |plan| - |FailedSearches(plan, searcher)|
    ensures plan == [] ==> results == []
  {
    ghost var outcomes := CompletedOutcomes(plan, order, searcher);
    numCompleted := 0;
    results := [];
    while numCompleted < |order|
      invariant numCompleted <= |order|
      invariant results == Successes(outcomes[..numCompleted])
      invariant |results| == numCompleted - |FailedAmongFirst(plan, order, searcher, numCompleted)|
    {
      var result := Search(order[numCompleted], plan[order[numCompleted]], searcher);
      SearchStep(plan, order, searcher, numCompleted);
      if result.Some? {
        results := results + [result.value];
      }
      numCompleted := numCompleted + 1;
    }
    assert outcomes[..numCompleted] == outcomes;
    AllCompletedFailures(plan, order, searcher);
  }

  /** One more completion appends its summary, if any, and adds its index to
      the failures exactly when it failed. */
  lemma SearchStep(plan: seq<SearchItem>, order: seq<nat>, searcher: Searcher, count: nat)
    requires IsCompletionOrder(order, |plan|) && count < |plan|
    ensures var outcomes := CompletedOutcomes(plan, order, searcher);
            var result := Search(order[count], plan[order[count]], searcher);
            && Successes(outcomes[..count + 1]) == Successes(outcomes[..count]) + (if result.Some? then [result.value] else [])
            && |FailedAmongFirst(plan, order, searcher, count + 1)| ==
                 |FailedAmongFirst(plan, order, searcher, count)| + (if result.None? then 1 else 0)
  {
    var outcomes := CompletedOutcomes(plan, order, searcher);
    var result := Search(order[count], plan[order[count]], searcher);
    assert outcomes[..count + 1] == outcomes[..count] + [result];
    SuccessesAppend(outcomes[..count], [result]);
    CompletedOneMore(plan, order, searcher, count);
  }

  /** One more completion adds its index to the failures exactly when it failed. */
  lemma CompletedOneMore(plan: seq<SearchItem>, order: seq<nat>, searcher: Searcher, count: nat)
    requires IsCompletionOrder(order, |plan|) && count < |plan|
    ensures var before := FailedAmongFirst(plan, order, searcher, count);
            var after := FailedAmongFirst(plan, order, searcher, count + 1);
            if Search(order[count], plan[order[count]], searcher).None?
            then order[count] !in before && after == before + {order[count]}
            else after == before
  {
    var before := FailedAmongFirst(plan, order, searcher, count);
    var after := FailedAmongFirst(plan, order, searcher, count + 1);
    if Search(order[count], plan[order[count]], searcher).None? {
      assert after == before + {order[count]};
    } else {
      assert after == before;
    }
  }

  /** Once every search has completed, the failures seen are all the failures. */
  lemma AllCompletedFailures(plan: seq<SearchItem>, order: seq<nat>, searcher: Searcher)
    requires IsCompletionOrder(order, |plan|)
    ensures FailedAmongFirst(plan, order, searcher, |plan|) == FailedSearches(plan, searcher)
  {
    var seen := FailedAmongFirst(plan, order, searcher, |plan|);
    forall i | i in FailedSearches(plan, searcher) ensures i in seen {
      assert i in order;
      var k :| 0 <= k < |order| && order[k] == i;
    }
  }

  // ---------------------------------------------------------------------------
  // send_email

  /** The message `send_email` hands to the e-mail agent. */
  function EmailInput(markdown: string, recipient: string): string
  {
    markdown + RecipientLabel + recipient
  }

  /** Reads an e-mail agent input back into the report and the recipient: the
      recipient follows the last newline, which ends the recipient label. */
  function ParseEmailInput(input: string): (parts: Option<(string, string)>)
    ensures parts.Some? ==> '\n' !in parts.value.1 && EmailInput(parts.value.0, parts.value.1) == input
  {
    match RFindChar(input, '\n')
    case None => None
    case Some(k) =>
      if k < 1 || |input| < k - 1 + |RecipientLabel| then None
      else
        var start := k - 1;
        if input[start..start + |RecipientLabel|] != RecipientLabel then None
        else
          var recipient := input[start + |RecipientLabel|..];
          assert '\n' !in recipient by {
            forall j | 0 <= j < |recipient| ensures recipient[j] != '\n' {
              assert recipient[j] == input[start + |RecipientLabel| + j];
            }
          }
          assert input == input[..start] + input[start..start + |RecipientLabel|] + recipient;
          Some((input[..start], recipient))
  }

  /** A recipient without a newline is recovered, with the whole report,
      whatever the report contains. */
  lemma EmailInputRoundTrip(markdown: string, recipient: string)
    requires '\n' !in recipient
    ensures ParseEmailInput(EmailInput(markdown, recipient)) == Some((markdown, recipient))
  {
    var input := EmailInput(markdown, recipient);
    var k := |markdown| + 1;
    assert input[k] == '\n';
    assert forall j | k < j < |input| :: input[j] != '\n' by {
      forall j | k < j < |input| ensures input[j] != '\n' {
        if j < |markdown| + |RecipientLabel| {
          assert input[j] == RecipientLabel[j - |markdown|];
        } else {
          assert input[j] == recipient[j - |markdown| - |RecipientLabel|];
        }
      }
    }
    assert RFindChar(input, '\n') == Some(k);
    assert input[k - 1..k - 1 + |RecipientLabel|] == RecipientLabel;
    assert input[..k - 1] == markdown;
    assert input[k - 1 + |RecipientLabel|..] == recipient;
  }

  // ---------------------------------------------------------------------------
  // run

  /** `not recipient_email or not recipient_email.strip()`. */
  predicate RecipientMissing(recipient: Option<string>)
  {
    recipient.None? || IsBlank(recipient.value)
  }

  /** What `run` yields once the report is written, how it ends, and what it
      hands to the e-mail agent, for each branch of the e-mail gate. */
  predicate ClosesWith(tail: seq<string>, end: RunEnd, emailCalls: seq<string>, report: ReportData,
                       sendEmail: bool, recipient: Option<string>, emailAgent: string -> Reply<string>)
  {
    if !sendEmail then
      tail == [ReportComplete, report.markdownReport] && end == Finished && emailCalls == []
    else if RecipientMissing(recipient) then
      tail == [EmailRequired, report.markdownReport] && end == Finished && emailCalls == []
    else
      var input := EmailInput(report.markdownReport, recipient.value);
      && emailCalls == [input]
      && match emailAgent(input)
         case Returned(_) => tail == [SendingEmail, EmailSent, report.markdownReport] && end == Finished
         case Raised(e) => tail == [SendingEmail] && end == Failed(e)
  }

  /** The e-mail gate: the agent is called at most once, only for a request
      with a non-blank address, and a run that finishes shows the report last. */
  lemma EmailGate(tail: seq<string>, end: RunEnd, emailCalls: seq<string>, report: ReportData,
                  sendEmail: bool, recipient: Option<string>, emailAgent: string -> Reply<string>)
    requires ClosesWith(tail, end, emailCalls, report, sendEmail, recipient, emailAgent)
    ensures |emailCalls| <= 1
    ensures emailCalls != [] ==> sendEmail && recipient.Some? && !IsBlank(recipient.value)
    ensures emailCalls != [] ==> emailCalls[0] == EmailInput(report.markdownReport, recipient.value)
    ensures end.Finished? ==> tail != [] && tail[|tail| - 1] == report.markdownReport
  {
  }

  /** The branch of `run` after the report is written. */
  method Close(report: ReportData, sendEmail: bool, recipient: Option<string>, emailAgent: string -> Reply<string>)
    returns (tail: seq<string>, end: RunEnd, emailCalls: seq<string>)
    ensures ClosesWith(tail, end, emailCalls, report, sendEmail, recipient, emailAgent)
  {
    emailCalls := [];
    if sendEmail {
      if recipient.None? || IsBlank(recipient.value) {
        tail := [EmailRequired, report.markdownReport];
        end := Finished;
        return;
      }
      tail := [SendingEmail];
      var input := EmailInput(report.markdownReport, recipient.value);
      emailCalls := [input];
      var sent := emailAgent(input);
      if sent.Raised? {
        end := Failed(sent.error);
        return;
      }
      tail := tail + [EmailSent];
    } else {
      tail := [ReportComplete];
    }
    tail := tail + [report.markdownReport];
    end := Finished;
  }

  /** The summaries the writer receives for a plan. */
  function SearchResults(plan: seq<SearchItem>, order: seq<nat>, searcher: Searcher): (results: seq<string>)
    requires IsCompletionOrder(order, |plan|)
    ensures |results| <= |plan|
    ensures forall s :: s in results <==> exists i | 0 <= i < |plan| :: searcher(i, SearchInput(plan[i])) == Returned(s)
  {
    CompletedSummaries(plan, order, searcher);
    Successes(CompletedOutcomes(plan, order, searcher))
  }

  /** A summary comes out of some completed search exactly when some planned
      search returned it. */
  lemma CompletedSummaries(plan: seq<SearchItem>, order: seq<nat>, searcher: Searcher)
    requires IsCompletionOrder(order, |plan|)
    ensures forall s :: Some(s) in CompletedOutcomes(plan, order, searcher) <==>
              exists i | 0 <= i < |plan| :: searcher(i, SearchInput(plan[i])) == Returned(s)
  {
    var outcomes := CompletedOutcomes(plan, order, searcher);
    forall s ensures Some(s) in outcomes <==> exists i | 0 <= i < |plan| :: searcher(i, SearchInput(plan[i])) == Returned(s) {
      if Some(s) in outcomes {
        var k :| 0 <= k < |plan| && outcomes[k] == Some(s);
        assert searcher(order[k], SearchInput(plan[order[k]])) == Returned(s);
      }
      if exists i | 0 <= i < |plan| :: searcher(i, SearchInput(plan[i])) == Returned(s) {
        var i :| 0 <= i < |plan| && searcher(i, SearchInput(plan[i])) == Returned(s);
        assert i in order;
        var k :| 0 <= k < |order| && order[k] == i;
        assert outcomes[k] == Some(s);
      }
    }
  }

  /** `ResearchManager.run`: the messages it yields in order, how it ends,
      and the inputs it gives the e-mail agent. `schedule` says in which order
      the searches of a plan complete. */
  method Run(query: string, sendEmail: bool, recipient: Option<string>, answers: Option<seq<string>>,
             traceId: string,
             planner: string -> Reply<seq<SearchItem>>,
             searcher: Searcher,
             schedule: seq<SearchItem> -> seq<nat>,
             writer: (string, seq<string>) -> Reply<ReportData>,
             emailAgent: string -> Reply<string>)
    returns (messages: seq<string>, end: RunEnd, emailCalls: seq<string>)
    requires IsSchedule(schedule)
    ensures var planned := planner(PlannerInput(RefineQuery(query, answers)));
            if planned.Raised? then
              messages == [TraceLink(traceId)] && end == Failed(planned.error) && emailCalls == []
            else
              && IsCompletionOrder(schedule(planned.value), |planned.value|)
              && |messages| >= 3 && messages[..3] == [TraceLink(traceId), SearchesPlanned, SearchesComplete]
              && ReportsWith(messages[3..], end, emailCalls, RefineQuery(query, answers), planned.value,
                             schedule(planned.value), searcher, writer, sendEmail, recipient, emailAgent)
  {
    emailCalls := [];
    var refined := RefineQuery(query, answers);
    var planned := planner(PlannerInput(refined));
    if planned.Raised? {
      messages := [TraceLink(traceId)];
      end := Failed(planned.error);
      return;
    }
    var plan := planned.value;
    ScheduleOrder(schedule, plan);
    var tail;
    tail, end, emailCalls := SearchAndReport(refined, plan, schedule(plan), searcher, writer, sendEmail, recipient, emailAgent);
    var head := [TraceLink(traceId), SearchesPlanned, SearchesComplete];
    messages := head + tail;
    assert messages[..3] == head;
    assert messages[3..] == tail;
  }

  /** What `run` yields after "Searches complete, writing report...": nothing
      more when the writer, given the query and the search results, raises;
      otherwise what the e-mail gate yields for the report. */
  predicate ReportsWith(tail: seq<string>, end: RunEnd, emailCalls: seq<string>, query: string,
                        plan: seq<SearchItem>, order: seq<nat>, searcher: Searcher,
                        writer: (string, seq<string>) -> Reply<ReportData>,
                        sendEmail: bool, recipient: Option<string>, emailAgent: string -> Reply<string>)
    requires IsCompletionOrder(order, |plan|)
  {
    var written := writer(query, SearchResults(plan, order, searcher));
    && (written.Raised? ==> tail == [] && end == Failed(written.error) && emailCalls == [])
    && (written.Returned? ==> ClosesWith(tail, end, emailCalls, written.value, sendEmail, recipient, emailAgent))
  }

  /** The part of `run` after the plan: the searches, the report and the
      e-mail gate, with what is yielded after "Searches complete, writing report...". */
  method SearchAndReport(query: string, plan: seq<SearchItem>, order: seq<nat>, searcher: Searcher,
                         writer: (string, seq<string>) -> Reply<ReportData>,
                         sendEmail: bool, recipient: Option<string>, emailAgent: string -> Reply<string>)
    returns (tail: seq<string>, end: RunEnd, emailCalls: seq<string>)
    requires IsCompletionOrder(order, |plan|)
    ensures ReportsWith(tail, end, emailCalls, query, plan, order, searcher, writer, sendEmail, recipient, emailAgent)
  {
    var results, _ := PerformSearches(plan, order, searcher);
    tail, end, emailCalls := WriteAndClose(query, results, writer, sendEmail, recipient, emailAgent);
  }

  /** `write_report` and the e-mail gate of `run`: what is yielded after
      "Searches complete, writing report...". */
  method WriteAndClose(query: string, results: seq<string>, writer: (string, seq<string>) -> Reply<ReportData>,
                       sendEmail: bool, recipient: Option<string>, emailAgent: string -> Reply<string>)
    returns (tail: seq<string>, end: RunEnd, emailCalls: seq<string>)
    ensures writer(query, results).Raised? ==>
              tail == [] && end == Failed(writer(query, results).error) && emailCalls == []
    ensures writer(query, results).Returned? ==>
              ClosesWith(tail, end, emailCalls, writer(query, results).value, sendEmail, recipient, emailAgent)
  {
    var written := writer(query, results);
    if written.Raised? {
      tail, end, emailCalls := [], Failed(written.error), [];
      return;
    }
    tail, end, emailCalls := Close(written.value, sendEmail, recipient, emailAgent);
  }

  /** Every run yields the trace link first; one that finishes yields the
      report last, after exactly four other messages. */
  lemma FinishedRunShape(messages: seq<string>, end: RunEnd, emailCalls: seq<string>, report: ReportData,
                         sendEmail: bool, recipient: Option<string>, emailAgent: string -> Reply<string>)
    requires |messages| >= 3
    requires ClosesWith(messages[3..], end, emailCalls, report, sendEmail, recipient, emailAgent)
    requires end.Finished?
    ensures |messages| == 5 || |messages| == 6
    ensures messages[|messages| - 1] == report.markdownReport
    ensures |messages| == 6 <==> emailCalls != []
  {
  }

}
