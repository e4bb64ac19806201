/** The post-processing of the research manager's final output in `run`
    (app.py): the e-mail confirmation preamble and code fences are removed,
    and a text too short to be a report is replaced by an error. */
module ReportExtraction {
  import opened Wrappers
  import opened PyStrings

  /** The confirmation the e-mail agent puts before the report. */
  const EmailSentMarker := "\U{2705} Email sent successfully"
  const Fence := "```"
  /** Shorter outputs are not taken for a report. */
  const MinReportLength := 50
  /** Every message that reports a failure starts with this word. */
  const ErrorWord := "Error"
  const ReportNotFound := ErrorWord + ": Report not found in output. Please check the trace link for details."

  /** `s.split("\n")[0]`: the first line, all of `s` when it has no newline. */
  function FirstLine(s: string): string
  {
    match Find(s, "\n")
    case None => s
    case Some(k) => s[..k]
  }

  /** `"\n".join(s.split("\n")[1:])`: what follows the first newline. */
  function AfterFirstLine(s: string): string
  {
    match Find(s, "\n")
    case None => []
    case Some(k) => s[k + 1..]
  }

  /** The line after the marker names the recipient: it mentions "to" in any
      case, or holds an `@`. */
  predicate NamesRecipient(line: string)
  {
    Contains(Lower(line), "to") || Contains(line, "@")
  }

  /** The text between the first `marker` and the next one, or the end:
      `s.split(marker)[1]` when `marker` occurs. */
  function TextAfterFirst(s: string, marker: string): string
  {
    match Find(s, marker)
    case None => []
    case Some(i) =>
      var rest := s[i + |marker|..];
      match Find(rest, marker)
      case None => rest
      case Some(j) => rest[..j]
  }

  /** No part of a text without `p` contains `p`. */
  lemma AbsentFromSlice(s: string, p: string, a: nat, b: nat)
    requires a <= b <= |s| && !Contains(s, p)
    ensures !Contains(s[a..b], p)
  {
    if Contains(s[a..b], p) {
      var q := Find(s[a..b], p).value;
      assert s[a + q..a + q + |p|] == s[a..b][q..q + |p|];
      assert OccursAt(s, p, a + q);
    }
  }

  lemma AbsentFromStrip(s: string, p: string)
    requires !Contains(s, p)
    ensures !Contains(Strip(s), p)
  {
    var lo, hi := StripBounds(s);
    AbsentFromSlice(s, p, lo, hi);
  }

  lemma NoMarkerAfterFirst(s: string, marker: string)
    requires marker != []
    ensures !Contains(TextAfterFirst(s, marker), marker)
  {
    var t := TextAfterFirst(s, marker);
    if Find(s, marker).None? {
      assert t == [];
      assert !OccursAt(t, marker, 0);
    } else {
      var rest := s[Find(s, marker).value + |marker|..];
      if Find(rest, marker).None? {
        assert t == rest;
      } else {
        assert t == rest[..Find(rest, marker).value];
        AbsentBeforeFirst(rest, marker, Find(rest, marker).value);
      }
    }
  }

  /** The text before the first occurrence of `p` does not contain `p`. */
  lemma AbsentBeforeFirst(s: string, p: string, j: nat)
    requires p != [] && Find(s, p) == Some(j)
    ensures !Contains(s[..j], p)
  {
    if Contains(s[..j], p) {
      var q := Find(s[..j], p).value;
      assert s[q..q + |p|] == s[..j][q..q + |p|];
      assert OccursAt(s, p, q);
    }
  }

  /** The text once the confirmation preamble is gone: without the marker, the
      stripped output; with it, the stripped text after the first marker, less
      its first line when that line names the recipient. */
  function WithoutConfirmation(s: string): (r: string)
    ensures IsStripped(r)
    ensures !Contains(s, EmailSentMarker) ==> r == Strip(s)
    ensures Contains(s, EmailSentMarker) ==>
              var part := Strip(TextAfterFirst(s, EmailSentMarker));
              && (r == part <==> !NamesRecipient(FirstLine(part)))
              && (r != part ==> r == Strip(AfterFirstLine(part)))
  {
    if !Contains(s, EmailSentMarker) then Strip(s)
    else
      var part := Strip(TextAfterFirst(s, EmailSentMarker));
      if NamesRecipient(FirstLine(part)) then
        DroppingFirstLineShortens(part);
        Strip(AfterFirstLine(part))
      else
        part
  }

  /** No confirmation marker is left once the preamble is gone. */
  lemma NoMarkerWithoutConfirmation(s: string)
    ensures !Contains(WithoutConfirmation(s), EmailSentMarker)
  {
    if !Contains(s, EmailSentMarker) {
      AbsentFromStrip(s, EmailSentMarker);
    } else {
      var part := Strip(TextAfterFirst(s, EmailSentMarker));
      NoMarkerAfterFirst(s, EmailSentMarker);
      AbsentFromStrip(TextAfterFirst(s, EmailSentMarker), EmailSentMarker);
      if NamesRecipient(FirstLine(part)) {
        var after := AfterFirstLine(part);
        AfterFirstLineIsSlice(part);
        AbsentFromSlice(part, EmailSentMarker, |part| - |after|, |part|);
        assert part[|part| - |after|..|part|] == after;
        AbsentFromStrip(after, EmailSentMarker);
      }
    }
  }

  lemma AfterFirstLineIsSlice(s: string)
    ensures |AfterFirstLine(s)| <= |s| && AfterFirstLine(s) == s[|s| - |AfterFirstLine(s)|..]
  {
  }

  /** A non-empty text loses at least its first character with its first line. */
  lemma DroppingFirstLineShortens(s: string)
    requires s != []
    ensures |Strip(AfterFirstLine(s))| < |s|
  {
  }

  /** The text once an opening code fence is gone: a text that starts with
      "```" loses its first line and then a closing "```" (stripping what is
      left); any other text is kept. */
  function WithoutFences(s: string): (r: string)
    ensures !StartsWith(s, Fence) ==> r == s
    ensures StartsWith(s, Fence) ==> |r| < |s|
  {
    if StartsWith(s, Fence) then
      var body := AfterFirstLine(s);
      AfterFirstLineIsSlice(s);
      FenceLineHasNoNewline(s);
      WithoutClosingFence(body)
    else
      s
  }

  /** The body of a fenced text less a closing "```", stripped. */
  function WithoutClosingFence(body: string): (r: string)
    ensures !EndsWith(body, Fence) ==> r == body
    ensures EndsWith(body, Fence) ==> |r| < |body|
  {
    if EndsWith(body, Fence) then Strip(body[..|body| - |Fence|]) else body
  }

  /** Removing fences cannot bring back a text that was not there. */
  lemma FencesKeepOut(s: string, p: string)
    requires !Contains(s, p)
    ensures !Contains(WithoutFences(s), p)
  {
    if StartsWith(s, Fence) {
      AfterFirstLineKeepsOut(s, p);
      ClosingFenceKeepsOut(AfterFirstLine(s), p);
    }
  }

  lemma AfterFirstLineKeepsOut(s: string, p: string)
    requires !Contains(s, p)
    ensures !Contains(AfterFirstLine(s), p)
  {
    var body := AfterFirstLine(s);
    AfterFirstLineIsSlice(s);
    AbsentFromSlice(s, p, |s| - |body|, |s|);
    assert s[|s| - |body|..|s|] == body;
  }

  lemma ClosingFenceKeepsOut(body: string, p: string)
    requires !Contains(body, p)
    ensures !Contains(WithoutClosingFence(body), p)
  {
    if EndsWith(body, Fence) {
      AbsentFromClosedBody(body, p);
    }
  }

  lemma AbsentFromClosedBody(body: string, p: string)
    requires !Contains(body, p) && |Fence| <= |body|
    ensures !Contains(Strip(body[..|body| - |Fence|]), p)
  {
    AbsentFromSlice(body, p, 0, |body| - |Fence|);
    assert body[0..|body| - |Fence|] == body[..|body| - |Fence|];
    AbsentFromStrip(body[..|body| - |Fence|], p);
  }

  /** A text that opens with a fence has its first newline after the fence. */
  lemma FenceLineHasNoNewline(s: string)
    requires StartsWith(s, Fence)
    ensures StartsWith(FirstLine(s), Fence)
    ensures Find(s, "\n").Some? ==> Find(s, "\n").value >= |Fence|
  {
    match Find(s, "\n")
    case None =>
    case Some(k) =>
      assert s[k] == s[k..k + 1][0] == '\n';
      assert forall j | 0 <= j < |Fence| :: s[j] == s[..|Fence|][j] == Fence[j];
      assert k >= |Fence|;
      assert s[..k][..|Fence|] == s[..|Fence|];
  }

  /** The second piece of a split on the marker is the text after the first one. */
  lemma SplitOnMarker(s: string)
    requires Contains(s, EmailSentMarker)
    ensures |Split(s, EmailSentMarker)| > 1
    ensures Split(s, EmailSentMarker)[1] == TextAfterFirst(s, EmailSentMarker)
  {
  }

  lemma SplitLinesHead(s: string)
    ensures Split(s, "\n")[0] == FirstLine(s)
  {
  }

  /** The single message `run` shows once the manager has returned `output`. */
  function ReportMessage(output: string): (message: string)
    ensures message == ReportNotFound ||
              (|message| >= MinReportLength && !Contains(message, EmailSentMarker))
    ensures |WithoutFences(WithoutConfirmation(output))| < MinReportLength ==> message == ReportNotFound
    ensures |WithoutFences(WithoutConfirmation(output))| >= MinReportLength ==>
              message == WithoutFences(WithoutConfirmation(output))
    ensures message != ReportNotFound ==> message == WithoutFences(WithoutConfirmation(output))
  {
    NoMarkerWithoutConfirmation(output);
    FencesKeepOut(WithoutConfirmation(output), EmailSentMarker);
    var text := WithoutFences(WithoutConfirmation(output));
    if text == [] || |text| < MinReportLength then ReportNotFound else text
  }

  /** The post-processing of app.py as it is written, on `split`, `join`,
      `strip` and slices: the preamble, then the fences, then the length check. */
  method ExtractReport(output: string) returns (message: string)
    ensures message == ReportMessage(output)
  {
    var finalOutput := DropConfirmation(output);
    finalOutput := DropFences(finalOutput);
    if finalOutput == [] || |finalOutput| < MinReportLength {
      message := ReportNotFound;
      return;
    }
    message := finalOutput;
  }

  method DropConfirmation(output: string) returns (finalOutput: string)
    ensures finalOutput == WithoutConfirmation(output)
  {
    finalOutput := output;
    if Contains(finalOutput, EmailSentMarker) {
      var parts := Split(finalOutput, EmailSentMarker);
      SplitOnMarker(finalOutput);
      if |parts| > 1 {
        var reportPart := Strip(parts[1]);
        var lines := Split(reportPart, "\n");
        SplitLinesHead(reportPart);
        if |lines| > 0 && (Contains(Lower(lines[0]), "to") || Contains(lines[0], "@")) {
          SplitTailJoin(reportPart, "\n");
          finalOutput := Strip(Join("\n", lines[1..]));
        } else {
          finalOutput := reportPart;
        }
      }
    } else {
      finalOutput := Strip(finalOutput);
    }
  }

  /** Splitting a fenced text into lines: the first line holds the fence and the
      others join back into what follows it. */
  lemma FencedLines(s: string)
    requires StartsWith(s, Fence)
    ensures StartsWith(Split(s, "\n")[0], Fence)
    ensures Join("\n", Split(s, "\n")[1..]) == AfterFirstLine(s)
  {
    FenceLineHasNoNewline(s);
    SplitLinesHead(s);
    SplitTailJoin(s, "\n");
  }

  method DropFences(text: string) returns (finalOutput: string)
    ensures finalOutput == WithoutFences(text)
  {
    finalOutput := text;
    if StartsWith(finalOutput, Fence) {
      finalOutput := DropFenceLine(finalOutput);
      finalOutput := DropClosingFence(finalOutput);
    }
  }

  /** The first line of a fenced text goes, by a split on newlines. */
  method DropFenceLine(text: string) returns (body: string)
    requires StartsWith(text, Fence)
    ensures body == AfterFirstLine(text)
  {
    body := text;
    var lines := Split(body, "\n");
    FencedLines(body);
    if StartsWith(lines[0], Fence) {
      body := Join("\n", lines[1..]);
    }
  }

  method DropClosingFence(body: string) returns (finalOutput: string)
    ensures finalOutput == WithoutClosingFence(body)
  {
    finalOutput := body;
    if EndsWith(finalOutput, Fence) {
      finalOutput := Strip(finalOutput[..|finalOutput| - 3]);
    }
  }
}
