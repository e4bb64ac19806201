/** Merging the answers to the clarifying questions into the research query.
    The front end (`refine_query` in app.py) and the scripted pipeline
    (`ResearchManager.refine_query`) carry the same code, so the composer is
    defined once here and both modules use it. */
module QueryComposer {
  import opened Wrappers
  import opened PyStrings

  /** The fixed header placed between the query and the answer bullets. */
  const ClarificationHeader := "\n\nAdditional context from clarification:\n"

  /** `answer and answer.strip()`: the answer has some non-whitespace text. */
  predicate IsFilled(answer: string)
  {
    !IsBlank(answer)
  }

  /** The lines `f"- {answer}"` for the filled answers, in input order; the
      answers themselves are not trimmed. */
  function Bullets(answers: seq<string>): (bullets: seq<string>)
    ensures |bullets| <= |answers|
    ensures bullets == [] <==> forall i | 0 <= i < |answers| :: !IsFilled(answers[i])
    ensures forall k | 0 <= k < |bullets| ::
              StartsWith(bullets[k], "- ") && bullets[k][2..] in answers && IsFilled(bullets[k][2..])
  {
    if answers == [] then []
    else
      assert forall i | 1 <= i < |answers| :: answers[i] == answers[1..][i - 1];
      (if IsFilled(answers[0]) then ["- " + answers[0]] else []) + Bullets(answers[1..])
  }

  /** The bullets of a concatenation are the bullets of each part, in order. */
  lemma {:induction false} BulletsAppend(a: seq<string>, b: seq<string>)
    ensures Bullets(a + b) == Bullets(a) + Bullets(b)
  {
    if a == [] {
      assert a + b == b;
    } else {
      assert (a + b)[0] == a[0];
      assert (a + b)[1..] == a[1..] + b;
      BulletsAppend(a[1..], b);
    }
  }

  /** `refine_query(original_query, answers)`. */
  function RefineQuery(original: string, answers: Option<seq<string>>): (refined: string)
    ensures StartsWith(refined, original)
    ensures refined == original <==>
              answers.None? || forall i | 0 <= i < |answers.value| :: !IsFilled(answers.value[i])
    ensures refined != original ==>
              refined == original + ClarificationHeader + Join("\n", Bullets(answers.value))
  {
    if answers.None? || answers.value == [] || |answers.value| == 0 then original
    else
      var answersText := Join("\n", Bullets(answers.value));
      if answersText != [] then original + ClarificationHeader + answersText
      else
        original
  }
}
