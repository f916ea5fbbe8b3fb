/**
 * Prompt construction, server/src/models/core.py: `PromptBuilder` picks a
 * template by the question's family and fills it, `construct_messages` puts
 * the prompt behind a fixed system message, and `make_prompt` reports the
 * messages together with the prompt.
 *
 * The three templates live in a module this model does not contain, so they
 * are uninterpreted functions of the fields `format` fills; the model passes
 * them the same values the source does.
 */
module Prompts {
  import opened Strings
  import opened Exceptions
  import opened Schemas

  /**
   * `PROMPT_TEMPLATE_MULTICHOICE.format(task_type, task_text, all_answers, correct_answers)`,
   * `PROMPT_TEMPLATE_CODERUNNER.format(task_type, task_text, correct_answers, test_cases)` and
   * `PROMPT_TEMPLATE_OTHER.format(task_type, task_text)`.
   */
  datatype Templates = Templates(
    multichoice: (string, string, seq<string>, seq<string>) -> string,
    coderunner: (string, string, seq<string>, seq<string>) -> string,
    other: (string, string) -> string)

  // ---------------------------------------------------------------- answer lists

  /** `[answer.text for answer in answers]`. */
  function Texts(answers: seq<Answer>): (r: seq<string>)
    ensures |r| == |answers|
    ensures forall i :: 0 <= i < |answers| ==> r[i] == answers[i].text
  {
    seq(|answers|, i requires 0 <= i < |answers| => answers[i].text)
  }

  /**
   * `[answer.text for answer in answers if answer.is_correct]`: the flag is
   * read from each answer in turn, and an answer that has none raises
   * `AttributeError`.
   */
  function CorrectTexts(answers: seq<Answer>): (r: Result<seq<string>>)
    ensures r.Err? ==> r.error == AttributeError
  {
    if answers == [] then Ok([])
    else if !answers[0].Multichoice? then Err(AttributeError)
    else
      var rest :- CorrectTexts(answers[1..]);
      Ok(if answers[0].isCorrect then [answers[0].text] + rest else rest)
  }

  /** `a` is `b` with some elements left out, the rest in order. */
  predicate Subsequence(a: seq<string>, b: seq<string>)
    decreases |b|
  {
    if a == [] then true
    else if b == [] then false
    else (a[0] == b[0] && Subsequence(a[1..], b[1..])) || Subsequence(a, b[1..])
  }

  /** The correct texts can be read only when every answer is a multichoice answer. */
  lemma {:induction false} CorrectTextsErrors(answers: seq<Answer>)
    ensures CorrectTexts(answers).Ok? <==> forall i :: 0 <= i < |answers| ==> answers[i].Multichoice?
    decreases |answers|
  {
    if answers != [] {
      CorrectTextsErrors(answers[1..]);
      assert forall i :: 1 <= i < |answers| ==> answers[i] == answers[1..][i - 1];
    }
  }

  /** The answer is a multichoice answer marked correct. */
  predicate Correct(a: Answer) {
    a.Multichoice? && a.isCorrect
  }

  /** One step of the comprehension: the first answer's text, when it is correct, before the rest. */
  lemma CorrectTextsCons(answers: seq<Answer>)
    requires answers != [] && CorrectTexts(answers).Ok?
    ensures CorrectTexts(answers[1..]).Ok?
    ensures CorrectTexts(answers).value ==
      (if Correct(answers[0]) then [answers[0].text] else []) + CorrectTexts(answers[1..]).value
  {
    if !Correct(answers[0]) {
      assert [] + CorrectTexts(answers[1..]).value == CorrectTexts(answers[1..]).value;
    }
  }

  /** The correct texts keep the order of the answers: they are a subsequence of all texts. */
  lemma {:induction false} CorrectTextsInOrder(answers: seq<Answer>)
    requires CorrectTexts(answers).Ok?
    ensures Subsequence(CorrectTexts(answers).value, Texts(answers))
    decreases |answers|
  {
    if answers != [] {
      var rest := answers[1..];
      CorrectTextsCons(answers);
      CorrectTextsInOrder(rest);
      assert Texts(answers)[1..] == Texts(rest);
      var r := CorrectTexts(answers).value;
      if Correct(answers[0]) {
        assert r[1..] == CorrectTexts(rest).value;
      } else {
        assert Subsequence(r, Texts(answers)[1..]);
      }
    }
  }

  /** A text is among the correct texts exactly when a correct answer carries it. */
  lemma {:induction false} CorrectTextsMembers(answers: seq<Answer>)
    requires CorrectTexts(answers).Ok?
    ensures forall t :: t in CorrectTexts(answers).value <==>
      exists i :: 0 <= i < |answers| && Correct(answers[i]) && answers[i].text == t
    decreases |answers|
  {
    if answers != [] {
      var rest := answers[1..];
      CorrectTextsCons(answers);
      CorrectTextsMembers(rest);
      var r := CorrectTexts(answers).value;
      var tail := CorrectTexts(rest).value;
      forall t | t in r
        ensures exists i :: 0 <= i < |answers| && Correct(answers[i]) && answers[i].text == t
      {
        if t !in tail {
          assert Correct(answers[0]) && answers[0].text == t;
        } else {
          var j :| 0 <= j < |rest| && Correct(rest[j]) && rest[j].text == t;
          assert answers[j + 1] == rest[j];
        }
      }
      forall t | exists i :: 0 <= i < |answers| && Correct(answers[i]) && answers[i].text == t
        ensures t in r
      {
        var i :| 0 <= i < |answers| && Correct(answers[i]) && answers[i].text == t;
        if i > 0 {
          assert answers[i] == rest[i - 1];
          assert t in tail;
        }
      }
    }
  }

  // ---------------------------------------------------------------- the builders

  /** `build_multichoice`. */
  function BuildMultichoice(types: QuestionTypes, templates: Templates, q: Question): (r: Result<string>)
    ensures q.qtype !in types.multichoice ==> r == Err(ValueError)
    ensures r.Ok? ==> CorrectTexts(q.answers).Ok?
    ensures r.Ok? ==> r.value == templates.multichoice(q.qtype, q.text, Texts(q.answers), CorrectTexts(q.answers).value)
  {
    if q.qtype !in types.multichoice then Err(ValueError)
    else
      var correct :- CorrectTexts(q.answers);
      Ok(templates.multichoice(q.qtype, q.text, Texts(q.answers), correct))
  }

  /** The `k`-th test case line, `k` counted from 0 and shown from 1. */
  function TestCaseLine(k: nat, tc: TestCase): string {
    "[" + NatToString(k + 1) + "] Входные данные:\n" + tc.input + "\nОжидаемый вывод:\n" + tc.expectedOutput + "\n\n"
  }

  /** One line per test case, in order. */
  function TestCaseLines(testCases: seq<TestCase>): (r: seq<string>)
    ensures |r| == |testCases|
  {
    seq(|testCases|, k requires 0 <= k < |testCases| => TestCaseLine(k, testCases[k]))
  }

  /**
   * Each line is labelled with its position from 1: the tag is the text
   * between the leading `[` and the following `]`, and reads back as that
   * number; the line ends with the expected output and a blank line.
   */
  lemma TestCaseLineLabel(testCases: seq<TestCase>, k: nat)
    requires k < |testCases|
    ensures var line := TestCaseLines(testCases)[k]; var tag := NatToString(k + 1);
      && |line| > |tag| + 1
      && line[0] == '[' && line[|tag| + 1] == ']'
      && AllDigits(line[1..|tag| + 1])
      && DigitsValue(line[1..|tag| + 1]) == k + 1
      && EndsWith(line, testCases[k].expectedOutput + "\n\n")
  {
    var line := TestCaseLines(testCases)[k];
    var tag := NatToString(k + 1);
    var tc := testCases[k];
    var rest := "] Входные данные:\n" + tc.input + "\nОжидаемый вывод:\n" + tc.expectedOutput + "\n\n";
    assert line == "[" + tag + rest;
    assert line[1..|tag| + 1] == tag;
    NatToStringValue(k + 1);
    var tail := tc.expectedOutput + "\n\n";
    assert line == ("[" + tag + "] Входные данные:\n" + tc.input + "\nОжидаемый вывод:\n") + tail;
    assert line[|line| - |tail|..] == tail;
  }

  /** `build_coderunner`: every answer is a correct one. */
  function BuildCoderunner(types: QuestionTypes, templates: Templates, q: Question): (r: Result<string>)
    ensures r.Err? <==> q.qtype !in types.coderunner
    ensures r.Err? ==> r.error == ValueError
    ensures r.Ok? ==> r.value == templates.coderunner(q.qtype, q.text, Texts(q.answers), TestCaseLines(q.testCases))
  {
    if q.qtype !in types.coderunner then Err(ValueError)
    else Ok(templates.coderunner(q.qtype, q.text, Texts(q.answers), TestCaseLines(q.testCases)))
  }

  /** `build_other`: refused for the multichoice and the coderunner families. */
  function BuildOther(types: QuestionTypes, templates: Templates, q: Question): (r: Result<string>)
    ensures r.Err? <==> q.qtype in types.multichoice || q.qtype in types.coderunner
    ensures r.Err? ==> r.error == ValueError
  {
    if q.qtype in types.multichoice then Err(ValueError)
    else if q.qtype in types.coderunner then Err(ValueError)
    else Ok(templates.other(q.qtype, q.text))
  }

  /** `PromptBuilder.build`: the multichoice family first, then the coderunner family, then the rest. */
  function Build(types: QuestionTypes, templates: Templates, q: Question): Result<string> {
    if q.qtype in types.multichoice then BuildMultichoice(types, templates, q)
    else if q.qtype in types.coderunner then BuildCoderunner(types, templates, q)
    else BuildOther(types, templates, q)
  }

  /**
   * Through `build`, none of the three family guards ever fires: the prompt
   * can only fail on a multichoice-family question with an answer that has
   * no `is_correct`, and a valid question always gets its prompt.
   */
  lemma BuildGuardsNeverFire(types: QuestionTypes, templates: Templates, q: Question)
    ensures Build(types, templates, q).Err? <==>
      q.qtype in types.multichoice && exists i :: 0 <= i < |q.answers| && !q.answers[i].Multichoice?
    ensures Build(types, templates, q).Err? ==> Build(types, templates, q).error == AttributeError
    ensures ValidQuestion(types, q) ==> Build(types, templates, q).Ok?
  {
    CorrectTextsErrors(q.answers);
  }

  // ---------------------------------------------------------------- construct_messages, make_prompt

  datatype Message = Message(role: string, content: string)

  const SystemContent := "Ты опытный преподаватель Python для студентов гуманитарных специальностей"

  /** `construct_messages`: the fixed system message, then the prompt as the user's message. */
  function ConstructMessages(types: QuestionTypes, templates: Templates, q: Question): (r: Result<seq<Message>>)
    ensures r.Ok? <==> Build(types, templates, q).Ok?
    ensures r.Ok? ==>
      && |r.value| == 2
      && r.value[0] == Message("system", SystemContent)
      && r.value[1] == Message("user", Build(types, templates, q).value)
  {
    var prompt :- Build(types, templates, q);
    Ok([Message("system", SystemContent), Message("user", prompt)])
  }

  /** `GetPromptResponse`. */
  datatype PromptResponse = PromptResponse(messages: seq<Message>, prompt: string)

  /** `make_prompt` once the question has been read: the messages, and the content of the second one. */
  function MakePrompt(types: QuestionTypes, templates: Templates, q: Question): (r: Result<PromptResponse>)
    ensures r.Ok? <==> Build(types, templates, q).Ok?
    ensures r.Ok? ==> |r.value.messages| == 2 && r.value.prompt == r.value.messages[1].content
    ensures r.Ok? ==> r.value.prompt == Build(types, templates, q).value
  {
    var messages :- ConstructMessages(types, templates, q);
    Ok(PromptResponse(messages, messages[1].content))
  }
}
