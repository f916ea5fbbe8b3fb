/**
 * The question schema of server/src/schemas.py: answers of three concrete
 * variants, test cases, and the checks a `Question` runs when it is
 * constructed (`validate_type`, `validate_answer_types`,
 * `validate_test_cases`); and the split of a reasoning model's completion
 * into its `<think>` block and its answer (`from_completion`).
 *
 * The question-type sets live in a module this model does not contain, so
 * they are a parameter, `QuestionTypes`.
 */
module Schemas {
  import opened Wrappers
  import opened Strings
  import opened Exceptions
  import opened Types
  import opened Patterns

  /** `AnswerMultichoice`, `AnswerCoderunner` and the plain `Answer`. */
  datatype Answer =
    | Multichoice(text: string, isCorrect: bool, fraction: Option<real>)
    | Coderunner(text: string)
    | Plain(text: string)

  datatype TestCase = TestCase(code: Option<string>, input: string, expectedOutput: string, example: Option<bool>)

  datatype Question = Question(name: string, qtype: string, text: string, answers: seq<Answer>, testCases: seq<TestCase>)

  /** The known question types and the multichoice, coderunner and cloze families. */
  datatype QuestionTypes = QuestionTypes(known: set<string>, multichoice: set<string>, coderunner: set<string>, cloze: set<string>)

  /** No type belongs to both the multichoice and the coderunner family. */
  predicate FamiliesDisjoint(types: QuestionTypes) {
    types.multichoice !! types.coderunner
  }

  /** Two answers are instances of the same concrete class. */
  predicate SameVariant(a: Answer, b: Answer) {
    (a.Multichoice? && b.Multichoice?) || (a.Coderunner? && b.Coderunner?) || (a.Plain? && b.Plain?)
  }

  /** Every answer is of the same concrete class as the first. */
  predicate Uniform(answers: seq<Answer>) {
    forall i :: 0 <= i < |answers| ==> SameVariant(answers[i], answers[0])
  }

  /** `AnswerMultichoice(**answer.model_dump())`. */
  function ToMultichoice(a: Answer): Answer {
    if a.Multichoice? then a else Multichoice(a.text, false, None)
  }

  /** `AnswerCoderunner(**answer.model_dump())`: only the text survives. */
  function ToCoderunner(a: Answer): Answer {
    Coderunner(a.text)
  }

  function MapAnswers(f: Answer -> Answer, answers: seq<Answer>): (r: seq<Answer>)
    ensures |r| == |answers|
    ensures forall i :: 0 <= i < |answers| ==> r[i] == f(answers[i])
  {
    seq(|answers|, i requires 0 <= i < |answers| => f(answers[i]))
  }

  /** `validate_type`: only a known type is accepted. */
  function ValidateType(types: QuestionTypes, value: string): (r: Result<string>)
    ensures r.Ok? <==> value in types.known
    ensures r.Ok? ==> r.value == value
    ensures r.Err? ==> r.error == Http(UnrecognizedQuestionType)
  {
    if value !in types.known then Err(Http(UnrecognizedQuestionType)) else Ok(value)
  }

  /**
   * `validate_answer_types`: the answers a question ends up with. Both
   * coercions test the class of the first answer as it was received.
   */
  function ValidateAnswerTypes(types: QuestionTypes, qtype: string, answers: seq<Answer>, isPageResponse: bool): (r: Result<seq<Answer>>)
    ensures answers == [] ==> r == Ok([])
    ensures r.Err? <==> answers != [] && (!Uniform(answers) || (!isPageResponse && qtype in types.cloze))
    ensures r.Err? ==> r.error == Http(AnswerMismatch)
  {
    if answers == [] then Ok(answers)
    else if !Uniform(answers) then Err(Http(AnswerMismatch))
    else if isPageResponse then Ok(answers)
    else
      var first := answers[0];
      var afterMultichoice :=
        if qtype in types.multichoice && !first.Multichoice? then MapAnswers(ToMultichoice, answers) else answers;
      var afterCoderunner :=
        if qtype in types.coderunner && !first.Coderunner? then MapAnswers(ToCoderunner, afterMultichoice) else afterMultichoice;
      if qtype in types.cloze then Err(Http(AnswerMismatch)) else Ok(afterCoderunner)
  }

  /** Validation keeps the number, the order and the text of the answers, and leaves them uniform. */
  lemma ValidateAnswerTypesKeepsTexts(types: QuestionTypes, qtype: string, answers: seq<Answer>, isPageResponse: bool)
    requires ValidateAnswerTypes(types, qtype, answers, isPageResponse).Ok?
    ensures var v := ValidateAnswerTypes(types, qtype, answers, isPageResponse).value;
      && |v| == |answers|
      && (forall i :: 0 <= i < |v| ==> v[i].text == answers[i].text)
      && Uniform(v)
  {
  }

  /**
   * A multichoice-family question whose answers are not multichoice ones
   * gets each answer as a multichoice answer with its text, not correct and
   * without a fraction.
   */
  lemma MultichoiceCoercion(types: QuestionTypes, qtype: string, answers: seq<Answer>)
    requires qtype in types.multichoice && qtype !in types.coderunner
    requires answers != [] && !answers[0].Multichoice?
    requires ValidateAnswerTypes(types, qtype, answers, false).Ok?
    ensures var v := ValidateAnswerTypes(types, qtype, answers, false).value;
      forall i :: 0 <= i < |v| ==> v[i] == Multichoice(answers[i].text, false, None)
  {
  }

  /**
   * A coderunner-family question whose answers are not coderunner ones gets
   * each answer as a coderunner answer with only its text.
   */
  lemma CoderunnerCoercion(types: QuestionTypes, qtype: string, answers: seq<Answer>)
    requires qtype in types.coderunner
    requires answers != [] && !answers[0].Coderunner?
    requires ValidateAnswerTypes(types, qtype, answers, false).Ok?
    ensures var v := ValidateAnswerTypes(types, qtype, answers, false).value;
      forall i :: 0 <= i < |v| ==> v[i] == Coderunner(answers[i].text)
  {
  }

  /** Answers of a page response that are uniform are returned untouched. */
  lemma PageResponseUntouched(types: QuestionTypes, qtype: string, answers: seq<Answer>)
    requires Uniform(answers)
    ensures ValidateAnswerTypes(types, qtype, answers, true) == Ok(answers)
  {
  }

  /** `validate_test_cases`: test cases only on a coderunner-family question. */
  function ValidateTestCases(types: QuestionTypes, qtype: string, testCases: seq<TestCase>): (r: Result<seq<TestCase>>)
    ensures r.Ok? <==> testCases == [] || qtype in types.coderunner
    ensures r.Ok? ==> r.value == testCases
    ensures r.Err? ==> r.error == Http(InvalidQuestion)
  {
    if testCases != [] && qtype !in types.coderunner then Err(Http(InvalidQuestion)) else Ok(testCases)
  }

  /**
   * Constructing a `Question`: the type is checked while the fields are
   * validated, so an unknown type is reported first; a missing name then
   * fails field validation; the two model validators run last, answers
   * before test cases.
   */
  function NewQuestion(types: QuestionTypes, name: Option<string>, qtype: string, text: string,
                       answers: seq<Answer>, testCases: seq<TestCase>, isPageResponse: bool): (r: Result<Question>)
    ensures qtype !in types.known ==> r == Err(Http(UnrecognizedQuestionType))
    ensures qtype in types.known && name.None? ==> r == Err(ValidationError)
    ensures r.Ok? ==> r.value.name == name.value && r.value.qtype == qtype && r.value.text == text
  {
    var t :- ValidateType(types, qtype);
    if name.None? then Err(ValidationError)
    else
      var a :- ValidateAnswerTypes(types, t, answers, isPageResponse);
      var c :- ValidateTestCases(types, t, testCases);
      Ok(Question(name.value, t, text, a, c))
  }

  /**
   * What a validated question guarantees: a known type, uniform answers, no
   * answers on a cloze question, test cases only on a coderunner question,
   * and answers of the family's own class.
   */
  predicate ValidQuestion(types: QuestionTypes, q: Question) {
    && q.qtype in types.known
    && Uniform(q.answers)
    && (q.answers != [] ==> q.qtype !in types.cloze)
    && (q.testCases != [] ==> q.qtype in types.coderunner)
    && (q.qtype in types.multichoice ==> forall i :: 0 <= i < |q.answers| ==> q.answers[i].Multichoice?)
    && (q.qtype in types.coderunner ==> forall i :: 0 <= i < |q.answers| ==> q.answers[i].Coderunner?)
  }

  /** Every question that construction accepts is valid. */
  lemma NewQuestionValid(types: QuestionTypes, name: Option<string>, qtype: string, text: string,
                         answers: seq<Answer>, testCases: seq<TestCase>)
    requires FamiliesDisjoint(types)
    requires NewQuestion(types, name, qtype, text, answers, testCases, false).Ok?
    ensures ValidQuestion(types, NewQuestion(types, name, qtype, text, answers, testCases, false).value)
  {
    var v := ValidateAnswerTypes(types, qtype, answers, false).value;
    ValidateAnswerTypesKeepsTexts(types, qtype, answers, false);
    if answers != [] {
      if qtype in types.multichoice && !answers[0].Multichoice? {
        MultichoiceCoercion(types, qtype, answers);
      }
      if qtype in types.coderunner && !answers[0].Coderunner? {
        CoderunnerCoercion(types, qtype, answers);
      }
    }
  }

  /** A valid question passes construction unchanged: validation is idempotent. */
  lemma ValidQuestionAccepted(types: QuestionTypes, q: Question)
    requires ValidQuestion(types, q)
    ensures NewQuestion(types, Some(q.name), q.qtype, q.text, q.answers, q.testCases, false) == Ok(q)
  {
    assert ValidateAnswerTypes(types, q.qtype, q.answers, false) == Ok(q.answers);
  }

  /**
   * A `Question` under construction. `validate_answer_types` reassigns the
   * answers of the object in place once the fields are set.
   */
  class QuestionModel {
    var name: string
    var qtype: string
    var text: string
    var answers: seq<Answer>
    var testCases: seq<TestCase>

    constructor (name: string, qtype: string, text: string, answers: seq<Answer>, testCases: seq<TestCase>)
      ensures this.name == name && this.qtype == qtype && this.text == text
      ensures this.answers == answers && this.testCases == testCases
    {
      this.name := name;
      this.qtype := qtype;
      this.text := text;
      this.answers := answers;
      this.testCases := testCases;
    }

    /** The record the object holds. */
    function Value(): Question
      reads this
    {
      Question(name, qtype, text, answers, testCases)
    }

    /** `validate_answer_types` on this object: on success the answers are replaced by their validated form. */
    method CheckAnswerTypes(types: QuestionTypes, isPageResponse: bool) returns (r: Result<()>)
      modifies this
      ensures var expected := ValidateAnswerTypes(types, old(qtype), old(answers), isPageResponse);
        && (expected.Ok? ==> r == Ok(()) && answers == expected.value)
        && (expected.Err? ==> r == Err(expected.error) && answers == old(answers))
      ensures name == old(name) && qtype == old(qtype) && text == old(text) && testCases == old(testCases)
    {
      var checked := ValidateAnswerTypes(types, qtype, answers, isPageResponse);
      if checked.Err? {
        return Err(checked.error);
      }
      answers := checked.value;
      return Ok(());
    }
  }

  /** Building a `Question` object: field validation, then the two model validators on the new object. */
  method BuildQuestion(types: QuestionTypes, name: Option<string>, qtype: string, text: string,
                       answers: seq<Answer>, testCases: seq<TestCase>, isPageResponse: bool)
    returns (r: Result<QuestionModel>)
    ensures var expected := NewQuestion(types, name, qtype, text, answers, testCases, isPageResponse);
      && (expected.Ok? <==> r.Ok?)
      && (expected.Err? ==> r == Err(expected.error))
      && (r.Ok? ==> fresh(r.value) && r.value.Value() == expected.value)
  {
    var t := ValidateType(types, qtype);
    if t.Err? {
      return Err(t.error);
    }
    if name.None? {
      return Err(ValidationError);
    }
    var q := new QuestionModel(name.value, qtype, text, answers, testCases);
    var checked := q.CheckAnswerTypes(types, isPageResponse);
    if checked.Err? {
      return Err(checked.error);
    }
    var c := ValidateTestCases(types, q.qtype, q.testCases);
    if c.Err? {
      return Err(c.error);
    }
    return Ok(q);
  }

  // ---------------------------------------------------------------- from_completion

  /** `LLModelResponse` and `ReasoningLLModelResponse`. */
  datatype ModelResponse =
    | LLModelResponse(response: string, temperature: ModelTemperature)
    | ReasoningLLModelResponse(response: string, reasoning: string, temperature: ModelTemperature)

  /**
   * `ReasoningLLModelResponse.from_completion` on the content of the first
   * choice: the stripped body of the first `<think>` block is the reasoning
   * and the content with every block removed, stripped, is the response; a
   * content with no block is a plain response.
   */
  function FromCompletion(content: string, temperature: real): (r: Result<ModelResponse>)
    ensures r.Err? <==> !(0.0 < temperature <= 1.0)
    ensures r.Err? ==> r.error == ValidationError
    ensures r.Ok? ==> r.value.temperature == temperature
  {
    var t :- AsModelTemperature(temperature);
    match Search(MatcherOf(ThinkBlock), content)
    case None => Ok(LLModelResponse(Strip(content), t))
    case Some(found) => Ok(ReasoningLLModelResponse(Strip(Sub(MatcherOf(ThinkBlock), content, Erase)), Strip(found.m.group), t))
  }

  /** Without a `<think>` block anywhere, the response is the stripped content and there is no reasoning. */
  lemma FromCompletionPlain(content: string, temperature: real)
    requires 0.0 < temperature <= 1.0
    requires forall j :: 0 <= j <= |content| ==> MatchFrom(MatcherOf(ThinkBlock), content, j).None?
    ensures FromCompletion(content, temperature) == Ok(LLModelResponse(Strip(content), temperature))
  {
    SearchLeftmost(MatcherOf(ThinkBlock), content);
  }

  /**
   * With a block, the reasoning is the stripped body of the leftmost one,
   * which holds no `</think>`; the response keeps the text before that
   * block, drops the block and removes the blocks of the rest by the same
   * rule, then is stripped, so it is strictly shorter than the content.
   */
  lemma FromCompletionReasoning(content: string, temperature: real)
    requires 0.0 < temperature <= 1.0
    requires Search(MatcherOf(ThinkBlock), content).Some?
    ensures var f := Search(MatcherOf(ThinkBlock), content).value;
      var r := FromCompletion(content, temperature).value;
      && r.ReasoningLLModelResponse?
      && r.reasoning == Strip(f.m.group)
      && !Contains(f.m.group, "</think>")
      && r.response == Strip(content[..f.at] + Sub(MatcherOf(ThinkBlock), content[f.at + f.m.len..], Erase))
      && |r.response| < |content|
  {
    FromCompletionFields(content, temperature);
    ThinkBodyOpen(content);
    ThinkErased(content);
  }

  /** With a block, the response is the stripped content with every block erased. */
  lemma FromCompletionFields(content: string, temperature: real)
    requires 0.0 < temperature <= 1.0
    requires Search(MatcherOf(ThinkBlock), content).Some?
    ensures var r := FromCompletion(content, temperature).value;
      && r.ReasoningLLModelResponse?
      && r.reasoning == Strip(Search(MatcherOf(ThinkBlock), content).value.m.group)
      && r.response == Strip(Sub(MatcherOf(ThinkBlock), content, Erase))
  {
  }

  /** The body of the leftmost `<think>` block holds no `</think>`. */
  lemma ThinkBodyOpen(content: string)
    requires Search(MatcherOf(ThinkBlock), content).Some?
    ensures !Contains(Search(MatcherOf(ThinkBlock), content).value.m.group, "</think>")
  {
    var f := Search(MatcherOf(ThinkBlock), content).value;
    SearchMatchAt(ThinkBlock, content);
    MatchAtOffset(ThinkBlock, content, f.at, f.m);
  }

  /**
   * Erasing every `<think>` block keeps the text before the leftmost one,
   * drops that block and goes on with the rest; stripped, it is shorter than the content.
   */
  lemma ThinkErased(content: string)
    requires Search(MatcherOf(ThinkBlock), content).Some?
    ensures var f := Search(MatcherOf(ThinkBlock), content).value;
      && Strip(Sub(MatcherOf(ThinkBlock), content, Erase))
         == Strip(content[..f.at] + Sub(MatcherOf(ThinkBlock), content[f.at + f.m.len..], Erase))
      && |Strip(Sub(MatcherOf(ThinkBlock), content, Erase))| < |content|
  {
    ThinkErasedRaw(content);
  }

  /** The same, before stripping. */
  lemma ThinkErasedRaw(content: string)
    requires Search(MatcherOf(ThinkBlock), content).Some?
    ensures var f := Search(MatcherOf(ThinkBlock), content).value;
      && Sub(MatcherOf(ThinkBlock), content, Erase)
         == content[..f.at] + Sub(MatcherOf(ThinkBlock), content[f.at + f.m.len..], Erase)
      && |Sub(MatcherOf(ThinkBlock), content, Erase)| < |content|
  {
    EraseFirst(MatcherOf(ThinkBlock), content);
    SubEraseShortens(MatcherOf(ThinkBlock), content);
  }

  /**
   * With exactly one block, the response is the content without that block
   * (the `<think>` opener, the reasoning and the `</think>` closer), stripped.
   */
  lemma FromCompletionSingleBlock(content: string, temperature: real)
    requires 0.0 < temperature <= 1.0
    requires Search(MatcherOf(ThinkBlock), content).Some?
    requires var f := Search(MatcherOf(ThinkBlock), content).value;
      Search(MatcherOf(ThinkBlock), content[f.at + f.m.len..]).None?
    ensures var f := Search(MatcherOf(ThinkBlock), content).value;
      && content[f.at..f.at + f.m.len] == Opener(ThinkBlock) + f.m.group + Closer(ThinkBlock)
      && FromCompletion(content, temperature).value.response == Strip(content[..f.at] + content[f.at + f.m.len..])
  {
    var f := Search(MatcherOf(ThinkBlock), content).value;
    SearchMatchAt(ThinkBlock, content);
    MatchAtOffsetDelimited(ThinkBlock, content, f.at, f.m);
    var rest := content[f.at + f.m.len..];
    assert Sub(MatcherOf(ThinkBlock), rest, Erase) == rest;
    FromCompletionReasoning(content, temperature);
  }
}
