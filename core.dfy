/**
 * Quiz ingestion, server/src/core.py: the questions of a parsed Moodle XML
 * export are turned into `Question` records (`extract_quiz_data` and its
 * three per-family helpers), then written to the store one after the other
 * (`ingest_quiz_xml`).
 *
 * Parsing the XML text is not part of this model: the extraction starts
 * from the parsed tree. Python's `float()` is the parameter `parse`, which
 * yields `None` where `float()` raises `ValueError`.
 */
module Core {
  import opened Wrappers
  import opened Exceptions
  import opened XmlTree
  import opened Utils
  import opened Schemas
  import opened Crud

  // ---------------------------------------------------------------- one element after the other

  /** The first failing element of `nodes` is the one at `k`. */
  predicate FirstFailure<T>(f: Node -> Result<T>, nodes: seq<Node>, k: int) {
    && 0 <= k < |nodes|
    && f(nodes[k]).Err?
    && forall j :: 0 <= j < k ==> f(nodes[j]).Ok?
  }

  /**
   * A loop that converts each element in turn and appends the result: it
   * raises the error of the first element that fails, or returns every
   * result in document order.
   */
  function Collect<T>(f: Node -> Result<T>, nodes: seq<Node>): (r: Result<seq<T>>)
    ensures r.Ok? <==> forall i :: 0 <= i < |nodes| ==> f(nodes[i]).Ok?
    ensures r.Ok? ==> |r.value| == |nodes| && forall i :: 0 <= i < |nodes| ==> r.value[i] == f(nodes[i]).value
    ensures r.Err? ==> exists k :: FirstFailure(f, nodes, k) && r.error == f(nodes[k]).error
    decreases |nodes|
  {
    if nodes == [] then Ok([])
    else
      var n := |nodes| - 1;
      var init := Collect(f, nodes[..n]);
      assert forall i :: 0 <= i < n ==> nodes[..n][i] == nodes[i];
      if init.Err? then init
      else
        var last := f(nodes[n]);
        if last.Err? then
          assert FirstFailure(f, nodes, n);
          Err(last.error)
        else Ok(init.value + [last.value])
  }

  /** One more iteration of the loop. */
  lemma CollectStep<T>(f: Node -> Result<T>, nodes: seq<Node>, i: nat)
    requires i < |nodes| && Collect(f, nodes[..i]).Ok?
    ensures Collect(f, nodes[..i + 1]) ==
      if f(nodes[i]).Err? then Err(f(nodes[i]).error) else Ok(Collect(f, nodes[..i]).value + [f(nodes[i]).value])
  {
    assert nodes[..i + 1][..i] == nodes[..i];
  }

  /** Once a prefix has failed, the whole loop ends with the same error. */
  lemma {:induction false} CollectStopsAt<T>(f: Node -> Result<T>, nodes: seq<Node>, n: nat)
    requires n <= |nodes| && Collect(f, nodes[..n]).Err?
    ensures Collect(f, nodes) == Collect(f, nodes[..n])
    decreases |nodes| - n
  {
    if n < |nodes| {
      assert nodes[..n + 1][..n] == nodes[..n];
      CollectStopsAt(f, nodes, n + 1);
    } else {
      assert nodes[..n] == nodes;
    }
  }

  /** `e.text` of the element `safe_deep_find` reaches along `path`, or `None`. */
  function TextAt(element: Node, path: seq<string>): Option<string> {
    match DeepFind(element, path, None)
    case None => None
    case Some(e) => Some(TextOf(e))
  }

  // ---------------------------------------------------------------- extract_mutlichoice_answers

  /** `element.text if (element := answer.find("text")) else ""`. */
  function AnswerText(answer: Node): string {
    match Find(answer, "text")
    case None => ""
    case Some(e) => TextOf(e)
  }

  /** `float(answer.get("fraction", "0"))`, for every answer element. */
  function FractionOf(parse: string -> Option<real>): Node -> Result<real> {
    answer =>
      match parse(GetAttr(answer, "fraction", "0"))
      case None => Err(ValueError)
      case Some(f) => Ok(f)
  }

  /** The fractions of the answers, in order; `ValueError` if one does not parse. */
  function Fractions(parse: string -> Option<real>, answers: seq<Node>): Result<seq<real>> {
    Collect(FractionOf(parse), answers)
  }

  /** Python's `max` over a non-empty list. */
  function Max(s: seq<real>): (m: real)
    requires s != []
    ensures m in s
    ensures forall i :: 0 <= i < |s| ==> s[i] <= m
    decreases |s|
  {
    if |s| == 1 then s[0]
    else
      var rest := Max(s[1..]);
      assert forall i :: 1 <= i < |s| ==> s[i] == s[1..][i - 1];
      if s[0] >= rest then s[0] else rest
  }

  /** An answer with its fraction, correct when the fraction is the positive highest one, `top`. */
  function Mark(text: string, fraction: real, top: real): Answer {
    Multichoice(text, fraction == top && top > 0.0, Some(fraction))
  }

  /** The text of every answer element. */
  function AnswerTexts(answers: seq<Node>): (r: seq<string>)
    ensures |r| == |answers|
  {
    seq(|answers|, i requires 0 <= i < |answers| => AnswerText(answers[i]))
  }

  /** Every answer marked against the highest of the fractions. */
  function Marked(texts: seq<string>, fractions: seq<real>): (r: seq<Answer>)
    requires |texts| == |fractions| && fractions != []
    ensures |r| == |texts|
  {
    var top := Max(fractions);
    seq(|texts|, i requires 0 <= i < |texts| => Mark(texts[i], fractions[i], top))
  }

  /**
   * The multichoice answers of a question: every `answer` element with its
   * text and fraction, marked correct when its fraction is the highest and
   * that highest fraction is positive.
   */
  function MultichoiceAnswers(content: Node, parse: string -> Option<real>): Result<seq<Answer>> {
    var nodes := FindAll(content, "answer");
    var fractions :- Fractions(parse, nodes);
    if nodes == [] then Ok([])
    else Ok(Marked(AnswerTexts(nodes), fractions))
  }

  /** The first loop of `extract_mutlichoice_answers`: the text and the fraction of each answer. */
  method ReadAnswers(nodes: seq<Node>, parse: string -> Option<real>) returns (texts: seq<string>, fractions: Result<seq<real>>)
    ensures fractions == Fractions(parse, nodes)
    ensures fractions.Ok? ==> texts == AnswerTexts(nodes)
  {
    texts := [];
    var read: seq<real> := [];
    for i := 0 to |nodes|
      invariant Fractions(parse, nodes[..i]) == Ok(read)
      invariant |texts| == i && forall j :: 0 <= j < i ==> texts[j] == AnswerText(nodes[j])
    {
      var fraction := FractionOf(parse)(nodes[i]);
      CollectStep(FractionOf(parse), nodes, i);
      if fraction.Err? {
        CollectStopsAt(FractionOf(parse), nodes, i + 1);
        return texts, Err(fraction.error);
      }
      texts := texts + [AnswerText(nodes[i])];
      read := read + [fraction.value];
    }
    assert nodes[..|nodes|] == nodes;
    return texts, Ok(read);
  }

  /** The second loop of `extract_mutlichoice_answers`: each answer marked against the highest fraction. */
  method MarkAnswers(texts: seq<string>, fractions: seq<real>) returns (answers: seq<Answer>)
    requires |texts| == |fractions| && fractions != []
    ensures answers == Marked(texts, fractions)
  {
    var top := Max(fractions);
    answers := [];
    for i := 0 to |texts|
      invariant |answers| == i
      invariant forall j :: 0 <= j < i ==> answers[j] == Mark(texts[j], fractions[j], top)
    {
      answers := answers + [Mark(texts[i], fractions[i], top)];
    }
  }

  /** `extract_mutlichoice_answers`. */
  method ExtractMultichoiceAnswers(content: Node, parse: string -> Option<real>) returns (r: Result<seq<Answer>>)
    ensures r == MultichoiceAnswers(content, parse)
  {
    var nodes := FindAll(content, "answer");
    var texts, fractions := ReadAnswers(nodes, parse);
    if fractions.Err? {
      return Err(fractions.error);
    }
    if texts == [] {
      return Ok([]);
    }
    var answers := MarkAnswers(texts, fractions.value);
    return Ok(answers);
  }

  /**
   * Extraction keeps every answer element, in order, with its text and its
   * fraction; an answer is correct exactly when its fraction is positive
   * and no answer has a higher one.
   */
  lemma MultichoiceMarking(content: Node, parse: string -> Option<real>)
    requires MultichoiceAnswers(content, parse).Ok?
    ensures var nodes := FindAll(content, "answer");
      var answers := MultichoiceAnswers(content, parse).value;
      && |answers| == |nodes|
      && forall i :: 0 <= i < |nodes| ==>
        && answers[i].Multichoice?
        && answers[i].text == AnswerText(nodes[i])
        && answers[i].fraction == Some(FractionOf(parse)(nodes[i]).value)
        && (answers[i].isCorrect <==>
              0.0 < answers[i].fraction.value
              && forall j :: 0 <= j < |nodes| ==> answers[j].fraction.value <= answers[i].fraction.value)
  {
    var nodes := FindAll(content, "answer");
    if nodes != [] {
      var fractions := Fractions(parse, nodes).value;
      var top := Max(fractions);
      var k :| 0 <= k < |fractions| && fractions[k] == top;
      var answers := MultichoiceAnswers(content, parse).value;
      assert forall i :: 0 <= i < |nodes| ==> answers[i] == Mark(AnswerText(nodes[i]), fractions[i], top);
      assert answers[k].fraction.value == top;
    }
  }

  /** Extraction fails, with `ValueError`, exactly when some fraction does not parse. */
  lemma MultichoiceErrors(content: Node, parse: string -> Option<real>)
    ensures var nodes := FindAll(content, "answer");
      MultichoiceAnswers(content, parse).Err? <==>
        exists i :: 0 <= i < |nodes| && parse(GetAttr(nodes[i], "fraction", "0")).None?
    ensures MultichoiceAnswers(content, parse).Err? ==> MultichoiceAnswers(content, parse).error == ValueError
  {
    var nodes := FindAll(content, "answer");
    var r := Fractions(parse, nodes);
    if r.Err? {
      var k :| FirstFailure(FractionOf(parse), nodes, k) && r.error == FractionOf(parse)(nodes[k]).error;
      assert parse(GetAttr(nodes[k], "fraction", "0")).None?;
    }
  }

  /** When some answer has a positive fraction, at least one answer is marked correct. */
  lemma MultichoiceSomeCorrect(content: Node, parse: string -> Option<real>, i: nat)
    requires MultichoiceAnswers(content, parse).Ok?
    requires i < |FindAll(content, "answer")| && FractionOf(parse)(FindAll(content, "answer")[i]).value > 0.0
    ensures exists k :: 0 <= k < |MultichoiceAnswers(content, parse).value| && MultichoiceAnswers(content, parse).value[k].isCorrect
  {
    var nodes := FindAll(content, "answer");
    var fractions := Fractions(parse, nodes).value;
    var top := Max(fractions);
    var k :| 0 <= k < |fractions| && fractions[k] == top;
    assert fractions[i] <= top;
    assert MultichoiceAnswers(content, parse).value[k] == Mark(AnswerText(nodes[k]), fractions[k], top);
  }

  /** An answer without a `fraction` attribute has fraction 0 and is never correct. */
  lemma AnswerWithoutFraction(content: Node, parse: string -> Option<real>, i: nat)
    requires parse("0") == Some(0.0)
    requires MultichoiceAnswers(content, parse).Ok?
    requires i < |FindAll(content, "answer")| && "fraction" !in FindAll(content, "answer")[i].attrs
    ensures MultichoiceAnswers(content, parse).value[i].fraction == Some(0.0)
    ensures !MultichoiceAnswers(content, parse).value[i].isCorrect
  {
    var answer := FindAll(content, "answer")[i];
    assert GetAttr(answer, "fraction", "0") == "0";
    assert FractionOf(parse)(answer) == Ok(0.0);
    MultichoiceMarking(content, parse);
  }

  // ---------------------------------------------------------------- extract_coderunner_answers

  /** Every `answer` element as a coderunner answer holding all of its text. */
  function CoderunnerAnswers(content: Node): (r: seq<Answer>)
    ensures |r| == |FindAll(content, "answer")|
  {
    var nodes := FindAll(content, "answer");
    seq(|nodes|, i requires 0 <= i < |nodes| => Coderunner(TextOf(nodes[i])))
  }

  /** `extract_coderunner_answers`. */
  method ExtractCoderunnerAnswers(content: Node) returns (r: seq<Answer>)
    ensures r == CoderunnerAnswers(content)
  {
    var nodes := FindAll(content, "answer");
    r := [];
    for i := 0 to |nodes|
      invariant |r| == i && forall j :: 0 <= j < i ==> r[j] == Coderunner(TextOf(nodes[j]))
    {
      r := r + [Coderunner(TextOf(nodes[i]))];
    }
  }

  /**
   * The coderunner answers pass `validate_answer_types` unchanged on a
   * coderunner-family question that is neither multichoice nor cloze.
   */
  lemma CoderunnerAnswersAccepted(types: QuestionTypes, qtype: string, content: Node)
    requires qtype in types.coderunner && qtype !in types.multichoice && qtype !in types.cloze
    ensures ValidateAnswerTypes(types, qtype, CoderunnerAnswers(content), false) == Ok(CoderunnerAnswers(content))
  {
    var answers := CoderunnerAnswers(content);
    assert forall i :: 0 <= i < |answers| ==> answers[i].Coderunner?;
  }

  /**
   * The multichoice answers, once read, pass `validate_answer_types`
   * unchanged on a multichoice-family question that is neither coderunner
   * nor cloze.
   */
  lemma MultichoiceAnswersAccepted(types: QuestionTypes, qtype: string, content: Node, parse: string -> Option<real>)
    requires qtype in types.multichoice && qtype !in types.coderunner && qtype !in types.cloze
    requires MultichoiceAnswers(content, parse).Ok?
    ensures var answers := MultichoiceAnswers(content, parse).value;
      ValidateAnswerTypes(types, qtype, answers, false) == Ok(answers)
  {
    MultichoiceMarking(content, parse);
  }

  // ---------------------------------------------------------------- extract_coderunner_test_cases

  /**
   * One `testcase` element: the texts under `testcode`, `stdin` and
   * `expected`, and whether `useasexample` is `"1"`. Building the
   * `TestCase` fails validation when the input or the expected output is
   * missing.
   */
  function TestCaseOf(element: Node): Result<TestCase> {
    var code := TextAt(element, ["testcode", "text"]);
    var stdin := TextAt(element, ["stdin", "text"]);
    var expected := TextAt(element, ["expected", "text"]);
    var example := GetAttr(element, "useasexample", "0") == "1";
    if stdin.None? || expected.None? then Err(ValidationError)
    else Ok(TestCase(code, stdin.value, expected.value, Some(example)))
  }

  /**
   * The test cases of a question: none without a `testcases` element,
   * otherwise one per `testcase` element anywhere in the question.
   */
  function CoderunnerTestCases(content: Node): Result<seq<TestCase>> {
    if Find(content, "testcases").None? then Ok([])
    else Collect(TestCaseOf, FindAll(content, "testcase"))
  }

  /** `extract_coderunner_test_cases`. */
  method ExtractCoderunnerTestCases(content: Node) returns (r: Result<seq<TestCase>>)
    ensures r == CoderunnerTestCases(content)
  {
    var testcases := Find(content, "testcases");
    if testcases.None? {
      return Ok([]);
    }
    var nodes := FindAll(content, "testcase");
    var output: seq<TestCase> := [];
    for i := 0 to |nodes|
      invariant Collect(TestCaseOf, nodes[..i]) == Ok(output)
    {
      var tc := TestCaseOf(nodes[i]);
      CollectStep(TestCaseOf, nodes, i);
      if tc.Err? {
        CollectStopsAt(TestCaseOf, nodes, i + 1);
        return Err(tc.error);
      }
      output := output + [tc.value];
    }
    assert nodes[..|nodes|] == nodes;
    return Ok(output);
  }

  /** `<name><text>text</text></name>`, the way the export writes a text field. */
  function TextField(name: string, text: string): Node {
    Elem(name, map[], [Elem("text", map[], [Text(text)])])
  }

  /** A test case written out as a `testcase` element of the export. */
  function TestCaseElement(tc: TestCase): Node
    requires tc.code.Some? && tc.example.Some?
  {
    Elem("testcase", map["useasexample" := if tc.example.value then "1" else "0"],
      [TextField("testcode", tc.code.value), TextField("stdin", tc.input), TextField("expected", tc.expectedOutput)])
  }

  /** Below a text field there is only its `text` element. */
  lemma TextFieldDescendants(name: string, text: string)
    ensures Descendants(TextField(name, text)) == [Elem("text", map[], [Text(text)])]
  {
    var inner := Elem("text", map[], [Text(text)]);
    assert [Text(text)] == [Text(text)] + [] && [inner] == [inner] + [];
    DescendantsOfCons(Text(text), []);
    DescendantsOfCons(inner, []);
  }

  /** The path `name/text` through a text field leads to its text. */
  lemma TextFieldLookup(name: string, text: string)
    ensures TextAt(TextField(name, text), ["text"]) == Some(text)
  {
    TextFieldDescendants(name, text);
    TextOfSingleText("text", map[], text);
    assert ["text"][1..] == [];
  }

  /** The elements below a written-out test case: each field, then its `text` element. */
  lemma TestCaseElementDescendants(tc: TestCase)
    requires tc.code.Some? && tc.example.Some?
    ensures var d := Descendants(TestCaseElement(tc));
      && |d| == 6
      && d[0] == TextField("testcode", tc.code.value) && d[1] == Elem("text", map[], [Text(tc.code.value)])
      && d[2] == TextField("stdin", tc.input) && d[3] == Elem("text", map[], [Text(tc.input)])
      && d[4] == TextField("expected", tc.expectedOutput) && d[5] == Elem("text", map[], [Text(tc.expectedOutput)])
  {
    var code, input, expected := TextField("testcode", tc.code.value), TextField("stdin", tc.input), TextField("expected", tc.expectedOutput);
    TextFieldDescendants("testcode", tc.code.value);
    TextFieldDescendants("stdin", tc.input);
    TextFieldDescendants("expected", tc.expectedOutput);
    assert [code, input, expected] == [code] + [input, expected];
    assert [input, expected] == [input] + [expected] && [expected] == [expected] + [];
    DescendantsOfCons(expected, []);
    DescendantsOfCons(input, [expected]);
    DescendantsOfCons(code, [input, expected]);
  }

  /** The first element named `name` below `e`, a text field, gives the text along `name/text`. */
  lemma FieldLookup(e: Node, i: nat, name: string, text: string)
    requires i < |Descendants(e)| && Descendants(e)[i] == TextField(name, text)
    requires forall k :: 0 <= k < i ==> !(Descendants(e)[k].Elem? && Descendants(e)[k].name == name)
    ensures TextAt(e, [name, "text"]) == Some(text)
  {
    var d := Descendants(e);
    assert d == d[..i] + [d[i]] + d[i + 1..];
    NamedFirst(d[..i], TextField(name, text), d[i + 1..], name);
    assert Find(e, name) == Some(TextField(name, text));
    assert [name, "text"][1..] == ["text"];
    TextFieldLookup(name, text);
  }

  /** The three fields of a written-out test case are found along their paths. */
  lemma TestCaseElementFields(tc: TestCase)
    requires tc.code.Some? && tc.example.Some?
    ensures TextAt(TestCaseElement(tc), ["testcode", "text"]) == tc.code
    ensures TextAt(TestCaseElement(tc), ["stdin", "text"]) == Some(tc.input)
    ensures TextAt(TestCaseElement(tc), ["expected", "text"]) == Some(tc.expectedOutput)
  {
    TestCaseElementDescendants(tc);
    FieldLookup(TestCaseElement(tc), 0, "testcode", tc.code.value);
    FieldLookup(TestCaseElement(tc), 2, "stdin", tc.input);
    var d := Descendants(TestCaseElement(tc));
    forall k | 0 <= k < 4
      ensures !(d[k].Elem? && d[k].name == "expected")
    {
      assert "testcode" != "expected" by {
        assert "testcode"[0] != "expected"[0];
      }
      assert d[k].name == if k == 0 then "testcode" else if k == 2 then "stdin" else "text";
    }
    FieldLookup(TestCaseElement(tc), 4, "expected", tc.expectedOutput);
  }

  /** A test case written out as an element is read back unchanged. */
  lemma TestCaseRoundTrip(tc: TestCase)
    requires tc.code.Some? && tc.example.Some?
    ensures TestCaseOf(TestCaseElement(tc)) == Ok(tc)
  {
    TestCaseElementFields(tc);
    assert GetAttr(TestCaseElement(tc), "useasexample", "0") == "1" <==> tc.example.value;
  }

  /**
   * The test cases fail to build, with a validation error, exactly when the
   * question has a `testcases` element and some `testcase` element lacks its
   * input or its expected output; each one built records whether it is an
   * example.
   */
  lemma CoderunnerTestCasesErrors(content: Node)
    ensures var nodes := FindAll(content, "testcase");
      CoderunnerTestCases(content).Err? <==>
        && Find(content, "testcases").Some?
        && exists i :: 0 <= i < |nodes| && (TextAt(nodes[i], ["stdin", "text"]).None? || TextAt(nodes[i], ["expected", "text"]).None?)
    ensures CoderunnerTestCases(content).Err? ==> CoderunnerTestCases(content).error == ValidationError
    ensures var r := CoderunnerTestCases(content); var nodes := FindAll(content, "testcase");
      r.Ok? && Find(content, "testcases").Some? ==>
        |r.value| == |nodes|
        && forall i :: 0 <= i < |nodes| ==> r.value[i].example == Some(GetAttr(nodes[i], "useasexample", "0") == "1")
  {
    var nodes := FindAll(content, "testcase");
    var r := Collect(TestCaseOf, nodes);
    if Find(content, "testcases").Some? && r.Err? {
      var k :| FirstFailure(TestCaseOf, nodes, k) && r.error == TestCaseOf(nodes[k]).error;
      assert TextAt(nodes[k], ["stdin", "text"]).None? || TextAt(nodes[k], ["expected", "text"]).None?;
    }
  }

  // ---------------------------------------------------------------- extract_quiz_data

  /** `question.get("type", None)`, which must be present and name a known type. */
  function QuestionType(types: QuestionTypes, question: Node): Result<string> {
    if !(question.Elem? && "type" in question.attrs) then Err(Http(InvalidQuestion))
    else if question.attrs["type"] !in types.known then Err(Http(InvalidQuestion))
    else Ok(question.attrs["type"])
  }

  /** `question.find("questiontext").find("text").text`: a lookup on a missing element raises `AttributeError`. */
  function QuestionText(question: Node): Result<string> {
    match Find(question, "questiontext")
    case None => Err(AttributeError)
    case Some(questionText) =>
      match Find(questionText, "text")
      case None => Err(AttributeError)
      case Some(text) => Ok(TextOf(text))
  }

  /** The answers and the test cases a question of type `qtype` carries, by family. */
  function FamilyContent(types: QuestionTypes, qtype: string, question: Node, parse: string -> Option<real>)
    : Result<(seq<Answer>, seq<TestCase>)>
  {
    if qtype in types.multichoice then
      var answers :- MultichoiceAnswers(question, parse);
      Ok((answers, []))
    else if qtype in types.coderunner then
      var testCases :- CoderunnerTestCases(question);
      Ok((CoderunnerAnswers(question), testCases))
    else Ok(([], []))
  }

  /** The body of the loop of `extract_quiz_data`: one `question` element as a validated `Question`. */
  function QuestionFrom(types: QuestionTypes, parse: string -> Option<real>, question: Node): Result<Question> {
    var qtype :- QuestionType(types, question);
    var name := TextAt(question, ["name", "text"]);
    var text :- QuestionText(question);
    var content :- FamilyContent(types, qtype, question, parse);
    NewQuestion(types, name, qtype, text, content.0, content.1, false)
  }

  function QuestionOf(types: QuestionTypes, parse: string -> Option<real>): Node -> Result<Question> {
    question => QuestionFrom(types, parse, question)
  }

  /** `extract_quiz_data`: every `question` element of the document, in order. */
  function QuizData(types: QuestionTypes, parse: string -> Option<real>, document: Node): Result<seq<Question>> {
    Collect(QuestionOf(types, parse), FindAll(document, "question"))
  }

  /** One iteration of `extract_quiz_data`. */
  method ExtractQuestion(types: QuestionTypes, parse: string -> Option<real>, question: Node) returns (r: Result<Question>)
    ensures r == QuestionFrom(types, parse, question)
  {
    if !(question.Elem? && "type" in question.attrs) {
      return Err(Http(InvalidQuestion));
    }
    var qtype := question.attrs["type"];
    if qtype !in types.known {
      return Err(Http(InvalidQuestion));
    }
    var nameElement := SafeDeepFind(question, ["name", "text"], None);
    var name := if nameElement.Some? then Some(TextOf(nameElement.value)) else None;
    var questionText := Find(question, "questiontext");
    if questionText.None? {
      return Err(AttributeError);
    }
    var textElement := Find(questionText.value, "text");
    if textElement.None? {
      return Err(AttributeError);
    }
    var text := TextOf(textElement.value);
    var answers: seq<Answer> := [];
    var testCases: seq<TestCase> := [];
    if qtype in types.multichoice {
      var extracted := ExtractMultichoiceAnswers(question, parse);
      if extracted.Err? {
        return Err(extracted.error);
      }
      answers := extracted.value;
    } else if qtype in types.coderunner {
      answers := ExtractCoderunnerAnswers(question);
      var extracted := ExtractCoderunnerTestCases(question);
      if extracted.Err? {
        return Err(extracted.error);
      }
      testCases := extracted.value;
    }
    var built := BuildQuestion(types, name, qtype, text, answers, testCases, false);
    if built.Err? {
      return Err(built.error);
    }
    return Ok(built.value.Value());
  }

  /** `extract_quiz_data`. */
  method ExtractQuizData(types: QuestionTypes, parse: string -> Option<real>, document: Node) returns (r: Result<seq<Question>>)
    ensures r == QuizData(types, parse, document)
  {
    var nodes := FindAll(document, "question");
    var questions: seq<Question> := [];
    for i := 0 to |nodes|
      invariant Collect(QuestionOf(types, parse), nodes[..i]) == Ok(questions)
    {
      var q := ExtractQuestion(types, parse, nodes[i]);
      CollectStep(QuestionOf(types, parse), nodes, i);
      if q.Err? {
        CollectStopsAt(QuestionOf(types, parse), nodes, i + 1);
        return Err(q.error);
      }
      questions := questions + [q.value];
    }
    assert nodes[..|nodes|] == nodes;
    return Ok(questions);
  }

  /**
   * The question text lookup reaches the same element as `safe_deep_find`
   * along `questiontext/text`; where that finds nothing, it raises instead
   * of yielding `None`.
   */
  lemma QuestionTextIsPathLookup(question: Node)
    ensures QuestionText(question).Ok? <==> TextAt(question, ["questiontext", "text"]).Some?
    ensures QuestionText(question).Ok? ==> QuestionText(question).value == TextAt(question, ["questiontext", "text"]).value
    ensures QuestionText(question).Err? ==> QuestionText(question).error == AttributeError
  {
    assert ["questiontext", "text"][1..] == ["text"];
    assert ["text"][1..] == [];
  }

  /**
   * The order in which a question element is refused: a missing or unknown
   * type first, then a missing question text; a question that gets that far
   * and whose answers and test cases are read is refused for a missing name.
   */
  lemma QuestionFromErrors(types: QuestionTypes, parse: string -> Option<real>, question: Node)
    ensures !(question.Elem? && "type" in question.attrs) ==> QuestionFrom(types, parse, question) == Err(Http(InvalidQuestion))
    ensures question.Elem? && "type" in question.attrs && question.attrs["type"] !in types.known ==>
      QuestionFrom(types, parse, question) == Err(Http(InvalidQuestion))
    ensures QuestionType(types, question).Ok? && QuestionText(question).Err? ==>
      QuestionFrom(types, parse, question) == Err(AttributeError)
    ensures (&& QuestionType(types, question).Ok?
             && QuestionText(question).Ok?
             && FamilyContent(types, QuestionType(types, question).value, question, parse).Ok?
             && TextAt(question, ["name", "text"]).None?) ==>
      QuestionFrom(types, parse, question) == Err(ValidationError)
  {
  }

  /**
   * Every question extraction yields is valid, has the type written on its
   * element and the question text found there, and carries no plain answer.
   */
  lemma ExtractedQuestionValid(types: QuestionTypes, parse: string -> Option<real>, question: Node)
    requires FamiliesDisjoint(types)
    requires QuestionFrom(types, parse, question).Ok?
    ensures var q := QuestionFrom(types, parse, question).value;
      && ValidQuestion(types, q)
      && question.Elem? && "type" in question.attrs && q.qtype == question.attrs["type"]
      && Some(q.text) == TextAt(question, ["questiontext", "text"])
      && Some(q.name) == TextAt(question, ["name", "text"])
      && forall i :: 0 <= i < |q.answers| ==> !q.answers[i].Plain?
  {
    var qtype := QuestionType(types, question).value;
    var content := FamilyContent(types, qtype, question, parse).value;
    var name := TextAt(question, ["name", "text"]);
    var text := QuestionText(question).value;
    QuestionTextIsPathLookup(question);
    NewQuestionValid(types, name, qtype, text, content.0, content.1);
    if qtype !in types.multichoice && qtype !in types.coderunner {
      assert content.0 == [];
    }
  }

  /**
   * The family dispatch of an extracted question: a multichoice question
   * carries the multichoice answers and no test cases, a coderunner question
   * the coderunner answers and test cases, any other type neither.
   */
  lemma ExtractedQuestionContent(types: QuestionTypes, parse: string -> Option<real>, question: Node)
    requires FamiliesDisjoint(types)
    requires QuestionFrom(types, parse, question).Ok?
    ensures var q := QuestionFrom(types, parse, question).value;
      && (q.qtype in types.multichoice ==>
            && MultichoiceAnswers(question, parse).Ok?
            && q.answers == MultichoiceAnswers(question, parse).value && q.testCases == [])
      && (q.qtype in types.coderunner ==>
            && CoderunnerTestCases(question).Ok?
            && q.answers == CoderunnerAnswers(question) && q.testCases == CoderunnerTestCases(question).value)
      && (q.qtype !in types.multichoice && q.qtype !in types.coderunner ==> q.answers == [] && q.testCases == [])
  {
    var qtype := QuestionType(types, question).value;
    var content := FamilyContent(types, qtype, question, parse).value;
    var answers := ValidateAnswerTypes(types, qtype, content.0, false).value;
    assert QuestionFrom(types, parse, question).value.answers == answers;
    assert QuestionFrom(types, parse, question).value.testCases == content.1;
    if qtype in types.cloze {
      assert content.0 == [];
    } else if qtype in types.multichoice {
      MultichoiceAnswersAccepted(types, qtype, question, parse);
    } else if qtype in types.coderunner {
      CoderunnerAnswersAccepted(types, qtype, question);
    }
  }

  /**
   * A document that is extracted yields one valid question per `question`
   * element, in document order, each with the type written on its element
   * and without a plain answer.
   */
  lemma QuizDataValid(types: QuestionTypes, parse: string -> Option<real>, document: Node)
    requires FamiliesDisjoint(types)
    requires QuizData(types, parse, document).Ok?
    ensures var nodes := FindAll(document, "question"); var questions := QuizData(types, parse, document).value;
      && |questions| == |nodes|
      && forall i :: 0 <= i < |nodes| ==>
        && ValidQuestion(types, questions[i])
        && nodes[i].Elem? && "type" in nodes[i].attrs && questions[i].qtype == nodes[i].attrs["type"]
        && forall j :: 0 <= j < |questions[i].answers| ==> !questions[i].answers[j].Plain?
  {
    var nodes := FindAll(document, "question");
    forall i | 0 <= i < |nodes| {
      ExtractedQuestionValid(types, parse, nodes[i]);
    }
  }

  // ---------------------------------------------------------------- ingest_quiz_xml

  /** The questions stored one after the other, collecting their ids and stopping at the first failure. */
  function StoreAll(db: Db, questions: seq<Question>): Outcome<seq<nat>>
    decreases |questions|
  {
    if questions == [] then Outcome(db, Ok([]))
    else
      var before := StoreAll(db, questions[..|questions| - 1]);
      if before.result.Err? then before
      else
        var stored := StoreQuestion(before.db, questions[|questions| - 1]);
        if stored.result.Err? then Outcome(stored.db, Err(stored.result.error))
        else Outcome(stored.db, Ok(before.result.value + [stored.result.value]))
  }

  /** `ingest_quiz_xml` on a database state: extraction first, then every question stored. */
  function Ingest(types: QuestionTypes, parse: string -> Option<real>, db: Db, document: Node): Outcome<seq<nat>> {
    match QuizData(types, parse, document)
    case Err(e) => Outcome(db, Err(e))
    case Ok(questions) => StoreAll(db, questions)
  }

  /** Once storing a prefix has failed, storing the whole list ends the same way. */
  lemma {:induction false} StoreAllStopsAt(db: Db, questions: seq<Question>, n: nat)
    requires n <= |questions| && StoreAll(db, questions[..n]).result.Err?
    ensures StoreAll(db, questions) == StoreAll(db, questions[..n])
    decreases |questions| - n
  {
    if n < |questions| {
      assert questions[..n + 1][..n] == questions[..n];
      StoreAllStopsAt(db, questions, n + 1);
    } else {
      assert questions[..n] == questions;
    }
  }

  /** Some question of the list has a plain answer, checked from the back. */
  predicate AnyPlain(questions: seq<Question>)
    decreases |questions|
  {
    questions != [] &&
    (AnyPlain(questions[..|questions| - 1]) || HasPlainAnswer(questions[|questions| - 1]))
  }

  /** `AnyPlain` is the existential it reads as. */
  lemma {:induction false} AnyPlainSome(questions: seq<Question>)
    ensures AnyPlain(questions) <==> exists i :: 0 <= i < |questions| && HasPlainAnswer(questions[i])
    decreases |questions|
  {
    if questions != [] {
      var n := |questions| - 1;
      var prefix := questions[..n];
      AnyPlainSome(prefix);
      if i :| 0 <= i < |questions| && HasPlainAnswer(questions[i]) {
        if i < n {
          assert prefix[i] == questions[i];
        }
      }
      if i :| 0 <= i < n && HasPlainAnswer(prefix[i]) {
        assert questions[i] == prefix[i];
      }
    }
  }

  /** Storing fails exactly when a question of the list has a plain answer. */
  lemma {:induction false} StoreAllFailsOnPlain(db: Db, questions: seq<Question>)
    ensures StoreAll(db, questions).result.Err? <==> AnyPlain(questions)
    decreases |questions|
  {
    if questions != [] {
      var n := |questions| - 1;
      StoreAllFailsOnPlain(db, questions[..n]);
      var before := StoreAll(db, questions[..n]);
      if before.result.Ok? {
        StoreQuestionReturnsId(before.db, questions[n]);
      }
    }
  }

  /** Storing a list of questions fails exactly when one of them has a plain answer. */
  lemma StoreAllRefuses(db: Db, questions: seq<Question>)
    ensures StoreAll(db, questions).result.Err? <==>
      exists i :: 0 <= i < |questions| && HasPlainAnswer(questions[i])
  {
    StoreAllFailsOnPlain(db, questions);
    AnyPlainSome(questions);
  }

  /** Storing a list of questions loses no question row that was there, and renumbers none. */
  lemma {:induction false} StoreAllKeepsQuestions(db: Db, questions: seq<Question>)
    ensures var after := StoreAll(db, questions).db;
      forall k :: k in db.questions.rows ==> k in after.questions.rows && after.questions.rows[k].id == db.questions.rows[k].id
    decreases |questions|
  {
    if questions != [] {
      var n := |questions| - 1;
      StoreAllKeepsQuestions(db, questions[..n]);
      var before := StoreAll(db, questions[..n]);
      if before.result.Ok? {
        StoreQuestionKeepsQuestions(before.db, questions[n]);
      }
    }
  }

  /**
   * A list of questions that is stored returns one id per question: the id
   * of the row under that question's name afterwards.
   */
  lemma {:induction false} StoreAllIds(db: Db, questions: seq<Question>)
    requires StoreAll(db, questions).result.Ok?
    ensures var r := StoreAll(db, questions);
      && |r.result.value| == |questions|
      && forall i :: 0 <= i < |questions| ==>
           questions[i].name in r.db.questions.rows && r.db.questions.rows[questions[i].name].id == r.result.value[i]
    decreases |questions|
  {
    if questions != [] {
      var n := |questions| - 1;
      assert forall i :: 0 <= i < n ==> questions[i] == questions[..n][i];
      StoreAllIds(db, questions[..n]);
      var before := StoreAll(db, questions[..n]);
      StoreQuestionReturnsId(before.db, questions[n]);
      StoreQuestionKeepsQuestions(before.db, questions[n]);
    }
  }

  /** Storing a list of questions keeps the question ids unique and below the sequence. */
  lemma {:induction false} StoreAllWellFormed(db: Db, questions: seq<Question>)
    requires WellFormed(db.questions)
    ensures WellFormed(StoreAll(db, questions).db.questions)
    decreases |questions|
  {
    if questions != [] {
      var n := |questions| - 1;
      StoreAllWellFormed(db, questions[..n]);
      var before := StoreAll(db, questions[..n]);
      if before.result.Ok? {
        StoreQuestionWellFormed(before.db, questions[n]);
      }
    }
  }

  /**
   * Two stored questions get the same id exactly when they have the same
   * name: a list is stored without duplicate question rows.
   */
  lemma StoreAllDistinctIds(db: Db, questions: seq<Question>)
    requires WellFormed(db.questions) && StoreAll(db, questions).result.Ok?
    ensures var ids := StoreAll(db, questions).result.value;
      && |ids| == |questions|
      && forall i, j :: 0 <= i < |questions| && 0 <= j < |questions| ==>
           (ids[i] == ids[j] <==> questions[i].name == questions[j].name)
  {
    StoreAllIds(db, questions);
    StoreAllWellFormed(db, questions);
  }

  /**
   * With disjoint families, ingesting a document that extracts never fails
   * at the store: every question is stored and its id returned, in document
   * order.
   */
  lemma IngestStoresEveryQuestion(types: QuestionTypes, parse: string -> Option<real>, db: Db, document: Node)
    requires FamiliesDisjoint(types)
    requires QuizData(types, parse, document).Ok?
    ensures var questions := QuizData(types, parse, document).value; var r := Ingest(types, parse, db, document);
      && r.result.Ok?
      && |r.result.value| == |FindAll(document, "question")|
      && forall i :: 0 <= i < |questions| ==>
           questions[i].name in r.db.questions.rows && r.db.questions.rows[questions[i].name].id == r.result.value[i]
  {
    QuizDataValid(types, parse, document);
    StoreAllRefuses(db, QuizData(types, parse, document).value);
    StoreAllIds(db, QuizData(types, parse, document).value);
  }

  /** The loop of `ingest_quiz_xml`, one `update_db_state` per question. */
  method StoreQuestions(store: Store, questions: seq<Question>) returns (r: Result<seq<nat>>)
    requires store.Valid()
    modifies store
    ensures store.Valid()
    ensures Outcome(store.State(), r) == StoreAll(old(store.State()), questions)
  {
    ghost var start := store.State();
    var ids: seq<nat> := [];
    for i := 0 to |questions|
      invariant store.Valid()
      invariant StoreAll(start, questions[..i]) == Outcome(store.State(), Ok(ids))
    {
      assert questions[..i + 1][..i] == questions[..i];
      var id := store.UpdateDbState(questions[i]);
      if id.Err? {
        assert StoreAll(start, questions[..i + 1]) == Outcome(store.State(), Err(id.error));
        StoreAllStopsAt(start, questions, i + 1);
        return Err(id.error);
      }
      ids := ids + [id.value];
    }
    assert questions[..|questions|] == questions;
    return Ok(ids);
  }

  /** `ingest_quiz_xml`: the ids of the stored questions, in document order. */
  method IngestQuizXml(store: Store, types: QuestionTypes, parse: string -> Option<real>, document: Node)
    returns (r: Result<seq<nat>>)
    requires store.Valid()
    modifies store
    ensures store.Valid()
    ensures Outcome(store.State(), r) == Ingest(types, parse, old(store.State()), document)
  {
    var questions := ExtractQuizData(types, parse, document);
    if questions.Err? {
      return Err(questions.error);
    }
    r := StoreQuestions(store, questions.value);
  }
}
