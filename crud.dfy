/**
 * The write side of server/src/database/crud.py. Each statement is an
 * `INSERT ... ON CONFLICT (key) DO UPDATE SET ... WHERE ... RETURNING id`
 * on one table; a table is a map from the conflict key to its row, and the
 * `WHERE` guard is evaluated in SQL's three-valued logic, where a
 * comparison with NULL is neither true nor false and the update happens
 * only when the guard is true.
 *
 * Row ids come from the table's sequence, which every `INSERT` advances,
 * also one that ends in a conflict.
 */
module Crud {
  import opened Wrappers
  import opened Exceptions
  import opened Schemas

  // ---------------------------------------------------------------- SQL truth values

  datatype Truth = True | False | Unknown

  function Known(b: bool): Truth {
    if b then True else False
  }

  /** `a OR b`: true if either side is true, unknown if neither is true and one is unknown. */
  function Or(a: Truth, b: Truth): (r: Truth)
    ensures r.True? <==> a.True? || b.True?
    ensures r.False? <==> a.False? && b.False?
  {
    if a.True? || b.True? then True
    else if a.Unknown? || b.Unknown? then Unknown
    else False
  }

  /** `a <> b` on nullable columns: unknown as soon as either side is NULL. */
  function Differs<T(==)>(a: Option<T>, b: Option<T>): (r: Truth)
    ensures r == Unknown <==> a.None? || b.None?
    ensures r == True <==> a.Some? && b.Some? && a.value != b.value
  {
    if a.None? || b.None? then Unknown else Known(a.value != b.value)
  }

  // ---------------------------------------------------------------- tables and the upsert

  /** A stored row: its id, its data columns and `deleted_flg`. */
  datatype Row<V> = Row(id: nat, data: V, deleted: bool)

  /** A table: the rows by conflict key, and the next value of its id sequence. */
  datatype Table<K(==, !new), V> = Table(rows: map<K, Row<V>>, next: nat)

  /** Ids are below the sequence and no two rows share one. */
  predicate WellFormed<K(==, !new), V>(t: Table<K, V>) {
    && (forall k :: k in t.rows ==> t.rows[k].id < t.next)
    && (forall k1, k2 :: k1 in t.rows && k2 in t.rows && k1 != k2 ==> t.rows[k1].id != t.rows[k2].id)
  }

  /** The `WHERE` of `DO UPDATE`: the data changed, or the row is marked deleted. */
  predicate UpdateFires<V>(stored: Row<V>, data: V, changed: (V, V) -> Truth) {
    Or(changed(stored.data, data), Known(stored.deleted)) == True
  }

  /** The table after a statement, and the id of `RETURNING id` when a row was inserted or updated. */
  datatype Upserted<K(==, !new), V> = Upserted(table: Table<K, V>, returned: Option<nat>)

  /**
   * One `INSERT ... ON CONFLICT (key) DO UPDATE SET <data>, deleted_flg = false
   * WHERE <changed> OR deleted_flg = true RETURNING id`.
   */
  function Upsert<K(==, !new), V>(t: Table<K, V>, key: K, data: V, changed: (V, V) -> Truth): (r: Upserted<K, V>)
    ensures key in r.table.rows && r.table.next == t.next + 1
    ensures forall k :: k != key ==> (k in r.table.rows <==> k in t.rows)
    ensures forall k :: k != key && k in t.rows ==> r.table.rows[k] == t.rows[k]
    ensures key in t.rows ==> r.table.rows[key].id == t.rows[key].id
    ensures r.returned.Some? ==> r.table.rows[key] == Row(r.returned.value, data, false)
    ensures r.returned.None? ==> key in t.rows && r.table.rows == t.rows
  {
    if key !in t.rows then
      Upserted(Table(t.rows[key := Row(t.next, data, false)], t.next + 1), Some(t.next))
    else
      var stored := t.rows[key];
      if UpdateFires(stored, data, changed) then
        Upserted(Table(t.rows[key := Row(stored.id, data, false)], t.next + 1), Some(stored.id))
      else
        Upserted(Table(t.rows, t.next + 1), None)
  }

  /** A new key is inserted with a fresh id; an existing one returns a row exactly when the guard fires. */
  lemma UpsertReturns<K(!new), V>(t: Table<K, V>, key: K, data: V, changed: (V, V) -> Truth)
    ensures var r := Upsert(t, key, data, changed);
      && (key !in t.rows ==> r.returned == Some(t.next))
      && (key in t.rows ==> (r.returned.Some? <==> UpdateFires(t.rows[key], data, changed)))
  {
  }

  /** An upsert keeps ids unique and below the sequence. */
  lemma UpsertWellFormed<K(!new), V>(t: Table<K, V>, key: K, data: V, changed: (V, V) -> Truth)
    requires WellFormed(t)
    ensures WellFormed(Upsert(t, key, data, changed).table)
  {
    var u := Upsert(t, key, data, changed).table;
    forall k | k in u.rows
      ensures u.rows[k].id < u.next
    {
      if k != key {
        assert u.rows[k] == t.rows[k];
      }
    }
    forall k1, k2 | k1 in u.rows && k2 in u.rows && k1 != k2
      ensures u.rows[k1].id != u.rows[k2].id
    {
      if k1 != key && k2 != key {
        assert u.rows[k1] == t.rows[k1] && u.rows[k2] == t.rows[k2];
      }
    }
  }

  // ---------------------------------------------------------------- the four tables

  datatype QuestionData = QuestionData(qtype: string, text: string)
  datatype MultichoiceData = MultichoiceData(isCorrect: bool, fraction: Option<real>)
  datatype TestCaseData = TestCaseData(code: Option<string>, expectedOutput: string, example: Option<bool>)

  /** The coderunner table has no data column beside its key. */
  datatype NoColumns = NoColumns

  /** `(question_id, text)`, the key of both answer tables. */
  type AnswerKey = (nat, string)
  /** `(question_id, input)`, the key of the test-case table. */
  type TestCaseKey = (nat, string)

  /** `questions.type <> EXCLUDED.type OR questions.text <> EXCLUDED.text` on non-null columns. */
  function QuestionChanged(stored: QuestionData, incoming: QuestionData): Truth {
    Or(Known(stored.qtype != incoming.qtype), Known(stored.text != incoming.text))
  }

  /** `is_correct <> EXCLUDED.is_correct OR fraction <> EXCLUDED.fraction`, the fraction nullable. */
  function MultichoiceChanged(stored: MultichoiceData, incoming: MultichoiceData): Truth {
    Or(Known(stored.isCorrect != incoming.isCorrect), Differs(stored.fraction, incoming.fraction))
  }

  /** The coderunner statement compares no data column. */
  function NothingChanged(stored: NoColumns, incoming: NoColumns): Truth {
    False
  }

  /** `code <> ... OR expected_output <> ... OR example <> ...`, code and example nullable. */
  function TestCaseChanged(stored: TestCaseData, incoming: TestCaseData): Truth {
    Or(Or(Differs(stored.code, incoming.code), Known(stored.expectedOutput != incoming.expectedOutput)),
       Differs(stored.example, incoming.example))
  }

  /** The question statement fires exactly when the type or the text differs, or the row is deleted. */
  lemma QuestionUpdateFires(stored: Row<QuestionData>, incoming: QuestionData)
    ensures UpdateFires(stored, incoming, QuestionChanged) <==> stored.data != incoming || stored.deleted
  {
  }

  /**
   * After the question statement the row holds the incoming type and text
   * and is not deleted, whatever it held before; an existing row keeps its id.
   */
  lemma QuestionUpsertEstablishes(t: Table<string, QuestionData>, name: string, incoming: QuestionData)
    ensures var u := Upsert(t, name, incoming, QuestionChanged).table;
      && u.rows[name].data == incoming && !u.rows[name].deleted
      && (name in t.rows ==> u.rows[name].id == t.rows[name].id)
  {
    if name in t.rows && !UpdateFires(t.rows[name], incoming, QuestionChanged) {
      QuestionUpdateFires(t.rows[name], incoming);
    }
  }

  /**
   * The multichoice statement fires when `is_correct` differs, when both
   * fractions are non-NULL and differ, or when the row is deleted, and never
   * otherwise: a fraction that goes from NULL to a value, or back, is not an
   * update.
   */
  lemma MultichoiceUpdateFires(stored: Row<MultichoiceData>, incoming: MultichoiceData)
    ensures UpdateFires(stored, incoming, MultichoiceChanged) <==>
      || stored.data.isCorrect != incoming.isCorrect
      || (stored.data.fraction.Some? && incoming.fraction.Some? && stored.data.fraction != incoming.fraction)
      || stored.deleted
  {
  }

  /** A live row with a NULL fraction keeps it when the same answer arrives with a fraction. */
  lemma NullFractionKept(t: Table<AnswerKey, MultichoiceData>, key: AnswerKey, incoming: MultichoiceData)
    requires key in t.rows && !t.rows[key].deleted
    requires t.rows[key].data.fraction.None? && t.rows[key].data.isCorrect == incoming.isCorrect
    ensures Upsert(t, key, incoming, MultichoiceChanged).table.rows[key] == t.rows[key]
  {
    MultichoiceUpdateFires(t.rows[key], incoming);
  }

  /** The coderunner statement on an existing key only revives a deleted row, and returns a row only then. */
  lemma CoderunnerUpsertRevives(t: Table<AnswerKey, NoColumns>, key: AnswerKey)
    requires key in t.rows
    ensures var r := Upsert(t, key, NoColumns, NothingChanged);
      && r.table.rows[key] == Row(t.rows[key].id, NoColumns, false)
      && (r.returned.Some? <==> t.rows[key].deleted)
  {
    assert NothingChanged(t.rows[key].data, NoColumns) == False;
    assert t.rows[key].data == NoColumns;
    assert UpdateFires(t.rows[key], NoColumns, NothingChanged) <==> t.rows[key].deleted;
  }

  /** The test-case statement fires when a non-NULL column pair differs or the row is deleted. */
  lemma TestCaseUpdateFires(stored: Row<TestCaseData>, incoming: TestCaseData)
    ensures UpdateFires(stored, incoming, TestCaseChanged) <==>
      || (stored.data.code.Some? && incoming.code.Some? && stored.data.code != incoming.code)
      || stored.data.expectedOutput != incoming.expectedOutput
      || (stored.data.example.Some? && incoming.example.Some? && stored.data.example != incoming.example)
      || stored.deleted
  {
  }

  // ---------------------------------------------------------------- the database

  datatype Db = Db(
    questions: Table<string, QuestionData>,
    multichoice: Table<AnswerKey, MultichoiceData>,
    coderunner: Table<AnswerKey, NoColumns>,
    testCases: Table<TestCaseKey, TestCaseData>)

  predicate DbWellFormed(db: Db) {
    WellFormed(db.questions) && WellFormed(db.multichoice) && WellFormed(db.coderunner) && WellFormed(db.testCases)
  }

  /** `get_question`'s statement on the questions table. */
  function UpsertQuestion(db: Db, q: Question): Upserted<string, QuestionData> {
    Upsert(db.questions, q.name, QuestionData(q.qtype, q.text), QuestionChanged)
  }

  /** `create_answer`, routed by the answer's class; an answer of neither class is refused. */
  function SaveAnswer(db: Db, questionId: nat, a: Answer): (r: Result<Db>)
    ensures r.Err? <==> a.Plain?
    ensures r.Err? ==> r.error == Http(AnswerMismatch)
    ensures r.Ok? ==> r.value.questions == db.questions && r.value.testCases == db.testCases
    ensures r.Ok? && a.Multichoice? ==> r.value.coderunner == db.coderunner && (questionId, a.text) in r.value.multichoice.rows
    ensures r.Ok? && a.Coderunner? ==> r.value.multichoice == db.multichoice && (questionId, a.text) in r.value.coderunner.rows
  {
    match a
    case Multichoice(text, isCorrect, fraction) =>
      Ok(db.(multichoice := Upsert(db.multichoice, (questionId, text), MultichoiceData(isCorrect, fraction), MultichoiceChanged).table))
    case Coderunner(text) =>
      Ok(db.(coderunner := Upsert(db.coderunner, (questionId, text), NoColumns, NothingChanged).table))
    case Plain(_) => Err(Http(AnswerMismatch))
  }

  /** The state after a run of statements, and how the run ended. */
  datatype Outcome<T> = Outcome(db: Db, result: Result<T>)

  /** The answers saved one after the other, stopping at the first one that is refused. */
  function SaveAnswers(db: Db, questionId: nat, answers: seq<Answer>): (r: Outcome<()>)
    ensures r.db.questions == db.questions && r.db.testCases == db.testCases
    decreases |answers|
  {
    if answers == [] then Outcome(db, Ok(()))
    else
      var before := SaveAnswers(db, questionId, answers[..|answers| - 1]);
      if before.result.Err? then before
      else
        match SaveAnswer(before.db, questionId, answers[|answers| - 1])
        case Ok(next) => Outcome(next, Ok(()))
        case Err(e) => Outcome(before.db, Err(e))
  }

  /** A later statement never removes a row. */
  lemma SaveAnswerKeepsKeys(db: Db, questionId: nat, a: Answer)
    requires SaveAnswer(db, questionId, a).Ok?
    ensures var next := SaveAnswer(db, questionId, a).value;
      && db.multichoice.rows.Keys <= next.multichoice.rows.Keys
      && db.coderunner.rows.Keys <= next.coderunner.rows.Keys
  {
  }

  /**
   * Saving the answers fails exactly when one of them is a plain answer;
   * when it succeeds, every answer has a row under `(question_id, text)` in
   * its own table.
   */
  lemma {:induction false} SaveAnswersStored(db: Db, questionId: nat, answers: seq<Answer>)
    ensures var r := SaveAnswers(db, questionId, answers);
      && (r.result.Err? <==> exists i :: 0 <= i < |answers| && answers[i].Plain?)
      && (r.result.Ok? ==> forall i :: 0 <= i < |answers| && answers[i].Multichoice? ==> (questionId, answers[i].text) in r.db.multichoice.rows)
      && (r.result.Ok? ==> forall i :: 0 <= i < |answers| && answers[i].Coderunner? ==> (questionId, answers[i].text) in r.db.coderunner.rows)
    decreases |answers|
  {
    if answers != [] {
      var init := answers[..|answers| - 1];
      var last := answers[|answers| - 1];
      SaveAnswersStored(db, questionId, init);
      var before := SaveAnswers(db, questionId, init);
      assert forall i :: 0 <= i < |init| ==> answers[i] == init[i];
      if before.result.Ok? && SaveAnswer(before.db, questionId, last).Ok? {
        SaveAnswerKeepsKeys(before.db, questionId, last);
      }
    }
  }

  /** `create_test_case`'s statement, with every column of the test case bound. */
  function SaveTestCase(db: Db, questionId: nat, tc: TestCase): Db {
    db.(testCases := Upsert(db.testCases, (questionId, tc.input), TestCaseData(tc.code, tc.expectedOutput, tc.example), TestCaseChanged).table)
  }

  function SaveTestCases(db: Db, questionId: nat, testCases: seq<TestCase>): (r: Db)
    ensures r.questions == db.questions && r.multichoice == db.multichoice && r.coderunner == db.coderunner
    decreases |testCases|
  {
    if testCases == [] then db
    else SaveTestCase(SaveTestCases(db, questionId, testCases[..|testCases| - 1]), questionId, testCases[|testCases| - 1])
  }

  /** Every test case has a row under `(question_id, input)` afterwards. */
  lemma {:induction false} SaveTestCasesStored(db: Db, questionId: nat, testCases: seq<TestCase>)
    ensures forall i :: 0 <= i < |testCases| ==> (questionId, testCases[i].input) in SaveTestCases(db, questionId, testCases).testCases.rows
    decreases |testCases|
  {
    if testCases != [] {
      var init := testCases[..|testCases| - 1];
      SaveTestCasesStored(db, questionId, init);
      assert forall i :: 0 <= i < |init| ==> testCases[i] == init[i];
    }
  }

  /**
   * `update_db_state` with the id threaded through: the question first,
   * then each answer, then each test case, all under the question's id,
   * which is returned.
   */
  function StoreQuestion(db: Db, q: Question): Outcome<nat> {
    var questions := UpsertQuestion(db, q).table;
    var id := questions.rows[q.name].id;
    var afterAnswers := SaveAnswers(db.(questions := questions), id, q.answers);
    if afterAnswers.result.Err? then Outcome(afterAnswers.db, Err(afterAnswers.result.error))
    else Outcome(SaveTestCases(afterAnswers.db, id, q.testCases), Ok(id))
  }

  /** The question carries an answer of neither family, which no answer table accepts. */
  predicate HasPlainAnswer(q: Question) {
    exists i :: 0 <= i < |q.answers| && q.answers[i].Plain?
  }

  /**
   * The returned id is the question's row, which holds the question's type
   * and text; the run fails only on a plain answer.
   */
  lemma StoreQuestionReturnsId(db: Db, q: Question)
    ensures var r := StoreQuestion(db, q);
      && (r.result.Err? <==> HasPlainAnswer(q))
      && (r.result.Ok? ==>
            && q.name in r.db.questions.rows
            && r.db.questions.rows[q.name].id == r.result.value
            && r.db.questions.rows[q.name].data == QuestionData(q.qtype, q.text))
  {
    var questions := UpsertQuestion(db, q).table;
    QuestionUpsertEstablishes(db.questions, q.name, QuestionData(q.qtype, q.text));
    SaveAnswersStored(db.(questions := questions), questions.rows[q.name].id, q.answers);
  }

  /** Storing a question keeps every question row there was, under its id. */
  lemma StoreQuestionKeepsQuestions(db: Db, q: Question)
    ensures var r := StoreQuestion(db, q);
      forall k :: k in db.questions.rows ==> k in r.db.questions.rows && r.db.questions.rows[k].id == db.questions.rows[k].id
  {
  }

  /** Storing a question keeps the question ids unique and below the sequence. */
  lemma StoreQuestionWellFormed(db: Db, q: Question)
    requires WellFormed(db.questions)
    ensures WellFormed(StoreQuestion(db, q).db.questions)
  {
    UpsertWellFormed(db.questions, q.name, QuestionData(q.qtype, q.text), QuestionChanged);
  }

  // ---------------------------------------------------------------- the code as written

  /** `cursor.fetchone()[0]`: no row comes back when nothing changed, and indexing `None` raises. */
  function GetQuestionAsWritten(db: Db, q: Question): Result<nat> {
    match UpsertQuestion(db, q).returned
    case None => Err(TypeError)
    case Some(id) => Ok(id)
  }

  /** Ingesting a question a second time, unchanged, fails as written. */
  lemma UnchangedQuestionFailsAsWritten(db: Db, q: Question)
    requires q.name in db.questions.rows && !db.questions.rows[q.name].deleted
    requires db.questions.rows[q.name].data == QuestionData(q.qtype, q.text)
    ensures GetQuestionAsWritten(db, q) == Err(TypeError)
  {
    QuestionUpdateFires(db.questions.rows[q.name], QuestionData(q.qtype, q.text));
  }

  /** The question statement returns its row's id in every case the corrected lookup covers. */
  lemma GetQuestionCorrected(db: Db, q: Question)
    requires GetQuestionAsWritten(db, q).Ok?
    ensures GetQuestionAsWritten(db, q).value == UpsertQuestion(db, q).table.rows[q.name].id
  {
  }

  /** The named parameters a statement uses, and the ones the call binds: a missing one raises `KeyError`. */
  function Execute(needed: set<string>, bound: set<string>): (r: Result<()>)
    ensures r.Ok? <==> needed <= bound
  {
    if needed <= bound then Ok(()) else Err(KeyError)
  }

  const TestCaseFields: set<string> := {"code", "input", "expected_output", "example"}
  const TestCaseParameters: set<string> := {"question_id", "code", "input", "expected_output", "example"}

  /** `test_case.model_dump(include={"text"})` plus `question_id`: `TestCase` has no `text` field. */
  function TestCaseBoundAsWritten(): set<string> {
    (TestCaseFields * {"text"}) + {"question_id"}
  }

  /** Every test case fails as written: the statement's parameters are not bound. */
  lemma TestCaseFailsAsWritten()
    ensures Execute(TestCaseParameters, TestCaseBoundAsWritten()) == Err(KeyError)
  {
    assert "code" !in TestCaseBoundAsWritten();
  }

  /** Dumping every field of the test case binds them all. */
  lemma TestCaseBindsCorrected()
    ensures Execute(TestCaseParameters, TestCaseFields + {"question_id"}) == Ok(())
  {
  }

  /**
   * A Python call by keyword: an argument the function does not take, or a
   * parameter left without an argument, raises `TypeError`. None of the
   * functions called here has a default, so every parameter needs an argument.
   */
  function Call(params: set<string>, passed: set<string>): (r: Result<()>)
    ensures r.Ok? <==> passed == params
    ensures r.Err? ==> r.error == TypeError
  {
    if passed == params then Ok(()) else Err(TypeError)
  }

  /** `create_answer(answer, cursor)` and the two functions it routes to, which also take `question_id`. */
  const CreateAnswerParams: set<string> := {"answer", "cursor"}
  const CreateAnswerKindParams: set<string> := {"question_id", "answer", "cursor"}

  /**
   * One answer as written: `update_db_state` passes `question_id=` to
   * `create_answer`, and `create_answer` passes only `answer=` and `cursor=`
   * on to the function for the answer's kind.
   */
  function CreateAnswerAsWritten(): Result<()> {
    var _ :- Call(CreateAnswerParams, {"question_id", "answer", "cursor"});
    Call(CreateAnswerKindParams, {"answer", "cursor"})
  }

  /** Every answer fails as written, at the first call. */
  lemma CreateAnswerFailsAsWritten()
    ensures CreateAnswerAsWritten() == Err(TypeError)
  {
    assert "question_id" !in CreateAnswerParams;
  }

  /** Passing the question id to the routed call, and not to `create_answer`, makes both calls bind. */
  lemma CreateAnswerCallsCorrected()
    ensures Call(CreateAnswerParams, {"answer", "cursor"}) == Ok(())
    ensures Call(CreateAnswerKindParams, {"question_id", "answer", "cursor"}) == Ok(())
  {
  }

  const CreateTestCaseParams: set<string> := {"question_id", "test_case", "cursor"}

  /** One test case as written: the call binds, then the statement's parameters do not. */
  function CreateTestCaseAsWritten(): Result<()> {
    var _ :- Call(CreateTestCaseParams, {"question_id", "test_case", "cursor"});
    Execute(TestCaseParameters, TestCaseBoundAsWritten())
  }

  /** Every test case fails as written, when the statement runs. */
  lemma CreateTestCaseFailsAsWritten()
    ensures CreateTestCaseAsWritten() == Err(KeyError)
  {
    TestCaseFailsAsWritten();
  }

  /**
   * `update_db_state` as written: the question statement, whose lookup can
   * fail; then one call per answer and one per test case, each of which
   * fails before it writes a row (`CreateAnswerFailsAsWritten`,
   * `CreateTestCaseFailsAsWritten`); and no return value.
   */
  function UpdateDbStateAsWritten(db: Db, q: Question): Outcome<Option<nat>> {
    var afterQuestion := db.(questions := UpsertQuestion(db, q).table);
    var answers := if q.answers == [] then Ok(()) else CreateAnswerAsWritten();
    var testCases := if q.testCases == [] then Ok(()) else CreateTestCaseAsWritten();
    match GetQuestionAsWritten(db, q)
    case Err(e) => Outcome(afterQuestion, Err(e))
    case Ok(_) =>
      if answers.Err? then Outcome(afterQuestion, Err(answers.error))
      else if testCases.Err? then Outcome(afterQuestion, Err(testCases.error))
      else Outcome(afterQuestion, Ok(None))
  }

  /**
   * As written, the function never yields an id and writes nothing beyond
   * the question row: a question with answers fails with `TypeError`, one
   * with test cases with `KeyError` or earlier, and any other returns `None`.
   */
  lemma UpdateDbStateAsWrittenNoId(db: Db, q: Question)
    ensures var o := UpdateDbStateAsWritten(db, q);
      && o.db == db.(questions := UpsertQuestion(db, q).table)
      && (o.result.Ok? ==> o.result.value.None?)
      && (q.answers != [] ==> o.result == Err(TypeError))
      && (q.answers == [] && q.testCases != [] ==> o.result.Err?)
  {
    CreateAnswerFailsAsWritten();
    CreateTestCaseFailsAsWritten();
  }

  // ---------------------------------------------------------------- the store

  /** The four tables, updated in place by each statement. */
  class Store {
    var questions: Table<string, QuestionData>
    var multichoice: Table<AnswerKey, MultichoiceData>
    var coderunner: Table<AnswerKey, NoColumns>
    var testCases: Table<TestCaseKey, TestCaseData>

    constructor ()
      ensures State() == Db(Table(map[], 0), Table(map[], 0), Table(map[], 0), Table(map[], 0))
      ensures Valid()
    {
      questions := Table(map[], 0);
      multichoice := Table(map[], 0);
      coderunner := Table(map[], 0);
      testCases := Table(map[], 0);
    }

    function State(): Db
      reads this
    {
      Db(questions, multichoice, coderunner, testCases)
    }

    predicate Valid()
      reads this
    {
      DbWellFormed(State())
    }

    /** `get_question`, returning the id of the question's row also when nothing changed. */
    method GetQuestion(q: Question) returns (id: nat)
      requires Valid()
      modifies this`questions
      ensures Valid()
      ensures questions == UpsertQuestion(old(State()), q).table
      ensures id == questions.rows[q.name].id
    {
      UpsertWellFormed(questions, q.name, QuestionData(q.qtype, q.text), QuestionChanged);
      questions := Upsert(questions, q.name, QuestionData(q.qtype, q.text), QuestionChanged).table;
      id := questions.rows[q.name].id;
    }

    method CreateAnswerMultichoice(questionId: nat, text: string, isCorrect: bool, fraction: Option<real>)
      requires Valid()
      modifies this`multichoice
      ensures Valid()
      ensures multichoice == Upsert(old(multichoice), (questionId, text), MultichoiceData(isCorrect, fraction), MultichoiceChanged).table
    {
      UpsertWellFormed(multichoice, (questionId, text), MultichoiceData(isCorrect, fraction), MultichoiceChanged);
      multichoice := Upsert(multichoice, (questionId, text), MultichoiceData(isCorrect, fraction), MultichoiceChanged).table;
    }

    method CreateAnswerCoderunner(questionId: nat, text: string)
      requires Valid()
      modifies this`coderunner
      ensures Valid()
      ensures coderunner == Upsert(old(coderunner), (questionId, text), NoColumns, NothingChanged).table
    {
      UpsertWellFormed(coderunner, (questionId, text), NoColumns, NothingChanged);
      coderunner := Upsert(coderunner, (questionId, text), NoColumns, NothingChanged).table;
    }

    /** `create_answer`, taking the question id it forwards. */
    method CreateAnswer(questionId: nat, a: Answer) returns (r: Result<()>)
      requires Valid()
      modifies this`multichoice, this`coderunner
      ensures Valid()
      ensures var expected := SaveAnswer(old(State()), questionId, a);
        && (expected.Ok? ==> r == Ok(()) && State() == expected.value)
        && (expected.Err? ==> r == Err(expected.error) && State() == old(State()))
    {
      match a
      case Multichoice(text, isCorrect, fraction) =>
        CreateAnswerMultichoice(questionId, text, isCorrect, fraction);
        return Ok(());
      case Coderunner(text) =>
        CreateAnswerCoderunner(questionId, text);
        return Ok(());
      case Plain(_) =>
        return Err(Http(AnswerMismatch));
    }

    /** `create_test_case`, binding every column of the test case. */
    method CreateTestCase(questionId: nat, tc: TestCase)
      requires Valid()
      modifies this`testCases
      ensures Valid()
      ensures State() == SaveTestCase(old(State()), questionId, tc)
    {
      var data := TestCaseData(tc.code, tc.expectedOutput, tc.example);
      UpsertWellFormed(testCases, (questionId, tc.input), data, TestCaseChanged);
      testCases := Upsert(testCases, (questionId, tc.input), data, TestCaseChanged).table;
    }

    /** The first loop of `update_db_state`: each answer in turn, stopping at the first refused one. */
    method CreateAnswers(questionId: nat, answers: seq<Answer>) returns (r: Result<()>)
      requires Valid()
      modifies this`multichoice, this`coderunner
      ensures Valid()
      ensures Outcome(State(), r) == SaveAnswers(old(State()), questionId, answers)
    {
      ghost var start := State();
      for i := 0 to |answers|
        invariant Valid()
        invariant SaveAnswers(start, questionId, answers[..i]) == Outcome(State(), Ok(()))
      {
        assert answers[..i + 1][..i] == answers[..i];
        var saved := CreateAnswer(questionId, answers[i]);
        if saved.Err? {
          assert SaveAnswers(start, questionId, answers[..i + 1]) == Outcome(State(), Err(saved.error));
          SaveAnswersStopAt(start, questionId, answers, i + 1);
          return Err(saved.error);
        }
      }
      assert answers[..|answers|] == answers;
      return Ok(());
    }

    /** The second loop of `update_db_state`: each test case in turn. */
    method CreateTestCases(questionId: nat, testCases: seq<TestCase>)
      requires Valid()
      modifies this`testCases
      ensures Valid()
      ensures State() == SaveTestCases(old(State()), questionId, testCases)
    {
      ghost var start := State();
      for j := 0 to |testCases|
        invariant Valid()
        invariant State() == SaveTestCases(start, questionId, testCases[..j])
      {
        assert testCases[..j + 1][..j] == testCases[..j];
        CreateTestCase(questionId, testCases[j]);
      }
      assert testCases[..|testCases|] == testCases;
    }

    /** `update_db_state`, threading the question id and returning it. */
    method UpdateDbState(q: Question) returns (r: Result<nat>)
      requires Valid()
      modifies this
      ensures Valid()
      ensures State() == StoreQuestion(old(State()), q).db
      ensures r == StoreQuestion(old(State()), q).result
    {
      var id := GetQuestion(q);
      var saved := CreateAnswers(id, q.answers);
      if saved.Err? {
        return Err(saved.error);
      }
      CreateTestCases(id, q.testCases);
      return Ok(id);
    }
  }

  /** Once saving a prefix of the answers has failed, saving the whole list ends the same way. */
  lemma {:induction false} SaveAnswersStopAt(db: Db, questionId: nat, answers: seq<Answer>, n: nat)
    requires n <= |answers| && SaveAnswers(db, questionId, answers[..n]).result.Err?
    ensures SaveAnswers(db, questionId, answers) == SaveAnswers(db, questionId, answers[..n])
    decreases |answers| - n
  {
    if n < |answers| {
      assert answers[..n + 1][..n] == answers[..n];
      SaveAnswersStopAt(db, questionId, answers, n + 1);
    } else {
      assert answers[..n] == answers;
    }
  }
}
