# Quiz ingestion service, modelled in Dafny

The service is a FastAPI back end. It takes a Moodle quiz export (XML), turns
every `<question>` element into a validated `Question` with its answers and
test cases, and upserts them into PostgreSQL. It also renders question text
(code blocks and option lists) and builds the prompts it sends to a language
model. This project models that core:

- `core.dfy`, module `Core`: extraction of questions, multichoice answers, coderunner answers and test cases from the parsed document, and `ingest_quiz_xml` (`server/src/core.py`).
- `schemas.dfy`, module `Schemas`: `Answer`, `TestCase` and `Question` with the `Question` validators, and `ReasoningLLModelResponse.from_completion` (`server/src/schemas.py`).
- `crud.dfy`, module `Crud`: the write statements of `server/src/database/crud.py`.
  - Each `INSERT ... ON CONFLICT ... DO UPDATE ... WHERE ... RETURNING id` is an upsert on a map from the conflict key to the row.
  - The `WHERE` guard is evaluated in SQL's three-valued logic.
  - A `Store` class holds the four tables and updates them in place.
- `utils.dfy`, module `Utils`: `safe_deep_find`, `form_to_key`, `wrap_code_in_html`, `code_md_to_html` and `replace_and_append_options` (`server/src/utils.py`).
- `patterns.dfy`, module `Patterns`: the three regular expressions the service uses, with `re.search` (leftmost match) and `re.sub` (non-overlapping replacement).
- `prompts.dfy`, module `Prompts`: `PromptBuilder`, `construct_messages` and `make_prompt` (`server/src/models/core.py`).
- `config.py`, `language.py`, `types.py` and `exceptions.py` of `server/src` become the modules `Config`, `Language`, `Types` and `Exceptions`.
- The shared pieces:
  - `XmlTree`, the parsed document, with `find`, `find_all`, `get` and `.text`;
  - `Strings`, Python's `str.strip`, `str.replace`, `str()` and `int()`;
  - `Wrappers`, `Option`.

Where the code and its own comments disagree, the model follows the code:

- The comment at `server/src/utils.py:108` says options are split by `[int]~` or just `~`. The pattern requires the opening bracket, so a bare `~` does not separate (`Utils.SplitWithoutBracket`).
- The comment at `server/src/utils.py:115` says the first occurrence is replaced. `str.replace` replaces every occurrence of the first block's text.

Two further facts about the code:

- `is_correct` is fixed at extraction (`server/src/core.py:93`).
- An unchanged question makes the store fail, so storing the same document twice fails. See Findings.

## Model

| member | source | states |
|---|---|---|
| Exceptions.StatusCode | server/src/exceptions.py:7-63 | the four content rejections are exactly the 422s, the database and Redis failures exactly the 500s, and unauthorized, missing public key and unknown user group exactly 401, 501 and 404 |
| Exceptions.DefaultDetail | server/src/exceptions.py:8-60 | every exception kind has a non-empty default detail message |
| Exceptions.Raise | server/src/exceptions.py:7-63 | a raised exception carries its kind's status code, and the given detail or, without one, the kind's default |
| Types.AsCode | server/src/types.py:5-6 | a user-group or level code is accepted unchanged exactly when it has 1 to 100 characters; otherwise a validation error |
| Types.AsNonEmpty | server/src/types.py:7-14 | a PEM text, base name or base description is accepted unchanged exactly when it is non-empty |
| Types.AsInferenceScore | server/src/types.py:8 | a score is accepted exactly when it lies in 1..5 |
| Types.AsBinaryInferenceScore | server/src/types.py:9 | a binary score is accepted exactly when it is 1 or 5 |
| Types.AsModelTemperature | server/src/types.py:10 | a temperature is accepted exactly when 0 < t <= 1 |
| Types.AsLanguage | server/src/types.py:12 | a language is accepted exactly when it is one of the declared `ru`, `en` |
| Types.BinaryScoreIsScore | server/src/types.py:8-9 | every binary score is also a valid ordinary score |
| Strings.Strip | server/src/utils.py:51 | `strip()` yields a slice of the input that neither starts nor ends with whitespace, and everything cut off on either side is whitespace |
| Strings.StripTrimmed | server/src/schemas.py:263-272 | a string without surrounding whitespace is its own strip |
| Strings.StripIdempotent | server/src/schemas.py:263-272 | stripping twice is stripping once |
| Strings.IndexOf | server/src/utils.py:89 | a reported offset is an occurrence of the pattern |
| Strings.IndexOfFirst | server/src/utils.py:89 | the reported offset is the first occurrence, and there is none exactly when the pattern does not occur |
| Strings.ReplaceAllAbsent | server/src/utils.py:116 | `replace` returns a string without the pattern unchanged |
| Strings.ReplaceAllSelf | server/src/utils.py:116 | replacing a pattern by itself changes nothing |
| Strings.Join | server/src/utils.py:113 | joining one part gives that part; joining more starts with the first part and the separator |
| Strings.NatToString | server/src/models/core.py:69 | `str(n)` is a non-empty run of digits with no leading zero |
| Strings.IntToString | server/src/config.py:23 | `str(i)` has no surrounding whitespace |
| Strings.NatToStringValue | server/src/models/core.py:69 | the digits of `str(n)` read back as `n` |
| Strings.ParseIntRoundTrip | server/src/config.py:51 | `int(str(i)) == i` for every integer |
| Strings.ParseSigned | server/src/config.py:51 | a number `int()` accepts between the whitespace ends in a digit and holds only digits, underscores and a leading sign |
| Strings.ParseIntChars | server/src/config.py:51 | a text `int()` reads holds only digits, underscores, signs and the whitespace `int()` skips |
| Strings.ParseIntRejectsSeparator | server/src/config.py:51 | `int()` refuses a text that ends in one of U+001C..U+001F, although `strip()` would remove that character |
| XmlTree.Descendants | server/src/core.py:34 | every descendant found by a search is an element |
| XmlTree.Named | server/src/core.py:34 | the filtered elements are exactly those of the list that carry the name |
| XmlTree.FindAll | server/src/core.py:34 | `find_all(name)` holds exactly the descendant elements with that name |
| XmlTree.Find | server/src/utils.py:34 | `find(name)` finds nothing exactly when `find_all(name)` is empty, and otherwise a descendant element with that name |
| XmlTree.GetAttr | server/src/core.py:81 | `get(key, default)` is the attribute when present and the default otherwise |
| XmlTree.TextOfSingleText | server/src/core.py:105 | an element whose only child is a text has that text as `.text` |
| Patterns.WordRun | server/src/utils.py:47 | `\w+` takes the longest run of word characters |
| Patterns.LazyBody | server/src/utils.py:47 | a lazy body and its closer lie inside the string |
| Patterns.LazyBodyShortest | server/src/utils.py:47 | a lazy body is followed by the closer and contains no closer, so it is the shortest |
| Patterns.MatchAt | server/src/utils.py:47 | a match is never empty and never longer than the text |
| Patterns.MatchAtShape | server/src/utils.py:101 | a match opens with the opener and holds no closer in its body; an options block body holds no newline |
| Patterns.MatchAtDelimited | server/src/utils.py:101 | apart from code blocks, a match is exactly opener, body and closer |
| Patterns.SearchFrom | server/src/utils.py:104 | a reported match lies inside the text at the offset reported |
| Patterns.Search | server/src/utils.py:104 | `re.search` reports a match found at its offset |
| Patterns.SearchFromLeftmost | server/src/utils.py:104 | nothing matches before the reported offset, and nothing at all when none is reported |
| Patterns.SearchLeftmost | server/src/utils.py:104 | `re.search` reports the leftmost match and finds one whenever one exists |
| Patterns.SearchFindsLeftmost | server/src/utils.py:104 | a match with no match before it is the one `re.search` reports |
| Patterns.MatchAtOffset | server/src/utils.py:101 | a match at an offset opens with the opener, has no closer in its body, and apart from code blocks is opener, body and closer |
| Patterns.SearchMatchAt | server/src/utils.py:104 | what `re.search` reports is a match of the pattern at the reported offset |
| Patterns.MatchAtOffsetDelimited | server/src/utils.py:101 | apart from code blocks, the matched text is opener, body and closer |
| Patterns.SubFirst | server/src/utils.py:60-62 | `re.sub` keeps the text before the leftmost match, replaces that match and goes on after it |
| Patterns.SubNoMatch | server/src/utils.py:60-62 | without a match, `re.sub` returns the text unchanged |
| Patterns.EraseFirst | server/src/schemas.py:270-272 | deleting the matches keeps the text before the leftmost match, drops that match and goes on after it |
| Patterns.SubEraseShortens | server/src/schemas.py:270-272 | deleting the matches never lengthens a text, and shortens it exactly when there is a match |
| Patterns.Split | server/src/utils.py:109 | `re.split` always yields at least one piece |
| Patterns.SplitRebuild | server/src/utils.py:109 | one piece more than matches, and the pieces with the removed matches put back between them rebuild the text |
| Patterns.BeforeLeftmost | server/src/utils.py:109 | for a pattern that decides before the end of the text, the text before the leftmost match holds no match at any offset |
| Patterns.SplitClean | server/src/utils.py:109 | for a pattern closed under prefixes and covers, no piece holds a match at any offset and every removed text is a whole match |
| Utils.SafeDeepFind | server/src/utils.py:29-37 | the loop over the names returns the element that the path lookup reaches, or the default at the first missing step |
| Utils.DeepFindAppend | server/src/utils.py:29-37 | looking up a path in two parts is looking up the second part from where the first ends |
| Utils.DeepFindLastName | server/src/utils.py:29-37 | a successful lookup ends on an element named by the path's last name |
| Utils.EscapedNewlineContained | server/src/utils.py:89 | the text contains backslash-`n` exactly when some backslash is followed by `n` |
| Utils.FormToKeyClean | server/src/utils.py:79-89 | the result of `form_to_key` holds no backslash-`n` pair |
| Utils.FormToKeyIdempotent | server/src/utils.py:79-89 | applying `form_to_key` twice is applying it once |
| Utils.WrapCodeInHtml | server/src/utils.py:74-76 | the wrapper starts with the `<pre><code>` opening, ends with the closing, and adds exactly their lengths |
| Utils.UnwrapWrapped | server/src/utils.py:74-76 | the code inside a wrapper is recovered unchanged |
| Utils.CodeMdToHtmlChanges | server/src/utils.py:45-64 | a text holding a code block does not come back unchanged |
| Utils.CodeMdToHtmlUnchanged | server/src/utils.py:45-64 | the text comes back unchanged exactly when it holds no code block |
| Utils.CodeMdToHtmlFirstBlock | server/src/utils.py:45-64 | the leftmost block becomes the wrapper around its stripped body, which holds no closing fence; the text before it is kept and the rest is converted in turn |
| Utils.RunGreedy | server/src/utils.py:109 | a greedy run (`\s*`, `\d+`) takes every leading character of its class and stops at the first one outside it |
| Utils.RunPrefix | server/src/utils.py:109 | on a prefix of a text the run is the text's run, cut off at the end of the prefix |
| Utils.TagAt | server/src/utils.py:109 | a match of the tag `\[-?\d+\]?~` opens with `[`, closes with `~` and has at least three characters |
| Utils.TagPrefix | server/src/utils.py:109 | the tag reads nothing after its `~`: it matches on a prefix exactly when it matches on the text and fits in the prefix |
| Utils.SeparatorAt | server/src/utils.py:109 | a separator match (leading whitespace, tag, trailing whitespace) is non-empty and inside the text |
| Utils.SeparatorHasBracket | server/src/utils.py:109 | every separator contains `[` |
| Utils.SeparatorExtends | server/src/utils.py:109 | a separator that matches on a prefix of a text matches on the text |
| Utils.SeparatorWhole | server/src/utils.py:109 | the text a separator covers is, on its own, a separator of the same length |
| Utils.SeparatorClosed | server/src/utils.py:109 | the separator decides before the end of the text, and what it covers is a whole separator, so `re.split` on it leaves no separator in any option |
| Utils.SplitOptions | server/src/utils.py:109 | `re.split` always yields at least one option |
| Utils.SplitOptionsRebuild | server/src/utils.py:109 | there is one option more than there are separators, and the options with the matched separators put back between them rebuild the body |
| Utils.SplitOptionsClean | server/src/utils.py:109 | no option holds a separator at any offset, and every text removed is, on its own, a whole separator |
| Utils.SplitWithoutBracket | server/src/utils.py:109 | a body without `[` is never split: a bare `~` separates nothing |
| Utils.ReplaceBlock | server/src/utils.py:113-118 | the text with the block replaced ends with the listing of the given options |
| Utils.ReplaceAndAppendOptionsListing | server/src/utils.py:99-120 | when there is a block, the result ends with the listing of the options split from the leftmost block's body |
| Utils.ReplaceAndAppendOptionsNoBlock | server/src/utils.py:121-123 | without a `{:MCS:=...}` block the text comes back unchanged |
| Utils.FirstMcsBlockBody | server/src/utils.py:101-107 | the body of the leftmost block holds no `}` and no newline |
| Utils.FirstMcsBlockText | server/src/utils.py:101-116 | the text `replace` removes is `{:MCS:=`, the body and `}` |
| Schemas.MapAnswers | server/src/schemas.py:139-155 | the coerced list keeps the count and converts each answer in place |
| Schemas.ValidateType | server/src/schemas.py:106-113 | a type is accepted unchanged exactly when it is known; otherwise `UnrecognizedQuestionTypeException` |
| Schemas.ValidateAnswerTypes | server/src/schemas.py:115-164 | no answers are always accepted; otherwise `AnswerMismatchException` exactly when the answers are of mixed classes or, outside a page response, the question is cloze |
| Schemas.ValidateAnswerTypesKeepsTexts | server/src/schemas.py:115-164 | validation keeps the count, order and text of the answers and leaves them of one class |
| Schemas.MultichoiceCoercion | server/src/schemas.py:134-146 | answers of another class on a multichoice question become multichoice answers with their text, not correct, without fraction |
| Schemas.CoderunnerCoercion | server/src/schemas.py:147-159 | answers of another class on a coderunner question become coderunner answers keeping only their text |
| Schemas.PageResponseUntouched | server/src/schemas.py:130-132 | a page response's answers of one class are returned untouched |
| Schemas.ValidateTestCases | server/src/schemas.py:166-172 | test cases are accepted unchanged exactly when there are none or the question is coderunner; otherwise `InvalidQuestionException` |
| Schemas.NewQuestion | server/src/schemas.py:97-172 | an unknown type is reported first, then a missing name; an accepted question keeps name, type and text |
| Schemas.NewQuestionValid | server/src/schemas.py:97-172 | with disjoint families every accepted question is valid: known type, one answer class matching its family, no answers on cloze, test cases only on coderunner |
| Schemas.ValidQuestionAccepted | server/src/schemas.py:97-172 | a valid question passes construction unchanged |
| Schemas.QuestionModel.CheckAnswerTypes | server/src/schemas.py:115-164 | on success the object's answers are replaced by their validated form, on failure left alone; the other fields never change |
| Schemas.BuildQuestion | server/src/schemas.py:97-172 | building the object succeeds exactly when construction does, and the fresh object holds the validated question |
| Schemas.FromCompletion | server/src/schemas.py:249-274 | a temperature outside (0, 1] is a validation error; otherwise the response keeps the temperature |
| Schemas.FromCompletionPlain | server/src/schemas.py:259-267 | without a `<think>` block the response is the stripped content, with no reasoning |
| Schemas.FromCompletionReasoning | server/src/schemas.py:259-274 | with a block the reasoning is the stripped body of the leftmost one, which holds no `</think>`; the response is the text before that block followed by the rest with its blocks removed, stripped, and is shorter than the content |
| Schemas.FromCompletionSingleBlock | server/src/schemas.py:259-274 | with exactly one block, that block is `<think>`, the reasoning and `</think>`, and the response is the content without it, stripped |
| Crud.Or | server/src/database/crud.py:37-40 | `OR` is true when a side is true and false only when both are false |
| Crud.Differs | server/src/database/crud.py:121-123 | `<>` is unknown exactly when a side is NULL and true exactly when both are non-NULL and differ |
| Crud.Upsert | server/src/database/crud.py:28-45 | the key has a row afterwards; no other row changes; an existing row keeps its id; a returned id names the written row, and nothing returned means nothing changed |
| Crud.UpsertReturns | server/src/database/crud.py:28-45 | a new key is inserted under the next id; an existing key returns a row exactly when the guard is true |
| Crud.UpsertWellFormed | server/src/database/crud.py:28-45 | an upsert keeps ids unique and below the sequence |
| Crud.QuestionUpdateFires | server/src/database/crud.py:31-40 | the question update fires exactly when type or text differ or the row is deleted |
| Crud.QuestionUpsertEstablishes | server/src/database/crud.py:28-41 | afterwards the row holds the incoming type and text and is live; an existing row keeps its id |
| Crud.MultichoiceUpdateFires | server/src/database/crud.py:64-77 | the update fires exactly when `is_correct` differs, both fractions are non-NULL and differ, or the row is deleted |
| Crud.NullFractionKept | server/src/database/crud.py:73-76 | a live row with a NULL fraction keeps it when the same answer arrives with a fraction |
| Crud.CoderunnerUpsertRevives | server/src/database/crud.py:89-99 | on an existing key the row is only revived, and a row is returned exactly when it was deleted |
| Crud.TestCaseUpdateFires | server/src/database/crud.py:110-126 | the update fires exactly when a non-NULL column pair differs, the expected output differs, or the row is deleted |
| Crud.SaveAnswer | server/src/database/crud.py:49-57 | a plain answer is refused with `AnswerMismatchException`; the others land under `(question_id, text)` in their own table, leaving the other tables alone |
| Crud.SaveAnswers | server/src/database/crud.py:18-19 | saving answers never touches the question and test-case tables |
| Crud.SaveAnswerKeepsKeys | server/src/database/crud.py:49-57 | saving an answer never removes a row |
| Crud.SaveAnswersStored | server/src/database/crud.py:18-19 | the loop fails exactly when some answer is plain; otherwise every answer has a row in its own table |
| Crud.SaveAnswersStopAt | server/src/database/crud.py:18-19 | once a prefix has failed, the whole loop ends the same way |
| Crud.SaveTestCases | server/src/database/crud.py:20-21 | saving test cases touches only the test-case table |
| Crud.SaveTestCasesStored | server/src/database/crud.py:20-21 | every test case has a row under `(question_id, input)` afterwards |
| Crud.StoreQuestionReturnsId | server/src/database/crud.py:16-21 | storing a question fails exactly on a plain answer; otherwise it returns the id of the question's row, which holds its type and text |
| Crud.StoreQuestionKeepsQuestions | server/src/database/crud.py:16-21 | storing a question keeps every existing question row under its id |
| Crud.StoreQuestionWellFormed | server/src/database/crud.py:16-21 | storing a question keeps the question ids unique and below the sequence |
| Crud.UnchangedQuestionFailsAsWritten | server/src/database/crud.py:37-45 | as written, an unchanged live question returns no row and `fetchone()[0]` raises `TypeError` |
| Crud.GetQuestionCorrected | server/src/database/crud.py:44-46 | whenever the as-written lookup succeeds, it returns the row's id, as the corrected lookup does |
| Crud.Execute | server/src/database/crud.py:128-130 | a statement runs exactly when every named parameter is bound |
| Crud.TestCaseFailsAsWritten | server/src/database/crud.py:128-130 | as written, the test-case statement leaves its parameters unbound and raises `KeyError` |
| Crud.TestCaseBindsCorrected | server/src/database/crud.py:110-112 | dumping every field of the test case binds all the statement's parameters |
| Crud.Call | server/src/database/crud.py:19 | a keyword call binds exactly when the arguments passed are the parameters the function takes; otherwise `TypeError` |
| Crud.CreateAnswerFailsAsWritten | server/src/database/crud.py:16-19 | as written, every answer fails with `TypeError`: `create_answer` takes no `question_id` |
| Crud.CreateAnswerCallsCorrected | server/src/database/crud.py:49-62 | passing the question id to the routed call and not to `create_answer` makes both calls bind |
| Crud.CreateTestCaseFailsAsWritten | server/src/database/crud.py:106-130 | as written, every test case fails with `KeyError` when its statement runs |
| Crud.UpdateDbStateAsWrittenNoId | server/src/database/crud.py:16-21 | as written, `update_db_state` writes only the question row and never yields an id: answers raise `TypeError`, test cases fail, otherwise `None` |
| Crud.Store.GetQuestion | server/src/database/crud.py:24-46 | the question table after the upsert, and the id of the question's row even when nothing changed |
| Crud.Store.CreateAnswerMultichoice | server/src/database/crud.py:60-82 | the multichoice table after its upsert under `(question_id, text)` |
| Crud.Store.CreateAnswerCoderunner | server/src/database/crud.py:85-103 | the coderunner table after its upsert under `(question_id, text)` |
| Crud.Store.CreateAnswer | server/src/database/crud.py:49-57 | the state and result of routing the answer with the question id forwarded |
| Crud.Store.CreateTestCase | server/src/database/crud.py:106-130 | the state after the test-case upsert with every column bound |
| Crud.Store.CreateAnswers | server/src/database/crud.py:18-19 | the loop over the answers in order, stopping at the first refused one |
| Crud.Store.CreateTestCases | server/src/database/crud.py:20-21 | the loop over the test cases in order |
| Crud.Store.UpdateDbState | server/src/database/crud.py:16-21 | the question, its answers and its test cases stored in that order under the question's id, which is returned |
| Core.Collect | server/src/core.py:34-71 | a convert-and-append loop succeeds exactly when every element converts, keeps count and order, and otherwise raises the first failing element's error |
| Core.CollectStep | server/src/core.py:34-71 | one more iteration appends the next converted element |
| Core.CollectStopsAt | server/src/core.py:34-71 | once a prefix has failed, the whole loop fails the same way, with no partial list |
| Core.Max | server/src/core.py:88 | `max` returns an element of the list that no element exceeds |
| Core.AnswerTexts | server/src/core.py:80 | one text per answer element |
| Core.Marked | server/src/core.py:91-97 | one marked answer per text |
| Core.ReadAnswers | server/src/core.py:78-83 | the first loop reads each answer's text and fraction in order, failing when a fraction does not parse |
| Core.MarkAnswers | server/src/core.py:90-98 | the second loop marks each answer against the highest fraction |
| Core.ExtractMultichoiceAnswers | server/src/core.py:74-98 | the method yields the multichoice answers of the question element |
| Core.MultichoiceMarking | server/src/core.py:78-97 | one answer per element, in order, with its text and fraction; an answer is correct exactly when its fraction is positive and no fraction is higher |
| Core.MultichoiceErrors | server/src/core.py:81 | extraction fails, with `ValueError`, exactly when some fraction does not parse |
| Core.MultichoiceSomeCorrect | server/src/core.py:88-93 | when some fraction is positive, some answer is correct |
| Core.AnswerWithoutFraction | server/src/core.py:81-93 | an answer without a `fraction` attribute has fraction 0 and is never correct |
| Core.CoderunnerAnswers | server/src/core.py:104-106 | one coderunner answer per `answer` element |
| Core.ExtractCoderunnerAnswers | server/src/core.py:101-108 | the loop yields every `answer` element's full text as a coderunner answer, in order |
| Core.CoderunnerAnswersAccepted | server/src/core.py:57-58 | extracted coderunner answers pass answer validation unchanged |
| Core.MultichoiceAnswersAccepted | server/src/core.py:55-56 | extracted multichoice answers pass answer validation unchanged |
| Core.ExtractCoderunnerTestCases | server/src/core.py:111-137 | the loop yields the question's test cases |
| Core.TextFieldLookup | server/src/core.py:118-125 | the path `name/text` through a written-out field leads to its text |
| Core.TestCaseElementFields | server/src/core.py:117-127 | the code, input and expected output of a written-out test case are found along their paths |
| Core.TestCaseRoundTrip | server/src/core.py:117-136 | a test case written out as an element is read back unchanged |
| Core.CoderunnerTestCasesErrors | server/src/core.py:111-137 | fails, with a validation error, exactly when there is a `testcases` element and some `testcase` lacks input or expected output; otherwise one per `testcase`, example exactly when `useasexample` is `1` |
| Core.ExtractQuestion | server/src/core.py:35-69 | one iteration of the loop yields the question built from the element |
| Core.ExtractQuizData | server/src/core.py:29-71 | the loop yields the questions of every `question` element, or the first failure |
| Core.QuestionTextIsPathLookup | server/src/core.py:50 | the text lookup reaches what `safe_deep_find` would, and raises `AttributeError` where that finds nothing |
| Core.QuestionFromErrors | server/src/core.py:35-69 | a missing or unknown type is `InvalidQuestionException`, then a missing question text `AttributeError`, then a missing name a validation error |
| Core.ExtractedQuestionValid | server/src/core.py:35-69 | every extracted question is valid, has its element's type, question text and name, and no plain answer |
| Core.ExtractedQuestionContent | server/src/core.py:52-59 | a multichoice question carries the extracted multichoice answers and no test cases, a coderunner question the extracted coderunner answers and test cases, any other type neither |
| Core.QuizDataValid | server/src/core.py:29-71 | one valid question per `question` element, in document order, with the element's type and no plain answer |
| Core.StoreAllStopsAt | server/src/core.py:24-26 | once storing a prefix has failed, storing the whole list fails the same way |
| Core.AnyPlainSome | server/src/core.py:24-26 | the list check from the back is the same as some question having a plain answer |
| Core.StoreAllFailsOnPlain | server/src/core.py:24-26 | storing fails exactly when the list check finds a plain answer |
| Core.StoreAllRefuses | server/src/core.py:21-27 | storing a list fails exactly when some question has a plain answer |
| Core.StoreAllKeepsQuestions | server/src/core.py:24-26 | storing loses no question row and renumbers none |
| Core.StoreAllIds | server/src/core.py:21-27 | a stored list returns one id per question: the id of its row afterwards |
| Core.StoreAllWellFormed | server/src/core.py:24-26 | storing a list keeps the question ids unique and below the sequence |
| Core.StoreAllDistinctIds | server/src/core.py:21-27 | two stored questions share an id exactly when they share a name, so storing adds no duplicate question rows |
| Core.IngestStoresEveryQuestion | server/src/core.py:21-27 | with disjoint families, a document that extracts is fully stored, returning one id per `question` element in order |
| Core.StoreQuestions | server/src/core.py:24-27 | the loop stores each question in turn and collects the ids |
| Core.IngestQuizXml | server/src/core.py:21-27 | ingestion is extraction followed by storing every question |
| Prompts.Texts | server/src/models/core.py:48 | one text per answer, in order |
| Prompts.CorrectTexts | server/src/models/core.py:49-51 | reading the correct texts can only fail with `AttributeError` |
| Prompts.CorrectTextsErrors | server/src/models/core.py:49-51 | the correct texts can be read exactly when every answer is a multichoice answer |
| Prompts.CorrectTextsInOrder | server/src/models/core.py:48-51 | the correct texts are a subsequence of all texts |
| Prompts.CorrectTextsMembers | server/src/models/core.py:49-51 | a text is among the correct texts exactly when a correct answer carries it |
| Prompts.BuildMultichoice | server/src/models/core.py:43-57 | a type outside the multichoice family raises `ValueError`; a built prompt is the multichoice template filled with type, text, every answer text and the correct texts |
| Prompts.TestCaseLines | server/src/models/core.py:68-71 | one line per test case |
| Prompts.TestCaseLineLabel | server/src/models/core.py:68-71 | the k-th line opens with `[`, a tag that reads back as k+1, and `]`, and ends with the expected output and a blank line |
| Prompts.BuildCoderunner | server/src/models/core.py:60-77 | fails, with `ValueError`, exactly for a type outside the coderunner family; otherwise the coderunner template filled with type, text, the answer texts and one labelled line per test case |
| Prompts.BuildOther | server/src/models/core.py:80-91 | fails, with `ValueError`, exactly for a multichoice- or coderunner-family type |
| Prompts.BuildGuardsNeverFire | server/src/models/core.py:35-91 | through `build` no family guard fires: it fails only on a multichoice question with an answer lacking `is_correct`, and a valid question always gets its prompt |
| Prompts.ConstructMessages | server/src/models/core.py:94-101 | exactly two messages, the fixed system message and then the prompt as the user's, whenever the prompt builds |
| Prompts.MakePrompt | server/src/models/core.py:118-121 | the reported prompt is the content of the second message, which is the built prompt |
| Config.DsnParts | server/src/config.py:21-23 | the DSN starts with `postgresql://`, carries `str(port)` after the host and ends with `/` and the database name |
| Config.ValidateLogLevel | server/src/config.py:29-34 | accepted unchanged exactly when the level is one of the five names; otherwise `ValueError` |
| Config.ValidatePort | server/src/config.py:47-58 | a port is accepted, as written, exactly when `int()` reads it and it lies in 0..65535; otherwise `ValueError` |
| Config.PortRejectsSeparator | server/src/config.py:47-58 | a port that ends in one of U+001C..U+001F is refused with `ValueError`, because `int()` does not skip those characters |
| Config.PortRange | server/src/config.py:47-58 | a number written in decimal is accepted exactly when it is in 0..65535 |
| Config.ValidPortChars | server/src/config.py:51 | an accepted port holds only digits, underscores, signs and the whitespace `int()` skips |
| Config.NewServerSettings | server/src/config.py:37-58 | settings are built, fields unchanged, exactly when the protocol is http or https, the host non-empty and the port valid |
| Config.SettingsSection | server/src/config.py:64-71 | `settings.<name>` succeeds exactly for the four declared sections; otherwise `AttributeError` |
| Config.UrlParts | server/src/config.py:43-45 | the URL starts with protocol and `://`, ends with `:` and the port, which holds no colon, and has the host in between |
| Language.GetLanguagePack | server/src/language.py:11-16 | `None` means the default language; a language without a pack raises `ValueError`; otherwise exactly its pack |
| Language.FirstMissing | server/src/language.py:20-21 | the loop finds no language exactly when every declared language has a pack, and otherwise a declared one without a pack |
| Language.ValidateLanguages | server/src/language.py:18-23 | the manager passes unchanged exactly when every declared language has a pack; otherwise a validation error |
| Language.ValidateLanguagesAsWritten | server/src/language.py:18-23 | as written, the manager passes unchanged exactly when every declared language has a pack; otherwise `TypeError` |
| Language.ValidManagerServesAll | server/src/language.py:11-23 | a validated manager serves every language, and the default's pack for `None` |
| Language.ModuleManager | server/src/language.py:215-221 | the module-level manager has a pack for every declared language |
| Language.ModuleManagerFailsAsWritten | server/src/language.py:215-221 | as written, building the module-level manager always raises `AttributeError` |
| Language.ModuleManagerPacks | server/src/language.py:215-221 | it serves the Russian pack for `ru`, the English one for `en`, and the default's for `None` |

## Left out

- XML parsing (`validate_xml`, BeautifulSoup): the model starts from the parsed tree in `XmlTree`, whose `find` and `find_all` search descendants in document order.
- `float()` on a fraction is the parameter `parse`: floating-point syntax, NaN and infinities are not modelled, and fractions are reals. The model temperature (`ModelTemperature`, a Python `float`) is a `real` too, in `Types.AsModelTemperature` and `Schemas.FromCompletion`: rounding is not modelled.
- `\w` and `\d` are read as ASCII: letters, digits and underscore, and the digits 0-9. Python also matches other Unicode letters and decimal digits there. `\s` and `str.strip()` use Python's full whitespace set (`Strings.IsWhitespace`). `int()` skips a narrower set (`Strings.IsSpace` with `IntSpaces`): Python's whitespace without the separators U+001C..U+001F, which it keeps as they are and then refuses.
- `int()` accepts only the ASCII digits 0-9 in the model. Python also reads other Unicode decimal digits.
- `clean_html_tags`, `get_request_ip` and `get_connection_id` call libraries or the request and are not modelled. The render helpers that use them are left out with them.
- Transactions: the rollback that undoes a failed document's writes happens outside the core. In the model a failed run keeps the writes made before the failure.
- `get_completion` and `make_inference` are network calls to the language model and are not modelled. `make_prompt` starts from the question that `get_question_admin` would read, since that read is not part of the shown store.
- The prompt templates, the known question types and the family sets live in modules this model does not contain. They are parameters (`Templates`, `QuestionTypes`).
- Settings defaults, reading the environment, pool fields and `public_api_key` are not modelled. The validators and derived strings are.
- The language packs are interface text: their contents are a type parameter of `Language`, and the default language is a parameter of `Language.ModuleManager`.
- Pydantic wraps a validator's `ValueError` into a `ValidationError` and lets other errors through (`Exceptions.ValidatorRaised`): `Config.ValidatePort` reports the validator's own `ValueError`, `Config.NewServerSettings` the wrapped one.
- Exceptions.DefaultDetail: the contract only says the default detail is non-empty; the exact texts are in its body.
- Utils.ReplaceAndAppendOptionsListing: the contract states the appended listing, not that every occurrence of the block is replaced; `Utils.FirstMcsBlockText` says which text is replaced.
- Utils.ReplaceBlock: the same gap; the contract states the appended listing, not that every occurrence of the block is replaced.
- The read side (access by user group and level, page responses' rendering) is not part of this model.

## Findings

| source | as written | input that shows it | evidently intended | confidence | as-written member | corrected member |
|---|---|---|---|---|---|---|
| server/src/database/crud.py:37-45 | the upsert's `WHERE` skips an unchanged live row, so `RETURNING id` yields no row and `fetchone()[0]` raises `TypeError` | ingesting a question a second time with the same type and text | return the existing row's id | not executed | Crud.UnchangedQuestionFailsAsWritten | Crud.Store.GetQuestion |
| server/src/database/crud.py:19 | `create_answer` is called with `question_id=`, which it neither accepts nor forwards, so it raises `TypeError` | any question with at least one answer | route the answer with the question id | not executed | Crud.CreateAnswerFailsAsWritten | Crud.Store.CreateAnswer |
| server/src/database/crud.py:128 | `model_dump(include={"text"})` dumps nothing because `TestCase` has no `text` field, so the statement's parameters are unbound and it raises `KeyError` | any coderunner question with a test case | bind `code`, `input`, `expected_output` and `example` | not executed | Crud.TestCaseFailsAsWritten | Crud.TestCaseBindsCorrected |
| server/src/database/crud.py:16-21 | `update_db_state` returns nothing, so `ingest_quiz_xml` collects `None` for every question | a question without answers or test cases | return the question's id | not executed | Crud.UpdateDbStateAsWrittenNoId | Crud.Store.UpdateDbState |
| server/src/language.py:220 | `settings.frontend` is read, but `Settings` declares no `frontend` section, so importing the module raises `AttributeError` | importing `server/src/language.py` under any environment | read the default language from a declared setting | not executed | Language.ModuleManagerFailsAsWritten | Language.ModuleManager |
| server/src/language.py:22 | `ValidationError("...")` cannot be built from a message, so the validator raises `TypeError`, which pydantic does not turn into a validation error | a manager with no pack for `en` | reject the manager with a validation error, by raising `ValueError` | not executed | Language.ValidateLanguagesAsWritten | Language.ValidateLanguages |
