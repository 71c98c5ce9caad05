# 1C Helper: grading pipeline and service rules, in Dafny

1C Helper is a training site for the 1C:Enterprise language. Learners read
topics, open tasks and submit code. The server runs the code through the
OneScript interpreter once per stored test case. It compares the printed
output with the expected output and records the verdict as an attempt.
Once a learner has passed a task, that task is locked for them.

This project models that core as pure functions over immutable data:

- `JavaText`: the pieces of `java.lang.String` the services rely on.
  These are `trim` (strips code points up to U+0020), `isBlank` (uses
  `Character.isWhitespace`, a different set), `contains`/`indexOf`,
  `lastIndexOf`, `toLowerCase` and decimal rendering of integers. Java
  `null` is `Option.Null`.
- `OutputNormalizer`: `normalizeOutput`.
- `CodeExecution`: `runTests` and `runTestsStub` of `CodeExecutionService`. The
  interpreter is an oracle `Runner`. It maps the invocation's position and
  its standard input to an outcome: a normal exit with code, stdout and
  stderr, a launch failure, an interrupt, or a timeout. Whether the script
  file could be written is a `Setup` parameter.
- `Store`: the database as the services see it. Users, topics and tasks
  are maps. Test cases and attempts are sequences in insertion order.
  A service call is a transaction `Tx`: a new state plus `Ok(value)` or
  `Err(message)`. A failed call returns the state unchanged.
- `Attempts`: `AttemptService.submit`, `getAttempt`, `getMyAttempts`,
  `getMyAttemptsForTask`.
- `Tasks`, `Topics`: the record rules of `TaskService` and `TopicService`.
- `Users`: `getExtension`, the avatar checks of `updateAvatar`, and the
  e-mail and password rules of `updateProfile`.
- `Scenarios`: test runs of the tasks the application seeds at
  start-up ("Привет, мир!" and "42", four test cases each).

A timeout or a launch failure might be expected to fail just the one test
it happened in; the model follows the code, which does otherwise. In the code, `runProcess` throws in those cases, and the
exception leaves the loop. The whole run then collapses to `allPassed =
false`, `passedCount = 0`, `totalCount = |cases|`, with an empty list of
test results and a single message (`CodeExecution.AbortedRunCollapses`).

A natural expectation of a test run holds only with an exception: "a
program that prints exactly the expected output and exits with 0 passes". Suppose the expected output
normalises to "" and the program also writes something non-blank to
stderr. Then the stderr fallback replaces the empty stdout, and the test
fails (`CodeExecution.EmptyExpectedWithStderrFails`). `CodeExecution.ExactOutputPasses`
states the claim with that case excluded.

## Model

| member | source | states |
|---|---|---|
| OutputNormalizer.NormalizeOutput | src/main/java/ru/chelper/service/CodeExecutionService.java:230-233 | null gives ""; the result has no '\r' and no character <= U+0020 at either end; for a non-null text, the result is empty exactly when the text consists of trimmable characters only |
| OutputNormalizer.NormalizeFixedPoint | src/main/java/ru/chelper/service/CodeExecutionService.java:230-233 | a text is left unchanged by normalisation if and only if it is trimmed and has no '\r' |
| OutputNormalizer.NormalizeIdempotent | src/main/java/ru/chelper/service/CodeExecutionService.java:230-233 | normalising twice equals normalising once |
| OutputNormalizer.NormalizeIgnoresOuterWhitespace | src/main/java/ru/chelper/service/CodeExecutionService.java:232 | a text and its trimmed form normalise to the same result |
| OutputNormalizer.ReplaceCr | src/main/java/ru/chelper/service/CodeExecutionService.java:232 | every '\r' becomes '\n' and every other character stays where it was |
| OutputNormalizer.ReplaceCrLfKeepsPadding | src/main/java/ru/chelper/service/CodeExecutionService.java:232 | the "\r\n" replacement never lengthens a text and turns a text of trimmable characters into one |
| OutputNormalizer.ReplaceCrLfAppend | src/main/java/ru/chelper/service/CodeExecutionService.java:232 | the "\r\n" replacement of a concatenation is the concatenation of the replacements, unless the cut separates a '\r' from the '\n' after it |
| OutputNormalizer.UnifyLineEndsAppend | src/main/java/ru/chelper/service/CodeExecutionService.java:232 | the same holds for both replacements together |
| OutputNormalizer.UnifySeparators | src/main/java/ru/chelper/service/CodeExecutionService.java:232 | "\r\n", "\r" and "\n" each become "\n" |
| OutputNormalizer.TrimThenUnify | src/main/java/ru/chelper/service/CodeExecutionService.java:232 | trimming and then replacing the line endings gives the same text as replacing them and then trimming |
| OutputNormalizer.NormalizeUnifiesLineEnds | src/main/java/ru/chelper/service/CodeExecutionService.java:230-233 | a normalised text is the text with every line ending turned into "\n" and its padding trimmed |
| OutputNormalizer.UnifyJoin | src/main/java/ru/chelper/service/CodeExecutionService.java:232 | lines without '\r' or '\n' joined by "\r\n", "\r" or "\n" come out of the replacements joined by "\n" |
| OutputNormalizer.LineEndingsNormalizeAlike | src/main/java/ru/chelper/service/CodeExecutionService.java:230-233 | lines joined by "\r\n" or by "\r" normalise to exactly what the same lines joined by "\n" normalise to: that text, trimmed |
| OutputNormalizer.ReplaceCrLfWithoutCr | src/main/java/ru/chelper/service/CodeExecutionService.java:232 | the "\r\n" replacement leaves a text without '\r' unchanged |
| JavaText.Trim | src/main/java/ru/chelper/service/CodeExecutionService.java:232 | the result is a slice of the input with only trimmable characters cut off on either side, and its ends are not trimmable; it is empty exactly when the input is all trimmable |
| JavaText.TrimStripsPadding | src/main/java/ru/chelper/service/CodeExecutionService.java:232 | trimming a non-empty trimmed text with trimmable padding on both sides gives back exactly that text |
| JavaText.IndexOfFindsContains | src/main/java/ru/chelper/service/CodeExecutionService.java:175 | `indexOf(t) >= 0` holds exactly when some window of the text equals `t` |
| JavaText.IntToStringRoundTrip | src/main/java/ru/chelper/service/CodeExecutionService.java:149 | decimal rendering of an integer parses back to the same integer, so the counts in the messages are faithful |
| CodeExecution.ActualOutput | src/main/java/ru/chelper/service/CodeExecutionService.java:129-134 | the compared output is normalised stdout, except when that is empty and stderr is not blank; then it is normalised stderr |
| CodeExecution.Judge | src/main/java/ru/chelper/service/CodeExecutionService.java:126-144 | a test passes iff the exit code is 0 and normalised expected equals actual output; a pass says "OK"; a non-zero exit reports "Ошибка выполнения: " with trimmed stderr or the exit code; any other failure reports "Ожидалось: «expected», получено: «actual»" with both normalised texts |
| CodeExecution.NonZeroExitFails | src/main/java/ru/chelper/service/CodeExecutionService.java:138-140 | a non-zero exit always fails, with trimmed stderr, or "код возврата N" when stderr is blank |
| CodeExecution.ExactOutputPasses | src/main/java/ru/chelper/service/CodeExecutionService.java:129-143 | stdout that normalises to the expected output with exit 0 passes, unless the expected output is empty and stderr is not blank |
| CodeExecution.EmptyExpectedWithStderrFails | src/main/java/ru/chelper/service/CodeExecutionService.java:131-132 | expected "", empty stdout and stderr "warning" with exit 0 fails the test |
| CodeExecution.CountPassedAll | src/main/java/ru/chelper/service/CodeExecutionService.java:146 | the passed count equals the number of tests iff every test passed |
| CodeExecution.CountPassedNone | src/main/java/ru/chelper/service/CodeExecutionService.java:143 | the passed count is zero iff no test passed |
| CodeExecution.AllPassedMessageIsDistinct | src/main/java/ru/chelper/service/CodeExecutionService.java:147-149 | neither all-passed message can be mistaken for a "Пройдено X из Y тестов." message |
| CodeExecution.Summarize | src/main/java/ru/chelper/service/CodeExecutionService.java:146-150 | one result per verdict; passed count is the number of passes and at most the total; all passed iff every verdict passed iff the counts are equal; the all-passed message appears exactly then, otherwise "Пройдено X из Y тестов." |
| CodeExecution.FirstAbnormal | src/main/java/ru/chelper/service/CodeExecutionService.java:125-128 | the loop reaches case `at` only if every earlier invocation exited normally, and stops at the first one that did not |
| CodeExecution.Verdicts | src/main/java/ru/chelper/service/CodeExecutionService.java:123-145 | a completed loop yields one verdict per case, in stored order, each judged on that case's own invocation |
| CodeExecution.AbortedRun | src/main/java/ru/chelper/service/CodeExecutionService.java:151-157 | an exception gives allPassed false, 0 passed, the full case count and no per-test results |
| CodeExecution.StubVerdict | src/main/java/ru/chelper/service/CodeExecutionService.java:174-176 | a stub test passes iff the code contains the normalised expected output; the message is "OK" or the stub mismatch text |
| CodeExecution.RunTestsStub | src/main/java/ru/chelper/service/CodeExecutionService.java:169-182 | one result per case; each passes iff the code contains its normalised expected output; each message is "OK" or "Ожидаемый вывод не совпал (режим-заглушка)" accordingly; the passed count is the number of passes; all passed iff all cases are contained iff the counts are equal; the "(режим-заглушка)" message appears exactly on an all-pass, otherwise "Пройдено X из Y тестов." |
| CodeExecution.RunTests | src/main/java/ru/chelper/service/CodeExecutionService.java:98-166 | blank or null code gives (false, 0, 0, "Код не может быть пустым"); no cases gives (false, 0, 0, "Нет тестов для задачи"); otherwise the total is the number of cases; stub mode is `RunTestsStub`; a failed script write gives (false, 0, total, "Ошибка запуска: " + reason, no results); passed never exceeds total; all passed implies every case passed |
| CodeExecution.CompletedRun | src/main/java/ru/chelper/service/CodeExecutionService.java:123-150 | when every invocation exits, the results are exactly the per-case verdicts in order, and count and message follow from them |
| CodeExecution.AbortedRunCollapses | src/main/java/ru/chelper/service/CodeExecutionService.java:151-157 | the first launch failure, interrupt or timeout collapses the whole run to 0 passed of all cases with no results, with the message for that exception |
| CodeExecution.NoRunnerCallOnEarlyExit | src/main/java/ru/chelper/service/CodeExecutionService.java:99-109 | for blank code, no cases, stub mode or a failed script write, the result does not depend on the interpreter |
| Store.TestCasesOf | src/main/java/ru/chelper/service/TaskService.java:89-91 | the task's test cases are exactly the stored rows with that task id |
| Store.TestCasesOfCount | src/main/java/ru/chelper/service/TaskService.java:89-91 | the task's list is as long as the number of table positions that hold one of its rows |
| Store.TestCasesOfAppend | src/main/java/ru/chelper/service/TaskService.java:85 | a new row joins the end of its own task's list and no other |
| Store.GradingCases | src/main/java/ru/chelper/service/CodeExecutionService.java:125-127 | a test run sees each row's input and expected output in row order |
| Attempts.Submit | src/main/java/ru/chelper/service/AttemptService.java:42-70 | rejections in order: unknown user, unknown task, already passed, fewer than 4 tests (naming the count); a rejection leaves the store unchanged; success iff all four gates pass; then exactly one attempt is appended with the run's passed flag, counts and message and the submitted code, and the returned DTO mirrors it |
| Attempts.SolvedTaskIsLocked | src/main/java/ru/chelper/service/AttemptService.java:45-47 | after a pass, any submission for the task is refused with "Задача уже сдана…" and nothing changes |
| Attempts.AdmittedRunCoversAllTests | src/main/java/ru/chelper/service/AttemptService.java:48-59 | an admitted run of non-blank code records a total equal to the task's test count, at least 4, and a pass only with all of them passed |
| Attempts.SubmitKeepsAtMostOnePass | src/main/java/ru/chelper/service/AttemptService.java:45-61 | submit keeps the invariant that no user has two passing attempts at one task |
| Attempts.SubmitKeepsValid | src/main/java/ru/chelper/service/AttemptService.java:61 | submit keeps identifiers fresh and the attempt rows in identifier order |
| Attempts.SubmitAllKeepsHistoryAndLock | src/main/java/ru/chelper/service/AttemptService.java:42-70 | over any series of submissions the history only grows by appending and the one-pass lock holds |
| Attempts.FindAttempt | src/main/java/ru/chelper/service/AttemptService.java:88-89 | a found attempt has the asked id; not found means no attempt has it |
| Attempts.ToDto | src/main/java/ru/chelper/service/AttemptService.java:96-110 | the projection copies the attempt's own fields |
| Attempts.GetAttempt | src/main/java/ru/chelper/service/AttemptService.java:87-94 | unknown id gives "Попытка не найдена"; a result is always the caller's own attempt; the only errors are not-found and "Доступ запрещён" |
| Attempts.GetAttemptOwnership | src/main/java/ru/chelper/service/AttemptService.java:90-93 | with unique ids the owner reads the attempt back and any other user is denied |
| Attempts.AttemptsOf | src/main/java/ru/chelper/service/AttemptService.java:74 | the listed attempts are exactly the user's (and the task's, when given) |
| Attempts.MyAttempts | src/main/java/ru/chelper/service/AttemptService.java:73-77 | an item is listed iff it is the projection of one of the caller's attempts |
| Attempts.MyAttemptsForTask | src/main/java/ru/chelper/service/AttemptService.java:80-84 | an item is listed iff it is the projection of one of the caller's attempts at that task |
| Attempts.SubmittedAttemptIsListed | src/main/java/ru/chelper/service/AttemptService.java:42-94 | in a valid store an admitted submission appears in the caller's history, in the history for the task, and is read back by its owner under the returned id |
| Attempts.BlankCodeIsRecordedAsFailure | src/main/java/ru/chelper/service/AttemptService.java:52-69 | the gate does not look at the code: blank or null code is admitted and recorded as a failed attempt with 0 of 0 tests and "Код не может быть пустым" |
| Tasks.GetById | src/main/java/ru/chelper/service/TaskService.java:39-43 | a missing id fails with "Задача не найдена", otherwise the task's projection |
| Tasks.Create | src/main/java/ru/chelper/service/TaskService.java:46-56 | an unknown topic is refused with "Тема не найдена" and nothing changes; otherwise one new task under a fresh id with the request's fields and sort order 0 when none is given |
| Tasks.Merge | src/main/java/ru/chelper/service/TaskService.java:62-64 | each non-null request field replaces the stored one; the others and the topic stay |
| Tasks.MergeIdentityAndIdempotence | src/main/java/ru/chelper/service/TaskService.java:62-64 | an all-null request changes nothing; applying a request twice equals applying it once |
| Tasks.Update | src/main/java/ru/chelper/service/TaskService.java:59-67 | a missing id fails and nothing changes; otherwise only that task is replaced by the merge |
| Tasks.WritesReadBack | src/main/java/ru/chelper/service/TaskService.java:39-75 | `getById` after `create` returns the request's fields with the default sort order; after `update` the merged record; after `delete` "Задача не найдена" for that id and the old answer for any other |
| Tasks.Delete | src/main/java/ru/chelper/service/TaskService.java:70-75 | a missing id fails with "Задача не найдена" and nothing changes; otherwise exactly that task is gone |
| Tasks.GetTestCaseCount | src/main/java/ru/chelper/service/TaskService.java:89-91 | the count equals the number of stored rows that belong to the task; it is zero iff there are none |
| Tasks.AddTestCase | src/main/java/ru/chelper/service/TaskService.java:78-86 | an unknown task fails; otherwise one row is appended with null input or expected output stored as "" |
| Tasks.AddTestCaseCounts | src/main/java/ru/chelper/service/TaskService.java:78-91 | adding a test case raises that task's count by one and no other task's |
| Tasks.CreateIsFresh | src/main/java/ru/chelper/service/TaskService.java:54 | in a valid store the new task's id is unused and existing tasks are untouched |
| Tasks.CreateKeepsValid | src/main/java/ru/chelper/service/TaskService.java:54 | create keeps the store valid |
| Tasks.DeleteKeepsValid | src/main/java/ru/chelper/service/TaskService.java:70-75 | delete keeps the store valid |
| Tasks.AddTestCaseKeepsValid | src/main/java/ru/chelper/service/TaskService.java:85 | adding a test case keeps ids fresh and rows in id order |
| Topics.ToDto | src/main/java/ru/chelper/service/TopicService.java:78-86 | the list projection carries id, title, description and sort order, no content or image, and hasTasks iff some task belongs to the topic |
| Topics.ToDtoFull | src/main/java/ru/chelper/service/TopicService.java:88-93 | the full projection is the list projection plus content and image path |
| Topics.FindAll | src/main/java/ru/chelper/service/TopicService.java:21-26 | exactly the projections of all stored topics |
| Topics.Search | src/main/java/ru/chelper/service/TopicService.java:29-36 | a null query, or one that is empty after `trim`, gives exactly `findAll`; otherwise a subset of it, containing a topic iff its title or description contains the trimmed query ignoring case |
| Topics.SearchIgnoresOuterSpaces | src/main/java/ru/chelper/service/TopicService.java:33 | a query and its trimmed form give the same result |
| Topics.GetById | src/main/java/ru/chelper/service/TopicService.java:39-43 | a missing id fails with "Тема не найдена", otherwise the full projection |
| Topics.Create | src/main/java/ru/chelper/service/TopicService.java:46-55 | one new topic under a fresh id with the request's fields, sort order 0 when none is given, nothing else changed |
| Topics.CreateIsFresh | src/main/java/ru/chelper/service/TopicService.java:46-55 | in a valid store the new topic's id is unused, the existing topics are untouched, and the listing gains exactly the new topic's projection |
| Topics.CreateKeepsValid | src/main/java/ru/chelper/service/TopicService.java:46-55 | create keeps the store valid |
| Topics.Merge | src/main/java/ru/chelper/service/TopicService.java:61-65 | each non-null request field replaces the stored one; the others stay |
| Topics.MergeIdentityAndIdempotence | src/main/java/ru/chelper/service/TopicService.java:61-65 | an all-null request changes nothing; applying a request twice equals applying it once |
| Topics.Update | src/main/java/ru/chelper/service/TopicService.java:58-68 | a missing id fails and nothing changes; otherwise only that topic is replaced by the merge and its full projection returned |
| Topics.Delete | src/main/java/ru/chelper/service/TopicService.java:71-76 | a missing id fails with "Тема не найдена" and nothing changes; otherwise exactly that topic is gone |
| Topics.DeleteLeavesTheRest | src/main/java/ru/chelper/service/TopicService.java:71-76 | deleting a topic removes exactly its projection from the listing |
| Topics.DeleteKeepsValid | src/main/java/ru/chelper/service/TopicService.java:71-76 | delete keeps the store valid |
| Topics.WritesReadBack | src/main/java/ru/chelper/service/TopicService.java:39-76 | `getById` after `create` returns the request's fields with the default sort order; after `update` the full projection of the merged record; after `delete` "Тема не найдена" for that id and the unchanged topic for any other |
| Users.GetExtension | src/main/java/ru/chelper/service/UserService.java:105-109 | null gives null; a result exists iff there is a '.' after the first character; it is the text after the last '.', which it does not contain |
| Users.ExtensionOfStoredName | src/main/java/ru/chelper/service/UserService.java:81 | the stored name `<uuid>.<ext>` yields the validated extension again |
| Users.AvatarExtensionIgnoresCase | src/main/java/ru/chelper/service/UserService.java:77 | the whitelist accepts an extension iff it equals jpg, jpeg, png, gif or webp ignoring case |
| Users.UpdateAvatar | src/main/java/ru/chelper/service/UserService.java:72-99 | a missing or empty file gives "Файл не выбран"; a null or non-whitelisted extension gives the formats message; after that an unknown user gives "Пользователь не найден" and a failed copy "Не удалось сохранить файл"; a rejection leaves the store unchanged; success sets the avatar path to "/uploads/avatars/" + name + "." + extension and changes nothing else |
| Users.StoredAvatarPassesWhitelist | src/main/java/ru/chelper/service/UserService.java:81-95 | a stored avatar path lies in the avatar directory and its file name has a whitelisted extension |
| Users.UpdateProfile | src/main/java/ru/chelper/service/UserService.java:51-69 | unknown user fails; success iff the user exists, the e-mail does not conflict and no short non-blank password is given; a non-blank e-mail is refused as taken iff it differs from the current one and some account has it ignoring case; otherwise a non-blank password shorter than 6 characters is refused with "Пароль должен быть не короче 6 символов", and only then; on success the e-mail is stored trimmed and lower-cased, a non-blank password of at least 6 characters is encoded, a blank or null one leaves the hash, and nothing else changes |
| Users.ProfileEdgeCases | src/main/java/ru/chelper/service/UserService.java:53-63 | re-submitting one's own canonical e-mail never conflicts, and a short non-blank password is always refused |
| Users.CanonicalEmailIsStable | src/main/java/ru/chelper/service/UserService.java:54 | trimming and lower-casing a stored address again changes nothing |
| Scenarios.HelloWorldPasses | src/main/java/ru/chelper/service/CodeExecutionService.java:123-150 | the seeded greeting task with output "Привет, мир!\r\n" gives (true, 4, 4, "Все тесты пройдены.", four OKs) |
| Scenarios.WrongCaseFailsEveryTest | src/main/java/ru/chelper/service/CodeExecutionService.java:136-150 | printing the greeting in lower case fails each of the four tests with "Ожидалось: «Привет, мир!», получено: «привет, мир!»" and gives 0 of 4 with "Пройдено 0 из 4 тестов." |
| Scenarios.EndlessScriptTimesOut | src/main/java/ru/chelper/service/CodeExecutionService.java:156-157 | a timeout on the seeded task gives (false, 0, 4, "Превышено время выполнения (таймаут 10 с).", no results) |
| Scenarios.StubModeFindsAnswerInCode | src/main/java/ru/chelper/service/CodeExecutionService.java:169-182 | in stub mode the "42" task passes all four tests for code that mentions 42 |

## Left out

- Process I/O: spawning OneScript, writing stdin, the stream-copy threads, `waitFor` and `destroyForcibly`. The interpreter is the `Runner` oracle. An invocation that exceeds the timeout appears as `TimedOut`.
- Creating and recursively deleting the temporary run directory. A failure to create it or write the script is the `Setup` parameter. Cleanup has no observable effect on the result.
- Logging, and the `workDirPath` and interpreter command settings.
- Concurrency and transactions: every service call is one atomic step. The race between the solved check and the save in `submit` is not modelled.
- Repository ordering. `findAll` and `search` order topics by sort order; the model returns sets. Attempts are listed newest first by creation time; the model states membership only. `getByTopicId` of `TaskService` is not modelled; it is a plain filtered, ordered query.
- Attempts.MyAttempts: states which items are listed, in both directions, but not the newest-first order of `findByUserIdOrderByCreatedAtDesc`, because creation times come from the database.
- Attempts.MyAttemptsForTask: states which items are listed, in both directions, but not the newest-first order.
- Tasks.Create: the new identifier is fresh only in a valid store (`Tasks.CreateIsFresh`). In an arbitrary store the counter may hit an existing task, which the model then replaces; the database always generates an unused identifier.
- Topics.Create: the new identifier is fresh only in a valid store (`Topics.CreateIsFresh`), for the same reason.
- Test-case order: `runTests` iterates the entity collection `task.getTestCases()`, whose mapping is not part of this model. The model runs the task's rows in identifier order, as `findByTaskIdOrderByIdAsc` lists them, and so assumes the collection has that order and the same members.
- Topics.Search: the SQL `LIKE` pattern is modelled as a plain substring test. `%` or `_` inside the query would act as wildcards in the database.
- `toLowerCase` covers ASCII and the basic Cyrillic letters only. Other scripts are left as they are. Lengths are counted in code points, not UTF-16 units.
- Timestamps: `createdAt` of an attempt is a parameter; `updatedAt` is not modelled.
- The password encoder is a function parameter. The random avatar name is a parameter. The file copy is a `copyFails` flag. Deleting the old avatar file is not modelled, since it has no effect on the result.
- `getProfile`, `getProfileByUsername` and `toResponse` are plain lookups and are not modelled. `AuthService`, the controllers, `DataInitializer` (except as the scenarios' data) and the JavaScript front end are not part of this model.
- Deleting a topic or a task does not cascade to its tasks, test cases or attempts in the model. The database's cascade rules are not part of this model.
- A null test-case list is treated like an empty one by the source. The model's cases are a sequence, so the two coincide.
- Attempts.ToDto: states the attempt's own fields only. The task and topic titles are looked up through the stored references; a dangling reference gives null in the model, where the source would fail.
