/**
 * The submission gate of `AttemptService`: a submission is graded only for a
 * known user and task, when the user has not yet passed the task and the
 * task has at least four test cases; the run is then recorded as exactly one
 * new attempt. Reading an attempt back is allowed to its owner only.
 */
module Attempts {
  import opened JavaText
  import opened Store
  import CodeExecution

  const MinTestsPerTask := 4

  const AlreadySolved := "Задача уже сдана. Повторная отправка недоступна."
  const AttemptNotFound := "Попытка не найдена"
  const AccessDenied := "Доступ запрещён"

  function TooFewTests(count: nat): string
  {
    "У задачи должно быть минимум " + IntToString(MinTestsPerTask) + " теста. Сейчас: " + IntToString(count)
  }

  /** Everything a test run needs besides the task and the code: its
      configuration, whether the script could be written, and the interpreter. */
  datatype Grading = Grading(cfg: CodeExecution.Config, setup: CodeExecution.Setup, runner: CodeExecution.Runner)

  datatype SubmitResultDto = SubmitResultDto(
    attemptId: Id,
    passed: bool,
    passedTests: nat,
    totalTests: nat,
    message: string,
    createdAt: int)

  /** `taskService.getTestCaseCount`, as the gate sees it. */
  function TestCount(db: Db, taskId: Id): nat
  {
    |TestCasesOf(db.testCases, taskId)|
  }

  /** The test run `runTests` produces for this task and code. */
  function RunFor(db: Db, taskId: Id, code: Option<string>, g: Grading): CodeExecution.RunResult
  {
    CodeExecution.RunTests(g.cfg, GradingCases(TestCasesOf(db.testCases, taskId)), code, g.setup, g.runner)
  }

  /** The gate lets a submission through to grading. */
  predicate Admits(db: Db, userId: Id, taskId: Id)
  {
    && userId in db.users
    && taskId in db.tasks
    && !HasPassingAttempt(db.attempts, taskId, userId)
    && TestCount(db, taskId) >= MinTestsPerTask
  }

  /** `submit`. `now` is the creation timestamp the database assigns. */
  function Submit(db: Db, userId: Id, taskId: Id, code: Option<string>, g: Grading, now: int): (tx: Tx<SubmitResultDto>)
    ensures tx.result.Err? ==> tx.db == db
    ensures tx.result.Ok? <==> Admits(db, userId, taskId)
    ensures userId !in db.users ==> tx.result == Err(UserNotFound)
    ensures userId in db.users && taskId !in db.tasks ==> tx.result == Err(TaskNotFound)
    ensures userId in db.users && taskId in db.tasks && HasPassingAttempt(db.attempts, taskId, userId) ==>
      tx.result == Err(AlreadySolved)
    ensures (userId in db.users && taskId in db.tasks && !HasPassingAttempt(db.attempts, taskId, userId)
             && TestCount(db, taskId) < MinTestsPerTask) ==> tx.result == Err(TooFewTests(TestCount(db, taskId)))
    ensures tx.result.Ok? ==>
      && |tx.db.attempts| == |db.attempts| + 1
      && tx.db.attempts[..|db.attempts|] == db.attempts
      && tx.db == db.(attempts := tx.db.attempts, nextId := db.nextId + 1)
      && var a := tx.db.attempts[|db.attempts|];
         var run := RunFor(db, taskId, code, g);
         && a.id == db.nextId && a.userId == userId && a.taskId == taskId && a.code == code
         && a.passed == run.allPassed && a.passedTests == run.passedCount
         && a.totalTests == run.totalCount && a.message == run.message && a.createdAt == now
         && tx.result.value == SubmitResultDto(a.id, a.passed, a.passedTests, a.totalTests, a.message, a.createdAt)
  {
    if userId !in db.users then Tx(db, Err(UserNotFound))
    else if taskId !in db.tasks then Tx(db, Err(TaskNotFound))
    else if HasPassingAttempt(db.attempts, taskId, userId) then Tx(db, Err(AlreadySolved))
    else
      var count := TestCount(db, taskId);
      if count < MinTestsPerTask then Tx(db, Err(TooFewTests(count)))
      else
        var run := RunFor(db, taskId, code, g);
        var a := Attempt(db.nextId, userId, taskId, code, run.allPassed, run.passedCount, run.totalCount, run.message, now);
        var db' := db.(attempts := db.attempts + [a], nextId := db.nextId + 1);
        assert db'.attempts[..|db.attempts|] == db.attempts;
        Tx(db', Ok(SubmitResultDto(a.id, a.passed, a.passedTests, a.totalTests, a.message, a.createdAt)))
  }

  /** Once a user has passed a task, every later submission for it is
      refused, whatever the code, and nothing is recorded. */
  lemma SolvedTaskIsLocked(db: Db, userId: Id, taskId: Id, code: Option<string>, g: Grading, now: int)
    requires userId in db.users && taskId in db.tasks
    requires HasPassingAttempt(db.attempts, taskId, userId)
    ensures Submit(db, userId, taskId, code, g, now) == Tx(db, Err(AlreadySolved))
  {
  }

  /** An admitted submission records a run over all of the task's test cases:
      at least four are graded, and it passes only if all of them do. */
  lemma AdmittedRunCoversAllTests(db: Db, userId: Id, taskId: Id, code: Option<string>, g: Grading, now: int)
    requires Admits(db, userId, taskId)
    requires !CodeExecution.IsBlankCode(code)
    ensures var a := Submit(db, userId, taskId, code, g, now).db.attempts[|db.attempts|];
      && a.totalTests == TestCount(db, taskId) >= MinTestsPerTask
      && a.passedTests <= a.totalTests
      && (a.passed ==> a.passedTests == a.totalTests)
  {
  }

  /** The gate does not look at the code: a blank submission (by
      `isBlank`, so also one of Unicode spaces that `trim` would keep) is
      admitted and recorded as a failed attempt with no tests counted. */
  lemma BlankCodeIsRecordedAsFailure(db: Db, userId: Id, taskId: Id, code: Option<string>, g: Grading, now: int)
    requires Admits(db, userId, taskId)
    requires CodeExecution.IsBlankCode(code)
    ensures var tx := Submit(db, userId, taskId, code, g, now);
      && tx.result.Ok?
      && tx.result.value == SubmitResultDto(db.nextId, false, 0, 0, CodeExecution.EmptyCodeMessage, now)
      && tx.db.attempts == db.attempts + [Attempt(db.nextId, userId, taskId, code, false, 0, 0, CodeExecution.EmptyCodeMessage, now)]
  {
  }

  /** Submitting keeps the one-pass-per-task lock. */
  lemma SubmitKeepsAtMostOnePass(db: Db, userId: Id, taskId: Id, code: Option<string>, g: Grading, now: int)
    requires AtMostOnePass(db.attempts)
    ensures AtMostOnePass(Submit(db, userId, taskId, code, g, now).db.attempts)
  {
    var tx := Submit(db, userId, taskId, code, g, now);
    if tx.result.Ok? {
      var n := |db.attempts|;
      var a := tx.db.attempts[n];
      forall j, k | 0 <= j < k < |tx.db.attempts| && tx.db.attempts[j].passed && tx.db.attempts[k].passed
        ensures tx.db.attempts[j].taskId != tx.db.attempts[k].taskId || tx.db.attempts[j].userId != tx.db.attempts[k].userId
      {
        assert tx.db.attempts[j] == db.attempts[j];
        if k < n {
          assert tx.db.attempts[k] == db.attempts[k];
        }
      }
    }
  }

  /** Submitting keeps identifiers fresh and ordered. */
  lemma SubmitKeepsValid(db: Db, userId: Id, taskId: Id, code: Option<string>, g: Grading, now: int)
    requires Valid(db)
    ensures Valid(Submit(db, userId, taskId, code, g, now).db)
  {
  }

  datatype Submission = Submission(userId: Id, taskId: Id, code: Option<string>, now: int)

  /** A series of submissions, each its own transaction, in order. */
  function SubmitAll(db: Db, subs: seq<Submission>, g: Grading): Db
    decreases |subs|
  {
    if |subs| == 0 then db
    else
      var s := subs[0];
      SubmitAll(Submit(db, s.userId, s.taskId, s.code, g, s.now).db, subs[1..], g)
  }

  /** Over any series of submissions the attempt history only grows, and no
      user ever holds two passing attempts at one task. */
  lemma {:induction false} SubmitAllKeepsHistoryAndLock(db: Db, subs: seq<Submission>, g: Grading)
    requires AtMostOnePass(db.attempts)
    ensures AtMostOnePass(SubmitAll(db, subs, g).attempts)
    ensures |db.attempts| <= |SubmitAll(db, subs, g).attempts|
    ensures SubmitAll(db, subs, g).attempts[..|db.attempts|] == db.attempts
    decreases |subs|
  {
    if |subs| > 0 {
      var s := subs[0];
      var db1 := Submit(db, s.userId, s.taskId, s.code, g, s.now).db;
      SubmitKeepsAtMostOnePass(db, s.userId, s.taskId, s.code, g, s.now);
      SubmitAllKeepsHistoryAndLock(db1, subs[1..], g);
      var fin := SubmitAll(db1, subs[1..], g);
      assert fin.attempts[..|db.attempts|] == fin.attempts[..|db1.attempts|][..|db.attempts|];
    }
  }

  /** The attempt with the given identifier (`findById`). */
  function FindAttempt(attempts: seq<Attempt>, id: Id): (r: Option<Attempt>)
    ensures r.Some? ==> r.value in attempts && r.value.id == id
    ensures r.Null? ==> forall k :: 0 <= k < |attempts| ==> attempts[k].id != id
  {
    if |attempts| == 0 then Null
    else if attempts[0].id == id then Some(attempts[0])
    else FindAttempt(attempts[1..], id)
  }

  datatype AttemptDto = AttemptDto(
    id: Id,
    taskId: Id,
    taskTitle: Option<string>,
    topicId: Option<Id>,
    topicTitle: Option<string>,
    code: Option<string>,
    passed: bool,
    passedTests: nat,
    totalTests: nat,
    message: string,
    createdAt: int)

  /** `toDto`: the attempt's own fields, plus the titles of its task and of
      the task's topic, reached through the stored references. */
  function ToDto(db: Db, a: Attempt): (d: AttemptDto)
    ensures d.id == a.id && d.taskId == a.taskId && d.code == a.code && d.passed == a.passed
    ensures d.passedTests == a.passedTests && d.totalTests == a.totalTests
    ensures d.message == a.message && d.createdAt == a.createdAt
  {
    var task := if a.taskId in db.tasks then Some(db.tasks[a.taskId]) else Null;
    var topic := if task.Some? && task.value.topicId in db.topics then Some(db.topics[task.value.topicId]) else Null;
    AttemptDto(
      a.id, a.taskId,
      if task.Some? then task.value.title else Null,
      if task.Some? then Some(task.value.topicId) else Null,
      if topic.Some? then topic.value.title else Null,
      a.code, a.passed, a.passedTests, a.totalTests, a.message, a.createdAt)
  }

  /** `getAttempt`: an unknown identifier and someone else's attempt are
      both refused; the owner gets the attempt's projection. */
  function GetAttempt(db: Db, attemptId: Id, userId: Id): (r: Result<AttemptDto>)
    ensures (forall k :: 0 <= k < |db.attempts| ==> db.attempts[k].id != attemptId) ==> r == Err(AttemptNotFound)
    ensures r.Ok? ==> exists k :: 0 <= k < |db.attempts| && db.attempts[k].id == attemptId
                        && db.attempts[k].userId == userId && r.value == ToDto(db, db.attempts[k])
    ensures r.Err? ==> r.message == AttemptNotFound || r.message == AccessDenied
  {
    match FindAttempt(db.attempts, attemptId)
    case Null => Err(AttemptNotFound)
    case Some(a) => if a.userId != userId then Err(AccessDenied) else Ok(ToDto(db, a))
  }

  /** With unique identifiers, the owner always reads back their attempt and
      everyone else is told access is denied. */
  lemma GetAttemptOwnership(db: Db, k: nat, userId: Id)
    requires Valid(db)
    requires k < |db.attempts|
    ensures db.attempts[k].userId == userId ==> GetAttempt(db, db.attempts[k].id, userId) == Ok(ToDto(db, db.attempts[k]))
    ensures db.attempts[k].userId != userId ==> GetAttempt(db, db.attempts[k].id, userId) == Err(AccessDenied)
  {
    var found := FindAttempt(db.attempts, db.attempts[k].id);
    assert found.Some?;
    var j :| 0 <= j < |db.attempts| && db.attempts[j] == found.value;
    assert j == k;
  }

  /** `findByUserIdOrderByCreatedAtDesc` (or, with a task, its
      `findByTaskIdAndUserId...` variant): the user's attempts, newest
      first. Attempts are stored in creation order. */
  function AttemptsOf(attempts: seq<Attempt>, userId: Id, taskId: Option<Id>): (r: seq<Attempt>)
    ensures forall a :: a in r <==> a in attempts && a.userId == userId && (taskId.Null? || a.taskId == taskId.value)
  {
    if |attempts| == 0 then []
    else
      var a := attempts[0];
      var rest := AttemptsOf(attempts[1..], userId, taskId);
      assert attempts == [a] + attempts[1..];
      if a.userId == userId && (taskId.Null? || a.taskId == taskId.value) then rest + [a] else rest
  }

  /** `getMyAttempts`. */
  function MyAttempts(db: Db, userId: Id): (r: seq<AttemptDto>)
    ensures forall d :: d in r ==> exists a :: a in db.attempts && a.userId == userId && d == ToDto(db, a)
    ensures forall a :: a in db.attempts && a.userId == userId ==> ToDto(db, a) in r
  {
    var own := AttemptsOf(db.attempts, userId, Null);
    var r := seq(|own|, k requires 0 <= k < |own| => ToDto(db, own[k]));
    assert forall k :: 0 <= k < |own| ==> r[k] == ToDto(db, own[k]);
    r
  }

  /** `getMyAttemptsForTask`. */
  function MyAttemptsForTask(db: Db, userId: Id, taskId: Id): (r: seq<AttemptDto>)
    ensures forall d :: d in r ==>
              d.taskId == taskId && exists a :: a in db.attempts && a.userId == userId && d == ToDto(db, a)
    ensures forall a :: a in db.attempts && a.userId == userId && a.taskId == taskId ==> ToDto(db, a) in r
  {
    var own := AttemptsOf(db.attempts, userId, Some(taskId));
    var r := seq(|own|, k requires 0 <= k < |own| => ToDto(db, own[k]));
    assert forall k :: 0 <= k < |own| ==> r[k] == ToDto(db, own[k]);
    r
  }

  /** An admitted submission shows up at once: in the user's history, in
      the history for the task, and when its owner reads it back by id. */
  lemma SubmittedAttemptIsListed(db: Db, userId: Id, taskId: Id, code: Option<string>, g: Grading, now: int)
    requires Valid(db)
    requires Admits(db, userId, taskId)
    ensures var tx := Submit(db, userId, taskId, code, g, now);
      var d := ToDto(tx.db, tx.db.attempts[|db.attempts|]);
      && d.id == tx.result.value.attemptId
      && d in MyAttempts(tx.db, userId)
      && d in MyAttemptsForTask(tx.db, userId, taskId)
      && GetAttempt(tx.db, tx.result.value.attemptId, userId) == Ok(d)
  {
    var tx := Submit(db, userId, taskId, code, g, now);
    SubmitKeepsValid(db, userId, taskId, code, g, now);
    GetAttemptOwnership(tx.db, |db.attempts|, userId);
  }
}
