/**
 * The persistent state the services read and write, reduced to what their
 * repository queries observe. Users, topics and tasks are keyed records;
 * test cases and attempts are kept in insertion order, which is also the
 * order of their generated identifiers. A service call is a transaction:
 * it yields the new state and a result, and a failed call leaves the state
 * as it was.
 */
module Store {
  import opened JavaText
  import CodeExecution

  type Id = nat

  datatype User = User(username: string, email: Option<string>, passwordHash: string, avatarPath: Option<string>)

  datatype Topic = Topic(
    title: Option<string>,
    description: Option<string>,
    content: Option<string>,
    imagePath: Option<string>,
    sortOrder: int)

  datatype Task = Task(topicId: Id, title: Option<string>, condition: Option<string>, sortOrder: int)

  datatype TestCaseRow = TestCaseRow(id: Id, taskId: Id, input: Option<string>, expectedOutput: Option<string>)

  datatype Attempt = Attempt(
    id: Id,
    userId: Id,
    taskId: Id,
    code: Option<string>,
    passed: bool,
    passedTests: nat,
    totalTests: nat,
    message: string,
    createdAt: int)

  /** The database. Generated identifiers are drawn from `nextId`. */
  datatype Db = Db(
    users: map<Id, User>,
    topics: map<Id, Topic>,
    tasks: map<Id, Task>,
    testCases: seq<TestCaseRow>,
    attempts: seq<Attempt>,
    nextId: Id)

  /** Every identifier in use was handed out before `nextId`, and the rows of
      the two ordered tables have increasing identifiers. */
  predicate Valid(db: Db)
  {
    && (forall id :: id in db.users ==> id < db.nextId)
    && (forall id :: id in db.topics ==> id < db.nextId)
    && (forall id :: id in db.tasks ==> id < db.nextId)
    && (forall k :: 0 <= k < |db.testCases| ==> db.testCases[k].id < db.nextId)
    && (forall j, k :: 0 <= j < k < |db.testCases| ==> db.testCases[j].id < db.testCases[k].id)
    && (forall k :: 0 <= k < |db.attempts| ==> db.attempts[k].id < db.nextId)
    && (forall j, k :: 0 <= j < k < |db.attempts| ==> db.attempts[j].id < db.attempts[k].id)
  }

  /** A service call returns its value or fails with the message of the
      `IllegalArgumentException` (or other runtime exception) it throws. */
  datatype Result<+T> = Ok(value: T) | Err(message: string)

  /** The effect of one transactional service call. */
  datatype Tx<+T> = Tx(db: Db, result: Result<T>)

  const UserNotFound := "Пользователь не найден"
  const TaskNotFound := "Задача не найдена"
  const TopicNotFound := "Тема не найдена"

  /** `testCaseRepository.findByTaskIdOrderByIdAsc`: the task's rows, in
      identifier order. */
  function TestCasesOf(rows: seq<TestCaseRow>, taskId: Id): (cs: seq<TestCaseRow>)
    ensures |cs| <= |rows|
    ensures forall r :: r in cs <==> r in rows && r.taskId == taskId
  {
    if |rows| == 0 then []
    else
      var front := TestCasesOf(rows[..|rows| - 1], taskId);
      var last := rows[|rows| - 1];
      assert rows == rows[..|rows| - 1] + [last];
      if last.taskId == taskId then front + [last] else front
  }

  /** The positions in the table that hold one of the task's rows. */
  function Positions(rows: seq<TestCaseRow>, taskId: Id): set<int>
  {
    set k | 0 <= k < |rows| && rows[k].taskId == taskId
  }

  lemma PositionsOfFront(rows: seq<TestCaseRow>, taskId: Id)
    requires |rows| > 0
    ensures var n := |rows| - 1;
      Positions(rows, taskId) == Positions(rows[..n], taskId) + (if rows[n].taskId == taskId then {n} else {})
  {
    var n := |rows| - 1;
    assert forall k :: 0 <= k < n ==> rows[..n][k] == rows[k];
  }

  /** The task has exactly as many rows in its list as there are positions
      in the table holding one of its rows. */
  lemma {:induction false} TestCasesOfCount(rows: seq<TestCaseRow>, taskId: Id)
    ensures |TestCasesOf(rows, taskId)| == |Positions(rows, taskId)|
  {
    if |rows| > 0 {
      var n := |rows| - 1;
      TestCasesOfCount(rows[..n], taskId);
      PositionsOfFront(rows, taskId);
      assert n !in Positions(rows[..n], taskId);
    }
  }

  /** Appending a row for one task adds exactly that row to the task's list
      and leaves every other task's list as it was. */
  lemma TestCasesOfAppend(rows: seq<TestCaseRow>, row: TestCaseRow, taskId: Id)
    ensures TestCasesOf(rows + [row], taskId) ==
      if row.taskId == taskId then TestCasesOf(rows, taskId) + [row] else TestCasesOf(rows, taskId)
  {
    assert (rows + [row])[..|rows|] == rows;
  }

  /** The test cases as `runTests` reads them from the task. */
  function GradingCases(rows: seq<TestCaseRow>): (cs: seq<CodeExecution.TestCase>)
    ensures |cs| == |rows|
    ensures forall k :: 0 <= k < |rows| ==>
      cs[k] == CodeExecution.TestCase(rows[k].input, rows[k].expectedOutput)
  {
    seq(|rows|, k requires 0 <= k < |rows| => CodeExecution.TestCase(rows[k].input, rows[k].expectedOutput))
  }

  /** `attemptRepository.existsByTaskIdAndUserIdAndPassedTrue`. */
  predicate HasPassingAttempt(attempts: seq<Attempt>, taskId: Id, userId: Id)
  {
    exists k :: 0 <= k < |attempts| && attempts[k].taskId == taskId && attempts[k].userId == userId && attempts[k].passed
  }

  /** The one-pass-per-task lock holds: no user has two passing attempts at
      the same task. */
  predicate AtMostOnePass(attempts: seq<Attempt>)
  {
    forall j, k :: 0 <= j < k < |attempts| && attempts[j].passed && attempts[k].passed ==>
      attempts[j].taskId != attempts[k].taskId || attempts[j].userId != attempts[k].userId
  }
}
