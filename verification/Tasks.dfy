/**
 * The task records of `TaskService`: creation with a default sort order,
 * partial update, deletion, and the test cases attached to a task.
 */
module Tasks {
  import opened JavaText
  import opened Store

  /** `TaskDto`, used both as the request body and as the projection. */
  datatype TaskDto = TaskDto(
    id: Option<Id>,
    title: Option<string>,
    condition: Option<string>,
    topicId: Option<Id>,
    sortOrder: Option<int>)

  function ToDto(id: Id, t: Task): (d: TaskDto)
    ensures d.id == Some(id) && d.title == t.title && d.condition == t.condition
    ensures d.topicId == Some(t.topicId) && d.sortOrder == Some(t.sortOrder)
  {
    TaskDto(Some(id), t.title, t.condition, Some(t.topicId), Some(t.sortOrder))
  }

  /** `getById`. */
  function GetById(db: Db, id: Id): (r: Result<TaskDto>)
    ensures id !in db.tasks <==> r == Err(TaskNotFound)
    ensures id in db.tasks ==> r == Ok(ToDto(id, db.tasks[id]))
  {
    if id in db.tasks then Ok(ToDto(id, db.tasks[id])) else Err(TaskNotFound)
  }

  /** `create`: the task joins an existing topic under a fresh identifier;
      a missing sort order becomes 0. */
  function Create(db: Db, topicId: Id, dto: TaskDto): (tx: Tx<TaskDto>)
    ensures tx.result.Err? ==> tx.db == db
    ensures topicId !in db.topics <==> tx.result == Err(TopicNotFound)
    ensures tx.result.Ok? ==>
      && db.nextId in tx.db.tasks
      && tx.db == db.(tasks := db.tasks[db.nextId := tx.db.tasks[db.nextId]], nextId := db.nextId + 1)
      && tx.db.tasks[db.nextId].topicId == topicId
      && tx.db.tasks[db.nextId].title == dto.title
      && tx.db.tasks[db.nextId].condition == dto.condition
      && tx.db.tasks[db.nextId].sortOrder == (if dto.sortOrder.Some? then dto.sortOrder.value else 0)
      && tx.result.value == ToDto(db.nextId, tx.db.tasks[db.nextId])
  {
    if topicId !in db.topics then Tx(db, Err(TopicNotFound))
    else
      var t := Task(topicId, dto.title, dto.condition, if dto.sortOrder.Some? then dto.sortOrder.value else 0);
      var db' := db.(tasks := db.tasks[db.nextId := t], nextId := db.nextId + 1);
      Tx(db', Ok(ToDto(db.nextId, t)))
  }

  /** The record `update` writes: each field the request carries replaces
      the stored one, the others stay. */
  function Merge(t: Task, dto: TaskDto): (u: Task)
    ensures u.topicId == t.topicId
    ensures u.title == (if dto.title.Some? then dto.title else t.title)
    ensures u.condition == (if dto.condition.Some? then dto.condition else t.condition)
    ensures u.sortOrder == (if dto.sortOrder.Some? then dto.sortOrder.value else t.sortOrder)
  {
    t.(title := if dto.title.Some? then dto.title else t.title,
       condition := if dto.condition.Some? then dto.condition else t.condition,
       sortOrder := if dto.sortOrder.Some? then dto.sortOrder.value else t.sortOrder)
  }

  /** `update`. */
  function Update(db: Db, id: Id, dto: TaskDto): (tx: Tx<TaskDto>)
    ensures id !in db.tasks ==> tx == Tx(db, Err(TaskNotFound))
    ensures id in db.tasks ==> tx.db == db.(tasks := db.tasks[id := Merge(db.tasks[id], dto)])
    ensures id in db.tasks ==> tx.result == Ok(ToDto(id, Merge(db.tasks[id], dto)))
  {
    if id !in db.tasks then Tx(db, Err(TaskNotFound))
    else
      var t := Merge(db.tasks[id], dto);
      Tx(db.(tasks := db.tasks[id := t]), Ok(ToDto(id, t)))
  }

  /** An empty request changes nothing, and applying the same request twice
      is the same as applying it once. */
  lemma MergeIdentityAndIdempotence(t: Task, dto: TaskDto)
    ensures Merge(t, TaskDto(Null, Null, Null, Null, Null)) == t
    ensures Merge(Merge(t, dto), dto) == Merge(t, dto)
  {
  }

  /** Reading a task back after each write returns what was written: the
      request's fields (with the default sort order) after `create`, the
      merged record after `update`, and "not found" after `delete`, which
      leaves every other task readable as before. */
  lemma WritesReadBack(db: Db, topicId: Id, id: Id, dto: TaskDto, other: Id)
    ensures Create(db, topicId, dto).result.Ok? ==>
      GetById(Create(db, topicId, dto).db, db.nextId)
        == Ok(TaskDto(Some(db.nextId), dto.title, dto.condition, Some(topicId),
                      Some(if dto.sortOrder.Some? then dto.sortOrder.value else 0)))
    ensures id in db.tasks ==> GetById(Update(db, id, dto).db, id) == Ok(ToDto(id, Merge(db.tasks[id], dto)))
    ensures GetById(Delete(db, id).db, id) == Err(TaskNotFound)
    ensures other != id ==> GetById(Delete(db, id).db, other) == GetById(db, other)
  {
  }

  /** `delete`. */
  function Delete(db: Db, id: Id): (tx: Tx<()>)
    ensures id !in db.tasks ==> tx == Tx(db, Err(TaskNotFound))
    ensures id in db.tasks ==> tx.result.Ok? && tx.db == db.(tasks := db.tasks - {id})
    ensures id !in tx.db.tasks
  {
    if id !in db.tasks then Tx(db, Err(TaskNotFound)) else Tx(db.(tasks := db.tasks - {id}), Ok(()))
  }

  /** `getTestCaseCount`: the number of rows belonging to the task. */
  function GetTestCaseCount(db: Db, taskId: Id): (n: nat)
    ensures n <= |db.testCases|
    ensures n == |Positions(db.testCases, taskId)|
    ensures n == 0 <==> forall k :: 0 <= k < |db.testCases| ==> db.testCases[k].taskId != taskId
  {
    var cs := TestCasesOf(db.testCases, taskId);
    TestCasesOfCount(db.testCases, taskId);
    if |cs| == 0 then
      |cs|
    else
      assert cs[0] in db.testCases;
      |cs|
  }

  /** `addTestCase`: a null input or expected output is stored as "". */
  function AddTestCase(db: Db, taskId: Id, input: Option<string>, expectedOutput: Option<string>): (tx: Tx<()>)
    ensures taskId !in db.tasks ==> tx == Tx(db, Err(TaskNotFound))
    ensures taskId in db.tasks ==>
      && tx.result.Ok?
      && tx.db == db.(testCases := tx.db.testCases, nextId := db.nextId + 1)
      && tx.db.testCases == db.testCases + [TestCaseRow(db.nextId, taskId,
           Some(if input.Null? then "" else input.value),
           Some(if expectedOutput.Null? then "" else expectedOutput.value))]
  {
    if taskId !in db.tasks then Tx(db, Err(TaskNotFound))
    else
      var row := TestCaseRow(db.nextId, taskId,
        Some(if input.Null? then "" else input.value),
        Some(if expectedOutput.Null? then "" else expectedOutput.value));
      Tx(db.(testCases := db.testCases + [row], nextId := db.nextId + 1), Ok(()))
  }

  /** Adding a test case raises that task's count by one, leaves every other
      task's count alone, and a test run sees the new case last. */
  lemma AddTestCaseCounts(db: Db, taskId: Id, input: Option<string>, expectedOutput: Option<string>, other: Id)
    requires taskId in db.tasks
    ensures var db' := AddTestCase(db, taskId, input, expectedOutput).db;
      && GetTestCaseCount(db', taskId) == GetTestCaseCount(db, taskId) + 1
      && (other != taskId ==> GetTestCaseCount(db', other) == GetTestCaseCount(db, other))
      && var cs := TestCasesOf(db'.testCases, taskId);
         cs[|cs| - 1].expectedOutput.Some? && cs[|cs| - 1].input.Some?
  {
    var db' := AddTestCase(db, taskId, input, expectedOutput).db;
    var row := db'.testCases[|db.testCases|];
    assert db'.testCases == db.testCases + [row];
    TestCasesOfAppend(db.testCases, row, taskId);
    TestCasesOfAppend(db.testCases, row, other);
  }

  /** In a valid store a new task gets an identifier no task has, and the
      existing tasks are kept as they were. */
  lemma CreateIsFresh(db: Db, topicId: Id, dto: TaskDto)
    requires Valid(db) && topicId in db.topics
    ensures var tx := Create(db, topicId, dto);
      && db.nextId !in db.tasks
      && tx.db.tasks.Keys == db.tasks.Keys + {db.nextId}
      && forall id :: id in db.tasks ==> tx.db.tasks[id] == db.tasks[id]
  {
  }

  /** Task operations keep identifiers fresh and the test-case rows in
      increasing identifier order. */
  lemma CreateKeepsValid(db: Db, topicId: Id, dto: TaskDto)
    requires Valid(db)
    ensures Valid(Create(db, topicId, dto).db)
  {
  }

  lemma DeleteKeepsValid(db: Db, id: Id)
    requires Valid(db)
    ensures Valid(Delete(db, id).db)
  {
  }

  lemma AddTestCaseKeepsValid(db: Db, taskId: Id, input: Option<string>, expectedOutput: Option<string>)
    requires Valid(db)
    ensures Valid(AddTestCase(db, taskId, input, expectedOutput).db)
  {
    var db' := AddTestCase(db, taskId, input, expectedOutput).db;
    if taskId in db.tasks {
      assert forall k :: 0 <= k < |db.testCases| ==> db'.testCases[k] == db.testCases[k];
    }
  }
}
