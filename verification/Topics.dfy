/**
 * The topic records of `TopicService`: listing and searching, creation with
 * a default sort order, partial update, deletion, and the two projections
 * (the short one for lists, the full one with content and image).
 */
module Topics {
  import opened JavaText
  import opened Store

  /** `TopicDto`, used both as the request body and as the projection. */
  datatype TopicDto = TopicDto(
    id: Option<Id>,
    title: Option<string>,
    description: Option<string>,
    content: Option<string>,
    imagePath: Option<string>,
    sortOrder: Option<int>,
    hasTasks: bool)

  /** Some task belongs to the topic. */
  predicate HasTasks(db: Db, topicId: Id)
  {
    exists taskId :: taskId in db.tasks && db.tasks[taskId].topicId == topicId
  }

  /** `toDto`: the list projection, without content and image path. */
  function ToDto(db: Db, id: Id, t: Topic): (d: TopicDto)
    ensures d.id == Some(id) && d.title == t.title && d.description == t.description
    ensures d.sortOrder == Some(t.sortOrder)
    ensures d.content.Null? && d.imagePath.Null?
    ensures d.hasTasks <==> HasTasks(db, id)
  {
    TopicDto(Some(id), t.title, t.description, Null, Null, Some(t.sortOrder), HasTasks(db, id))
  }

  /** `toDtoFull`: the list projection plus content and image path. */
  function ToDtoFull(db: Db, id: Id, t: Topic): (d: TopicDto)
    ensures d.content == t.content && d.imagePath == t.imagePath
    ensures d.(content := Null, imagePath := Null) == ToDto(db, id, t)
  {
    ToDto(db, id, t).(content := t.content, imagePath := t.imagePath)
  }

  /** `findAll`: every topic, in its list projection. */
  function FindAll(db: Db): (r: set<TopicDto>)
    ensures forall id :: id in db.topics ==> ToDto(db, id, db.topics[id]) in r
    ensures forall d :: d in r ==> d.id.Some? && d.id.value in db.topics && d == ToDto(db, d.id.value, db.topics[d.id.value])
  {
    set id | id in db.topics :: ToDto(db, id, db.topics[id])
  }

  /** The repository's search condition: the query occurs in the title or in
      the description, ignoring case. */
  predicate Matches(t: Topic, query: string)
  {
    || (t.title.Some? && Contains(ToLowerCase(t.title.value), ToLowerCase(query)))
    || (t.description.Some? && Contains(ToLowerCase(t.description.value), ToLowerCase(query)))
  }

  /** `search`: a null query, or one that trims to nothing, lists every
      topic; otherwise the trimmed query filters them. */
  function Search(db: Db, query: Option<string>): (r: set<TopicDto>)
    ensures query.Null? || Trim(query.value) == "" ==> r == FindAll(db)
    ensures r <= FindAll(db)
    ensures query.Some? && Trim(query.value) != "" ==>
      forall id :: id in db.topics ==> (ToDto(db, id, db.topics[id]) in r <==> Matches(db.topics[id], Trim(query.value)))
  {
    if query.Null? || Trim(query.value) == "" then FindAll(db)
    else
      var q := Trim(query.value);
      set id | id in db.topics && Matches(db.topics[id], q) :: ToDto(db, id, db.topics[id])
  }

  /** Surrounding spaces in the query make no difference to the result. */
  lemma SearchIgnoresOuterSpaces(db: Db, query: string)
    ensures Search(db, Some(query)) == Search(db, Some(Trim(query)))
  {
    TrimIdempotent(query);
  }

  /** `getById`. */
  function GetById(db: Db, id: Id): (r: Result<TopicDto>)
    ensures id !in db.topics <==> r == Err(TopicNotFound)
    ensures id in db.topics ==> r == Ok(ToDtoFull(db, id, db.topics[id]))
  {
    if id in db.topics then Ok(ToDtoFull(db, id, db.topics[id])) else Err(TopicNotFound)
  }

  /** `create`: a fresh topic; a missing sort order becomes 0. */
  function Create(db: Db, dto: TopicDto): (tx: Tx<TopicDto>)
    ensures tx.result.Ok?
    ensures db.nextId in tx.db.topics
    ensures tx.db == db.(topics := db.topics[db.nextId := tx.db.topics[db.nextId]], nextId := db.nextId + 1)
    ensures var t := tx.db.topics[db.nextId];
      && t.title == dto.title && t.description == dto.description
      && t.content == dto.content && t.imagePath == dto.imagePath
      && t.sortOrder == (if dto.sortOrder.Some? then dto.sortOrder.value else 0)
      && tx.result.value == ToDto(tx.db, db.nextId, t)
  {
    var t := Topic(dto.title, dto.description, dto.content, dto.imagePath,
                   if dto.sortOrder.Some? then dto.sortOrder.value else 0);
    var db' := db.(topics := db.topics[db.nextId := t], nextId := db.nextId + 1);
    Tx(db', Ok(ToDto(db', db.nextId, t)))
  }

  /** In a valid store a new topic gets an identifier no topic has, the
      existing topics are kept as they were, and the listing gains exactly
      the new topic's projection. */
  lemma CreateIsFresh(db: Db, dto: TopicDto)
    requires Valid(db)
    ensures var tx := Create(db, dto);
      && db.nextId !in db.topics
      && tx.db.topics.Keys == db.topics.Keys + {db.nextId}
      && (forall id :: id in db.topics ==> tx.db.topics[id] == db.topics[id])
      && FindAll(tx.db) == FindAll(db) + {tx.result.value}
  {
    var tx := Create(db, dto);
    assert forall id :: id in db.topics ==> ToDto(tx.db, id, db.topics[id]) == ToDto(db, id, db.topics[id]);
  }

  lemma CreateKeepsValid(db: Db, dto: TopicDto)
    requires Valid(db)
    ensures Valid(Create(db, dto).db)
  {
  }

  /** The record `update` writes: each field the request carries replaces
      the stored one, the others stay. */
  function Merge(t: Topic, dto: TopicDto): (u: Topic)
    ensures u.title == (if dto.title.Some? then dto.title else t.title)
    ensures u.description == (if dto.description.Some? then dto.description else t.description)
    ensures u.content == (if dto.content.Some? then dto.content else t.content)
    ensures u.imagePath == (if dto.imagePath.Some? then dto.imagePath else t.imagePath)
    ensures u.sortOrder == (if dto.sortOrder.Some? then dto.sortOrder.value else t.sortOrder)
  {
    Topic(
      if dto.title.Some? then dto.title else t.title,
      if dto.description.Some? then dto.description else t.description,
      if dto.content.Some? then dto.content else t.content,
      if dto.imagePath.Some? then dto.imagePath else t.imagePath,
      if dto.sortOrder.Some? then dto.sortOrder.value else t.sortOrder)
  }

  /** An empty request changes nothing, and a request applied twice is the
      same as applied once. */
  lemma MergeIdentityAndIdempotence(t: Topic, dto: TopicDto, hasTasks: bool)
    ensures Merge(t, TopicDto(Null, Null, Null, Null, Null, Null, hasTasks)) == t
    ensures Merge(Merge(t, dto), dto) == Merge(t, dto)
  {
  }

  /** `update`. */
  function Update(db: Db, id: Id, dto: TopicDto): (tx: Tx<TopicDto>)
    ensures id !in db.topics ==> tx == Tx(db, Err(TopicNotFound))
    ensures id in db.topics ==> tx.db == db.(topics := db.topics[id := Merge(db.topics[id], dto)])
    ensures id in db.topics ==> tx.result == Ok(ToDtoFull(tx.db, id, Merge(db.topics[id], dto)))
  {
    if id !in db.topics then Tx(db, Err(TopicNotFound))
    else
      var t := Merge(db.topics[id], dto);
      var db' := db.(topics := db.topics[id := t]);
      Tx(db', Ok(ToDtoFull(db', id, t)))
  }

  /** `delete`. */
  function Delete(db: Db, id: Id): (tx: Tx<()>)
    ensures id !in db.topics ==> tx == Tx(db, Err(TopicNotFound))
    ensures id in db.topics ==> tx.result.Ok? && tx.db == db.(topics := db.topics - {id})
    ensures id !in tx.db.topics
  {
    if id !in db.topics then Tx(db, Err(TopicNotFound)) else Tx(db.(topics := db.topics - {id}), Ok(()))
  }

  /** Deleting a topic removes exactly its projection from the listing. */
  lemma DeleteLeavesTheRest(db: Db, id: Id)
    requires id in db.topics
    ensures FindAll(Delete(db, id).db) == FindAll(db) - {ToDto(db, id, db.topics[id])}
  {
    var db' := Delete(db, id).db;
    assert forall other :: other in db'.topics ==> ToDto(db', other, db'.topics[other]) == ToDto(db, other, db.topics[other]);
  }

  lemma DeleteKeepsValid(db: Db, id: Id)
    requires Valid(db)
    ensures Valid(Delete(db, id).db)
  {
  }

  /** Reading a topic back after each write returns what was written: the
      request's fields (with the default sort order) after `create`, the
      merged record after `update`, and "not found" after `delete`, which
      leaves every other topic readable. */
  lemma WritesReadBack(db: Db, id: Id, dto: TopicDto, other: Id)
    ensures var tx := Create(db, dto);
      GetById(tx.db, db.nextId)
        == Ok(TopicDto(Some(db.nextId), dto.title, dto.description, dto.content, dto.imagePath,
                       Some(if dto.sortOrder.Some? then dto.sortOrder.value else 0), HasTasks(db, db.nextId)))
    ensures id in db.topics ==>
      GetById(Update(db, id, dto).db, id) == Ok(ToDtoFull(db, id, Merge(db.topics[id], dto)))
    ensures GetById(Delete(db, id).db, id) == Err(TopicNotFound)
    ensures other != id && other in db.topics ==>
      GetById(Delete(db, id).db, other) == Ok(ToDtoFull(db, other, db.topics[other]))
  {
  }
}
