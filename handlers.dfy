/** The five request handlers of the to-do service (src/handlers.rs), over
    the `todos` table seen as a map from id to record. The fresh id and the
    current time, which the service draws from `Uuid::new_v4` and
    `Utc::now`, are parameters. */
module Handlers {
  import opened Models
  import opened Errors

  type Table = map<Uuid, Todo>

  /** What the table always satisfies: each record is filed under its own
      id (the primary key) and has a non-empty title. */
  ghost predicate WellFormed(table: Table) {
    forall id :: id in table ==> table[id].id == id && |table[id].title| >= 1
  }

  /** The message SQLite gives when an insert reuses a primary key. */
  const DuplicateIdError := "UNIQUE constraint failed: todos.id"

  /** The record an update writes: the title and the completed flag fall
      back to the stored values, the description is always the payload's,
      and the modification time becomes `now`. */
  function Merge(current: Todo, p: UpdateTodo, now: Timestamp): Todo {
    current.(
      title := p.title.UnwrapOr(current.title),
      description := p.description,
      completed := p.completed.UnwrapOr(current.completed),
      updatedAt := now)
  }

  /** Newest first: creation times never increase along the list. */
  predicate NewestFirst(rows: seq<Todo>) {
    forall i, j :: 0 <= i < j < |rows| ==> rows[i].createdAt >= rows[j].createdAt
  }

  function Ids(rows: seq<Todo>): set<Uuid> {
    set i | 0 <= i < |rows| :: rows[i].id
  }

  /** `rows` holds every record of `table` exactly once and nothing else. */
  ghost predicate ListsTable(rows: seq<Todo>, table: Table) {
    && |rows| == |table|
    && Ids(rows) == table.Keys
    && (forall i :: 0 <= i < |rows| ==> rows[i].id in table && table[rows[i].id] == rows[i])
    && (forall i, j :: 0 <= i < j < |rows| ==> rows[i].id != rows[j].id)
  }

  predicate IsNewest(table: Table, keys: set<Uuid>, k: Uuid)
    requires keys <= table.Keys && k in table
  {
    forall k' :: k' in keys ==> table[k'].createdAt <= table[k].createdAt
  }

  /** A non-empty set of rows has a newest one. */
  lemma {:induction false} NewestExists(table: Table, keys: set<Uuid>)
    requires keys != {} && keys <= table.Keys
    ensures exists k :: k in keys && IsNewest(table, keys, k)
    decreases |keys|
  {
    var x :| x in keys;
    if keys == {x} {
      assert IsNewest(table, keys, x);
    } else {
      var rest := keys - {x};
      NewestExists(table, rest);
      var k :| k in rest && IsNewest(table, rest, k);
      if table[x].createdAt <= table[k].createdAt {
        assert IsNewest(table, keys, k);
      } else {
        assert IsNewest(table, keys, x);
      }
    }
  }

  /** How far the newest-first selection has got: `rows` lists, newest
      first, the records whose keys are no longer `pending`, and none of
      them is older than a pending record. */
  ghost predicate Progress(table: Table, rows: seq<Todo>, pending: set<Uuid>) {
    && pending <= table.Keys
    && Ids(rows) == table.Keys - pending
    && |rows| + |pending| == |table|
    && (forall i :: 0 <= i < |rows| ==> rows[i].id in table && table[rows[i].id] == rows[i])
    && (forall i, j :: 0 <= i < j < |rows| ==> rows[i].id != rows[j].id)
    && NewestFirst(rows)
    && (forall i, k :: 0 <= i < |rows| && k in pending ==> table[k].createdAt <= rows[i].createdAt)
  }

  lemma IdsAppend(rows: seq<Todo>, t: Todo)
    ensures Ids(rows + [t]) == Ids(rows) + {t.id}
  {
    var rows' := rows + [t];
    assert forall i :: 0 <= i < |rows| ==> rows'[i] == rows[i];
    assert rows'[|rows|] == t;
  }

  /** Moving the newest pending record to the end of `rows` keeps the
      selection's invariant. */
  lemma ProgressStep(table: Table, rows: seq<Todo>, pending: set<Uuid>, k: Uuid)
    requires WellFormed(table) && Progress(table, rows, pending)
    requires k in pending && IsNewest(table, pending, k)
    ensures Progress(table, rows + [table[k]], pending - {k})
  {
    var rows', pending' := rows + [table[k]], pending - {k};
    IdsAppend(rows, table[k]);
    assert table.Keys - pending' == (table.Keys - pending) + {k};
    assert |pending'| == |pending| - 1;
    StepKeepsRows(table, rows, pending, k);
    StepKeepsOrder(table, rows, pending, k);
  }

  lemma StepKeepsRows(table: Table, rows: seq<Todo>, pending: set<Uuid>, k: Uuid)
    requires WellFormed(table) && Progress(table, rows, pending) && k in pending
    ensures forall i :: 0 <= i < |rows| + 1 ==>
      (rows + [table[k]])[i].id in table && table[(rows + [table[k]])[i].id] == (rows + [table[k]])[i]
    ensures forall i, j :: 0 <= i < j < |rows| + 1 ==> (rows + [table[k]])[i].id != (rows + [table[k]])[j].id
  {
    var rows' := rows + [table[k]];
    forall i | 0 <= i < |rows|
      ensures rows'[i] == rows[i] && rows[i].id != k
    {
      assert rows[i].id in Ids(rows);
    }
  }

  lemma StepKeepsOrder(table: Table, rows: seq<Todo>, pending: set<Uuid>, k: Uuid)
    requires Progress(table, rows, pending) && k in pending && IsNewest(table, pending, k)
    ensures NewestFirst(rows + [table[k]])
    ensures forall i, k' :: 0 <= i < |rows| + 1 && k' in pending - {k} ==>
      table[k'].createdAt <= (rows + [table[k]])[i].createdAt
  {
    var rows' := rows + [table[k]];
    assert forall i :: 0 <= i < |rows| ==> rows'[i] == rows[i];
  }

  /** A merged record keeps its id and creation time, and keeps a non-empty
      title when the payload passed validation. */
  lemma MergeKeepsRecordWellFormed(current: Todo, p: UpdateTodo, now: Timestamp)
    requires |current.title| >= 1 && ValidateUpdate(p).Pass?
    ensures Merge(current, p, now).id == current.id
    ensures Merge(current, p, now).createdAt == current.createdAt
    ensures |Merge(current, p, now).title| >= 1
  {
  }

  /** Applying the same update twice gives what applying it once gives. */
  lemma MergeIdempotent(current: Todo, p: UpdateTodo, now: Timestamp)
    ensures Merge(Merge(current, p, now), p, now) == Merge(current, p, now)
  {
  }

  /** An update with every field absent keeps the title and the completed
      flag but clears the description. */
  lemma EmptyUpdateClearsDescription(current: Todo, now: Timestamp)
    ensures Merge(current, UpdateTodo(None, None, None), now)
         == current.(description := None, updatedAt := now)
  {
  }

  /** The `todos` table and the handlers that act on it. */
  class TodoStore {
    var table: Table

    ghost predicate Valid()
      reads this
    {
      WellFormed(table)
    }

    /** A store over a freshly created, empty table. */
    constructor ()
      ensures Valid() && table == map[]
    {
      table := map[];
    }

    /** `create_todo`. */
    method Create(payload: CreateTodo, freshId: Uuid, now: Timestamp)
      returns (r: AppResult<(StatusCode, Todo)>)
      requires Valid()
      modifies this
      ensures Valid()
      ensures ValidateCreate(payload).Fail? ==>
        r == Err(ValidationError(ValidateCreate(payload).errors)) && table == old(table)
      ensures ValidateCreate(payload).Pass? && freshId in old(table) ==>
        r == Err(SqlxError(DuplicateIdError)) && table == old(table)
      ensures ValidateCreate(payload).Pass? && freshId !in old(table) ==>
        && r.Ok? && r.value.0 == StatusCreated
        && r.value.1.id == freshId
        && r.value.1.title == payload.title
        && r.value.1.description == payload.description
        && !r.value.1.completed
        && r.value.1.createdAt == r.value.1.updatedAt == now
        && table == old(table)[freshId := r.value.1]
    {
      var validation := ValidateCreate(payload);
      if validation.Fail? {
        return Err(ValidationError(validation.errors));
      }
      if freshId in table {
        return Err(SqlxError(DuplicateIdError));
      }
      var record := Todo(freshId, payload.title, payload.description, false, now, now);
      table := table[freshId := record];
      return Ok((StatusCreated, record));
    }

    /** The query of `get_todos`: every row, ordered by creation time,
        newest first. Rows created at the same instant come in no
        particular order. */
    method SelectAllNewestFirst() returns (rows: seq<Todo>)
      requires Valid()
      ensures ListsTable(rows, table)
      ensures NewestFirst(rows)
    {
      rows := [];
      var pending := table.Keys;
      while pending != {}
        invariant Progress(table, rows, pending)
        decreases |pending|
      {
        NewestExists(table, pending);
        var k :| k in pending && IsNewest(table, pending, k);
        ProgressStep(table, rows, pending, k);
        rows := rows + [table[k]];
        pending := pending - {k};
      }
    }

    /** `get_todos`: the records, newest first, one entry per record. */
    method GetAll() returns (r: AppResult<seq<Todo>>)
      requires Valid()
      ensures r.Ok? && ListsTable(r.value, table) && NewestFirst(r.value)
    {
      var records := SelectAllNewestFirst();
      // Turning a row into a record only re-reads its id, which is taken to
      // succeed, so each record is the row itself.
      var todos: seq<Todo> := [];
      for i := 0 to |records|
        invariant todos == records[..i]
      {
        todos := todos + [records[i]];
      }
      assert todos == records;
      return Ok(todos);
    }

    /** `get_todo_by_id`. */
    method GetById(id: Uuid) returns (r: AppResult<Todo>)
      requires Valid()
      ensures id in table ==> r == Ok(table[id]) && r.value.id == id
      ensures id !in table ==> r == Err(NotFound)
    {
      if id in table {
        return Ok(table[id]);
      }
      return Err(NotFound);
    }

    /** `update_todo`: validation comes before the existence check. */
    method Update(id: Uuid, payload: UpdateTodo, now: Timestamp) returns (r: AppResult<Todo>)
      requires Valid()
      modifies this
      ensures Valid()
      ensures ValidateUpdate(payload).Fail? ==>
        r == Err(ValidationError(ValidateUpdate(payload).errors)) && table == old(table)
      ensures ValidateUpdate(payload).Pass? && id !in old(table) ==>
        r == Err(NotFound) && table == old(table)
      ensures ValidateUpdate(payload).Pass? && id in old(table) ==>
        && r.Ok?
        && r.value.id == id
        && r.value.title == (if payload.title.Some? then payload.title.value else old(table)[id].title)
        && r.value.description == payload.description
        && r.value.completed == (if payload.completed.Some? then payload.completed.value else old(table)[id].completed)
        && r.value.createdAt == old(table)[id].createdAt
        && r.value.updatedAt == now
        && table == old(table)[id := r.value]
    {
      var validation := ValidateUpdate(payload);
      if validation.Fail? {
        return Err(ValidationError(validation.errors));
      }
      if id !in table {
        return Err(NotFound);
      }
      var record := Merge(table[id], payload, now);
      MergeKeepsRecordWellFormed(table[id], payload, now);
      table := table[id := record];
      return Ok(record);
    }

    /** `delete_todo`. */
    method Delete(id: Uuid) returns (r: AppResult<StatusCode>)
      requires Valid()
      modifies this
      ensures Valid()
      ensures id in old(table) ==> r == Ok(StatusNoContent) && table == old(table) - {id}
      ensures id !in old(table) ==> r == Err(NotFound) && table == old(table)
    {
      var rowsAffected := if id in table then 1 else 0;
      table := table - {id};
      if rowsAffected == 0 {
        assert table == old(table);
        return Err(NotFound);
      }
      return Ok(StatusNoContent);
    }
  }

  /** After a record is deleted, fetching, updating or deleting it again all
      report that it is not there, and the failed calls change nothing. */
  method DeleteIsFinal(store: TodoStore, id: Uuid, payload: UpdateTodo, now: Timestamp)
    returns (fetched: AppResult<Todo>, updated: AppResult<Todo>, deleted: AppResult<StatusCode>)
    requires store.Valid() && id in store.table && ValidateUpdate(payload).Pass?
    modifies store
    ensures store.Valid() && store.table == old(store.table) - {id}
    ensures fetched == Err(NotFound) && updated == Err(NotFound) && deleted == Err(NotFound)
  {
    var first := store.Delete(id);
    fetched := store.GetById(id);
    updated := store.Update(id, payload, now);
    deleted := store.Delete(id);
  }

  /** The life of one item: created with only a title, marked completed,
      deleted, and then no longer found. */
  method Lifecycle(id: Uuid, t0: Timestamp, t1: Timestamp)
  {
    var store := new TodoStore();
    var created := store.Create(CreateTodo("Buy milk", None), id, t0);
    assert created.Ok? && created.value.0 == StatusCreated;
    var todo := created.value.1;
    assert !todo.completed && todo.description == None && todo.createdAt == todo.updatedAt;

    var fetched := store.GetById(id);
    assert fetched == Ok(todo);

    var updated := store.Update(id, UpdateTodo(None, None, Some(true)), t1);
    assert updated.Ok? && updated.value.completed && updated.value.title == "Buy milk";
    assert updated.value.createdAt == t0 && updated.value.updatedAt == t1;

    var listed := store.GetAll();
    assert listed.value == [updated.value];

    var deleted := store.Delete(id);
    assert deleted == Ok(StatusNoContent);
    fetched := store.GetById(id);
    assert fetched == Err(NotFound);
  }
}
