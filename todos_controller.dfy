/**
 * The todo resource (app/controllers/todos_controller.rb) over an in-memory table:
 * index with filters, show, create, update and destroy, each answering with a status
 * and a body. A missing id answers 404 with the fixed error of
 * app/controllers/application_controller.rb.
 */
module TodosController {
  import opened Wrappers
  import opened Text
  import opened TodoModel

  const StatusOk := 200
  const StatusCreated := 201
  const StatusNoContent := 204
  const StatusNotFound := 404
  const StatusUnprocessable := 422

  const RecordNotFound := "Record not found"

  /** What an action renders. */
  datatype Body =
    | Record(todo: Todo)                       // render json: @todo
    | Records(todos: seq<Todo>)                // render json: @todos
    | ValidationErrors(errors: seq<Violation>) // { errors: @todo.errors.full_messages }
    | NotFoundError(error: string)             // { error: 'Record not found' }
    | NoContent                                // head :no_content

  datatype Response = Response(status: int, body: Body)

  const NotFound := Response(StatusNotFound, NotFoundError(RecordNotFound))

  /** A permitted parameter: left out of the request, or given (possibly as nil). */
  datatype Param<T> = Omitted | Given(value: T)

  /** `params.require(:todo).permit(:title, :description, :completed)`: nothing else is writable. */
  datatype TodoParams = TodoParams(
    title: Param<Option<string>>,
    description: Param<Option<string>>,
    completed: Param<Option<bool>>)

  function Assign<T>(current: T, p: Param<T>): T {
    if p.Given? then p.value else current
  }

  /** Assigns the given parameters over `a`; the omitted ones keep their value. */
  function Merge(a: Attrs, p: TodoParams): Attrs {
    Attrs(Assign(a.title, p.title), Assign(a.description, p.description), Assign(a.completed, p.completed))
  }

  /** `Todo.new(todo_params)`: nil title and description, the column default for completed. */
  function NewAttrs(p: TodoParams, completedDefault: Option<bool>): Attrs {
    Merge(Attrs(None, None, completedDefault), p)
  }

  /** Assigning the same parameters twice is the same as assigning them once. */
  lemma MergeIdempotent(a: Attrs, p: TodoParams)
    ensures Merge(Merge(a, p), p) == Merge(a, p)
  {
  }

  /** A parameter set that names no field leaves the attributes as they are. */
  lemma MergeNothing(a: Attrs)
    ensures Merge(a, TodoParams(Omitted, Omitted, Omitted)) == a
  {
  }

  /** ActiveModel's boolean cast of a non-empty query string. */
  function CastBoolean(s: string): bool {
    !(s in ["0", "f", "F", "false", "FALSE", "off", "OFF"])
  }

  /** The title condition `title LIKE '%f%'`; a nil title never matches. */
  predicate TitleLike(t: Todo, f: string) {
    t.attrs.title.Some? && Contains(t.attrs.title.value, f)
  }

  /** The condition `where(completed: c)`. */
  predicate CompletedIs(t: Todo, c: bool) {
    t.attrs.completed == Some(c)
  }

  /** Whether index lists `t`: each filter that is present constrains it, a blank one does not. */
  predicate Selected(t: Todo, title: Option<string>, completed: Option<string>) {
    && (Present(title) ==> TitleLike(t, title.value))
    && (Present(completed) ==> CompletedIs(t, CastBoolean(completed.value)))
  }

  /** Listed in storage order: ascending ids. */
  predicate IdsIncreasing(s: seq<Todo>) {
    forall i, j :: 0 <= i < j < |s| ==> s[i].id < s[j].id
  }

  /** Every row sits under its own id. */
  predicate KeysAreIds(rows: map<int, Todo>) {
    forall k :: k in rows ==> rows[k].id == k
  }

  /** The keys of `rows` in `[lo, hi)`. */
  function KeysBetween(rows: map<int, Todo>, lo: int, hi: int): set<int> {
    set k | k in rows && lo <= k < hi
  }

  /** A table scan of the ids `[lo, hi)`: every row there, once, in id order. */
  function Scan(rows: map<int, Todo>, lo: int, hi: int): (r: seq<Todo>)
    requires KeysAreIds(rows)
    ensures forall t :: t in r <==> lo <= t.id < hi && t.id in rows && rows[t.id] == t
    ensures IdsIncreasing(r)
    decreases hi - lo
  {
    if lo >= hi then []
    else
      var rest := Scan(rows, lo + 1, hi);
      assert forall i :: 0 <= i < |rest| ==> rest[i] in rest;
      if lo in rows then [rows[lo]] + rest else rest
  }

  /** The scan yields one todo per key in range, so an unfiltered index lists the whole table. */
  lemma {:induction false} ScanCount(rows: map<int, Todo>, lo: int, hi: int)
    requires KeysAreIds(rows)
    ensures |Scan(rows, lo, hi)| == |KeysBetween(rows, lo, hi)|
    decreases hi - lo
  {
    if lo >= hi {
      assert KeysBetween(rows, lo, hi) == {};
    } else {
      ScanCount(rows, lo + 1, hi);
      if lo in rows {
        assert KeysBetween(rows, lo, hi) == {lo} + KeysBetween(rows, lo + 1, hi);
      } else {
        assert KeysBetween(rows, lo, hi) == KeysBetween(rows, lo + 1, hi);
      }
    }
  }

  /** A `where` clause applied to an ordered relation: the rows that satisfy it, order kept. */
  function Where(s: seq<Todo>, keep: Todo -> bool): (r: seq<Todo>)
    ensures forall t :: t in r <==> t in s && keep(t)
    ensures IdsIncreasing(s) ==> IdsIncreasing(r)
  {
    if s == [] then []
    else
      var rest := Where(s[1..], keep);
      assert forall i :: 0 <= i < |rest| ==> rest[i] in s[1..];
      (if keep(s[0]) then [s[0]] else []) + rest
  }

  /** The todos table: rows keyed by id and the id the next insert receives. */
  class TodoTable {
    var rows: map<int, Todo>
    var nextId: int

    /** Ids are positive, below the counter and match their keys; the rows are consistent. */
    ghost predicate Valid()
      reads this
    {
      && 1 <= nextId
      && (forall k :: k in rows ==> 1 <= k < nextId)
      && KeysAreIds(rows)
      && Consistent(rows)
    }

    constructor ()
      ensures Valid() && rows == map[] && nextId == 1
    {
      rows := map[];
      nextId := 1;
    }

    /** `set_todo`: `Todo.find(params[:id])`, `None` where the lookup raises RecordNotFound. */
    function Find(id: int): (r: Option<Todo>)
      reads this
      requires Valid()
      ensures r.Some? <==> id in rows
      ensures r.Some? ==> r.value == rows[id] && r.value.id == id
    {
      if id in rows then Some(rows[id]) else None
    }

    /**
     * GET /todos: every stored todo that the present filters select, in id order.
     * The table is only read.
     */
    method Index(title: Option<string>, completed: Option<string>) returns (resp: Response)
      requires Valid()
      ensures resp.status == StatusOk && resp.body.Records?
      ensures forall t :: t in resp.body.todos <==> t.id in rows && rows[t.id] == t && Selected(t, title, completed)
      ensures IdsIncreasing(resp.body.todos)
      ensures !Present(title) && !Present(completed) ==> |resp.body.todos| == |rows|
    {
      var todos := Scan(rows, 1, nextId);
      ScanCount(rows, 1, nextId);
      assert KeysBetween(rows, 1, nextId) == rows.Keys;
      if Present(title) {
        var f := title.value;
        todos := Where(todos, t => TitleLike(t, f));
      }
      if Present(completed) {
        var c := CastBoolean(completed.value);
        todos := Where(todos, t => CompletedIs(t, c));
      }
      resp := Response(StatusOk, Records(todos));
    }

    /** GET /todos/:id. */
    method Show(id: int) returns (resp: Response)
      requires Valid()
      ensures id in rows ==> resp == Response(StatusOk, Record(rows[id]))
      ensures id !in rows ==> resp == NotFound
    {
      var found := Find(id);
      if found.None? {
        return NotFound;
      }
      resp := Response(StatusOk, Record(found.value));
    }

    /**
     * POST /todos: a valid record is inserted under a fresh id and answered with 201;
     * an invalid one is answered with 422 and every violation, and nothing is stored.
     */
    method Create(p: TodoParams, completedDefault: Option<bool>) returns (resp: Response)
      requires Valid()
      modifies this
      ensures Valid()
      ensures var a := NewAttrs(p, completedDefault);
        var errors := Validate(a, old(rows));
        if errors == [] then
          && old(nextId) !in old(rows)
          && rows == old(rows)[old(nextId) := Todo(old(nextId), a)]
          && |rows| == |old(rows)| + 1
          && nextId == old(nextId) + 1
          && resp == Response(StatusCreated, Record(Todo(old(nextId), a)))
        else
          && rows == old(rows)
          && nextId == old(nextId)
          && resp == Response(StatusUnprocessable, ValidationErrors(errors))
    {
      var a := NewAttrs(p, completedDefault);
      var errors := Validate(a, rows);
      if errors == [] {
        var todo := Todo(nextId, a);
        InsertKeepsConsistent(rows, nextId, a);
        rows := rows[nextId := todo];
        nextId := nextId + 1;
        resp := Response(StatusCreated, Record(todo));
      } else {
        resp := Response(StatusUnprocessable, ValidationErrors(errors));
      }
    }

    /**
     * PUT/PATCH /todos/:id: the permitted fields are merged into the row; if the merged
     * record is valid only that row changes (its id kept), otherwise nothing does.
     */
    method Update(id: int, p: TodoParams) returns (resp: Response)
      requires Valid()
      modifies this
      ensures Valid()
      ensures nextId == old(nextId)
      ensures id !in old(rows) ==> rows == old(rows) && resp == NotFound
      ensures id in old(rows) ==>
        var merged := Todo(id, Merge(old(rows)[id].attrs, p));
        var errors := Validate(merged.attrs, old(rows) - {id});
        if errors == [] then
          && rows == old(rows)[id := merged]
          && resp == Response(StatusOk, Record(merged))
        else
          && rows == old(rows)
          && resp == Response(StatusUnprocessable, ValidationErrors(errors))
    {
      var found := Find(id);
      if found.None? {
        return NotFound;
      }
      var merged := Todo(id, Merge(found.value.attrs, p));
      var errors := Validate(merged.attrs, rows - {id});
      if errors == [] {
        ReplaceKeepsConsistent(rows, id, merged.attrs);
        rows := rows[id := merged];
        resp := Response(StatusOk, Record(merged));
      } else {
        resp := Response(StatusUnprocessable, ValidationErrors(errors));
      }
    }

    /** DELETE /todos/:id: removes exactly that row and answers 204. */
    method Destroy(id: int) returns (resp: Response)
      requires Valid()
      modifies this
      ensures Valid()
      ensures nextId == old(nextId)
      ensures id in old(rows) ==>
        && rows == old(rows) - {id}
        && |rows| == |old(rows)| - 1
        && resp == Response(StatusNoContent, NoContent)
      ensures id !in old(rows) ==> rows == old(rows) && resp == NotFound
    {
      var found := Find(id);
      if found.None? {
        return NotFound;
      }
      RemoveKeepsConsistent(rows, id);
      rows := rows - {id};
      resp := Response(StatusNoContent, NoContent);
    }
  }

  /** Inserting a record that validates against the whole table keeps the table consistent. */
  lemma InsertKeepsConsistent(rows: map<int, Todo>, id: int, a: Attrs)
    requires Consistent(rows) && id !in rows
    requires Validate(a, rows) == []
    ensures Consistent(rows[id := Todo(id, a)])
  {
    ValidIffRulesHold(a, rows);
    var rows' := rows[id := Todo(id, a)];
    forall j, k | j in rows' && k in rows' && j != k
      ensures rows'[j].attrs.title != rows'[k].attrs.title
    {
      if j == id {
        assert k in rows;
      } else if k == id {
        assert j in rows;
      }
    }
  }

  /**
   * Replacing a row by a record that validates against the rest of the table keeps the
   * table consistent.
   */
  lemma ReplaceKeepsConsistent(rows: map<int, Todo>, id: int, a: Attrs)
    requires Consistent(rows) && id in rows
    requires Validate(a, rows - {id}) == []
    ensures Consistent(rows[id := Todo(id, a)])
  {
    ValidIffRulesHold(a, rows - {id});
    var rows' := rows[id := Todo(id, a)];
    forall j, k | j in rows' && k in rows' && j != k
      ensures rows'[j].attrs.title != rows'[k].attrs.title
    {
      if j == id {
        assert k in rows - {id};
      } else if k == id {
        assert j in rows - {id};
      }
    }
  }

  /** Removing a row keeps the table consistent. */
  lemma RemoveKeepsConsistent(rows: map<int, Todo>, id: int)
    requires Consistent(rows)
    ensures Consistent(rows - {id})
  {
  }
}
