/**
 * The request scenarios of spec/controllers/todos_controller_spec.rb, each run on a
 * fresh table and stated for every title the factory could have produced.
 */
module TodosControllerSpec {
  import opened Wrappers
  import opened Text
  import opened TodoModel
  import opened TodosController

  /** The record spec/factories/todos.rb builds, with the given title. */
  function FactoryParams(title: string): TodoParams {
    TodoParams(Given(Some(title)), Given(Some("A test todo")), Given(Some(false)))
  }

  /** Creating a second todo with a title already stored is refused; one row remains. */
  method DuplicateTitleRejected(title: string, completedDefault: bool)
    returns (first: Response, second: Response, count: nat)
    requires FieldRulesHold(NewAttrs(FactoryParams(title), Some(completedDefault)))
    ensures first.status == StatusCreated
    ensures second.status == StatusUnprocessable && second.body.ValidationErrors?
    ensures TitleTaken in second.body.errors
    ensures FullMessage(TitleTaken) == Some("Title has already been taken")
    ensures count == 1
  {
    var table := new TodoTable();
    var a := NewAttrs(FactoryParams(title), Some(completedDefault));
    ValidIffRulesHold(a, table.rows);
    first := table.Create(FactoryParams(title), Some(completedDefault));
    var dup := TodoParams(Given(Some(title)), Given(Some("Duplicate")), Omitted);
    assert table.rows[1].attrs.title == NewAttrs(dup, Some(completedDefault)).title;
    assert Broken(NewAttrs(dup, Some(completedDefault)), table.rows, TitleTaken);
    second := table.Create(dup, Some(completedDefault));
    count := |table.rows|;
  }

  /** Creating with an empty title is refused as blank and stores nothing. */
  method BlankTitleRejected(completedDefault: Option<bool>) returns (resp: Response, count: nat)
    ensures resp.status == StatusUnprocessable && resp.body.ValidationErrors?
    ensures TitleBlank in resp.body.errors
    ensures FullMessage(TitleBlank) == Some("Title can't be blank")
    ensures count == 0
  {
    var table := new TodoTable();
    var p := TodoParams(Given(Some("")), Given(Some("Invalid")), Omitted);
    BlankTitleReported(NewAttrs(p, completedDefault), table.rows);
    resp := table.Create(p, completedDefault);
    count := |table.rows|;
  }

  /** Updating the title to "123" is refused as only numbers and the stored title stays. */
  method AllDigitsTitleUpdateRejected(title: string) returns (resp: Response, stored: Option<string>)
    requires FieldRulesHold(NewAttrs(FactoryParams(title), None))
    ensures resp.status == StatusUnprocessable && resp.body.ValidationErrors?
    ensures TitleOnlyNumbers in resp.body.errors
    ensures FullMessage(TitleOnlyNumbers) == Some("Title cannot be only numbers")
    ensures stored == Some(title) && stored != Some("123")
  {
    var table := new TodoTable();
    ValidIffRulesHold(NewAttrs(FactoryParams(title), None), table.rows);
    var created := table.Create(FactoryParams(title), None);
    var p := TodoParams(Given(Some("123")), Omitted, Omitted);
    ghost var before := table.rows;
    assert AllDigits("123");
    DigitsOnlyTitleReported(Merge(before[1].attrs, p), before - {1});
    resp := table.Update(1, p);
    stored := table.rows[1].attrs.title;
  }

  /** Updating only `completed` to true succeeds and is what is stored afterwards. */
  method CompletedUpdateAccepted(title: string) returns (resp: Response, stored: Option<bool>)
    requires FieldRulesHold(NewAttrs(FactoryParams(title), None))
    ensures resp.status == StatusOk && resp.body.Record?
    ensures resp.body.todo.attrs.completed == Some(true)
    ensures stored == Some(true)
  {
    var table := new TodoTable();
    ValidIffRulesHold(NewAttrs(FactoryParams(title), None), table.rows);
    var created := table.Create(FactoryParams(title), None);
    var p := TodoParams(Omitted, Omitted, Given(Some(true)));
    ValidIffRulesHold(Merge(table.rows[1].attrs, p), table.rows - {1});
    resp := table.Update(1, p);
    stored := table.rows[1].attrs.completed;
  }

  /**
   * Destroying a todo drops the count by one; afterwards showing it, or destroying
   * it again, answers not-found each time.
   */
  method DestroyThenNotFound(title: string)
    returns (deleted: Response, shown: Response, again: Response, before: nat, after: nat)
    requires FieldRulesHold(NewAttrs(FactoryParams(title), None))
    ensures deleted == Response(StatusNoContent, NoContent)
    ensures after == before - 1
    ensures shown == NotFound && again == NotFound
    ensures shown.body == NotFoundError("Record not found")
  {
    var table := new TodoTable();
    ValidIffRulesHold(NewAttrs(FactoryParams(title), None), table.rows);
    var created := table.Create(FactoryParams(title), None);
    before := |table.rows|;
    deleted := table.Destroy(1);
    after := |table.rows|;
    shown := table.Show(1);
    again := table.Destroy(1);
  }
}
