# Todo API — a verified model

This project models the core of a single-resource Rails todo API:

- the **Todo validation rules** (`app/models/todo.rb`), as a pure function from a
  candidate's attributes and the other stored rows to the ordered list of violated rules;
- the **todo resource actions** (`app/controllers/todos_controller.rb`): index with its
  `title`/`completed` filters, show, create, update and destroy. They are methods on a
  `TodoTable` class that holds the rows (`map<int, Todo>`) and the next id. Each action
  returns a status (200/201/204/404/422) and a body: a todo, a list of todos, the
  violations, the fixed `{"error":"Record not found"}` error of
  `app/controllers/application_controller.rb`, or no content.

The table invariant `TodoTable.Valid()` says that ids are positive, below the counter
and equal to their keys. It also says that the rows are `Consistent`: every row passes
the record-level rules and no two rows share a title. This mirrors the unique index on
`todos.title`. Create, update and destroy all preserve it.

Files:

- `wrappers.dfy`: `Option`.
- `text.dfy`: `blank?` (Unicode white space, as Ruby's `[[:space:]]`), Ruby's `\d`
  (ASCII digits only), and the `LIKE '%f%'` substring test.
- `todo.dfy` (module `TodoModel`): the attributes, the rules, `Validate`, and the table
  invariant `Consistent`.
- `todos_controller.dfy` (module `TodosController`): the permitted parameters, the
  merge of parameters into a record, the index scan and filters, and the `TodoTable` class.
- `todos_controller_spec.dfy` (module `TodosControllerSpec`): the request scenarios of
  the controller spec, proved for every title the factory could produce.

Modelling choices:

- `title` and `description` are `Option<string>`: nil is `None`. `completed` is
  `Option<bool>`: the value after the attribute layer has cast it, with nil the only
  value that is not a boolean.
- The rules run in declaration order: title presence, title length, title uniqueness,
  description length, `completed` inclusion, and then `title_cannot_be_all_numbers`.
  None short-circuits another.
- The length validator measures a nil title as length 0. So a missing title is reported
  both as blank and as too short.
- Uniqueness compares the whole nil-able title for exact, case-sensitive equality. It
  looks at every other row; update excludes the row being updated.
- A create with `completed` omitted takes the column default. The schema is not part of
  this model, so the default is a parameter of `Create`. An omitted title or description
  is nil.
- The `completed` query filter is the raw query string. It applies when it is
  `present?`, and is then cast as ActiveModel casts booleans: `"0"`, `"f"`, `"F"`,
  `"false"`, `"FALSE"`, `"off"` and `"OFF"` are false, and everything else is true.
- Index lists rows in ascending id order, which stands for storage order.
- The per-request instance variables `@todo` and `@todos` are locals of the action
  methods. `set_todo` is the function `Find`, and its `None` is the RecordNotFound that
  the application controller turns into 404.
- Only three messages appear as text in the repository: "Title can't be blank", "Title
  has already been taken" and "Title cannot be only numbers". `FullMessage` gives those
  three. Every other violation is an abstract kind, because its wording comes from the
  framework's locale files.

## Model

| member | source | states |
|---|---|---|
| `TodoModel.Validate` | app/models/todo.rb:3-16 | a violation is reported iff its rule is broken, for all seven rules (presence, minimum 2, maximum 100, uniqueness among the other rows, description at most 500 unless blank, completed true or false, not only digits when present); violations come in declaration order, none twice |
| `TodoModel.RunRules` | app/models/todo.rb:3-8 | running a sequence of rules reports exactly the broken ones among them, and keeps their order |
| `TodoModel.RulesCoverEveryViolation` | app/models/todo.rb:3-8 | the rule table holds every rule, each once, in declaration order, so no rule is skipped |
| `TodoModel.ValidIffRulesHold` | app/models/todo.rb:3-8 | the violation list is empty iff every record rule holds and no other row has the title |
| `TodoModel.SingleDigitTitleBreaksTwoRules` | app/models/todo.rb:12-15 | the title "1" is reported both as too short and as only numbers, and not as blank |
| `TodoModel.BlankTitleReported` | app/models/todo.rb:3 | a nil or white-space-only title is reported as blank, with the message "Title can't be blank" |
| `TodoModel.BlankDescriptionAccepted` | app/models/todo.rb:4 | a nil or blank description is never reported, whatever its length |
| `TodoModel.DigitsOnlyTitleReported` | app/models/todo.rb:12-15 | a title made only of the digits 0-9 is reported with the message "Title cannot be only numbers" |
| `TodoModel.NonDigitSatisfiesNumbersRule` | app/models/todo.rb:13 | any character other than 0-9 in the title makes the only-numbers rule pass |
| `TodoModel.ConsistentIffEveryRowRevalidates` | db/migrate/20250319214434_add_unique_index_to_todos_title.rb:3 | the table invariant (record rules and unique titles) holds iff every stored row validates against the rest of the table, so re-saving a row unchanged never reports its own title as taken |
| `TodosController.MergeIdempotent` | app/controllers/todos_controller.rb:44-46 | assigning the same permitted parameters twice is the same as assigning them once |
| `TodosController.MergeNothing` | app/controllers/todos_controller.rb:26 | parameters that name no field leave the record as it is |
| `TodosController.Scan` | app/controllers/todos_controller.rb:5 | `Todo.all`: the scan lists exactly the rows whose ids are in range, in increasing id order |
| `TodosController.ScanCount` | spec/controllers/todos_controller_spec.rb:7-12 | the scan yields one todo per stored key in range |
| `TodosController.Where` | app/controllers/todos_controller.rb:7-8 | a `where` keeps exactly the rows that satisfy its condition, in their order |
| `TodosController.TodoTable.Find` | app/controllers/todos_controller.rb:40-42 | the lookup finds a row iff the id is stored; the row it finds is the stored one, carrying that id |
| `TodosController.TodoTable.Index` | app/controllers/todos_controller.rb:4-10 | returns 200 and exactly the stored todos that match every present filter (title substring, completed equality); blank filters impose nothing; with no filter every row is listed; ids increase; the table is only read |
| `TodosController.TodoTable.Show` | app/controllers/application_controller.rb:2-4 | show returns 200 with the stored todo, or 404 with "Record not found" when the id is missing |
| `TodosController.TodoTable.Create` | app/controllers/todos_controller.rb:16-23 | a valid record is inserted as exactly one new row under a fresh id, with the given fields, and returns 201; an invalid one returns 422 with every violation and changes nothing; the invariant is kept |
| `TodosController.TodoTable.Update` | app/controllers/todos_controller.rb:25-31 | a missing id returns 404 and changes nothing; otherwise the permitted fields are merged and, if the merged record is valid against the other rows, only that row changes, its id kept, and 200 is returned; if not, 422 with the violations and nothing changes; the invariant is kept |
| `TodosController.TodoTable.Destroy` | app/controllers/todos_controller.rb:33-36 | an existing id loses exactly its row (count drops by one) and 204 is returned; a missing id returns 404 and changes nothing |
| `TodosController.InsertKeepsConsistent` | app/controllers/todos_controller.rb:18 | inserting a record that validates against the whole table keeps titles unique and every row valid |
| `TodosController.ReplaceKeepsConsistent` | app/controllers/todos_controller.rb:26 | replacing a row by a record that validates against the other rows keeps titles unique and every row valid |
| `TodosController.RemoveKeepsConsistent` | app/controllers/todos_controller.rb:34 | removing a row keeps the table invariant |
| `TodosControllerSpec.DuplicateTitleRejected` | spec/controllers/todos_controller_spec.rb:88-92 | a second create with a stored title returns 422 with "Title has already been taken", and one row remains |
| `TodosControllerSpec.BlankTitleRejected` | spec/controllers/todos_controller_spec.rb:76-86 | a create with an empty title returns 422 with "Title can't be blank" and stores nothing |
| `TodosControllerSpec.AllDigitsTitleUpdateRejected` | spec/controllers/todos_controller_spec.rb:110-116 | updating the title to "123" returns 422 with "Title cannot be only numbers", and the stored title is unchanged |
| `TodosControllerSpec.CompletedUpdateAccepted` | spec/controllers/todos_controller_spec.rb:100-107 | updating only `completed` to true returns 200, and true is what is stored |
| `TodosControllerSpec.DestroyThenNotFound` | spec/controllers/todos_controller_spec.rb:125-139 | destroy returns 204 and drops the count by one; a later show, and a repeated destroy, each return 404 with "Record not found" |

## Left out

- HTTP, routing, JSON rendering and query parsing are framework glue. The model takes its
  inputs already parsed. An id is an `int`, so a non-numeric id is not modelled. A
  request without the `todo` key (a 400 from `params.require`) is not modelled either.
- TodosController.TodoTable.Index: the title filter is read as a case-sensitive
  substring test. In SQL the parameter is interpolated into the pattern unescaped, so `%`
  and `_` in it act as wildcards. Case sensitivity also depends on the database's
  collation. Neither is modelled.
- TodoModel.Validate: uniqueness is an exact, case-sensitive comparison. With the
  framework's default, the database collation decides this.
- TodoModel.Validate: the check always queries the other rows. Newer framework versions
  skip it for a persisted record whose title has not changed and is covered by a unique
  index. Under the table invariant the two agree (`ConsistentIffEveryRowRevalidates`).
- The wording of the framework's default length and inclusion messages comes from
  locale files that are not part of this model. Those violations are abstract kinds.
- The database engine and the ORM are replaced by the map and the id counter. Ids are
  never reused.
- The storage-level unique index is modelled only as the sequential table invariant.
  The race between concurrent writers that the index backstops is concurrency, and is
  left out. So is the RecordNotUnique error it would raise.
- The RecordInvalid handler (app/controllers/application_controller.rb:6-8) is never
  reached, because the controller calls the non-raising `save` and `update`.
- Timestamps (`created_at`, `updated_at`) are managed by storage and are left out.
- The column default of `completed` comes from the schema, which is not part of this
  model, so it is a parameter of `Create`.
- The factory's random titles (spec/factories/todos.rb:3) are test scaffolding. The
  scenarios are stated for every title that satisfies the rules instead.
