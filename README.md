# Task routes of a personal to-do list, in Dafny

This project models the REST routes of a task-tracking web application
(`backend/routes/tasks.js`). Every user keeps a private list of tasks.
Every task route is scoped to the caller's identity, which the authentication
middleware attaches to the request. The four handlers are:

- `GET /` lists the caller's tasks. The filter holds the owner, an optional
  `priority` and `category`, and an optional `completed` flag read from the
  query string. The result is sorted ascending by due date.
- `POST /` checks that a title is given. It then stores one new task owned by
  the caller.
- `PUT /:id` looks the task up by id and owner, answering 404 when there is none.
  It then shallow-merges the request body over the task.
- `DELETE /:id` looks the task up and removes it by id and owner, answering 404
  when there is none.

Modules:

- `Wrappers` (`wrappers.dfy`) defines `Option`.
- `TaskModel` (`task_model.dfy`) defines the task document, the JSON request
  body, and `Merge`, which models `Object.assign`. Its lemmas characterise the merge.
- `TaskQuery` (`task_query.dfy`) defines the list route. `BuildFilter` builds the
  filter and `Matches` is the database's equality match. `Select` and
  `SortByDue` are the query and the sort, and `List` composes them.
- `TaskRoutes` (`task_routes.dfy`) defines the responses and the `(id, owner)`
  lookup `FindOwned`. Its class `Store` holds the collection and has one method
  per handler. `Scenario` is a client that creates a task, completes it, and
  deletes it twice.

Modelling choices:

- The collection is a `seq<Task>` in natural (insertion) order. Lookups return
  the first match in that order, as `findOne` does.
- Document ids come from a counter in the store. The proofs use only the fact
  that a new id is fresh.
- A request body is one `Body` value with an absent-or-present `Field` per task
  key. Create reads five keys: title, description, priority, dueDate and
  category. It ignores the rest, including `user` and `completed`. Update merges
  every key the body carries, `user` included.
- Due dates are `Option<int>`. Tasks without a due date come first, as in
  MongoDB's ascending sort, where a missing or null value precedes every value.
  Tasks with equal due dates are listed in collection order.
- A PUT body carrying `user` hands the task to another user. The model follows
  the code, and `ReassignedOwner` shows the consequence.
- The route code never sets `completed` on create. A created task therefore
  has `completed == None`, and no schema default is assumed.

## Model

| member | source | states |
|---|---|---|
| TaskQuery.BuildFilter | backend/routes/tasks.js:10-16 | the owner is always constrained; `priority` and `category` are constrained iff the parameter is present and non-empty, and then to that value; `completed` is constrained iff present and not `''`, to true exactly when the parameter is `"true"` |
| TaskQuery.SelectCounts | backend/routes/tasks.js:17 | the query's result holds each matching document exactly as often as the collection does, and nothing else |
| TaskQuery.Insert | backend/routes/tasks.js:17 | inserting into a list already sorted by due date keeps it sorted and adds exactly that one document |
| TaskQuery.SortByDue | backend/routes/tasks.js:17 | the sort returns a permutation of its input, non-decreasing by due date, with missing due dates first |
| TaskQuery.List | backend/routes/tasks.js:10-18 | the list holds only the caller's tasks; it holds each matching document with its multiplicity in the collection and nothing else; it is sorted by due date |
| TaskQuery.ListExact | backend/routes/tasks.js:11-17 | a task is listed iff it is in the collection and satisfies every constraint of the filter, so it is owned by the caller |
| TaskQuery.ListNoDueDateFirst | backend/routes/tasks.js:17 | in a listing, every task without a due date comes before every task that has one |
| TaskQuery.EmptyParamIsAbsent | backend/routes/tasks.js:12-16 | an empty `priority`, `category` or `completed` parameter gives the same listing as omitting it |
| TaskQuery.CompletedParam | backend/routes/tasks.js:14-16 | with `completed=v` (non-empty), every listed task has `completed == (v == "true")`; any value other than `"true"` lists what `completed=false` lists |
| TaskQuery.CreatedIsListed | backend/routes/tasks.js:31-39 | a newly added task appears in its owner's unfiltered listing |
| TaskQuery.ListIgnoresForeignInsert | backend/routes/tasks.js:11-17 | adding another user's task leaves a caller's listing unchanged |
| TaskQuery.ListIgnoresForeignReplace | backend/routes/tasks.js:11-17 | replacing a task the caller owns neither before nor after leaves the caller's listing unchanged |
| TaskQuery.ListIgnoresForeignRemove | backend/routes/tasks.js:11-17 | removing another user's task leaves a caller's listing unchanged |
| TaskModel.Merge | backend/routes/tasks.js:54 | the shallow merge never changes the document's id |
| TaskModel.MergeChangesOnlyBodyKeys | backend/routes/tasks.js:54 | a merge changes only fields whose key the body carries |
| TaskModel.MergeWritesBodyValues | backend/routes/tasks.js:54 | every key the body carries, `user` included, overwrites that field with the body's value |
| TaskModel.MergeSetsBodyKeys | backend/routes/tasks.js:54 | after a merge, the fields the body names depend on the body alone; elsewhere two merged documents differ only where they differed before |
| TaskModel.MergeEmpty | backend/routes/tasks.js:54 | merging `{}` leaves the document unchanged |
| TaskModel.MergeIdempotent | backend/routes/tasks.js:54 | merging the same body twice equals merging it once |
| TaskModel.MergeTwice | backend/routes/tasks.js:54 | two successive merges equal one merge with the combined body, the later key winning |
| TaskModel.SameWhenNoDifference | backend/routes/tasks.js:54 | two documents are equal iff they share the id and differ in no mergeable field |
| TaskRoutes.FindOwned | backend/routes/tasks.js:50 | the lookup returns the first position whose task has this id and this owner, or none when no position does |
| TaskRoutes.NotFoundCases | backend/routes/tasks.js:50-53 | with distinct ids, the lookup fails iff no task has the id or the task with the id belongs to someone else |
| TaskRoutes.RemoveDropsId | backend/routes/tasks.js:66 | removing a task keeps ids distinct and leaves no task with the removed id |
| TaskRoutes.GoneIsNotFound | backend/routes/tasks.js:66-69 | once no task has an id, every lookup of it fails, so a second delete is 404 |
| TaskRoutes.ReassignedOwner | backend/routes/tasks.js:54-55 | a PUT body carrying `user` moves the task out of the caller's reach and into the new owner's listing |
| TaskRoutes.Store.GetTasks | backend/routes/tasks.js:8-18 | 200 with the listing of the caller's filter: each matching task as often as the collection holds it and nothing else, all owned by the caller, sorted by due date |
| TaskRoutes.Store.Create | backend/routes/tasks.js:25-40 | a missing, null or empty title gives 400 "Title is required" and leaves the collection unchanged; otherwise 201 with exactly one task appended under a fresh id, owned by the caller, with the given title, description, priority, dueDate and category |
| TaskRoutes.Store.Update | backend/routes/tasks.js:47-56 | if the caller owns no task with this id: 404 "Task not found" and the collection unchanged; otherwise only that task is replaced by its merge with the body, and 200 returns it; other users' tasks all remain |
| TaskRoutes.Store.Delete | backend/routes/tasks.js:63-70 | if the caller owns no task with this id: 404 and the collection unchanged; otherwise exactly that task is removed, 200 "Task deleted", no task with the id remains; other users' tasks all remain |

## Left out

- Authentication middleware (`../middleware/authMiddleware`) is not part of this model. The caller's identity is a parameter of every handler.
- The 500 responses are left out. They are raised only when the database throws, and the model has no storage failures.
- The document schema (`../models/Task`) is not part of this model. Its defaults (`priority`, `completed`) are not assumed. Its validation is not modelled either: a title required on save, a priority enum, casting of strings to dates.
- Creation and update timestamps are left out because the schema that adds them is not part of this model.
- The database's id generation and the casting of a malformed `:id` are left out. A malformed id fails the cast and gives a 500. Ids are naturals handed out by a counter.
- An `_id` key in a PUT body is not modelled. The database refuses to change `_id` on save, which gives a 500.
- JSON values of other types are not modelled, such as a numeric title. Neither are array- or object-valued query parameters, which the query-string parser can produce. Body fields have the task field's type or null, except `user`, which is never null here; query parameters are plain strings.
- A `user: null` key in a PUT body is not modelled. The merge would set the owner to null; whether saving then succeeds depends on the schema, which is not part of this model.
- TaskQuery.SortByDue fixes the order of tasks with equal due dates to collection order. The database does not promise any such order, so the contract states only sortedness and permutation.
- Concurrency is left out. Each handler runs as one atomic step on the collection.
- `backend/server.js` (express, cors, environment and database wiring) and the frontend (`frontend/src/*`) are left out. They hold no task-store logic; the form's title check duplicates the server's check.
- User registration and login routes are not part of this model.
