/** The task routes: a store holding the task collection, and the four
    handlers (list, create, update, delete), each scoped to the caller. */
module TaskRoutes {

  import opened Wrappers
  import opened TaskModel
  import opened TaskQuery

  const TITLE_REQUIRED := "Title is required"
  const TASK_NOT_FOUND := "Task not found"
  const TASK_DELETED := "Task deleted"

  /** The HTTP responses the handlers send, with their JSON payloads. */
  datatype Response =
    | Ok200Tasks(tasks: seq<Task>)
    | Ok200Task(task: Task)
    | Ok200Message(message: string)
    | Created201(task: Task)
    | BadRequest400(error: string)
    | NotFound404(error: string)

  /** JavaScript truthiness of the body's `title`: present, not null, not `''`. */
  predicate TitleGiven(b: Body)
  {
    Given(b.title).Some? && Given(b.title).value != ""
  }

  /** The `{ _id: id, user: caller }` condition of the update and delete lookups. */
  predicate Owned(t: Task, id: Id, caller: UserId)
  {
    t.id == id && t.user == caller
  }

  /** The position of the first document in collection order with this id and
      this owner, or `None` when there is none. */
  function FindOwned(s: seq<Task>, id: Id, caller: UserId): (r: Option<nat>)
    ensures r.Some? ==> r.value < |s| && Owned(s[r.value], id, caller)
    ensures r.Some? ==> forall j :: 0 <= j < r.value ==> !Owned(s[j], id, caller)
    ensures r.None? ==> forall j :: 0 <= j < |s| ==> !Owned(s[j], id, caller)
  {
    if s == [] then None
    else if Owned(s[0], id, caller) then Some(0)
    else
      match FindOwned(s[1..], id, caller)
      case None => None
      case Some(k) => Some(k + 1)
  }

  /** With distinct ids, the lookup fails exactly when no document has the id or
      the one that has it belongs to someone else; both give the same response. */
  lemma NotFoundCases(s: seq<Task>, id: Id, caller: UserId)
    requires DistinctIds(s)
    ensures FindOwned(s, id, caller).None? <==>
      (forall i :: 0 <= i < |s| ==> s[i].id != id)
      || (exists i :: 0 <= i < |s| && s[i].id == id && s[i].user != caller)
  {
  }

  /** Removing a document from a collection with distinct ids removes its id. */
  lemma RemoveDropsId(s: seq<Task>, i: nat)
    requires DistinctIds(s) && i < |s|
    ensures DistinctIds(s[..i] + s[i + 1..])
    ensures forall t :: t in s[..i] + s[i + 1..] ==> t.id != s[i].id
  {
  }

  /** The task collection and the id source of the database.
      `tasks` is the collection in natural (insertion) order. */
  class Store {
    var tasks: seq<Task>
    var nextId: Id

    /** Every id was handed out before and no two documents share one. */
    ghost predicate Valid()
      reads this
    {
      && (forall i :: 0 <= i < |tasks| ==> tasks[i].id < nextId)
      && DistinctIds(tasks)
    }

    constructor ()
      ensures Valid() && tasks == []
    {
      tasks := [];
      nextId := 0;
    }

    /** `GET /`: 200 with the caller's documents selected by the query string. */
    method GetTasks(caller: UserId, q: QueryParams) returns (res: Response)
      requires Valid()
      ensures res.Ok200Tasks?
      ensures res.tasks == List(tasks, caller, q)
      ensures forall t :: multiset(res.tasks)[t] == (if Matches(BuildFilter(caller, q), t) then multiset(tasks)[t] else 0)
      ensures forall t :: t in res.tasks <==> t in tasks && Matches(BuildFilter(caller, q), t)
      ensures forall t :: t in res.tasks ==> t.user == caller
      ensures SortedByDue(res.tasks)
    {
      var r := List(tasks, caller, q);
      forall t ensures t in r <==> t in tasks && Matches(BuildFilter(caller, q), t) {
        ListExact(tasks, caller, q, t);
      }
      res := Ok200Tasks(r);
    }

    /** `POST /`: 400 without a title; otherwise one new document under a fresh id,
        owned by the caller and carrying the five fields the route reads. */
    method Create(caller: UserId, body: Body) returns (res: Response)
      requires Valid()
      modifies this
      ensures Valid()
      ensures !TitleGiven(body) ==>
        res == BadRequest400(TITLE_REQUIRED) && tasks == old(tasks) && nextId == old(nextId)
      ensures TitleGiven(body) ==>
        && res.Created201?
        && tasks == old(tasks) + [res.task]
        && nextId == old(nextId) + 1
        && (forall t :: t in old(tasks) ==> t.id != res.task.id)
        && res.task.user == caller
        && res.task.title == Given(body.title)
        && res.task.description == Given(body.description)
        && res.task.priority == Given(body.priority)
        && res.task.dueDate == Given(body.dueDate)
        && res.task.category == Given(body.category)
        && res.task.completed.None?
    {
      if !TitleGiven(body) {
        return BadRequest400(TITLE_REQUIRED);
      }
      var t := Task(nextId, caller, Given(body.title), Given(body.description),
                    Given(body.priority), Given(body.dueDate), None, Given(body.category));
      tasks := tasks + [t];
      nextId := nextId + 1;
      res := Created201(t);
    }

    /** `PUT /:id`: 404 unless the caller owns a document with this id; otherwise
        every key of the body is merged over that document, `user` included. */
    method Update(caller: UserId, id: Id, body: Body) returns (res: Response)
      requires Valid()
      modifies this
      ensures Valid() && nextId == old(nextId)
      ensures FindOwned(old(tasks), id, caller).None? ==>
        res == NotFound404(TASK_NOT_FOUND) && tasks == old(tasks)
      ensures FindOwned(old(tasks), id, caller).Some? ==>
        var i := FindOwned(old(tasks), id, caller).value;
        && tasks == old(tasks)[i := Merge(old(tasks)[i], body)]
        && res == Ok200Task(tasks[i])
      ensures forall t :: t in old(tasks) && t.user != caller ==> t in tasks
    {
      var found := FindOwned(tasks, id, caller);
      if found.None? {
        return NotFound404(TASK_NOT_FOUND);
      }
      var i := found.value;
      ghost var before := tasks;
      var merged := Merge(tasks[i], body);
      tasks := tasks[i := merged];
      res := Ok200Task(merged);
      forall t | t in before && t.user != caller ensures t in tasks {
        var j :| 0 <= j < |before| && before[j] == t;
        assert j != i && tasks[j] == t;
      }
    }

    /** `DELETE /:id`: 404 unless the caller owns a document with this id; otherwise
        that document is removed and no document with this id remains. */
    method Delete(caller: UserId, id: Id) returns (res: Response)
      requires Valid()
      modifies this
      ensures Valid() && nextId == old(nextId)
      ensures FindOwned(old(tasks), id, caller).None? ==>
        res == NotFound404(TASK_NOT_FOUND) && tasks == old(tasks)
      ensures FindOwned(old(tasks), id, caller).Some? ==>
        var i := FindOwned(old(tasks), id, caller).value;
        && tasks == old(tasks)[..i] + old(tasks)[i + 1..]
        && res == Ok200Message(TASK_DELETED)
        && forall j :: 0 <= j < |tasks| ==> tasks[j].id != id
      ensures forall t :: t in old(tasks) && t.user != caller ==> t in tasks
    {
      var found := FindOwned(tasks, id, caller);
      if found.None? {
        return NotFound404(TASK_NOT_FOUND);
      }
      var i := found.value;
      ghost var before := tasks;
      RemoveDropsId(tasks, i);
      tasks := tasks[..i] + tasks[i + 1..];
      res := Ok200Message(TASK_DELETED);
      forall t | t in before && t.user != caller ensures t in tasks {
        var j :| 0 <= j < |before| && before[j] == t;
        assert j != i;
        if j < i {
          assert tasks[j] == t;
        } else {
          assert tasks[j - 1] == t;
        }
      }
    }
  }

  /** Once an id is gone, every later update or delete of it is not found. */
  lemma GoneIsNotFound(s: seq<Task>, id: Id, caller: UserId)
    requires forall j :: 0 <= j < |s| ==> s[j].id != id
    ensures FindOwned(s, id, caller).None?
  {
  }

  /** Because the merge is unrestricted, a body carrying `user` hands the document
      to that user: it leaves the caller's reach and appears in the new owner's list. */
  lemma {:induction false} ReassignedOwner(s: seq<Task>, id: Id, caller: UserId, body: Body, owner: UserId)
    requires DistinctIds(s)
    requires FindOwned(s, id, caller).Some?
    requires body.user == Present(owner) && owner != caller
    ensures var i := FindOwned(s, id, caller).value;
      var s' := s[i := Merge(s[i], body)];
      && FindOwned(s', id, caller).None?
      && FindOwned(s', id, owner) == Some(i)
      && s'[i] in List(s', owner, NO_PARAMS)
  {
    var i := FindOwned(s, id, caller).value;
    var s' := s[i := Merge(s[i], body)];
    forall j | 0 <= j < |s'| ensures !Owned(s'[j], id, caller) {
      if j != i { assert s'[j] == s[j] && s[j].id != s[i].id; }
    }
    forall j | 0 <= j < i ensures !Owned(s'[j], id, owner) {
      assert s'[j] == s[j] && s[j].id != s[i].id;
    }
    FindOwnedUnique(s', id, owner, i);
    ListExact(s', owner, NO_PARAMS, s'[i]);
  }

  /** The lookup returns the first owned position. */
  lemma FindOwnedUnique(s: seq<Task>, id: Id, caller: UserId, i: nat)
    requires i < |s| && Owned(s[i], id, caller)
    requires forall j :: 0 <= j < i ==> !Owned(s[j], id, caller)
    ensures FindOwned(s, id, caller) == Some(i)
  {
  }

  /** The example of a create, a completion and two deletes, as a client sees it. */
  method Scenario(me: UserId, other: UserId)
    requires me != other
  {
    var store := new Store();
    var body := EMPTY_BODY.(title := Present(Some("Buy milk")));
    var created := store.Create(me, body);
    assert created.Created201?;
    var t := created.task;
    assert t.title == Some("Buy milk") && t.user == me;

    var denied := store.Update(other, t.id, EMPTY_BODY.(completed := Present(Some(true))));
    assert denied == NotFound404(TASK_NOT_FOUND);

    var done := store.Update(me, t.id, EMPTY_BODY.(completed := Present(Some(true))));
    assert done.Ok200Task? && done.task.completed == Some(true) && done.task.title == Some("Buy milk");

    var listed := store.GetTasks(me, NO_PARAMS.(completed := Some("true")));
    assert done.task in listed.tasks;

    var first := store.Delete(me, t.id);
    assert first == Ok200Message(TASK_DELETED);
    GoneIsNotFound(store.tasks, t.id, me);
    var second := store.Delete(me, t.id);
    assert second == NotFound404(TASK_NOT_FOUND);
  }
}
