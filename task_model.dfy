/** Task documents and the JSON request bodies the task routes receive,
    with the shallow merge (`Object.assign`) that the update route applies. */
module TaskModel {

  import opened Wrappers

  /** Document ids. The database generates them; here they are naturals. */
  type Id = nat

  /** The identity the authentication middleware attaches to a request. */
  type UserId = string

  /** A stored task document. A field the route code may leave unset is optional;
      defaults the document schema may fill in are not part of the model.
      Due dates are totally ordered instants, written as integers. */
  datatype Task = Task(
    id: Id,
    user: UserId,
    title: Option<string>,
    description: Option<string>,
    priority: Option<string>,
    dueDate: Option<int>,
    completed: Option<bool>,
    category: Option<string>)

  /** One key of a JSON request body: either absent, or present with a value. */
  datatype Field<T> = Absent | Present(value: T)

  /** A JSON request body, restricted to the keys a task has. For the optional
      fields the present value may itself be `null` (`None`). */
  datatype Body = Body(
    user: Field<UserId>,
    title: Field<Option<string>>,
    description: Field<Option<string>>,
    priority: Field<Option<string>>,
    dueDate: Field<Option<int>>,
    completed: Field<Option<bool>>,
    category: Field<Option<string>>)

  /** The body with no keys at all, `{}`. */
  const EMPTY_BODY := Body(Absent, Absent, Absent, Absent, Absent, Absent, Absent)

  /** The value a destructured body key gives: an absent key (undefined) and
      an explicit null both leave the field unset. */
  function Given<T>(f: Field<Option<T>>): Option<T>
  {
    match f
    case Absent => None
    case Present(v) => v
  }

  /** The value of one field after `Object.assign` copies the body's key over it. */
  function Assign<T>(current: T, f: Field<T>): T
  {
    match f
    case Absent => current
    case Present(v) => v
  }

  /** `Object.assign(task, body)`: every key present in the body overwrites that
      field of the document, `user` included. The id is not a body key. */
  function Merge(t: Task, b: Body): (r: Task)
    ensures r.id == t.id
  {
    t.(user := Assign(t.user, b.user),
       title := Assign(t.title, b.title),
       description := Assign(t.description, b.description),
       priority := Assign(t.priority, b.priority),
       dueDate := Assign(t.dueDate, b.dueDate),
       completed := Assign(t.completed, b.completed),
       category := Assign(t.category, b.category))
  }

  /** The names of the fields a body can carry. */
  datatype FieldName = User | Title | Description | Priority | DueDate | Completed | Category

  /** Whether a body carries the key `n`. */
  predicate HasKey(b: Body, n: FieldName)
  {
    match n
    case User => b.user.Present?
    case Title => b.title.Present?
    case Description => b.description.Present?
    case Priority => b.priority.Present?
    case DueDate => b.dueDate.Present?
    case Completed => b.completed.Present?
    case Category => b.category.Present?
  }

  /** Whether two documents differ in the field `n`. */
  predicate DiffersAt(t: Task, u: Task, n: FieldName)
  {
    match n
    case User => t.user != u.user
    case Title => t.title != u.title
    case Description => t.description != u.description
    case Priority => t.priority != u.priority
    case DueDate => t.dueDate != u.dueDate
    case Completed => t.completed != u.completed
    case Category => t.category != u.category
  }

  /** Two documents are the same exactly when they have the same id and differ in no field. */
  lemma SameWhenNoDifference(t: Task, u: Task)
    ensures t == u <==> t.id == u.id && forall n :: !DiffersAt(t, u, n)
  {
    if t.id == u.id && forall n :: !DiffersAt(t, u, n) {
      assert !DiffersAt(t, u, User) && !DiffersAt(t, u, Title) && !DiffersAt(t, u, Description);
      assert !DiffersAt(t, u, Priority) && !DiffersAt(t, u, DueDate);
      assert !DiffersAt(t, u, Completed) && !DiffersAt(t, u, Category);
    }
  }

  /** A merge keeps the id and changes only fields whose key is present in the body. */
  lemma MergeChangesOnlyBodyKeys(t: Task, b: Body)
    ensures Merge(t, b).id == t.id
    ensures forall n :: DiffersAt(t, Merge(t, b), n) ==> HasKey(b, n)
  {
  }

  /** After a merge, the fields named by the body depend on the body alone:
      two documents merged with the same body agree on every body key and
      still differ at most where they differed before. */
  lemma MergeSetsBodyKeys(t1: Task, t2: Task, b: Body)
    ensures forall n :: HasKey(b, n) ==> !DiffersAt(Merge(t1, b), Merge(t2, b), n)
    ensures forall n :: DiffersAt(Merge(t1, b), Merge(t2, b), n) ==> DiffersAt(t1, t2, n)
  {
  }

  /** Every key the body carries overwrites that field with the body's value,
      `user` included. */
  lemma MergeWritesBodyValues(t: Task, b: Body)
    ensures b.user.Present? ==> Merge(t, b).user == b.user.value
    ensures b.title.Present? ==> Merge(t, b).title == b.title.value
    ensures b.description.Present? ==> Merge(t, b).description == b.description.value
    ensures b.priority.Present? ==> Merge(t, b).priority == b.priority.value
    ensures b.dueDate.Present? ==> Merge(t, b).dueDate == b.dueDate.value
    ensures b.completed.Present? ==> Merge(t, b).completed == b.completed.value
    ensures b.category.Present? ==> Merge(t, b).category == b.category.value
  {
  }

  /** Merging the empty body `{}` leaves the document as it was. */
  lemma MergeEmpty(t: Task)
    ensures Merge(t, EMPTY_BODY) == t
  {
  }

  /** Sending the same update twice has the effect of sending it once. */
  lemma MergeIdempotent(t: Task, b: Body)
    ensures Merge(Merge(t, b), b) == Merge(t, b)
  {
  }

  /** The body that `Object.assign(Object.assign(t, a), b)` is equivalent to:
      every key of `b`, and the keys of `a` that `b` does not carry. */
  function Then(a: Body, b: Body): (r: Body)
    ensures forall n :: HasKey(r, n) <==> HasKey(a, n) || HasKey(b, n)
  {
    Body(Over(a.user, b.user), Over(a.title, b.title), Over(a.description, b.description),
         Over(a.priority, b.priority), Over(a.dueDate, b.dueDate),
         Over(a.completed, b.completed), Over(a.category, b.category))
  }

  /** The later key wins when both bodies carry it. */
  function Over<T>(first: Field<T>, second: Field<T>): Field<T>
  {
    if second.Present? then second else first
  }

  /** Two successive updates amount to one update with the combined body. */
  lemma MergeTwice(t: Task, a: Body, b: Body)
    ensures Merge(Merge(t, a), b) == Merge(t, Then(a, b))
  {
  }

  /** No two documents of a collection share an id. */
  ghost predicate DistinctIds(s: seq<Task>)
  {
    forall i, j :: 0 <= i < j < |s| ==> s[i].id != s[j].id
  }
}
