/** The list route: the equality filter built from the query string, and the
    owner-scoped, due-date-ordered result it selects from the collection. */
module TaskQuery {

  import opened Wrappers
  import opened TaskModel

  /** The query-string parameters the list route reads; `None` is a parameter
      that does not occur in the URL. */
  datatype QueryParams = QueryParams(
    priority: Option<string>,
    category: Option<string>,
    completed: Option<string>)

  /** A request with no query string. */
  const NO_PARAMS := QueryParams(None, None, None)

  /** The equality filter handed to the database. The owner is always part of it;
      `None` in another field means that constraint was not added. */
  datatype Filter = Filter(
    user: UserId,
    priority: Option<string>,
    category: Option<string>,
    completed: Option<bool>)

  /** JavaScript truthiness of a query-string value: present and not `''`. */
  predicate Truthy(p: Option<string>)
  {
    p.Some? && p.value != ""
  }

  /** The filter the list route builds for the caller from the query string. */
  function BuildFilter(caller: UserId, q: QueryParams): (f: Filter)
    ensures f.user == caller
    ensures f.priority.Some? <==> q.priority.Some? && q.priority.value != ""
    ensures f.priority.Some? ==> f.priority == q.priority
    ensures f.category.Some? <==> q.category.Some? && q.category.value != ""
    ensures f.category.Some? ==> f.category == q.category
    ensures f.completed.Some? <==> q.completed.Some? && q.completed.value != ""
    ensures f.completed.Some? ==> (f.completed.value <==> q.completed.value == "true")
  {
    Filter(
      caller,
      if Truthy(q.priority) then q.priority else None,
      if Truthy(q.category) then q.category else None,
      if q.completed.Some? && q.completed.value != "" then Some(q.completed.value == "true") else None)
  }

  /** Whether a document satisfies every constraint of a filter (equality on each
      field the filter names; a document that lacks the field does not match). */
  predicate Matches(f: Filter, t: Task)
  {
    && t.user == f.user
    && (f.priority.Some? ==> t.priority == f.priority)
    && (f.category.Some? ==> t.category == f.category)
    && (f.completed.Some? ==> t.completed == f.completed)
  }

  /** The documents of `s` that match `f`, in collection order. */
  function Select(s: seq<Task>, f: Filter): seq<Task>
  {
    if s == [] then []
    else (if Matches(f, s[0]) then [s[0]] else []) + Select(s[1..], f)
  }

  /** The selection holds every matching document as often as the collection
      does, and nothing else. */
  lemma {:induction false} SelectCounts(s: seq<Task>, f: Filter)
    ensures forall t :: multiset(Select(s, f))[t] == if Matches(f, t) then multiset(s)[t] else 0
  {
    if s != [] {
      assert s == [s[0]] + s[1..];
      SelectCounts(s[1..], f);
    }
  }

  /** The ascending order on due dates that the database's sort uses: a document
      without a due date comes before every document that has one. */
  predicate DueLe(a: Option<int>, b: Option<int>)
  {
    a.None? || (b.Some? && a.value <= b.value)
  }

  /** Non-decreasing by due date. */
  ghost predicate SortedByDue(s: seq<Task>)
  {
    forall i, j :: 0 <= i < j < |s| ==> DueLe(s[i].dueDate, s[j].dueDate)
  }

  /** A document that comes before every element of a sorted sequence may head it. */
  lemma PrependSorted(x: Task, r: seq<Task>)
    requires SortedByDue(r)
    requires forall y :: y in r ==> DueLe(x.dueDate, y.dueDate)
    ensures SortedByDue([x] + r)
  {
  }

  /** Places `t` before the first document it does not come after. */
  function Insert(t: Task, s: seq<Task>): (r: seq<Task>)
    requires SortedByDue(s)
    ensures SortedByDue(r)
    ensures multiset(r) == multiset(s) + multiset{t}
  {
    if s == [] then [t]
    else if DueLe(t.dueDate, s[0].dueDate) then
      assert forall y :: y in s ==> DueLe(t.dueDate, y.dueDate) by {
        forall y | y in s ensures DueLe(t.dueDate, y.dueDate) {
          var k :| 0 <= k < |s| && s[k] == y;
          if k > 0 { assert DueLe(s[0].dueDate, s[k].dueDate); }
        }
      }
      PrependSorted(t, s);
      [t] + s
    else
      assert s == [s[0]] + s[1..];
      assert SortedByDue(s[1..]) by {
        forall i, j | 0 <= i < j < |s[1..]| ensures DueLe(s[1..][i].dueDate, s[1..][j].dueDate) {
          assert s[1..][i] == s[i + 1] && s[1..][j] == s[j + 1];
        }
      }
      var rest := Insert(t, s[1..]);
      assert forall y :: y in rest ==> DueLe(s[0].dueDate, y.dueDate) by {
        forall y | y in rest ensures DueLe(s[0].dueDate, y.dueDate) {
          assert y in multiset(rest);
          if y != t {
            assert y in multiset(s[1..]);
            var k :| 0 <= k < |s[1..]| && s[1..][k] == y;
            assert s[k + 1] == y;
          }
        }
      }
      PrependSorted(s[0], rest);
      [s[0]] + rest
  }

  /** Insertion sort by due date; documents with equal keys keep collection order. */
  function SortByDue(s: seq<Task>): (r: seq<Task>)
    ensures SortedByDue(r)
    ensures multiset(r) == multiset(s)
  {
    if s == [] then []
    else
      assert s == [s[0]] + s[1..];
      Insert(s[0], SortByDue(s[1..]))
  }

  /** `GET /`: the caller's documents that satisfy the query, sorted ascending by due date. */
  function List(s: seq<Task>, caller: UserId, q: QueryParams): (r: seq<Task>)
    ensures forall t :: t in r ==> t.user == caller
    ensures forall t :: multiset(r)[t] == if Matches(BuildFilter(caller, q), t) then multiset(s)[t] else 0
    ensures SortedByDue(r)
  {
    SelectCounts(s, BuildFilter(caller, q));
    var r := SortByDue(Select(s, BuildFilter(caller, q)));
    assert forall t :: t in r ==> t.user == caller by {
      forall t | t in r ensures t.user == caller {
        assert t in multiset(r);
      }
    }
    r
  }

  /** A document is listed exactly when it is in the collection and satisfies the
      filter, so only the caller's own documents are ever listed. */
  lemma ListExact(s: seq<Task>, caller: UserId, q: QueryParams, t: Task)
    ensures t in List(s, caller, q) <==> t in s && Matches(BuildFilter(caller, q), t)
    ensures t in List(s, caller, q) ==> t.user == caller
  {
    var r := List(s, caller, q);
    assert t in r <==> t in multiset(r);
    assert t in s <==> t in multiset(s);
  }

  /** Documents without a due date are listed before every document that has one. */
  lemma ListNoDueDateFirst(s: seq<Task>, caller: UserId, q: QueryParams, i: nat, j: nat)
    requires i < j < |List(s, caller, q)|
    requires List(s, caller, q)[j].dueDate.None?
    ensures List(s, caller, q)[i].dueDate.None?
  {
  }

  /** An empty `priority`, `category` or `completed` parameter is the same as leaving it out. */
  lemma EmptyParamIsAbsent(s: seq<Task>, caller: UserId, q: QueryParams)
    ensures List(s, caller, q.(priority := Some(""))) == List(s, caller, q.(priority := None))
    ensures List(s, caller, q.(category := Some(""))) == List(s, caller, q.(category := None))
    ensures List(s, caller, q.(completed := Some(""))) == List(s, caller, q.(completed := None))
  {
    assert BuildFilter(caller, q.(priority := Some(""))) == BuildFilter(caller, q.(priority := None));
    assert BuildFilter(caller, q.(category := Some(""))) == BuildFilter(caller, q.(category := None));
    assert BuildFilter(caller, q.(completed := Some(""))) == BuildFilter(caller, q.(completed := None));
  }

  /** `completed=true` lists only completed documents; any other non-empty value
      (`false`, `yes`, ...) lists only documents whose `completed` is `false`,
      exactly as `completed=false` does. */
  lemma CompletedParam(s: seq<Task>, caller: UserId, q: QueryParams, v: string)
    requires v != ""
    ensures forall t :: t in List(s, caller, q.(completed := Some(v))) ==>
      t.completed == Some(v == "true")
    ensures v != "true" ==>
      List(s, caller, q.(completed := Some(v))) == List(s, caller, q.(completed := Some("false")))
  {
    forall t | t in List(s, caller, q.(completed := Some(v))) ensures t.completed == Some(v == "true") {
      ListExact(s, caller, q.(completed := Some(v)), t);
    }
    if v != "true" {
      assert BuildFilter(caller, q.(completed := Some(v))) == BuildFilter(caller, q.(completed := Some("false")));
    }
  }

  /** Appending a document to the collection appends it to the selection when it matches. */
  lemma {:induction false} SelectAppend(s: seq<Task>, x: Task, f: Filter)
    ensures Select(s + [x], f) == Select(s, f) + (if Matches(f, x) then [x] else [])
  {
    if s == [] {
      assert s + [x] == [x];
      assert Select([x], f) == (if Matches(f, x) then [x] else []) + Select([], f);
    } else {
      var sx := s + [x];
      assert sx[0] == s[0] && sx[1..] == s[1..] + [x];
      SelectAppend(s[1..], x, f);
      calc {
        Select(sx, f);
        (if Matches(f, s[0]) then [s[0]] else []) + Select(s[1..] + [x], f);
        (if Matches(f, s[0]) then [s[0]] else []) + (Select(s[1..], f) + (if Matches(f, x) then [x] else []));
        Select(s, f) + (if Matches(f, x) then [x] else []);
      }
    }
  }

  /** Replacing a document by another changes no selection that matches neither. */
  lemma {:induction false} SelectReplace(s: seq<Task>, i: nat, x: Task, f: Filter)
    requires i < |s|
    requires !Matches(f, s[i]) && !Matches(f, x)
    ensures Select(s[i := x], f) == Select(s, f)
  {
    var sx := s[i := x];
    if i > 0 {
      assert sx[0] == s[0] && sx[1..] == s[1..][i - 1 := x];
      SelectReplace(s[1..], i - 1, x, f);
      assert Select(sx, f) == (if Matches(f, s[0]) then [s[0]] else []) + Select(sx[1..], f);
    } else {
      assert sx[1..] == s[1..];
      assert Select(sx, f) == Select(s[1..], f);
    }
  }

  /** Removing a document changes no selection it does not match. */
  lemma {:induction false} SelectRemove(s: seq<Task>, i: nat, f: Filter)
    requires i < |s|
    requires !Matches(f, s[i])
    ensures Select(s[..i] + s[i + 1..], f) == Select(s, f)
  {
    if i == 0 {
      assert s[..0] + s[1..] == s[1..];
    } else {
      assert (s[..i] + s[i + 1..])[1..] == s[1..][..i - 1] + s[1..][i..];
      assert (s[..i] + s[i + 1..])[0] == s[0];
      SelectRemove(s[1..], i - 1, f);
    }
  }

  /** Adding a document owned by someone else leaves a caller's listing as it was. */
  lemma ListIgnoresForeignInsert(s: seq<Task>, x: Task, caller: UserId, q: QueryParams)
    requires x.user != caller
    ensures List(s + [x], caller, q) == List(s, caller, q)
  {
    var f := BuildFilter(caller, q);
    SelectAppend(s, x, f);
    assert !Matches(f, x);
    assert Select(s + [x], f) == Select(s, f) + [];
    assert Select(s, f) + [] == Select(s, f);
  }

  /** Replacing a document that the caller owns neither before nor after leaves the
      caller's listing as it was. */
  lemma ListIgnoresForeignReplace(s: seq<Task>, i: nat, x: Task, caller: UserId, q: QueryParams)
    requires i < |s|
    requires s[i].user != caller && x.user != caller
    ensures List(s[i := x], caller, q) == List(s, caller, q)
  {
    SelectReplace(s, i, x, BuildFilter(caller, q));
  }

  /** Removing a document the caller does not own leaves the caller's listing as it was. */
  lemma ListIgnoresForeignRemove(s: seq<Task>, i: nat, caller: UserId, q: QueryParams)
    requires i < |s|
    requires s[i].user != caller
    ensures List(s[..i] + s[i + 1..], caller, q) == List(s, caller, q)
  {
    SelectRemove(s, i, BuildFilter(caller, q));
  }

  /** A document just added is in its owner's unfiltered listing. */
  lemma CreatedIsListed(s: seq<Task>, x: Task)
    ensures x in List(s + [x], x.user, NO_PARAMS)
  {
    ListExact(s + [x], x.user, NO_PARAMS, x);
  }
}
